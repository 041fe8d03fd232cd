/**
 * The JSON body of a page request to the external quality-data endpoint, as
 * `get_quality_data_by_company` builds it.
 */
module PageRequests {
  import opened Wrappers

  /**
   * The request body. Keys that the source leaves out of the dictionary are
   * `None` here.
   */
  datatype RequestBody = RequestBody(
    filters: map<string, string>,
    limit: Option<int>,
    pageSize: Option<int>,
    page: Option<int>,
    offset: Option<int>
  )

  function Max(a: int, b: int): int { if a < b then b else a }

  /** `(offset // max(limit, 1)) + 1 if offset > 0 else 1`. */
  function PageNumber(limit: int, offset: int): int {
    if offset > 0 then offset / Max(limit, 1) + 1 else 1
  }

  /** The body sent for company `empresa`, optional `limit` and `offset`. */
  function BuildRequest(empresa: string, limit: Option<int>, offset: int): (b: RequestBody)
    ensures b.filters.Keys == {"EMPRESA", "PRODUCTOR"}
    ensures b.filters["EMPRESA"] == empresa && b.filters["PRODUCTOR"] == empresa
    ensures b.limit == limit && b.pageSize == limit
    ensures b.page.Some? <==> limit.Some?
    ensures b.offset.Some? <==> offset > 0
    ensures b.offset.Some? ==> b.offset.value == offset
  {
    RequestBody(
      map["EMPRESA" := empresa, "PRODUCTOR" := empresa],
      limit,
      limit,
      if limit.Some? then Some(PageNumber(limit.value, offset)) else None,
      if offset > 0 then Some(offset) else None)
  }

  /**
   * The page number is the 1-based page of width `max(limit, 1)` that holds
   * record number `offset`, so the three pagination styles agree.
   */
  lemma PageHoldsOffset(empresa: string, limit: int, offset: int)
    requires offset >= 0
    ensures var b := BuildRequest(empresa, Some(limit), offset);
      && b.page.Some? && b.page.value >= 1
      && (b.page.value - 1) * Max(limit, 1) <= offset < b.page.value * Max(limit, 1)
  {
    var w := Max(limit, 1);
    var p := PageNumber(limit, offset);
    if offset > 0 {
      var q := offset / w;
      assert offset == q * w + offset % w;
      assert p - 1 == q;
      assert p * w == q * w + w;
    } else {
      assert p == 1;
    }
  }

  /** The request for page `k` (0-based) of size `ps > 0` names page `k + 1`. */
  lemma {:induction false} PageOfKthRequest(empresa: string, ps: int, k: nat)
    requires ps > 0
    ensures var b := BuildRequest(empresa, Some(ps), k * ps);
      && b.page == Some(k + 1)
      && b.offset == (if k > 0 then Some(k * ps) else None)
  {
    if k > 0 {
      assert k * ps > 0;
      assert (k * ps) / ps == k;
    }
  }
}
