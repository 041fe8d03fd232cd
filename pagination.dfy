/**
 * Deduplication and stop rules of the paginated collector
 * (`get_all_quality_data_by_company`), stated over the sequence of page-fetch
 * outcomes the collector observes.
 */
module Pagination {
  import opened Wrappers
  import opened PyValue

  /**
   * A member of `seen_ids`. Python hashes `True`, `1` and `1.0` alike, so every
   * number becomes a `NumKey`; strings (ids and `json.dumps` output) are `TextKey`s.
   */
  datatype Key = NoneKey | NumKey(r: real) | TextKey(s: string)

  /** The set key of a value; None where Python raises TypeError (a list or dict is unhashable). */
  function Hashed(v: Value): (k: Option<Key>)
    ensures k.None? <==> v.List? || v.Obj?
  {
    match v
    case Null => Some(NoneKey)
    case Bool(b) => Some(NumKey(if b then 1.0 else 0.0))
    case Int(i) => Some(NumKey(i as real))
    case Float(r) => Some(NumKey(r))
    case Str(s) => Some(TextKey(s))
    case List(_) => None
    case Obj(_) => None
  }

  /**
   * `item.get('record_id') or item.get('id') or item.get('processed_data', {}).get('record_id')`;
   * None where the last `.get` is applied to a value that is not a dict.
   */
  function CandidateId(item: Record): (c: Option<Value>)
    ensures Truthy(Get(item, "record_id")) ==> c == Some(Get(item, "record_id"))
    ensures !Truthy(Get(item, "record_id")) && Truthy(Get(item, "id")) ==> c == Some(Get(item, "id"))
    ensures !Truthy(Get(item, "record_id")) && !Truthy(Get(item, "id")) ==>
      (c.None? <==> "processed_data" in item && !item["processed_data"].Obj?)
    ensures !Truthy(Get(item, "record_id")) && !Truthy(Get(item, "id")) && "processed_data" !in item ==>
      c == Some(Null)
    ensures (!Truthy(Get(item, "record_id")) && !Truthy(Get(item, "id")) && "processed_data" in item &&
             item["processed_data"].Obj?) ==> c == Some(Get(item["processed_data"].fields, "record_id"))
  {
    var a := Get(item, "record_id");
    var b := Get(item, "id");
    if Truthy(a) then Some(a)
    else if Truthy(b) then Some(b)
    else match GetOr(item, "processed_data", Obj(map[]))
      case Obj(pd) => Some(Get(pd, "record_id"))
      case _ => None
  }

  /** `candidate_id or json.dumps(item, sort_keys=True)`, hashed; None where computing it raises. */
  function KeyOf(item: Record, dumps: Record -> string): Option<Key> {
    match CandidateId(item)
    case None => None
    case Some(c) => if Truthy(c) then Hashed(c) else Some(TextKey(dumps(item)))
  }

  /** Every item of `items` has a key (no item makes the collector raise). */
  predicate Keyed(items: seq<Record>, dumps: Record -> string) {
    forall i :: 0 <= i < |items| ==> KeyOf(items[i], dumps).Some?
  }

  /** The keys of the keyed items of `items`. */
  function KeySet(items: seq<Record>, dumps: Record -> string): set<Key>
    decreases |items|
  {
    if items == [] then {}
    else (match KeyOf(items[0], dumps) case Some(k) => {k} case None => {}) + KeySet(items[1..], dumps)
  }

  /** No two items share a key, and every item has one. */
  predicate UniqueKeys(items: seq<Record>, dumps: Record -> string) {
    && Keyed(items, dumps)
    && forall i, j :: 0 <= i < j < |items| ==> KeyOf(items[i], dumps) != KeyOf(items[j], dumps)
  }

  /** The new items of a run of `items` given the keys already `seen`, as the inner loop collects them. */
  function Dedupe(seen: set<Key>, items: seq<Record>, dumps: Record -> string): seq<Record>
    decreases |items|
  {
    if items == [] then []
    else match KeyOf(items[0], dumps)
      case None => Dedupe(seen, items[1..], dumps)
      case Some(k) =>
        if k in seen then Dedupe(seen, items[1..], dumps)
        else [items[0]] + Dedupe(seen + {k}, items[1..], dumps)
  }

  /** Item `i` of `items` is the first with its key, and that key was not already seen. */
  predicate FirstOfKey(seen: set<Key>, items: seq<Record>, i: int, dumps: Record -> string)
    requires 0 <= i < |items|
  {
    && KeyOf(items[i], dumps).Some?
    && KeyOf(items[i], dumps).value !in seen
    && forall j :: 0 <= j < i ==> KeyOf(items[j], dumps) != KeyOf(items[i], dumps)
  }

  /** Reference definition: the first-occurrence items among the first `n` items, in input order. */
  function FirstOccurrences(seen: set<Key>, items: seq<Record>, n: nat, dumps: Record -> string): seq<Record>
    requires n <= |items|
  {
    if n == 0 then []
    else FirstOccurrences(seen, items, n - 1, dumps)
         + (if FirstOfKey(seen, items, n - 1, dumps) then [items[n - 1]] else [])
  }

  // ---------------------------------------------------------------------------
  // Lemmas about keys and deduplication

  lemma {:induction false} KeySetAppend(a: seq<Record>, b: seq<Record>, dumps: Record -> string)
    ensures KeySet(a + b, dumps) == KeySet(a, dumps) + KeySet(b, dumps)
    decreases |a|
  {
    if a == [] {
      assert a + b == b;
    } else {
      assert (a + b)[1..] == a[1..] + b;
      KeySetAppend(a[1..], b, dumps);
    }
  }

  lemma {:induction false} KeySetMember(items: seq<Record>, i: int, dumps: Record -> string)
    requires 0 <= i < |items| && KeyOf(items[i], dumps).Some?
    ensures KeyOf(items[i], dumps).value in KeySet(items, dumps)
    decreases |items|
  {
    if i > 0 {
      KeySetMember(items[1..], i - 1, dumps);
    }
  }

  lemma {:induction false} KeySetWitness(items: seq<Record>, k: Key, dumps: Record -> string)
    requires k in KeySet(items, dumps)
    ensures exists i :: 0 <= i < |items| && KeyOf(items[i], dumps) == Some(k)
    decreases |items|
  {
    if KeyOf(items[0], dumps) != Some(k) {
      KeySetWitness(items[1..], k, dumps);
      var i :| 0 <= i < |items[1..]| && KeyOf(items[1..][i], dumps) == Some(k);
      assert KeyOf(items[i + 1], dumps) == Some(k);
    }
  }

  /** The keys the collector has seen after a run are the keys seen before plus those of the run. */
  lemma {:induction false} DedupeSeen(seen: set<Key>, items: seq<Record>, dumps: Record -> string)
    ensures seen + KeySet(Dedupe(seen, items, dumps), dumps) == seen + KeySet(items, dumps)
    ensures KeySet(Dedupe(seen, items, dumps), dumps) !! seen
    decreases |items|
  {
    if items != [] {
      match KeyOf(items[0], dumps)
      case None =>
        DedupeSeen(seen, items[1..], dumps);
      case Some(k) =>
        if k in seen {
          DedupeSeen(seen, items[1..], dumps);
        } else {
          DedupeSeen(seen + {k}, items[1..], dumps);
          var rest := Dedupe(seen + {k}, items[1..], dumps);
          KeySetAppend([items[0]], rest, dumps);
          assert ([items[0]] + rest)[1..] == rest;
        }
    }
  }

  /** Deduplicating `a + [x]` extends the deduplication of `a` by `x` exactly when `x`'s key is new. */
  lemma {:induction false} DedupeSnoc(seen: set<Key>, a: seq<Record>, x: Record, dumps: Record -> string)
    ensures Dedupe(seen, a + [x], dumps) ==
      Dedupe(seen, a, dumps) +
      (if KeyOf(x, dumps).Some? && KeyOf(x, dumps).value !in seen + KeySet(Dedupe(seen, a, dumps), dumps)
       then [x] else [])
    decreases |a|
  {
    if a == [] {
      assert [x][1..] == [];
    } else {
      assert (a + [x])[1..] == a[1..] + [x];
      match KeyOf(a[0], dumps)
      case None =>
        DedupeSnoc(seen, a[1..], x, dumps);
      case Some(k) =>
        if k in seen {
          DedupeSnoc(seen, a[1..], x, dumps);
        } else {
          DedupeSnoc(seen + {k}, a[1..], x, dumps);
          var rest := Dedupe(seen + {k}, a[1..], dumps);
          KeySetAppend([a[0]], rest, dumps);
          assert ([a[0]] + rest)[1..] == rest;
        }
    }
  }

  /** Deduplicating page after page with a persistent `seen` set is deduplicating the concatenation. */
  lemma {:induction false} DedupeAppend(seen: set<Key>, a: seq<Record>, b: seq<Record>, dumps: Record -> string)
    ensures Dedupe(seen, a + b, dumps) ==
      Dedupe(seen, a, dumps) + Dedupe(seen + KeySet(Dedupe(seen, a, dumps), dumps), b, dumps)
    decreases |a|
  {
    if a == [] {
      assert a + b == b;
      assert seen + KeySet(Dedupe(seen, a, dumps), dumps) == seen;
    } else {
      assert (a + b)[1..] == a[1..] + b;
      match KeyOf(a[0], dumps)
      case None =>
        DedupeAppend(seen, a[1..], b, dumps);
      case Some(k) =>
        if k in seen {
          DedupeAppend(seen, a[1..], b, dumps);
        } else {
          DedupeAppend(seen + {k}, a[1..], b, dumps);
          var rest := Dedupe(seen + {k}, a[1..], dumps);
          KeySetAppend([a[0]], rest, dumps);
          assert [a[0]][1..] == [];
          assert KeySet([a[0]], dumps) == {k};
          assert seen + KeySet(Dedupe(seen, a, dumps), dumps) == (seen + {k}) + KeySet(rest, dumps);
        }
    }
  }

  /** `Dedupe` keeps exactly the first item of each key not already seen, in input order. */
  lemma {:induction false} DedupeIsFirstOccurrences(seen: set<Key>, items: seq<Record>, dumps: Record -> string)
    ensures Dedupe(seen, items, dumps) == FirstOccurrences(seen, items, |items|, dumps)
  {
    var n := 0;
    while n < |items|
      invariant 0 <= n <= |items|
      invariant Dedupe(seen, items[..n], dumps) == FirstOccurrences(seen, items, n, dumps)
    {
      var x := items[n];
      assert items[..n + 1] == items[..n] + [x];
      DedupeSnoc(seen, items[..n], x, dumps);
      DedupeSeen(seen, items[..n], dumps);
      if KeyOf(x, dumps).Some? {
        var k := KeyOf(x, dumps).value;
        if k in KeySet(items[..n], dumps) {
          KeySetWitness(items[..n], k, dumps);
          var j :| 0 <= j < n && KeyOf(items[..n][j], dumps) == Some(k);
          assert KeyOf(items[j], dumps) == KeyOf(items[n], dumps);
          assert !FirstOfKey(seen, items, n, dumps);
        } else {
          forall j | 0 <= j < n
            ensures KeyOf(items[j], dumps) != KeyOf(items[n], dumps)
          {
            if KeyOf(items[j], dumps) == KeyOf(items[n], dumps) {
              assert items[j] == items[..n][j];
              KeySetMember(items[..n], j, dumps);
            }
          }
        }
      }
      n := n + 1;
    }
    assert items[..|items|] == items;
  }

  /** The deduplicated items all have keys, pairwise distinct and not already seen. */
  lemma {:induction false} DedupeUnique(seen: set<Key>, items: seq<Record>, dumps: Record -> string)
    ensures UniqueKeys(Dedupe(seen, items, dumps), dumps)
    ensures forall i :: 0 <= i < |Dedupe(seen, items, dumps)| ==>
      KeyOf(Dedupe(seen, items, dumps)[i], dumps).value !in seen
    decreases |items|
  {
    if items != [] {
      match KeyOf(items[0], dumps)
      case None =>
        DedupeUnique(seen, items[1..], dumps);
      case Some(k) =>
        if k in seen {
          DedupeUnique(seen, items[1..], dumps);
        } else {
          DedupeUnique(seen + {k}, items[1..], dumps);
        }
    }
  }

  /** Every deduplicated item is an item of the input. */
  lemma {:induction false} DedupeFromInput(seen: set<Key>, items: seq<Record>, dumps: Record -> string)
    ensures forall x :: x in Dedupe(seen, items, dumps) ==> x in items
    decreases |items|
  {
    if items != [] {
      match KeyOf(items[0], dumps)
      case None =>
        DedupeFromInput(seen, items[1..], dumps);
      case Some(k) =>
        if k in seen {
          DedupeFromInput(seen, items[1..], dumps);
        } else {
          DedupeFromInput(seen + {k}, items[1..], dumps);
        }
    }
  }

  // ---------------------------------------------------------------------------
  // The collector's loop, one page at a time

  /**
   * A body the data endpoint answered with HTTP 200: the objects of a JSON
   * list, or `Junk`, a non-empty body whose iteration yields something other
   * than an object (a dict, which yields its keys, a string, or a list holding
   * a non-object), on which the collector's `item.get` raises.
   */
  datatype Page = Rows(rows: seq<Record>) | Junk

  /** What one page fetch yields: None (`get_quality_data_by_company` returned None) or a page. */
  type Fetched = Option<Page>

  /** The collector's inner loop raises on this page: a non-object item, or an item whose key is unhashable. */
  predicate Raises(p: Page, dumps: Record -> string) {
    p.Junk? || !Keyed(p.rows, dumps)
  }

  /** What `get_all_quality_data_by_company` returns: `None`, a list, or an exception it lets escape. */
  datatype Collected = NoData | Items(items: seq<Record>) | Raised

  /** After a page, the collector either goes on with the items gathered so far or stops with a result. */
  datatype Verdict = Next(acc: seq<Record>) | Done(result: Collected)

  /** One iteration of the collector's loop, given the items `acc` gathered so far and the fetch outcome. */
  function Step(acc: seq<Record>, fetched: Fetched, pageSize: int, dumps: Record -> string): Verdict {
    match fetched
    case None => Done(if acc == [] then NoData else Items(acc))
    case Some(Junk) => Done(Raised)
    case Some(Rows(batch)) =>
      if batch == [] then Done(Items(acc))
      else if !Keyed(batch, dumps) then Done(Raised)
      else
        var novel := Dedupe(KeySet(acc, dumps), batch, dumps);
        if novel == [] then Done(Items(acc))
        else if |batch| < pageSize then Done(Items(acc + novel))
        else Next(acc + novel)
  }

  /**
   * Having gathered `acc` with `left` more fetches allowed by `max_pages`, the
   * collector observes the fetch outcomes `trace` (one per fetch, in order) and returns `r`.
   */
  predicate RunEndsWith(acc: seq<Record>, trace: seq<Fetched>, pageSize: int, left: int,
                        dumps: Record -> string, r: Collected)
    decreases |trace|
  {
    if trace == [] then left <= 0 && r == Items(acc)
    else
      && left > 0
      && match Step(acc, trace[0], pageSize, dumps)
         case Done(res) => |trace| == 1 && r == res
         case Next(acc') => RunEndsWith(acc', trace[1..], pageSize, left - 1, dumps, r)
  }

  /** The collector continues after a page exactly when it was a full page with at least one new item. */
  lemma StepContinues(acc: seq<Record>, fetched: Fetched, pageSize: int, dumps: Record -> string)
    ensures Step(acc, fetched, pageSize, dumps).Next? <==>
      && fetched.Some? && fetched.value.Rows? && fetched.value.rows != [] && Keyed(fetched.value.rows, dumps)
      && Dedupe(KeySet(acc, dumps), fetched.value.rows, dumps) != []
      && |fetched.value.rows| >= pageSize
  {
  }

  /** The items gathered after observing `trace`, when the collector went on after every one of them. */
  function Advance(acc: seq<Record>, trace: seq<Fetched>, pageSize: int, dumps: Record -> string): Option<seq<Record>>
    decreases |trace|
  {
    if trace == [] then Some(acc)
    else match Step(acc, trace[0], pageSize, dumps)
      case Next(acc') => Advance(acc', trace[1..], pageSize, dumps)
      case Done(_) => None
  }

  lemma {:induction false} AdvanceSnoc(acc: seq<Record>, trace: seq<Fetched>, t: Fetched,
                                       pageSize: int, dumps: Record -> string, a: seq<Record>, a': seq<Record>)
    requires Advance(acc, trace, pageSize, dumps) == Some(a)
    requires Step(a, t, pageSize, dumps) == Next(a')
    ensures Advance(acc, trace + [t], pageSize, dumps) == Some(a')
    decreases |trace|
  {
    if trace == [] {
      assert [t][1..] == [];
    } else {
      assert (trace + [t])[1..] == trace[1..] + [t];
      var acc' := Step(acc, trace[0], pageSize, dumps).acc;
      AdvanceSnoc(acc', trace[1..], t, pageSize, dumps, a, a');
    }
  }

  /** A run whose last fetch makes the collector stop ends with that stop's result. */
  lemma {:induction false} RunStopsAt(acc: seq<Record>, trace: seq<Fetched>, t: Fetched,
                                      pageSize: int, left: int, dumps: Record -> string, a: seq<Record>, res: Collected)
    requires Advance(acc, trace, pageSize, dumps) == Some(a)
    requires |trace| < left
    requires Step(a, t, pageSize, dumps) == Done(res)
    ensures RunEndsWith(acc, trace + [t], pageSize, left, dumps, res)
    decreases |trace|
  {
    if trace == [] {
      assert [t][1..] == [];
    } else {
      assert (trace + [t])[1..] == trace[1..] + [t];
      var acc' := Step(acc, trace[0], pageSize, dumps).acc;
      RunStopsAt(acc', trace[1..], t, pageSize, left - 1, dumps, a, res);
    }
  }

  /** A run that used up its page budget ends with the items gathered. */
  lemma {:induction false} RunAtCap(acc: seq<Record>, trace: seq<Fetched>, pageSize: int, left: int,
                                    dumps: Record -> string, a: seq<Record>)
    requires Advance(acc, trace, pageSize, dumps) == Some(a)
    requires |trace| == if left < 0 then 0 else left
    ensures RunEndsWith(acc, trace, pageSize, left, dumps, Items(a))
    decreases |trace|
  {
    if trace != [] {
      var v := Step(acc, trace[0], pageSize, dumps);
      assert v.Next? && Advance(v.acc, trace[1..], pageSize, dumps) == Some(a);
      RunAtCap(v.acc, trace[1..], pageSize, left - 1, dumps, a);
    }
  }

  /** The items of the successful fetches of a trace, concatenated in fetch order. */
  function Pages(trace: seq<Fetched>): seq<Record> {
    if trace == [] then []
    else (match trace[0] case Some(Rows(b)) => b case _ => []) + Pages(trace[1..])
  }

  /** A run makes at most `max_pages` fetches (none when `max_pages` is not positive). */
  lemma {:induction false} RunBounded(acc: seq<Record>, trace: seq<Fetched>, pageSize: int, left: int,
                                      dumps: Record -> string, r: Collected)
    requires RunEndsWith(acc, trace, pageSize, left, dumps, r)
    ensures |trace| <= if left < 0 then 0 else left
    decreases |trace|
  {
    if trace != [] {
      match Step(acc, trace[0], pageSize, dumps)
      case Done(_) =>
      case Next(acc') => RunBounded(acc', trace[1..], pageSize, left - 1, dumps, r);
    }
  }

  /** Every fetch but the last returned a full, non-empty page. */
  lemma {:induction false} RunPagesFull(acc: seq<Record>, trace: seq<Fetched>, pageSize: int, left: int,
                                        dumps: Record -> string, r: Collected)
    requires RunEndsWith(acc, trace, pageSize, left, dumps, r)
    ensures forall k :: 0 <= k < |trace| - 1 ==>
      trace[k].Some? && trace[k].value.Rows? && trace[k].value.rows != [] && |trace[k].value.rows| >= pageSize
    decreases |trace|
  {
    if trace != [] {
      match Step(acc, trace[0], pageSize, dumps)
      case Done(_) =>
      case Next(acc') =>
        RunPagesFull(acc', trace[1..], pageSize, left - 1, dumps, r);
        assert forall k :: 1 <= k < |trace| ==> trace[k] == trace[1..][k - 1];
    }
  }

  /**
   * The result of a run started from the items of `prefix` (deduplicated): a
   * list result is the deduplication of everything fetched; an exception comes
   * from a last fetch whose body was malformed and not empty, or whose page
   * holds an item without a key; `None` only when nothing at all
   * was gathered and the last fetch failed.
   */
  lemma {:induction false} RunResult(prefix: seq<Record>, trace: seq<Fetched>, pageSize: int, left: int,
                                     dumps: Record -> string, r: Collected)
    requires RunEndsWith(Dedupe({}, prefix, dumps), trace, pageSize, left, dumps, r)
    ensures r.Items? ==> r.items == Dedupe({}, prefix + Pages(trace), dumps)
    ensures r.Raised? ==> trace != [] && trace[|trace| - 1].Some? && Raises(trace[|trace| - 1].value, dumps)
    ensures r.NoData? ==> trace != [] && trace[|trace| - 1].None? && Dedupe({}, prefix + Pages(trace), dumps) == []
    decreases |trace|, 2
  {
    if trace == [] {
      assert prefix + Pages(trace) == prefix;
    } else if trace[0].None? {
      var acc := Dedupe({}, prefix, dumps);
      assert Step(acc, trace[0], pageSize, dumps) == Done(if acc == [] then NoData else Items(acc));
      assert |trace| == 1 && trace[1..] == [];
      assert Pages(trace) == [];
      assert prefix + Pages(trace) == prefix;
    } else {
      RunResultPage(prefix, trace, pageSize, left, dumps, r);
    }
  }

  /** The step of `RunResult` for a run whose first fetch returned a page. */
  lemma {:induction false} RunResultPage(prefix: seq<Record>, trace: seq<Fetched>, pageSize: int, left: int,
                                         dumps: Record -> string, r: Collected)
    requires trace != [] && trace[0].Some?
    requires RunEndsWith(Dedupe({}, prefix, dumps), trace, pageSize, left, dumps, r)
    ensures r.Items? ==> r.items == Dedupe({}, prefix + Pages(trace), dumps)
    ensures r.Raised? ==> trace != [] && trace[|trace| - 1].Some? && Raises(trace[|trace| - 1].value, dumps)
    ensures r.NoData? ==> trace != [] && trace[|trace| - 1].None? && Dedupe({}, prefix + Pages(trace), dumps) == []
    decreases |trace|, 1
  {
    var acc := Dedupe({}, prefix, dumps);
    if trace[0] == Some(Junk) {
      assert |trace| == 1;
      return;
    }
    var b := trace[0].value.rows;
    assert Pages(trace) == b + Pages(trace[1..]);
    var v := Step(acc, trace[0], pageSize, dumps);
    if v.Done? {
      assert |trace| == 1 && trace[1..] == [];
      assert prefix + Pages(trace) == prefix + b;
      PageDone(prefix, b, pageSize, dumps, v.result);
    } else {
      PageNext(prefix, b, pageSize, dumps, v.acc);
      RunResultRest(prefix, b, trace, pageSize, left, dumps, r);
    }
  }

  /** The rest of a run after a page the collector went on from. */
  lemma {:induction false} RunResultRest(prefix: seq<Record>, b: seq<Record>, trace: seq<Fetched>,
                                         pageSize: int, left: int, dumps: Record -> string, r: Collected)
    requires trace != [] && trace[0] == Some(Rows(b))
    requires Pages(trace) == b + Pages(trace[1..])
    requires Step(Dedupe({}, prefix, dumps), trace[0], pageSize, dumps) == Next(Dedupe({}, prefix + b, dumps))
    requires RunEndsWith(Dedupe({}, prefix, dumps), trace, pageSize, left, dumps, r)
    ensures r.Items? ==> r.items == Dedupe({}, prefix + Pages(trace), dumps)
    ensures r.Raised? ==> trace[|trace| - 1].Some? && Raises(trace[|trace| - 1].value, dumps)
    ensures r.NoData? ==> trace[|trace| - 1].None? && Dedupe({}, prefix + Pages(trace), dumps) == []
    decreases |trace|, 0
  {
    var tail := trace[1..];
    var acc' := Dedupe({}, prefix + b, dumps);
    assert RunEndsWith(acc', tail, pageSize, left - 1, dumps, r);
    RunResult(prefix + b, tail, pageSize, left - 1, dumps, r);
    var pt := Pages(tail);
    assert (prefix + b) + pt == prefix + (b + pt);
    if tail != [] {
      assert tail[|tail| - 1] == trace[|trace| - 1];
    }
  }

  /** A page that stops the collector leaves the deduplication of everything fetched, or raises on an unkeyed item. */
  lemma PageDone(prefix: seq<Record>, b: seq<Record>, pageSize: int, dumps: Record -> string, res: Collected)
    requires Step(Dedupe({}, prefix, dumps), Some(Rows(b)), pageSize, dumps) == Done(res)
    ensures res.Items? ==> res.items == Dedupe({}, prefix + b, dumps)
    ensures res.Raised? ==> !Keyed(b, dumps)
    ensures !res.NoData?
  {
    var acc := Dedupe({}, prefix, dumps);
    assert {} + KeySet(acc, dumps) == KeySet(acc, dumps);
    DedupeAppend({}, prefix, b, dumps);
    if b == [] {
      assert prefix + b == prefix;
    } else if Keyed(b, dumps) && Dedupe(KeySet(acc, dumps), b, dumps) == [] {
      assert acc + [] == acc;
    }
  }

  /** A page after which the collector goes on leaves the deduplication of everything fetched. */
  lemma PageNext(prefix: seq<Record>, b: seq<Record>, pageSize: int, dumps: Record -> string, acc': seq<Record>)
    requires Step(Dedupe({}, prefix, dumps), Some(Rows(b)), pageSize, dumps) == Next(acc')
    ensures acc' == Dedupe({}, prefix + b, dumps)
  {
    var acc := Dedupe({}, prefix, dumps);
    assert {} + KeySet(acc, dumps) == KeySet(acc, dumps);
    DedupeAppend({}, prefix, b, dumps);
  }

  /**
   * A fetch answered with a malformed non-empty body makes the whole
   * collection raise, whatever was gathered before it.
   */
  lemma {:induction false} JunkRaises(acc: seq<Record>, trace: seq<Fetched>, pageSize: int, left: int,
                                      dumps: Record -> string, r: Collected)
    requires RunEndsWith(acc, trace, pageSize, left, dumps, r)
    requires trace != [] && trace[|trace| - 1] == Some(Junk)
    ensures r == Raised
    decreases |trace|
  {
    match Step(acc, trace[0], pageSize, dumps)
    case Done(_) =>
    case Next(acc') =>
      assert trace[1..][|trace[1..]| - 1] == trace[|trace| - 1];
      JunkRaises(acc', trace[1..], pageSize, left - 1, dumps, r);
  }

  /** The collector's list result has no two items with the same key, and each came from a fetched page. */
  lemma CollectedUnique(trace: seq<Fetched>, pageSize: int, maxPages: int,
                        dumps: Record -> string, r: Collected)
    requires RunEndsWith([], trace, pageSize, maxPages, dumps, r)
    requires r.Items?
    ensures UniqueKeys(r.items, dumps)
    ensures forall x :: x in r.items ==> x in Pages(trace)
    ensures r.items == FirstOccurrences({}, Pages(trace), |Pages(trace)|, dumps)
  {
    assert Dedupe({}, [], dumps) == [];
    RunResult([], trace, pageSize, maxPages, dumps, r);
    assert [] + Pages(trace) == Pages(trace);
    DedupeUnique({}, Pages(trace), dumps);
    DedupeFromInput({}, Pages(trace), dumps);
    DedupeIsFirstOccurrences({}, Pages(trace), dumps);
  }

  /** The collector returns `None` only when its very first fetch failed. */
  lemma NoDataOnlyOnFirstFailure(trace: seq<Fetched>, pageSize: int, maxPages: int,
                                 dumps: Record -> string)
    requires RunEndsWith([], trace, pageSize, maxPages, dumps, NoData)
    ensures trace == [None]
  {
    if |trace| > 1 {
      match Step([], trace[0], pageSize, dumps)
      case Done(_) =>
      case Next(acc') =>
        assert acc' != [];
        NoDataAfterItems(acc', trace[1..], pageSize, maxPages - 1, dumps);
    }
  }

  lemma {:induction false} NoDataAfterItems(acc: seq<Record>, trace: seq<Fetched>, pageSize: int,
                                            left: int, dumps: Record -> string)
    requires acc != []
    ensures !RunEndsWith(acc, trace, pageSize, left, dumps, NoData)
    decreases |trace|
  {
    if trace != [] {
      match Step(acc, trace[0], pageSize, dumps)
      case Done(_) =>
      case Next(acc') => NoDataAfterItems(acc', trace[1..], pageSize, left - 1, dumps);
    }
  }
}
