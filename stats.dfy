/**
 * `QualityDataService.get_quality_stats`: counts over the stored quality
 * rows of one company, or of every company when none is named.
 */
module QualityStats {
  import opened Wrappers
  import opened Companies
  import opened FieldMapper
  import opened QualityRecord

  /** The counting part of the statistics dictionary (the averages are not modelled). */
  datatype Stats = Stats(total: nat, approved: nat, rejected: int, breakdown: map<string, nat>, companies: nat)

  /** Whether a company label filters the query: a non-empty string does. */
  predicate Names(empresa: Option<string>) {
    empresa.Some? && empresa.value != ""
  }

  /**
   * The company label the rows are filtered by: the argument when non-empty,
   * otherwise the name of the user's company, otherwise none (every row).
   */
  function ScopeName(empresa: Option<string>, userCompany: Option<Company>): Option<string>
  {
    if Names(empresa) then empresa
    else if userCompany.Some? then Some(userCompany.value.name)
    else None
  }

  /** The rows whose label is `name`, in stored order. */
  function Filter(rows: seq<Row>, name: string): (r: seq<Row>)
    ensures |r| <= |rows|
    ensures forall x :: x in r <==> x in rows && x.empresa == name
    decreases |rows|
  {
    if rows == [] then []
    else (if rows[0].empresa == name then [rows[0]] else []) + Filter(rows[1..], name)
  }

  /** The queryset of the statistics. */
  function Scope(rows: seq<Row>, name: Option<string>): seq<Row>
  {
    if name.Some? then Filter(rows, name.value) else rows
  }

  /** Rows with `aprobado` set. */
  function Approved(rows: seq<Row>): (n: nat)
    ensures n <= |rows|
    ensures n == |rows| <==> forall i :: 0 <= i < |rows| ==> rows[i].aprobado
    decreases |rows|
  {
    if rows == [] then 0 else (if rows[0].aprobado then 1 else 0) + Approved(rows[1..])
  }

  /** How many rows carry the quality label `c`. */
  function CountLabel(rows: seq<Row>, c: string): (n: nat)
    ensures n <= |rows|
    decreases |rows|
  {
    if rows == [] then 0 else CountLabel(rows[..|rows| - 1], c) + (if rows[|rows| - 1].calidadGeneral == c then 1 else 0)
  }

  /** `values('calidad_general').annotate(count=...)`: one entry per label present, with its count. */
  function Breakdown(rows: seq<Row>): map<string, nat>
    decreases |rows|
  {
    if rows == [] then map[]
    else
      var b := Breakdown(rows[..|rows| - 1]);
      var c := rows[|rows| - 1].calidadGeneral;
      b[c := (if c in b then b[c] else 0) + 1]
  }

  /** `values('empresa').distinct()`: the labels of the rows, without repetition. */
  function Labels(rows: seq<Row>): (s: set<string>)
    ensures |s| <= |rows|
    decreases |rows|
  {
    if rows == [] then {} else Labels(rows[..|rows| - 1]) + {rows[|rows| - 1].empresa}
  }

  /** Rows that all carry the label `n` have no other label, and have it when there is a row. */
  lemma {:induction false} OneLabel(rows: seq<Row>, n: string)
    requires forall i :: 0 <= i < |rows| ==> rows[i].empresa == n
    ensures Labels(rows) == if rows == [] then {} else {n}
    decreases |rows|
  {
    if rows != [] {
      OneLabel(rows[..|rows| - 1], n);
    }
  }

  /** `get_quality_stats(user, empresa)` restricted to its counts. */
  function QualityStatsOf(rows: seq<Row>, empresa: Option<string>, userCompany: Option<Company>): Stats {
    var q := Scope(rows, ScopeName(empresa, userCompany));
    Stats(|q|, Approved(q), |q| - Approved(q), Breakdown(q), |Labels(q)|)
  }

  /** The breakdown lists exactly the labels that occur, each with the number of rows carrying it. */
  lemma {:induction false} BreakdownCounts(rows: seq<Row>, c: string)
    ensures c in Breakdown(rows) <==> CountLabel(rows, c) > 0
    ensures c in Breakdown(rows) ==> Breakdown(rows)[c] == CountLabel(rows, c)
    decreases |rows|
  {
    if rows != [] {
      BreakdownCounts(rows[..|rows| - 1], c);
    }
  }

  /** When every row carries one of the four quality choices, their four counts add up to the total. */
  lemma {:induction false} ChoicesPartition(rows: seq<Row>)
    requires forall i :: 0 <= i < |rows| ==> rows[i].calidadGeneral in {"excelente", "buena", "regular", "mala"}
    ensures CountLabel(rows, "excelente") + CountLabel(rows, "buena") + CountLabel(rows, "regular")
            + CountLabel(rows, "mala") == |rows|
    decreases |rows|
  {
    if rows != [] {
      ChoicesPartition(rows[..|rows| - 1]);
    }
  }

  /**
   * The counts are consistent: approved and rejected partition the total,
   * and there are at most as many companies as rows; a named company gives
   * at most one.
   */
  lemma StatsConsistent(rows: seq<Row>, empresa: Option<string>, userCompany: Option<Company>)
    ensures var s := QualityStatsOf(rows, empresa, userCompany);
      && s.approved + s.rejected == s.total && s.rejected >= 0
      && s.companies <= s.total
      && (ScopeName(empresa, userCompany).Some? ==> s.companies <= 1)
  {
    var name := ScopeName(empresa, userCompany);
    var q := Scope(rows, name);
    if name.Some? {
      assert forall i :: 0 <= i < |q| ==> q[i] in q;
      OneLabel(q, name.value);
    }
  }

  /**
   * The scope decides which rows are counted: exactly the rows labelled with
   * the non-empty argument, else those labelled with the user's company name,
   * else every row.
   */
  lemma ScopeDecidesRows(rows: seq<Row>, empresa: Option<string>, userCompany: Option<Company>, x: Row)
    ensures var q := Scope(rows, ScopeName(empresa, userCompany));
      x in q <==> x in rows && (Names(empresa) ==> x.empresa == empresa.value)
                            && (!Names(empresa) && userCompany.Some? ==> x.empresa == userCompany.value.name)
    ensures QualityStatsOf(rows, empresa, userCompany).total == |Scope(rows, ScopeName(empresa, userCompany))|
  {
  }

  /** Without an argument, a user of a named company sees the statistics of that company's label. */
  lemma UserCompanyScope(rows: seq<Row>, empresa: Option<string>, c: Company)
    requires !Names(empresa) && c.name != ""
    ensures QualityStatsOf(rows, empresa, Some(c)) == QualityStatsOf(rows, Some(c.name), None)
    ensures QualityStatsOf(rows, empresa, Some(c)).total == |Filter(rows, c.name)|
  {
  }

  /** A named company scopes the statistics to exactly its rows, whoever asks. */
  lemma NamedCompanyWins(rows: seq<Row>, empresa: string, userCompany: Option<Company>)
    requires empresa != ""
    ensures QualityStatsOf(rows, Some(empresa), userCompany) == QualityStatsOf(rows, Some(empresa), None)
    ensures QualityStatsOf(rows, Some(empresa), userCompany).total == |Filter(rows, empresa)|
  {
  }

  /** With no company named and no company for the user, every stored row is counted. */
  lemma UnscopedCountsAll(rows: seq<Row>, empresa: Option<string>)
    requires !Names(empresa)
    ensures QualityStatsOf(rows, empresa, None).total == |rows|
    ensures QualityStatsOf(rows, empresa, None).approved == Approved(rows)
  {
  }
}
