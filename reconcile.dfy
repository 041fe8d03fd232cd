/**
 * The reconciliation loop of `sync_quality_data_for_company`: every external
 * record is mapped and then matched against the stored rows, by external
 * record id first and by (company, timestamp) otherwise; it updates the
 * match or creates a row, and counts what it did. A record that raises is
 * skipped.
 */
module Reconciliation {
  import opened Wrappers
  import opened PyValue
  import opened Companies
  import opened FieldMapper
  import opened QualityRecord
  import ExternalApi

  datatype Outcome = Created | Updated | Failed

  /** The outcome of one record and the rows afterwards. */
  datatype Step = Step(outcome: Outcome, rows: seq<Row>)

  // ---------------------------------------------------------------------------
  // Lookups

  /** `processed_data -> additional_info -> record_id` of a stored row; a missing path reads as null. */
  function StoredRecordId(r: Row): Value {
    if r.processedData.Obj? && "additional_info" in r.processedData.fields
       && r.processedData.fields["additional_info"].Obj?
    then Get(r.processedData.fields["additional_info"].fields, "record_id")
    else Null
  }

  predicate IdMatch(r: Row, empresa: string, rid: Value) {
    r.empresa == empresa && StoredRecordId(r) == rid
  }

  /**
   * `.filter(empresa=..., processed_data__additional_info__record_id=...).first()`
   * under `ordering = ['-fecha_registro']`: the latest match, the earliest row among equal timestamps.
   */
  function LatestMatch(rows: seq<Row>, empresa: string, rid: Value): (r: Option<nat>)
    ensures r.Some? ==> r.value < |rows| && IdMatch(rows[r.value], empresa, rid)
    ensures r.None? <==> forall j :: 0 <= j < |rows| ==> !IdMatch(rows[j], empresa, rid)
    ensures r.Some? ==> forall j :: 0 <= j < |rows| && IdMatch(rows[j], empresa, rid) ==>
      rows[j].fechaRegistro <= rows[r.value].fechaRegistro &&
      (rows[j].fechaRegistro == rows[r.value].fechaRegistro ==> r.value <= j)
    decreases |rows|
  {
    if rows == [] then None
    else
      var rest := LatestMatch(rows[1..], empresa, rid);
      if !IdMatch(rows[0], empresa, rid) then
        if rest.Some? then Some(rest.value + 1) else None
      else if rest.Some? && rows[1..][rest.value].fechaRegistro > rows[0].fechaRegistro then
        Some(rest.value + 1)
      else Some(0)
  }

  predicate KeyMatch(r: Row, empresa: string, fecha: real) {
    r.empresa == empresa && r.fechaRegistro == fecha
  }

  /** How many rows `get_or_create(empresa=..., fecha_registro=...)` finds. */
  function CountKey(rows: seq<Row>, empresa: string, fecha: real): (n: nat)
    ensures n == 0 <==> forall j :: 0 <= j < |rows| ==> !KeyMatch(rows[j], empresa, fecha)
    ensures n <= |rows|
    decreases |rows|
  {
    if rows == [] then 0
    else CountKey(rows[..|rows| - 1], empresa, fecha) + (if KeyMatch(rows[|rows| - 1], empresa, fecha) then 1 else 0)
  }

  /** The last row with this key. */
  function LastKey(rows: seq<Row>, empresa: string, fecha: real): (r: Option<nat>)
    ensures r.Some? ==> r.value < |rows| && KeyMatch(rows[r.value], empresa, fecha)
    ensures r.None? <==> CountKey(rows, empresa, fecha) == 0
    decreases |rows|
  {
    if rows == [] then None
    else if KeyMatch(rows[|rows| - 1], empresa, fecha) then Some(|rows| - 1)
    else LastKey(rows[..|rows| - 1], empresa, fecha)
  }

  /** With exactly one match, the match `LastKey` finds is the only one. */
  lemma {:induction false} SingleKey(rows: seq<Row>, empresa: string, fecha: real, j: nat)
    requires CountKey(rows, empresa, fecha) == 1
    requires j < |rows| && KeyMatch(rows[j], empresa, fecha)
    ensures LastKey(rows, empresa, fecha) == Some(j)
    decreases |rows|
  {
    var front := rows[..|rows| - 1];
    if j < |rows| - 1 {
      assert front[j] == rows[j];
      if KeyMatch(rows[|rows| - 1], empresa, fecha) {
        assert false;
      }
      SingleKey(front, empresa, fecha, j);
    }
  }

  // ---------------------------------------------------------------------------
  // Writes

  /** The text columns are NOT NULL: assigning None to one of them makes the save raise. */
  predicate Storable(m: Mapped) {
    !m.empresa.Null? && !m.color.Null? && !m.observaciones.Null?
  }

  /** `setattr` of every mapped field, then `processed_data`; `created_by` and `company` are kept. */
  function Overwrite(r: Row, m: Mapped, lib: Lib): Row {
    r.(
      empresa := PyStr(m.empresa, lib),
      fechaRegistro := m.fechaRegistro,
      solidosSolubles := m.solidosSolubles,
      acidezTitulable := m.acidezTitulable,
      defectosPorcentaje := m.defectosPorcentaje,
      defectosDescripcion := m.defectosDescripcion,
      calibre := m.calibre,
      color := PyStr(m.color, lib),
      calidadGeneral := GradeLabel(m.calidadGeneral),
      aprobado := m.aprobado,
      observaciones := PyStr(m.observaciones, lib),
      processedData := ProcessedData(m))
  }

  /** The row `get_or_create` builds from `defaults`, attributed to `user`. */
  function FreshRow(m: Mapped, user: Option<nat>, lib: Lib): Row {
    Overwrite(Row("", 0.0, None, None, None, "", "", "", "", false, "", user, None, Null), m, lib)
  }

  /** `QualityData.save`: associate a company, then write. */
  function Saved(r: Row, m: Mapped, companies: seq<Company>, lib: Lib): Row {
    r.(company := AssociateOnSave(r.company, m.empresa, companies, lib))
  }

  /** Update row `i` from `m`, or fail when a NOT NULL column would receive None. */
  function UpdateAt(rows: seq<Row>, i: nat, m: Mapped, companies: seq<Company>, lib: Lib): Step
    requires i < |rows|
  {
    if Storable(m) then Step(Updated, rows[i := Saved(Overwrite(rows[i], m, lib), m, companies, lib)])
    else Step(Failed, rows)
  }

  // ---------------------------------------------------------------------------
  // One record

  /** Lines 411-457 for one external record, given what the mapper made of it. */
  function Reconcile1(rows: seq<Row>, empresa: string, mapped: Result<Mapped, MapFailure>, user: Option<nat>,
                      lib: Lib, companies: seq<Company>): Step
  {
    match mapped
    case Failure(_) => Step(Failed, rows)
    case Success(m) =>
      var rid := RecordId(m);
      var hit := if Truthy(rid) then LatestMatch(rows, empresa, rid) else None;
      if hit.Some? then UpdateAt(rows, hit.value, m, companies, lib)
      else
        var n := CountKey(rows, empresa, m.fechaRegistro);
        if n == 0 then
          if Storable(m) then Step(Created, rows + [Saved(FreshRow(m, user, lib), m, companies, lib)])
          else Step(Failed, rows)
        else if n == 1 then UpdateAt(rows, LastKey(rows, empresa, m.fechaRegistro).value, m, companies, lib)
        else Step(Failed, rows)  // MultipleObjectsReturned
  }

  /** What one record does to the rows: a failure changes nothing, an update keeps the length, a creation appends one row. */
  lemma Reconcile1Shape(rows: seq<Row>, empresa: string, mapped: Result<Mapped, MapFailure>, user: Option<nat>,
                        lib: Lib, companies: seq<Company>)
    ensures var s := Reconcile1(rows, empresa, mapped, user, lib, companies);
      && (s.outcome == Failed ==> s.rows == rows)
      && (s.outcome == Updated ==>
            |s.rows| == |rows| &&
            exists i :: 0 <= i < |rows| && s.rows == rows[i := s.rows[i]] && s.rows[i].createdBy == rows[i].createdBy)
      && (s.outcome == Created ==>
            |s.rows| == |rows| + 1 && s.rows[..|rows|] == rows && s.rows[|rows|].createdBy == user)
  {
    var s := Reconcile1(rows, empresa, mapped, user, lib, companies);
    if s.outcome == Updated {
      var m := mapped.value;
      var rid := RecordId(m);
      var hit := if Truthy(rid) then LatestMatch(rows, empresa, rid) else None;
      var i := if hit.Some? then hit.value else LastKey(rows, empresa, m.fechaRegistro).value;
      assert s.rows == rows[i := s.rows[i]];
    }
  }

  /**
   * What a row written from `m` displays: the mapped company label when it
   * is non-empty, else the name of the company the row already had; the
   * capitalised mapped grade; "Sí" exactly when the record was approved.
   */
  predicate ShowsMapped(w: Row, r: Row, m: Mapped, lib: Lib) {
    && (PyStr(m.empresa, lib) != "" ==> EmpresaDisplay(w) == PyStr(m.empresa, lib))
    && (PyStr(m.empresa, lib) == "" && r.company.Some? ==> EmpresaDisplay(w) == r.company.value.name)
    && CalidadDisplay(w) == GradeName(m.calidadGeneral)
    && (AprobadoDisplay(w) == "Sí" <==> m.aprobado)
  }

  /** A written row shows the mapped record through the display properties. */
  lemma SavedShowsMapped(r: Row, m: Mapped, companies: seq<Company>, lib: Lib)
    ensures ShowsMapped(Saved(Overwrite(r, m, lib), m, companies, lib), r, m, lib)
  {
    GradeDisplays(Saved(Overwrite(r, m, lib), m, companies, lib), m.calidadGeneral);
  }

  /**
   * The row a record writes displays what the mapper made of it; a created
   * row whose label is empty and falsy displays "Sin empresa".
   */
  lemma Reconcile1Displays(rows: seq<Row>, empresa: string, m: Mapped, user: Option<nat>,
                           lib: Lib, companies: seq<Company>)
    ensures var s := Reconcile1(rows, empresa, Success(m), user, lib, companies);
      && (s.outcome == Created ==>
            && |s.rows| == |rows| + 1
            && ShowsMapped(s.rows[|rows|], FreshRow(m, user, lib), m, lib)
            && (PyStr(m.empresa, lib) == "" && !Truthy(m.empresa) ==> EmpresaDisplay(s.rows[|rows|]) == "Sin empresa"))
      && (s.outcome == Updated ==>
            exists i :: 0 <= i < |rows| && s.rows == rows[i := s.rows[i]] && ShowsMapped(s.rows[i], rows[i], m, lib))
  {
    var s := Reconcile1(rows, empresa, Success(m), user, lib, companies);
    var rid := RecordId(m);
    var hit := if Truthy(rid) then LatestMatch(rows, empresa, rid) else None;
    if s.outcome == Created {
      SavedShowsMapped(FreshRow(m, user, lib), m, companies, lib);
    } else if s.outcome == Updated {
      var i := if hit.Some? then hit.value else LastKey(rows, empresa, m.fechaRegistro).value;
      SavedShowsMapped(rows[i], m, companies, lib);
      assert s.rows == rows[i := s.rows[i]];
    }
  }

  /** A record the mapper rejects, or one that would write None into a text column, is counted as neither. */
  lemma Reconcile1Fails(rows: seq<Row>, empresa: string, mapped: Result<Mapped, MapFailure>, user: Option<nat>,
                        lib: Lib, companies: seq<Company>)
    ensures mapped.Failure? || !Storable(mapped.value) ==>
      Reconcile1(rows, empresa, mapped, user, lib, companies) == Step(Failed, rows)
  {
  }

  /** A record whose id matches a stored row of the company updates the latest such row, whatever its timestamp. */
  lemma RecordIdMatchUpdates(rows: seq<Row>, empresa: string, m: Mapped, user: Option<nat>,
                             lib: Lib, companies: seq<Company>, j: nat)
    requires Storable(m) && Truthy(RecordId(m))
    requires j < |rows| && IdMatch(rows[j], empresa, RecordId(m))
    ensures var s := Reconcile1(rows, empresa, Success(m), user, lib, companies);
      var i := LatestMatch(rows, empresa, RecordId(m)).value;
      && s.outcome == Updated
      && rows[j].fechaRegistro <= rows[i].fechaRegistro
      && s.rows == rows[i := Saved(Overwrite(rows[i], m, lib), m, companies, lib)]
  {
  }

  /** Without an id match, a record creates a row when no row has its key, and updates the row when exactly one has it. */
  lemma KeyFallback(rows: seq<Row>, empresa: string, m: Mapped, user: Option<nat>,
                    lib: Lib, companies: seq<Company>)
    requires Storable(m)
    requires !Truthy(RecordId(m)) || forall j :: 0 <= j < |rows| ==> !IdMatch(rows[j], empresa, RecordId(m))
    ensures var s := Reconcile1(rows, empresa, Success(m), user, lib, companies);
      && (CountKey(rows, empresa, m.fechaRegistro) == 0 ==>
            s == Step(Created, rows + [Saved(FreshRow(m, user, lib), m, companies, lib)]))
      && (CountKey(rows, empresa, m.fechaRegistro) == 1 ==>
            var i := LastKey(rows, empresa, m.fechaRegistro).value;
            s == Step(Updated, rows[i := Saved(Overwrite(rows[i], m, lib), m, companies, lib)]))
      && (CountKey(rows, empresa, m.fechaRegistro) > 1 ==> s == Step(Failed, rows))
  {
  }

  /** The new row holds the mapped values, with the stored text of the company label. */
  lemma FreshRowHoldsMapped(m: Mapped, user: Option<nat>, companies: seq<Company>, lib: Lib)
    ensures var r := Saved(FreshRow(m, user, lib), m, companies, lib);
      && r.empresa == PyStr(m.empresa, lib) && r.fechaRegistro == m.fechaRegistro
      && r.solidosSolubles == m.solidosSolubles && r.acidezTitulable == m.acidezTitulable
      && r.defectosPorcentaje == m.defectosPorcentaje && r.calidadGeneral == GradeLabel(m.calidadGeneral)
      && r.aprobado == m.aprobado && r.createdBy == user && r.processedData == ProcessedData(m)
      && StoredRecordId(r) == RecordId(m)
  {
  }

  /**
   * Re-syncing a record just created, mapped the same way again, updates
   * instead of creating when the payload's company label is the sync argument.
   */
  lemma ResyncUpdates(rows: seq<Row>, empresa: string, m: Mapped, user: Option<nat>,
                      lib: Lib, companies: seq<Company>)
    requires Reconcile1(rows, empresa, Success(m), user, lib, companies).outcome == Created
    requires PyStr(m.empresa, lib) == empresa
    ensures var after := Reconcile1(rows, empresa, Success(m), user, lib, companies).rows;
      Reconcile1(after, empresa, Success(m), user, lib, companies).outcome == Updated
  {
    var after := Reconcile1(rows, empresa, Success(m), user, lib, companies).rows;
    var r := Saved(FreshRow(m, user, lib), m, companies, lib);
    assert after == rows + [r];
    assert after[..|after| - 1] == rows;
    assert KeyMatch(after[|rows|], empresa, m.fechaRegistro);
    assert CountKey(after, empresa, m.fechaRegistro) == 1;
    if Truthy(RecordId(m)) {
      FreshRowHoldsMapped(m, user, companies, lib);
      assert IdMatch(after[|rows|], empresa, RecordId(m));
    }
  }

  /**
   * When the payload's company label differs from the sync argument and no
   * row matches the record's id (or it has none), re-syncing it creates a
   * second row: both lookups filter on the argument while the stored label
   * comes from the payload, so the fresh row is found by neither.
   */
  lemma ResyncDuplicates(rows: seq<Row>, empresa: string, m: Mapped, user: Option<nat>,
                         lib: Lib, companies: seq<Company>)
    requires Reconcile1(rows, empresa, Success(m), user, lib, companies).outcome == Created
    requires PyStr(m.empresa, lib) != empresa
    requires !Truthy(RecordId(m)) || forall j :: 0 <= j < |rows| ==> !IdMatch(rows[j], empresa, RecordId(m))
    ensures var after := Reconcile1(rows, empresa, Success(m), user, lib, companies).rows;
      var again := Reconcile1(after, empresa, Success(m), user, lib, companies);
      again.outcome == Created && |again.rows| == |rows| + 2
  {
    var after := Reconcile1(rows, empresa, Success(m), user, lib, companies).rows;
    assert after[..|after| - 1] == rows;
    assert !KeyMatch(after[|after| - 1], empresa, m.fechaRegistro);
    if Truthy(RecordId(m)) {
      forall j | 0 <= j < |after| ensures !IdMatch(after[j], empresa, RecordId(m)) {
        if j < |rows| { assert after[j] == rows[j]; }
      }
    }
  }

  // ---------------------------------------------------------------------------
  // The whole batch

  /** The counters and the rows. */
  datatype Tally = Tally(created: nat, updated: nat, rows: seq<Row>)

  /** What `mapper` makes of the records `items`, the k-th of them mapped at clock reading `at(tick + k)`. */
  function MapAll(items: seq<Record>, mapper: (Record, real) -> Result<Mapped, MapFailure>, at: nat -> real,
                  tick: nat): (ms: seq<Result<Mapped, MapFailure>>)
    ensures |ms| == |items|
    decreases |items|
  {
    if items == [] then [] else [mapper(items[0], at(tick))] + MapAll(items[1..], mapper, at, tick + 1)
  }

  /** The k-th mapped record is the k-th record mapped at the k-th clock reading. */
  lemma {:induction false} MapAllAt(items: seq<Record>, mapper: (Record, real) -> Result<Mapped, MapFailure>,
                                    at: nat -> real, tick: nat, k: nat)
    requires k < |items|
    ensures MapAll(items, mapper, at, tick)[k] == mapper(items[k], at(tick + k))
    decreases k
  {
    if k > 0 {
      MapAllAt(items[1..], mapper, at, tick + 1, k - 1);
      assert items[1..][k - 1] == items[k];
    }
  }

  /** The mapper of the sync, with the library calls fixed. */
  function Mapper(lib: Lib): (Record, real) -> Result<Mapped, MapFailure> {
    (item: Record, now: real) => Process(item, lib, now)
  }

  /** The tally after the mapped records `ms`, taken in order. */
  function ReconcileFrom(t: Tally, empresa: string, ms: seq<Result<Mapped, MapFailure>>, user: Option<nat>,
                         lib: Lib, companies: seq<Company>): Tally
    decreases |ms|
  {
    if ms == [] then t
    else ReconcileFrom(Count(t, Reconcile1(t.rows, empresa, ms[0], user, lib, companies)),
                       empresa, ms[1..], user, lib, companies)
  }

  /** One record, then the rest. */
  lemma ReconcileFromStep(t: Tally, empresa: string, ms: seq<Result<Mapped, MapFailure>>, user: Option<nat>,
                          lib: Lib, companies: seq<Company>)
    requires ms != []
    ensures ReconcileFrom(t, empresa, ms, user, lib, companies) ==
      ReconcileFrom(Count(t, Reconcile1(t.rows, empresa, ms[0], user, lib, companies)), empresa, ms[1..], user, lib, companies)
  {
  }

  /** The tally after one more record. */
  function Count(t: Tally, s: Step): Tally {
    Tally(t.created + (if s.outcome == Created then 1 else 0),
          t.updated + (if s.outcome == Updated then 1 else 0), s.rows)
  }

  /**
   * Over a batch: created + updated grows by at most the number of records,
   * each creation appends exactly one row, stored rows keep their creator and
   * every appended row is attributed to `user`.
   */
  lemma {:induction false} ReconcileFromSpec(t: Tally, empresa: string, ms: seq<Result<Mapped, MapFailure>>,
                                             user: Option<nat>, lib: Lib, companies: seq<Company>)
    ensures var r := ReconcileFrom(t, empresa, ms, user, lib, companies);
      && r.created >= t.created && r.updated >= t.updated
      && r.created + r.updated <= t.created + t.updated + |ms|
      && |r.rows| == |t.rows| + (r.created - t.created)
      && (forall i :: 0 <= i < |t.rows| ==> r.rows[i].createdBy == t.rows[i].createdBy)
      && (forall i :: |t.rows| <= i < |r.rows| ==> r.rows[i].createdBy == user)
    decreases |ms|
  {
    if ms != [] {
      var s := Reconcile1(t.rows, empresa, ms[0], user, lib, companies);
      Reconcile1Shape(t.rows, empresa, ms[0], user, lib, companies);
      StepKeepsCreators(t.rows, s, user);
      ReconcileFromSpec(Count(t, s), empresa, ms[1..], user, lib, companies);
    }
  }

  /** A first sync of one storable record into an empty store creates exactly one row, from that record. */
  lemma FirstSyncCreates(empresa: string, m: Mapped, user: Option<nat>, lib: Lib, companies: seq<Company>)
    requires Storable(m)
    ensures ReconcileFrom(Tally(0, 0, []), empresa, [Success(m)], user, lib, companies)
            == Tally(1, 0, [Saved(FreshRow(m, user, lib), m, companies, lib)])
  {
    var ms: seq<Result<Mapped, MapFailure>> := [Success(m)];
    assert ms[1..] == [];
  }

  /**
   * The end-to-end example: the single ACME record synced into an empty store
   * creates one row for ACME, graded buena and approved, with a BRIX of 12.5.
   */
  lemma AcmeSyncCreates(item: Record, lib: Lib, now: real, user: Option<nat>, companies: seq<Company>)
    requires IsAcmeRecord(item)
    requires lib.parseFloat("12.5") == Some(12.5)
    ensures var t := ReconcileFrom(Tally(0, 0, []), "ACME", [Process(item, lib, now)], user, lib, companies);
      && t.created == 1 && t.updated == 0 && |t.rows| == 1
      && t.rows[0].empresa == "ACME" && t.rows[0].calidadGeneral == "buena" && t.rows[0].aprobado
      && t.rows[0].solidosSolubles == Some(12.5) && t.rows[0].createdBy == user
  {
    AcmeExample(item, lib, now);
    var m := Process(item, lib, now).value;
    FirstSyncCreates("ACME", m, user, lib, companies);
    FreshRowHoldsMapped(m, user, companies, lib);
  }

  /** Bridges one step's shape to the creators of its rows. */
  lemma StepKeepsCreators(rows: seq<Row>, s: Step, user: Option<nat>)
    requires s.outcome == Failed ==> s.rows == rows
    requires s.outcome == Updated ==>
      |s.rows| == |rows| &&
      exists i :: 0 <= i < |rows| && s.rows == rows[i := s.rows[i]] && s.rows[i].createdBy == rows[i].createdBy
    requires s.outcome == Created ==>
      |s.rows| == |rows| + 1 && s.rows[..|rows|] == rows && s.rows[|rows|].createdBy == user
    ensures |s.rows| == |rows| + (if s.outcome == Created then 1 else 0)
    ensures forall k :: 0 <= k < |rows| ==> s.rows[k].createdBy == rows[k].createdBy
    ensures s.outcome == Created ==> s.rows[|rows|].createdBy == user
  {
    if s.outcome == Updated {
      var i :| 0 <= i < |rows| && s.rows == rows[i := s.rows[i]] && s.rows[i].createdBy == rows[i].createdBy;
    }
    if s.outcome == Created {
      assert forall k :: 0 <= k < |rows| ==> s.rows[k] == s.rows[..|rows|][k];
    }
  }

  /** The rows stored by the sync, with the reconciliation loop as a method over them. */
  class QualityStore {
    var rows: seq<Row>

    constructor (rows: seq<Row>)
      ensures this.rows == rows
    {
      this.rows := rows;
    }

    /**
     * The `for data_item in external_data` loop: map, match, write, count.
     * The mapper (`Mapper(lib)` in the sync) reads the clock once per record.
     */
    method Reconcile(empresa: string, items: seq<Record>, user: Option<nat>, lib: Lib,
                     mapper: (Record, real) -> Result<Mapped, MapFailure>,
                     clock: ExternalApi.Clock, companies: seq<Company>)
      returns (created: nat, updated: nat)
      modifies this, clock
      ensures Tally(created, updated, rows) ==
        ReconcileFrom(Tally(0, 0, old(rows)), empresa, MapAll(items, mapper, clock.at, old(clock.ticks)),
                      user, lib, companies)
      ensures clock.ticks == old(clock.ticks) + |items|
    {
      ghost var ms := MapAll(items, mapper, clock.at, clock.ticks);
      ghost var start := clock.ticks;
      var t := Tally(0, 0, rows);
      var i := 0;
      while i < |items|
        invariant 0 <= i <= |items| && clock.ticks == start + i
        invariant ReconcileFrom(t, empresa, ms[i..], user, lib, companies)
               == ReconcileFrom(Tally(0, 0, old(rows)), empresa, ms, user, lib, companies)
      {
        var now := clock.Now();
        var mapped := mapper(items[i], now);
        MapAllAt(items, mapper, clock.at, start, i);
        assert ms[i..][0] == mapped && ms[i..][1..] == ms[i + 1..];
        ReconcileFromStep(t, empresa, ms[i..], user, lib, companies);
        t := Count(t, Reconcile1(t.rows, empresa, mapped, user, lib, companies));
        i := i + 1;
      }
      created, updated, rows := t.created, t.updated, t.rows;
    }
  }
}
