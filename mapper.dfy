/**
 * The field mapper `_process_external_data` with `_safe_decimal`: one external
 * record becomes the dictionary of model fields that reconciliation stores.
 * Where the Python code would raise (and the caller counts the record as
 * failed) the mapper returns a `Failure`.
 */
module FieldMapper {
  import opened Wrappers
  import opened PyValue

  /** Why the mapper raised. */
  datatype MapFailure =
    | PayloadNotDict        // the payload is not a dict, or `in`/`[]` was applied to a non-container
    | DefectNotComparable   // `valor > 0` on a truthy value that is not a number
    | ProcessedDataNotDict  // `.get` on a `processed_data` value that is not a dict

  /** The `calidad_general` grades. */
  datatype Grade = Excelente | Buena | Regular | Mala

  /** The stored label of a grade, one of the model's `calidad_general` choices. */
  function GradeLabel(g: Grade): string {
    match g
    case Excelente => "excelente"
    case Buena => "buena"
    case Regular => "regular"
    case Mala => "mala"
  }

  /** The mapped record: the `processed` dictionary the mapper returns. */
  datatype Mapped = Mapped(
    empresa: Value,
    fechaRegistro: real,
    solidosSolubles: Option<real>,
    acidezTitulable: Option<real>,
    calibre: string,
    defectosPorcentaje: Option<real>,
    defectosDescripcion: string,
    color: Value,
    observaciones: Value,
    calidadGeneral: Grade,
    aprobado: bool,
    originalData: Record,
    additionalInfo: map<string, Value>
  )

  /** `processed['processed_data']`: the original record and the additional information. */
  function ProcessedData(m: Mapped): Value {
    Obj(map["original_data" := Obj(m.originalData), "additional_info" := Obj(m.additionalInfo)])
  }

  /** `str(v)`: a string is itself; anything else is rendered by the library. */
  function PyStr(v: Value, lib: Lib): string {
    if v.Str? then v.s else lib.str(v)
  }

  /** `_safe_decimal`: None, '' and values `float()` rejects give None; numbers are kept. */
  function SafeDecimal(v: Value, lib: Lib): (r: Option<real>)
    ensures v.Null? || v == Str("") || v.List? || v.Obj? ==> r.None?
    ensures v.Int? ==> r == Some(v.i as real)
    ensures v.Float? ==> r == Some(v.r)
  {
    match v
    case Null => None
    case Str(s) => if s == "" then None else lib.parseFloat(s)
    case Bool(b) => Some(if b then 1.0 else 0.0)
    case Int(i) => Some(i as real)
    case Float(r) => Some(r)
    case List(_) => None
    case Obj(_) => None
  }

  // ---------------------------------------------------------------------------
  // Step 1: locate the payload

  /** `.get` on a value that must be a dict. */
  function AsDict(v: Value): Result<Record, MapFailure> {
    if v.Obj? then Success(v.fields) else Failure(PayloadNotDict)
  }

  /** `'data' in v` for the value of `processed_data`; None where `in` raises TypeError. */
  function HasData(v: Value): Option<bool> {
    match v
    case Obj(m) => Some("data" in m)
    case Str(s) => Some(Contains(s, "data"))
    case List(xs) => Some(Str("data") in xs)
    case _ => None
  }

  /** The `elif 'data' in data_item` branch and the final `else`. */
  function PayloadWithoutProcessed(item: Record): Result<Record, MapFailure> {
    if "data" in item then AsDict(item["data"]) else Success(item)
  }

  /** Lines 557-562 together with the first `.get` on the payload. */
  function Payload(item: Record): Result<Record, MapFailure> {
    if "processed_data" in item then
      match HasData(item["processed_data"])
      case None => Failure(PayloadNotDict)
      case Some(true) =>
        (if item["processed_data"].Obj? then AsDict(item["processed_data"].fields["data"])
         else Failure(PayloadNotDict))  // indexing a str or list with 'data' raises TypeError
      case Some(false) => PayloadWithoutProcessed(item)
    else PayloadWithoutProcessed(item)
  }

  // ---------------------------------------------------------------------------
  // Step 3: the timestamp

  /** `datetime.fromisoformat(v.replace('Z', '+00:00'))`, with every failure caught and replaced by `now`. */
  function ParseOrNow(v: Value, lib: Lib, now: real): real {
    if v.Str? then lib.parseIso(ReplaceChar(v.s, 'Z', "+00:00")).GetOr(now) else now
  }

  /** `fecha_registro`: FECHA DE MP if truthy, else FECHA DE PROCESO if truthy, else `now`. */
  function RecordedAt(data: Record, lib: Lib, now: real): real {
    var mp := Get(data, "FECHA DE MP");
    var proceso := Get(data, "FECHA DE PROCESO");
    if Truthy(mp) then ParseOrNow(mp, lib, now)
    else if Truthy(proceso) then ParseOrNow(proceso, lib, now)
    else now
  }

  // ---------------------------------------------------------------------------
  // Steps 5-7: defects, grade, approval

  /** `defectos_porcentaje`: the first of the two totals that safe-parses. */
  function DefectPercent(data: Record, lib: Lib): Option<real> {
    var total := SafeDecimal(Get(data, "TOTAL DE DEFECTOS DE CALIDAD"), lib);
    var noExport := SafeDecimal(Get(data, "TOTAL DE NO EXPORTABLE"), lib);
    if total.Some? then total else noExport
  }

  /** The defect categories, in the order the description lists them. */
  const DefectFields: seq<string> := [
    "DESGARRO", "RESTOS FLORALES", "EXCRETA DE ABEJA", "HERIDA ABIERTA",
    "HERIDA CICATRIZADA", "FUMAGINA", "MACHUCON", "PICADO", "RUSSET",
    "QUERESA", "OTROS", "POLVO", "HONGOS", "OTROS2", "F.BLOOM",
    "EXUDACION", "F. MOJADA", "PUDRICION", "HALO VERDE", "SOBREMADURO",
    "BAJO CALIBRE", "BLANDA SEVERA", "BAYA COLAPSADA", "BAYA REVENTADA",
    "DAÑO DE TRIPS", "EXCRETA DE AVE", "FRUTOS ROJIZOS", "BLANDA MODERADO",
    "CHANCHITO BLANCO", "PRESENCIA DE LARVA", "DESHIDRATADO SEVERO",
    "FRUTOS CON PEDICELO", "DESHIDRATACIÓN  LEVE", "DESHIDRATACION MODERADO"
  ]

  /** `valor and valor > 0`; None where Python raises TypeError comparing a truthy non-number with 0. */
  function IsPositive(v: Value): Option<bool> {
    if !Truthy(v) then Some(false)
    else match v
      case Bool(b) => Some(true)
      case Int(i) => Some(i > 0)
      case Float(r) => Some(r > 0.0)
      case _ => None
  }

  /** `f"{campo}: {valor}%"`. */
  function Segment(campo: string, v: Value, lib: Lib): string {
    campo + ": " + PyStr(v, lib) + "%"
  }

  /** The description parts for `fields`, as the loop at lines 614-617 appends them. */
  function DefectSegments(data: Record, fields: seq<string>, lib: Lib): Result<seq<string>, MapFailure> {
    if fields == [] then Success([])
    else
      var v := Get(data, fields[0]);
      match IsPositive(v)
      case None => Failure(DefectNotComparable)
      case Some(pos) =>
        match DefectSegments(data, fields[1..], lib)
        case Failure(e) => Failure(e)
        case Success(rest) => Success((if pos then [Segment(fields[0], v, lib)] else []) + rest)
  }

  /** Reference definition: the fields whose value is positive, in list order. */
  function PositiveFields(data: Record, fields: seq<string>): seq<string> {
    if fields == [] then []
    else (if IsPositive(Get(data, fields[0])) == Some(true) then [fields[0]] else [])
         + PositiveFields(data, fields[1..])
  }

  /** Every field's value can be compared with 0. */
  predicate AllComparable(data: Record, fields: seq<string>) {
    forall i :: 0 <= i < |fields| ==> IsPositive(Get(data, fields[i])).Some?
  }

  /** The segments of a list of fields. */
  function Segments(data: Record, fields: seq<string>, lib: Lib): (r: seq<string>)
    ensures |r| == |fields|
  {
    if fields == [] then [] else [Segment(fields[0], Get(data, fields[0]), lib)] + Segments(data, fields[1..], lib)
  }

  /** `calidad_general` from the defect percentage. */
  function GradeOf(pct: Option<real>): (g: Grade)
    ensures g == Excelente <==> pct.Some? && pct.value <= 2.0
    ensures g == Buena <==> pct.Some? && 2.0 < pct.value <= 5.0
    ensures g == Regular <==> pct.None? || (5.0 < pct.value <= 10.0)
    ensures g == Mala <==> pct.Some? && pct.value > 10.0
  {
    if pct.Some? then
      if pct.value <= 2.0 then Excelente
      else if pct.value <= 5.0 then Buena
      else if pct.value <= 10.0 then Regular
      else Mala
    else Regular
  }

  /** `aprobado`: by the exportable share when it parses, otherwise by the defect percentage. */
  function ApprovedOf(exportable: Option<real>, pct: Option<real>): bool {
    if exportable.Some? then exportable.value >= 90.0
    else pct.Some? && pct.value <= 5.0
  }

  // ---------------------------------------------------------------------------
  // Step 8: additional information

  /** The `additional_info` entries copied from a payload field: (info key, payload key). */
  const InfoFields: seq<(string, string)> := [
    ("destino", "DESTINO"), ("variedad", "VARIEDAD"), ("presentacion", "PRESENTACION"),
    ("tipo_caja", "TIPO DE CAJA"), ("tipo_producto", "TIPO DE PRODUCTO"),
    ("trazabilidad", "TRAZABILIDAD"), ("peso_muestra", "PESO DE MUESTRA (g)"),
    ("total_exportable", "TOTAL DE EXPORTABLE"), ("total_no_exportable", "TOTAL DE NO EXPORTABLE"),
    ("total_condicion", "TOTAL DE CONDICION"), ("evaluador", "EVALUADOR"), ("fundo", "FUNDO"),
    ("linea", "LINEA"), ("modulo", "MODULO"), ("turno", "TURNO"), ("viaje", "VIAJE"),
    ("semana", "SEMANA"), ("hora", "HORA"), ("n_fcl", "N° FCL"), ("productor", "PRODUCTOR"),
    ("fecha_mp", "FECHA DE MP"), ("fecha_proceso", "FECHA DE PROCESO")
  ]

  /** `data_item.get('processed_data', {}).get(key)`. */
  function ProcessedGet(item: Record, key: string): Result<Value, MapFailure> {
    match GetOr(item, "processed_data", Obj(map[]))
    case Obj(pd) => Success(Get(pd, key))
    case _ => Failure(ProcessedDataNotDict)
  }

  function CopiedInfo(data: Record, fields: seq<(string, string)>): map<string, Value> {
    if fields == [] then map[]
    else CopiedInfo(data, fields[1..])[fields[0].0 := Get(data, fields[0].1)]
  }

  /** `additional_info`. */
  function AdditionalInfo(item: Record, data: Record): Result<map<string, Value>, MapFailure> {
    match ProcessedGet(item, "row_index")
    case Failure(e) => Failure(e)
    case Success(rowIndex) =>
      match ProcessedGet(item, "processed_at")
      case Failure(e) => Failure(e)
      case Success(processedAt) =>
        Success(CopiedInfo(data, InfoFields)[
          "record_id" := Or(Get(item, "record_id"), Get(item, "id"))][
          "row_index" := rowIndex][
          "processed_at" := processedAt])
  }

  // ---------------------------------------------------------------------------
  // The mapper

  /** `_process_external_data(item)` when the clock reads `now`. */
  function Process(item: Record, lib: Lib, now: real): Result<Mapped, MapFailure> {
    match Payload(item)
    case Failure(e) => Failure(e)
    case Success(data) =>
      match DefectSegments(data, DefectFields, lib)
      case Failure(e) => Failure(e)
      case Success(parts) =>
        match AdditionalInfo(item, data)
        case Failure(e) => Failure(e)
        case Success(info) => Success(Assemble(item, data, parts, info, lib, now))
  }

  /** The `processed` dictionary, once the steps that can raise have succeeded. */
  function Assemble(item: Record, data: Record, parts: seq<string>, info: map<string, Value>,
                    lib: Lib, now: real): Mapped
  {
    var pct := DefectPercent(data, lib);
    Mapped(
      empresa := GetOr(data, "EMPRESA", GetOr(data, "PRODUCTOR", Str(""))),
      fechaRegistro := RecordedAt(data, lib, now),
      solidosSolubles := SafeDecimal(Get(data, "BRIX"), lib),
      acidezTitulable := SafeDecimal(Get(data, "ACIDEZ"), lib),
      calibre := if Get(data, "CALIBRE").Null? then "" else PyStr(data["CALIBRE"], lib),
      defectosPorcentaje := pct,
      defectosDescripcion := Join(parts, "; "),
      color := GetOr(data, "VARIEDAD", Str("")),
      observaciones := GetOr(data, "OBSERVACIONES", Str("")),
      calidadGeneral := GradeOf(pct),
      aprobado := ApprovedOf(SafeDecimal(Get(data, "TOTAL DE EXPORTABLE"), lib), pct),
      originalData := item,
      additionalInfo := info)
  }

  /** The external record id the reconciliation matches on: `additional_info['record_id']`. */
  function RecordId(m: Mapped): Value {
    GetOr(m.additionalInfo, "record_id", Null)
  }

  // ---------------------------------------------------------------------------
  // The defect loop, imperatively

  /**
   * Lines 602-619: the description built by appending to a list and joining
   * it, for the field list `fields` (the mapper passes `DefectFields`).
   */
  method DescribeDefects(data: Record, fields: seq<string>, lib: Lib) returns (r: Result<string, MapFailure>)
    ensures r.Success? <==> AllComparable(data, fields)
    ensures r.Success? ==> r.value == Join(Segments(data, PositiveFields(data, fields), lib), "; ")
  {
    var parts: seq<string> := [];
    var i := 0;
    while i < |fields|
      invariant 0 <= i <= |fields|
      invariant AllComparable(data, fields[..i])
      invariant parts == Segments(data, PositiveFields(data, fields[..i]), lib)
    {
      var campo := fields[i];
      var valor := Get(data, campo);
      DefectStep(data, fields[..i], campo, lib);
      assert fields[..i + 1] == fields[..i] + [campo];
      match IsPositive(valor) {
        case None =>
          assert !AllComparable(data, fields) by {
            assert fields[i] == campo;
          }
          return Failure(DefectNotComparable);
        case Some(pos) =>
          if pos {
            parts := parts + [Segment(campo, valor, lib)];
          }
      }
      i := i + 1;
    }
    assert fields[..i] == fields;
    r := Success(Join(parts, "; "));
  }

  // ---------------------------------------------------------------------------
  // Lemmas

  /** One more field extends the segments by that field's, when positive, and keeps or breaks comparability. */
  lemma DefectStep(data: Record, fields: seq<string>, f: string, lib: Lib)
    ensures Segments(data, PositiveFields(data, fields + [f]), lib) ==
      Segments(data, PositiveFields(data, fields), lib)
      + (if IsPositive(Get(data, f)) == Some(true) then [Segment(f, Get(data, f), lib)] else [])
    ensures AllComparable(data, fields + [f]) <==> AllComparable(data, fields) && IsPositive(Get(data, f)).Some?
  {
    var tail := if IsPositive(Get(data, f)) == Some(true) then [f] else [];
    PositiveFieldsSnoc(data, fields, f);
    SegmentsAppend(data, PositiveFields(data, fields), tail, lib);
    if tail != [] {
      assert Segments(data, tail, lib) == [Segment(f, Get(data, f), lib)];
    }
    ComparableSnoc(data, fields, f);
  }

  lemma ComparableSnoc(data: Record, fields: seq<string>, f: string)
    ensures AllComparable(data, fields + [f]) <==> AllComparable(data, fields) && IsPositive(Get(data, f)).Some?
  {
    assert forall i :: 0 <= i < |fields| ==> (fields + [f])[i] == fields[i];
    assert (fields + [f])[|fields|] == f;
  }

  lemma {:induction false} PositiveFieldsSnoc(data: Record, fields: seq<string>, f: string)
    ensures PositiveFields(data, fields + [f]) ==
      PositiveFields(data, fields) + (if IsPositive(Get(data, f)) == Some(true) then [f] else [])
    decreases |fields|
  {
    if fields == [] {
      assert [f][1..] == [];
    } else {
      var head := if IsPositive(Get(data, fields[0])) == Some(true) then [fields[0]] else [];
      assert (fields + [f])[0] == fields[0];
      assert (fields + [f])[1..] == fields[1..] + [f];
      PositiveFieldsSnoc(data, fields[1..], f);
      assert PositiveFields(data, fields + [f]) == head + PositiveFields(data, fields[1..] + [f]);
    }
  }

  lemma {:induction false} SegmentsAppend(data: Record, a: seq<string>, b: seq<string>, lib: Lib)
    ensures Segments(data, a + b, lib) == Segments(data, a, lib) + Segments(data, b, lib)
    decreases |a|
  {
    if a == [] {
      assert a + b == b;
    } else {
      assert (a + b)[1..] == a[1..] + b;
      SegmentsAppend(data, a[1..], b, lib);
    }
  }

  /**
   * The description step fails exactly when some defect field holds a truthy
   * non-number; otherwise it lists the positive fields, in list order.
   */
  lemma {:induction false} DefectSegmentsSpec(data: Record, fields: seq<string>, lib: Lib)
    ensures DefectSegments(data, fields, lib).Success? <==> AllComparable(data, fields)
    ensures DefectSegments(data, fields, lib).Success? ==>
      DefectSegments(data, fields, lib).value == Segments(data, PositiveFields(data, fields), lib)
    decreases |fields|
  {
    if fields != [] {
      DefectSegmentsSpec(data, fields[1..], lib);
      var v := Get(data, fields[0]);
      if IsPositive(v).Some? {
        if AllComparable(data, fields[1..]) {
          SegmentsAppend(data, if IsPositive(v) == Some(true) then [fields[0]] else [],
                         PositiveFields(data, fields[1..]), lib);
          assert Segments(data, [fields[0]], lib) == [Segment(fields[0], v, lib)];
        } else {
          var i :| 0 <= i < |fields[1..]| && IsPositive(Get(data, fields[1..][i])).None?;
          assert IsPositive(Get(data, fields[i + 1])).None?;
        }
      } else {
        assert IsPositive(Get(data, fields[0])).None?;
      }
      if AllComparable(data, fields) {
        assert forall i :: 0 <= i < |fields[1..]| ==> fields[1..][i] == fields[i + 1];
      }
    }
  }

  lemma {:induction false} JoinEmpty(parts: seq<string>, sep: string)
    requires forall i :: 0 <= i < |parts| ==> parts[i] != ""
    ensures Join(parts, sep) == "" <==> parts == []
    decreases |parts|
  {
    if |parts| > 1 {
      assert |Join(parts, sep)| >= |parts[0]|;
    }
  }

  /** The description is empty exactly when no defect field is positive. */
  lemma DescriptionEmptyIff(data: Record, lib: Lib)
    requires AllComparable(data, DefectFields)
    ensures DefectSegments(data, DefectFields, lib).Success?
    ensures Join(DefectSegments(data, DefectFields, lib).value, "; ") == "" <==>
      PositiveFields(data, DefectFields) == []
  {
    DefectSegmentsSpec(data, DefectFields, lib);
    var parts := Segments(data, PositiveFields(data, DefectFields), lib);
    forall i | 0 <= i < |parts| ensures parts[i] != "" {
      SegmentNonEmpty(data, PositiveFields(data, DefectFields), i, lib);
    }
    JoinEmpty(parts, "; ");
  }

  lemma {:induction false} SegmentNonEmpty(data: Record, fields: seq<string>, i: int, lib: Lib)
    requires 0 <= i < |fields|
    ensures Segments(data, fields, lib)[i] != ""
    decreases |fields|
  {
    if i > 0 {
      SegmentNonEmpty(data, fields[1..], i - 1, lib);
    } else {
      assert Segments(data, fields, lib)[0] == fields[0] + ": " + PyStr(Get(data, fields[0]), lib) + "%";
    }
  }

  /** Where the payload comes from: `processed_data.data`, else `data`, else the record itself. */
  lemma PayloadShapes(item: Record)
    ensures "processed_data" in item && item["processed_data"].Obj? && "data" in item["processed_data"].fields
      ==> Payload(item) == AsDict(item["processed_data"].fields["data"])
    ensures "processed_data" !in item && "data" in item ==> Payload(item) == AsDict(item["data"])
    ensures "processed_data" !in item && "data" !in item ==> Payload(item) == Success(item)
    ensures "processed_data" in item && HasData(item["processed_data"]).None? ==> Payload(item).Failure?
  {
  }

  /**
   * The mapper fails only for a non-dict payload, a truthy non-number in a
   * defect field, or a `processed_data` that is not a dict when the
   * additional information reads it; and then it always fails.
   */
  lemma MapperFailsExactly(item: Record, lib: Lib, now: real)
    ensures Process(item, lib, now).Failure? <==>
      || Payload(item).Failure?
      || !AllComparable(Payload(item).value, DefectFields)
      || ("processed_data" in item && !item["processed_data"].Obj?)
  {
    if Payload(item).Success? {
      var data := Payload(item).value;
      DefectSegmentsSpec(data, DefectFields, lib);
      AdditionalInfoFails(item, data);
    }
  }

  /** Reading `row_index` and `processed_at` fails exactly for a `processed_data` that is not a dict. */
  lemma AdditionalInfoFails(item: Record, data: Record)
    ensures AdditionalInfo(item, data).Failure? <==> ("processed_data" in item && !item["processed_data"].Obj?)
  {
  }

  /** On a record it accepts, the mapper assembles the results of the three steps that can raise. */
  lemma ProcessAssembles(item: Record, lib: Lib, now: real)
    requires Process(item, lib, now).Success?
    ensures Payload(item).Success?
    ensures DefectSegments(Payload(item).value, DefectFields, lib).Success?
    ensures AdditionalInfo(item, Payload(item).value).Success?
    ensures Process(item, lib, now).value == Assemble(item, Payload(item).value,
      DefectSegments(Payload(item).value, DefectFields, lib).value,
      AdditionalInfo(item, Payload(item).value).value, lib, now)
  {
  }

  /** The mapper's result on a record it accepts, field by field. */
  lemma MappedFields(item: Record, lib: Lib, now: real)
    requires Process(item, lib, now).Success?
    ensures Payload(item).Success?
    ensures var m := Process(item, lib, now).value;
      var data := Payload(item).value;
      && m.defectosPorcentaje == DefectPercent(data, lib)
      && m.calidadGeneral == GradeOf(m.defectosPorcentaje)
      && m.aprobado == ApprovedOf(SafeDecimal(Get(data, "TOTAL DE EXPORTABLE"), lib), m.defectosPorcentaje)
      && m.solidosSolubles == SafeDecimal(Get(data, "BRIX"), lib)
      && m.acidezTitulable == SafeDecimal(Get(data, "ACIDEZ"), lib)
      && m.empresa == GetOr(data, "EMPRESA", GetOr(data, "PRODUCTOR", Str("")))
      && m.fechaRegistro == RecordedAt(data, lib, now)
      && m.color == GetOr(data, "VARIEDAD", Str("")) && m.observaciones == GetOr(data, "OBSERVACIONES", Str(""))
      && m.originalData == item
  {
    ProcessAssembles(item, lib, now);
  }

  /** The description lists the positive defect fields, and the record id is the record's own. */
  lemma MappedDescription(item: Record, lib: Lib, now: real)
    requires Process(item, lib, now).Success?
    ensures Payload(item).Success?
    ensures var m := Process(item, lib, now).value;
      var data := Payload(item).value;
      && m.defectosDescripcion == Join(Segments(data, PositiveFields(data, DefectFields), lib), "; ")
      && RecordId(m) == Or(Get(item, "record_id"), Get(item, "id"))
  {
    ProcessAssembles(item, lib, now);
    var data := Payload(item).value;
    DefectSegmentsSpec(data, DefectFields, lib);
    RecordIdIsExternalId(item, data);
  }

  /** The `record_id` entry of the additional information: the record's own id, else its `id`. */
  lemma RecordIdIsExternalId(item: Record, data: Record)
    requires AdditionalInfo(item, data).Success?
    ensures GetOr(AdditionalInfo(item, data).value, "record_id", Null) == Or(Get(item, "record_id"), Get(item, "id"))
  {
    StampKeepsRecordId(CopiedInfo(data, InfoFields), Or(Get(item, "record_id"), Get(item, "id")),
                       ProcessedGet(item, "row_index").value, ProcessedGet(item, "processed_at").value);
  }

  /** The two stamps written after `record_id` do not overwrite it. */
  lemma StampKeepsRecordId(base: map<string, Value>, id: Value, rowIndex: Value, processedAt: Value)
    ensures GetOr(base["record_id" := id]["row_index" := rowIndex]["processed_at" := processedAt], "record_id", Null) == id
  {
    assert "record_id"[1] != "row_index"[1];
    assert |"record_id"| != |"processed_at"|;
  }

  /**
   * `fecha_registro`: the first truthy date of FECHA DE MP and FECHA DE
   * PROCESO, parsed after replacing 'Z'; the clock reading when that date
   * does not parse (or is not a string) and when neither date is truthy.
   */
  lemma RecordedAtRules(data: Record, lib: Lib, now: real)
    ensures var mp, pr := Get(data, "FECHA DE MP"), Get(data, "FECHA DE PROCESO");
      var chosen := if Truthy(mp) then mp else pr;
      && (!Truthy(mp) && !Truthy(pr) ==> RecordedAt(data, lib, now) == now)
      && ((Truthy(mp) || Truthy(pr)) && chosen.Str? && lib.parseIso(ReplaceChar(chosen.s, 'Z', "+00:00")).Some? ==>
            RecordedAt(data, lib, now) == lib.parseIso(ReplaceChar(chosen.s, 'Z', "+00:00")).value)
      && ((Truthy(mp) || Truthy(pr)) && (!chosen.Str? || lib.parseIso(ReplaceChar(chosen.s, 'Z', "+00:00")).None?) ==>
            RecordedAt(data, lib, now) == now)
  {
  }

  /** The defect percentage is the first of the two totals that safe-parses. */
  lemma DefectPercentFallback(data: Record, lib: Lib)
    ensures SafeDecimal(Get(data, "TOTAL DE DEFECTOS DE CALIDAD"), lib).Some? ==>
      DefectPercent(data, lib) == SafeDecimal(Get(data, "TOTAL DE DEFECTOS DE CALIDAD"), lib)
    ensures SafeDecimal(Get(data, "TOTAL DE DEFECTOS DE CALIDAD"), lib).None? ==>
      DefectPercent(data, lib) == SafeDecimal(Get(data, "TOTAL DE NO EXPORTABLE"), lib)
    ensures "TOTAL DE DEFECTOS DE CALIDAD" !in data && "TOTAL DE NO EXPORTABLE" !in data ==>
      DefectPercent(data, lib).None?
  {
  }

  /** A rank of grades, best first. */
  function Rank(g: Grade): nat {
    match g
    case Excelente => 0
    case Buena => 1
    case Regular => 2
    case Mala => 3
  }

  /** More defects never give a better grade. */
  lemma GradeMonotone(p: real, q: real)
    requires p <= q
    ensures Rank(GradeOf(Some(p))) <= Rank(GradeOf(Some(q)))
  {
  }

  /** Without an exportable share, an approved record is graded excelente or buena. */
  lemma ApprovedIsGood(pct: Option<real>)
    requires ApprovedOf(None, pct)
    ensures GradeOf(pct) == Excelente || GradeOf(pct) == Buena
  {
  }

  /** With an exportable share of at least 90, a record is approved whatever its defects. */
  lemma ExportableDecides(e: real, pct: Option<real>)
    ensures ApprovedOf(Some(e), pct) <==> e >= 90.0
  {
  }

  /** A payload that carries none of the numeric fields gets no measurements, grade regular and no approval. */
  lemma NoMeasurementsDefaults(item: Record, lib: Lib, now: real)
    requires Process(item, lib, now).Success?
    requires var data := Payload(item).value;
      && "BRIX" !in data && "ACIDEZ" !in data && "TOTAL DE EXPORTABLE" !in data
      && "TOTAL DE DEFECTOS DE CALIDAD" !in data && "TOTAL DE NO EXPORTABLE" !in data
    ensures var m := Process(item, lib, now).value;
      && m.solidosSolubles.None? && m.acidezTitulable.None? && m.defectosPorcentaje.None?
      && m.calidadGeneral == Regular && !m.aprobado
  {
    MappedFields(item, lib, now);
  }

  /** The empty record maps, with no description, the current time and an empty company label. */
  lemma EmptyRecordDefaults(item: Record, lib: Lib, now: real)
    requires item == map[]
    ensures Process(item, lib, now).Success?
    ensures var m := Process(item, lib, now).value;
      && m.solidosSolubles.None? && m.acidezTitulable.None? && m.defectosPorcentaje.None?
      && m.calidadGeneral == Regular && !m.aprobado && m.defectosDescripcion == ""
      && m.fechaRegistro == now && m.empresa == Str("")
  {
    assert Payload(item) == Success(item);
    PositiveFieldsNone(item, DefectFields);
    MapperFailsExactly(item, lib, now);
    MappedFields(item, lib, now);
    MappedDescription(item, lib, now);
    assert Segments(item, [], lib) == [];
  }

  lemma {:induction false} PositiveFieldsNone(data: Record, fields: seq<string>)
    requires forall i :: 0 <= i < |fields| ==> fields[i] !in data
    ensures PositiveFields(data, fields) == []
    ensures AllComparable(data, fields)
    decreases |fields|
  {
    if fields != [] {
      PositiveFieldsNone(data, fields[1..]);
      assert forall i :: 0 <= i < |fields[1..]| ==> fields[1..][i] == fields[i + 1];
    }
  }

  /** A non-exportable total of 1.5 without a quality-defect total gives 1.5% and grade excelente. */
  lemma NonExportableFallback(item: Record, lib: Lib, now: real)
    requires Process(item, lib, now).Success?
    requires var data := Payload(item).value;
      "TOTAL DE DEFECTOS DE CALIDAD" !in data && Get(data, "TOTAL DE NO EXPORTABLE") == Float(1.5)
    ensures var m := Process(item, lib, now).value;
      m.defectosPorcentaje == Some(1.5) && m.calidadGeneral == Excelente
  {
    MappedFields(item, lib, now);
  }

  /** An exportable share of 95 approves the record whatever its defects. */
  lemma ExportableApproves(item: Record, lib: Lib, now: real)
    requires Process(item, lib, now).Success?
    requires Get(Payload(item).value, "TOTAL DE EXPORTABLE") == Int(95)
    ensures Process(item, lib, now).value.aprobado
  {
    MappedFields(item, lib, now);
  }

  /** A plain record (no `processed_data`, no `data`) without any defect field is always accepted. */
  lemma PlainRecordAccepted(item: Record, lib: Lib, now: real)
    requires "processed_data" !in item && "data" !in item
    requires forall i :: 0 <= i < |DefectFields| ==> DefectFields[i] !in item
    ensures Payload(item) == Success(item)
    ensures Process(item, lib, now).Success?
  {
    PositiveFieldsNone(item, DefectFields);
    MapperFailsExactly(item, lib, now);
  }

  /** The single external record of the end-to-end example. */
  predicate IsAcmeRecord(item: Record) {
    item == map["EMPRESA" := Str("ACME"), "FECHA DE MP" := Str("2024-01-01T00:00:00Z"),
                "BRIX" := Str("12.5"), "TOTAL DE DEFECTOS DE CALIDAD" := Int(3)]
  }

  lemma AcmeFigures(item: Record, lib: Lib)
    requires IsAcmeRecord(item)
    requires lib.parseFloat("12.5") == Some(12.5)
    ensures "processed_data" !in item && "data" !in item
    ensures forall i :: 0 <= i < |DefectFields| ==> DefectFields[i] !in item
    ensures DefectPercent(item, lib) == Some(3.0)
    ensures SafeDecimal(Get(item, "BRIX"), lib) == Some(12.5)
    ensures SafeDecimal(Get(item, "TOTAL DE EXPORTABLE"), lib) == None
    ensures GetOr(item, "EMPRESA", GetOr(item, "PRODUCTOR", Str(""))) == Str("ACME")
    ensures "VARIEDAD" !in item && "OBSERVACIONES" !in item
  {
    AcmeHasNoDefects(item);
  }

  /** A record whose defect figure is 3 and which reports no exportable share is graded buena and approved. */
  lemma ThreePercentIsBuena(item: Record, lib: Lib, now: real)
    requires Process(item, lib, now).Success?
    requires Payload(item) == Success(item)
    requires DefectPercent(item, lib) == Some(3.0)
    requires SafeDecimal(Get(item, "TOTAL DE EXPORTABLE"), lib) == None
    ensures var m := Process(item, lib, now).value;
      m.defectosPorcentaje == Some(3.0) && m.calidadGeneral == Buena && m.aprobado
  {
    MappedFields(item, lib, now);
  }

  /** The end-to-end example: the ACME record with 3% defects and a BRIX of 12.5 maps to grade buena. */
  lemma AcmeExample(item: Record, lib: Lib, now: real)
    requires IsAcmeRecord(item)
    requires lib.parseFloat("12.5") == Some(12.5)
    ensures Process(item, lib, now).Success?
    ensures var m := Process(item, lib, now).value;
      && m.empresa == Str("ACME") && m.solidosSolubles == Some(12.5)
      && m.defectosPorcentaje == Some(3.0) && m.calidadGeneral == Buena && m.aprobado
      && m.color == Str("") && m.observaciones == Str("")
  {
    AcmeFigures(item, lib);
    PlainRecordAccepted(item, lib, now);
    ThreePercentIsBuena(item, lib, now);
    MappedFields(item, lib, now);
  }

  lemma AcmeHasNoDefects(item: Record)
    requires IsAcmeRecord(item)
    ensures forall i :: 0 <= i < |DefectFields| ==> DefectFields[i] !in item
  {
    assert item.Keys == {"EMPRESA", "FECHA DE MP", "BRIX", "TOTAL DE DEFECTOS DE CALIDAD"};
    forall i | 0 <= i < |DefectFields| ensures DefectFields[i] !in item {
      var f := DefectFields[i];
      assert f != "EMPRESA" && f != "FECHA DE MP" && f != "BRIX" && f != "TOTAL DE DEFECTOS DE CALIDAD";
    }
  }
}
