/**
 * The stored quality record (`QualityData`): its columns, the company
 * association made on every save, and the display properties.
 */
module QualityRecord {
  import opened Wrappers
  import opened PyValue
  import opened Companies
  import opened FieldMapper

  /**
   * A stored row. Text columns hold `str()` of what was assigned; the
   * temperature, humidity, pH and firmness columns, which nothing in the sync
   * writes, are not represented.
   */
  datatype Row = Row(
    empresa: string,
    fechaRegistro: real,
    solidosSolubles: Option<real>,
    acidezTitulable: Option<real>,
    defectosPorcentaje: Option<real>,
    defectosDescripcion: string,
    calibre: string,
    color: string,
    calidadGeneral: string,
    aprobado: bool,
    observaciones: string,
    createdBy: Option<nat>,
    company: Option<Company>,
    processedData: Value
  )

  /** The `calidad_general` choices: (stored value, label). */
  const CalidadChoices: seq<(string, string)> := [
    ("excelente", "Excelente"), ("buena", "Buena"), ("regular", "Regular"), ("mala", "Mala")
  ]

  /**
   * `QualityData.save`'s association step: when no company is set and the
   * assigned `empresa` is truthy, the first company (by name) whose name
   * contains it case-insensitively; otherwise the company is left alone.
   */
  function AssociateOnSave(company: Option<Company>, empresa: Value, companies: seq<Company>, lib: Lib): Option<Company> {
    if company.None? && Truthy(empresa) then
      match FirstByName(companies, PyStr(empresa, lib))
      case Some(i) => Some(companies[i])
      case None => None
    else company
  }

  /** The association changes nothing unless the company is unset and `empresa` is truthy, and then picks the least-named match. */
  lemma AssociateOnSaveSpec(company: Option<Company>, empresa: Value, companies: seq<Company>, lib: Lib)
    ensures company.Some? || !Truthy(empresa) ==> AssociateOnSave(company, empresa, companies, lib) == company
    ensures var r := AssociateOnSave(company, empresa, companies, lib);
      company.None? && Truthy(empresa) ==>
        (r.None? <==> forall j :: 0 <= j < |companies| ==> !IContains(companies[j].name, PyStr(empresa, lib))) &&
        (r.Some? ==> IContains(r.value.name, PyStr(empresa, lib))) &&
        (r.Some? ==> forall j :: 0 <= j < |companies| && IContains(companies[j].name, PyStr(empresa, lib)) ==>
          NameLe(r.value.name, companies[j].name))
  {
    if company.None? && Truthy(empresa) {
      var p := PyStr(empresa, lib);
      forall j | 0 <= j < |companies| && IContains(companies[j].name, p)
        ensures NameLe(AssociateOnSave(company, empresa, companies, lib).value.name, companies[j].name)
      {
        FirstByNameLeast(companies, p, j);
      }
    }
  }

  /** `empresa_display`. */
  function EmpresaDisplay(r: Row): string
  {
    if r.empresa != "" then r.empresa
    else if r.company.Some? then r.company.value.name
    else "Sin empresa"
  }

  /** `calidad_display`: the label of a known grade, else the stored value. */
  function CalidadDisplay(r: Row): string {
    Label(CalidadChoices, r.calidadGeneral)
  }

  /** `aprobado_display`. */
  function AprobadoDisplay(r: Row): string
  {
    if r.aprobado then "Sí" else "No"
  }

  /** Every grade the mapper produces is a declared choice, and the choices are exactly those grades. */
  lemma GradesAreChoices()
    ensures forall g: Grade :: exists i :: 0 <= i < |CalidadChoices| && CalidadChoices[i].0 == GradeLabel(g)
    ensures forall i :: 0 <= i < |CalidadChoices| ==> exists g: Grade :: GradeLabel(g) == CalidadChoices[i].0
  {
    forall g: Grade ensures exists i :: 0 <= i < |CalidadChoices| && CalidadChoices[i].0 == GradeLabel(g) {
      match g {
        case Excelente => assert CalidadChoices[0].0 == GradeLabel(g);
        case Buena => assert CalidadChoices[1].0 == GradeLabel(g);
        case Regular => assert CalidadChoices[2].0 == GradeLabel(g);
        case Mala => assert CalidadChoices[3].0 == GradeLabel(g);
      }
    }
    assert GradeLabel(Excelente) == CalidadChoices[0].0;
    assert GradeLabel(Buena) == CalidadChoices[1].0;
    assert GradeLabel(Regular) == CalidadChoices[2].0;
    assert GradeLabel(Mala) == CalidadChoices[3].0;
  }

  /** The capitalised label of a grade, as the grade choices display it. */
  function GradeName(g: Grade): string {
    match g
    case Excelente => "Excelente"
    case Buena => "Buena"
    case Regular => "Regular"
    case Mala => "Mala"
  }

  /** A row holding a grade the mapper produced displays the capitalised grade; any other value displays as itself. */
  lemma CalidadDisplaySpec(r: Row)
    ensures r.calidadGeneral == "excelente" ==> CalidadDisplay(r) == "Excelente"
    ensures r.calidadGeneral == "buena" ==> CalidadDisplay(r) == "Buena"
    ensures r.calidadGeneral == "regular" ==> CalidadDisplay(r) == "Regular"
    ensures r.calidadGeneral == "mala" ==> CalidadDisplay(r) == "Mala"
    ensures (forall i :: 0 <= i < |CalidadChoices| ==> CalidadChoices[i].0 != r.calidadGeneral) ==>
      CalidadDisplay(r) == r.calidadGeneral
  {
    assert DistinctCodes(CalidadChoices);
    if r.calidadGeneral == "excelente" { LabelOfListed(CalidadChoices, 0); }
    if r.calidadGeneral == "buena" { LabelOfListed(CalidadChoices, 1); }
    if r.calidadGeneral == "regular" { LabelOfListed(CalidadChoices, 2); }
    if r.calidadGeneral == "mala" { LabelOfListed(CalidadChoices, 3); }
  }

  /** A row storing the label of a grade displays that grade's capitalised name. */
  lemma GradeDisplays(r: Row, g: Grade)
    requires r.calidadGeneral == GradeLabel(g)
    ensures CalidadDisplay(r) == GradeName(g)
  {
    CalidadDisplaySpec(r);
  }
}
