/**
 * The recode tables of the survey's data dictionary, as the scripts spell
 * them. Each is a map from an integer code to a label; a recode is
 * `Series.map(table)`, so a code outside the table becomes NaN.
 */
module Codebook {
  import opened Frame

  const Region: map<int, string> := map[1 := "Lima Metropolitana", 2 := "Resto Urbano", 3 := "Rural"]

  const Relationship: map<int, string> := map[
    1 := "Jefe/a", 2 := "Esposo/a o compañero/a", 3 := "Hijo/a o hijastro/a", 4 := "Yerno o Nuera",
    5 := "Nieto/a", 6 := "Padre / madre / suegro/a", 7 := "Hermano/a", 8 := "Otro pariente",
    9 := "Trabajador/a del hogar", 10 := "Pensionista", 11 := "Otro no pariente", 98 := "No residente"]

  const Sex: map<int, string> := map[1 := "Hombre", 2 := "Mujer"]

  const JobCategory: map<int, string> := map[
    1 := "Empleador o patrono", 2 := "Trabajador independiente", 3 := "Empleado u obrero",
    4 := "Ayudante en un negocio de la familia", 5 := "Ayudante en el empleo de un familiar",
    6 := "Trabajador del hogar", 7 := "Aprendiz/practicante remunerado", 8 := "Practicante sin remuneración",
    9 := "Ayudante en un negocio de la familia de otro hogar",
    10 := "Ayudante en el empleo de un familiar de otro hogar"]

  const Employer: map<int, string> := map[
    1 := "Fuerzas Armadas, Policía Nacional del Perú (militares)", 2 := "Administración pública",
    3 := "Empresa pública", 4 := "Empresas especiales de servicios (SERVICE)",
    5 := "Empresa o patrono privado", 6 := "Otra"]

  const Registration: map<int, string> := map[
    1 := "Persona jurídica (Sociedad Anónima SRL, Sociedad Civil, EIRL o Asociación, etc.)",
    2 := "Persona Natural con RUC (RUS, RER, u otro régimen)",
    3 := "NO ESTA REGISTRADO (no tiene RUC)", 4 := "NO SABE (solo para dependientes)"]

  const Education: map<int, string> := map[
    1 := "Sin nivel", 2 := "Educación Inicial", 3 := "Primaria incompleta", 4 := "Primaria completa",
    5 := "Secundaria incompleta", 6 := "Secundaria completa", 7 := "Básica especial",
    8 := "Superior no universitaria incompleta", 9 := "Superior no universitaria completa",
    10 := "Superior universitaria incompleta", 11 := "Superior universitaria completa",
    12 := "Maestria/Doctorado"]

  const Activity: map<int, string> := map[
    0 := "Sin información", 1 := "Ocupado", 2 := "Desocupado abierto", 3 := "Desocupado oculto",
    4 := "Inactivo pleno"]

  /** The short education labels of the lima scripts (EDUCATION_MAP_LABELS and the EDA's C366 table). */
  const EducationShort: map<int, string> := map[
    1 := "Sin nivel", 2 := "Educ. Inicial", 3 := "Primaria Incompleta", 4 := "Primaria Completa",
    5 := "Secundaria Incompleta", 6 := "Secundaria Completa", 7 := "Básica Especial",
    8 := "Superior No Univ. Incompleta", 9 := "Superior No Univ. Completa",
    10 := "Superior Univ. Incompleta", 11 := "Superior Univ. Completa", 12 := "Maestría/Doctorado"]

  /** The EDA's OCUP300 table. */
  const ActivityEda: map<int, string> := map[
    1 := "Ocupado", 2 := "Desocupado Abierto", 3 := "Desocupado Oculto", 4 := "Inactivo"]

  /** The dashboard's OCUP300_label table: both kinds of unemployment share one label. */
  const ActivityDashboard: map<int, string> := map[
    1 := "Ocupado", 2 := "Desocupado", 3 := "Desocupado", 4 := "Inactivo"]

  /** The dashboard's EDUCATION_MAP, from label back to code. */
  const EducationCode: map<string, int> := map[
    "Sin nivel" := 1, "Educ. Inicial" := 2, "Primaria Incompleta" := 3, "Primaria Completa" := 4,
    "Secundaria Incompleta" := 5, "Secundaria Completa" := 6, "Básica Especial" := 7,
    "Superior No Univ. Incompleta" := 8, "Superior No Univ. Completa" := 9,
    "Superior Univ. Incompleta" := 10, "Superior Univ. Completa" := 11, "Maestría/Doctorado" := 12]

  /** Recode tables keyed by the column each applies to. */
  type Maps = map<string, map<int, string>>

  /** get_recode_maps() of 01_scripts/main_pipeline.py and process_data.py (the same eight tables). */
  const SurveyMaps: Maps := map[
    "REGION" := Region, "C203" := Relationship, "C207" := Sex, "C310" := JobCategory,
    "C311" := Employer, "C312" := Registration, "C366" := Education, "OCUP300" := Activity]

  /** get_recode_maps() of 05_dashboard/data_prep.py: four of the same tables. */
  const PrepMaps: Maps := map["C207" := Sex, "C366" := Education, "OCUP300" := Activity, "C310" := JobCategory]

  /** get_recode_maps() of lima/eda_script.py. */
  const EdaMaps: Maps := map["C207" := Sex, "C366" := EducationShort, "OCUP300" := ActivityEda]

  /** One step of `for var, mapping in maps.items(): df[var] = df[var].map(mapping)`. */
  function RecodeBy(m: Maps, col: string, c: Cell): (r: Cell)
    ensures col !in m ==> r == c
    ensures col in m ==> r == Recode(c, m[col])
  {
    if col in m then Recode(c, m[col]) else c
  }

  /** The recode loop's rule: column col is recoded by its table, if it has one. */
  function Recoder(m: Maps): (string, Cell) -> Cell {
    (col: string, c: Cell) => RecodeBy(m, col, c)
  }

  /** Exactly code 1 of the survey's activity table carries the label 'Ocupado'. */
  lemma ActivityOcupado(c: Cell)
    ensures Recode(c, Activity) == Text("Ocupado") <==> NumEq(c, 1.0)
  {
    if NumEq(c, 1.0) {
      assert c.value.Floor == 1;
    }
    if Recode(c, Activity) == Text("Ocupado") {
      var code := c.value.Floor;
      assert code in Activity && Activity[code] == "Ocupado";
      assert code == 1 by {
        assert "Sin información"[1] != "Ocupado"[1];
        assert "Desocupado abierto" != "Ocupado" && "Desocupado oculto" != "Ocupado" && "Inactivo pleno" != "Ocupado";
      }
    }
  }

  /**
   * The dashboard's label-to-code map inverts the report's code-to-label
   * map: code to label to code is the identity on 1..12, and so is label
   * to code to label on the twelve labels.
   */
  lemma EducationRoundTrip()
    ensures forall code | code in EducationShort :: EducationShort[code] in EducationCode && EducationCode[EducationShort[code]] == code
    ensures forall lbl | lbl in EducationCode :: EducationCode[lbl] in EducationShort && EducationShort[EducationCode[lbl]] == lbl
    ensures forall code: int :: code in EducationShort <==> 1 <= code <= 12
  {
  }

  /** The dashboard's OCUP300 labels are many-to-one: codes 2 and 3 share a label. */
  lemma DashboardActivityManyToOne()
    ensures ActivityDashboard[2] == ActivityDashboard[3] == "Desocupado"
    ensures forall c | c in ActivityDashboard :: ActivityDashboard[c] == "Ocupado" <==> c == 1
  {
  }
}
