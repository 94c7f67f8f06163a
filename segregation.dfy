/**
 * The age split and the two sub-populations shared by
 * 01_scripts/main_pipeline.py and process_data.py: the workforce (age
 * 14 and over) recoded, filled with "No Aplica" for the non-employed,
 * banded by age and flagged for informality; and the under-14 rows
 * pruned to their household columns. The two scripts differ only in
 * the rule that picks the job-only columns to fill, which is a
 * parameter here.
 */
module Segregation {
  import opened Common
  import opened Strings
  import opened Frame
  import opened Codebook
  import opened Features

  /** df['C208'] >= 14: NaN and text compare false. */
  predicate Adult(row: Row) {
    NumAtLeast(Get(row, "C208"), 14.0)
  }

  /** df['C208'] < 14. */
  predicate Minor(row: Row) {
    NumBelow(Get(row, "C208"), 14.0)
  }

  /** A row whose age is not a number: neither mask keeps it. */
  predicate NoAge(row: Row) {
    !Get(row, "C208").Num?
  }

  /**
   * The two masks are disjoint, a row without a numeric age is in
   * neither, and the three kinds of row account for the whole frame.
   */
  lemma AgeSplit(rows: seq<Row>)
    ensures forall x :: !(Adult(x) && Minor(x))
    ensures forall x | NoAge(x) :: x !in Filter(rows, Adult) && x !in Filter(rows, Minor)
    ensures |Filter(rows, Adult)| + |Filter(rows, Minor)| + |Filter(rows, NoAge)| == |rows|
  {
    FilterPartition(rows, Adult, Minor, NoAge);
  }

  /** When every row has a numeric age, the two masks split the frame. */
  lemma AgedSplit(rows: seq<Row>)
    requires forall x | x in rows :: Get(x, "C208").Num?
    ensures |Filter(rows, Adult)| + |Filter(rows, Minor)| == |rows|
  {
    AgeSplit(rows);
  }

  // ------------------------------------------------------------ workforce

  /** The four columns every variant fills besides the ones its rule picks. */
  const Extras: seq<string> := ["INGTOT", "INGTOTP", "ingtrabw", "whoraT"]

  /** OCUP300 is code 1: after the recode, exactly the rows labelled 'Ocupado'. */
  predicate Employed(row: Row) {
    NumEq(Get(row, "OCUP300"), 1.0)
  }

  /** cols_to_fill: the columns the rule picks, then the four extras. */
  function FillNames(cols: seq<string>, rule: string -> bool): (r: seq<string>)
    ensures forall c :: c in r <==> (c in cols && rule(c)) || c in Extras
  {
    SelectNames(cols, rule) + Extras
  }

  /** What a workforce cell holds after the recode by m and the fill. */
  function WorkerCell(m: Maps, cols: seq<string>, row: Row, c: string, rule: string -> bool): Cell {
    if c in cols && (rule(c) || c in Extras) && !Employed(row) then NotApplicable
    else if c in cols then RecodeBy(m, c, Get(row, c))
    else Get(row, c)
  }

  /**
   * What the workforce steps need of their recode tables: OCUP300 is
   * recoded by the activity table, the age and C361_1 are left alone.
   */
  predicate RecodesWorkforce(m: Maps) {
    "OCUP300" in m && m["OCUP300"] == Activity && "C208" !in m && "C361_1" !in m
  }

  /** The mask `df['OCUP300'] != 'Ocupado'`; NaN counts as not employed. */
  function NotOcupado(t: Table): (mask: seq<bool>)
    ensures |mask| == |t.rows|
    ensures forall k | 0 <= k < |t.rows| :: mask[k] == (Get(t.rows[k], "OCUP300") != Text("Ocupado"))
  {
    seq(|t.rows|, k requires 0 <= k < |t.rows| => Get(t.rows[k], "OCUP300") != Text("Ocupado"))
  }

  /** Label facts the workforce steps rely on. */
  lemma LabelFacts()
    ensures "OCUP300" in SurveyMaps && SurveyMaps["OCUP300"] == Activity
    ensures "C208" !in SurveyMaps && "C208" !in Extras && "C361_1" !in SurveyMaps
    ensures "grupo_edad" != "es_informal"
    ensures "grupo_edad" != "C208" && "es_informal" != "OCUP300" && "es_informal" != "C361_1"
    ensures RecodesWorkforce(SurveyMaps)
  {
    ActivityRecoded();
    AgeNotRecoded();
    InformalCodeNotRecoded();
    DerivedLabels();
  }

  /** The two derived labels differ from each other and from the codes they are read off. */
  lemma DerivedLabels()
    ensures "grupo_edad" != "es_informal"
    ensures "grupo_edad" != "C208" && "es_informal" != "OCUP300" && "es_informal" != "C361_1"
  {
    assert "grupo_edad"[0] != "es_informal"[0];
  }

  /** The recode of OCUP300 is the activity table. */
  lemma ActivityRecoded()
    ensures "OCUP300" in SurveyMaps && SurveyMaps["OCUP300"] == Activity
  {
  }

  /** The age column is neither recoded nor one of the extras. */
  lemma AgeNotRecoded()
    ensures "C208" !in SurveyMaps.Keys
    ensures "C208" !in Extras
  {
    assert "C208"[3] != "C203"[3] && "C208"[3] != "C207"[3] && "C208"[1] != "C310"[1];
    assert "C208"[1] != "C311"[1] && "C208"[1] != "C312"[1] && "C208"[1] != "C366"[1];
    assert |"C208"| != |"REGION"| && |"C208"| != |"OCUP300"|;
  }

  /** The age column is not one of the extras. */
  lemma AgeNotExtra()
    ensures "C208" !in Extras
  {
  }

  /** C361_1 is not recoded. */
  lemma InformalCodeNotRecoded()
    ensures "C361_1" !in SurveyMaps.Keys
  {
    assert |"C361_1"| != |"C203"| && "C361_1"[0] != "REGION"[0] && |"C361_1"| != |"OCUP300"|;
  }

  /** The workforce frame after the recode loop over the tables of m. */
  function Recoded(m: Maps, src: Table): (r: Table)
    ensures r.columns == src.columns && |r.rows| == |src.rows|
    ensures forall k, c | 0 <= k < |src.rows| ::
              Get(r.rows[k], c) == if c in src.columns then RecodeBy(m, c, Get(src.rows[k], c)) else Get(src.rows[k], c)
    ensures Valid(src) ==> Valid(r)
  {
    ColumnsMapped(src, m.Keys, Recoder(m))
  }

  /** The not-employed mask of the recoded frame, read off the codes. */
  function NotEmployedMask(m: Maps, src: Table): (mask: seq<bool>)
    requires RecodesWorkforce(m) && "OCUP300" in src.columns
    ensures |mask| == |src.rows|
    ensures forall k | 0 <= k < |src.rows| :: mask[k] == !Employed(src.rows[k])
  {
    var mask := NotOcupado(Recoded(m, src));
    assert forall k | 0 <= k < |src.rows| :: mask[k] == !Employed(src.rows[k]) by {
      forall k | 0 <= k < |src.rows| ensures mask[k] == !Employed(src.rows[k]) {
        ActivityOcupado(Get(src.rows[k], "OCUP300"));
      }
    }
    mask
  }

  /** The workforce frame after the recode loop and the fill loop. */
  function Filled(m: Maps, src: Table, rule: string -> bool): (r: Table)
    requires RecodesWorkforce(m) && "OCUP300" in src.columns
    ensures r.columns == src.columns && |r.rows| == |src.rows|
    ensures forall k, c | 0 <= k < |src.rows| :: Get(r.rows[k], c) == WorkerCell(m, src.columns, src.rows[k], c, rule)
    ensures Valid(src) ==> Valid(r)
  {
    MaskFilledCells(Recoded(m, src), FillNames(src.columns, rule), NotEmployedMask(m, src), NotApplicable);
    MaskFilled(Recoded(m, src), FillNames(src.columns, rule), NotEmployedMask(m, src), NotApplicable)
  }

  /** pd.cut(df['C208'], ...) on every row. */
  function Bands(t: Table, age: string): (b: seq<Cell>)
    ensures |b| == |t.rows| && forall k | 0 <= k < |t.rows| :: b[k] == AgeBand(Get(t.rows[k], age))
  {
    seq(|t.rows|, k requires 0 <= k < |t.rows| => AgeBand(Get(t.rows[k], age)))
  }

  /** es_informal: 1 where 'Ocupado' and C361_1 == 2, provided the frame has C361_1. */
  function InformalFlags(t: Table): (f: seq<Cell>)
    ensures |f| == |t.rows|
    ensures forall k | 0 <= k < |t.rows| :: f[k] == Flag("C361_1" in t.columns && InformalByLabel(t.rows[k]))
  {
    seq(|t.rows|, k requires 0 <= k < |t.rows| => Flag("C361_1" in t.columns && InformalByLabel(t.rows[k])))
  }

  /** Row k of the banded frame reads its band and its informality off the source row. */
  lemma {:induction false} BandedRow(m: Maps, cols: seq<string>, row: Row, rule: string -> bool, f: Row, b: Row)
    requires RecodesWorkforce(m) && "OCUP300" in cols && !rule("C208")
    requires forall c | c in {"C208", "OCUP300", "C361_1"} :: Get(f, c) == WorkerCell(m, cols, row, c, rule)
    requires b == f["grupo_edad" := AgeBand(Get(f, "C208"))]
    ensures Get(b, "grupo_edad") == AgeBand(Get(row, "C208"))
    ensures InformalByLabel(b) == InformalByCode(row)
  {
    AgeNotExtra();
    assert |"grupo_edad"| != |"OCUP300"| && |"grupo_edad"| != |"C361_1"|;
    assert Get(f, "C208") == WorkerCell(m, cols, row, "C208", rule);
    assert Get(b, "OCUP300") == WorkerCell(m, cols, row, "OCUP300", rule);
    assert Get(b, "C361_1") == WorkerCell(m, cols, row, "C361_1", rule);
    WorkerLabels(m, cols, row, rule);
  }

  /** A filled row is labelled 'Ocupado' exactly when it is employed, and then keeps its C361_1 code. */
  lemma WorkerLabels(m: Maps, cols: seq<string>, row: Row, rule: string -> bool)
    requires RecodesWorkforce(m) && "OCUP300" in cols
    ensures WorkerCell(m, cols, row, "OCUP300", rule) == Text("Ocupado") <==> Employed(row)
    ensures Employed(row) ==> WorkerCell(m, cols, row, "C361_1", rule) == Get(row, "C361_1")
  {
    DerivedLabels();
    ActivityOcupado(Get(row, "OCUP300"));
  }

  /** The workforce frame with its age band. */
  function Banded(m: Maps, src: Table, rule: string -> bool): (r: Table)
    requires RecodesWorkforce(m) && "OCUP300" in src.columns && !rule("C208")
    ensures r.columns == WithLabel(src.columns, "grupo_edad") && |r.rows| == |src.rows|
    ensures forall k | 0 <= k < |src.rows| ::
              Get(r.rows[k], "grupo_edad") == AgeBand(Get(src.rows[k], "C208")) &&
              InformalByLabel(r.rows[k]) == InformalByCode(src.rows[k])
    ensures forall k, c | 0 <= k < |src.rows| && c != "grupo_edad" ::
              Get(r.rows[k], c) == WorkerCell(m, src.columns, src.rows[k], c, rule)
    ensures Valid(src) ==> Valid(r)
  {
    var filled := Filled(m, src, rule);
    var banded := WithColumn(filled, "grupo_edad", Bands(filled, "C208"));
    forall k | 0 <= k < |src.rows|
      ensures Get(banded.rows[k], "grupo_edad") == AgeBand(Get(src.rows[k], "C208"))
      ensures InformalByLabel(banded.rows[k]) == InformalByCode(src.rows[k])
    {
      BandedRow(m, src.columns, src.rows[k], rule, filled.rows[k], banded.rows[k]);
    }
    forall k, c | 0 <= k < |src.rows| && c != "grupo_edad"
      ensures Get(banded.rows[k], c) == WorkerCell(m, src.columns, src.rows[k], c, rule)
    {
      assert Get(banded.rows[k], c) == Get(filled.rows[k], c);
    }
    banded
  }

  /**
   * The workforce frame: a KeyError without OCUP300; otherwise every
   * cell as WorkerCell says, the age band of the row's own age, and the
   * informality flag read off the codes.
   */
  function Workforce(src: Table, rule: string -> bool): (r: Result<Table>)
    requires !rule("C208")
    ensures r.Failure? <==> "OCUP300" !in src.columns
    ensures r.Failure? ==> r.error == MissingColumn("OCUP300")
    ensures r.Success? ==>
              r.value.columns == WithLabel(WithLabel(src.columns, "grupo_edad"), "es_informal") &&
              |r.value.rows| == |src.rows|
    ensures r.Success? ==> forall k | 0 <= k < |src.rows| ::
              Get(r.value.rows[k], "grupo_edad") == AgeBand(Get(src.rows[k], "C208")) &&
              Get(r.value.rows[k], "es_informal") == Flag("C361_1" in src.columns && InformalByCode(src.rows[k]))
    ensures r.Success? ==> forall k, c | 0 <= k < |src.rows| && c != "grupo_edad" && c != "es_informal" ::
              Get(r.value.rows[k], c) == WorkerCell(SurveyMaps, src.columns, src.rows[k], c, rule)
    ensures r.Success? && Valid(src) ==> Valid(r.value)
  {
    if "OCUP300" !in src.columns then Failure(MissingColumn("OCUP300"))
    else
      LabelFacts();
      var banded := Banded(SurveyMaps, src, rule);
      Success(WithColumn(banded, "es_informal", InformalFlags(banded)))
  }

  /** `df.loc[mask, 'es_informal'] = 1` over a frame whose es_informal is 0. */
  function OneWhereInformal(t: Table): (f: seq<Cell>)
    ensures |f| == |t.rows|
  {
    seq(|t.rows|, k requires 0 <= k < |t.rows| => if InformalByLabel(t.rows[k]) then Num(1.0) else Get(t.rows[k], "es_informal"))
  }

  /** es_informal = 0 and then the .loc write of 1 give the flag column. */
  lemma FlagInTwoSteps(b: Table)
    ensures var zero := WithColumn(b, "es_informal", Fill(|b.rows|, Num(0.0)));
            (if "C361_1" in zero.columns then WithColumn(zero, "es_informal", OneWhereInformal(zero)) else zero)
            == WithColumn(b, "es_informal", InformalFlags(b))
  {
    var zero := WithColumn(b, "es_informal", Fill(|b.rows|, Num(0.0)));
    var spec := WithColumn(b, "es_informal", InformalFlags(b));
    DerivedLabels();
    assert "C361_1" in zero.columns <==> "C361_1" in b.columns;
    if "C361_1" in zero.columns {
      var two := WithColumn(zero, "es_informal", OneWhereInformal(zero));
      forall k | 0 <= k < |b.rows| ensures two.rows[k] == spec.rows[k] {
        var row := b.rows[k];
        assert zero.rows[k] == row["es_informal" := Num(0.0)];
        assert Get(zero.rows[k], "OCUP300") == Get(row, "OCUP300");
        assert Get(zero.rows[k], "C361_1") == Get(row, "C361_1");
        assert OneWhereInformal(zero)[k] == InformalFlags(b)[k];
      }
    } else {
      forall k | 0 <= k < |b.rows| ensures zero.rows[k] == spec.rows[k] {
        assert InformalFlags(b)[k] == Num(0.0);
      }
    }
  }

  /**
   * The workforce steps of the source, column loop by column loop:
   * recode, fill, band, then es_informal = 0 and the .loc write of 1.
   */
  method PrepareWorkforce(src: Table, rule: string -> bool) returns (r: Result<Table>)
    requires !rule("C208")
    ensures r == Workforce(src, rule)
  {
    var recoded := MapColumns(src, SurveyMaps.Keys, Recoder(SurveyMaps));
    if "OCUP300" !in recoded.columns {
      return Failure(MissingColumn("OCUP300"));
    }
    var filled := FillMasked(recoded, FillNames(recoded.columns, rule), NotOcupado(recoded), NotApplicable);
    var banded := WithColumn(filled, "grupo_edad", Bands(filled, "C208"));
    LabelFacts();
    assert banded == Banded(SurveyMaps, src, rule);
    var flagged := WithColumn(banded, "es_informal", Fill(|banded.rows|, Num(0.0)));
    if "C361_1" in flagged.columns {
      flagged := WithColumn(flagged, "es_informal", OneWhereInformal(flagged));
    }
    FlagInTwoSteps(banded);
    r := Success(flagged);
  }

  // -------------------------------------------------------- under fourteen

  /** The household identifiers and weights the pruned frame keeps after the prefix. */
  const IdColumns: seq<string> := ["periodo", "factor_expansion", "factor_ajustado"]

  /** Every recode table except the activity one. */
  const YoungMaps: Maps := SurveyMaps - {"OCUP300"}

  /** The columns before C300n, then the identifiers. */
  function KeptColumns(cols: seq<string>): (r: seq<string>)
    requires "C300n" in cols
    ensures forall c | c in r :: c in cols || c in IdColumns
    ensures forall c | c in IdColumns :: c in r
  {
    var i := Position(cols, "C300n").value;
    assert forall c | c in cols[..i] :: c in cols;
    cols[..i] + IdColumns
  }

  /** `df[cols_to_keep]` when the frame has C300n; the frame itself otherwise. */
  function Pruned(src: Table): (r: Result<Table>)
    ensures "C300n" !in src.columns ==> r == Success(src)
    ensures "C300n" in src.columns ==> r == Project(src, KeptColumns(src.columns))
  {
    match Position(src.columns, "C300n")
    case None => Success(src)
    case Some(i) => Project(src, src.columns[..i] + IdColumns)
  }

  /**
   * The under-14 frame: pruned, then recoded by every table but
   * OCUP300's. Pruning fails exactly when one of the identifiers is
   * absent; the columns before C300n are always there.
   */
  function NonWorkforce(src: Table): (r: Result<Table>)
    ensures r.Failure? <==> "C300n" in src.columns && exists c | c in IdColumns :: c !in src.columns
    ensures r.Failure? ==> r.error.MissingColumn? && r.error.column in IdColumns && r.error.column !in src.columns
    ensures r.Success? ==> |r.value.rows| == |src.rows|
    ensures r.Success? ==> r.value.columns == if "C300n" in src.columns then KeptColumns(src.columns) else src.columns
    ensures r.Success? ==> forall k, c | 0 <= k < |src.rows| ::
              Get(r.value.rows[k], c) ==
                if c in r.value.columns then RecodeBy(YoungMaps, c, Get(src.rows[k], c))
                else if "C300n" in src.columns then Missing
                else Get(src.rows[k], c)
  {
    match Pruned(src)
    case Failure(e) => Failure(e)
    case Success(p) => Success(ColumnsMapped(p, YoungMaps.Keys, Recoder(YoungMaps)))
  }

  /** The activity code of the under-14 rows is kept as a number. */
  lemma YoungKeepActivityCode()
    ensures "OCUP300" !in YoungMaps
    ensures forall c | c in SurveyMaps && c != "OCUP300" :: c in YoungMaps && YoungMaps[c] == SurveyMaps[c]
  {
  }

  /** The pruning try/except and the recode loop that skips OCUP300. */
  method PrepareNonWorkforce(src: Table) returns (r: Result<Table>)
    ensures r == NonWorkforce(src)
  {
    var pruned := src;
    var pos := Position(src.columns, "C300n");
    if pos.Some? {
      var keep := src.columns[..pos.value] + IdColumns;
      var p := Project(src, keep);
      if p.Failure? {
        return Failure(p.error);
      }
      pruned := p.value;
    }
    var recoded := MapColumns(pruned, YoungMaps.Keys, Recoder(YoungMaps));
    r := Success(recoded);
  }
}
