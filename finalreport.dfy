/**
 * lima/generate_final_report.py: load every `lima_cleaned_` file, add the
 * education and sex labels and the informality flag, coerce income, age
 * and weight, and derive the figures and the test inputs of the final
 * report from the employed rows.
 */
module FinalReport {
  import opened Common
  import opened Strings
  import opened Frame
  import opened Features
  import opened Codebook
  import opened Aggregate
  import opened LimaFiles
  import opened LimaAnalysis

  /** The three columns the script coerces, in its order. */
  const ReportNumeric: seq<string> := ["INGTOT", "C208", "factor_expansion"]

  /** Every column the preparation reads, in the order it reads them. */
  const ReportNeeds: seq<string> := ["C366", "C207", "OCUP300", "C361_1", "INGTOT", "C208", "factor_expansion"]

  /** The columns the script adds. */
  const ReportAdded: seq<string> := ["C366_label", "C207_label", "es_informal"]

  lemma AddedAreNew()
    ensures forall c | c in ReportAdded :: c !in ReportNeeds && c !in ReportNumeric
  {
    assert |"C366_label"| == 10 && |"C207_label"| == 10 && |"es_informal"| == 11;
    assert |"INGTOT"| == 6 && |"C208"| == 4 && |"factor_expansion"| == 16;
  }

  /** Lines 48-49: the two label columns, a KeyError without C366 or C207. */
  function Labels(t: Table): (r: Result<Table>)
    ensures r.Failure? <==> "C366" !in t.columns || "C207" !in t.columns
    ensures r.Failure? ==> r.error == MissingColumn(if "C366" !in t.columns then "C366" else "C207")
    ensures r.Success? ==> |r.value.rows| == |t.rows| && forall c | c in t.columns :: c in r.value.columns
  {
    match Labelled(t, "C366", "C366_label", EducationShort)
    case Failure(e) => Failure(e)
    case Success(t1) => Labelled(t1, "C207", "C207_label", Sex)
  }

  /**
   * Every row of the labelled frame carries the labels of its education
   * and sex codes (NaN for an unmapped code); every other cell is as it
   * was.
   */
  lemma {:induction false} LabelsRow(t: Table, k: nat)
    requires Labels(t).Success? && k < |t.rows|
    ensures var row := Labels(t).value.rows[k];
            Get(row, "C366_label") == Recode(Get(t.rows[k], "C366"), EducationShort) &&
            Get(row, "C207_label") == Recode(Get(t.rows[k], "C207"), Sex) &&
            forall c | c != "C366_label" && c != "C207_label" :: Get(row, c) == Get(t.rows[k], c)
  {
    var t1 := Labelled(t, "C366", "C366_label", EducationShort).value;
    assert Labels(t) == Labelled(t1, "C207", "C207_label", Sex);
  }

  /** Line 50 after the labels: the informality flag, a KeyError without OCUP300 or C361_1. */
  function Derived(t: Table): (r: Result<Table>)
    ensures r.Failure? <==> exists c | c in ReportNeeds[..4] :: c !in t.columns
    ensures r.Failure? ==> r.error.MissingColumn? && r.error.column in ReportNeeds[..4]
    ensures r.Success? ==> |r.value.rows| == |t.rows| && forall c | c in t.columns :: c in r.value.columns
  {
    assert ReportNeeds[..4] == ["C366", "C207", "OCUP300", "C361_1"];
    AddedAreNew();
    match Labels(t)
    case Failure(e) => Failure(e)
    case Success(t2) => Informal(t2)
  }

  /**
   * Every row of the derived frame carries the labels and a flag that is
   * never missing: 1 exactly when OCUP300 is 1 and C361_1 is 2; every
   * other cell is as it was.
   */
  lemma {:induction false} DerivedRow(t: Table, k: nat)
    requires Derived(t).Success? && k < |t.rows|
    ensures var row := Derived(t).value.rows[k];
            Get(row, "C366_label") == Recode(Get(t.rows[k], "C366"), EducationShort) &&
            Get(row, "C207_label") == Recode(Get(t.rows[k], "C207"), Sex) &&
            Get(row, "es_informal") == Flag(NumEq(Get(t.rows[k], "OCUP300"), 1.0) && NumEq(Get(t.rows[k], "C361_1"), 2.0)) &&
            forall c | c !in ReportAdded :: Get(row, c) == Get(t.rows[k], c)
  {
    var t2 := Labels(t).value;
    assert Derived(t) == Informal(t2);
    LabelsRow(t, k);
    assert ReportAdded == ["C366_label", "C207_label", "es_informal"];
    assert Get(t2.rows[k], "OCUP300") == Get(t.rows[k], "OCUP300") && Get(t2.rows[k], "C361_1") == Get(t.rows[k], "C361_1");
  }

  /** Lines 51-52 after the derivation: the coercion loop, a KeyError at the first absent column. */
  function ReportFrame(t: Table): (r: Result<Table>)
    ensures r.Failure? <==> exists c | c in ReportNeeds :: c !in t.columns
    ensures r.Failure? ==> r.error.MissingColumn? && r.error.column in ReportNeeds
    ensures r.Success? ==> |r.value.rows| == |t.rows|
  {
    match Derived(t)
    case Failure(e) =>
      assert forall c | c in ReportNeeds[..4] :: c in ReportNeeds;
      Failure(e)
    case Success(d) =>
      assert forall c | c in ReportNeeds :: c in ReportNeeds[..4] || c in ReportNumeric;
      AddedAreNew();
      Coerced(d, ReportNumeric)
  }

  /**
   * Every row of the prepared frame carries the labels of its education
   * and sex codes and a flag that is never missing; the coercion leaves
   * them alone.
   */
  lemma {:induction false} ReportFrameRow(t: Table, k: nat)
    requires ReportFrame(t).Success? && k < |t.rows|
    ensures var row := ReportFrame(t).value.rows[k];
            Get(row, "C366_label") == Recode(Get(t.rows[k], "C366"), EducationShort) &&
            Get(row, "C207_label") == Recode(Get(t.rows[k], "C207"), Sex) &&
            Get(row, "es_informal") == Flag(NumEq(Get(t.rows[k], "OCUP300"), 1.0) && NumEq(Get(t.rows[k], "C361_1"), 2.0))
  {
    var d := Derived(t).value;
    assert ReportFrame(t) == Coerced(d, ReportNumeric);
    DerivedRow(t, k);
    AddedAreNew();
    CoercedKeeps(d, ReportNumeric, k, "C366_label");
    CoercedKeeps(d, ReportNumeric, k, "C207_label");
    CoercedKeeps(d, ReportNumeric, k, "es_informal");
  }

  /**
   * Income, age and weight of every row of the prepared frame are its
   * coerced cells; the codes and every other column it had are kept.
   */
  lemma {:induction false} ReportFrameKept(t: Table, k: nat)
    requires ReportFrame(t).Success? && k < |t.rows|
    ensures var row := ReportFrame(t).value.rows[k];
            (forall c | c in ReportNumeric :: Get(row, c) == ToNumeric(Get(t.rows[k], c))) &&
            forall c | c !in ReportAdded && c !in ReportNumeric :: Get(row, c) == Get(t.rows[k], c)
  {
    var d := Derived(t).value;
    assert ReportFrame(t) == Coerced(d, ReportNumeric);
    DerivedRow(t, k);
    AddedAreNew();
    assert forall c | c in ReportNumeric :: c in ReportNeeds;
  }

  /** Income, age, weight and the flag are numeric on every row of the prepared frame. */
  predicate Ready(rows: seq<Row>) {
    Numeric(rows, "INGTOT") && Numeric(rows, "C208") && Numeric(rows, "factor_expansion") && Numeric(rows, "es_informal")
  }

  /** The flag is 0 or 1 on every row. */
  predicate Binary(rows: seq<Row>) {
    forall row | row in rows :: Get(row, "es_informal") == Num(0.0) || Get(row, "es_informal") == Num(1.0)
  }

  lemma ReportFrameReady(t: Table)
    requires ReportFrame(t).Success?
    ensures Ready(ReportFrame(t).value.rows) && Binary(ReportFrame(t).value.rows)
  {
    var d := Derived(t).value;
    var r := ReportFrame(t).value;
    assert r == Coerced(d, ReportNumeric).value;
    CoercedNumeric(d, ReportNumeric, "INGTOT");
    CoercedNumeric(d, ReportNumeric, "C208");
    CoercedNumeric(d, ReportNumeric, "factor_expansion");
    forall row | row in r.rows ensures Get(row, "es_informal") == Num(0.0) || Get(row, "es_informal") == Num(1.0) {
      var k :| 0 <= k < |r.rows| && r.rows[k] == row;
      ReportFrameRow(t, k);
    }
  }

  /** `master_df[master_df['OCUP300'] == 1]`. */
  function Employed(rows: seq<Row>): (r: seq<Row>)
    ensures forall row :: row in r <==> row in rows && NumEq(Get(row, "OCUP300"), 1.0)
  {
    Filter(rows, LimaAnalysis.Employed)
  }

  /** A cell times 100: NaN stays NaN. */
  function Percent(c: Cell): (r: Cell)
    ensures r.Num? <==> c.Num?
    ensures c.Num? ==> r.value == c.value * 100.0
    ensures !c.Num? ==> r == c
  {
    if c.Num? then Num(c.value * 100.0) else c
  }

  /** One period's row of the temporal table: the income mean and the informality rate in percent. */
  function Indicators(rows: seq<Row>): (r: Result<(Cell, Cell)>)
    requires Ready(rows)
    ensures r.Success? <==> ReportAverage(rows, "INGTOT", "factor_expansion").Success? && ReportAverage(rows, "es_informal", "factor_expansion").Success?
    ensures r.Success? ==>
              r.value.0 == ReportAverage(rows, "INGTOT", "factor_expansion").value &&
              r.value.1 == Percent(ReportAverage(rows, "es_informal", "factor_expansion").value)
  {
    match ReportAverage(rows, "INGTOT", "factor_expansion")
    case Failure(e) => Failure(e)
    case Success(income) =>
      match ReportAverage(rows, "es_informal", "factor_expansion")
      case Failure(e) => Failure(e)
      case Success(rate) => Success((income, Percent(rate)))
  }

  /**
   * With non-negative weights the informality rate of a 0/1 flag is a
   * percentage.
   */
  lemma RateIsPercentage(rows: seq<Row>)
    requires Ready(rows) && Binary(rows) && NonNegativeWeights(rows)
    requires Indicators(rows).Success? && Indicators(rows).value.1.Num?
    ensures 0.0 <= Indicators(rows).value.1.value <= 100.0
  {
    var v, w := "es_informal", "factor_expansion";
    if !exists row | row in rows :: Get(row, v).Num? && Get(row, w).Missing? {
      forall row | row in rows && Get(row, v).Num? ensures Get(row, w).Num? {
        assert IsNumeric(Get(row, w));
      }
      KeptAverageBounds(rows, v, w, 0.0, 1.0);
    }
  }

  /** The periods of the employed rows, sorted. */
  function Periods(rows: seq<Row>): (ps: seq<string>)
    ensures Sorted(ps) && Distinct(ps)
    ensures forall p :: p in ps <==> exists row | row in rows :: Get(row, "periodo") == Text(p)
  {
    GroupKeys(rows, "periodo")
  }

  /** `df_ocupado.groupby('periodo').apply(...).sort_index()` before the exceptions are raised. */
  function ByPeriod(rows: seq<Row>): (s: seq<(string, Result<(Cell, Cell)>)>)
    requires Ready(rows)
    ensures |s| == |Periods(rows)|
    ensures forall i | 0 <= i < |s| :: s[i].0 == Periods(rows)[i] && s[i].1 == Indicators(GroupRows(rows, "periodo", Text(s[i].0)))
  {
    var ps := Periods(rows);
    seq(|ps|, i requires 0 <= i < |ps| => (ps[i], Indicators(GroupRows(rows, "periodo", Text(ps[i])))))
  }

  /** The inputs of the four hypothesis tests: the ANOVA groups and the contingency tables. */
  datatype TestInputs = TestInputs(
    sexGroups: seq<seq<real>>, educationGroups: seq<seq<real>>, educationTable: map<(Cell, Cell), nat>,
    periodGroups: seq<seq<real>>, periodTable: map<(Cell, Cell), nat>)

  /** `df.dropna(subset=['INGTOT', key])`, then one income group per key value. */
  function IncomeGroups(rows: seq<Row>, key: string): (gs: seq<seq<real>>)
    requires Numeric(rows, "INGTOT")
    ensures |gs| == |Uniques(CompleteRows(rows, ["INGTOT", key]), key)|
    ensures GroupedCount(CompleteRows(rows, ["INGTOT", key]), key, Uniques(CompleteRows(rows, ["INGTOT", key]), key)) ==
            |CompleteRows(rows, ["INGTOT", key])|
  {
    var kept := CompleteRows(rows, ["INGTOT", key]);
    CompleteNumbers(rows, ["INGTOT", key], "INGTOT");
    AnovaGroupsPartition(kept, "INGTOT", key);
    AnovaGroups(kept, "INGTOT", key)
  }

  /** `df.dropna(subset=['es_informal', key])`, then `pd.crosstab(df['es_informal'], df[key])`. */
  function FlagTable(rows: seq<Row>, key: string): (r: map<(Cell, Cell), nat>)
    ensures forall x, y | (x, y) in r ::
              !y.Missing? && r[(x, y)] == PairCount(Paired(CompleteRows(rows, ["es_informal", key]), "es_informal", key), "es_informal", key, x, y)
  {
    var kept := CompleteRows(rows, ["es_informal", key]);
    CrosstabPresent(kept, "es_informal", key);
    forall x, y | (x, y) in Crosstab(kept, "es_informal", key)
      ensures Crosstab(kept, "es_informal", key)[(x, y)] == PairCount(Paired(kept, "es_informal", key), "es_informal", key, x, y)
    {
      CrosstabCount(kept, "es_informal", key, x, y);
    }
    Crosstab(kept, "es_informal", key)
  }

  function Tests(rows: seq<Row>): TestInputs
    requires Ready(rows)
  {
    TestInputs(IncomeGroups(rows, "C207_label"), IncomeGroups(rows, "C366_label"), FlagTable(rows, "C366_label"),
               IncomeGroups(rows, "periodo"), FlagTable(rows, "periodo"))
  }

  /** What the report states: the means over the employed, the temporal table and the test inputs. */
  datatype Report = Report(income: Cell, age: Cell, byPeriod: seq<(string, (Cell, Cell))>, tests: TestInputs)

  /**
   * Section B and C on the employed rows: either mean raises when no
   * employed row has the value (np.average of nothing), as does any
   * period's row of the temporal table.
   */
  function Analysis(t: Table): (r: Result<Report>)
    requires Ready(t.rows)
    ensures r.Success? <==>
              ReportAverage(Employed(t.rows), "INGTOT", "factor_expansion").Success? &&
              ReportAverage(Employed(t.rows), "C208", "factor_expansion").Success? &&
              Collect(ByPeriod(Employed(t.rows))).Success?
    ensures r.Success? ==>
              r.value.income == ReportAverage(Employed(t.rows), "INGTOT", "factor_expansion").value &&
              r.value.age == ReportAverage(Employed(t.rows), "C208", "factor_expansion").value &&
              r.value.byPeriod == Collect(ByPeriod(Employed(t.rows))).value &&
              r.value.tests == Tests(Employed(t.rows))
  {
    var employed := Employed(t.rows);
    match ReportAverage(employed, "INGTOT", "factor_expansion")
    case Failure(e) => Failure(e)
    case Success(income) =>
      match ReportAverage(employed, "C208", "factor_expansion")
      case Failure(e) => Failure(e)
      case Success(age) =>
        match Collect(ByPeriod(employed))
        case Failure(e) => Failure(e)
        case Success(series) => Success(Report(income, age, series, Tests(employed)))
  }

  /** The whole script up to the text: the load (any exception ends it), the preparation, the analysis. */
  function FinalReportRun(f: Folder, listing: seq<string>): (r: Result<Report>)
    ensures LimaMaster(f, listing, IsCleaned).Failure? ==> r == Failure(LimaMaster(f, listing, IsCleaned).error)
    ensures LimaMaster(f, listing, IsCleaned).Success? && ReportFrame(LimaMaster(f, listing, IsCleaned).value).Failure? ==>
              r == Failure(ReportFrame(LimaMaster(f, listing, IsCleaned).value).error)
    ensures r.Success? ==>
              LimaMaster(f, listing, IsCleaned).Success? && ReportFrame(LimaMaster(f, listing, IsCleaned).value).Success? &&
              Ready(ReportFrame(LimaMaster(f, listing, IsCleaned).value).value.rows) &&
              r == Analysis(ReportFrame(LimaMaster(f, listing, IsCleaned).value).value)
  {
    match LimaMaster(f, listing, IsCleaned)
    case Failure(e) => Failure(e)
    case Success(m) =>
      match ReportFrame(m)
      case Failure(e) => Failure(e)
      case Success(t) =>
        ReportFrameReady(m);
        Analysis(t)
  }

  /** A subset of the rows keeps readiness, the 0/1 flag and non-negative weights. */
  lemma SubsetKeeps(rows: seq<Row>, sub: seq<Row>)
    requires forall row | row in sub :: row in rows
    ensures Ready(rows) ==> Ready(sub)
    ensures Binary(rows) ==> Binary(sub)
    ensures NonNegativeWeights(rows) ==> NonNegativeWeights(sub)
  {
  }

  predicate NonNegativeWeights(rows: seq<Row>) {
    forall row | row in rows && Get(row, "factor_expansion").Num? :: Get(row, "factor_expansion").value >= 0.0
  }

  /**
   * The temporal table has one row per period, in sorted order, each the
   * indicators of that period's rows.
   */
  lemma TemporalTable(rows: seq<Row>, i: nat)
    requires Ready(rows) && Collect(ByPeriod(rows)).Success?
    requires i < |Collect(ByPeriod(rows)).value|
    ensures var s := Collect(ByPeriod(rows)).value;
            |s| == |Periods(rows)| && s[i].0 == Periods(rows)[i] &&
            Indicators(GroupRows(rows, "periodo", Text(s[i].0))) == Success(s[i].1)
  {
  }

  /** With non-negative weights every informality rate of the temporal table is a percentage. */
  lemma TemporalRates(rows: seq<Row>, i: nat)
    requires Ready(rows) && Binary(rows) && NonNegativeWeights(rows) && Collect(ByPeriod(rows)).Success?
    requires i < |Collect(ByPeriod(rows)).value| && Collect(ByPeriod(rows)).value[i].1.1.Num?
    ensures 0.0 <= Collect(ByPeriod(rows)).value[i].1.1.value <= 100.0
  {
    var s := Collect(ByPeriod(rows)).value;
    TemporalTable(rows, i);
    var group := GroupRows(rows, "periodo", Text(s[i].0));
    SubsetKeeps(rows, group);
    RateIsPercentage(group);
  }

  /** The loading comprehension and loop, the preparation, the analysis. */
  method RunFinalReport(f: Folder, listing: seq<string>) returns (r: Result<Report>)
    ensures r == FinalReportRun(f, listing)
  {
    var master := LoadLima(f, listing, IsCleaned);
    if master.Failure? {
      return Failure(master.error);
    }
    var t1 := Labelled(master.value, "C366", "C366_label", EducationShort);
    if t1.Failure? {
      return Failure(t1.error);
    }
    var t2 := Labelled(t1.value, "C207", "C207_label", Sex);
    if t2.Failure? {
      return Failure(t2.error);
    }
    var t3 := Informal(t2.value);
    if t3.Failure? {
      return Failure(t3.error);
    }
    var t4 := CoerceColumns(t3.value, ReportNumeric);
    if t4.Failure? {
      return Failure(t4.error);
    }
    ReportFrameReady(master.value);
    r := Analysis(t4.value);
  }
}
