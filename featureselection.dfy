/**
 * lima/feature_selection.py: load the cleaned Lima files, set the
 * informality flag through `.loc`, coerce age, hours and income, build
 * the regression and classification row sets, and decide each test the
 * report shows: ANOVA only with two or more groups, chi-square only on a
 * non-empty table, significant when p < 0.05. The tests themselves are
 * parameters.
 */
module FeatureSelection {
  import opened Common
  import opened Strings
  import opened Frame
  import opened Features
  import opened LimaFiles
  import opened LimaAnalysis

  /** PREDICTORS_CATEGORICAL. */
  const Categorical: seq<string> := ["C207", "C366", "periodo"]

  /** PREDICTORS_NUMERICAL followed by INGTOT: the coercions in the script's order. */
  const Coercions: seq<string> := ["C208", "whoraT", "INGTOT"]

  /** The dropna subset of the regression set. */
  const RegressionNeeds: seq<string> := ["INGTOT", "whoraT", "C208", "C207", "C366", "periodo"]

  /** The dropna subset of the classification set. */
  const ClassificationNeeds: seq<string> := ["C207", "C366", "periodo", "es_informal"]

  /**
   * Lines 44-58 after the load: the flag (a KeyError without OCUP300 or
   * C361_1), the category casts (a KeyError at the first absent
   * predictor; the values themselves are kept), then the coercions.
   */
  function Prepared(t: Table): (r: Result<Table>)
    ensures "OCUP300" !in t.columns ==> r == Failure(MissingColumn("OCUP300"))
    ensures r.Success? ==>
              Informal(t).Success? && FirstAbsent(Categorical, Informal(t).value.columns).None? &&
              r == Coerced(Informal(t).value, Coercions)
    ensures r.Success? <==>
              Informal(t).Success? && FirstAbsent(Categorical, Informal(t).value.columns).None? &&
              Coerced(Informal(t).value, Coercions).Success?
  {
    match Informal(t)
    case Failure(e) => Failure(e)
    case Success(u) =>
      match FirstAbsent(Categorical, u.columns)
      case Some(c) => Failure(MissingColumn(c))
      case None => Coerced(u, Coercions)
  }

  /** The script's statements: SetInformal's `.loc` loop, the cast loop, the coercion loop. */
  method Prepare(t: Table) returns (r: Result<Table>)
    ensures r == Prepared(t)
  {
    var u := SetInformal(t);
    if u.Failure? {
      return Failure(u.error);
    }
    var i := 0;
    while i < |Categorical|
      invariant 0 <= i <= |Categorical|
      invariant forall j | 0 <= j < i :: Categorical[j] in u.value.columns
    {
      if Categorical[i] !in u.value.columns {
        FirstAbsentAt(Categorical, u.value.columns, i);
        return Failure(MissingColumn(Categorical[i]));
      }
      i := i + 1;
    }
    r := CoerceColumns(u.value, Coercions);
  }

  /** The cast loop stops at the first absent label: the one FirstAbsent names. */
  lemma {:induction false} FirstAbsentAt(want: seq<string>, have: seq<string>, i: nat)
    requires i < |want| && want[i] !in have && forall j | 0 <= j < i :: want[j] in have
    ensures FirstAbsent(want, have) == Some(want[i])
    decreases i
  {
    if i > 0 {
      FirstAbsentAt(want[1..], have, i - 1);
    }
  }

  /** The two row sets the report and the models use. */
  datatype RowSets = RowSets(regression: seq<Row>, classification: seq<Row>)

  /**
   * Lines 62 and 65: the employed rows with income, hours, age and the
   * three categorical predictors present, and the employed rows with the
   * predictors and the flag present.
   */
  function Sets(t: Table): (r: RowSets)
    ensures forall row :: row in r.regression <==> row in t.rows && NumEq(Get(row, "OCUP300"), 1.0) && Complete(row, RegressionNeeds)
    ensures forall row :: row in r.classification <==> row in t.rows && NumEq(Get(row, "OCUP300"), 1.0) && Complete(row, ClassificationNeeds)
  {
    var employed := EmployedRows(t).rows;
    RowSets(CompleteRows(employed, RegressionNeeds), CompleteRows(employed, ClassificationNeeds))
  }

  /** On the prepared frame, income is a number on every regression row. */
  lemma RegressionIncome(t: Table)
    requires Prepared(t).Success?
    ensures forall row | row in Sets(Prepared(t).value).regression :: Get(row, "INGTOT").Num?
  {
    var u := Informal(t).value;
    CoercedNumeric(u, Coercions, "INGTOT");
    assert "INGTOT" in RegressionNeeds;
  }

  /** One ANOVA line of section 1b: the income groups of one predictor's values. */
  function AnovaLine(regression: seq<Row>, predictor: string, anova: seq<seq<real>> -> (real, real)): (r: Outcome)
    requires forall row | row in regression :: Get(row, "INGTOT").Num?
    ensures r.NotComputable? <==> |Uniques(CompleteRows(regression, [predictor]), predictor)| <= 1
    ensures r.Tested? ==>
              (r.statistic, r.p) == anova(AnovaGroups(CompleteRows(regression, [predictor]), "INGTOT", predictor)) &&
              (r.significant <==> r.p < Alpha)
  {
    var kept := CompleteRows(regression, [predictor]);
    AnovaOutcome(AnovaGroups(kept, "INGTOT", predictor), anova)
  }

  /** One chi-square line of section 2a: the flag against one predictor. */
  function ChiSquareLine(classification: seq<Row>, predictor: string, chi2: map<(Cell, Cell), nat> -> (real, real)): (r: Outcome)
    ensures r.NotComputable? <==> |Crosstab(CompleteRows(classification, [predictor]), "es_informal", predictor)| == 0
    ensures r.Tested? ==>
              (r.statistic, r.p) == chi2(Crosstab(CompleteRows(classification, [predictor]), "es_informal", predictor)) &&
              (r.significant <==> r.p < Alpha)
  {
    ChiSquareOutcome(Crosstab(CompleteRows(classification, [predictor]), "es_informal", predictor), chi2)
  }

  /** A chi-square line is skipped exactly when no kept row has both the flag and the predictor. */
  lemma ChiSquareSkipped(classification: seq<Row>, predictor: string, chi2: map<(Cell, Cell), nat> -> (real, real))
    ensures ChiSquareLine(classification, predictor, chi2).NotComputable? <==>
            Paired(CompleteRows(classification, [predictor]), "es_informal", predictor) == []
  {
    CrosstabEmpty(CompleteRows(classification, [predictor]), "es_informal", predictor);
  }

  /** The report's verdicts, one per categorical predictor, in order. */
  datatype Verdicts = Verdicts(anova: seq<(string, Outcome)>, chiSquare: seq<(string, Outcome)>)

  function Judged(s: RowSets, anova: seq<seq<real>> -> (real, real), chi2: map<(Cell, Cell), nat> -> (real, real)): (r: Verdicts)
    requires forall row | row in s.regression :: Get(row, "INGTOT").Num?
    ensures |r.anova| == |Categorical| == |r.chiSquare|
    ensures forall i | 0 <= i < |Categorical| ::
              r.anova[i] == (Categorical[i], AnovaLine(s.regression, Categorical[i], anova)) &&
              r.chiSquare[i] == (Categorical[i], ChiSquareLine(s.classification, Categorical[i], chi2))
  {
    Verdicts(seq(|Categorical|, i requires 0 <= i < |Categorical| => (Categorical[i], AnovaLine(s.regression, Categorical[i], anova))),
             seq(|Categorical|, i requires 0 <= i < |Categorical| => (Categorical[i], ChiSquareLine(s.classification, Categorical[i], chi2))))
  }

  /**
   * The two test loops: each appends one line per predictor, computed on
   * the row set the script filters for it.
   */
  method JudgeAll(s: RowSets, anova: seq<seq<real>> -> (real, real), chi2: map<(Cell, Cell), nat> -> (real, real))
    returns (r: Verdicts)
    requires forall row | row in s.regression :: Get(row, "INGTOT").Num?
    ensures r == Judged(s, anova, chi2)
  {
    var anovaLines: seq<(string, Outcome)> := [];
    for i := 0 to |Categorical|
      invariant |anovaLines| == i
      invariant forall j | 0 <= j < i :: anovaLines[j] == (Categorical[j], AnovaLine(s.regression, Categorical[j], anova))
    {
      anovaLines := anovaLines + [(Categorical[i], AnovaLine(s.regression, Categorical[i], anova))];
    }
    var chiLines: seq<(string, Outcome)> := [];
    for i := 0 to |Categorical|
      invariant |chiLines| == i
      invariant forall j | 0 <= j < i :: chiLines[j] == (Categorical[j], ChiSquareLine(s.classification, Categorical[j], chi2))
    {
      chiLines := chiLines + [(Categorical[i], ChiSquareLine(s.classification, Categorical[i], chi2))];
    }
    r := Verdicts(anovaLines, chiLines);
    assert r.anova == Judged(s, anova, chi2).anova;
    assert r.chiSquare == Judged(s, anova, chi2).chiSquare;
  }

  /** The whole script up to the report text; a failed load ends it (the `except ... exit()`). */
  function Selection(f: Folder, listing: seq<string>, anova: seq<seq<real>> -> (real, real), chi2: map<(Cell, Cell), nat> -> (real, real)):
    (r: Result<Verdicts>)
    ensures LimaMaster(f, listing, IsCleanedCsv).Failure? ==> r == Failure(LimaMaster(f, listing, IsCleanedCsv).error)
    ensures r.Success? <==> LimaMaster(f, listing, IsCleanedCsv).Success? && Prepared(LimaMaster(f, listing, IsCleanedCsv).value).Success?
    ensures r.Success? ==>
              var t := Prepared(LimaMaster(f, listing, IsCleanedCsv).value).value;
              (forall row | row in Sets(t).regression :: Get(row, "INGTOT").Num?) && r.value == Judged(Sets(t), anova, chi2)
  {
    match LimaMaster(f, listing, IsCleanedCsv)
    case Failure(e) => Failure(e)
    case Success(m) =>
      match Prepared(m)
      case Failure(e) => Failure(e)
      case Success(t) =>
        RegressionIncome(m);
        Success(Judged(Sets(t), anova, chi2))
  }

  /** The script's statements in order. */
  method RunSelection(f: Folder, listing: seq<string>, anova: seq<seq<real>> -> (real, real), chi2: map<(Cell, Cell), nat> -> (real, real))
    returns (r: Result<Verdicts>)
    ensures r == Selection(f, listing, anova, chi2)
  {
    var master := LoadLima(f, listing, IsCleanedCsv);
    if master.Failure? {
      return Failure(master.error);
    }
    var t := Prepare(master.value);
    if t.Failure? {
      return Failure(t.error);
    }
    RegressionIncome(master.value);
    var verdicts := JudgeAll(Sets(t.value), anova, chi2);
    r := Success(verdicts);
  }
}
