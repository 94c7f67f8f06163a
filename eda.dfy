/**
 * lima/eda_script.py: load the cleaned Lima files, recode the three
 * categorical columns, coerce income, age and weight, and compute the
 * weighted means, the weighted sex shares and the income series by
 * period. The plot and the Markdown text are not part of this model.
 */
module Eda {
  import opened Common
  import opened Strings
  import opened Frame
  import opened Codebook
  import opened Aggregate
  import opened LimaFiles
  import opened LimaAnalysis

  /** The three columns the script coerces, in its order. */
  const EdaNumeric: seq<string> := ["INGTOT", "C208", "factor_expansion"]

  /** None of the coerced columns has a recode table. */
  lemma NumericNotRecoded()
    ensures forall c | c in EdaNumeric :: c !in EdaMaps
  {
    assert "INGTOT"[0] == 'I' && "C208"[1] == '2' && "factor_expansion"[0] == 'f';
    assert "C207"[1] == '2' && "C207"[3] == '7' && "C366"[1] == '3' && "OCUP300"[0] == 'O';
  }

  /**
   * The recode loop, then the three to_numeric lines: a KeyError names
   * the first of INGTOT, C208 and factor_expansion that is absent;
   * otherwise those three become numeric, C207, C366 and OCUP300 carry
   * their labels where present (unmapped codes become NaN), and every
   * other cell is as it was.
   */
  function Prepared(t: Table): (r: Result<Table>)
    ensures r.Failure? <==> exists c | c in EdaNumeric :: c !in t.columns
    ensures r.Failure? ==> r.error.MissingColumn? && r.error.column in EdaNumeric
    ensures r.Success? ==> r.value.columns == t.columns && |r.value.rows| == |t.rows|
    ensures r.Success? ==> forall k, c | 0 <= k < |t.rows| ::
              Get(r.value.rows[k], c) ==
                if c in EdaNumeric then ToNumeric(Get(t.rows[k], c))
                else if c in EdaMaps && c in t.columns then Recode(Get(t.rows[k], c), EdaMaps[c])
                else Get(t.rows[k], c)
  {
    NumericNotRecoded();
    Coerced(ColumnsMapped(t, EdaMaps.Keys, Recoder(EdaMaps)), EdaNumeric)
  }

  /**
   * The loading block and the preparation: a FileNotFoundError without
   * cleaned CSV files, the first read error, else the prepared frame.
   */
  function EdaFrame(f: Folder, listing: seq<string>): (r: Result<Table>)
    ensures Selected(listing, IsCleanedCsv) == [] ==> r == Failure(NoInputFiles)
    ensures Selected(listing, IsCleanedCsv) != [] && LimaMaster(f, listing, IsCleanedCsv).Failure? ==>
              r == Failure(LimaMaster(f, listing, IsCleanedCsv).error)
    ensures LimaMaster(f, listing, IsCleanedCsv).Success? ==> r == Prepared(LimaMaster(f, listing, IsCleanedCsv).value)
  {
    if Selected(listing, IsCleanedCsv) == [] then Failure(NoInputFiles)
    else match LimaMaster(f, listing, IsCleanedCsv)
      case Failure(e) => Failure(e)
      case Success(m) => Prepared(m)
  }

  /** After preparation the weight, income and age columns are numeric. */
  predicate Ready(rows: seq<Row>) {
    Numeric(rows, "INGTOT") && Numeric(rows, "C208") && Numeric(rows, "factor_expansion")
  }

  lemma PreparedReady(t: Table)
    requires Prepared(t).Success?
    ensures Ready(Prepared(t).value.rows)
  {
    var u := ColumnsMapped(t, EdaMaps.Keys, Recoder(EdaMaps));
    CoercedNumeric(u, EdaNumeric, "INGTOT");
    CoercedNumeric(u, EdaNumeric, "C208");
    CoercedNumeric(u, EdaNumeric, "factor_expansion");
  }

  /** The periods of the frame's rows: every row's periodo is one of them. */
  function Periods(rows: seq<Row>): (ps: seq<string>)
    ensures Sorted(ps) && Distinct(ps)
    ensures forall p :: p in ps <==> exists row | row in rows :: Get(row, "periodo") == Text(p)
  {
    GroupKeys(rows, "periodo")
  }

  /**
   * `df.groupby('periodo').apply(lambda x: weighted_average(x, 'INGTOT',
   * 'factor_expansion')).sort_index()` before the exceptions are raised:
   * one entry per period, in sorted order, holding that period's mean.
   */
  function IncomeByPeriod(rows: seq<Row>): (s: seq<(string, Result<Cell>)>)
    requires Ready(rows)
    ensures |s| == |Periods(rows)|
    ensures forall i | 0 <= i < |s| :: s[i].0 == Periods(rows)[i] &&
              s[i].1 == EdaAverage(GroupRows(rows, "periodo", Text(s[i].0)), "INGTOT", "factor_expansion")
  {
    var ps := Periods(rows);
    seq(|ps|, i requires 0 <= i < |ps| =>
      (ps[i], EdaAverage(GroupRows(rows, "periodo", Text(ps[i])), "INGTOT", "factor_expansion")))
  }

  /** What the EDA report states: the two means, the sex shares and the income series. */
  datatype Summary = Summary(income: Cell, age: Cell, sexShares: seq<(string, Cell)>, incomeByPeriod: seq<(string, Cell)>)

  /**
   * Section 3 and 4 of the script in order: the income mean, the age mean
   * (numpy's ZeroDivisionError when the kept weights sum to zero), the
   * sex shares (a KeyError without C207) and the series by period.
   */
  function Summarize(t: Table): (r: Result<Summary>)
    requires Ready(t.rows)
    ensures EdaAverage(t.rows, "INGTOT", "factor_expansion").Failure? ==> r == Failure(ZeroWeights)
    ensures r.Success? <==>
              EdaAverage(t.rows, "INGTOT", "factor_expansion").Success? && EdaAverage(t.rows, "C208", "factor_expansion").Success? &&
              "C207" in t.columns && Collect(IncomeByPeriod(t.rows)).Success?
    ensures r.Success? ==>
              r.value.income == EdaAverage(t.rows, "INGTOT", "factor_expansion").value &&
              r.value.age == EdaAverage(t.rows, "C208", "factor_expansion").value &&
              r.value.sexShares == GroupShares(t.rows, "C207", "factor_expansion") &&
              r.value.incomeByPeriod == Collect(IncomeByPeriod(t.rows)).value
  {
    match EdaAverage(t.rows, "INGTOT", "factor_expansion")
    case Failure(e) => Failure(e)
    case Success(income) =>
      match EdaAverage(t.rows, "C208", "factor_expansion")
      case Failure(e) => Failure(e)
      case Success(age) =>
        if "C207" !in t.columns then Failure(MissingColumn("C207"))
        else match Collect(IncomeByPeriod(t.rows))
          case Failure(e) => Failure(e)
          case Success(series) => Success(Summary(income, age, GroupShares(t.rows, "C207", "factor_expansion"), series))
  }

  /** The whole script up to the report text. */
  function EdaRun(f: Folder, listing: seq<string>): (r: Result<Summary>)
    ensures Selected(listing, IsCleanedCsv) == [] ==> r == Failure(NoInputFiles)
    ensures EdaFrame(f, listing).Failure? ==> r == Failure(EdaFrame(f, listing).error)
    ensures EdaFrame(f, listing).Success? ==> Ready(EdaFrame(f, listing).value.rows) && r == Summarize(EdaFrame(f, listing).value)
  {
    match EdaFrame(f, listing)
    case Failure(e) => Failure(e)
    case Success(t) =>
      PreparedReady(LimaMaster(f, listing, IsCleanedCsv).value);
      Summarize(t)
  }

  /**
   * The income series has exactly one entry per period of the frame, in
   * sorted order, and each entry is the weighted mean over that period's
   * rows.
   */
  lemma SeriesByPeriod(t: Table, i: nat)
    requires Ready(t.rows) && Summarize(t).Success? && i < |Summarize(t).value.incomeByPeriod|
    ensures var s := Summarize(t).value.incomeByPeriod;
            |s| == |Periods(t.rows)| && s[i].0 == Periods(t.rows)[i] &&
            EdaAverage(GroupRows(t.rows, "periodo", Text(s[i].0)), "INGTOT", "factor_expansion") == Success(s[i].1)
  {
    var ins := IncomeByPeriod(t.rows);
    var s := Collect(ins).value;
    assert Summarize(t).value.incomeByPeriod == s;
    assert s[i].0 == ins[i].0 && ins[i].1 == Success(s[i].1);
  }

  /**
   * With non-negative weights and a positive total, the sex shares add up
   * to at most 100: rows without a sex label count in the total only.
   */
  lemma SexSharesAtMost100(t: Table)
    requires Ready(t.rows) && Summarize(t).Success?
    requires forall row | row in t.rows :: NumOr0(Get(row, "factor_expansion")) >= 0.0
    requires ColumnSum(t.rows, "factor_expansion") > 0.0
    ensures SumShares(Summarize(t).value.sexShares) <= 100.0
  {
    SharesAtMost100(t.rows, "C207", "factor_expansion");
  }

  /**
   * With non-negative weights, the income mean lies between any bounds on
   * the incomes.
   */
  lemma IncomeWithinBounds(t: Table, lo: real, hi: real)
    requires Ready(t.rows) && Summarize(t).Success? && Summarize(t).value.income.Num?
    requires forall row | row in t.rows && Get(row, "factor_expansion").Num? :: Get(row, "factor_expansion").value >= 0.0
    requires forall row | row in t.rows && Get(row, "INGTOT").Num? :: lo <= Get(row, "INGTOT").value <= hi
    ensures lo <= Summarize(t).value.income.value <= hi
  {
    KeptAverageBounds(t.rows, "INGTOT", "factor_expansion", lo, hi);
  }

  /**
   * The script's statements in order: the loading loop, the recode loop
   * over the tables, the three coercions, then the summary.
   */
  method RunEda(f: Folder, listing: seq<string>) returns (r: Result<Summary>)
    ensures r == EdaRun(f, listing)
  {
    if Selected(listing, IsCleanedCsv) == [] {
      return Failure(NoInputFiles);
    }
    var master := LoadLima(f, listing, IsCleanedCsv);
    if master.Failure? {
      return Failure(master.error);
    }
    var recoded := MapColumns(master.value, EdaMaps.Keys, Recoder(EdaMaps));
    var coerced := CoerceColumns(recoded, EdaNumeric);
    if coerced.Failure? {
      return Failure(coerced.error);
    }
    PreparedReady(master.value);
    r := Summarize(coerced.value);
  }
}
