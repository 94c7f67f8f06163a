/**
 * lima/06_dashboard/dashboard_app.py without its widgets: load_data (the
 * cleaned Lima files stamped with their period, the sex and activity
 * labels, the informality flag and the numeric coercions), the period
 * selector and get_weighted_kpis.
 */
module DashboardApp {
  import opened Common
  import opened Strings
  import opened Frame
  import opened Features
  import opened Codebook
  import opened Aggregate
  import opened LimaFiles
  import opened LimaAnalysis

  /** The coercion loop of load_data. */
  const DashboardNumeric: seq<string> := ["INGTOT", "C208", "factor_expansion", "whoraT", "C366"]

  /** The derived columns are not coerced: their names differ in length from every coerced name. */
  lemma DerivedNotCoerced()
    ensures "es_informal" !in DashboardNumeric && "OCUP300_label" !in DashboardNumeric
  {
    assert |"es_informal"| == 11 && |"OCUP300_label"| == 13;
    assert |"INGTOT"| == 6 && |"C208"| == 4 && |"factor_expansion"| == 16 && |"whoraT"| == 6 && |"C366"| == 4;
  }

  /** `series.map({1: 'Hombre', 2: 'Mujer'})` on one cell. */
  function SexLabel(c: Cell): (r: Cell)
    ensures r == Text("Hombre") <==> NumEq(c, 1.0)
    ensures r == Text("Mujer") <==> NumEq(c, 2.0)
    ensures r.Missing? <==> !NumEq(c, 1.0) && !NumEq(c, 2.0)
  {
    if NumEq(c, 1.0) then assert c.value.Floor == 1; Recode(c, Sex)
    else if NumEq(c, 2.0) then assert c.value.Floor == 2; Recode(c, Sex)
    else
      assert c.Num? && IsIntegral(c.value) ==> c.value.Floor !in Sex;
      Recode(c, Sex)
  }

  /**
   * The recodes of load_data, in order: C207 replaced by its label (a
   * KeyError when absent), OCUP300_label added from OCUP300, then the
   * flag from the numeric OCUP300 and C361_1.
   */
  function Recoded(t: Table): (r: Result<Table>)
    ensures "C207" !in t.columns ==> r == Failure(MissingColumn("C207"))
    ensures "C207" in t.columns && "OCUP300" !in t.columns ==> r == Failure(MissingColumn("OCUP300"))
    ensures r.Success? <==> "C207" in t.columns && "OCUP300" in t.columns && "C361_1" in t.columns
    ensures r.Success? ==> |r.value.rows| == |t.rows|
  {
    if "C207" !in t.columns then Failure(MissingColumn("C207"))
    else
      match Labelled(MapColumn(t, "C207", SexLabel), "OCUP300", "OCUP300_label", ActivityDashboard)
      case Failure(e) => Failure(e)
      case Success(u) => Informal(u)
  }

  /** The cells of a recoded row: the three derived columns, and every other cell as loaded. */
  lemma RecodedRow(t: Table, k: nat)
    requires Recoded(t).Success? && k < |t.rows|
    ensures var row := Recoded(t).value.rows[k];
            Get(row, "C207") == SexLabel(Get(t.rows[k], "C207")) &&
            Get(row, "OCUP300_label") == Recode(Get(t.rows[k], "OCUP300"), ActivityDashboard) &&
            Get(row, "es_informal") == Flag(InformalByCode(t.rows[k])) &&
            forall c | c !in {"C207", "OCUP300_label", "es_informal"} :: Get(row, c) == Get(t.rows[k], c)
  {
    var s := MapColumn(t, "C207", SexLabel);
    var u := Labelled(s, "OCUP300", "OCUP300_label", ActivityDashboard).value;
    assert s.rows[k] == t.rows[k]["C207" := SexLabel(Get(t.rows[k], "C207"))];
  }

  /** load_data after the concat: the recodes, then the coercions. */
  function Prepared(t: Table): (r: Result<Table>)
    ensures r.Success? <==> Recoded(t).Success? && Coerced(Recoded(t).value, DashboardNumeric).Success?
    ensures r.Success? ==> r == Coerced(Recoded(t).value, DashboardNumeric) && |r.value.rows| == |t.rows|
  {
    match Recoded(t)
    case Failure(e) => Failure(e)
    case Success(u) => Coerced(u, DashboardNumeric)
  }

  /** load_data: the first exception (an empty folder reaches pd.concat with nothing) ends the app. */
  function Loaded(f: Folder, listing: seq<string>): (r: Result<Table>)
    ensures Selected(listing, IsCleaned) == [] ==> r == Failure(NothingToConcatenate)
    ensures LimaMaster(f, listing, IsCleaned).Failure? ==> r == Failure(LimaMaster(f, listing, IsCleaned).error)
    ensures LimaMaster(f, listing, IsCleaned).Success? ==> r == Prepared(LimaMaster(f, listing, IsCleaned).value)
  {
    match LimaMaster(f, listing, IsCleaned)
    case Failure(e) => Failure(e)
    case Success(m) => Prepared(m)
  }

  /** The statements of load_data: the read loop, the concat, the recodes and the coercion loop. */
  method LoadData(f: Folder, listing: seq<string>) returns (r: Result<Table>)
    ensures r == Loaded(f, listing)
  {
    var master := LoadLima(f, listing, IsCleaned);
    if master.Failure? {
      return Failure(master.error);
    }
    if "C207" !in master.value.columns {
      return Failure(MissingColumn("C207"));
    }
    var sexed := MapColumn(master.value, "C207", SexLabel);
    var labelled := Labelled(sexed, "OCUP300", "OCUP300_label", ActivityDashboard);
    if labelled.Failure? {
      return Failure(labelled.error);
    }
    var flagged := SetInformal(labelled.value);
    if flagged.Failure? {
      return Failure(flagged.error);
    }
    r := CoerceColumns(flagged.value, DashboardNumeric);
  }

  /** The loaded frame: income, age, weight and flag hold numbers or NaN only. */
  predicate Ready(rows: seq<Row>) {
    Numeric(rows, "INGTOT") && Numeric(rows, "C208") && Numeric(rows, "factor_expansion") && Numeric(rows, "es_informal")
  }

  /** The loaded frame is ready for the indicators. */
  lemma LoadedReady(t: Table)
    requires Prepared(t).Success?
    ensures Ready(Prepared(t).value.rows)
  {
    var u := Recoded(t).value;
    var r := Prepared(t).value;
    CoercedNumeric(u, DashboardNumeric, "INGTOT");
    CoercedNumeric(u, DashboardNumeric, "C208");
    CoercedNumeric(u, DashboardNumeric, "factor_expansion");
    forall row | row in r.rows ensures IsNumeric(Get(row, "es_informal")) {
      var k :| 0 <= k < |r.rows| && r.rows[k] == row;
      FlagAt(t, k);
    }
  }

  /** The flag of a loaded row is the flag of its recoded row: a number. */
  lemma FlagAt(t: Table, k: nat)
    requires Prepared(t).Success? && k < |Prepared(t).value.rows|
    ensures Get(Prepared(t).value.rows[k], "es_informal") == Flag(InformalByCode(t.rows[k]))
  {
    var u := Recoded(t).value;
    RecodedRow(t, k);
    DerivedNotCoerced();
    CoercedKeeps(u, DashboardNumeric, k, "es_informal");
  }

  // ---------------------------------------------------------- the selector

  const AllPeriods := "Todos"

  /** `['Todos'] + sorted(df['periodo'].unique().tolist())`. */
  function PeriodList(rows: seq<Row>): (r: seq<string>)
    ensures |r| >= 1 && r[0] == AllPeriods
    ensures Sorted(r[1..]) && Distinct(r[1..])
    ensures forall g :: g in r[1..] <==> exists row | row in rows :: Get(row, "periodo") == Text(g)
  {
    [AllPeriods] + GroupKeys(rows, "periodo")
  }

  /** `df if selected_period == 'Todos' else df[df['periodo'] == selected_period]`. */
  function Chosen(rows: seq<Row>, choice: string): (r: seq<Row>)
    ensures choice == AllPeriods ==> r == rows
    ensures choice != AllPeriods ==> forall row :: row in r <==> row in rows && Get(row, "periodo") == Text(choice)
  {
    if choice == AllPeriods then rows else Filter(rows, (row: Row) => Get(row, "periodo") == Text(choice))
  }

  /** Every entry of the selector picks at least one row. */
  lemma ChoicesNonEmpty(rows: seq<Row>, i: nat)
    requires i < |PeriodList(rows)| && rows != []
    ensures Chosen(rows, PeriodList(rows)[i]) != []
  {
    var ks := GroupKeys(rows, "periodo");
    assert PeriodList(rows) == [AllPeriods] + ks;
    if i > 0 {
      var choice := ks[i - 1];
      assert choice in ks;
      var row :| row in rows && Get(row, "periodo") == Text(choice);
      if choice != AllPeriods {
        assert row in Chosen(rows, choice);
      }
    }
  }

  // ---------------------------------------------------------- the KPIs

  /** The three indicators get_weighted_kpis returns. */
  datatype Kpis = Kpis(income: real, age: real, informality: real)

  /** `data[data['OCUP300_label'] == 'Ocupado']`. */
  function Ocupados(rows: seq<Row>): (r: seq<Row>)
    ensures forall row :: row in r <==> row in rows && Get(row, "OCUP300_label") == Text("Ocupado")
  {
    Filter(rows, (row: Row) => Get(row, "OCUP300_label") == Text("Ocupado"))
  }

  /** The guard of get_weighted_kpis: no rows, or a weight column summing to zero. */
  predicate Degenerate(rows: seq<Row>) {
    rows == [] || ColumnSum(rows, "factor_expansion") == 0.0
  }

  /**
   * get_weighted_kpis: all zeros behind the guard; otherwise the weighted
   * income and age over the rows where value and weight are present, and
   * the weighted flag over such 'Ocupado' rows in percent, each 0 when no
   * row qualifies. np.average raises when the qualifying weights sum to
   * zero.
   */
  function WeightedKpis(rows: seq<Row>): (r: Result<Kpis>)
    requires Ready(rows)
    ensures Degenerate(rows) ==> r == Success(Kpis(0.0, 0.0, 0.0))
    ensures !Degenerate(rows) ==>
              (r.Success? <==>
                 DashboardAverage(rows, "INGTOT", "factor_expansion").Success? &&
                 DashboardAverage(rows, "C208", "factor_expansion").Success? &&
                 DashboardAverage(Ocupados(rows), "es_informal", "factor_expansion").Success?)
    ensures !Degenerate(rows) && r.Success? ==>
              r.value.income == DashboardAverage(rows, "INGTOT", "factor_expansion").value &&
              r.value.age == DashboardAverage(rows, "C208", "factor_expansion").value &&
              r.value.informality == DashboardAverage(Ocupados(rows), "es_informal", "factor_expansion").value * 100.0
    ensures r.Failure? ==> r.error == ZeroWeights
  {
    if Degenerate(rows) then Success(Kpis(0.0, 0.0, 0.0))
    else
      match DashboardAverage(rows, "INGTOT", "factor_expansion")
      case Failure(e) => Failure(e)
      case Success(income) =>
        match DashboardAverage(rows, "C208", "factor_expansion")
        case Failure(e) => Failure(e)
        case Success(age) =>
          match DashboardAverage(Ocupados(rows), "es_informal", "factor_expansion")
          case Failure(e) => Failure(e)
          case Success(rate) => Success(Kpis(income, age, rate * 100.0))
  }

  /** Weights that are numbers are never negative. */
  predicate NonNegativeWeights(rows: seq<Row>) {
    forall row | row in rows && Get(row, "factor_expansion").Num? :: Get(row, "factor_expansion").value >= 0.0
  }

  /** A flag column holds 0, 1 or NaN. */
  predicate Binary(rows: seq<Row>) {
    forall row | row in rows && Get(row, "es_informal").Num? :: 0.0 <= Get(row, "es_informal").value <= 1.0
  }

  /** A weighted mean over the rows with value and weight present lies in the values' range, or is the 0 of no rows. */
  lemma MeanInRange(rows: seq<Row>, v: string, lo: real, hi: real)
    requires Numeric(rows, v) && Numeric(rows, "factor_expansion") && NonNegativeWeights(rows)
    requires forall row | row in rows && Get(row, v).Num? :: lo <= Get(row, v).value <= hi
    requires DashboardAverage(rows, v, "factor_expansion").Success?
    ensures var m := DashboardAverage(rows, v, "factor_expansion").value;
            (Kept(rows, v, "factor_expansion") == [] && m == 0.0) || lo <= m <= hi
  {
    KeptAverageBounds(rows, v, "factor_expansion", lo, hi);
  }

  /** With non-negative weights the informality rate is a percentage. */
  lemma RateIsPercentage(rows: seq<Row>)
    requires Ready(rows) && Binary(rows) && NonNegativeWeights(rows) && WeightedKpis(rows).Success?
    ensures 0.0 <= WeightedKpis(rows).value.informality <= 100.0
  {
    if !Degenerate(rows) {
      var oc := Ocupados(rows);
      MeanInRange(oc, "es_informal", 0.0, 1.0);
    }
  }

  /** With non-negative weights the average income lies between the smallest and largest income, or is 0. */
  lemma IncomeInRange(rows: seq<Row>, lo: real, hi: real)
    requires Ready(rows) && NonNegativeWeights(rows) && WeightedKpis(rows).Success?
    requires forall row | row in rows && Get(row, "INGTOT").Num? :: lo <= Get(row, "INGTOT").value <= hi
    ensures WeightedKpis(rows).value.income == 0.0 || lo <= WeightedKpis(rows).value.income <= hi
  {
    if !Degenerate(rows) {
      MeanInRange(rows, "INGTOT", lo, hi);
    }
  }

  // ---------------------------------------------------------- the charts

  /**
   * `df_filtered.groupby(key)['factor_expansion'].sum()`: one weight total
   * per label, in sorted label order.
   */
  function Distribution(rows: seq<Row>, key: string): (d: seq<(string, real)>)
    ensures |d| == |GroupKeys(rows, key)|
    ensures forall i | 0 <= i < |d| :: d[i].0 == GroupKeys(rows, key)[i] && d[i].1 == GroupSum(rows, key, d[i].0, "factor_expansion")
  {
    var ks := GroupKeys(rows, key);
    seq(|ks|, i requires 0 <= i < |ks| => (ks[i], GroupSum(rows, key, ks[i], "factor_expansion")))
  }

  function Total(d: seq<(string, real)>): real
    decreases |d|
  {
    if d == [] then 0.0 else Total(d[..|d| - 1]) + d[|d| - 1].1
  }

  /** Totals listed against keys add up to the keys' group sums. */
  lemma {:induction false} TotalOfGroups(rows: seq<Row>, key: string, ks: seq<string>, d: seq<(string, real)>)
    requires |d| == |ks| && forall i | 0 <= i < |d| :: d[i].1 == GroupSum(rows, key, ks[i], "factor_expansion")
    ensures Total(d) == SumGroups(rows, key, ks, "factor_expansion")
    decreases |d|
  {
    if d != [] {
      TotalOfGroups(rows, key, ks[..|ks| - 1], d[..|d| - 1]);
    }
  }

  /**
   * The groups of a chart add up to the weight of the rows with a label:
   * a row whose label is NaN is in no group.
   */
  lemma DistributionTotal(rows: seq<Row>, key: string)
    ensures Total(Distribution(rows, key)) == LabelledSum(rows, key, "factor_expansion")
  {
    var ks := GroupKeys(rows, key);
    TotalOfGroups(rows, key, ks, Distribution(rows, key));
    GroupSumsAdd(rows, key, ks, "factor_expansion");
    InKeysIsLabelled(rows, key, "factor_expansion");
  }

  // ------------------------------------------------------ the income series

  /** The (income, weight) pairs of period p's rows. */
  function PeriodPairs(kept: seq<Row>, p: string): (ps: seq<Pair>)
    requires forall row | row in kept :: Get(row, "INGTOT").Num? && Get(row, "factor_expansion").Num?
    ensures |ps| == |GroupRows(kept, "periodo", Text(p))|
  {
    PairsOf(GroupRows(kept, "periodo", Text(p)), "INGTOT", "factor_expansion")
  }

  /**
   * The "Evolución General del Ingreso Ponderado" chart: the rows with an
   * income and a weight, grouped by period (a period that is not text
   * makes no group), np.average of each group, in sorted period order.
   * None when no row has both, and the chart is skipped; numpy's
   * ZeroDivisionError when some period's weights sum to zero.
   */
  function IncomeSeries(rows: seq<Row>): (r: Option<Result<seq<(string, real)>>>)
    ensures r.None? <==> Kept(rows, "INGTOT", "factor_expansion") == []
    ensures r.Some? ==>
              var kept := Kept(rows, "INGTOT", "factor_expansion");
              var ps := GroupKeys(kept, "periodo");
              (r.value.Failure? <==> exists i | 0 <= i < |ps| :: SumW(PeriodPairs(kept, ps[i])) == 0.0) &&
              (r.value.Failure? ==> r.value.error == ZeroWeights)
    ensures r.Some? && r.value.Success? ==>
              var kept := Kept(rows, "INGTOT", "factor_expansion");
              var ps := GroupKeys(kept, "periodo");
              |r.value.value| == |ps| &&
              forall i | 0 <= i < |ps| ::
                r.value.value[i].0 == ps[i] && PeriodPairs(kept, ps[i]) != [] &&
                Average(PeriodPairs(kept, ps[i])) == Success(r.value.value[i].1)
  {
    var kept := Kept(rows, "INGTOT", "factor_expansion");
    if kept == [] then None
    else
      PeriodSeries(kept);
      Some(Collect(PeriodMeans(kept)))
  }

  /** Each period of the kept rows with np.average of its group. */
  function PeriodMeans(kept: seq<Row>): (ms: seq<(string, Result<real>)>)
    requires forall row | row in kept :: Get(row, "INGTOT").Num? && Get(row, "factor_expansion").Num?
    ensures var ps := GroupKeys(kept, "periodo");
            |ms| == |ps| && forall i | 0 <= i < |ps| :: ms[i] == (ps[i], Average(PeriodPairs(kept, ps[i])))
  {
    var ps := GroupKeys(kept, "periodo");
    seq(|ps|, i requires 0 <= i < |ps| => (ps[i], Average(PeriodPairs(kept, ps[i]))))
  }

  /** Collecting the period means fails exactly at a period of zero total weight, and otherwise gives each period's average. */
  lemma PeriodSeries(kept: seq<Row>)
    requires forall row | row in kept :: Get(row, "INGTOT").Num? && Get(row, "factor_expansion").Num?
    ensures var ps, r := GroupKeys(kept, "periodo"), Collect(PeriodMeans(kept));
            (r.Failure? <==> exists i | 0 <= i < |ps| :: SumW(PeriodPairs(kept, ps[i])) == 0.0) &&
            (r.Failure? ==> r.error == ZeroWeights)
    ensures var ps, r := GroupKeys(kept, "periodo"), Collect(PeriodMeans(kept));
            r.Success? ==>
              |r.value| == |ps| &&
              forall i | 0 <= i < |ps| ::
                r.value[i].0 == ps[i] && PeriodPairs(kept, ps[i]) != [] &&
                Average(PeriodPairs(kept, ps[i])) == Success(r.value[i].1)
  {
    var ps, ms := GroupKeys(kept, "periodo"), PeriodMeans(kept);
    PeriodGroupsNonEmpty(kept);
    var groups := seq(|ps|, i requires 0 <= i < |ps| => PeriodPairs(kept, ps[i]));
    CollectAverages(ps, groups, ms);
  }

  /** Collecting named averages fails exactly at a group of zero total weight. */
  lemma CollectAverages(ks: seq<string>, groups: seq<seq<Pair>>, ms: seq<(string, Result<real>)>)
    requires |ks| == |groups| == |ms|
    requires forall i | 0 <= i < |ms| :: ms[i] == (ks[i], Average(groups[i]))
    ensures Collect(ms).Failure? <==> exists i | 0 <= i < |groups| :: SumW(groups[i]) == 0.0
    ensures Collect(ms).Failure? ==> Collect(ms).error == ZeroWeights
    ensures Collect(ms).Success? ==>
              |Collect(ms).value| == |ks| &&
              forall i | 0 <= i < |ks| ::
                Collect(ms).value[i].0 == ks[i] && Average(groups[i]) == Success(Collect(ms).value[i].1)
  {
    var r := Collect(ms);
    if r.Failure? {
      var i :| 0 <= i < |ms| && ms[i].1 == Failure(r.error);
      assert SumW(groups[i]) == 0.0;
    } else {
      forall i | 0 <= i < |groups| ensures SumW(groups[i]) != 0.0 {
        assert ms[i].1.Success?;
      }
    }
  }

  /** Every period groupby finds has at least one row. */
  lemma PeriodGroupsNonEmpty(kept: seq<Row>)
    ensures var ps := GroupKeys(kept, "periodo");
            forall i | 0 <= i < |ps| :: GroupRows(kept, "periodo", Text(ps[i])) != []
  {
    var ps := GroupKeys(kept, "periodo");
    forall i | 0 <= i < |ps| ensures GroupRows(kept, "periodo", Text(ps[i])) != [] {
      assert ps[i] in ps;
      var row :| row in kept && Get(row, "periodo") == Text(ps[i]);
      assert row in GroupRows(kept, "periodo", Text(ps[i]));
    }
  }

  /** With non-negative weights every point of the series lies between any bounds on the incomes. */
  lemma IncomeSeriesInRange(rows: seq<Row>, lo: real, hi: real)
    requires NonNegativeWeights(rows)
    requires forall row | row in rows && Get(row, "INGTOT").Num? :: lo <= Get(row, "INGTOT").value <= hi
    requires IncomeSeries(rows).Some? && IncomeSeries(rows).value.Success?
    ensures forall i | 0 <= i < |IncomeSeries(rows).value.value| :: lo <= IncomeSeries(rows).value.value[i].1 <= hi
  {
    var kept := Kept(rows, "INGTOT", "factor_expansion");
    var ps := GroupKeys(kept, "periodo");
    var series := IncomeSeries(rows).value.value;
    forall i | 0 <= i < |series| ensures lo <= series[i].1 <= hi {
      var pairs := PeriodPairs(kept, ps[i]);
      var g := GroupRows(kept, "periodo", Text(ps[i]));
      forall j | 0 <= j < |pairs| ensures pairs[j].1 >= 0.0 && lo <= pairs[j].0 <= hi {
        assert g[j] in g;
      }
      AverageBounds(pairs, lo, hi);
    }
  }

  /** Exactly code 1 of the dashboard's activity table carries the label 'Ocupado'. */
  lemma OcupadoIsCodeOne(c: Cell)
    ensures Recode(c, ActivityDashboard) == Text("Ocupado") <==> NumEq(c, 1.0)
  {
    DashboardActivityManyToOne();
    if NumEq(c, 1.0) {
      assert c.value.Floor == 1;
    }
  }

  /**
   * On the loaded frame, the rate's rows are the rows with OCUP300 code 1,
   * and on them the flag is set exactly when C361_1 is 2.
   */
  lemma OcupadosMeaning(t: Table, k: nat)
    requires Prepared(t).Success? && k < |t.rows|
    ensures var row := Prepared(t).value.rows[k];
            (Get(row, "OCUP300_label") == Text("Ocupado") <==> NumEq(Get(t.rows[k], "OCUP300"), 1.0)) &&
            (NumEq(Get(t.rows[k], "OCUP300"), 1.0) ==>
               (Get(row, "es_informal") == Num(1.0) <==> NumEq(Get(t.rows[k], "C361_1"), 2.0)))
  {
    var u := Recoded(t).value;
    RecodedRow(t, k);
    DerivedNotCoerced();
    CoercedKeeps(u, DashboardNumeric, k, "OCUP300_label");
    CoercedKeeps(u, DashboardNumeric, k, "es_informal");
    OcupadoIsCodeOne(Get(t.rows[k], "OCUP300"));
  }
}
