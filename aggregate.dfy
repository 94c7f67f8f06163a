/**
 * Weighted aggregation over frame rows: pandas sums (NaN skipped),
 * numpy's weighted average, group sums and their shares of the total.
 */
module Aggregate {
  import opened Common
  import opened Strings
  import opened Frame

  /** A cell as a summand: pandas' sum skips NaN. */
  function NumOr0(c: Cell): real {
    if c.Num? then c.value else 0.0
  }

  /** The sum of f over the rows. */
  function SumOver(rows: seq<Row>, f: Row -> real): real
    decreases |rows|
  {
    if rows == [] then 0.0 else SumOver(rows[..|rows| - 1], f) + f(rows[|rows| - 1])
  }

  /** df[col].sum(): the column's numbers, NaN skipped. */
  function ColumnSum(rows: seq<Row>, col: string): real {
    SumOver(rows, (row: Row) => NumOr0(Get(row, col)))
  }

  /** df[cols].sum(axis=1) on one row: the listed cells' numbers, NaN skipped. */
  function RowSum(row: Row, cols: seq<string>): real
    decreases |cols|
  {
    if cols == [] then 0.0 else RowSum(row, cols[..|cols| - 1]) + NumOr0(Get(row, cols[|cols| - 1]))
  }

  lemma {:induction false} SumOverAppend(a: seq<Row>, b: seq<Row>, f: Row -> real)
    ensures SumOver(a + b, f) == SumOver(a, f) + SumOver(b, f)
    decreases |b|
  {
    if b != [] {
      var init := b[..|b| - 1];
      assert (a + b)[..|a + b| - 1] == a + init;
      SumOverAppend(a, init, f);
    } else {
      assert a + b == a;
    }
  }

  /** Sums are linear in the summand. */
  lemma {:induction false} SumOverAdd(rows: seq<Row>, f: Row -> real, g: Row -> real, h: Row -> real)
    requires forall x | x in rows :: h(x) == f(x) + g(x)
    ensures SumOver(rows, h) == SumOver(rows, f) + SumOver(rows, g)
    decreases |rows|
  {
    if rows != [] {
      SumOverAdd(rows[..|rows| - 1], f, g, h);
      assert rows[|rows| - 1] in rows;
    }
  }

  /** A pointwise smaller summand gives a smaller sum. */
  lemma {:induction false} SumOverMono(rows: seq<Row>, f: Row -> real, g: Row -> real)
    requires forall x | x in rows :: f(x) <= g(x)
    ensures SumOver(rows, f) <= SumOver(rows, g)
    decreases |rows|
  {
    if rows != [] {
      SumOverMono(rows[..|rows| - 1], f, g);
      assert rows[|rows| - 1] in rows;
    }
  }

  /** Summing over a mask is summing over the rows the mask keeps. */
  lemma {:induction false} SumOverFilter(rows: seq<Row>, p: Row -> bool, f: Row -> real, g: Row -> real)
    requires forall x :: g(x) == if p(x) then f(x) else 0.0
    ensures SumOver(Filter(rows, p), f) == SumOver(rows, g)
    decreases |rows|
  {
    if rows != [] {
      var init, last := rows[..|rows| - 1], rows[|rows| - 1];
      assert rows == init + [last];
      FilterAppend(init, [last], p);
      assert Filter([last], p) == (if p(last) then [last] else []);
      SumOverAppend(Filter(init, p), Filter([last], p), f);
      SumOverFilter(init, p, f, g);
    }
  }

  // --------------------------------------------------------- np.average

  /** A (value, weight) pair of one row. */
  type Pair = (real, real)

  function SumW(ps: seq<Pair>): real
    decreases |ps|
  {
    if ps == [] then 0.0 else SumW(ps[..|ps| - 1]) + ps[|ps| - 1].1
  }

  function SumVW(ps: seq<Pair>): real
    decreases |ps|
  {
    if ps == [] then 0.0 else SumVW(ps[..|ps| - 1]) + ps[|ps| - 1].0 * ps[|ps| - 1].1
  }

  /** np.average(values, weights): ZeroDivisionError when the weights sum to zero. */
  function Average(ps: seq<Pair>): (r: Result<real>)
    ensures r.Failure? <==> SumW(ps) == 0.0
    ensures r.Failure? ==> r.error == ZeroWeights
    ensures r.Success? ==> r.value * SumW(ps) == SumVW(ps)
  {
    if SumW(ps) == 0.0 then Failure(ZeroWeights) else Success(SumVW(ps) / SumW(ps))
  }

  /** With non-negative weights, lo·Σw ≤ Σvw ≤ hi·Σw whenever every value lies in [lo, hi]. */
  lemma {:induction false} ScaledBounds(ps: seq<Pair>, lo: real, hi: real)
    requires forall i | 0 <= i < |ps| :: ps[i].1 >= 0.0 && lo <= ps[i].0 <= hi
    ensures lo * SumW(ps) <= SumVW(ps) <= hi * SumW(ps)
    decreases |ps|
  {
    if ps != [] {
      var init := ps[..|ps| - 1];
      var (v, w) := ps[|ps| - 1];
      assert forall i | 0 <= i < |init| :: init[i] == ps[i];
      ScaledBounds(init, lo, hi);
      assert (v - lo) * w >= 0.0 && (hi - v) * w >= 0.0 by {
        MulNonNeg(v - lo, w);
        MulNonNeg(hi - v, w);
      }
    }
  }

  lemma MulNonNeg(a: real, b: real)
    requires a >= 0.0 && b >= 0.0
    ensures a * b >= 0.0
  {
  }

  /** A weighted mean with non-negative weights lies between the least and greatest value. */
  lemma AverageBounds(ps: seq<Pair>, lo: real, hi: real)
    requires forall i | 0 <= i < |ps| :: ps[i].1 >= 0.0 && lo <= ps[i].0 <= hi
    requires Average(ps).Success?
    ensures lo <= Average(ps).value <= hi
  {
    ScaledBounds(ps, lo, hi);
    WeightsNonNeg(ps);
    MeanBetween(SumW(ps), SumVW(ps), Average(ps).value, lo, hi);
  }

  /** A quotient m = x / s of a sum bounded by lo·s and hi·s lies in [lo, hi]. */
  lemma MeanBetween(s: real, x: real, m: real, lo: real, hi: real)
    requires s >= 0.0 && s != 0.0 && m * s == x && lo * s <= x <= hi * s
    ensures lo <= m <= hi
  {
    assert (m - lo) * s == x - lo * s;
    assert (hi - m) * s == hi * s - x;
    NonNegFactor(m - lo, s);
    NonNegFactor(hi - m, s);
  }

  lemma NonNegFactor(a: real, b: real)
    requires b > 0.0 && a * b >= 0.0
    ensures a >= 0.0
  {
  }

  /** Non-negative weights have a non-negative sum. */
  lemma {:induction false} WeightsNonNeg(ps: seq<Pair>)
    requires forall i | 0 <= i < |ps| :: ps[i].1 >= 0.0
    ensures SumW(ps) >= 0.0
    decreases |ps|
  {
    if ps != [] {
      var init := ps[..|ps| - 1];
      assert forall i | 0 <= i < |init| :: init[i] == ps[i];
      WeightsNonNeg(init);
    }
  }

  // ------------------------------------------------- averages over rows

  /** Every cell of column c is NaN or a number: the column has been through to_numeric. */
  predicate Numeric(rows: seq<Row>, c: string) {
    forall row | row in rows :: IsNumeric(Get(row, c))
  }

  /** df.dropna(subset=[v, w]) on numeric columns. */
  function Kept(rows: seq<Row>, v: string, w: string): (r: seq<Row>)
    ensures forall row :: row in r <==> row in rows && Get(row, v).Num? && Get(row, w).Num?
  {
    Filter(rows, (row: Row) => Get(row, v).Num? && Get(row, w).Num?)
  }

  /** The (value, weight) pairs of rows whose two cells are numbers. */
  function PairsOf(rows: seq<Row>, v: string, w: string): (ps: seq<Pair>)
    requires forall row | row in rows :: Get(row, v).Num? && Get(row, w).Num?
    ensures |ps| == |rows|
    ensures forall i | 0 <= i < |rows| :: ps[i] == (Get(rows[i], v).value, Get(rows[i], w).value)
  {
    seq(|rows|, i requires 0 <= i < |rows| => (Get(rows[i], v).value, Get(rows[i], w).value))
  }

  /**
   * weighted_average of lima/eda_script.py: drop rows where the value or
   * the weight is NaN, NaN if none remain, else np.average.
   */
  function EdaAverage(rows: seq<Row>, v: string, w: string): (r: Result<Cell>)
    requires Numeric(rows, v) && Numeric(rows, w)
    ensures Kept(rows, v, w) == [] ==> r == Success(Missing)
    ensures Kept(rows, v, w) != [] ==> r.Failure? == (SumW(PairsOf(Kept(rows, v, w), v, w)) == 0.0)
    ensures r.Failure? ==> r.error == ZeroWeights
    ensures r.Success? && r.value != Missing ==>
              r.value.Num? && Kept(rows, v, w) != [] && r.value.value * SumW(PairsOf(Kept(rows, v, w), v, w)) == SumVW(PairsOf(Kept(rows, v, w), v, w))
  {
    var kept := Kept(rows, v, w);
    if kept == [] then Success(Missing)
    else match Average(PairsOf(kept, v, w))
      case Failure(e) => Failure(e)
      case Success(m) => Success(Num(m))
  }

  /**
   * The dashboard's `np.average(d[v], weights=d[w]) if not d.empty else 0`
   * on d = data.dropna(subset=[v, w]).
   */
  function DashboardAverage(rows: seq<Row>, v: string, w: string): (r: Result<real>)
    requires Numeric(rows, v) && Numeric(rows, w)
    ensures Kept(rows, v, w) == [] ==> r == Success(0.0)
    ensures Kept(rows, v, w) != [] ==> r == Average(PairsOf(Kept(rows, v, w), v, w))
  {
    var kept := Kept(rows, v, w);
    if kept == [] then Success(0.0) else Average(PairsOf(kept, v, w))
  }

  /**
   * weighted_average of lima/generate_final_report.py: only the values'
   * NaNs are dropped and the weights are read at the same rows, so a NaN
   * weight makes the mean NaN, and np.average of nothing raises.
   */
  function ReportAverage(rows: seq<Row>, v: string, w: string): (r: Result<Cell>)
    requires Numeric(rows, v) && Numeric(rows, w)
    ensures Filter(rows, (row: Row) => Get(row, v).Num?) == [] ==> r == Failure(ZeroWeights)
    ensures (exists row | row in rows :: Get(row, v).Num? && Get(row, w).Missing?) ==> r == Success(Missing)
    ensures (forall row | row in rows && Get(row, v).Num? :: Get(row, w).Num?) ==>
              r == (match Average(PairsOf(Kept(rows, v, w), v, w))
                    case Failure(e) => Failure(e)
                    case Success(m) => Success(Num(m)))
  {
    var present := Filter(rows, (row: Row) => Get(row, v).Num?);
    if present == [] then Failure(ZeroWeights)
    else if exists row | row in present :: Get(row, w).Missing? then Success(Missing)
    else
      assert present == Kept(rows, v, w) by { KeptWhenWeighted(rows, v, w); }
      match Average(PairsOf(present, v, w))
      case Failure(e) => Failure(e)
      case Success(m) => Success(Num(m))
  }

  /** When every row with a value also has a weight, dropping NaN values alone drops the same rows. */
  lemma {:induction false} KeptWhenWeighted(rows: seq<Row>, v: string, w: string)
    requires forall row | row in rows && Get(row, v).Num? :: Get(row, w).Num?
    ensures Filter(rows, (row: Row) => Get(row, v).Num?) == Kept(rows, v, w)
    decreases |rows|
  {
    if rows != [] {
      KeptWhenWeighted(rows[1..], v, w);
      assert rows[0] in rows;
      assert forall row | row in rows[1..] :: row in rows;
    }
  }

  /**
   * The report's and the EDA's weighted means agree whenever no row has a
   * value without a weight and some row has both.
   */
  lemma ReportMatchesEda(rows: seq<Row>, v: string, w: string)
    requires Numeric(rows, v) && Numeric(rows, w)
    requires forall row | row in rows && Get(row, v).Num? :: Get(row, w).Num?
    requires Kept(rows, v, w) != []
    ensures ReportAverage(rows, v, w) == EdaAverage(rows, v, w)
  {
    KeptWhenWeighted(rows, v, w);
  }

  /** A worked instance: three rows with values 10, 20, 30 and weights 1, 1, 2 average 22.5. */
  lemma EdaAverageExample(a: Row, b: Row, c: Row)
    requires Get(a, "v") == Num(10.0) && Get(b, "v") == Num(20.0) && Get(c, "v") == Num(30.0)
    requires Get(a, "w") == Num(1.0) && Get(b, "w") == Num(1.0) && Get(c, "w") == Num(2.0)
    ensures Numeric([a, b, c], "v") && Numeric([a, b, c], "w")
    ensures EdaAverage([a, b, c], "v", "w") == Success(Num(22.5))
  {
    var rows := [a, b, c];
    assert forall row | row in rows :: Get(row, "v").Num? && Get(row, "w").Num?;
    var ps := PairsOf(rows, "v", "w");
    assert ps[0] == (10.0, 1.0) && ps[1] == (20.0, 1.0) && ps[2] == (30.0, 2.0);
    ThreeSums(ps);
    assert SumW(ps) == 4.0 && SumVW(ps) == 90.0;
    AllKeptAverage(rows, "v", "w");
  }

  /** When every row has both numbers, the mean is Σvw / Σw over all rows. */
  lemma AllKeptAverage(rows: seq<Row>, v: string, w: string)
    requires forall row | row in rows :: Get(row, v).Num? && Get(row, w).Num?
    requires rows != [] && SumW(PairsOf(rows, v, w)) != 0.0
    ensures Numeric(rows, v) && Numeric(rows, w)
    ensures EdaAverage(rows, v, w) == Success(Num(SumVW(PairsOf(rows, v, w)) / SumW(PairsOf(rows, v, w))))
  {
    FilterAll(rows, (row: Row) => Get(row, v).Num? && Get(row, w).Num?);
  }

  /** The two sums over three pairs, written out. */
  lemma ThreeSums(ps: seq<Pair>)
    requires |ps| == 3
    ensures SumW(ps) == ps[0].1 + ps[1].1 + ps[2].1
    ensures SumVW(ps) == ps[0].0 * ps[0].1 + ps[1].0 * ps[1].1 + ps[2].0 * ps[2].1
  {
    var a, b := ps[..1], ps[..2];
    assert a[..0] == [] && a[0] == ps[0];
    assert b[..1] == a && b[1] == ps[1];
    assert SumW(a) == ps[0].1 && SumVW(a) == ps[0].0 * ps[0].1;
    assert SumW(b) == SumW(a) + ps[1].1 && SumVW(b) == SumVW(a) + ps[1].0 * ps[1].1;
  }

  /**
   * With non-negative weights a mean over kept rows lies within any bounds
   * on the kept values; for a 0/1 flag, the mean times 100 is a percentage.
   */
  lemma KeptAverageBounds(rows: seq<Row>, v: string, w: string, lo: real, hi: real)
    requires forall row | row in rows :: IsNumeric(Get(row, v)) && IsNumeric(Get(row, w))
    requires forall row | row in rows && Get(row, w).Num? :: Get(row, w).value >= 0.0
    requires forall row | row in rows && Get(row, v).Num? :: lo <= Get(row, v).value <= hi
    ensures Average(PairsOf(Kept(rows, v, w), v, w)).Success? ==> lo <= Average(PairsOf(Kept(rows, v, w), v, w)).value <= hi
  {
    var kept := Kept(rows, v, w);
    var ps := PairsOf(kept, v, w);
    forall i | 0 <= i < |ps| ensures ps[i].1 >= 0.0 && lo <= ps[i].0 <= hi {
      assert kept[i] in kept;
    }
    if Average(ps).Success? {
      AverageBounds(ps, lo, hi);
    }
  }

  // ------------------------------------------------------- group shares

  /** The text labels of column key, in row order (groupby drops NaN keys). */
  function Labels(rows: seq<Row>, key: string): (ls: seq<string>)
    ensures forall g :: g in ls <==> exists row | row in rows :: Get(row, key) == Text(g)
    decreases |rows|
  {
    if rows == [] then []
    else
      var init, c := rows[..|rows| - 1], Get(rows[|rows| - 1], key);
      assert forall row :: row in rows <==> row in init || row == rows[|rows| - 1] by {
        assert rows == init + [rows[|rows| - 1]];
      }
      Labels(init, key) + (if c.Text? then [c.text] else [])
  }

  /** The group keys of df.groupby(key), in sorted order. */
  function GroupKeys(rows: seq<Row>, key: string): (ks: seq<string>)
    ensures Sorted(ks) && Distinct(ks)
    ensures forall g :: g in ks <==> exists row | row in rows :: Get(row, key) == Text(g)
  {
    SortedKeys(Labels(rows, key))
  }

  /** df.groupby(key)[w].sum() for group g. */
  function GroupSum(rows: seq<Row>, key: string, g: string, w: string): real {
    SumOver(rows, (row: Row) => if Get(row, key) == Text(g) then NumOr0(Get(row, w)) else 0.0)
  }

  /** A group total as a percentage of the overall total; a zero total gives NaN, the value of 0 / 0. */
  function Share(part: real, total: real): (r: Cell)
    ensures r.Missing? <==> total == 0.0
    ensures r.Num? ==> r.value * total == part * 100.0
  {
    if total == 0.0 then Missing else Num(part / total * 100.0)
  }

  /** groupby(key)[w].sum() / df[w].sum() * 100, one entry per group key in order. */
  function GroupShares(rows: seq<Row>, key: string, w: string): (r: seq<(string, Cell)>)
    ensures |r| == |GroupKeys(rows, key)|
    ensures forall i | 0 <= i < |r| :: r[i].0 == GroupKeys(rows, key)[i] &&
              r[i].1 == Share(GroupSum(rows, key, r[i].0, w), ColumnSum(rows, w))
  {
    var ks := GroupKeys(rows, key);
    seq(|ks|, i requires 0 <= i < |ks| => (ks[i], Share(GroupSum(rows, key, ks[i], w), ColumnSum(rows, w))))
  }

  function SumShares(s: seq<(string, Cell)>): real
    decreases |s|
  {
    if s == [] then 0.0 else SumShares(s[..|s| - 1]) + NumOr0(s[|s| - 1].1)
  }

  /** The weight of the rows whose label is one of gs. */
  function InGroups(rows: seq<Row>, key: string, gs: seq<string>, w: string): real {
    SumOver(rows, (row: Row) => if Get(row, key).Text? && Get(row, key).text in gs then NumOr0(Get(row, w)) else 0.0)
  }

  /** Group sums over distinct keys add up to the weight of the rows carrying one of the keys. */
  lemma {:induction false} GroupSumsAdd(rows: seq<Row>, key: string, gs: seq<string>, w: string)
    requires Distinct(gs)
    ensures SumGroups(rows, key, gs, w) == InGroups(rows, key, gs, w)
    decreases |gs|
  {
    if gs == [] {
      SumOverZero(rows, (row: Row) => if Get(row, key).Text? && Get(row, key).text in gs then NumOr0(Get(row, w)) else 0.0);
    } else {
      var init, g := gs[..|gs| - 1], gs[|gs| - 1];
      assert Distinct(init) && g !in init;
      GroupSumsAdd(rows, key, init, w);
      assert forall x :: x in gs <==> x in init || x == g by { assert gs == init + [g]; }
      SumOverAdd(rows,
        (row: Row) => if Get(row, key).Text? && Get(row, key).text in init then NumOr0(Get(row, w)) else 0.0,
        (row: Row) => if Get(row, key) == Text(g) then NumOr0(Get(row, w)) else 0.0,
        (row: Row) => if Get(row, key).Text? && Get(row, key).text in gs then NumOr0(Get(row, w)) else 0.0);
    }
  }

  function SumGroups(rows: seq<Row>, key: string, gs: seq<string>, w: string): real
    decreases |gs|
  {
    if gs == [] then 0.0 else SumGroups(rows, key, gs[..|gs| - 1], w) + GroupSum(rows, key, gs[|gs| - 1], w)
  }

  lemma {:induction false} SumOverZero(rows: seq<Row>, f: Row -> real)
    requires forall x :: f(x) == 0.0
    ensures SumOver(rows, f) == 0.0
    decreases |rows|
  {
    if rows != [] { SumOverZero(rows[..|rows| - 1], f); }
  }

  /** Shares of the keys ks, listed in ks's order, add up to the keys' group sums over the total, times 100. */
  lemma {:induction false} SharesAdd(rows: seq<Row>, key: string, w: string, ks: seq<string>, s: seq<(string, Cell)>, t: real)
    requires t != 0.0 && |s| == |ks|
    requires forall i | 0 <= i < |s| :: s[i].1 == Share(GroupSum(rows, key, ks[i], w), t)
    ensures SumShares(s) == SumGroups(rows, key, ks, w) / t * 100.0
    decreases |s|
  {
    if s != [] {
      var n := |s|;
      SharesAdd(rows, key, w, ks[..n - 1], s[..n - 1], t);
      DivAdd(SumGroups(rows, key, ks[..n - 1], w), GroupSum(rows, key, ks[n - 1], w), t);
    }
  }

  lemma DivAdd(a: real, b: real, t: real)
    requires t != 0.0
    ensures (a + b) / t * 100.0 == a / t * 100.0 + b / t * 100.0
  {
  }

  lemma DivAtMostOne(l: real, t: real)
    requires 0.0 < t && l <= t
    ensures l / t * 100.0 <= 100.0
  {
  }

  /**
   * Rows with a NaN label count in the total only, so with non-negative
   * weights the group shares add up to 100 times the labelled rows'
   * weight over the total, and to at most 100.
   */
  lemma SharesAtMost100(rows: seq<Row>, key: string, w: string)
    requires forall row | row in rows :: NumOr0(Get(row, w)) >= 0.0
    requires ColumnSum(rows, w) > 0.0
    ensures SumShares(GroupShares(rows, key, w)) == LabelledSum(rows, key, w) / ColumnSum(rows, w) * 100.0
    ensures SumShares(GroupShares(rows, key, w)) <= 100.0
  {
    var ks, t := GroupKeys(rows, key), ColumnSum(rows, w);
    SharesAdd(rows, key, w, ks, GroupShares(rows, key, w), t);
    GroupSumsAdd(rows, key, ks, w);
    InKeysIsLabelled(rows, key, w);
    SumOverMono(rows, (row: Row) => if Get(row, key).Text? then NumOr0(Get(row, w)) else 0.0,
                (row: Row) => NumOr0(Get(row, w)));
    DivAtMostOne(LabelledSum(rows, key, w), t);
  }

  /** The weight of the rows whose label is not NaN. */
  function LabelledSum(rows: seq<Row>, key: string, w: string): real {
    SumOver(rows, (row: Row) => if Get(row, key).Text? then NumOr0(Get(row, w)) else 0.0)
  }

  /** Every label is a group key, so the rows under some key are exactly the labelled rows. */
  lemma InKeysIsLabelled(rows: seq<Row>, key: string, w: string)
    ensures InGroups(rows, key, GroupKeys(rows, key), w) == LabelledSum(rows, key, w)
  {
    var ks := GroupKeys(rows, key);
    var inKeys := (row: Row) => if Get(row, key).Text? && Get(row, key).text in ks then NumOr0(Get(row, w)) else 0.0;
    var labelled := (row: Row) => if Get(row, key).Text? then NumOr0(Get(row, w)) else 0.0;
    forall x | x in rows ensures inKeys(x) == labelled(x) {
      if Get(x, key).Text? { assert Get(x, key) == Text(Get(x, key).text); }
    }
    SumOverExt(rows, inKeys, labelled);
  }

  lemma {:induction false} SumOverExt(rows: seq<Row>, f: Row -> real, g: Row -> real)
    requires forall x | x in rows :: f(x) == g(x)
    ensures SumOver(rows, f) == SumOver(rows, g)
    decreases |rows|
  {
    if rows != [] {
      SumOverExt(rows[..|rows| - 1], f, g);
      assert rows[|rows| - 1] in rows;
    }
  }
}
