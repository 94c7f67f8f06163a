/**
 * The frame steps the Lima analysis scripts share once the cleaned files
 * are loaded: to_numeric over a list of columns, the es_informal flag on
 * the numeric codes, the employed subset, dropna over a subset of
 * columns, the rows of one period, and a groupby-apply whose first
 * exception ends the script.
 */
module LimaAnalysis {
  import opened Common
  import opened Strings
  import opened Frame
  import opened Features

  /**
   * `for col in cols: df[col] = pd.to_numeric(df[col], errors='coerce')`:
   * the first absent column raises a KeyError; otherwise exactly the
   * listed columns are coerced.
   */
  function Coerced(t: Table, cols: seq<string>): (r: Result<Table>)
    ensures r.Failure? <==> exists c | c in cols :: c !in t.columns
    ensures r.Failure? ==> r.error.MissingColumn? && r.error.column in cols && r.error.column !in t.columns
    ensures r.Success? ==> r.value.columns == t.columns && |r.value.rows| == |t.rows|
    ensures r.Success? ==> forall k, c | 0 <= k < |t.rows| ::
              Get(r.value.rows[k], c) == if c in cols then ToNumeric(Get(t.rows[k], c)) else Get(t.rows[k], c)
    decreases |cols|
  {
    if cols == [] then Success(t)
    else
      var init, last := cols[..|cols| - 1], cols[|cols| - 1];
      assert forall c :: c in cols <==> c in init || c == last by { assert cols == init + [last]; }
      match Coerced(t, init)
      case Failure(e) => Failure(e)
      case Success(u) =>
        if last !in u.columns then Failure(MissingColumn(last))
        else
          var r := MapColumn(u, last, ToNumeric);
          assert forall k, c | 0 <= k < |t.rows| ::
                   Get(r.rows[k], c) == if c in cols then ToNumeric(Get(t.rows[k], c)) else Get(t.rows[k], c) by {
            forall k, c | 0 <= k < |t.rows|
              ensures Get(r.rows[k], c) == if c in cols then ToNumeric(Get(t.rows[k], c)) else Get(t.rows[k], c)
            {
              CoercedCell(t, init, u, last, k, c);
            }
          }
          Success(r)
  }

  /** One more coerced column: the cell is coerced when its column is listed, and coercing twice is coercing once. */
  lemma CoercedCell(t: Table, init: seq<string>, u: Table, last: string, k: nat, c: string)
    requires u.columns == t.columns && |u.rows| == |t.rows| && k < |t.rows| && last in u.columns
    requires Get(u.rows[k], c) == if c in init then ToNumeric(Get(t.rows[k], c)) else Get(t.rows[k], c)
    ensures Get(MapColumn(u, last, ToNumeric).rows[k], c) ==
            if c in init || c == last then ToNumeric(Get(t.rows[k], c)) else Get(t.rows[k], c)
  {
    var r := MapColumn(u, last, ToNumeric);
    assert r.rows[k] == u.rows[k][last := ToNumeric(Get(u.rows[k], last))];
  }

  /** After the coercion every listed column is numeric. */
  lemma CoercedNumeric(t: Table, cols: seq<string>, c: string)
    requires Coerced(t, cols).Success? && c in cols
    ensures forall row | row in Coerced(t, cols).value.rows :: IsNumeric(Get(row, c))
  {
    var r := Coerced(t, cols).value;
    forall row | row in r.rows ensures IsNumeric(Get(row, c)) {
      var k :| 0 <= k < |r.rows| && r.rows[k] == row;
    }
  }

  /** A column the coercion does not list keeps its cells. */
  lemma CoercedKeeps(t: Table, cols: seq<string>, k: nat, c: string)
    requires Coerced(t, cols).Success? && k < |t.rows| && c !in cols
    ensures Get(Coerced(t, cols).value.rows[k], c) == Get(t.rows[k], c)
  {
  }

  /** The coercion loop, one column at a time. */
  method CoerceColumns(t: Table, cols: seq<string>) returns (r: Result<Table>)
    ensures r == Coerced(t, cols)
  {
    var df := t;
    var i := 0;
    while i < |cols|
      invariant 0 <= i <= |cols|
      invariant Coerced(t, cols[..i]) == Success(df)
    {
      assert cols[..i + 1][..i] == cols[..i];
      if cols[i] !in df.columns {
        assert Coerced(t, cols[..i + 1]) == Failure(MissingColumn(cols[i]));
        CoercedPrefixFails(t, cols, i + 1);
        return Failure(MissingColumn(cols[i]));
      }
      df := MapColumn(df, cols[i], ToNumeric);
      i := i + 1;
    }
    assert cols[..i] == cols;
    r := Success(df);
  }

  /** A KeyError in a prefix of the list is the KeyError of the whole list. */
  lemma {:induction false} CoercedPrefixFails(t: Table, cols: seq<string>, n: nat)
    requires n <= |cols| && Coerced(t, cols[..n]).Failure?
    ensures Coerced(t, cols) == Coerced(t, cols[..n])
    decreases |cols| - n
  {
    if n < |cols| {
      assert cols[..n + 1][..n] == cols[..n];
      CoercedPrefixFails(t, cols, n + 1);
    } else {
      assert cols[..n] == cols;
    }
  }

  /** `df['OCUP300'] == 1`: the employed rows, on the numeric codes. */
  predicate Employed(row: Row) {
    NumEq(Get(row, "OCUP300"), 1.0)
  }

  /** `df[df['OCUP300'] == 1]`. */
  function EmployedRows(t: Table): (r: Table)
    ensures r.columns == t.columns && r.rows == Filter(t.rows, Employed)
    ensures forall row :: row in r.rows <==> row in t.rows && NumEq(Get(row, "OCUP300"), 1.0)
  {
    FilterRows(t, Employed)
  }

  /** The flag column `(OCUP300 == 1) & (C361_1 == 2)` as 1 and 0. */
  function InformalFlags(t: Table): (vals: seq<Cell>)
    ensures |vals| == |t.rows| && forall k | 0 <= k < |t.rows| :: vals[k] == Flag(InformalByCode(t.rows[k]))
  {
    seq(|t.rows|, k requires 0 <= k < |t.rows| => Flag(InformalByCode(t.rows[k])))
  }

  /**
   * `df['es_informal'] = np.where((df['OCUP300'] == 1) & (df['C361_1'] == 2), 1, 0)`:
   * a KeyError without either column; otherwise a column that is never
   * missing, 1 exactly on the employed rows without ESSALUD coverage.
   */
  function Informal(t: Table): (r: Result<Table>)
    ensures "OCUP300" !in t.columns ==> r == Failure(MissingColumn("OCUP300"))
    ensures "OCUP300" in t.columns && "C361_1" !in t.columns ==> r == Failure(MissingColumn("C361_1"))
    ensures r.Success? <==> "OCUP300" in t.columns && "C361_1" in t.columns
    ensures r.Success? ==> r.value.columns == WithLabel(t.columns, "es_informal") && |r.value.rows| == |t.rows|
    ensures r.Success? ==> forall k | 0 <= k < |t.rows| ::
              Get(r.value.rows[k], "es_informal") == Flag(NumEq(Get(t.rows[k], "OCUP300"), 1.0) && NumEq(Get(t.rows[k], "C361_1"), 2.0)) &&
              forall c | c != "es_informal" :: Get(r.value.rows[k], c) == Get(t.rows[k], c)
  {
    if "OCUP300" !in t.columns then Failure(MissingColumn("OCUP300"))
    else if "C361_1" !in t.columns then Failure(MissingColumn("C361_1"))
    else Success(WithColumn(t, "es_informal", InformalFlags(t)))
  }

  /**
   * The feature-selection spelling: `df['es_informal'] = 0`, then
   * `df.loc[condition, 'es_informal'] = 1`, row by row.
   */
  method SetInformal(t: Table) returns (r: Result<Table>)
    ensures r == Informal(t)
  {
    if "OCUP300" !in t.columns {
      return Failure(MissingColumn("OCUP300"));
    }
    if "C361_1" !in t.columns {
      return Failure(MissingColumn("C361_1"));
    }
    var vals := Fill(|t.rows|, Num(0.0));
    var k := 0;
    while k < |t.rows|
      invariant 0 <= k <= |t.rows| && |vals| == |t.rows|
      invariant forall j | 0 <= j < k :: vals[j] == Flag(InformalByCode(t.rows[j]))
      invariant forall j | k <= j < |t.rows| :: vals[j] == Num(0.0)
    {
      if NumEq(Get(t.rows[k], "OCUP300"), 1.0) && NumEq(Get(t.rows[k], "C361_1"), 2.0) {
        vals := vals[k := Num(1.0)];
      }
      k := k + 1;
    }
    assert vals == InformalFlags(t);
    r := Success(WithColumn(t, "es_informal", vals));
  }

  /**
   * `df[dst] = df[src].map(m)`: a KeyError without src; otherwise a new
   * column dst holding src's labels (unmapped codes become NaN), src and
   * every other column kept.
   */
  function Labelled(t: Table, src: string, dst: string, m: map<int, string>): (r: Result<Table>)
    ensures r.Failure? <==> src !in t.columns
    ensures r.Failure? ==> r.error == MissingColumn(src)
    ensures r.Success? ==> r.value.columns == WithLabel(t.columns, dst) && |r.value.rows| == |t.rows|
    ensures r.Success? ==> forall k | 0 <= k < |t.rows| ::
              Get(r.value.rows[k], dst) == Recode(Get(t.rows[k], src), m) &&
              forall c | c != dst :: Get(r.value.rows[k], c) == Get(t.rows[k], c)
  {
    if src !in t.columns then Failure(MissingColumn(src))
    else Success(WithColumn(t, dst, seq(|t.rows|, k requires 0 <= k < |t.rows| => Recode(Get(t.rows[k], src), m))))
  }

  /** No listed cell of the row is NaN. */
  predicate Complete(row: Row, cols: seq<string>) {
    forall c | c in cols :: !Get(row, c).Missing?
  }

  /**
   * `df.dropna(subset=cols)`: a KeyError names an absent label; otherwise
   * the rows with no NaN among cols, in order, every column kept.
   */
  function DropNa(t: Table, cols: seq<string>): (r: Result<Table>)
    ensures r.Failure? <==> exists c | c in cols :: c !in t.columns
    ensures r.Failure? ==> r.error.MissingColumn? && r.error.column in cols
    ensures r.Success? ==> r.value.columns == t.columns && r.value.rows == CompleteRows(t.rows, cols)
  {
    match FirstAbsent(cols, t.columns)
    case Some(c) => Failure(MissingColumn(c))
    case None => Success(Table(t.columns, CompleteRows(t.rows, cols)))
  }

  /** The rows with no NaN among cols, in order. */
  function CompleteRows(rows: seq<Row>, cols: seq<string>): (r: seq<Row>)
    ensures forall row :: row in r <==> row in rows && Complete(row, cols)
  {
    Filter(rows, (row: Row) => Complete(row, cols))
  }

  /** On the rows left by dropna, a listed numeric column holds numbers only. */
  lemma CompleteNumbers(rows: seq<Row>, cols: seq<string>, v: string)
    requires v in cols && forall row | row in rows :: IsNumeric(Get(row, v))
    ensures forall row | row in CompleteRows(rows, cols) :: Get(row, v).Num?
  {
  }

  /** The rows whose cell under key is g, in order: one group of a groupby. */
  function GroupRows(rows: seq<Row>, key: string, g: Cell): (r: seq<Row>)
    ensures forall row :: row in r <==> row in rows && Get(row, key) == g
  {
    Filter(rows, (row: Row) => Get(row, key) == g)
  }

  /**
   * A groupby-apply over its groups in order: the first group whose
   * computation raises ends the script with that error; otherwise one
   * entry per group.
   */
  function Collect<T>(rs: seq<(string, Result<T>)>): (r: Result<seq<(string, T)>>)
    ensures r.Failure? <==> exists i | 0 <= i < |rs| :: rs[i].1.Failure?
    ensures r.Failure? ==> exists i | 0 <= i < |rs| :: rs[i].1 == Failure(r.error) && forall j | 0 <= j < i :: rs[j].1.Success?
    ensures r.Success? ==> |r.value| == |rs| && forall i | 0 <= i < |rs| :: r.value[i].0 == rs[i].0 && rs[i].1 == Success(r.value[i].1)
    decreases |rs|
  {
    if rs == [] then Success([])
    else
      var init, last := rs[..|rs| - 1], rs[|rs| - 1];
      assert forall i | 0 <= i < |init| :: init[i] == rs[i];
      match Collect(init)
      case Failure(e) => Failure(e)
      case Success(done) =>
        match last.1
        case Failure(e) => Failure(e)
        case Success(v) => Success(done + [(last.0, v)])
  }

  // ------------------------------------------------ hypothesis-test inputs

  /** df[key] as a list of cells, one per row. */
  function KeyCells(rows: seq<Row>, key: string): (cells: seq<Cell>)
    ensures |cells| == |rows| && forall k | 0 <= k < |rows| :: cells[k] == Get(rows[k], key)
    ensures forall x :: x in cells <==> exists row | row in rows :: Get(row, key) == x
  {
    var cells := seq(|rows|, k requires 0 <= k < |rows| => Get(rows[k], key));
    assert forall x :: x in cells <==> exists row | row in rows :: Get(row, key) == x by {
      forall x | x in cells ensures exists row | row in rows :: Get(row, key) == x {
        var k :| 0 <= k < |cells| && cells[k] == x;
        assert rows[k] in rows;
      }
      forall x | (exists row | row in rows :: Get(row, key) == x) ensures x in cells {
        var row :| row in rows && Get(row, key) == x;
        var k :| 0 <= k < |rows| && rows[k] == row;
        assert cells[k] == x;
      }
    }
    cells
  }

  /** `df[key].unique()`: the key cells in order of first appearance. */
  function Uniques(rows: seq<Row>, key: string): (r: seq<Cell>)
    ensures Distinct(r)
    ensures forall x :: x in r <==> exists row | row in rows :: Get(row, key) == x
    ensures forall x | x in r :: x in KeyCells(rows, key)
    ensures forall i, j | 0 <= i < j < |r| :: FirstIndex(KeyCells(rows, key), r[i]) < FirstIndex(KeyCells(rows, key), r[j])
  {
    DedupInOrder(KeyCells(rows, key));
    Dedup(KeyCells(rows, key))
  }

  /** The numbers of column v, one per row, in order. */
  function Values(rows: seq<Row>, v: string): (r: seq<real>)
    requires forall row | row in rows :: Get(row, v).Num?
    ensures |r| == |rows| && forall k | 0 <= k < |rows| :: Num(r[k]) == Get(rows[k], v)
  {
    seq(|rows|, k requires 0 <= k < |rows| => Get(rows[k], v).value)
  }

  /**
   * `[df[v][df[key] == g] for g in df[key].unique()]` on rows whose v is
   * a number: one group per distinct key, in order of first appearance,
   * group i holding the values of the rows keyed by the i-th key; no
   * group is empty.
   */
  function AnovaGroups(rows: seq<Row>, v: string, key: string): (gs: seq<seq<real>>)
    requires forall row | row in rows :: Get(row, v).Num?
    ensures |gs| == |Uniques(rows, key)|
    ensures forall i | 0 <= i < |gs| :: gs[i] != [] && gs[i] == Values(GroupRows(rows, key, Uniques(rows, key)[i]), v)
  {
    var ks := Uniques(rows, key);
    var gs := seq(|ks|, i requires 0 <= i < |ks| => Values(GroupRows(rows, key, ks[i]), v));
    forall i | 0 <= i < |gs| ensures gs[i] != [] {
      assert ks[i] in ks;
      var row :| row in rows && Get(row, key) == ks[i];
      assert row in GroupRows(rows, key, ks[i]);
    }
    gs
  }

  /** How many of the rows fall in the groups gs. */
  function GroupedCount(rows: seq<Row>, key: string, gs: seq<Cell>): nat
    decreases |gs|
  {
    if gs == [] then 0 else GroupedCount(rows, key, gs[..|gs| - 1]) + |GroupRows(rows, key, gs[|gs| - 1])|
  }

  /** Whether a row's key is g, as 1 or 0. */
  function Hits(x: Cell, gs: seq<Cell>): nat
    decreases |gs|
  {
    if gs == [] then 0 else Hits(x, gs[..|gs| - 1]) + (if x == gs[|gs| - 1] then 1 else 0)
  }

  /** A cell matches exactly one of a list of distinct cells it belongs to. */
  lemma {:induction false} HitsOnce(x: Cell, gs: seq<Cell>)
    requires Distinct(gs)
    ensures Hits(x, gs) == if x in gs then 1 else 0
    decreases |gs|
  {
    if gs != [] {
      var init := gs[..|gs| - 1];
      assert forall y :: y in gs <==> y in init || y == gs[|gs| - 1] by { assert gs == init + [gs[|gs| - 1]]; }
      assert gs[|gs| - 1] !in init;
      HitsOnce(x, init);
    }
  }

  /** Adding a row adds its hits to the group count. */
  lemma {:induction false} GroupedCountStep(rows: seq<Row>, key: string, gs: seq<Cell>, row: Row)
    ensures GroupedCount(rows + [row], key, gs) == GroupedCount(rows, key, gs) + Hits(Get(row, key), gs)
    decreases |gs|
  {
    if gs != [] {
      var init, g := gs[..|gs| - 1], gs[|gs| - 1];
      GroupedCountStep(rows, key, init, row);
      FilterAppend(rows, [row], (r: Row) => Get(r, key) == g);
    }
  }

  /** The groups of a key list that covers every row's key, disjointly, count every row once. */
  lemma {:induction false} GroupedCountAll(rows: seq<Row>, key: string, gs: seq<Cell>)
    requires Distinct(gs) && forall row | row in rows :: Get(row, key) in gs
    ensures GroupedCount(rows, key, gs) == |rows|
    decreases |rows|
  {
    if rows == [] {
      GroupedCountEmpty(key, gs);
    } else {
      var init, last := rows[..|rows| - 1], rows[|rows| - 1];
      assert rows == init + [last];
      assert forall row | row in init :: row in rows;
      GroupedCountAll(init, key, gs);
      GroupedCountStep(init, key, gs, last);
      HitsOnce(Get(last, key), gs);
    }
  }

  lemma {:induction false} GroupedCountEmpty(key: string, gs: seq<Cell>)
    ensures GroupedCount([], key, gs) == 0
    decreases |gs|
  {
    if gs != [] { GroupedCountEmpty(key, gs[..|gs| - 1]); }
  }

  /** Every row lands in exactly one ANOVA group: the group sizes add up to the row count. */
  lemma AnovaGroupsPartition(rows: seq<Row>, v: string, key: string)
    requires forall row | row in rows :: Get(row, v).Num?
    ensures GroupedCount(rows, key, Uniques(rows, key)) == |rows|
  {
    GroupedCountAll(rows, key, Uniques(rows, key));
  }

  /** The rows whose two cells are both present (crosstab drops NaN pairs). */
  function Paired(rows: seq<Row>, a: string, b: string): (r: seq<Row>)
    ensures forall row :: row in r <==> row in rows && !Get(row, a).Missing? && !Get(row, b).Missing?
  {
    Filter(rows, (row: Row) => !Get(row, a).Missing? && !Get(row, b).Missing?)
  }

  /**
   * `pd.crosstab(df[a], df[b])`: one cell for every pair of an a value and
   * a b value seen on complete rows (zero counts included), holding the
   * number of complete rows carrying that pair; empty exactly when no row
   * has both cells.
   */
  function Crosstab(rows: seq<Row>, a: string, b: string): (r: map<(Cell, Cell), nat>)
    ensures forall x, y :: (x, y) in r <==>
              (exists row | row in Paired(rows, a, b) :: Get(row, a) == x) && (exists row | row in Paired(rows, a, b) :: Get(row, b) == y)
  {
    var full := Paired(rows, a, b);
    var xs, ys := Seen(full, a), Seen(full, b);
    map x, y | x in xs && y in ys :: (x, y) := PairCount(full, a, b, x, y)
  }

  /** The crosstab is empty exactly when no row has both cells. */
  lemma CrosstabEmpty(rows: seq<Row>, a: string, b: string)
    ensures |Crosstab(rows, a, b)| == 0 <==> Paired(rows, a, b) == []
  {
    var r, full := Crosstab(rows, a, b), Paired(rows, a, b);
    if full != [] {
      assert full[0] in full;
      assert (Get(full[0], a), Get(full[0], b)) in r;
    } else {
      assert Seen(full, a) == {};
      assert r == map[];
    }
  }

  /** Each cell of the crosstab counts the complete rows carrying its pair. */
  lemma CrosstabCount(rows: seq<Row>, a: string, b: string, x: Cell, y: Cell)
    requires (x, y) in Crosstab(rows, a, b)
    ensures Crosstab(rows, a, b)[(x, y)] == PairCount(Paired(rows, a, b), a, b, x, y)
  {
  }

  /** A crosstab never has a NaN row or column label: rows missing either cell are not counted. */
  lemma CrosstabPresent(rows: seq<Row>, a: string, b: string)
    ensures forall x, y | (x, y) in Crosstab(rows, a, b) :: !x.Missing? && !y.Missing?
  {
    forall x, y | (x, y) in Crosstab(rows, a, b) ensures !x.Missing? && !y.Missing? {
      var r1 :| r1 in Paired(rows, a, b) && Get(r1, a) == x;
      var r2 :| r2 in Paired(rows, a, b) && Get(r2, b) == y;
    }
  }

  /** The cells of column c seen on the rows. */
  function Seen(rows: seq<Row>, c: string): (s: set<Cell>)
    ensures forall x :: x in s <==> exists row | row in rows :: Get(row, c) == x
  {
    set row | row in rows :: Get(row, c)
  }

  /** The number of rows whose a cell is x and whose b cell is y. */
  function PairCount(rows: seq<Row>, a: string, b: string, x: Cell, y: Cell): (n: nat)
    ensures n <= |rows|
    ensures n > 0 <==> exists row | row in rows :: Get(row, a) == x && Get(row, b) == y
  {
    var hits := Filter(rows, (row: Row) => Get(row, a) == x && Get(row, b) == y);
    assert hits != [] ==> hits[0] in hits;
    |hits|
  }

  // ------------------------------------------------------- test decisions

  /** The significance level every script compares p-values with. */
  const Alpha: real := 0.05

  /** What a report says about one test: not computable, or the statistic, p, and whether p < 0.05. */
  datatype Outcome = NotComputable | Tested(statistic: real, p: real, significant: bool)

  /** `if len(groups) > 1: f_val, p_val = f_oneway(*groups)` and the p < 0.05 verdict. */
  function AnovaOutcome(groups: seq<seq<real>>, anova: seq<seq<real>> -> (real, real)): (r: Outcome)
    ensures r.NotComputable? <==> |groups| <= 1
    ensures r.Tested? ==> (r.statistic, r.p) == anova(groups) && (r.significant <==> r.p < Alpha)
  {
    if |groups| > 1 then Tested(anova(groups).0, anova(groups).1, anova(groups).1 < Alpha) else NotComputable
  }

  /** `if not contingency_table.empty: chi2, p_val, _, _ = chi2_contingency(table)` and the verdict. */
  function ChiSquareOutcome(table: map<(Cell, Cell), nat>, chi2: map<(Cell, Cell), nat> -> (real, real)): (r: Outcome)
    ensures r.NotComputable? <==> |table| == 0
    ensures r.Tested? ==> (r.statistic, r.p) == chi2(table) && (r.significant <==> r.p < Alpha)
  {
    if |table| != 0 then Tested(chi2(table).0, chi2(table).1, chi2(table).1 < Alpha) else NotComputable
  }
}
