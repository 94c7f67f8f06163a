/**
 * A pandas DataFrame as a value: an ordered list of column labels and a
 * list of rows, each row a map from label to cell. The functions below
 * are the DataFrame operations the pipeline scripts call (column
 * assignment, drop, projection, boolean-mask filtering, concat,
 * replace, to_numeric, Series.map).
 */
module Frame {
  import opened Common
  import opened Strings

  /** A cell: NaN, the "No Aplica" placeholder, a number, or text. */
  datatype Cell = Missing | NotApplicable | Num(value: real) | Text(text: string)

  type Row = map<string, Cell>

  datatype Table = Table(columns: seq<string>, rows: seq<Row>)

  /** Row r carries exactly the labels cols. */
  ghost predicate Fits(cols: seq<string>, r: Row) {
    forall c :: c in r <==> c in cols
  }

  /** A rectangular frame with distinct column labels. */
  ghost predicate Valid(t: Table) {
    Distinct(t.columns) && forall r | r in t.rows :: Fits(t.columns, r)
  }

  /** df.loc[k, c], with an absent label read as NaN. */
  function Get(r: Row, c: string): Cell {
    if c in r then r[c] else Missing
  }

  function Column(t: Table, c: string): (col: seq<Cell>)
    ensures |col| == |t.rows|
    ensures forall k | 0 <= k < |col| :: col[k] == Get(t.rows[k], c)
  {
    seq(|t.rows|, k requires 0 <= k < |t.rows| => Get(t.rows[k], c))
  }

  function Fill(n: nat, c: Cell): (col: seq<Cell>)
    ensures |col| == n && forall k | 0 <= k < n :: col[k] == c
  {
    seq(n, k => c)
  }

  // ------------------------------------------------------------ columns

  /** The labels of cols not in ds, in their original order. */
  function Without(cols: seq<string>, ds: set<string>): (r: seq<string>)
    ensures forall c :: c in r <==> c in cols && c !in ds
    ensures Distinct(cols) ==> Distinct(r)
    ensures |r| <= |cols|
    decreases |cols|
  {
    if cols == [] then []
    else
      var init := cols[..|cols| - 1];
      var last := cols[|cols| - 1];
      assert cols == init + [last];
      var w := Without(init, ds);
      assert Distinct(cols) ==> Distinct(init) && last !in init;
      if last in ds then w else w + [last]
  }

  /** A column label appended at the end unless cols has it already. */
  function WithLabel(cols: seq<string>, c: string): (r: seq<string>)
    ensures forall x :: x in r <==> x in cols || x == c
  {
    if c in cols then cols else cols + [c]
  }

  /** The first position of label c: list.index(c), a ValueError when absent. */
  function Position(cols: seq<string>, c: string): (r: Option<nat>)
    ensures r.None? <==> c !in cols
    ensures r.Some? ==> r.value < |cols| && cols[r.value] == c && c !in cols[..r.value]
  {
    if cols == [] then None
    else if cols[0] == c then Some(0)
    else match Position(cols[1..], c)
      case None => None
      case Some(i) =>
        assert cols[1..][..i] == cols[1..i + 1];
        Some(i + 1)
  }

  /** df[c] = vals: overwrite column c in place, or append it at the end. */
  function WithColumn(t: Table, c: string, vals: seq<Cell>): (r: Table)
    requires |vals| == |t.rows|
    ensures r.columns == WithLabel(t.columns, c)
    ensures |r.rows| == |t.rows|
    ensures forall k | 0 <= k < |r.rows| :: r.rows[k] == t.rows[k][c := vals[k]]
    ensures Valid(t) ==> Valid(r)
  {
    var r := Table(WithLabel(t.columns, c),
                   seq(|t.rows|, k requires 0 <= k < |t.rows| => t.rows[k][c := vals[k]]));
    assert Valid(t) ==> Valid(r) by {
      if Valid(t) {
        forall x | x in r.rows ensures Fits(r.columns, x) {
          var k :| 0 <= k < |r.rows| && r.rows[k] == x;
          assert t.rows[k] in t.rows;
        }
      }
    }
    r
  }

  /** df[c] = f(df[c]) when c is a column; otherwise the frame is unchanged. */
  function MapColumn(t: Table, c: string, f: Cell -> Cell): (r: Table)
    ensures r.columns == t.columns && |r.rows| == |t.rows|
    ensures c in t.columns ==> forall k | 0 <= k < |t.rows| :: r.rows[k] == t.rows[k][c := f(Get(t.rows[k], c))]
    ensures c !in t.columns ==> r == t
    ensures Valid(t) ==> Valid(r)
  {
    if c in t.columns then WithColumn(t, c, seq(|t.rows|, k requires 0 <= k < |t.rows| => f(Get(t.rows[k], c))))
    else t
  }

  /** df.drop(columns=ds). */
  function DropColumns(t: Table, ds: set<string>): (r: Table)
    ensures r.columns == Without(t.columns, ds)
    ensures |r.rows| == |t.rows|
    ensures forall k | 0 <= k < |r.rows| :: r.rows[k] == t.rows[k] - ds
    ensures forall k, c | 0 <= k < |r.rows| :: Get(r.rows[k], c) == if c in ds then Missing else Get(t.rows[k], c)
    ensures Valid(t) ==> Valid(r)
  {
    var r := Table(Without(t.columns, ds), seq(|t.rows|, k requires 0 <= k < |t.rows| => t.rows[k] - ds));
    assert Valid(t) ==> Valid(r) by {
      if Valid(t) {
        forall x | x in r.rows ensures Fits(r.columns, x) {
          var k :| 0 <= k < |r.rows| && r.rows[k] == x;
          assert t.rows[k] in t.rows;
        }
      }
    }
    r
  }

  function FirstAbsent(want: seq<string>, have: seq<string>): (r: Option<string>)
    ensures r.None? <==> forall c | c in want :: c in have
    ensures r.Some? ==> r.value in want && r.value !in have
  {
    if want == [] then None
    else if want[0] !in have then Some(want[0])
    else FirstAbsent(want[1..], have)
  }

  /** df[cols]: a KeyError names a label that is not a column. */
  function Project(t: Table, cols: seq<string>): (r: Result<Table>)
    ensures r.Failure? <==> exists c | c in cols :: c !in t.columns
    ensures r.Failure? ==> r.error.MissingColumn? && r.error.column in cols && r.error.column !in t.columns
    ensures r.Success? ==> r.value.columns == cols && |r.value.rows| == |t.rows|
    ensures r.Success? ==> forall k, c | 0 <= k < |t.rows| ::
              Get(r.value.rows[k], c) == if c in cols then Get(t.rows[k], c) else Missing
    ensures r.Success? && Distinct(cols) ==> Valid(r.value)
  {
    match FirstAbsent(cols, t.columns)
    case Some(c) => Failure(MissingColumn(c))
    case None =>
      var p := Table(cols, seq(|t.rows|, k requires 0 <= k < |t.rows| => map c | c in cols :: Get(t.rows[k], c)));
      assert forall k, c | 0 <= k < |t.rows| ::
        Get(p.rows[k], c) == if c in cols then Get(t.rows[k], c) else Missing;
      Success(p)
  }

  /** Relabelling from as to keeps every other label present or absent as it was. */
  lemma {:induction false} RenamedLabels(a: seq<string>, b: seq<string>, from: string, to: string, c: string)
    requires |a| == |b| && forall i | 0 <= i < |a| :: b[i] == if a[i] == from then to else a[i]
    requires c != from && c != to
    ensures c in b <==> c in a
  {
    if c in a {
      var i :| 0 <= i < |a| && a[i] == c;
      assert b[i] == c;
    }
    if c in b {
      var i :| 0 <= i < |b| && b[i] == c;
      assert a[i] == c;
    }
  }

  /** df.rename(columns={from: to}): the label keeps its position. */
  function RenameColumn(t: Table, from: string, to: string): (r: Table)
    ensures from !in t.columns ==> r == t
    ensures from in t.columns ==> |r.columns| == |t.columns| && forall i | 0 <= i < |t.columns| ::
              r.columns[i] == if t.columns[i] == from then to else t.columns[i]
    ensures |r.rows| == |t.rows|
    ensures from in t.columns ==> forall k | 0 <= k < |t.rows| ::
              Get(r.rows[k], to) == Get(t.rows[k], from) &&
              forall c | c != from && c != to :: Get(r.rows[k], c) == Get(t.rows[k], c)
    ensures Valid(t) && to !in t.columns ==> Valid(r)
  {
    if from !in t.columns then t
    else
      var cols := seq(|t.columns|, i requires 0 <= i < |t.columns| => if t.columns[i] == from then to else t.columns[i]);
      var r := Table(cols, seq(|t.rows|, k requires 0 <= k < |t.rows| => (t.rows[k] - {from})[to := Get(t.rows[k], from)]));
      assert Valid(t) && to !in t.columns ==> Valid(r) by {
        if Valid(t) && to !in t.columns {
          var i0 :| 0 <= i0 < |t.columns| && t.columns[i0] == from;
          assert cols[i0] == to;
          forall x | x in r.rows ensures Fits(r.columns, x) {
            var k :| 0 <= k < |r.rows| && r.rows[k] == x;
            assert t.rows[k] in t.rows;
            forall c ensures c in x <==> c in cols {
              if c != to {
                if c in t.columns && c != from {
                  var i :| 0 <= i < |t.columns| && t.columns[i] == c;
                  assert cols[i] == c;
                }
                if c in cols {
                  var i :| 0 <= i < |cols| && cols[i] == c;
                  assert t.columns[i] in t.columns && t.columns[i] != from;
                }
              }
            }
          }
        }
      }
      r
  }

  /** One rename, seen from row k: from's value moves to to, a label c other than from and to is present exactly as before, and every other cell is kept. */
  lemma RenameStep(t: Table, from: string, to: string, k: nat, c: string)
    requires k < |t.rows|
    ensures var r := RenameColumn(t, from, to);
            (c in t.columns && c != from ==> c in r.columns) &&
            (c != from && c != to ==> (c in r.columns <==> c in t.columns)) &&
            (from in t.columns ==> to in r.columns && Get(r.rows[k], to) == Get(t.rows[k], from)) &&
            (c != from && c != to ==> Get(r.rows[k], c) == Get(t.rows[k], c))
  {
    var r := RenameColumn(t, from, to);
    if from in t.columns {
      var i :| 0 <= i < |t.columns| && t.columns[i] == from;
      assert r.columns[i] == to;
      if c in t.columns && c != from {
        var j :| 0 <= j < |t.columns| && t.columns[j] == c;
        assert r.columns[j] == c;
      }
      if c != from && c != to {
        RenamedLabels(t.columns, r.columns, from, to, c);
      }
    }
  }

  /** No old label of a rename table is a new one, and no two entries share an old or a new label. */
  predicate Separate(pairs: seq<(string, string)>) {
    forall i, j | 0 <= i < |pairs| && 0 <= j < |pairs| ::
      pairs[i].1 != pairs[j].0 && (i != j ==> pairs[i].0 != pairs[j].0 && pairs[i].1 != pairs[j].1)
  }

  /**
   * df.rename(columns=dict(pairs)), one entry after the other; a label the
   * frame lacks is skipped. For a separate table this is the simultaneous
   * rename, since no entry renames a label another entry produced.
   */
  function RenameAll(t: Table, pairs: seq<(string, string)>): (r: Table)
    ensures |r.rows| == |t.rows|
    decreases |pairs|
  {
    if pairs == [] then t
    else
      var n := |pairs| - 1;
      RenameColumn(RenameAll(t, pairs[..n]), pairs[n].0, pairs[n].1)
  }

  /** A label that appears nowhere in the table is present as before and keeps its cell. */
  lemma {:induction false} RenameAllOther(t: Table, pairs: seq<(string, string)>, k: nat, c: string)
    requires k < |t.rows|
    requires forall i | 0 <= i < |pairs| :: c != pairs[i].0 && c != pairs[i].1
    ensures var r := RenameAll(t, pairs);
            (c in r.columns <==> c in t.columns) && Get(r.rows[k], c) == Get(t.rows[k], c)
    decreases |pairs|
  {
    if pairs != [] {
      var n := |pairs| - 1;
      RenameAllOther(t, pairs[..n], k, c);
      RenameStep(RenameAll(t, pairs[..n]), pairs[n].0, pairs[n].1, k, c);
    }
  }

  /** Entry i of a separate table: its new label holds the old label's cell when the frame had it, and its own cell otherwise. */
  lemma {:induction false} RenameAllTarget(t: Table, pairs: seq<(string, string)>, k: nat, i: nat)
    requires Separate(pairs) && k < |t.rows| && i < |pairs|
    ensures var r := RenameAll(t, pairs);
            (pairs[i].0 in t.columns ==> pairs[i].1 in r.columns) &&
            Get(r.rows[k], pairs[i].1) == if pairs[i].0 in t.columns then Get(t.rows[k], pairs[i].0) else Get(t.rows[k], pairs[i].1)
    decreases |pairs|
  {
    var n := |pairs| - 1;
    var init := pairs[..n];
    var prev := RenameAll(t, init);
    assert Separate(init) by {
      forall a, b | 0 <= a < |init| && 0 <= b < |init|
        ensures init[a].1 != init[b].0 && (a != b ==> init[a].0 != init[b].0 && init[a].1 != init[b].1)
      {
        assert init[a] == pairs[a] && init[b] == pairs[b];
      }
    }
    var (from, to) := pairs[i];
    if i == n {
      forall j | 0 <= j < |init| ensures from != init[j].0 && from != init[j].1 && to != init[j].0 && to != init[j].1 {
        assert init[j] == pairs[j];
      }
      RenameAllOther(t, init, k, from);
      RenameAllOther(t, init, k, to);
      RenameStep(prev, from, to, k, from);
    } else {
      assert init[i] == pairs[i];
      assert to != pairs[n].0 && to != pairs[n].1;
      RenameAllTarget(t, init, k, i);
      RenameStep(prev, pairs[n].0, pairs[n].1, k, to);
    }
  }

  /** After a rename the old label reads as NaN. */
  lemma RenamedAway(t: Table, from: string, to: string, k: nat)
    requires from in t.columns && from != to && k < |t.rows|
    ensures k < |RenameColumn(t, from, to).rows| && Get(RenameColumn(t, from, to).rows[k], from) == Missing
  {
  }

  // --------------------------------------------------------------- rows

  /** Boolean-mask selection df[mask]: kept rows in their original order. */
  function Filter(rows: seq<Row>, p: Row -> bool): (r: seq<Row>)
    ensures |r| <= |rows|
    ensures forall x :: x in r <==> x in rows && p(x)
    decreases |rows|
  {
    if rows == [] then []
    else (if p(rows[0]) then [rows[0]] else []) + Filter(rows[1..], p)
  }

  function FilterRows(t: Table, p: Row -> bool): (r: Table)
    ensures r.columns == t.columns && r.rows == Filter(t.rows, p)
    ensures Valid(t) ==> Valid(r)
  {
    Table(t.columns, Filter(t.rows, p))
  }

  /** Filtering commutes with concatenation, so it keeps the row order. */
  lemma {:induction false} FilterAppend(a: seq<Row>, b: seq<Row>, p: Row -> bool)
    ensures Filter(a + b, p) == Filter(a, p) + Filter(b, p)
    decreases |a|
  {
    if a != [] {
      assert (a + b)[0] == a[0] && (a + b)[1..] == a[1..] + b;
      FilterAppend(a[1..], b, p);
    } else {
      assert a + b == b;
    }
  }

  /** Keeping everything keeps the rows as they are. */
  lemma {:induction false} FilterAll(rows: seq<Row>, p: Row -> bool)
    requires forall x | x in rows :: p(x)
    ensures Filter(rows, p) == rows
    decreases |rows|
  {
    if rows != [] {
      FilterAll(rows[1..], p);
      assert rows == [rows[0]] + rows[1..];
    }
  }

  /** Two disjoint masks and the rows neither keeps partition the frame. */
  lemma {:induction false} FilterPartition(rows: seq<Row>, p: Row -> bool, q: Row -> bool, rest: Row -> bool)
    requires forall x :: !(p(x) && q(x))
    requires forall x :: rest(x) == (!p(x) && !q(x))
    ensures |Filter(rows, p)| + |Filter(rows, q)| + |Filter(rows, rest)| == |rows|
    decreases |rows|
  {
    if rows != [] {
      FilterPartition(rows[1..], p, q, rest);
    }
  }

  /** Two successive masks keep what their conjunction keeps. */
  lemma {:induction false} FilterFilter(rows: seq<Row>, p: Row -> bool, q: Row -> bool, pq: Row -> bool)
    requires forall x :: pq(x) == (p(x) && q(x))
    ensures Filter(Filter(rows, p), q) == Filter(rows, pq)
    decreases |rows|
  {
    if rows != [] {
      var x := rows[0];
      var head := if p(x) then [x] else [];
      FilterFilter(rows[1..], p, q, pq);
      FilterAppend(head, Filter(rows[1..], p), q);
      if p(x) {
        assert head[1..] == [];
      }
    }
  }

  /** Masks that agree on every row keep the same rows. */
  lemma {:induction false} FilterExt(rows: seq<Row>, p: Row -> bool, q: Row -> bool)
    requires forall x | x in rows :: p(x) == q(x)
    ensures Filter(rows, p) == Filter(rows, q)
    decreases |rows|
  {
    if rows != [] {
      assert rows[0] in rows;
      assert forall x | x in rows[1..] :: x in rows;
      FilterExt(rows[1..], p, q);
    }
  }

  /**
   * Rows derived one for one from others (the same frame after column
   * assignments) keep as many rows under a mask that reads the same
   * answer off each pair.
   */
  lemma {:induction false} FilterAlignedCount(xs: seq<Row>, ys: seq<Row>, p: Row -> bool, q: Row -> bool)
    requires |xs| == |ys|
    requires forall k | 0 <= k < |xs| :: q(ys[k]) == p(xs[k])
    ensures |Filter(ys, q)| == |Filter(xs, p)|
    decreases |xs|
  {
    if xs != [] {
      assert q(ys[0]) == p(xs[0]);
      FilterAlignedCount(xs[1..], ys[1..], p, q);
    }
  }

  /** One unfolding of Filter, stated index by index. */
  lemma FilterHead(xs: seq<Row>, p: Row -> bool)
    requires xs != []
    ensures p(xs[0]) ==> |Filter(xs, p)| == |Filter(xs[1..], p)| + 1 && Filter(xs, p)[0] == xs[0]
    ensures p(xs[0]) ==> forall i | 0 < i < |Filter(xs, p)| :: Filter(xs, p)[i] == Filter(xs[1..], p)[i - 1]
    ensures !p(xs[0]) ==> Filter(xs, p) == Filter(xs[1..], p)
  {
  }

  /** The k-th row either mask keeps comes, in both, from the same position j. */
  lemma {:induction false} FilterAlignedAt(xs: seq<Row>, ys: seq<Row>, p: Row -> bool, q: Row -> bool, k: nat) returns (j: nat)
    requires |xs| == |ys|
    requires forall i | 0 <= i < |xs| :: q(ys[i]) == p(xs[i])
    requires k < |Filter(xs, p)|
    ensures k < |Filter(ys, q)| && j < |xs|
    ensures Filter(xs, p)[k] == xs[j] && Filter(ys, q)[k] == ys[j]
    decreases |xs|
  {
    FilterAlignedCount(xs, ys, p, q);
    FilterHead(xs, p);
    FilterHead(ys, q);
    assert q(ys[0]) == p(xs[0]);
    forall i | 0 <= i < |xs[1..]| ensures q(ys[1..][i]) == p(xs[1..][i]) {
      assert ys[1..][i] == ys[i + 1] && xs[1..][i] == xs[i + 1];
    }
    if p(xs[0]) && k == 0 {
      j := 0;
    } else {
      var j' := FilterAlignedAt(xs[1..], ys[1..], p, q, if p(xs[0]) then k - 1 else k);
      assert xs[1..][j'] == xs[j' + 1] && ys[1..][j'] == ys[j' + 1];
      j := j' + 1;
    }
  }

  // ------------------------------------------------------------- concat

  /** The column union of pd.concat: a's labels, then b's new ones in order. */
  function Union(a: seq<string>, b: seq<string>): (r: seq<string>)
    ensures forall c :: c in r <==> c in a || c in b
    ensures |a| <= |r| && r[..|a|] == a
    ensures Distinct(a) && Distinct(b) ==> Distinct(r)
  {
    var w := Without(b, set c | c in a);
    var r := a + w;
    assert r[..|a|] == a;
    assert Distinct(a) && Distinct(b) ==> Distinct(r) by {
      if Distinct(a) && Distinct(b) {
        forall i, j | 0 <= i < j < |r| ensures r[i] != r[j] {
          if i < |a| && j >= |a| {
            assert r[j] in w;
            assert r[i] in a;
          }
        }
      }
    }
    r
  }

  /** A row reindexed to cols: labels it lacks become NaN. */
  function Widen(r: Row, cols: seq<string>): (w: Row)
    ensures Fits(cols, w)
    ensures forall c :: Get(w, c) == if c in cols then Get(r, c) else Missing
  {
    map c | c in cols :: Get(r, c)
  }

  function AllColumns(ts: seq<Table>): (cols: seq<string>)
    ensures forall c :: c in cols <==> exists i | 0 <= i < |ts| :: c in ts[i].columns
    ensures (forall i | 0 <= i < |ts| :: Distinct(ts[i].columns)) ==> Distinct(cols)
    decreases |ts|
  {
    if ts == [] then []
    else
      var n := |ts| - 1;
      var cols := Union(AllColumns(ts[..n]), ts[n].columns);
      assert forall c :: c in cols <==> exists i | 0 <= i < |ts| :: c in ts[i].columns by {
        forall c ensures c in cols <==> exists i | 0 <= i < |ts| :: c in ts[i].columns {
          if c in AllColumns(ts[..n]) {
            var i :| 0 <= i < |ts[..n]| && c in ts[..n][i].columns;
            assert ts[..n][i] == ts[i];
          } else if c !in ts[n].columns {
            forall i | 0 <= i < n ensures c !in ts[i].columns {
              assert ts[..n][i] == ts[i];
            }
          }
        }
      }
      cols
  }

  /** The number of rows of the first n tables. */
  function RowsBefore(ts: seq<Table>, n: nat): nat
    requires n <= |ts|
  {
    if n == 0 then 0 else RowsBefore(ts, n - 1) + |ts[n - 1].rows|
  }

  function AllRows(ts: seq<Table>): (rows: seq<Row>)
    ensures |rows| == RowsBefore(ts, |ts|)
    decreases |ts|
  {
    if ts == [] then [] else
      var n := |ts| - 1;
      assert forall m: nat | m <= n :: RowsBefore(ts[..n], m) == RowsBefore(ts, m) by {
        forall m: nat | m <= n ensures RowsBefore(ts[..n], m) == RowsBefore(ts, m) { RowsBeforePrefix(ts, n, m); }
      }
      AllRows(ts[..n]) + ts[n].rows
  }

  lemma {:induction false} RowsBeforePrefix(ts: seq<Table>, n: nat, m: nat)
    requires m <= n <= |ts|
    ensures RowsBefore(ts[..n], m) == RowsBefore(ts, m)
    decreases m
  {
    if m > 0 {
      RowsBeforePrefix(ts, n, m - 1);
    }
  }

  lemma {:induction false} RowsBeforeMono(ts: seq<Table>, i: nat, j: nat)
    requires i <= j <= |ts|
    ensures RowsBefore(ts, i) <= RowsBefore(ts, j)
    decreases j
  {
    if i < j {
      RowsBeforeMono(ts, i, j - 1);
    }
  }

  /** Frames with the same row counts have the same row offsets. */
  lemma {:induction false} RowsBeforeSame(ts: seq<Table>, us: seq<Table>, n: nat)
    requires |ts| == |us| && n <= |ts|
    requires forall i | 0 <= i < |ts| :: |ts[i].rows| == |us[i].rows|
    ensures RowsBefore(ts, n) == RowsBefore(us, n)
    decreases n
  {
    if n > 0 {
      RowsBeforeSame(ts, us, n - 1);
    }
  }

  /** Blank normalisation of a union keeps one row per row of its parts. */
  lemma NormalizedConcatRowCount(ts: seq<Table>, us: seq<Table>)
    requires |ts| == |us|
    requires forall i | 0 <= i < |ts| :: |ts[i].rows| == |us[i].rows|
    ensures |NormalizeBlanks(ConcatAll(ts)).rows| == RowsBefore(us, |us|)
  {
    RowsBeforeSame(ts, us, |ts|);
  }

  /** Row k of table i sits at position RowsBefore(ts, i) + k of the union. */
  lemma {:induction false} AllRowsAt(ts: seq<Table>, i: nat, k: nat)
    requires i < |ts| && k < |ts[i].rows|
    ensures RowsBefore(ts, i) + k < |AllRows(ts)|
    ensures AllRows(ts)[RowsBefore(ts, i) + k] == ts[i].rows[k]
    decreases |ts|
  {
    var n := |ts| - 1;
    RowsBeforeMono(ts, i + 1, |ts|);
    RowsBeforePrefix(ts, n, n);
    if i < n {
      AllRowsAt(ts[..n], i, k);
      RowsBeforePrefix(ts, n, i);
      assert ts[..n][i] == ts[i];
    }
  }

  /** pd.concat(ts, ignore_index=True) with an outer join on the labels. */
  function ConcatAll(ts: seq<Table>): (r: Table)
    ensures r.columns == AllColumns(ts)
    ensures |r.rows| == RowsBefore(ts, |ts|)
    ensures forall j | 0 <= j < |r.rows| :: r.rows[j] == Widen(AllRows(ts)[j], r.columns)
    ensures (forall i | 0 <= i < |ts| :: Valid(ts[i])) ==> Valid(r)
  {
    var cols := AllColumns(ts);
    var rows := AllRows(ts);
    var r := Table(cols, seq(|rows|, j requires 0 <= j < |rows| => Widen(rows[j], cols)));
    assert forall x | x in r.rows :: Fits(cols, x);
    r
  }

  /** Every row of every input survives concat, in file order, with its values. */
  lemma ConcatAllAt(ts: seq<Table>, i: nat, k: nat)
    requires forall j | 0 <= j < |ts| :: Valid(ts[j])
    requires i < |ts| && k < |ts[i].rows|
    ensures RowsBefore(ts, i) + k < |ConcatAll(ts).rows|
    ensures forall c :: Get(ConcatAll(ts).rows[RowsBefore(ts, i) + k], c) == Get(ts[i].rows[k], c)
  {
    AllRowsAt(ts, i, k);
    var row := ts[i].rows[k];
    assert row in ts[i].rows;
    assert Fits(ts[i].columns, row);
  }

  /** One cell of a row of one input, seen through the concat; only that row need fit its frame. */
  lemma ConcatAllCell(ts: seq<Table>, i: nat, k: nat, c: string)
    requires i < |ts| && k < |ts[i].rows|
    requires forall x | x in ts[i].rows[k] :: x in ts[i].columns
    ensures RowsBefore(ts, i) + k < |ConcatAll(ts).rows|
    ensures Get(ConcatAll(ts).rows[RowsBefore(ts, i) + k], c) == Get(ts[i].rows[k], c)
  {
    AllRowsAt(ts, i, k);
    if c in ts[i].rows[k] {
      assert c in ts[i].columns;
    }
  }

  /** Concat followed by the blank-to-NaN replacement, seen from one cell of one input row. */
  lemma NormalizedConcatAt(ts: seq<Table>, i: nat, k: nat, c: string)
    requires forall j | 0 <= j < |ts| :: Valid(ts[j])
    requires i < |ts| && k < |ts[i].rows|
    ensures RowsBefore(ts, i) + k < |NormalizeBlanks(ConcatAll(ts)).rows|
    ensures Get(NormalizeBlanks(ConcatAll(ts)).rows[RowsBefore(ts, i) + k], c) == BlankToMissing(Get(ts[i].rows[k], c))
  {
    ConcatAllAt(ts, i, k);
    var u := ConcatAll(ts);
    var p := RowsBefore(ts, i) + k;
    assert Get(u.rows[p], c) == Get(ts[i].rows[k], c);
    assert Get(NormalizeBlanks(u).rows[p], c) == BlankToMissing(Get(u.rows[p], c));
  }

  /** Concat followed by the blank-to-NaN replacement, seen from one input row. */
  lemma NormalizedConcatRow(ts: seq<Table>, i: nat, k: nat)
    requires forall j | 0 <= j < |ts| :: Valid(ts[j])
    requires i < |ts| && k < |ts[i].rows|
    ensures RowsBefore(ts, i) + k < |NormalizeBlanks(ConcatAll(ts)).rows|
    ensures forall c :: Get(NormalizeBlanks(ConcatAll(ts)).rows[RowsBefore(ts, i) + k], c) == BlankToMissing(Get(ts[i].rows[k], c))
  {
    NormalizedConcatAt(ts, i, k, "");
    forall c ensures Get(NormalizeBlanks(ConcatAll(ts)).rows[RowsBefore(ts, i) + k], c) == BlankToMissing(Get(ts[i].rows[k], c)) {
      NormalizedConcatAt(ts, i, k, c);
    }
  }

  // -------------------------------------------------------------- cells

  predicate IsNumeric(c: Cell) {
    c.Missing? || c.Num?
  }

  /** df.replace(r'^\s*$', np.nan, regex=True) on one cell. */
  function BlankToMissing(c: Cell): (r: Cell)
    ensures r.Missing? <==> c.Missing? || (c.Text? && IsBlank(c.text))
    ensures !r.Missing? ==> r == c
  {
    if c.Text? && IsBlank(c.text) then Missing else c
  }

  /** The regex replacement over the whole frame. */
  function NormalizeBlanks(t: Table): (r: Table)
    ensures r.columns == t.columns && |r.rows| == |t.rows|
    ensures forall k | 0 <= k < |t.rows| :: r.rows[k].Keys == t.rows[k].Keys
    ensures forall k, c | 0 <= k < |t.rows| :: Get(r.rows[k], c) == BlankToMissing(Get(t.rows[k], c))
    ensures Valid(t) ==> Valid(r)
  {
    var r := Table(t.columns, seq(|t.rows|, k requires 0 <= k < |t.rows| =>
                     map c | c in t.rows[k] :: BlankToMissing(t.rows[k][c])));
    assert Valid(t) ==> Valid(r) by {
      if Valid(t) {
        forall x | x in r.rows ensures Fits(r.columns, x) {
          var k :| 0 <= k < |r.rows| && r.rows[k] == x;
          assert t.rows[k] in t.rows;
        }
      }
    }
    r
  }

  /** pd.to_numeric(errors='coerce') on one cell: unparseable text and "No Aplica" become NaN. */
  function ToNumeric(c: Cell): (r: Cell)
    ensures IsNumeric(r)
    ensures IsNumeric(c) ==> r == c
    ensures c.Text? ==> (r.Num? <==> ParseReal(c.text).Some?)
    ensures c.NotApplicable? ==> r.Missing?
  {
    match c
    case Text(s) => (match ParseReal(s) case Some(v) => Num(v) case None => Missing)
    case NotApplicable => Missing
    case _ => c
  }

  /** pd.to_numeric(df[col], errors='coerce') as a rule for column col. */
  function Coerce(col: string, c: Cell): Cell {
    ToNumeric(c)
  }

  /** Series.replace(codes, np.nan): only numeric cells compare equal to a code. */
  function ReplaceCodes(c: Cell, codes: seq<real>): (r: Cell)
    ensures r.Missing? <==> c.Missing? || (c.Num? && c.value in codes)
    ensures !r.Missing? ==> r == c
  {
    if c.Num? && c.value in codes then Missing else c
  }

  predicate IsIntegral(x: real) {
    x.Floor as real == x
  }

  /** Series.map(dict) on one cell: an unmapped code becomes NaN. */
  function Recode(c: Cell, m: map<int, string>): (r: Cell)
    ensures r.Missing? || r.Text?
    ensures r.Text? <==> c.Num? && IsIntegral(c.value) && c.value.Floor in m
    ensures r.Text? ==> r.text == m[c.value.Floor]
  {
    if c.Num? && IsIntegral(c.value) && c.value.Floor in m then Text(m[c.value.Floor]) else Missing
  }

  /** series == x for a number x: only a numeric cell of that value. */
  predicate NumEq(c: Cell, x: real) {
    c.Num? && c.value == x
  }

  /** series >= x; NaN compares false. */
  predicate NumAtLeast(c: Cell, x: real) {
    c.Num? && c.value >= x
  }

  /** series < x; NaN compares false. */
  predicate NumBelow(c: Cell, x: real) {
    c.Num? && c.value < x
  }

  // ------------------------------------------------------ column loops

  /** A row with f applied to the labels of on; a label of on the row lacks is added. */
  function MappedRow(row: Row, on: set<string>, f: (string, Cell) -> Cell): Row {
    map c | c in row.Keys + on :: if c in on then f(c, Get(row, c)) else row[c]
  }

  /** The present labels of cols. */
  function Present(cols: set<string>, t: Table): (on: set<string>)
    ensures forall c :: c in on <==> c in cols && c in t.columns
  {
    set c | c in cols && c in t.columns
  }

  /** f applied to every cell of the columns of cols that t has. */
  function ColumnsMapped(t: Table, cols: set<string>, f: (string, Cell) -> Cell): (r: Table)
    ensures r.columns == t.columns && |r.rows| == |t.rows|
    ensures forall k, c | 0 <= k < |t.rows| ::
              Get(r.rows[k], c) == if c in cols && c in t.columns then f(c, Get(t.rows[k], c)) else Get(t.rows[k], c)
    ensures Valid(t) ==> Valid(r)
  {
    var on := Present(cols, t);
    var r := Table(t.columns, seq(|t.rows|, k requires 0 <= k < |t.rows| => MappedRow(t.rows[k], on, f)));
    assert Valid(t) ==> Valid(r) by {
      if Valid(t) {
        forall x | x in r.rows ensures Fits(r.columns, x) {
          var k :| 0 <= k < |r.rows| && r.rows[k] == x;
          assert t.rows[k] in t.rows;
        }
      }
    }
    r
  }

  /** Rewriting one more column of a mapped row extends the mapped set by that column. */
  lemma MappedRowStep(row: Row, on: set<string>, col: string, f: (string, Cell) -> Cell)
    requires col !in on
    ensures MappedRow(row, on, f)[col := f(col, Get(MappedRow(row, on, f), col))] == MappedRow(row, on + {col}, f)
  {
    assert Get(MappedRow(row, on, f), col) == Get(row, col);
  }

  /** Mapping nothing leaves the frame as it is. */
  lemma ColumnsMappedNone(t: Table, f: (string, Cell) -> Cell)
    ensures ColumnsMapped(t, {}, f) == t
  {
    assert Present({}, t) == {};
    forall k | 0 <= k < |t.rows| ensures MappedRow(t.rows[k], {}, f) == t.rows[k] { }
  }

  /** A pass over one more column extends the mapped set by that column. */
  lemma ColumnsMappedOne(t: Table, done: set<string>, col: string, f: (string, Cell) -> Cell)
    requires col !in done
    ensures ColumnsMapped(ColumnsMapped(t, done, f), {col}, f) == ColumnsMapped(t, done + {col}, f)
  {
    var u := ColumnsMapped(t, done, f);
    var on := Present(done, t);
    if col in t.columns {
      assert Present({col}, u) == {col};
      assert Present(done + {col}, t) == on + {col};
      forall k | 0 <= k < |t.rows| ensures MappedRow(u.rows[k], {col}, f) == MappedRow(t.rows[k], on + {col}, f) {
        assert u.rows[k] == MappedRow(t.rows[k], on, f);
        MappedRowStep(t.rows[k], on, col, f);
      }
    } else {
      assert Present({col}, u) == {};
      assert Present(done + {col}, t) == on;
      forall k | 0 <= k < |t.rows| ensures MappedRow(u.rows[k], {}, f) == u.rows[k] { }
    }
  }

  /** Two passes over the same columns are one pass of the composed rule. */
  lemma ColumnsMappedTwice(t: Table, cols: set<string>, f: (string, Cell) -> Cell, g: (string, Cell) -> Cell, gf: (string, Cell) -> Cell)
    requires forall c, x :: gf(c, x) == g(c, f(c, x))
    ensures ColumnsMapped(ColumnsMapped(t, cols, f), cols, g) == ColumnsMapped(t, cols, gf)
  {
    var once := ColumnsMapped(t, cols, f);
    assert Present(cols, once) == Present(cols, t);
    forall k | 0 <= k < |t.rows|
      ensures MappedRow(once.rows[k], Present(cols, t), g) == MappedRow(t.rows[k], Present(cols, t), gf)
    {
      var on := Present(cols, t);
      assert forall c | c in on :: Get(once.rows[k], c) == f(c, Get(t.rows[k], c));
    }
  }

  /**
   * The loop `for col, arg in table.items(): if col in df.columns: df[col] = f(col, df[col])`
   * over a dict's keys. Each step rewrites its own column only, so the
   * dict's iteration order does not affect the result.
   */
  method MapColumns(t: Table, cols: set<string>, f: (string, Cell) -> Cell) returns (r: Table)
    ensures r == ColumnsMapped(t, cols, f)
  {
    r := t;
    var todo := cols;
    assert cols - todo == {} && Present({}, t) == {};
    assert r == ColumnsMapped(t, {}, f) by {
      forall k | 0 <= k < |t.rows| ensures t.rows[k] == MappedRow(t.rows[k], {}, f) { }
    }
    while todo != {}
      invariant todo <= cols
      invariant r == ColumnsMapped(t, cols - todo, f)
      decreases |todo|
    {
      var col :| col in todo;
      var prev, done := r, cols - todo;
      r := MapColumn(r, col, (x: Cell) => f(col, x));
      todo := todo - {col};
      assert cols - todo == done + {col};
      if col in t.columns {
        assert Present(done + {col}, t) == Present(done, t) + {col};
        forall k | 0 <= k < |t.rows| ensures r.rows[k] == MappedRow(t.rows[k], Present(done + {col}, t), f) {
          MappedRowStep(t.rows[k], Present(done, t), col, f);
        }
      } else {
        assert Present(done + {col}, t) == Present(done, t);
      }
    }
    assert cols - todo == cols;
  }

  function LabelSet(cols: seq<string>): (s: set<string>)
    ensures forall c :: c in s <==> c in cols
  {
    set c | c in cols
  }

  /** Walking a list without repeats, the next label is new and joins the labels seen so far. */
  lemma LabelSetNext(cols: seq<string>, i: nat)
    requires Distinct(cols) && i < |cols|
    ensures cols[i] !in LabelSet(cols[..i])
    ensures LabelSet(cols[..i + 1]) == LabelSet(cols[..i]) + {cols[i]}
  {
    assert cols[..i + 1] == cols[..i] + [cols[i]];
  }

  /** A row with v written into the labels of on when its mask entry m is set. */
  function FilledRow(row: Row, on: set<string>, m: bool, v: Cell): Row {
    map c | c in row.Keys + on :: if c in on then (if m then v else Get(row, c)) else row[c]
  }

  /** df.loc[mask, col] = v for every col of cols that t has. */
  function MaskFilled(t: Table, cols: seq<string>, mask: seq<bool>, v: Cell): (r: Table)
    requires |mask| == |t.rows|
    ensures r.columns == t.columns && |r.rows| == |t.rows|
    ensures Valid(t) ==> Valid(r)
  {
    var on := Present(LabelSet(cols), t);
    var r := Table(t.columns, seq(|t.rows|, k requires 0 <= k < |t.rows| => FilledRow(t.rows[k], on, mask[k], v)));
    assert Valid(t) ==> Valid(r) by {
      if Valid(t) {
        forall x | x in r.rows ensures Fits(r.columns, x) {
          var k :| 0 <= k < |r.rows| && r.rows[k] == x;
          assert t.rows[k] in t.rows;
        }
      }
    }
    r
  }

  /** Each present listed column reads v on the masked rows; every other cell is unchanged. */
  lemma MaskFilledCells(t: Table, cols: seq<string>, mask: seq<bool>, v: Cell)
    requires |mask| == |t.rows|
    ensures forall k, c | 0 <= k < |t.rows| ::
              Get(MaskFilled(t, cols, mask, v).rows[k], c) == if c in cols && c in t.columns && mask[k] then v else Get(t.rows[k], c)
  {
  }

  /** Filling one more column of a filled row extends the filled set by that column. */
  lemma FilledRowStep(row: Row, on: set<string>, col: string, m: bool, v: Cell)
    ensures FilledRow(row, on, m, v)[col := if m then v else Get(FilledRow(row, on, m, v), col)] == FilledRow(row, on + {col}, m, v)
  {
  }

  /** The column `df.loc[mask, col] = v` leaves behind: v on the masked rows, the old cell elsewhere. */
  function MaskedColumn(t: Table, col: string, mask: seq<bool>, v: Cell): (vals: seq<Cell>)
    requires |mask| == |t.rows|
    ensures |vals| == |t.rows|
    ensures forall k | 0 <= k < |t.rows| :: vals[k] == if mask[k] then v else Get(t.rows[k], col)
  {
    seq(|t.rows|, k requires 0 <= k < |t.rows| => if mask[k] then v else Get(t.rows[k], col))
  }

  /** Filling the next column of cols that t has extends the mask fill by that column. */
  lemma {:induction false} FillMaskedStep(t: Table, cols: seq<string>, mask: seq<bool>, v: Cell, i: nat, prev: Table)
    requires |mask| == |t.rows| && i < |cols| && cols[i] in t.columns
    requires prev == MaskFilled(t, cols[..i], mask, v)
    ensures WithColumn(prev, cols[i], MaskedColumn(prev, cols[i], mask, v)) == MaskFilled(t, cols[..i + 1], mask, v)
  {
    var col := cols[i];
    var done := LabelSet(cols[..i]);
    var r := WithColumn(prev, col, MaskedColumn(prev, col, mask, v));
    assert cols[..i + 1] == cols[..i] + [col];
    assert LabelSet(cols[..i + 1]) == done + {col};
    assert Present(done + {col}, t) == Present(done, t) + {col};
    forall k | 0 <= k < |t.rows| ensures r.rows[k] == FilledRow(t.rows[k], Present(done + {col}, t), mask[k], v) {
      FilledRowStep(t.rows[k], Present(done, t), col, mask[k], v);
    }
  }

  /** A column t does not have leaves the mask fill as it is. */
  lemma {:induction false} FillMaskedSkip(t: Table, cols: seq<string>, mask: seq<bool>, v: Cell, i: nat)
    requires |mask| == |t.rows| && i < |cols| && cols[i] !in t.columns
    ensures MaskFilled(t, cols[..i + 1], mask, v) == MaskFilled(t, cols[..i], mask, v)
  {
    assert cols[..i + 1] == cols[..i] + [cols[i]];
    assert LabelSet(cols[..i + 1]) == LabelSet(cols[..i]) + {cols[i]};
    assert Present(LabelSet(cols[..i + 1]), t) == Present(LabelSet(cols[..i]), t);
  }

  /** Filling no column leaves the table as it is. */
  lemma {:induction false} FillMaskedNone(t: Table, cols: seq<string>, mask: seq<bool>, v: Cell)
    requires |mask| == |t.rows|
    ensures MaskFilled(t, cols[..0], mask, v) == t
  {
    assert LabelSet(cols[..0]) == {};
    assert Present({}, t) == {};
    forall k | 0 <= k < |t.rows| ensures t.rows[k] == FilledRow(t.rows[k], {}, mask[k], v) { }
  }

  /** One iteration of the fill loop: `if col in df.columns: df.loc[mask, col] = v`. */
  function FillStep(r: Table, col: string, mask: seq<bool>, v: Cell): (s: Table)
    requires |mask| == |r.rows|
    ensures s.columns == r.columns && |s.rows| == |r.rows|
  {
    if col in r.columns then WithColumn(r, col, MaskedColumn(r, col, mask, v)) else r
  }

  /** The frame after the fill loop's first i iterations. */
  function FillPrefix(t: Table, cols: seq<string>, mask: seq<bool>, v: Cell, i: nat): (r: Table)
    requires |mask| == |t.rows| && i <= |cols|
    ensures r.columns == t.columns && |r.rows| == |t.rows|
  {
    if i == 0 then t else FillStep(FillPrefix(t, cols, mask, v, i - 1), cols[i - 1], mask, v)
  }

  /** After i iterations the loop has mask-filled the first i labels. */
  lemma {:induction false} FillPrefixIsMaskFilled(t: Table, cols: seq<string>, mask: seq<bool>, v: Cell, i: nat)
    requires |mask| == |t.rows| && i <= |cols|
    ensures FillPrefix(t, cols, mask, v, i) == MaskFilled(t, cols[..i], mask, v)
  {
    if i == 0 {
      FillMaskedNone(t, cols, mask, v);
    } else {
      FillPrefixIsMaskFilled(t, cols, mask, v, i - 1);
      var prev := FillPrefix(t, cols, mask, v, i - 1);
      if cols[i - 1] in t.columns {
        FillMaskedStep(t, cols, mask, v, i - 1, prev);
      } else {
        FillMaskedSkip(t, cols, mask, v, i - 1);
      }
    }
  }

  /** The loop `for col in cols: if col in df.columns: df.loc[mask, col] = v`. */
  method FillMasked(t: Table, cols: seq<string>, mask: seq<bool>, v: Cell) returns (r: Table)
    requires |mask| == |t.rows|
    ensures r == MaskFilled(t, cols, mask, v)
  {
    r := t;
    var i := 0;
    while i < |cols|
      invariant 0 <= i <= |cols|
      invariant r == FillPrefix(t, cols, mask, v, i)
    {
      var col := cols[i];
      if col in r.columns {
        r := WithColumn(r, col, MaskedColumn(r, col, mask, v));
      }
      i := i + 1;
    }
    FillPrefixIsMaskFilled(t, cols, mask, v, |cols|);
    assert cols[..|cols|] == cols;
  }

  // ------------------------------------------------------------- files

  /** A directory entry and its contents; None when read_csv fails on it. */
  datatype FileEntry = FileEntry(name: string, content: Option<Table>)

  /** A list comprehension `[f for f in names if p(f)]`. */
  function SelectNames(names: seq<string>, p: string -> bool): (r: seq<string>)
    ensures |r| <= |names|
    ensures forall x :: x in r <==> x in names && p(x)
    ensures Distinct(names) ==> Distinct(r)
    decreases |names|
  {
    if names == [] then []
    else
      var init := names[..|names| - 1];
      var last := names[|names| - 1];
      assert names == init + [last];
      assert Distinct(names) ==> Distinct(init) && last !in init;
      SelectNames(init, p) + (if p(last) then [last] else [])
  }

  /** The head of a selection is the first listed name that satisfies p. */
  lemma {:induction false} SelectNamesHead(names: seq<string>, p: string -> bool)
    requires SelectNames(names, p) != []
    ensures exists i | 0 <= i < |names| :: names[i] == SelectNames(names, p)[0] && p(names[i]) &&
              forall j | 0 <= j < i :: !p(names[j])
  {
    var i := SelectNamesHeadAt(names, p);
  }

  /** The position of the first selected name: the first name that passes. */
  lemma {:induction false} SelectNamesHeadAt(names: seq<string>, p: string -> bool) returns (i: nat)
    requires SelectNames(names, p) != []
    ensures i < |names| && names[i] == SelectNames(names, p)[0] && p(names[i])
    ensures forall j | 0 <= j < i :: !p(names[j])
    decreases |names|
  {
    var n := |names| - 1;
    var init := names[..n];
    if SelectNames(init, p) != [] {
      i := SelectNamesHeadAt(init, p);
      SelectNamesHeadKept(names, p);
      assert names[i] == init[i];
      assert forall j | 0 <= j < i :: names[j] == init[j];
    } else {
      i := n;
      SelectNamesOnlyLast(names, p);
    }
  }

  /** A name selected before the last one stays first. */
  lemma {:induction false} SelectNamesHeadKept(names: seq<string>, p: string -> bool)
    requires names != [] && SelectNames(names[..|names| - 1], p) != []
    ensures SelectNames(names, p) != [] && SelectNames(names, p)[0] == SelectNames(names[..|names| - 1], p)[0]
  {
    SelectNamesLast(names, p);
  }

  /** When nothing before the last name is selected, the selection is the last name alone. */
  lemma {:induction false} SelectNamesOnlyLast(names: seq<string>, p: string -> bool)
    requires names != [] && SelectNames(names[..|names| - 1], p) == [] && SelectNames(names, p) != []
    ensures p(names[|names| - 1]) && SelectNames(names, p)[0] == names[|names| - 1]
    ensures forall j | 0 <= j < |names| - 1 :: !p(names[j])
  {
    var init := names[..|names| - 1];
    SelectNamesLast(names, p);
    forall j | 0 <= j < |names| - 1 ensures !p(names[j]) {
      assert names[j] == init[j] && init[j] in init;
    }
  }

  /** One step of the comprehension: the selection of all but the last name, then the last if it passes. */
  lemma SelectNamesLast(names: seq<string>, p: string -> bool)
    requires names != []
    ensures SelectNames(names, p) ==
            SelectNames(names[..|names| - 1], p) + (if p(names[|names| - 1]) then [names[|names| - 1]] else [])
  {
  }

  /** The entries whose names satisfy p, in listing order. */
  function SelectFiles(entries: seq<FileEntry>, p: string -> bool): (r: seq<FileEntry>)
    ensures |r| <= |entries|
    ensures forall e :: e in r <==> e in entries && p(e.name)
    decreases |entries|
  {
    if entries == [] then []
    else (if p(entries[0].name) then [entries[0]] else []) + SelectFiles(entries[1..], p)
  }
}
