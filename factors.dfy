/**
 * The expansion-weight columns: each quarterly extract carries its weight
 * in a column named `fa_<...>`. After the concat, a row has a number in
 * the column of its own file and NaN in the others; the pipeline sums them
 * into `factor_expansion` and divides by the number of files into
 * `factor_ajustado`.
 */
module Factors {
  import opened Common
  import opened Strings
  import opened Frame
  import opened Aggregate

  /** `[col for col in df.columns if col.startswith('fa_')]`. */
  function FactorColumns(t: Table): (fa: seq<string>)
    ensures forall c :: c in fa <==> c in t.columns && StartsWith(c, "fa_")
    ensures Distinct(t.columns) ==> Distinct(fa)
  {
    SelectNames(t.columns, (c: string) => StartsWith(c, "fa_"))
  }

  /** The weight of one row: its factor cells coerced to numbers and summed, NaN counted as 0. */
  function FactorSum(row: Row, fa: seq<string>): real
    decreases |fa|
  {
    if fa == [] then 0.0 else FactorSum(row, fa[..|fa| - 1]) + NumOr0(ToNumeric(Get(row, fa[|fa| - 1])))
  }

  /** A row whose factor cells are already coerced sums to the same weight. */
  lemma {:induction false} RowSumOfCoerced(row: Row, coerced: Row, fa: seq<string>)
    requires forall c | c in fa :: Get(coerced, c) == ToNumeric(Get(row, c))
    ensures RowSum(coerced, fa) == FactorSum(row, fa)
    decreases |fa|
  {
    if fa != [] {
      var n := |fa| - 1;
      assert fa[n] in fa;
      assert forall c | c in fa[..n] :: c in fa;
      RowSumOfCoerced(row, coerced, fa[..n]);
    }
  }

  /** The new columns are not factor columns, so the drop keeps them. */
  lemma NewColumnsAreNotFactors()
    ensures !StartsWith("factor_expansion", "fa_") && !StartsWith("factor_ajustado", "fa_")
  {
    assert "factor_expansion"[..3][2] == 'c';
    assert "factor_ajustado"[..3][2] == 'c';
  }

  /** df['factor_expansion'] = sums; df['factor_ajustado'] = df['factor_expansion'] / files. */
  function WithWeights(t: Table, sums: seq<real>, files: nat): (r: Table)
    requires |sums| == |t.rows| && files > 0
    ensures r.columns == WithLabel(WithLabel(t.columns, "factor_expansion"), "factor_ajustado")
    ensures |r.rows| == |t.rows|
    ensures forall k | 0 <= k < |t.rows| ::
              Get(r.rows[k], "factor_expansion") == Num(sums[k]) && Get(r.rows[k], "factor_ajustado") == Num(sums[k] / files as real)
    ensures forall k, c | 0 <= k < |t.rows| && c != "factor_expansion" && c != "factor_ajustado" ::
              Get(r.rows[k], c) == Get(t.rows[k], c)
    ensures Valid(t) ==> Valid(r)
  {
    var withSum := WithColumn(t, "factor_expansion", seq(|t.rows|, k requires 0 <= k < |t.rows| => Num(sums[k])));
    WithColumn(withSum, "factor_ajustado", seq(|t.rows|, k requires 0 <= k < |t.rows| => Num(sums[k] / files as real)))
  }

  /** The frame with its factor columns coerced. */
  function FactorsCoerced(t: Table): (r: Table)
    ensures r.columns == t.columns && |r.rows| == |t.rows|
    ensures forall k, c | 0 <= k < |t.rows| && c in FactorColumns(t) :: Get(r.rows[k], c) == ToNumeric(Get(t.rows[k], c))
    ensures forall k, c | 0 <= k < |t.rows| && c !in FactorColumns(t) :: Get(r.rows[k], c) == Get(t.rows[k], c)
    ensures Valid(t) ==> Valid(r)
  {
    ColumnsMapped(t, LabelSet(FactorColumns(t)), Coerce)
  }

  /** The row-wise sums df[fa_cols].sum(axis=1) of the coerced frame. */
  function FactorSums(t: Table): (s: seq<real>)
    ensures |s| == |t.rows|
    ensures forall k | 0 <= k < |t.rows| :: s[k] == FactorSum(t.rows[k], FactorColumns(t))
  {
    var coerced := FactorsCoerced(t);
    var s := seq(|t.rows|, k requires 0 <= k < |t.rows| => RowSum(coerced.rows[k], FactorColumns(t)));
    assert forall k | 0 <= k < |t.rows| :: s[k] == FactorSum(t.rows[k], FactorColumns(t)) by {
      forall k | 0 <= k < |t.rows| ensures s[k] == FactorSum(t.rows[k], FactorColumns(t)) {
        RowSumOfCoerced(t.rows[k], coerced.rows[k], FactorColumns(t));
      }
    }
    s
  }

  /**
   * The factor columns coerced, summed row-wise into factor_expansion,
   * divided by the number of files into factor_ajustado, and dropped.
   */
  function WeightsCombined(t: Table, files: nat): (r: Table)
    requires files > 0
    ensures r.columns == Without(WithLabel(WithLabel(t.columns, "factor_expansion"), "factor_ajustado"), LabelSet(FactorColumns(t)))
    ensures |r.rows| == |t.rows|
    ensures forall k | 0 <= k < |t.rows| ::
              Get(r.rows[k], "factor_expansion") == Num(FactorSum(t.rows[k], FactorColumns(t))) &&
              Get(r.rows[k], "factor_ajustado") == Num(FactorSum(t.rows[k], FactorColumns(t)) / files as real)
    ensures forall k, c | 0 <= k < |t.rows| && c in FactorColumns(t) :: Get(r.rows[k], c) == Missing
    ensures forall k, c | 0 <= k < |t.rows| && c !in FactorColumns(t) && c != "factor_expansion" && c != "factor_ajustado" ::
              Get(r.rows[k], c) == Get(t.rows[k], c)
    ensures Valid(t) ==> Valid(r)
  {
    NewColumnsAreNotFactors();
    DropColumns(WithWeights(FactorsCoerced(t), FactorSums(t), files), LabelSet(FactorColumns(t)))
  }

  /** `for col in fa_cols: df[col] = pd.to_numeric(...)`, then the two weight columns and the drop. */
  method CombineFactors(t: Table, files: nat) returns (r: Table)
    requires files > 0
    ensures r == WeightsCombined(t, files)
  {
    var fa := FactorColumns(t);
    var faSet := LabelSet(fa);
    var coerced := MapColumns(t, faSet, Coerce);
    var sums := seq(|t.rows|, k requires 0 <= k < |t.rows| => RowSum(coerced.rows[k], fa));
    r := DropColumns(WithWeights(coerced, sums, files), faSet);
  }
}
