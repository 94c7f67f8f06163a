/**
 * Sentinel sanitisation: survey codes that stand for "no answer" (99, 9999,
 * 999999) become NaN and the affected columns become numeric. The
 * scripts combine `Series.replace(codes, nan)` with
 * `pd.to_numeric(errors='coerce')` in two different orders, and the
 * order matters for text cells.
 */
module Sanitize {
  import opened Common
  import opened Strings
  import opened Frame

  /** The column -> sentinel-codes table of the national pipeline and of the lima cleaning script. */
  const SentinelCodes: map<string, seq<real>> := map[
    "C208" := [99.0], "C301_DIA" := [99.0], "C301_MES" := [99.0], "C301_ANIO" := [9999.0],
    "C308_COD" := [9999.0], "C309_COD" := [9999.0], "C317A" := [9999.0],
    "C318_1" := [99.0], "C318_2" := [99.0], "C318_3" := [99.0], "C318_4" := [99.0],
    "C318_5" := [99.0], "C318_6" := [99.0], "C318_7" := [99.0], "C318_T" := [99.0],
    "C328_T" := [99.0], "whoraT" := [99.0], "I339_1" := [999999.0], "C341_T" := [999999.0],
    "C342" := [999999.0], "D344" := [999999.0], "I345_1" := [999999.0], "D347_T" := [999999.0],
    "C348" := [999999.0], "D350" := [999999.0], "INGTOT" := [999999.0], "INGTOTP" := [999999.0],
    "INGTRABW" := [999999.0]]

  /** A column's sentinel codes; a column outside the table has none. */
  function CodesOf(codes: map<string, seq<real>>, col: string): seq<real> {
    if col in codes then codes[col] else []
  }

  /**
   * The national pipeline's order: replace the codes, then coerce. A text
   * cell is not equal to any number, so replace passes it through and the
   * coercion may turn it into the very sentinel that should have gone.
   */
  function ReplaceThenCoerce(c: Cell, codes: seq<real>): (r: Cell)
    ensures IsNumeric(r)
    ensures IsNumeric(c) ==> (r.Missing? <==> c.Missing? || c.value in codes)
    ensures c.Text? ==> r == ToNumeric(c)
  {
    ToNumeric(ReplaceCodes(c, codes))
  }

  /** The lima cleaning script's order: coerce, then replace. */
  function CoerceThenReplace(c: Cell, codes: seq<real>): (r: Cell)
    ensures IsNumeric(r)
    ensures r.Num? ==> r.value !in codes
    ensures r.Missing? <==> ToNumeric(c).Missing? || ToNumeric(c).value in codes
    ensures IsNumeric(c) && !(c.Num? && c.value in codes) ==> r == c
  {
    ReplaceCodes(ToNumeric(c), codes)
  }

  /** A text cell holding a sentinel survives the national order as that sentinel. */
  lemma TextSentinelSurvives()
    ensures ReplaceThenCoerce(Text("99"), [99.0]) == Num(99.0)
    ensures ReplaceThenCoerce(ReplaceThenCoerce(Text("99"), [99.0]), [99.0]) == Missing
  {
    assert ParseReal("99") == Some(99.0) by {
      assert AllDigits("99") && DigitsValue("99") == 99 by {
        assert "99"[..1] == "9";
      }
    }
  }

  /** The corrected order removes a sentinel whether it arrives as a number or as text. */
  lemma TextSentinelRemoved()
    ensures CoerceThenReplace(Text("99"), [99.0]) == Missing
    ensures CoerceThenReplace(Num(99.0), [99.0]) == Missing
  {
    assert ParseReal("99") == Some(99.0) by {
      assert AllDigits("99") && DigitsValue("99") == 99 by {
        assert "99"[..1] == "9";
      }
    }
  }

  /** Coerce-then-replace is idempotent on every cell. */
  lemma CoerceThenReplaceIdempotent(c: Cell, codes: seq<real>)
    ensures CoerceThenReplace(CoerceThenReplace(c, codes), codes) == CoerceThenReplace(c, codes)
  {
  }

  /** On a column that is already numeric the two orders agree. */
  lemma OrdersAgreeOnNumbers(c: Cell, codes: seq<real>)
    requires IsNumeric(c)
    ensures ReplaceThenCoerce(c, codes) == CoerceThenReplace(c, codes)
  {
  }

  // ------------------------------------------------------------- tables

  /** `master_df[column].replace(codes, np.nan)` for a column of the sentinel table. */
  function ReplaceSentinels(col: string, c: Cell): Cell {
    ReplaceCodes(c, CodesOf(SentinelCodes, col))
  }

  /** The corrected cell rule of the sentinel table. */
  function Sanitized(col: string, c: Cell): Cell {
    CoerceThenReplace(c, CodesOf(SentinelCodes, col))
  }

  /** The national pipeline's cell rule of the sentinel table. */
  function SanitizedAsWritten(col: string, c: Cell): Cell {
    ReplaceThenCoerce(c, CodesOf(SentinelCodes, col))
  }

  /** A replace pass followed by a coercion pass is one pass of the national rule. */
  lemma TwoPassesAsWritten(t: Table)
    ensures ColumnsMapped(ColumnsMapped(t, SentinelCodes.Keys, ReplaceSentinels), SentinelCodes.Keys, Coerce)
         == ColumnsMapped(t, SentinelCodes.Keys, SanitizedAsWritten)
  {
    ColumnsMappedTwice(t, SentinelCodes.Keys, ReplaceSentinels, Coerce, SanitizedAsWritten);
  }

  /** A coercion pass followed by a replace pass is one pass of the corrected rule. */
  lemma TwoPassesCorrected(t: Table)
    ensures ColumnsMapped(ColumnsMapped(t, SentinelCodes.Keys, Coerce), SentinelCodes.Keys, ReplaceSentinels)
         == ColumnsMapped(t, SentinelCodes.Keys, Sanitized)
  {
    ColumnsMappedTwice(t, SentinelCodes.Keys, Coerce, ReplaceSentinels, Sanitized);
  }

  /** A cellwise pass with an idempotent rule is idempotent on the table. */
  lemma ColumnsMappedIdempotent(t: Table, cols: set<string>, f: (string, Cell) -> Cell)
    requires forall c, x :: f(c, f(c, x)) == f(c, x)
    ensures ColumnsMapped(ColumnsMapped(t, cols, f), cols, f) == ColumnsMapped(t, cols, f)
  {
    ColumnsMappedTwice(t, cols, f, f, f);
  }

  /**
   * r is t cleaned of the sentinels in codes: every present column with
   * codes is numeric and free of them, and every other column is as in t.
   */
  ghost predicate SentinelsCleaned(t: Table, r: Table, codes: map<string, seq<real>>) {
    |r.rows| == |t.rows| &&
    (forall k, c | 0 <= k < |t.rows| && c in codes && c in t.columns ::
       IsNumeric(Get(r.rows[k], c)) && !(Get(r.rows[k], c).Num? && Get(r.rows[k], c).value in codes[c])) &&
    (forall k, c | 0 <= k < |t.rows| && (c !in codes || c !in t.columns) :: Get(r.rows[k], c) == Get(t.rows[k], c))
  }

  /** A coerce-then-replace pass over the columns of a code table cleans the frame of those codes. */
  lemma CoerceThenReplaceCleans(t: Table, codes: map<string, seq<real>>, f: (string, Cell) -> Cell)
    requires forall col, x :: f(col, x) == CoerceThenReplace(x, CodesOf(codes, col))
    ensures SentinelsCleaned(t, ColumnsMapped(t, codes.Keys, f), codes)
  {
  }

  /** The corrected cleaning cleans every frame of the sentinel table's codes. */
  lemma SanitizedColumns(t: Table)
    ensures SentinelsCleaned(t, ColumnsMapped(t, SentinelCodes.Keys, Sanitized), SentinelCodes)
  {
    CoerceThenReplaceCleans(t, SentinelCodes, Sanitized);
  }

  /** Cleaning the corrected cleaning's output again changes nothing. */
  lemma SanitizeTwiceIsOnce(t: Table)
    ensures var r := ColumnsMapped(t, SentinelCodes.Keys, Sanitized);
            ColumnsMapped(r, SentinelCodes.Keys, Sanitized) == r
  {
    forall col, x ensures Sanitized(col, Sanitized(col, x)) == Sanitized(col, x) {
      CoerceThenReplaceIdempotent(x, CodesOf(SentinelCodes, col));
    }
    ColumnsMappedIdempotent(t, SentinelCodes.Keys, Sanitized);
  }

  /** A one-row frame whose age is the text "99". */
  const TextAgeFrame: Table := Table(["C208"], [map["C208" := Text("99")]])

  /**
   * Cleaning twice with the national rule is not cleaning once: the text
   * age "99" keeps 99 after one pass and loses it after the second.
   */
  lemma SanitizeAsWrittenNotIdempotent()
    ensures var r := ColumnsMapped(TextAgeFrame, SentinelCodes.Keys, SanitizedAsWritten);
            Get(r.rows[0], "C208") == Num(99.0) &&
            Get(ColumnsMapped(r, SentinelCodes.Keys, SanitizedAsWritten).rows[0], "C208") == Missing
  {
    TextSentinelSurvives();
    assert "C208" in SentinelCodes.Keys && CodesOf(SentinelCodes, "C208") == [99.0];
    assert Get(TextAgeFrame.rows[0], "C208") == Text("99");
  }

  /** The corrected cleaning turns the text age "99" into NaN in one pass. */
  lemma SanitizeTextAge()
    ensures Get(ColumnsMapped(TextAgeFrame, SentinelCodes.Keys, Sanitized).rows[0], "C208") == Missing
  {
    TextSentinelRemoved();
    assert "C208" in SentinelCodes.Keys && CodesOf(SentinelCodes, "C208") == [99.0];
    assert Get(TextAgeFrame.rows[0], "C208") == Text("99");
  }
}
