/**
 * process_data.py: the same survey frames as the main pipeline, built
 * with three differences of its own. An unknown file name raises
 * instead of being skipped. Rows without an age are dropped before the
 * split. The job-only C3 columns are chosen by their question number
 * (308 and above) rather than by their prefix.
 */
module ProcessData {
  import opened Common
  import opened Strings
  import opened Frame
  import opened Periods
  import opened Load
  import opened Features
  import opened Factors
  import opened Segregation
  import opened MainPipeline

  // ------------------------------------------------------ the column rule

  /** The part of a label before its first '_' (the whole label when it has none). */
  function Stem(c: string): (s: string)
    ensures '_' !in s
    ensures '_' !in c ==> s == c
  {
    match IndexOf(c, '_')
    case None => c
    case Some(i) => c[..i]
  }

  /** The stem of a label whose first '_' follows s. */
  lemma {:induction false} StemAt(s: string, rest: string)
    requires '_' !in s
    ensures IndexOf(s + "_" + rest, '_') == Some(|s|)
    decreases |s|
  {
    if s != [] {
      assert (s + "_" + rest)[1..] == s[1..] + "_" + rest;
      StemAt(s[1..], rest);
    }
  }

  /** int(col.split('_')[0][1:]); None where int() raises ValueError. */
  function ColumnNumber(c: string): Option<int> {
    var s := Stem(c);
    ParseInt(if s == [] then "" else s[1..])
  }

  /** The question number of a label is read off the digits between its first letter and its first '_'. */
  lemma {:induction false} ColumnNumberOf(d: string, rest: string)
    requires '_' !in d
    ensures ColumnNumber("C" + d) == ParseInt(d)
    ensures ColumnNumber("C" + d + "_" + rest) == ParseInt(d)
  {
    var s := "C" + d;
    assert '_' !in s by {
      assert forall i | 0 <= i < |s| :: s[i] == if i == 0 then 'C' else d[i - 1];
    }
    assert Stem(s) == s;
    StemAt(s, rest);
    assert (s + "_" + rest)[..|s|] == s;
    assert s[1..] == d;
  }

  /** The fill rule of process_data: C3 columns numbered 308 or more, every I3 and D3 column. */
  predicate ProcessFill(c: string) {
    (StartsWith(c, "C3") && match ColumnNumber(c) case Some(n) => n >= 308 case None => false)
    || StartsWith(c, "I3") || StartsWith(c, "D3")
  }

  /**
   * A C3 label is filled exactly when int() reads a number of at least
   * 308 off the part after its C, up to its first '_'.
   */
  lemma {:induction false} FillByNumber(d: string, rest: string)
    requires d != [] && d[0] == '3' && '_' !in d
    ensures ProcessFill("C" + d) <==> ParseInt(d).Some? && ParseInt(d).value >= 308
    ensures ProcessFill("C" + d + "_" + rest) <==> ParseInt(d).Some? && ParseInt(d).value >= 308
  {
    ColumnNumberOf(d, rest);
    var s, t := "C" + d, "C" + d + "_" + rest;
    assert s[0] == 'C' && s[1] == '3';
    assert t[0] == 'C' && t[1] == '3';
    ProcessFillC3(s);
    ProcessFillC3(t);
  }

  /** A label that starts with C3 is filled by its number alone. */
  lemma ProcessFillC3(c: string)
    requires |c| >= 2 && c[0] == 'C' && c[1] == '3'
    ensures ProcessFill(c) <==> ColumnNumber(c).Some? && ColumnNumber(c).value >= 308
  {
    assert c[..2] == "C3";
  }

  /** The value of a three-digit string. */
  lemma {:induction false} ThreeDigits(s: string)
    requires |s| == 3 && AllDigits(s)
    ensures DigitsValue(s) == 100 * DigitValue(s[0]) + 10 * DigitValue(s[1]) + DigitValue(s[2])
  {
    assert DigitsValue(s) == 10 * DigitsValue(s[..2]) + DigitValue(s[2]);
    assert s[..2][..1] == s[..1] && s[..2][1] == s[1];
    assert DigitsValue(s[..2]) == 10 * DigitsValue(s[..1]) + DigitValue(s[1]);
    assert s[..1][..0] == [];
    assert DigitsValue(s[..1]) == DigitValue(s[0]);
  }

  /** A three-digit number after the C decides the C3 fill. */
  lemma {:induction false} FillByThreeDigits(d: string, rest: string)
    requires |d| == 3 && AllDigits(d) && d[0] == '3'
    ensures ProcessFill("C" + d) <==> DigitsValue(d) >= 308
    ensures ProcessFill("C" + d + "_" + rest) <==> DigitsValue(d) >= 308
  {
    assert '_' !in d by { assert forall i | 0 <= i < 3 :: d[i] != '_'; }
    FillByNumber(d, rest);
  }

  /** The C3 fill of a label C<d>_<rest> (or C<d>) with three digits d, by the digits' value. */
  lemma {:induction false} FillOfLabel(c: string, d: string, rest: string)
    requires |d| == 3 && AllDigits(d) && d[0] == '3'
    requires c == "C" + d + "_" + rest || c == "C" + d
    ensures ProcessFill(c) <==> 100 * DigitValue(d[0]) + 10 * DigitValue(d[1]) + DigitValue(d[2]) >= 308
  {
    FillByThreeDigits(d, rest);
    ThreeDigits(d);
  }

  /** C301_DIA is numbered 301 and not filled. */
  lemma {:induction false} NotFilledC301()
    ensures !ProcessFill("C301_DIA")
  {
    FillOfLabel("C301_DIA", "301", "DIA");
  }

  /** C361_1 is numbered 361 and filled. */
  lemma {:induction false} FilledC361()
    ensures ProcessFill("C361_1")
  {
    FillOfLabel("C361_1", "361", "1");
  }

  /** C366 has no '_' and is filled. */
  lemma {:induction false} FilledC366()
    ensures ProcessFill("C366")
  {
    FillOfLabel("C366", "366", "");
  }

  /** 308 is the first question number filled. */
  lemma {:induction false} FilledFrom308()
    ensures ProcessFill("C308") && !ProcessFill("C307")
  {
    FillOfLabel("C308", "308", "");
    FillOfLabel("C307", "307", "");
  }

  /** C300n has no number and is skipped. */
  lemma {:induction false} NotFilledC300n()
    ensures !ProcessFill("C300n")
  {
    assert '_' !in "300n" by { assert forall i | 0 <= i < 4 :: "300n"[i] != '_'; }
    FillByNumber("300n", "");
    assert "C300n" == "C" + "300n";
    assert !AllDigits("300n") by { assert !IsDigit("300n"[3]); }
  }

  /** The age and activity columns are never filled. */
  lemma ProcessFillKeeps()
    ensures !ProcessFill("C208") && !ProcessFill("OCUP300")
  {
    assert "C208"[..2][1] == '2' && "OCUP300"[..2][0] == 'O';
  }

  /** Every column the number rule fills the prefix rule fills too, and C301_DIA shows the converse fails. */
  lemma ProcessFillNarrower(c: string)
    ensures ProcessFill(c) ==> MainFill(c)
    ensures MainFill("C301_DIA") && !ProcessFill("C301_DIA")
  {
    MainFillPicks();
    NotFilledC301();
  }

  // --------------------------------------------------- the master frame

  /** dropna(subset=['C208']). */
  predicate HasAge(row: Row) {
    !Get(row, "C208").Missing?
  }

  /**
   * The conversions and weights of process_data on the concatenated frame:
   * a KeyError without C208; otherwise C208 coerced, and every row weighed
   * by the sum of its fa_ cells (0 when there are none) and by that sum
   * over the number of files, with no fa_ column left.
   */
  function Weighted(m: Table, files: nat): (r: Result<Table>)
    requires files > 0
    ensures r.Success? <==> "C208" in m.columns
    ensures r.Failure? ==> r.error == MissingColumn("C208")
    ensures r.Success? ==> |r.value.rows| == |m.rows| && forall c | c in r.value.columns :: !StartsWith(c, "fa_")
    ensures r.Success? ==> forall k | 0 <= k < |m.rows| :: IsNumeric(Get(r.value.rows[k], "C208"))
    ensures r.Success? ==> forall k | 0 <= k < |m.rows| ::
              Get(r.value.rows[k], "C208") == ToNumeric(Get(m.rows[k], "C208")) &&
              Get(r.value.rows[k], "factor_expansion") == Num(FactorSum(m.rows[k], FactorColumns(m))) &&
              Get(r.value.rows[k], "factor_ajustado") == Num(FactorSum(m.rows[k], FactorColumns(m)) / files as real)
  {
    if "C208" !in m.columns then Failure(MissingColumn("C208"))
    else
      var aged := MapColumn(m, "C208", ToNumeric);
      AgeIsNoFactor(m);
      var r := WeightsCombined(aged, files);
      NoFactorLeft(aged, files);
      forall k | 0 <= k < |m.rows|
        ensures Get(r.rows[k], "C208") == ToNumeric(Get(m.rows[k], "C208"))
        ensures Get(r.rows[k], "factor_expansion") == Num(FactorSum(m.rows[k], FactorColumns(m)))
        ensures Get(r.rows[k], "factor_ajustado") == Num(FactorSum(m.rows[k], FactorColumns(m)) / files as real)
      {
        WeightedRow(m, files, k);
      }
      Success(r)
  }

  /** Combining the weights leaves no fa_ column. */
  lemma NoFactorLeft(t: Table, files: nat)
    requires files > 0
    ensures forall c | c in WeightsCombined(t, files).columns :: !StartsWith(c, "fa_")
  {
    NewColumnsAreNotFactors();
    var r := WeightsCombined(t, files);
    assert forall c | c in r.columns :: c in WithLabel(WithLabel(t.columns, "factor_expansion"), "factor_ajustado") && c !in LabelSet(FactorColumns(t));
  }

  /** Coercing C208 leaves the factor columns and every row's weight as they were. */
  lemma AgeIsNoFactor(m: Table)
    ensures FactorColumns(MapColumn(m, "C208", ToNumeric)) == FactorColumns(m)
    ensures forall k | 0 <= k < |m.rows| ::
              FactorSum(MapColumn(m, "C208", ToNumeric).rows[k], FactorColumns(m)) == FactorSum(m.rows[k], FactorColumns(m))
  {
    var aged := MapColumn(m, "C208", ToNumeric);
    assert !StartsWith("C208", "fa_") by { assert "C208"[..3][0] == 'C'; }
    forall k | 0 <= k < |m.rows| ensures FactorSum(aged.rows[k], FactorColumns(m)) == FactorSum(m.rows[k], FactorColumns(m)) {
      SameFactorCells(aged.rows[k], m.rows[k], FactorColumns(m));
    }
  }

  /** Row k of the weighed frame, cell by cell. */
  lemma WeightedRow(m: Table, files: nat, k: nat)
    requires files > 0 && "C208" in m.columns && k < |m.rows|
    ensures var r := WeightsCombined(MapColumn(m, "C208", ToNumeric), files);
            Get(r.rows[k], "C208") == ToNumeric(Get(m.rows[k], "C208")) &&
            Get(r.rows[k], "factor_expansion") == Num(FactorSum(m.rows[k], FactorColumns(m))) &&
            Get(r.rows[k], "factor_ajustado") == Num(FactorSum(m.rows[k], FactorColumns(m)) / files as real)
  {
    var aged := MapColumn(m, "C208", ToNumeric);
    AgeIsNoFactor(m);
    NewColumnsAreNotFactors();
    assert Get(aged.rows[k], "C208") == ToNumeric(Get(m.rows[k], "C208"));
  }

  /** Rows that agree on the factor cells have the same weight. */
  lemma {:induction false} SameFactorCells(a: Row, b: Row, fa: seq<string>)
    requires forall c | c in fa :: Get(a, c) == Get(b, c)
    ensures FactorSum(a, fa) == FactorSum(b, fa)
    decreases |fa|
  {
    if fa != [] {
      var n := |fa| - 1;
      assert fa[n] in fa;
      assert forall c | c in fa[..n] :: c in fa;
      SameFactorCells(a, b, fa[..n]);
    }
  }

  /**
   * Phase 1 and the weights: every CSV file read and stamped with its
   * quarter (a KeyError on an unknown name), concatenated (a ValueError
   * when there is nothing to concatenate), then weighed.
   */
  function Master(listing: seq<FileEntry>): (r: Result<Table>)
    ensures CsvFiles(listing) == [] ==> r == Failure(NothingToConcatenate)
  {
    match LoadAll(CsvFiles(listing), QuarterOrFail)
    case Failure(e) => Failure(e)
    case Success(frames) =>
      match Concat(frames)
      case Failure(e) => Failure(e)
      case Success(m) => Weighted(m, |frames|)
  }

  /** A master frame is the weighed concat of the stamped CSV files. */
  lemma MasterIsWeighted(listing: seq<FileEntry>)
    requires Master(listing).Success?
    ensures CsvFiles(listing) != [] && LoadAll(CsvFiles(listing), QuarterOrFail).Success?
    ensures Master(listing) == Weighted(ConcatAll(LoadAll(CsvFiles(listing), QuarterOrFail).value), |CsvFiles(listing)|)
  {
  }

  /** Every age of a master frame is a number or NaN. */
  lemma MasterAges(listing: seq<FileEntry>)
    requires Master(listing).Success?
    ensures forall k | 0 <= k < |Master(listing).value.rows| :: IsNumeric(Get(Master(listing).value.rows[k], "C208"))
  {
    MasterIsWeighted(listing);
  }

  /** A listing of readable CSV files fails on its first file name outside the quarters table. */
  lemma MasterUnknownName(listing: seq<FileEntry>)
    requires forall j | 0 <= j < |CsvFiles(listing)| :: CsvFiles(listing)[j].content.Some?
    requires exists j | 0 <= j < |CsvFiles(listing)| :: CsvFiles(listing)[j].name !in Quarters
    ensures Master(listing).Failure? && Master(listing).error.UnknownFileName?
    ensures Master(listing).error.name !in Quarters
  {
    var files := CsvFiles(listing);
    QuarterOrFailLoads(files);
    var r := LoadAll(files, QuarterOrFail);
    var j :| 0 <= j < |files| && !Loads(files[j], QuarterOrFail) && r.error == LoadError(files[j], QuarterOrFail);
  }

  /** A master frame has as many rows as the CSV files together, whose names are all known quarters. */
  lemma MasterRowCount(listing: seq<FileEntry>)
    requires Master(listing).Success?
    ensures forall j | 0 <= j < |CsvFiles(listing)| :: CsvFiles(listing)[j].content.Some? && CsvFiles(listing)[j].name in Quarters
    ensures |Master(listing).value.rows| == RowsBefore(Contents(CsvFiles(listing)), |CsvFiles(listing)|)
  {
    var files := CsvFiles(listing);
    var frames := LoadAll(files, QuarterOrFail).value;
    forall j | 0 <= j < |files| ensures files[j].content.Some? && files[j].name in Quarters {
      assert Loads(files[j], QuarterOrFail);
    }
    RowsBeforeSame(frames, Contents(files), |files|);
  }

  // ----------------------------------------------------------- the split

  /**
   * Phases 2 to 4 on the master frame: rows without an age dropped, the
   * workforce under the number rule (a KeyError without OCUP300, then
   * without C361_1), and the under-14 frame.
   */
  function Split(m: Table): (r: Result<Populations>)
    ensures "C208" !in m.columns ==> r == Failure(MissingColumn("C208"))
    ensures r.Success? <==>
              "C208" in m.columns && "OCUP300" in m.columns && "C361_1" in m.columns &&
              NonWorkforce(FilterRows(FilterRows(m, HasAge), Minor)).Success?
    ensures r.Success? ==>
              |r.value.work.rows| == |Filter(Filter(m.rows, HasAge), Adult)| &&
              |r.value.young.rows| == |Filter(Filter(m.rows, HasAge), Minor)|
  {
    if "C208" !in m.columns then Failure(MissingColumn("C208"))
    else
      var kept := FilterRows(m, HasAge);
      var adults := FilterRows(kept, Adult);
      var minors := FilterRows(kept, Minor);
      ProcessFillKeeps();
      match Workforce(adults, ProcessFill)
      case Failure(e) => Failure(e)
      case Success(work) =>
        if "C361_1" !in adults.columns then Failure(MissingColumn("C361_1"))
        else match NonWorkforce(minors)
          case Failure(e) => Failure(e)
          case Success(young) => Success(Populations(work, young))
  }

  /**
   * Workforce row k comes from the k-th row aged 14 or more, carries its
   * age band, and has es_informal 1 exactly when its codes say employed
   * and informal; under-14 row k comes from the k-th row under 14.
   */
  lemma SplitRows(m: Table)
    requires Split(m).Success?
    ensures var adults := Filter(Filter(m.rows, HasAge), Adult);
            forall k | 0 <= k < |Split(m).value.work.rows| ::
              Adult(adults[k]) &&
              Get(Split(m).value.work.rows[k], "grupo_edad") == AgeBand(Get(adults[k], "C208")) &&
              Get(Split(m).value.work.rows[k], "es_informal") == Flag(InformalByCode(adults[k]))
    ensures var minors := Filter(Filter(m.rows, HasAge), Minor);
            forall k | 0 <= k < |Split(m).value.young.rows| :: Minor(minors[k])
  {
    var kept := FilterRows(m, HasAge);
    var adults := FilterRows(kept, Adult);
    var minors := FilterRows(kept, Minor);
    ProcessFillKeeps();
    assert Split(m).value.work == Workforce(adults, ProcessFill).value;
    forall k | 0 <= k < |adults.rows| ensures Adult(adults.rows[k]) {
      assert adults.rows[k] in adults.rows;
    }
    forall k | 0 <= k < |minors.rows| ensures Minor(minors.rows[k]) {
      assert minors.rows[k] in minors.rows;
    }
  }

  /** After the dropna of a frame whose ages are numbers, the two populations account for every kept row. */
  lemma SplitCounts(m: Table)
    requires Split(m).Success?
    requires forall k | 0 <= k < |m.rows| :: IsNumeric(Get(m.rows[k], "C208"))
    ensures |Split(m).value.work.rows| + |Split(m).value.young.rows| == |Filter(m.rows, HasAge)|
  {
    var kept := Filter(m.rows, HasAge);
    forall x | x in kept ensures Get(x, "C208").Num? {
      var k :| 0 <= k < |m.rows| && m.rows[k] == x;
    }
    AgedSplit(kept);
  }

  /** The whole script: the master frame, then the split. */
  function Processed(listing: seq<FileEntry>): (r: Result<Populations>)
    ensures CsvFiles(listing) == [] ==> r == Failure(NothingToConcatenate)
    ensures Master(listing).Failure? ==> r == Failure(Master(listing).error)
    ensures Master(listing).Success? ==> r == Split(Master(listing).value)
  {
    match Master(listing)
    case Failure(e) => Failure(e)
    case Success(m) => Split(m)
  }

  /** After the dropna, the two populations account for every row with an age. */
  lemma ProcessedCounts(listing: seq<FileEntry>)
    requires Processed(listing).Success?
    ensures |Processed(listing).value.work.rows| + |Processed(listing).value.young.rows| ==
            |Filter(Master(listing).value.rows, HasAge)|
  {
    MasterAges(listing);
    SplitCounts(Master(listing).value);
  }

  /** Phase 1: the reading loop, concat, the C208 and fa_ coercions and the weight columns. */
  method LoadMaster(listing: seq<FileEntry>) returns (r: Result<Table>)
    ensures r == Master(listing)
  {
    var files := CsvFiles(listing);
    var frames := LoadLoop(files, QuarterOrFail);
    if frames.Failure? {
      return Failure(frames.error);
    }
    if frames.value == [] {
      return Failure(NothingToConcatenate);
    }
    var master := ConcatAll(frames.value);
    if "C208" !in master.columns {
      return Failure(MissingColumn("C208"));
    }
    var aged := MapColumn(master, "C208", ToNumeric);
    var weighed := CombineFactors(aged, |frames.value|);
    r := Success(weighed);
  }

  /** Phases 2 to 4: the dropna, the two masks and the two preparation paths. */
  method SplitMaster(m: Table) returns (r: Result<Populations>)
    ensures r == Split(m)
  {
    if "C208" !in m.columns {
      return Failure(MissingColumn("C208"));
    }
    var kept := FilterRows(m, HasAge);
    ProcessFillKeeps();
    var work := PrepareWorkforce(FilterRows(kept, Adult), ProcessFill);
    if work.Failure? {
      return Failure(work.error);
    }
    if "C361_1" !in kept.columns {
      return Failure(MissingColumn("C361_1"));
    }
    var young := PrepareNonWorkforce(FilterRows(kept, Minor));
    if young.Failure? {
      return Failure(young.error);
    }
    r := Success(Populations(work.value, young.value));
  }

  /** process_data(), step by step. */
  method RunProcessData(listing: seq<FileEntry>) returns (r: Result<Populations>)
    ensures r == Processed(listing)
  {
    var master := LoadMaster(listing);
    if master.Failure? {
      return Failure(master.error);
    }
    r := SplitMaster(master.value);
  }
}
