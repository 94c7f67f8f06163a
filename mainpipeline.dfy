/**
 * 01_scripts/main_pipeline.py from end to end: load and unify the
 * quarterly extracts and combine their weights, replace the sentinel
 * codes and coerce, and split the result into the workforce frame and the
 * under-14 frame; the run is modelled with the script's own cleaning order
 * and, beside it, with the corrected order.
 */
module MainPipeline {
  import opened Common
  import opened Strings
  import opened Frame
  import opened Codebook
  import opened Features
  import opened Load
  import opened Factors
  import opened Sanitize
  import opened Segregation

  // -------------------------------------------------------------- loading

  /** With the lenient stamp, a listing fails to load only on an unreadable CSV file. */
  lemma LenientFailure(listing: seq<FileEntry>)
    requires CsvFiles(listing) != [] && Unified(listing, QuarterIfKnown).Failure?
    ensures Unified(listing, QuarterIfKnown).error.UnreadableFile?
    ensures exists j | 0 <= j < |CsvFiles(listing)| :: CsvFiles(listing)[j].content.None?
  {
    var files := CsvFiles(listing);
    var r := LoadAll(files, QuarterIfKnown);
    var j :| 0 <= j < |files| && !Loads(files[j], QuarterIfKnown) && r.error == LoadError(files[j], QuarterIfKnown);
  }

  /**
   * The weight step of load_and_unify_data: without fa_ columns the frame
   * is as it was; with some, every row carries their sum as
   * factor_expansion and that sum over the number of files as
   * factor_ajustado. Either way no fa_ column is left.
   */
  function Weighed(u: Table, files: nat): (r: Table)
    requires files > 0
    ensures forall c | c in r.columns :: !StartsWith(c, "fa_")
    ensures |r.rows| == |u.rows|
    ensures FactorColumns(u) == [] ==> r == u
    ensures FactorColumns(u) != [] ==> forall k | 0 <= k < |u.rows| ::
              Get(r.rows[k], "factor_expansion") == Num(FactorSum(u.rows[k], FactorColumns(u))) &&
              Get(r.rows[k], "factor_ajustado") == Num(FactorSum(u.rows[k], FactorColumns(u)) / files as real)
  {
    if FactorColumns(u) == [] then u
    else
      NewColumnsAreNotFactors();
      var r := WeightsCombined(u, files);
      assert forall c | c in r.columns :: c in WithLabel(WithLabel(u.columns, "factor_expansion"), "factor_ajustado") && c !in LabelSet(FactorColumns(u));
      r
  }

  /**
   * load_and_unify_data: a FileNotFoundError without CSV files, the
   * read error of the first unreadable one, and otherwise the unified
   * frame, its fa_ columns combined into the two weights when it has
   * any (divided by the number of CSV files) and dropped.
   */
  function Loaded(listing: seq<FileEntry>): (r: Result<Table>)
    ensures CsvFiles(listing) == [] ==> r == Failure(NoInputFiles)
    ensures r.Success? <==> CsvFiles(listing) != [] && forall j | 0 <= j < |CsvFiles(listing)| :: CsvFiles(listing)[j].content.Some?
    ensures r.Failure? && CsvFiles(listing) != [] ==> r.error.UnreadableFile?
    ensures r.Success? ==> r.value == Weighed(Unified(listing, QuarterIfKnown).value, |CsvFiles(listing)|)
  {
    QuarterIfKnownLoads(CsvFiles(listing));
    match Unified(listing, QuarterIfKnown)
    case Failure(e) =>
      (if CsvFiles(listing) != [] then LenientFailure(listing); Failure(e) else Failure(e))
    case Success(m) => Success(Weighed(m, |CsvFiles(listing)|))
  }

  /** The listing loop, the FileNotFoundError, concat, the blank replacement and the weight step. */
  method LoadAndUnify(listing: seq<FileEntry>) returns (r: Result<Table>)
    ensures r == Loaded(listing)
  {
    var files := CsvFiles(listing);
    var frames := LoadLoop(files, QuarterIfKnown);
    if frames.Failure? {
      return Failure(frames.error);
    }
    if frames.value == [] {
      return Failure(NoInputFiles);
    }
    var master := NormalizeBlanks(ConcatAll(frames.value));
    if FactorColumns(master) != [] {
      var weighed := CombineFactors(master, |files|);
      assert weighed == Weighed(master, |files|);
      master := weighed;
    }
    r := Success(master);
  }

  // ------------------------------------------------------------ sanitising

  /**
   * clean_special_codes on a copy: the replace loop over the sentinel
   * table, then the coercion loop over the same columns. Every present
   * sentinel column ends numeric; a numeric cell ends NaN exactly when it
   * was NaN or one of its column's codes; every other column is as it was.
   */
  method CleanSpecialCodes(t: Table) returns (r: Table)
    ensures r == ColumnsMapped(t, SentinelCodes.Keys, SanitizedAsWritten)
    ensures r.columns == t.columns && |r.rows| == |t.rows|
    ensures forall k, c | 0 <= k < |t.rows| && c in SentinelCodes && c in t.columns ::
              IsNumeric(Get(r.rows[k], c)) &&
              (IsNumeric(Get(t.rows[k], c)) ==>
                 (Get(r.rows[k], c).Missing? <==> Get(t.rows[k], c).Missing? || Get(t.rows[k], c).value in SentinelCodes[c]))
    ensures forall k, c | 0 <= k < |t.rows| && (c !in SentinelCodes || c !in t.columns) :: Get(r.rows[k], c) == Get(t.rows[k], c)
  {
    var replaced := MapColumns(t, SentinelCodes.Keys, ReplaceSentinels);
    r := MapColumns(replaced, SentinelCodes.Keys, Coerce);
    TwoPassesAsWritten(t);
  }

  /**
   * clean_special_codes with its two loops swapped: coercing first makes a
   * text sentinel a number that the replace loop then removes. Every
   * present sentinel column ends numeric and free of its codes, and every
   * other column is as it was.
   */
  method CleanSpecialCodesCorrected(t: Table) returns (r: Table)
    ensures r == ColumnsMapped(t, SentinelCodes.Keys, Sanitized)
    ensures SentinelsCleaned(t, r, SentinelCodes)
  {
    var coerced := MapColumns(t, SentinelCodes.Keys, Coerce);
    r := MapColumns(coerced, SentinelCodes.Keys, ReplaceSentinels);
    TwoPassesCorrected(t);
    SanitizedColumns(t);
  }

  // ------------------------------------------------------------ segregation

  /** The C3 / I3 / D3 prefix rule of the fill loop. */
  predicate MainFill(c: string) {
    StartsWith(c, "C3") || StartsWith(c, "I3") || StartsWith(c, "D3")
  }

  /** The prefix rule picks C300n and C301_DIA, and never the age or the activity column. */
  lemma MainFillPicks()
    ensures MainFill("C300n") && MainFill("C301_DIA") && MainFill("I339_1") && MainFill("D344")
    ensures !MainFill("C208") && !MainFill("OCUP300")
  {
    assert "C300n"[..2] == "C3" && "C301_DIA"[..2] == "C3" && "I339_1"[..2] == "I3" && "D344"[..2] == "D3";
    assert "C208"[..2][1] == '2' && "OCUP300"[..2][0] == 'O';
  }

  /** The two frames segregate_and_prepare returns. */
  datatype Populations = Populations(work: Table, young: Table)

  /**
   * segregate_and_prepare: a KeyError without C208; the workforce from
   * the rows aged 14 and over, the under-14 frame from the rows under 14.
   */
  function Segregated(t: Table): (r: Result<Populations>)
    ensures "C208" !in t.columns ==> r == Failure(MissingColumn("C208"))
    ensures r.Success? <==>
              "C208" in t.columns && "OCUP300" in t.columns && NonWorkforce(FilterRows(t, Minor)).Success?
    ensures r.Success? ==>
              |r.value.work.rows| == |Filter(t.rows, Adult)| && |r.value.young.rows| == |Filter(t.rows, Minor)| &&
              |r.value.work.rows| + |r.value.young.rows| + |Filter(t.rows, NoAge)| == |t.rows|
  {
    MainFillPicks();
    AgeSplit(t.rows);
    if "C208" !in t.columns then Failure(MissingColumn("C208"))
    else
      var adults := FilterRows(t, Adult);
      var minors := FilterRows(t, Minor);
      assert forall k | 0 <= k < |adults.rows| :: adults.rows[k] in adults.rows;
      assert forall k | 0 <= k < |minors.rows| :: minors.rows[k] in minors.rows;
      LabelFacts();
      match Workforce(adults, MainFill)
      case Failure(e) => Failure(e)
      case Success(work) =>
        match NonWorkforce(minors)
        case Failure(e) => Failure(e)
        case Success(young) => Success(Populations(work, young))
  }

  /**
   * Workforce row k comes from the k-th row aged 14 or more, keeps its
   * age and carries that age's band; under-14 row k comes from the k-th
   * row under 14.
   */
  lemma SegregatedRows(t: Table)
    requires Segregated(t).Success?
    ensures var p := Segregated(t).value;
            forall k | 0 <= k < |p.work.rows| ::
              Adult(Filter(t.rows, Adult)[k]) &&
              Get(p.work.rows[k], "C208") == Get(Filter(t.rows, Adult)[k], "C208") &&
              Get(p.work.rows[k], "grupo_edad") == AgeBand(Get(Filter(t.rows, Adult)[k], "C208"))
    ensures var p := Segregated(t).value;
            forall k | 0 <= k < |p.young.rows| :: Minor(Filter(t.rows, Minor)[k])
  {
    var adults := FilterRows(t, Adult);
    var minors := FilterRows(t, Minor);
    MainFillPicks();
    LabelFacts();
    var work := Workforce(adults, MainFill).value;
    assert Segregated(t).value.work == work;
    forall k | 0 <= k < |work.rows|
      ensures Adult(adults.rows[k]) && Get(work.rows[k], "C208") == Get(adults.rows[k], "C208")
    {
      assert adults.rows[k] in adults.rows;
      assert Get(work.rows[k], "C208") == WorkerCell(SurveyMaps, adults.columns, adults.rows[k], "C208", MainFill);
    }
    forall k | 0 <= k < |Segregated(t).value.young.rows| ensures Minor(minors.rows[k]) {
      assert minors.rows[k] in minors.rows;
    }
  }

  /** The age masks, then the two preparation paths. */
  method SegregateAndPrepare(t: Table) returns (r: Result<Populations>)
    ensures r == Segregated(t)
  {
    if "C208" !in t.columns {
      return Failure(MissingColumn("C208"));
    }
    MainFillPicks();
    var work := PrepareWorkforce(FilterRows(t, Adult), MainFill);
    if work.Failure? {
      return Failure(work.error);
    }
    var young := PrepareNonWorkforce(FilterRows(t, Minor));
    if young.Failure? {
      return Failure(young.error);
    }
    r := Success(Populations(work.value, young.value));
  }

  // ---------------------------------------------------------- the pipeline

  /** main(): load, clean with clean_special_codes as written, segregate; the first exception ends the run. */
  function Pipeline(listing: seq<FileEntry>): (r: Result<Populations>)
    ensures CsvFiles(listing) == [] ==> r == Failure(NoInputFiles)
    ensures Loaded(listing).Failure? ==> r == Failure(Loaded(listing).error)
    ensures Loaded(listing).Success? ==> r == Segregated(ColumnsMapped(Loaded(listing).value, SentinelCodes.Keys, SanitizedAsWritten))
  {
    match Loaded(listing)
    case Failure(e) => Failure(e)
    case Success(m) => Segregated(ColumnsMapped(m, SentinelCodes.Keys, SanitizedAsWritten))
  }

  /** The three steps of main() in order. */
  method RunPipeline(listing: seq<FileEntry>) returns (r: Result<Populations>)
    ensures r == Pipeline(listing)
  {
    var master := LoadAndUnify(listing);
    if master.Failure? {
      return Failure(master.error);
    }
    var cleaned := CleanSpecialCodes(master.value);
    r := SegregateAndPrepare(cleaned);
  }

  /** The same run with the corrected cleaning, which removes text sentinels too. */
  function PipelineCorrected(listing: seq<FileEntry>): (r: Result<Populations>)
    ensures CsvFiles(listing) == [] ==> r == Failure(NoInputFiles)
    ensures Loaded(listing).Failure? ==> r == Failure(Loaded(listing).error)
    ensures Loaded(listing).Success? ==> r == Segregated(ColumnsMapped(Loaded(listing).value, SentinelCodes.Keys, Sanitized))
  {
    match Loaded(listing)
    case Failure(e) => Failure(e)
    case Success(m) => Segregated(ColumnsMapped(m, SentinelCodes.Keys, Sanitized))
  }

  /** The three steps in order, with the corrected cleaning. */
  method RunPipelineCorrected(listing: seq<FileEntry>) returns (r: Result<Populations>)
    ensures r == PipelineCorrected(listing)
  {
    var master := LoadAndUnify(listing);
    if master.Failure? {
      return Failure(master.error);
    }
    var cleaned := CleanSpecialCodesCorrected(master.value);
    r := SegregateAndPrepare(cleaned);
  }

  /**
   * Where the two runs part: main() cleans the text age "99" into the age
   * 99, a row the workforce mask keeps; the corrected cleaning makes it
   * NaN, a row neither age mask keeps.
   */
  lemma TextAgeSplitsApart()
    ensures Adult(ColumnsMapped(TextAgeFrame, SentinelCodes.Keys, SanitizedAsWritten).rows[0])
    ensures NoAge(ColumnsMapped(TextAgeFrame, SentinelCodes.Keys, Sanitized).rows[0])
  {
    SanitizeAsWrittenNotIdempotent();
    SanitizeTextAge();
  }
}
