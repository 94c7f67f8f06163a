/**
 * The loading loop every script runs: read each listed CSV file in turn,
 * give the scripts' per-file treatment to its frame (usually a `periodo`
 * column), append it to a list, and concatenate the list. A listing is a
 * sequence of directory entries; an entry whose content is None is a file
 * read_csv fails on, and the exception ends the loop.
 */
module Load {
  import opened Common
  import opened Strings
  import opened Frame
  import opened Periods

  /** A script's treatment of one file's frame, given the file name; a failure is the exception it raises. */
  type Stamp = (string, Table) -> Result<Table>

  /** Entry e is read and stamped without an exception. */
  predicate Loads(e: FileEntry, stamp: Stamp) {
    e.content.Some? && stamp(e.name, e.content.value).Success?
  }

  /** The exception of an entry that does not load. */
  function LoadError(e: FileEntry, stamp: Stamp): Error
    requires !Loads(e, stamp)
  {
    if e.content.None? then UnreadableFile(e.name) else stamp(e.name, e.content.value).error
  }

  /**
   * The list the loop builds: every frame, stamped, in listing order; or
   * the exception of the first entry that does not load.
   */
  function LoadAll(entries: seq<FileEntry>, stamp: Stamp): (r: Result<seq<Table>>)
    ensures r.Success? <==> forall i | 0 <= i < |entries| :: Loads(entries[i], stamp)
    ensures r.Success? ==>
              |r.value| == |entries| && forall i | 0 <= i < |entries| :: r.value[i] == stamp(entries[i].name, entries[i].content.value).value
    ensures r.Failure? ==> exists i | 0 <= i < |entries| ::
              !Loads(entries[i], stamp) && r.error == LoadError(entries[i], stamp) &&
              forall j | 0 <= j < i :: Loads(entries[j], stamp)
    decreases |entries|
  {
    if entries == [] then Success([])
    else
      var n := |entries| - 1;
      var init, e := entries[..n], entries[n];
      assert forall i | 0 <= i < n :: init[i] == entries[i];
      match LoadAll(init, stamp)
      case Failure(err) => Failure(err)
      case Success(ts) =>
        if !Loads(e, stamp) then Failure(LoadError(e, stamp))
        else Success(ts + [stamp(e.name, e.content.value).value])
  }

  /** A failure before the last entry is the failure of the whole listing. */
  lemma LoadAllFailed(entries: seq<FileEntry>, stamp: Stamp)
    requires entries != [] && LoadAll(entries[..|entries| - 1], stamp).Failure?
    ensures LoadAll(entries, stamp) == LoadAll(entries[..|entries| - 1], stamp)
  {
  }

  /** Once a prefix of the listing fails, the rest of the listing is not read. */
  lemma {:induction false} LoadAllPrefix(entries: seq<FileEntry>, n: nat, stamp: Stamp)
    requires n <= |entries| && LoadAll(entries[..n], stamp).Failure?
    ensures LoadAll(entries, stamp) == LoadAll(entries[..n], stamp)
  {
    var j := n;
    while j < |entries|
      invariant n <= j <= |entries|
      invariant LoadAll(entries[..j], stamp) == LoadAll(entries[..n], stamp)
    {
      assert entries[..j + 1][..j] == entries[..j];
      LoadAllFailed(entries[..j + 1], stamp);
      j := j + 1;
    }
    assert entries[..j] == entries;
  }

  /** `for file in files: df = pd.read_csv(file); <stamp>; df_list.append(df)`. */
  method LoadLoop(entries: seq<FileEntry>, stamp: Stamp) returns (r: Result<seq<Table>>)
    ensures r == LoadAll(entries, stamp)
  {
    var frames: seq<Table> := [];
    var i := 0;
    while i < |entries|
      invariant 0 <= i <= |entries|
      invariant LoadAll(entries[..i], stamp) == Success(frames)
    {
      var e := entries[i];
      assert entries[..i + 1][..i] == entries[..i] && entries[..i + 1][i] == e;
      if e.content.None? {
        LoadAllPrefix(entries, i + 1, stamp);
        return Failure(UnreadableFile(e.name));
      }
      var s := stamp(e.name, e.content.value);
      if s.Failure? {
        LoadAllPrefix(entries, i + 1, stamp);
        return Failure(s.error);
      }
      frames := frames + [s.value];
      i := i + 1;
    }
    assert entries[..i] == entries;
    r := Success(frames);
  }

  /** pd.concat(df_list): a ValueError on an empty list. */
  function Concat(frames: seq<Table>): (r: Result<Table>)
    ensures frames == [] <==> r == Failure(NothingToConcatenate)
    ensures frames != [] ==> r == Success(ConcatAll(frames))
  {
    if frames == [] then Failure(NothingToConcatenate) else Success(ConcatAll(frames))
  }

  // ------------------------------------------------------------- stamps

  /** df['periodo'] = label. */
  function WithPeriod(t: Table, period: string): (r: Table)
    ensures r.columns == if "periodo" in t.columns then t.columns else t.columns + ["periodo"]
    ensures |r.rows| == |t.rows|
    ensures forall k | 0 <= k < |t.rows| :: r.rows[k] == t.rows[k]["periodo" := Text(period)]
    ensures Valid(t) ==> Valid(r)
  {
    WithColumn(t, "periodo", Fill(|t.rows|, Text(period)))
  }

  /** The concat seen from cell c of row k of a stamped frame. */
  lemma StampedConcatCell(ts: seq<Table>, t: Table, period: string, i: nat, k: nat, c: string)
    requires Valid(t)
    requires i < |ts| && ts[i] == WithPeriod(t, period) && k < |t.rows|
    ensures RowsBefore(ts, i) + k < |ConcatAll(ts).rows|
    ensures Get(ConcatAll(ts).rows[RowsBefore(ts, i) + k], c) == if c == "periodo" then Text(period) else Get(t.rows[k], c)
  {
    StampedCell(ts[i], t, period, k, c);
    ConcatAllCell(ts, i, k, c);
  }

  /** Cell c of row k of a stamped frame; the stamped row fits the stamped frame. */
  lemma StampedCell(s: Table, t: Table, period: string, k: nat, c: string)
    requires Valid(t)
    requires s == WithPeriod(t, period) && k < |t.rows|
    ensures k < |s.rows|
    ensures Get(s.rows[k], c) == if c == "periodo" then Text(period) else Get(t.rows[k], c)
    ensures forall x | x in s.rows[k] :: x in s.columns
  {
    assert t.rows[k] in t.rows;
  }

  /** `if file in quarters: df['periodo'] = quarters[file]`: unknown names are left unstamped. */
  function QuarterIfKnown(name: string, t: Table): (r: Result<Table>)
    ensures r.Success?
    ensures name in Quarters ==> r.value == WithPeriod(t, Quarters[name])
    ensures name !in Quarters ==> r.value == t
  {
    Success(if name in Quarters then WithPeriod(t, Quarters[name]) else t)
  }

  /** `df['periodo'] = quarters[file]`: a KeyError on an unknown name. */
  function QuarterOrFail(name: string, t: Table): (r: Result<Table>)
    ensures r.Success? <==> name in Quarters
    ensures r.Success? ==> r.value == WithPeriod(t, Quarters[name])
    ensures r.Failure? ==> r.error == UnknownFileName(name)
  {
    if name in Quarters then Success(WithPeriod(t, Quarters[name])) else Failure(UnknownFileName(name))
  }

  /** `df['periodo'] = extract_period_from_filename(filename)`. */
  function PeriodFromName(name: string, t: Table): (r: Result<Table>)
    ensures r.Success? && r.value == WithPeriod(t, PeriodLabel(name))
  {
    Success(WithPeriod(t, PeriodLabel(name)))
  }

  /** Only an unreadable file stops the lenient quarter stamp. */
  lemma QuarterIfKnownLoads(entries: seq<FileEntry>)
    ensures LoadAll(entries, QuarterIfKnown).Success? <==> forall i | 0 <= i < |entries| :: entries[i].content.Some?
  {
  }

  /** With the strict stamp, a listing of readable files fails exactly when some name is not a known quarter. */
  lemma QuarterOrFailLoads(entries: seq<FileEntry>)
    requires forall i | 0 <= i < |entries| :: entries[i].content.Some?
    ensures LoadAll(entries, QuarterOrFail).Failure? <==> exists i | 0 <= i < |entries| :: entries[i].name !in Quarters
    ensures LoadAll(entries, QuarterOrFail).Failure? ==> LoadAll(entries, QuarterOrFail).error.UnknownFileName?
  {
    var r := LoadAll(entries, QuarterOrFail);
    if r.Failure? {
      var i :| 0 <= i < |entries| && !Loads(entries[i], QuarterOrFail) && r.error == LoadError(entries[i], QuarterOrFail);
    }
  }

  /** `[f for f in os.listdir(d) if f.endswith('.csv')]`, in listing order. */
  function CsvFiles(entries: seq<FileEntry>): (r: seq<FileEntry>)
    ensures forall e :: e in r <==> e in entries && EndsWith(e.name, ".csv")
  {
    SelectFiles(entries, (n: string) => EndsWith(n, ".csv"))
  }

  // ---------------------------------------------------------- unification

  /** The tables of a listing whose every entry is readable. */
  function Contents(entries: seq<FileEntry>): (ts: seq<Table>)
    requires forall i | 0 <= i < |entries| :: entries[i].content.Some?
    ensures |ts| == |entries| && forall i | 0 <= i < |entries| :: ts[i] == entries[i].content.value
  {
    seq(|entries|, i requires 0 <= i < |entries| => entries[i].content.value)
  }

  /**
   * The CSV files of a listing read and stamped, concatenated, and with
   * blank cells turned into NaN; a FileNotFoundError when the listing
   * has no CSV file.
   */
  function Unified(listing: seq<FileEntry>, stamp: Stamp): (r: Result<Table>)
    ensures CsvFiles(listing) == [] ==> r == Failure(NoInputFiles)
    ensures CsvFiles(listing) != [] ==> (r.Success? <==> LoadAll(CsvFiles(listing), stamp).Success?)
    ensures CsvFiles(listing) != [] && r.Failure? ==> r.error == LoadAll(CsvFiles(listing), stamp).error
    ensures r.Success? ==> r.value == NormalizeBlanks(ConcatAll(LoadAll(CsvFiles(listing), stamp).value))
  {
    var files := CsvFiles(listing);
    if files == [] then Failure(NoInputFiles)
    else match LoadAll(files, stamp)
      case Failure(e) => Failure(e)
      case Success(frames) => Success(NormalizeBlanks(ConcatAll(frames)))
  }

  /** What the lenient stamp with quarter table q makes of a row of file name. */
  function StampedRow(q: map<string, string>, name: string, row: Row): Row {
    if name in q then row["periodo" := Text(q[name])] else row
  }

  /** The frames the lenient stamp with quarter table q makes of readable files. */
  function LenientFrames(q: map<string, string>, files: seq<FileEntry>): (frames: seq<Table>)
    requires forall j | 0 <= j < |files| :: files[j].content.Some?
    ensures |frames| == |files|
    ensures forall j | 0 <= j < |files| ::
              |frames[j].rows| == |files[j].content.value.rows| && (Valid(files[j].content.value) ==> Valid(frames[j]))
    ensures forall j, k | 0 <= j < |files| && 0 <= k < |files[j].content.value.rows| ::
              frames[j].rows[k] == StampedRow(q, files[j].name, files[j].content.value.rows[k])
  {
    seq(|files|, j requires 0 <= j < |files| =>
      var t := files[j].content.value;
      if files[j].name in q then WithPeriod(t, q[files[j].name]) else t)
  }

  /** The lenient stamp fails on no readable file, and stamps with the six-quarter table. */
  lemma LenientLoads(files: seq<FileEntry>)
    requires forall j | 0 <= j < |files| :: files[j].content.Some?
    ensures LoadAll(files, QuarterIfKnown) == Success(LenientFrames(Quarters, files))
  {
    QuarterIfKnownLoads(files);
  }

  /** The readable CSV files of a listing whose unification succeeds. */
  lemma UnifiedReadable(listing: seq<FileEntry>, stamp: Stamp)
    requires Unified(listing, stamp).Success?
    ensures forall j | 0 <= j < |CsvFiles(listing)| :: CsvFiles(listing)[j].content.Some?
  {
    var files := CsvFiles(listing);
    forall j | 0 <= j < |files| ensures files[j].content.Some? {
      assert Loads(files[j], stamp);
    }
  }

  /**
   * With the lenient stamp, the row count of the unified frame is the sum
   * of the row counts of the CSV files.
   */
  lemma {:induction false} UnifiedRowCount(listing: seq<FileEntry>)
    requires forall e | e in listing && e.content.Some? :: Valid(e.content.value)
    requires Unified(listing, QuarterIfKnown).Success?
    ensures forall j | 0 <= j < |CsvFiles(listing)| :: CsvFiles(listing)[j].content.Some?
    ensures |Unified(listing, QuarterIfKnown).value.rows| == RowsBefore(Contents(CsvFiles(listing)), |CsvFiles(listing)|)
  {
    UnifiedLenient(listing);
    var files := CsvFiles(listing);
    NormalizedConcatRowCount(LenientFrames(Quarters, files), Contents(files));
  }

  /** With the lenient stamp, a unification that succeeds is the concat of the lenient frames. */
  lemma UnifiedLenient(listing: seq<FileEntry>)
    requires forall e | e in listing && e.content.Some? :: Valid(e.content.value)
    requires Unified(listing, QuarterIfKnown).Success?
    ensures forall j | 0 <= j < |CsvFiles(listing)| ::
              CsvFiles(listing)[j].content.Some? && Valid(CsvFiles(listing)[j].content.value)
    ensures Unified(listing, QuarterIfKnown).value == NormalizeBlanks(ConcatAll(LenientFrames(Quarters, CsvFiles(listing))))
  {
    var files := CsvFiles(listing);
    UnifiedReadable(listing, QuarterIfKnown);
    assert forall j | 0 <= j < |files| :: files[j] in listing;
    LenientLoads(files);
  }
}
