/**
 * The directories the Lima scripts work in. A folder maps each file name
 * to its contents, None for a file read_csv fails on; a name that is not
 * a key does not exist. The listing os.listdir returns is a separate
 * sequence of names. The analysis scripts share one loading loop: read
 * the sorted cleaned files, stamp each frame with the period its name
 * encodes, and concatenate.
 */
module LimaFiles {
  import opened Common
  import opened Strings
  import opened Frame
  import opened Periods
  import opened Load

  type Folder = map<string, Option<Table>>

  /** read_csv on a file of the folder: a missing file is unreadable too. */
  function Read(f: Folder, name: string): Option<Table> {
    if name in f then f[name] else None
  }

  /** The folder with one file (re)written. */
  function Written(f: Folder, name: string, t: Table): (g: Folder)
    ensures Read(g, name) == Some(t)
    ensures forall n | n != name :: Read(g, n) == Read(f, n)
  {
    f[name := Some(t)]
  }

  /** The folder with one file removed. */
  function Removed(f: Folder, name: string): (g: Folder)
    ensures name !in g && Read(g, name) == None
    ensures forall n | n != name :: Read(g, n) == Read(f, n)
  {
    f - {name}
  }

  /** The directory entries of the listed names, in listing order. */
  function Entries(f: Folder, names: seq<string>): (es: seq<FileEntry>)
    ensures |es| == |names|
    ensures forall i | 0 <= i < |names| :: es[i] == FileEntry(names[i], Read(f, names[i]))
  {
    seq(|names|, i requires 0 <= i < |names| => FileEntry(names[i], Read(f, names[i])))
  }

  const FilteredPrefix := "lima_filtered_"
  const CleanedPrefix := "lima_cleaned_"

  predicate IsCsv(n: string) {
    EndsWith(n, ".csv")
  }

  predicate IsCleaned(n: string) {
    StartsWith(n, CleanedPrefix)
  }

  predicate IsCleanedCsv(n: string) {
    IsCleaned(n) && IsCsv(n)
  }

  predicate IsFilteredCsv(n: string) {
    StartsWith(n, FilteredPrefix) && IsCsv(n)
  }

  /** A filtered name is never a cleaned one: the prefixes differ at their sixth letter. */
  lemma PrefixesDiffer(n: string)
    ensures !(StartsWith(n, FilteredPrefix) && StartsWith(n, CleanedPrefix))
  {
    if StartsWith(n, FilteredPrefix) {
      assert n[..|CleanedPrefix|][5] == 'f' != CleanedPrefix[5];
    }
  }

  /** `sorted([f for f in os.listdir(d) if p(f)])`. */
  function Selected(names: seq<string>, p: string -> bool): (r: seq<string>)
    ensures Sorted(r)
    ensures forall x :: x in r <==> x in names && p(x)
  {
    var s := SelectNames(names, p);
    var r := Sort(s);
    assert forall x :: x in r <==> x in multiset(s);
    r
  }

  /** The contents of readable files, in order. */
  function Tables(f: Folder, files: seq<string>): (ts: seq<Table>)
    requires forall n | n in files :: Read(f, n).Some?
    ensures |ts| == |files| && forall i | 0 <= i < |files| :: ts[i] == Read(f, files[i]).value
  {
    seq(|files|, i requires 0 <= i < |files| => Read(f, files[i]).value)
  }

  /** Each readable file's frame with `periodo` set to period(its name). */
  function Stamped(f: Folder, files: seq<string>, period: string -> string): (ts: seq<Table>)
    requires forall n | n in files :: Read(f, n).Some?
    ensures |ts| == |files|
  {
    seq(|files|, i requires 0 <= i < |files| => WithPeriod(Read(f, files[i]).value, period(files[i])))
  }

  /** Reading and stamping the listed files fails exactly at an unreadable one. */
  lemma LimaLoads(f: Folder, files: seq<string>)
    ensures var r := LoadAll(Entries(f, files), PeriodFromName);
            (r.Success? <==> forall n | n in files :: Read(f, n).Some?) &&
            (r.Success? ==> r.value == Stamped(f, files, PeriodLabel)) &&
            (r.Failure? ==> exists n | n in files :: Read(f, n).None? && r.error == UnreadableFile(n))
  {
    var es := Entries(f, files);
    var r := LoadAll(es, PeriodFromName);
    if r.Failure? {
      var i :| 0 <= i < |es| && !Loads(es[i], PeriodFromName) && r.error == LoadError(es[i], PeriodFromName);
      assert files[i] in files;
    } else {
      forall n | n in files ensures Read(f, n).Some? {
        var i :| 0 <= i < |files| && files[i] == n;
        assert Loads(es[i], PeriodFromName);
      }
    }
  }

  /**
   * The loading loop of the Lima analysis scripts over the sorted files
   * that satisfy p: the first unreadable file raises; an empty selection
   * reaches pd.concat with nothing and raises there; otherwise the stamped
   * frames are concatenated in sorted order.
   */
  function LimaMaster(f: Folder, names: seq<string>, p: string -> bool): (r: Result<Table>)
    ensures Selected(names, p) == [] ==> r == Failure(NothingToConcatenate)
    ensures r.Success? <==> Selected(names, p) != [] && forall n | n in Selected(names, p) :: Read(f, n).Some?
    ensures Selected(names, p) != [] && r.Failure? ==>
              exists n | n in Selected(names, p) :: Read(f, n).None? && r.error == UnreadableFile(n)
    ensures r.Success? ==> r.value == ConcatAll(Stamped(f, Selected(names, p), PeriodLabel))
  {
    var files := Selected(names, p);
    LimaLoads(f, files);
    match LoadAll(Entries(f, files), PeriodFromName)
    case Failure(e) => Failure(e)
    case Success(ts) => Concat(ts)
  }

  /**
   * The row count of a loaded master frame is the sum of the selected
   * files' row counts.
   */
  lemma LimaMasterRowCount(f: Folder, names: seq<string>, p: string -> bool)
    requires LimaMaster(f, names, p).Success?
    ensures forall n | n in Selected(names, p) :: Read(f, n).Some?
    ensures |LimaMaster(f, names, p).value.rows| == RowsBefore(Tables(f, Selected(names, p)), |Selected(names, p)|)
  {
    var files := Selected(names, p);
    RowsBeforeSame(Stamped(f, files, PeriodLabel), Tables(f, files), |files|);
  }

  /** `for f in files: df = pd.read_csv(f); df['periodo'] = ...; df_list.append(df)`, then the concat. */
  method LoadLima(f: Folder, names: seq<string>, p: string -> bool) returns (r: Result<Table>)
    ensures r == LimaMaster(f, names, p)
  {
    var files := Selected(names, p);
    var frames := LoadLoop(Entries(f, files), PeriodFromName);
    if frames.Failure? {
      return Failure(frames.error);
    }
    r := Concat(frames.value);
  }

  /** What a folder loop leaves behind: the folder and one report per file. */
  datatype Run<R> = Run(folder: Folder, reports: seq<R>)
}
