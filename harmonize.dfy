/**
 * lima/harmonize_columns.py: the header of a fixed reference file is the
 * canonical column order; every cleaned file of the folder whose column
 * list differs is replaced by its projection on that order. A file the
 * projection fails on is reported and left as it was.
 */
module Harmonize {
  import opened Common
  import opened Strings
  import opened Frame
  import opened LimaFiles

  const ReferenceName := "lima_cleaned_Trim Abr-May-Jun24.csv"

  datatype HarmonizeReport =
    | AlreadyCanonical(name: string)
    | Harmonized(name: string)
    | HarmonizeFailed(name: string, error: Error)

  /**
   * What the script writes over a readable file: nothing when its columns
   * already are the canonical list or when a canonical column is missing;
   * otherwise a frame whose columns are exactly the canonical list and
   * whose rows keep their values by label, the other columns dropped.
   */
  function Rewrite(t: Table, canon: seq<string>): (r: Option<Table>)
    ensures r.None? <==> t.columns == canon || exists c | c in canon :: c !in t.columns
    ensures r.Some? ==> r.value.columns == canon && |r.value.rows| == |t.rows|
    ensures r.Some? ==> forall k, c | 0 <= k < |t.rows| ::
              Get(r.value.rows[k], c) == if c in canon then Get(t.rows[k], c) else Missing
  {
    if t.columns == canon then None
    else
      match Project(t, canon)
      case Failure(_) => None
      case Success(p) => Some(p)
  }

  /** A rewritten file is canonical, so it is not rewritten again. */
  lemma RewriteSettles(t: Table, canon: seq<string>)
    requires Rewrite(t, canon).Some?
    ensures Rewrite(Rewrite(t, canon).value, canon) == None
  {
  }

  /** The body of the loop for one file. */
  function HarmonizeStep(f: Folder, canon: seq<string>, n: string): (r: (Folder, HarmonizeReport))
  {
    match Read(f, n)
    case None => (f, HarmonizeFailed(n, UnreadableFile(n)))
    case Some(t) =>
      if t.columns == canon then (f, AlreadyCanonical(n))
      else
        match Project(t, canon)
        case Failure(e) => (f, HarmonizeFailed(n, e))
        case Success(p) => (Written(f, n, p), Harmonized(n))
  }

  /** The file each step rewrites, and only that one. */
  lemma HarmonizeStepRead(f: Folder, canon: seq<string>, n: string, x: string)
    ensures Read(HarmonizeStep(f, canon, n).0, x) ==
              if x == n && Read(f, n).Some? && Rewrite(Read(f, n).value, canon).Some? then Rewrite(Read(f, n).value, canon)
              else Read(f, x)
  {
  }

  /** The report of one step, from the file it reads. */
  function Expected(o: Option<Table>, canon: seq<string>, n: string): HarmonizeReport {
    match o
    case None => HarmonizeFailed(n, UnreadableFile(n))
    case Some(t) =>
      if t.columns == canon then AlreadyCanonical(n)
      else if Rewrite(t, canon).Some? then Harmonized(n)
      else HarmonizeFailed(n, Project(t, canon).error)
  }

  /** Each step reports what Expected says of the file it reads. */
  lemma HarmonizeStepReport(f: Folder, canon: seq<string>, n: string)
    ensures HarmonizeStep(f, canon, n).1 == Expected(Read(f, n), canon, n)
  {
  }

  /** The loop over the cleaned files, in listing order. */
  function HarmonizeAll(f: Folder, canon: seq<string>, ns: seq<string>): (r: Run<HarmonizeReport>)
    ensures |r.reports| == |ns|
    decreases |ns|
  {
    if ns == [] then Run(f, [])
    else
      var before := HarmonizeAll(f, canon, ns[..|ns| - 1]);
      var (g, report) := HarmonizeStep(before.folder, canon, ns[|ns| - 1]);
      Run(g, before.reports + [report])
  }

  /**
   * The script: a failure to read the reference header ends it (the
   * FileNotFoundError and the generic handler alike); otherwise the loop
   * runs over the cleaned CSV files of the listing.
   */
  function Harmonizing(f: Folder, listing: seq<string>): (r: Result<Run<HarmonizeReport>>)
    ensures Read(f, ReferenceName).None? <==> r == Failure(UnreadableFile(ReferenceName))
    ensures r.Success? ==> r.value == HarmonizeAll(f, Read(f, ReferenceName).value.columns, SelectNames(listing, IsCleanedCsv))
  {
    match Read(f, ReferenceName)
    case None => Failure(UnreadableFile(ReferenceName))
    case Some(reference) => Success(HarmonizeAll(f, reference.columns, SelectNames(listing, IsCleanedCsv)))
  }

  /** Over distinct names, a file ends as its rewrite when it has one and as it was otherwise. */
  lemma {:induction false} HarmonizeAllRead(f: Folder, canon: seq<string>, ns: seq<string>, x: string)
    requires Distinct(ns)
    ensures Read(HarmonizeAll(f, canon, ns).folder, x) ==
              if x in ns && Read(f, x).Some? && Rewrite(Read(f, x).value, canon).Some? then Rewrite(Read(f, x).value, canon)
              else Read(f, x)
    decreases |ns|
  {
    if ns != [] {
      var m := |ns| - 1;
      var init, last := ns[..m], ns[m];
      assert ns == init + [last];
      assert forall j | 0 <= j < m :: init[j] == ns[j];
      assert Distinct(init) && last !in init;
      var before := HarmonizeAll(f, canon, init);
      assert HarmonizeAll(f, canon, ns).folder == HarmonizeStep(before.folder, canon, last).0;
      HarmonizeAllRead(f, canon, init, x);
      HarmonizeAllRead(f, canon, init, last);
      HarmonizeStepRead(before.folder, canon, last, x);
    }
  }

  /** Over distinct names, each file's report follows from that file alone, and a failure does not stop the rest. */
  lemma {:induction false} HarmonizeAllReport(f: Folder, canon: seq<string>, ns: seq<string>, i: nat)
    requires Distinct(ns) && i < |ns|
    ensures HarmonizeAll(f, canon, ns).reports[i] == Expected(Read(f, ns[i]), canon, ns[i])
    decreases |ns|
  {
    var m := |ns| - 1;
    var init, last := ns[..m], ns[m];
    assert ns == init + [last];
    assert forall j | 0 <= j < m :: init[j] == ns[j];
    assert Distinct(init) && last !in init;
    var before := HarmonizeAll(f, canon, init);
    assert HarmonizeAll(f, canon, ns).reports == before.reports + [HarmonizeStep(before.folder, canon, last).1];
    if i < m {
      HarmonizeAllReport(f, canon, init, i);
    } else {
      HarmonizeAllRead(f, canon, init, last);
      HarmonizeStepReport(before.folder, canon, last);
    }
  }

  /**
   * After the loop every listed file that was readable and had every
   * canonical column has exactly the canonical columns, its rows keeping
   * their values by label.
   */
  lemma HarmonizedColumns(f: Folder, canon: seq<string>, ns: seq<string>, x: string)
    requires Distinct(ns) && x in ns && Read(f, x).Some?
    requires forall c | c in canon :: c in Read(f, x).value.columns
    ensures var after := Read(HarmonizeAll(f, canon, ns).folder, x);
            after.Some? && after.value.columns == canon && |after.value.rows| == |Read(f, x).value.rows|
    ensures var after := Read(HarmonizeAll(f, canon, ns).folder, x);
            forall k, c | 0 <= k < |Read(f, x).value.rows| && c in canon ::
              Get(after.value.rows[k], c) == Get(Read(f, x).value.rows[k], c)
  {
    HarmonizeAllRead(f, canon, ns, x);
  }

  /** A second run over the same names rewrites nothing. */
  lemma HarmonizeTwice(f: Folder, canon: seq<string>, ns: seq<string>, x: string)
    requires Distinct(ns)
    ensures var once := HarmonizeAll(f, canon, ns).folder;
            Read(HarmonizeAll(once, canon, ns).folder, x) == Read(once, x)
  {
    var once := HarmonizeAll(f, canon, ns).folder;
    HarmonizeAllRead(f, canon, ns, x);
    HarmonizeAllRead(once, canon, ns, x);
    if x in ns && Read(f, x).Some? && Rewrite(Read(f, x).value, canon).Some? {
      RewriteSettles(Read(f, x).value, canon);
    }
  }

  /** The reference file itself is always reported as already canonical. */
  lemma ReferenceUntouched(f: Folder, listing: seq<string>, i: nat)
    requires Distinct(listing) && Harmonizing(f, listing).Success?
    requires i < |SelectNames(listing, IsCleanedCsv)| && SelectNames(listing, IsCleanedCsv)[i] == ReferenceName
    ensures Harmonizing(f, listing).value.reports[i] == AlreadyCanonical(ReferenceName)
  {
    HarmonizeAllReport(f, Read(f, ReferenceName).value.columns, SelectNames(listing, IsCleanedCsv), i);
  }

  /** The try block of one iteration. */
  method HarmonizeOne(f: Folder, canon: seq<string>, n: string) returns (g: Folder, report: HarmonizeReport)
    ensures (g, report) == HarmonizeStep(f, canon, n)
  {
    g := f;
    var read := Read(f, n);
    if read.None? {
      return f, HarmonizeFailed(n, UnreadableFile(n));
    }
    var df := read.value;
    if df.columns == canon {
      return f, AlreadyCanonical(n);
    }
    var harmonized := Project(df, canon);
    if harmonized.Failure? {
      return f, HarmonizeFailed(n, harmonized.error);
    }
    g := Written(f, n, harmonized.value);
    report := Harmonized(n);
  }

  /** The script, file by file. */
  method HarmonizeFolder(f: Folder, listing: seq<string>) returns (r: Result<Run<HarmonizeReport>>)
    ensures r == Harmonizing(f, listing)
  {
    var reference := Read(f, ReferenceName);
    if reference.None? {
      return Failure(UnreadableFile(ReferenceName));
    }
    var canon := reference.value.columns;
    var files := SelectNames(listing, IsCleanedCsv);
    var g := f;
    var reports: seq<HarmonizeReport> := [];
    var i := 0;
    while i < |files|
      invariant 0 <= i <= |files|
      invariant HarmonizeAll(f, canon, files[..i]) == Run(g, reports)
    {
      assert files[..i + 1][..i] == files[..i];
      var report;
      g, report := HarmonizeOne(g, canon, files[i]);
      reports := reports + [report];
      assert HarmonizeAll(f, canon, files[..i + 1]) == Run(g, reports);
      i := i + 1;
    }
    assert files[..i] == files;
    r := Success(Run(g, reports));
  }
}
