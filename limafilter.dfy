/**
 * lima/filter_script.py and lima/verify_filter.py: every CSV file of the
 * source folder that has a REGION column is written to the output folder
 * as `lima_filtered_<name>`, holding only the Lima Metropolitana rows
 * (REGION == 1); the verification script recounts those rows in each
 * source and compares the count with the filtered file's length.
 */
module LimaFilter {
  import opened Common
  import opened Strings
  import opened Frame
  import opened LimaFiles

  /** `df['REGION'] == 1`: only a numeric 1 matches. */
  predicate IsLima(row: Row) {
    NumEq(Get(row, "REGION"), 1.0)
  }

  /** `f"lima_filtered_{filename}"`. */
  function FilteredName(n: string): (r: string)
    ensures StartsWith(r, FilteredPrefix) && r[|FilteredPrefix|..] == n
  {
    var r := FilteredPrefix + n;
    assert r[..|FilteredPrefix|] == FilteredPrefix;
    r
  }

  /** `df[df['REGION'] == 1].copy()`: the Lima rows in their order, every column kept. */
  function LimaRows(t: Table): (r: Table)
    ensures r.columns == t.columns && r.rows == Filter(t.rows, IsLima)
    ensures forall x :: x in r.rows <==> x in t.rows && NumEq(Get(x, "REGION"), 1.0)
  {
    FilterRows(t, IsLima)
  }

  /** Distinct sources get distinct output names. */
  lemma FilteredNameInjective(a: string, b: string)
    requires FilteredName(a) == FilteredName(b)
    ensures a == b
  {
    assert a == FilteredName(a)[|FilteredPrefix|..];
  }

  // ------------------------------------------------------------ filtering

  datatype FilterReport =
    | Saved(name: string, target: string, count: nat)
    | NoRegion(name: string)
    | FilterFailed(name: string)

  /** One iteration: read, check for REGION, filter and save. */
  function FilterStep(src: Folder, out: Folder, n: string): (r: (Folder, FilterReport))
  {
    match Read(src, n)
    case None => (out, FilterFailed(n))
    case Some(t) =>
      if "REGION" in t.columns then
        var lima := LimaRows(t);
        (Written(out, FilteredName(n), lima), Saved(n, FilteredName(n), |lima.rows|))
      else (out, NoRegion(n))
  }

  /** The report of one iteration, from the source file alone; the count is the saved frame's length. */
  function FilterExpected(o: Option<Table>, n: string): (r: FilterReport)
    ensures r.Saved? <==> o.Some? && "REGION" in o.value.columns
    ensures r.Saved? ==> r.name == n && r.target == FilteredName(n) && r.count == |Filter(o.value.rows, IsLima)|
  {
    match o
    case None => FilterFailed(n)
    case Some(t) => if "REGION" in t.columns then Saved(n, FilteredName(n), |LimaRows(t).rows|) else NoRegion(n)
  }

  /** The loop over the source CSV files, in listing order. */
  function FilterAll(src: Folder, out: Folder, ns: seq<string>): (r: Run<FilterReport>)
    ensures |r.reports| == |ns|
    decreases |ns|
  {
    if ns == [] then Run(out, [])
    else
      var before := FilterAll(src, out, ns[..|ns| - 1]);
      var (g, report) := FilterStep(src, before.folder, ns[|ns| - 1]);
      Run(g, before.reports + [report])
  }

  /** The script: it exits when the source folder has no CSV file. */
  function Filtering(src: Folder, out: Folder, listing: seq<string>): (r: Result<Run<FilterReport>>)
    ensures SelectNames(listing, IsCsv) == [] <==> r == Failure(NoInputFiles)
    ensures r.Success? ==> r.value == FilterAll(src, out, SelectNames(listing, IsCsv))
  {
    var files := SelectNames(listing, IsCsv);
    if files == [] then Failure(NoInputFiles) else Success(FilterAll(src, out, files))
  }

  /** What the loop leaves under an output name: each REGION file's Lima rows, and nothing else changed. */
  lemma {:induction false} FilterAllRead(src: Folder, out: Folder, ns: seq<string>, x: string)
    ensures !StartsWith(x, FilteredPrefix) ==> Read(FilterAll(src, out, ns).folder, x) == Read(out, x)
    ensures StartsWith(x, FilteredPrefix) ==>
              var n := x[|FilteredPrefix|..];
              Read(FilterAll(src, out, ns).folder, x) ==
                if n in ns && Read(src, n).Some? && "REGION" in Read(src, n).value.columns then Some(LimaRows(Read(src, n).value))
                else Read(out, x)
    decreases |ns|
  {
    if ns != [] {
      var m := |ns| - 1;
      var init, last := ns[..m], ns[m];
      assert ns == init + [last];
      var before := FilterAll(src, out, init);
      assert FilterAll(src, out, ns).folder == FilterStep(src, before.folder, last).0;
      FilterAllRead(src, out, init, x);
      if x == FilteredName(last) {
        assert x[|FilteredPrefix|..] == last;
      }
    }
  }

  /** Each report follows from its own source file, and a failure does not stop the rest. */
  lemma {:induction false} FilterAllReport(src: Folder, out: Folder, ns: seq<string>, i: nat)
    requires i < |ns|
    ensures FilterAll(src, out, ns).reports[i] == FilterExpected(Read(src, ns[i]), ns[i])
    decreases |ns|
  {
    var m := |ns| - 1;
    var before := FilterAll(src, out, ns[..m]);
    assert FilterAll(src, out, ns).reports == before.reports + [FilterStep(src, before.folder, ns[m]).1];
    if i < m {
      FilterAllReport(src, out, ns[..m], i);
    }
  }

  /** The try block of one iteration. */
  method FilterOne(src: Folder, out: Folder, n: string) returns (g: Folder, report: FilterReport)
    ensures (g, report) == FilterStep(src, out, n)
  {
    var df := Read(src, n);
    if df.None? {
      return out, FilterFailed(n);
    }
    if "REGION" !in df.value.columns {
      return out, NoRegion(n);
    }
    var lima := FilterRows(df.value, IsLima);
    g := Written(out, FilteredName(n), lima);
    report := Saved(n, FilteredName(n), |lima.rows|);
  }

  /** The filter script, file by file. */
  method FilterFolder(src: Folder, out: Folder, listing: seq<string>) returns (r: Result<Run<FilterReport>>)
    ensures r == Filtering(src, out, listing)
  {
    var files := SelectNames(listing, IsCsv);
    if files == [] {
      return Failure(NoInputFiles);
    }
    var g := out;
    var reports: seq<FilterReport> := [];
    var i := 0;
    while i < |files|
      invariant 0 <= i <= |files|
      invariant FilterAll(src, out, files[..i]) == Run(g, reports)
    {
      assert files[..i + 1][..i] == files[..i];
      var report;
      g, report := FilterOne(src, g, files[i]);
      reports := reports + [report];
      assert FilterAll(src, out, files[..i + 1]) == Run(g, reports);
      i := i + 1;
    }
    assert files[..i] == files;
    r := Success(Run(g, reports));
  }

  // ------------------------------------------------------------ verifying

  datatype FilterCheck =
    | Skipped(name: string)
    | MissingOutput(name: string)
    | CountsMatch(name: string, count: nat)
    | CountsDiffer(name: string, expected: nat, found: nat)
    | CheckFailed(name: string)

  /**
   * One iteration of the verification: an unreadable source or filtered
   * file fails, a source without REGION is skipped, an absent filtered file
   * fails, and otherwise the Lima row count of the source must equal the
   * filtered file's row count.
   */
  function CheckOne(src: Folder, out: Folder, n: string): (r: FilterCheck)
    ensures r.Skipped? <==> Read(src, n).Some? && "REGION" !in Read(src, n).value.columns
    ensures r.MissingOutput? <==> Read(src, n).Some? && "REGION" in Read(src, n).value.columns && FilteredName(n) !in out
    ensures r.CountsMatch? <==> (Read(src, n).Some? && "REGION" in Read(src, n).value.columns &&
              Read(out, FilteredName(n)).Some? && |Filter(Read(src, n).value.rows, IsLima)| == |Read(out, FilteredName(n)).value.rows|)
  {
    match Read(src, n)
    case None => CheckFailed(n)
    case Some(t) =>
      if "REGION" !in t.columns then Skipped(n)
      else if FilteredName(n) !in out then MissingOutput(n)
      else
        match Read(out, FilteredName(n))
        case None => CheckFailed(n)
        case Some(filtered) =>
          var expected := |LimaRows(t).rows|;
          if expected == |filtered.rows| then CountsMatch(n, expected)
          else CountsDiffer(n, expected, |filtered.rows|)
  }

  predicate CheckPassed(c: FilterCheck) {
    c.Skipped? || c.CountsMatch?
  }

  datatype FilterVerdict = FilterVerdict(passed: bool, checks: seq<FilterCheck>)

  /** The verification loop; the final verdict is the conjunction of the files' checks. */
  function FilterVerified(src: Folder, out: Folder, ns: seq<string>): (r: FilterVerdict)
    ensures |r.checks| == |ns| && forall i | 0 <= i < |ns| :: r.checks[i] == CheckOne(src, out, ns[i])
    ensures r.passed <==> forall i | 0 <= i < |ns| :: CheckPassed(r.checks[i])
  {
    var checks := seq(|ns|, i requires 0 <= i < |ns| => CheckOne(src, out, ns[i]));
    FilterVerdict(forall i | 0 <= i < |ns| :: CheckPassed(checks[i]), checks)
  }

  /** The verification script: it exits when the source folder has no CSV file. */
  function VerifyingFilter(src: Folder, out: Folder, listing: seq<string>): (r: Result<FilterVerdict>)
    ensures SelectNames(listing, IsCsv) == [] <==> r == Failure(NoInputFiles)
    ensures r.Success? ==> r.value == FilterVerified(src, out, SelectNames(listing, IsCsv))
  {
    var files := SelectNames(listing, IsCsv);
    if files == [] then Failure(NoInputFiles) else Success(FilterVerified(src, out, files))
  }

  /** The verification script, file by file, with its `all_checks_passed` flag. */
  method VerifyFilter(src: Folder, out: Folder, listing: seq<string>) returns (r: Result<FilterVerdict>)
    ensures r == VerifyingFilter(src, out, listing)
  {
    var files := SelectNames(listing, IsCsv);
    if files == [] {
      return Failure(NoInputFiles);
    }
    var passed := true;
    var checks: seq<FilterCheck> := [];
    var i := 0;
    while i < |files|
      invariant 0 <= i <= |files| && |checks| == i
      invariant forall j | 0 <= j < i :: checks[j] == CheckOne(src, out, files[j])
      invariant passed <==> forall j | 0 <= j < i :: CheckPassed(checks[j])
    {
      var check := CheckOne(src, out, files[i]);
      checks := checks + [check];
      passed := passed && CheckPassed(check);
      i := i + 1;
    }
    assert checks == FilterVerified(src, out, files).checks;
    r := Success(FilterVerdict(passed, checks));
  }

  /**
   * The two scripts agree: verifying what the filter wrote passes exactly
   * when every source CSV file could be read.
   */
  lemma FilterThenVerify(src: Folder, out: Folder, listing: seq<string>)
    requires Filtering(src, out, listing).Success?
    ensures var written := Filtering(src, out, listing).value.folder;
            VerifyingFilter(src, written, listing).Success? &&
            (VerifyingFilter(src, written, listing).value.passed <==>
               forall n | n in SelectNames(listing, IsCsv) :: Read(src, n).Some?)
  {
    var files := SelectNames(listing, IsCsv);
    var written := FilterAll(src, out, files).folder;
    forall i | 0 <= i < |files| ensures CheckPassed(CheckOne(src, written, files[i])) <==> Read(src, files[i]).Some? {
      var n := files[i];
      var x := FilteredName(n);
      FilterAllRead(src, out, files, x);
      assert x[|FilteredPrefix|..] == n;
      if Read(src, n).Some? && "REGION" in Read(src, n).value.columns {
        assert Read(written, x) == Some(LimaRows(Read(src, n).value));
      }
    }
    var v := FilterVerified(src, written, files);
    if v.passed {
      forall n | n in files ensures Read(src, n).Some? {
        var i :| 0 <= i < |files| && files[i] == n;
        assert CheckPassed(v.checks[i]);
      }
    }
  }
}
