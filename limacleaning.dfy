/**
 * lima/data_cleaning_script.py: every `lima_filtered_*.csv` file of the
 * working folder is cleaned (blank cells to NaN; the first `fa_` column
 * coerced and renamed `factor_expansion`; each sentinel column coerced,
 * then stripped of its codes), written under its `lima_cleaned_` name,
 * and removed. A file that fails is reported and the loop goes on.
 */
module LimaCleaning {
  import opened Common
  import opened Strings
  import opened Frame
  import opened Factors
  import opened Sanitize
  import opened LimaFiles

  // ------------------------------------------------------------ one frame

  /**
   * Step 2: the first fa_ column coerced to numbers (a non-number becomes
   * NaN, not 0) and renamed factor_expansion in place; without an fa_
   * column the frame is as it was.
   */
  function WithFactor(t: Table): (r: Table)
    ensures |r.rows| == |t.rows|
    ensures FactorColumns(t) == [] ==> r == t
    ensures FactorColumns(t) != [] ==>
              var fa := FactorColumns(t)[0];
              |r.columns| == |t.columns| &&
              (forall i | 0 <= i < |t.columns| :: r.columns[i] == if t.columns[i] == fa then "factor_expansion" else t.columns[i]) &&
              forall k | 0 <= k < |t.rows| ::
                Get(r.rows[k], "factor_expansion") == ToNumeric(Get(t.rows[k], fa)) &&
                forall c | c != fa && c != "factor_expansion" :: Get(r.rows[k], c) == Get(t.rows[k], c)
  {
    var fas := FactorColumns(t);
    if fas == [] then t
    else RenameColumn(MapColumn(t, fas[0], ToNumeric), fas[0], "factor_expansion")
  }

  /** The column the script renames is the first fa_ column in column order. */
  lemma FirstFactor(t: Table)
    requires FactorColumns(t) != []
    ensures exists i | 0 <= i < |t.columns| :: t.columns[i] == FactorColumns(t)[0] && StartsWith(t.columns[i], "fa_") &&
              forall j | 0 <= j < i :: !StartsWith(t.columns[j], "fa_")
  {
    SelectNamesHead(t.columns, (c: string) => StartsWith(c, "fa_"));
  }

  /** Steps 1 to 3 on one file's frame. */
  function LimaCleaned(t: Table): (r: Table)
    ensures |r.rows| == |t.rows|
    ensures r.columns == WithFactor(NormalizeBlanks(t)).columns
  {
    ColumnsMapped(WithFactor(NormalizeBlanks(t)), SentinelCodes.Keys, Sanitized)
  }

  /** No sentinel column is an fa_ column or factor_expansion. */
  lemma SentinelsAreNotFactors()
    ensures forall c | c in SentinelCodes :: |c| > 0 && c[0] != 'f'
  {
  }

  /** A cell after the weight step. */
  lemma {:induction false} WithFactorCell(t: Table, k: nat, c: string)
    requires k < |t.rows|
    ensures k < |WithFactor(t).rows|
    ensures var fas := FactorColumns(t);
            Get(WithFactor(t).rows[k], c) ==
              if fas != [] && c == "factor_expansion" then ToNumeric(Get(t.rows[k], fas[0]))
              else if fas != [] && c == fas[0] then Missing
              else Get(t.rows[k], c)
  {
    var fas := FactorColumns(t);
    if fas != [] {
      var fa := fas[0];
      assert fa in fas;
      NotTheWeight(fa);
      if c == fa {
        var u := MapColumn(t, fa, ToNumeric);
        assert WithFactor(t) == RenameColumn(u, fa, "factor_expansion");
        RenamedAway(u, fa, "factor_expansion", k);
      }
    }
  }

  /** An fa_ label is never factor_expansion: they differ at the third letter. */
  lemma NotTheWeight(fa: string)
    requires StartsWith(fa, "fa_")
    ensures fa != "factor_expansion"
  {
    assert fa[..3][2] == '_' != "factor_expansion"[2];
  }

  /** The weight step leaves the labels that begin with another letter where they were. */
  lemma {:induction false} WithFactorLabels(t: Table, c: string)
    requires |c| > 0 && c[0] != 'f'
    ensures c in WithFactor(t).columns <==> c in t.columns
  {
    var fas := FactorColumns(t);
    if fas != [] {
      var fa := fas[0];
      assert fa in fas && StartsWith(fa, "fa_") && fa[0] == 'f';
      RenamedLabels(t.columns, WithFactor(t).columns, fa, "factor_expansion", c);
    }
  }

  /** The cell rule of the three steps, for any column map that spares the f-labels. */
  lemma {:induction false} CleanedWithCell(t: Table, cols: set<string>, f: (string, Cell) -> Cell, k: nat, c: string)
    requires forall x | x in cols :: |x| > 0 && x[0] != 'f'
    requires k < |t.rows|
    ensures k < |ColumnsMapped(WithFactor(NormalizeBlanks(t)), cols, f).rows|
    ensures var b := BlankToMissing(Get(t.rows[k], c));
            var fas := FactorColumns(t);
            Get(ColumnsMapped(WithFactor(NormalizeBlanks(t)), cols, f).rows[k], c) ==
              if c in cols && c in t.columns then f(c, b)
              else if fas != [] && c == "factor_expansion" then ToNumeric(BlankToMissing(Get(t.rows[k], fas[0])))
              else if fas != [] && c == fas[0] then Missing
              else b
  {
    var n := NormalizeBlanks(t);
    assert FactorColumns(n) == FactorColumns(t);
    WithFactorCell(n, k, c);
    if c in cols {
      WithFactorLabels(n, c);
      assert c != "factor_expansion";
      assert FactorColumns(t) != [] ==> c != FactorColumns(t)[0] by {
        if FactorColumns(t) != [] {
          assert FactorColumns(t)[0] in FactorColumns(t);
        }
      }
    }
  }

  /**
   * A cell of a cleaned frame: a present sentinel column holds its blank-
   * normalised cell coerced and stripped of its codes; factor_expansion
   * holds the coerced first fa_ cell, whose old label is gone; every other
   * cell is its blank-normalised self.
   */
  lemma LimaCleanedCell(t: Table, k: nat, c: string)
    requires k < |t.rows|
    ensures k < |LimaCleaned(t).rows|
    ensures var b := BlankToMissing(Get(t.rows[k], c));
            var fas := FactorColumns(t);
            Get(LimaCleaned(t).rows[k], c) ==
              if c in SentinelCodes && c in t.columns then CoerceThenReplace(b, SentinelCodes[c])
              else if fas != [] && c == "factor_expansion" then ToNumeric(BlankToMissing(Get(t.rows[k], fas[0])))
              else if fas != [] && c == fas[0] then Missing
              else b
  {
    SentinelsAreNotFactors();
    CleanedWithCell(t, SentinelCodes.Keys, Sanitized, k, c);
  }

  /** Cleaning a cleaned frame again leaves the sentinel step with nothing to do. */
  lemma SentinelStepIdempotent(t: Table)
    ensures ColumnsMapped(LimaCleaned(t), SentinelCodes.Keys, Sanitized) == LimaCleaned(t)
  {
    SanitizeTwiceIsOnce(WithFactor(NormalizeBlanks(t)));
  }

  /** The per-file body of the loop: replace, rename, the codes loop. */
  method CleanFile(t: Table) returns (r: Table)
    ensures r == LimaCleaned(t)
  {
    var df := NormalizeBlanks(t);
    var fas := FactorColumns(df);
    if fas != [] {
      df := MapColumn(df, fas[0], ToNumeric);
      df := RenameColumn(df, fas[0], "factor_expansion");
    }
    r := MapColumns(df, SentinelCodes.Keys, Sanitized);
  }

  // ------------------------------------------------------------ file names

  /** `filename.replace('lima_filtered_', 'lima_cleaned_')`. */
  function CleanName(n: string): string {
    ReplaceAll(n, FilteredPrefix, CleanedPrefix)
  }

  /** A filtered name whose prefix occurs nowhere else in it. */
  predicate PlainFiltered(n: string) {
    StartsWith(n, FilteredPrefix) && !Occurs(n[|FilteredPrefix|..], FilteredPrefix)
  }

  /** Such a name is cleaned by swapping its prefix, so the new name is a cleaned one. */
  lemma CleanNameOf(n: string)
    requires PlainFiltered(n)
    ensures CleanName(n) == CleanedPrefix + n[|FilteredPrefix|..]
    ensures IsCleaned(CleanName(n)) && !StartsWith(CleanName(n), FilteredPrefix)
  {
    var rest := n[|FilteredPrefix|..];
    assert n == FilteredPrefix + rest;
    ReplaceLeadingPrefix(FilteredPrefix, rest, CleanedPrefix);
    assert (CleanedPrefix + rest)[..|CleanedPrefix|] == CleanedPrefix;
    PrefixesDiffer(CleanName(n));
  }

  /** Two such names are cleaned into two names. */
  lemma CleanNameInjective(a: string, b: string)
    requires PlainFiltered(a) && PlainFiltered(b) && a != b
    ensures CleanName(a) != CleanName(b)
  {
    CleanNameOf(a);
    CleanNameOf(b);
    var ra, rb := a[|FilteredPrefix|..], b[|FilteredPrefix|..];
    assert a == FilteredPrefix + ra && b == FilteredPrefix + rb;
  }

  // ------------------------------------------------------------ the folder

  datatype CleanReport = Cleaned(source: string, target: string) | CleanFailed(name: string)

  /** One iteration: a file read_csv fails on is reported; any other is cleaned, written and removed. */
  function CleanStep(f: Folder, n: string): (r: (Folder, CleanReport))
  {
    match Read(f, n)
    case None => (f, CleanFailed(n))
    case Some(t) => (Removed(Written(f, CleanName(n), LimaCleaned(t)), n), Cleaned(n, CleanName(n)))
  }

  /** What one iteration does to each file of the folder. */
  lemma CleanStepRead(f: Folder, n: string, x: string)
    requires PlainFiltered(n)
    ensures CleanStep(f, n).1 == if Read(f, n).Some? then Cleaned(n, CleanName(n)) else CleanFailed(n)
    ensures Read(CleanStep(f, n).0, x) ==
              if Read(f, n).Some? && x == n then None
              else if Read(f, n).Some? && x == CleanName(n) then Some(LimaCleaned(Read(f, n).value))
              else Read(f, x)
  {
    CleanNameOf(n);
    assert CleanName(n) != n;
  }

  /** The loop over the listed files, in listing order. */
  function CleanAll(f: Folder, ns: seq<string>): (r: Run<CleanReport>)
    ensures |r.reports| == |ns|
    decreases |ns|
  {
    if ns == [] then Run(f, [])
    else
      var before := CleanAll(f, ns[..|ns| - 1]);
      var (g, report) := CleanStep(before.folder, ns[|ns| - 1]);
      Run(g, before.reports + [report])
  }

  /**
   * The script: it stops when the folder has no `lima_filtered_*.csv`
   * file, and otherwise runs the loop over those files.
   */
  function Cleaning(f: Folder, listing: seq<string>): (r: Result<Run<CleanReport>>)
    ensures SelectNames(listing, IsFilteredCsv) == [] <==> r == Failure(NoInputFiles)
    ensures r.Success? ==> r.value == CleanAll(f, SelectNames(listing, IsFilteredCsv))
  {
    var files := SelectNames(listing, IsFilteredCsv);
    if files == [] then Failure(NoInputFiles) else Success(CleanAll(f, files))
  }

  /** What the loop leaves under a name: the listed files are gone; any name outside both families is untouched. */
  lemma {:induction false} CleanAllRead(f: Folder, ns: seq<string>, x: string)
    requires forall n | n in ns :: PlainFiltered(n)
    ensures x in ns ==> Read(CleanAll(f, ns).folder, x).None?
    ensures x !in ns && !IsCleaned(x) ==> Read(CleanAll(f, ns).folder, x) == Read(f, x)
    decreases |ns|
  {
    if ns != [] {
      var m := |ns| - 1;
      var init, last := ns[..m], ns[m];
      var before := CleanAll(f, init);
      assert CleanAll(f, ns).folder == CleanStep(before.folder, last).0;
      assert x in ns <==> x in init || x == last by { assert ns == init + [last]; }
      assert forall n | n in init :: n in ns;
      CleanAllRead(f, init, x);
      CleanNameOf(last);
      if x in ns { PrefixesDiffer(x); }
      CleanStepRead(before.folder, last, x);
    }
  }

  /** Over distinct filtered names, each readable file's cleaned frame ends under its cleaned name. */
  lemma {:induction false} CleanAllOutput(f: Folder, ns: seq<string>, i: nat)
    requires Distinct(ns) && forall n | n in ns :: PlainFiltered(n)
    requires i < |ns| && Read(f, ns[i]).Some?
    ensures Read(CleanAll(f, ns).folder, CleanName(ns[i])) == Some(LimaCleaned(Read(f, ns[i]).value))
    decreases |ns|
  {
    var m := |ns| - 1;
    var init, last := ns[..m], ns[m];
    DistinctInit(ns);
    var before := CleanAll(f, init);
    CleanAllLast(f, ns);
    if i < m {
      CleanAllOutput(f, init, i);
      CleanNameOf(ns[i]);
      CleanNameInjective(ns[i], last);
      CleanStepRead(before.folder, last, CleanName(ns[i]));
    } else {
      PrefixesDiffer(last);
      CleanAllRead(f, init, last);
      CleanStepRead(before.folder, last, CleanName(last));
    }
  }

  /** The loop's last iteration: its report follows the earlier ones. */
  lemma CleanAllLast(f: Folder, ns: seq<string>)
    requires ns != []
    ensures var before := CleanAll(f, ns[..|ns| - 1]);
            var (g, report) := CleanStep(before.folder, ns[|ns| - 1]);
            CleanAll(f, ns).folder == g &&
            (forall i | 0 <= i < |ns| - 1 :: CleanAll(f, ns).reports[i] == before.reports[i]) &&
            CleanAll(f, ns).reports[|ns| - 1] == report
  {
  }

  /** Over distinct filtered names, each file gets its own report and a failure does not stop the others. */
  lemma {:induction false} CleanAllReport(f: Folder, ns: seq<string>, i: nat)
    requires Distinct(ns) && forall n | n in ns :: PlainFiltered(n)
    requires i < |ns|
    ensures CleanAll(f, ns).reports[i] == if Read(f, ns[i]).Some? then Cleaned(ns[i], CleanName(ns[i])) else CleanFailed(ns[i])
    decreases |ns|
  {
    var m := |ns| - 1;
    var init, last := ns[..m], ns[m];
    DistinctInit(ns);
    CleanAllLast(f, ns);
    if i < m {
      CleanAllReport(f, init, i);
    } else {
      PrefixesDiffer(last);
      CleanAllRead(f, init, last);
      CleanStepRead(CleanAll(f, init).folder, last, last);
    }
  }

  /**
   * Over distinct filtered names: every file is reported, cleaned or
   * failed, and a failure does not stop the others; every listed file is
   * gone and each readable one's cleaned frame sits under its cleaned name;
   * a filtered file outside the list, and any file outside both name
   * families, is untouched.
   */
  lemma CleanAllOutcome(f: Folder, ns: seq<string>)
    requires Distinct(ns) && forall n | n in ns :: PlainFiltered(n)
    ensures forall i | 0 <= i < |ns| :: CleanAll(f, ns).reports[i] ==
              if Read(f, ns[i]).Some? then Cleaned(ns[i], CleanName(ns[i])) else CleanFailed(ns[i])
    ensures forall i | 0 <= i < |ns| :: Read(CleanAll(f, ns).folder, ns[i]).None?
    ensures forall i | 0 <= i < |ns| && Read(f, ns[i]).Some? ::
              Read(CleanAll(f, ns).folder, CleanName(ns[i])) == Some(LimaCleaned(Read(f, ns[i]).value))
    ensures forall x | x !in ns && !IsCleaned(x) :: Read(CleanAll(f, ns).folder, x) == Read(f, x)
  {
    forall i | 0 <= i < |ns| ensures Read(CleanAll(f, ns).folder, ns[i]).None? {
      CleanAllRead(f, ns, ns[i]);
    }
    forall i | 0 <= i < |ns| ensures CleanAll(f, ns).reports[i] ==
        if Read(f, ns[i]).Some? then Cleaned(ns[i], CleanName(ns[i])) else CleanFailed(ns[i]) {
      CleanAllReport(f, ns, i);
    }
    forall i | 0 <= i < |ns| && Read(f, ns[i]).Some?
      ensures Read(CleanAll(f, ns).folder, CleanName(ns[i])) == Some(LimaCleaned(Read(f, ns[i]).value)) {
      CleanAllOutput(f, ns, i);
    }
    forall x | x !in ns && !IsCleaned(x) ensures Read(CleanAll(f, ns).folder, x) == Read(f, x) {
      CleanAllRead(f, ns, x);
    }
  }

  /** The try block of one iteration. */
  method CleanOne(f: Folder, n: string) returns (g: Folder, report: CleanReport)
    ensures (g, report) == CleanStep(f, n)
  {
    match Read(f, n) {
      case None =>
        g, report := f, CleanFailed(n);
      case Some(t) =>
        var cleaned := CleanFile(t);
        g := Removed(Written(f, CleanName(n), cleaned), n);
        report := Cleaned(n, CleanName(n));
    }
  }

  /** The script, file by file. */
  method CleanFolder(f: Folder, listing: seq<string>) returns (r: Result<Run<CleanReport>>)
    ensures r == Cleaning(f, listing)
  {
    var files := SelectNames(listing, IsFilteredCsv);
    if files == [] {
      return Failure(NoInputFiles);
    }
    var g := f;
    var reports: seq<CleanReport> := [];
    var i := 0;
    while i < |files|
      invariant 0 <= i <= |files|
      invariant CleanAll(f, files[..i]) == Run(g, reports)
    {
      assert files[..i + 1][..i] == files[..i];
      var report;
      g, report := CleanOne(g, files[i]);
      reports := reports + [report];
      assert CleanAll(f, files[..i + 1]) == Run(g, reports);
      i := i + 1;
    }
    assert files[..i] == files;
    r := Success(Run(g, reports));
  }
}
