/**
 * lima/verify_consistency.py: the column lists of the sorted cleaned
 * files are compared with the first one read, and the values of four
 * categorical variables are gathered across files. Both checks only
 * report; nothing is written.
 */
module Consistency {
  import opened Common
  import opened Strings
  import opened Frame
  import opened LimaFiles

  const CategoricalVars: seq<string> := ["C207", "C310", "C366", "OCUP300"]

  // ------------------------------------------------------------ columns

  datatype ColumnCheck =
    | ReferenceSet(name: string, count: nat)
    | Consistent(name: string)
    | Different(name: string, missing: seq<string>, added: seq<string>, orderOnly: bool)
    | ReadError(name: string)

  /**
   * One file against the reference list: consistent exactly when the two
   * lists are equal, order included; otherwise the sorted labels it lacks,
   * the sorted labels it adds, and whether only the order differs.
   */
  function Compare(n: string, reference: seq<string>, current: seq<string>): (r: ColumnCheck)
    ensures r.Consistent? <==> current == reference
    ensures r.Consistent? || r.Different?
    ensures r.Different? ==> r.name == n && Sorted(r.missing) && Sorted(r.added)
    ensures r.Different? ==> forall x :: x in r.missing <==> x in reference && x !in current
    ensures r.Different? ==> forall x :: x in r.added <==> x in current && x !in reference
    ensures r.Different? ==> (r.orderOnly <==> r.missing == [] && r.added == [])
    ensures r.Different? ==> (r.orderOnly <==> forall x :: x in current <==> x in reference)
  {
    if current == reference then Consistent(n)
    else
      var missing := SortedKeys(SelectNames(reference, x => x !in current));
      var added := SortedKeys(SelectNames(current, x => x !in reference));
      assert (missing == [] && added == []) <==> forall x :: x in current <==> x in reference by {
        if missing != [] {
          assert missing[0] in missing;
        }
        if added != [] {
          assert added[0] in added;
        }
      }
      Different(n, missing, added, missing == [] && added == [])
  }

  /** One iteration: a reading error, the first readable header, or a comparison with it. */
  function ColumnStep(reference: Option<seq<string>>, o: Option<Table>, n: string): (r: (Option<seq<string>>, ColumnCheck))
    ensures reference.Some? ==> r.0 == reference
    ensures o.None? ==> r == (reference, ReadError(n))
  {
    match o
    case None => (reference, ReadError(n))
    case Some(t) =>
      match reference
      case None => (Some(t.columns), ReferenceSet(n, |t.columns|))
      case Some(cols) => (reference, Compare(n, cols, t.columns))
  }

  predicate Passed(c: ColumnCheck) {
    c.ReferenceSet? || c.Consistent?
  }

  datatype ColumnPass = ColumnPass(reference: Option<seq<string>>, consistent: bool, reports: seq<ColumnCheck>)

  /** The column loop over the files in order. */
  function ColumnsChecked(f: Folder, files: seq<string>): (r: ColumnPass)
    ensures |r.reports| == |files|
    decreases |files|
  {
    if files == [] then ColumnPass(None, true, [])
    else
      var before := ColumnsChecked(f, files[..|files| - 1]);
      var (reference, check) := ColumnStep(before.reference, Read(f, files[|files| - 1]), files[|files| - 1]);
      ColumnPass(reference, before.consistent && Passed(check), before.reports + [check])
  }

  /** The first readable file's header, if any file is readable. */
  function FirstReadable(f: Folder, files: seq<string>): Option<seq<string>>
    decreases |files|
  {
    if files == [] then None
    else
      match FirstReadable(f, files[..|files| - 1])
      case Some(cols) => Some(cols)
      case None => if Read(f, files[|files| - 1]).Some? then Some(Read(f, files[|files| - 1]).value.columns) else None
  }

  /**
   * The reference is absent exactly when no file is readable; otherwise
   * it is the header of a readable file with no readable file before it.
   */
  lemma {:induction false} FirstReadableIsFirst(f: Folder, files: seq<string>)
    ensures var r := FirstReadable(f, files);
            (r.None? <==> forall n | n in files :: Read(f, n).None?) &&
            (r.Some? ==> exists i | 0 <= i < |files| :: Read(f, files[i]).Some? && r.value == Read(f, files[i]).value.columns &&
                           forall j | 0 <= j < i :: Read(f, files[j]).None?)
    decreases |files|
  {
    if files != [] {
      var i := |files| - 1;
      var init := files[..i];
      FirstReadableIsFirst(f, init);
      assert files == init + [files[i]];
      assert forall j | 0 <= j < i :: files[j] == init[j];
    }
  }

  /** The reference is the header of the first readable file in sorted order. */
  lemma {:induction false} ColumnsReference(f: Folder, files: seq<string>)
    ensures ColumnsChecked(f, files).reference == FirstReadable(f, files)
    decreases |files|
  {
    if files != [] {
      ColumnsReference(f, files[..|files| - 1]);
    }
  }

  /** The verdict is false exactly when some file differed from the reference or could not be read. */
  lemma {:induction false} ColumnsVerdict(f: Folder, files: seq<string>)
    ensures ColumnsChecked(f, files).consistent <==> forall i | 0 <= i < |files| :: Passed(ColumnsChecked(f, files).reports[i])
    decreases |files|
  {
    if files != [] {
      var m := |files| - 1;
      var before := ColumnsChecked(f, files[..m]);
      var r := ColumnsChecked(f, files);
      ColumnsVerdict(f, files[..m]);
      assert r.reports == before.reports + [r.reports[m]];
      assert r.consistent == (before.consistent && Passed(r.reports[m]));
      assert forall i | 0 <= i < m :: r.reports[i] == before.reports[i];
    }
  }

  /** Each report follows from its own file and the reference read before it. */
  lemma {:induction false} ColumnsReport(f: Folder, files: seq<string>, i: nat)
    requires i < |files|
    ensures ColumnsChecked(f, files).reports[i] == ColumnStep(FirstReadable(f, files[..i]), Read(f, files[i]), files[i]).1
    decreases |files|
  {
    var m := |files| - 1;
    var init := files[..m];
    ColumnsCheckedLast(f, files);
    if i < m {
      ColumnsReport(f, init, i);
      assert init[..i] == files[..i] && init[i] == files[i];
    } else {
      ColumnsReference(f, init);
    }
  }

  /** The last file's report follows the reports of the others. */
  lemma ColumnsCheckedLast(f: Folder, files: seq<string>)
    requires files != []
    ensures var m := |files| - 1;
            var before := ColumnsChecked(f, files[..m]);
            ColumnsChecked(f, files).reports == before.reports + [ColumnStep(before.reference, Read(f, files[m]), files[m]).1]
  {
  }

  /** A file that is read after the reference is consistent exactly when its header equals the reference. */
  lemma ConsistentIff(f: Folder, files: seq<string>, i: nat)
    requires i < |files| && Read(f, files[i]).Some? && FirstReadable(f, files[..i]).Some?
    ensures ColumnsChecked(f, files).reports[i].Consistent? <==> Read(f, files[i]).value.columns == FirstReadable(f, files[..i]).value
    ensures FirstReadable(f, files[..i]) == FirstReadable(f, files)
  {
    ColumnsReport(f, files, i);
    ReferenceKept(f, files, i);
  }

  /** Once set, the reference does not change. */
  lemma {:induction false} ReferenceKept(f: Folder, files: seq<string>, i: nat)
    requires i <= |files| && FirstReadable(f, files[..i]).Some?
    ensures FirstReadable(f, files) == FirstReadable(f, files[..i])
  {
    var n := i;
    while n < |files|
      invariant i <= n <= |files| && FirstReadable(f, files[..n]) == FirstReadable(f, files[..i])
    {
      assert files[..n + 1][..n] == files[..n];
      FirstReadableKept(f, files[..n + 1]);
      n := n + 1;
    }
    assert files[..n] == files;
  }

  /** A reference found among all but the last file is the reference of all of them. */
  lemma FirstReadableKept(f: Folder, files: seq<string>)
    requires files != [] && FirstReadable(f, files[..|files| - 1]).Some?
    ensures FirstReadable(f, files) == FirstReadable(f, files[..|files| - 1])
  {
  }

  /** The column part of the script, with its flag. */
  method CheckColumns(f: Folder, files: seq<string>) returns (r: ColumnPass)
    ensures r == ColumnsChecked(f, files)
  {
    var reference: Option<seq<string>> := None;
    var consistent := true;
    var reports: seq<ColumnCheck> := [];
    var i := 0;
    while i < |files|
      invariant 0 <= i <= |files|
      invariant ColumnsChecked(f, files[..i]) == ColumnPass(reference, consistent, reports)
    {
      assert files[..i + 1][..i] == files[..i];
      var check;
      match Read(f, files[i]) {
        case None =>
          consistent := false;
          check := ReadError(files[i]);
        case Some(t) =>
          if reference.None? {
            reference := Some(t.columns);
            check := ReferenceSet(files[i], |t.columns|);
          } else if t.columns != reference.value {
            consistent := false;
            check := Compare(files[i], reference.value, t.columns);
          } else {
            check := Consistent(files[i]);
          }
      }
      reports := reports + [check];
      assert ColumnsChecked(f, files[..i + 1]) == ColumnPass(reference, consistent, reports);
      i := i + 1;
    }
    assert files[..i] == files;
    r := ColumnPass(reference, consistent, reports);
  }

  // ------------------------------------------------------------ categories

  /** `set(df[var].dropna().unique())` of one frame. */
  function Values(t: Table, v: string): (s: set<Cell>)
    ensures forall x :: x in s <==> !x.Missing? && exists k | 0 <= k < |t.rows| :: Get(t.rows[k], v) == x
  {
    set k | 0 <= k < |t.rows| && !Get(t.rows[k], v).Missing? :: Get(t.rows[k], v)
  }

  /** read_csv with usecols=[v] succeeds when the file reads and has the column. */
  predicate HasVar(o: Option<Table>, v: string) {
    o.Some? && v in o.value.columns
  }

  datatype CategoryCheck = CategoryCheck(variable: string, values: set<Cell>, consistent: bool)

  /** The inner loop for one variable: the union of the values, false after any read error. */
  function Gathered(f: Folder, v: string, files: seq<string>): (r: CategoryCheck)
    ensures r.variable == v
    decreases |files|
  {
    if files == [] then CategoryCheck(v, {}, true)
    else
      var before := Gathered(f, v, files[..|files| - 1]);
      var o := Read(f, files[|files| - 1]);
      if HasVar(o, v) then CategoryCheck(v, before.values + Values(o.value, v), before.consistent)
      else CategoryCheck(v, before.values, false)
  }

  /**
   * The check fails only on a file it cannot read the variable from,
   * never on the values; the values are the non-missing cells of the
   * variable across the files that have it.
   */
  lemma {:induction false} GatheredFacts(f: Folder, v: string, files: seq<string>)
    ensures Gathered(f, v, files).consistent <==> forall n | n in files :: HasVar(Read(f, n), v)
    ensures forall x :: x in Gathered(f, v, files).values <==>
              exists n | n in files && HasVar(Read(f, n), v) :: x in Values(Read(f, n).value, v)
    decreases |files|
  {
    if files != [] {
      var m := |files| - 1;
      var init, last := files[..m], files[m];
      assert files == init + [last];
      GatheredFacts(f, v, init);
      forall x | x in Gathered(f, v, files).values
        ensures exists n | n in files && HasVar(Read(f, n), v) :: x in Values(Read(f, n).value, v)
      {
        if x in Gathered(f, v, init).values {
          var n :| n in init && HasVar(Read(f, n), v) && x in Values(Read(f, n).value, v);
          assert n in files;
        } else {
          assert x in Values(Read(f, last).value, v);
        }
      }
      forall x | exists n | n in files && HasVar(Read(f, n), v) :: x in Values(Read(f, n).value, v)
        ensures x in Gathered(f, v, files).values
      {
        var n :| n in files && HasVar(Read(f, n), v) && x in Values(Read(f, n).value, v);
        if n != last {
          assert n in init;
        }
      }
    }
  }

  /** The outer loop over the variables, with the overall flag. */
  function CategoriesChecked(f: Folder, files: seq<string>, vars: seq<string>): (r: (bool, seq<CategoryCheck>))
    ensures |r.1| == |vars| && forall i | 0 <= i < |vars| :: r.1[i] == Gathered(f, vars[i], files)
    ensures r.0 <==> forall i | 0 <= i < |vars| :: r.1[i].consistent
  {
    var checks := seq(|vars|, i requires 0 <= i < |vars| => Gathered(f, vars[i], files));
    (forall i | 0 <= i < |vars| :: checks[i].consistent, checks)
  }

  /** `for filename in cleaned_files:` for one variable. */
  method GatherValues(f: Folder, v: string, files: seq<string>) returns (r: CategoryCheck)
    ensures r == Gathered(f, v, files)
  {
    var values: set<Cell> := {};
    var consistent := true;
    var i := 0;
    while i < |files|
      invariant 0 <= i <= |files|
      invariant Gathered(f, v, files[..i]) == CategoryCheck(v, values, consistent)
    {
      assert files[..i + 1][..i] == files[..i];
      var o := Read(f, files[i]);
      if HasVar(o, v) {
        values := values + Values(o.value, v);
      } else {
        consistent := false;
      }
      i := i + 1;
    }
    assert files[..i] == files;
    r := CategoryCheck(v, values, consistent);
  }

  /** `for var in CATEGORICAL_VARS_TO_CHECK:`. */
  method CheckCategories(f: Folder, files: seq<string>, vars: seq<string>) returns (ok: bool, checks: seq<CategoryCheck>)
    ensures (ok, checks) == CategoriesChecked(f, files, vars)
  {
    ok := true;
    checks := [];
    var i := 0;
    while i < |vars|
      invariant 0 <= i <= |vars| && |checks| == i
      invariant forall j | 0 <= j < i :: checks[j] == Gathered(f, vars[j], files)
      invariant ok <==> forall j | 0 <= j < i :: checks[j].consistent
    {
      var check := GatherValues(f, vars[i], files);
      checks := checks + [check];
      ok := ok && check.consistent;
      i := i + 1;
    }
    assert checks == CategoriesChecked(f, files, vars).1;
  }

  // ------------------------------------------------------------ the script

  datatype Verification = Verification(columns: ColumnPass, categoriesConsistent: bool, categories: seq<CategoryCheck>)

  /** The script: it exits without sorted cleaned files, and otherwise runs both checks over them. */
  function Verified(f: Folder, listing: seq<string>): (r: Result<Verification>)
    ensures Selected(listing, IsCleanedCsv) == [] <==> r == Failure(NoInputFiles)
    ensures r.Success? ==> r.value.columns == ColumnsChecked(f, Selected(listing, IsCleanedCsv))
    ensures r.Success? ==> (r.value.categoriesConsistent, r.value.categories) == CategoriesChecked(f, Selected(listing, IsCleanedCsv), CategoricalVars)
  {
    var files := Selected(listing, IsCleanedCsv);
    if files == [] then Failure(NoInputFiles)
    else
      var (ok, checks) := CategoriesChecked(f, files, CategoricalVars);
      Success(Verification(ColumnsChecked(f, files), ok, checks))
  }

  /** Both checks in the script's order. */
  method VerifyConsistency(f: Folder, listing: seq<string>) returns (r: Result<Verification>)
    ensures r == Verified(f, listing)
  {
    var files := Selected(listing, IsCleanedCsv);
    if files == [] {
      return Failure(NoInputFiles);
    }
    var columns := CheckColumns(f, files);
    var ok, checks := CheckCategories(f, files, CategoricalVars);
    r := Success(Verification(columns, ok, checks));
  }
}
