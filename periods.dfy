/**
 * The two ways the scripts label a survey quarter from the name of its
 * extract: a fixed six-entry table (the loaders under 01_scripts,
 * process_data.py and 05_dashboard) and the regular expression
 * `Trim ([A-Za-z-]+)(\d{2})` with a five-entry month map (every script
 * under lima/, identical in each copy).
 */
module Periods {
  import opened Common
  import opened Strings

  /** The fixed `quarters` table. */
  const Quarters: map<string, string> := map[
    "Trim Ene-Feb-Mar24.csv" := "2024-Q1", "Trim Abr-May-Jun24.csv" := "2024-Q2",
    "Trim Jul-Ago-Set24.csv" := "2024-Q3", "Trim Set-Oct-Nov24.csv" := "2024-Q4",
    "Trim Ene-Feb-Mar25.csv" := "2025-Q1", "Trim Mar-Abr-May25.csv" := "2025-Q2"]

  /** The `month_map` of the regex parser; 'Mar-Abr-May' is Q2, like 'Abr-May-Jun'. */
  const MonthMap: map<string, string> := map[
    "Ene-Feb-Mar" := "Q1", "Abr-May-Jun" := "Q2", "Jul-Ago-Set" := "Q3",
    "Set-Oct-Nov" := "Q4", "Mar-Abr-May" := "Q2"]

  const Unknown := "Periodo_Desconocido"

  /** `month_map.get(months, 'Q_Unk')`. */
  function QuarterOfMonths(months: string): (q: string)
    ensures months in MonthMap ==> q == MonthMap[months]
    ensures months !in MonthMap ==> q == "Q_Unk"
  {
    if months in MonthMap then MonthMap[months] else "Q_Unk"
  }

  /** The character class `[A-Za-z-]`. */
  predicate IsMonthChar(ch: char) {
    ('A' <= ch <= 'Z') || ('a' <= ch <= 'z') || ch == '-'
  }

  /** Where the greedy `[A-Za-z-]+` starting at i stops. */
  function RunEnd(s: string, i: nat): (j: nat)
    requires i <= |s|
    ensures i <= j <= |s|
    ensures forall k | i <= k < j :: IsMonthChar(s[k])
    ensures j < |s| ==> !IsMonthChar(s[j])
    decreases |s| - i
  {
    if i < |s| && IsMonthChar(s[i]) then RunEnd(s, i + 1) else i
  }

  /**
   * The match of the pattern starting exactly at i, as (months, year).
   * `\d{2}` cannot match a character of the month class, so backtracking
   * the greedy group never helps: the group is the maximal run.
   */
  function MatchAt(s: string, i: nat): (m: Option<(string, string)>)
    requires i <= |s|
    ensures m.Some? ==> OccursAt(s, "Trim ", i) && |m.value.1| == 2 && AllDigits(m.value.1) && m.value.0 != []
  {
    if i + 5 <= |s| && s[i..i + 5] == "Trim " then
      var j := RunEnd(s, i + 5);
      if j > i + 5 && j + 2 <= |s| && IsDigit(s[j]) && IsDigit(s[j + 1])
      then Some((s[i + 5..j], s[j..j + 2]))
      else None
    else None
  }

  /** re.search from position i: the leftmost match. */
  function SearchFrom(s: string, i: nat): (m: Option<(string, string)>)
    requires i <= |s|
    ensures m.None? ==> forall k | i <= k <= |s| :: MatchAt(s, k).None?
    ensures m.Some? ==> exists k | i <= k <= |s| :: MatchAt(s, k) == m
    decreases |s| - i
  {
    if MatchAt(s, i).Some? then MatchAt(s, i)
    else if i == |s| then None
    else SearchFrom(s, i + 1)
  }

  /** `extract_period_from_filename`. */
  function PeriodLabel(filename: string): string
  {
    match SearchFrom(filename, 0)
    case None => Unknown
    case Some((months, year)) => "20" + year + "-" + QuarterOfMonths(months)
  }

  /** Before the first 'T' nothing can match, so the search skips to it. */
  lemma {:induction false} SearchSkipsPrefix(s: string, prefix: string, i: nat)
    requires StartsWith(s, prefix) && 'T' !in prefix && i <= |prefix|
    ensures SearchFrom(s, i) == SearchFrom(s, |prefix|)
    decreases |prefix| - i
  {
    if i < |prefix| {
      assert s[i] == prefix[i];
      assert MatchAt(s, i).None?;
      SearchSkipsPrefix(s, prefix, i + 1);
    }
  }

  /**
   * The period of a file named prefix + "Trim " + months + yy + rest, when
   * the prefix holds no 'T' (as 'lima_cleaned_' does not): '20' + yy, then
   * the quarter of the month group, or 'Q_Unk' for a group outside the map.
   */
  lemma PeriodLabelOfName(prefix: string, months: string, yy: string, rest: string)
    requires 'T' !in prefix
    requires months != [] && forall k | 0 <= k < |months| :: IsMonthChar(months[k])
    requires |yy| == 2 && AllDigits(yy)
    ensures PeriodLabel(prefix + "Trim " + months + yy + rest) == "20" + yy + "-" + QuarterOfMonths(months)
  {
    var w := "Trim " + months + yy;
    var s := prefix + "Trim " + months + yy + rest;
    var i := |prefix|;
    assert s == prefix + (w + rest);
    assert s[..i] == prefix;
    assert s[i..i + |w|] == w;
    SearchSkipsPrefix(s, prefix, 0);
    MatchAtName(s, i, months, yy);
    assert SearchFrom(s, i) == Some((months, yy));
  }

  /** The pattern matches at i when "Trim ", a month run and two digits follow. */
  lemma MatchAtName(s: string, i: nat, months: string, yy: string)
    requires months != [] && forall k | 0 <= k < |months| :: IsMonthChar(months[k])
    requires |yy| == 2 && AllDigits(yy)
    requires i + 5 + |months| + 2 <= |s|
    requires s[i..i + 5 + |months| + 2] == "Trim " + months + yy
    ensures MatchAt(s, i) == Some((months, yy))
  {
    var w := "Trim " + months + yy;
    var e := i + 5 + |months|;
    assert forall k | 0 <= k < |w| :: s[i + k] == w[k];
    assert s[i..i + 5] == "Trim " by {
      forall k | 0 <= k < 5 ensures s[i + k] == "Trim "[k] { assert w[k] == "Trim "[k]; }
    }
    forall k | i + 5 <= k < e ensures IsMonthChar(s[k]) {
      assert w[k - i] == months[k - i - 5];
    }
    assert s[e] == w[5 + |months|] == yy[0];
    assert s[e + 1] == w[5 + |months| + 1] == yy[1];
    var j := RunEnd(s, i + 5);
    assert j == e;
    assert s[i + 5..j] == months by {
      forall k | 0 <= k < |months| ensures s[i + 5 + k] == months[k] { assert w[5 + k] == months[k]; }
    }
    assert s[j..j + 2] == yy;
  }

  /** Every file of the fixed table, with or without the lima prefixes, parses to the same period. */
  lemma QuarterTableAgrees(prefix: string, name: string)
    requires 'T' !in prefix
    requires name in Quarters
    ensures PeriodLabel(prefix + name) == Quarters[name]
  {
    QuarterEntries();
    if name == "Trim Ene-Feb-Mar24.csv" { EntryEneFebMar24(prefix); }
    else if name == "Trim Abr-May-Jun24.csv" { EntryAbrMayJun24(prefix); }
    else if name == "Trim Jul-Ago-Set24.csv" { EntryJulAgoSet24(prefix); }
    else if name == "Trim Set-Oct-Nov24.csv" { EntrySetOctNov24(prefix); }
    else if name == "Trim Ene-Feb-Mar25.csv" { EntryEneFebMar25(prefix); }
    else { EntryMarAbrMay25(prefix); }
  }

  /** The six entries of the quarters table, told apart by their sixth or their eighteenth letter. */
  lemma QuarterEntries()
    ensures forall name | name in Quarters ::
              name == "Trim Ene-Feb-Mar24.csv" || name == "Trim Abr-May-Jun24.csv" || name == "Trim Jul-Ago-Set24.csv" ||
              name == "Trim Set-Oct-Nov24.csv" || name == "Trim Ene-Feb-Mar25.csv" || name == "Trim Mar-Abr-May25.csv"
    ensures Quarters["Trim Ene-Feb-Mar24.csv"] == "2024-Q1" && Quarters["Trim Abr-May-Jun24.csv"] == "2024-Q2"
    ensures Quarters["Trim Jul-Ago-Set24.csv"] == "2024-Q3" && Quarters["Trim Set-Oct-Nov24.csv"] == "2024-Q4"
    ensures Quarters["Trim Ene-Feb-Mar25.csv"] == "2025-Q1" && Quarters["Trim Mar-Abr-May25.csv"] == "2025-Q2"
  {
    var e24, a24, j24, s24, e25, m25 :=
      "Trim Ene-Feb-Mar24.csv", "Trim Abr-May-Jun24.csv", "Trim Jul-Ago-Set24.csv",
      "Trim Set-Oct-Nov24.csv", "Trim Ene-Feb-Mar25.csv", "Trim Mar-Abr-May25.csv";
    assert e24[5] == 'E' && a24[5] == 'A' && j24[5] == 'J' && s24[5] == 'S' && e25[5] == 'E' && m25[5] == 'M';
    assert e24[17] == '4' && e25[17] == '5';
  }

  lemma EntryEneFebMar24(prefix: string)
    requires 'T' !in prefix
    ensures PeriodLabel(prefix + "Trim Ene-Feb-Mar24.csv") == "2024-Q1"
  {
    assert "Trim Ene-Feb-Mar24.csv" == "Trim " + "Ene-Feb-Mar" + "24" + ".csv";
    assert "2024-Q1" == "20" + "24" + "-" + "Q1";
    TableEntry(prefix, "Trim Ene-Feb-Mar24.csv", "Ene-Feb-Mar", "24");
  }

  lemma EntryAbrMayJun24(prefix: string)
    requires 'T' !in prefix
    ensures PeriodLabel(prefix + "Trim Abr-May-Jun24.csv") == "2024-Q2"
  {
    assert "Trim Abr-May-Jun24.csv" == "Trim " + "Abr-May-Jun" + "24" + ".csv";
    assert "2024-Q2" == "20" + "24" + "-" + "Q2";
    TableEntry(prefix, "Trim Abr-May-Jun24.csv", "Abr-May-Jun", "24");
  }

  lemma EntryJulAgoSet24(prefix: string)
    requires 'T' !in prefix
    ensures PeriodLabel(prefix + "Trim Jul-Ago-Set24.csv") == "2024-Q3"
  {
    assert "Trim Jul-Ago-Set24.csv" == "Trim " + "Jul-Ago-Set" + "24" + ".csv";
    assert "2024-Q3" == "20" + "24" + "-" + "Q3";
    TableEntry(prefix, "Trim Jul-Ago-Set24.csv", "Jul-Ago-Set", "24");
  }

  lemma EntrySetOctNov24(prefix: string)
    requires 'T' !in prefix
    ensures PeriodLabel(prefix + "Trim Set-Oct-Nov24.csv") == "2024-Q4"
  {
    assert "Trim Set-Oct-Nov24.csv" == "Trim " + "Set-Oct-Nov" + "24" + ".csv";
    assert "2024-Q4" == "20" + "24" + "-" + "Q4";
    TableEntry(prefix, "Trim Set-Oct-Nov24.csv", "Set-Oct-Nov", "24");
  }

  lemma EntryEneFebMar25(prefix: string)
    requires 'T' !in prefix
    ensures PeriodLabel(prefix + "Trim Ene-Feb-Mar25.csv") == "2025-Q1"
  {
    assert "Trim Ene-Feb-Mar25.csv" == "Trim " + "Ene-Feb-Mar" + "25" + ".csv";
    assert "2025-Q1" == "20" + "25" + "-" + "Q1";
    TableEntry(prefix, "Trim Ene-Feb-Mar25.csv", "Ene-Feb-Mar", "25");
  }

  lemma EntryMarAbrMay25(prefix: string)
    requires 'T' !in prefix
    ensures PeriodLabel(prefix + "Trim Mar-Abr-May25.csv") == "2025-Q2"
  {
    assert "Trim Mar-Abr-May25.csv" == "Trim " + "Mar-Abr-May" + "25" + ".csv";
    assert "2025-Q2" == "20" + "25" + "-" + "Q2";
    TableEntry(prefix, "Trim Mar-Abr-May25.csv", "Mar-Abr-May", "25");
  }

  lemma TableEntry(prefix: string, name: string, months: string, yy: string)
    requires 'T' !in prefix
    requires months in MonthMap
    requires |yy| == 2 && AllDigits(yy)
    requires name == "Trim " + months + yy + ".csv"
    ensures PeriodLabel(prefix + name) == "20" + yy + "-" + MonthMap[months]
  {
    assert prefix + name == prefix + "Trim " + months + yy + ".csv";
    PeriodLabelOfName(prefix, months, yy, ".csv");
  }

  /** The fallback label is given exactly when the pattern matches nowhere. */
  lemma UnknownIffNoMatch(filename: string)
    ensures PeriodLabel(filename) == Unknown <==> forall k | 0 <= k <= |filename| :: MatchAt(filename, k).None?
  {
    match SearchFrom(filename, 0)
    case None =>
    case Some((months, year)) =>
      var p := "20" + year + "-" + QuarterOfMonths(months);
      assert p[0] == '2';
  }

  /** In particular a name without "Trim " gets the fallback label. */
  lemma NoTrimIsUnknown(filename: string)
    requires forall k: nat | k <= |filename| :: !OccursAt(filename, "Trim ", k)
    ensures PeriodLabel(filename) == Unknown
  {
    UnknownIffNoMatch(filename);
  }
}
