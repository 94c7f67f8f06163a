/**
 * 05_dashboard/data_prep.py: the dashboard's extract. The quarterly files
 * are unified as in the main pipeline, but without the weight step. Five
 * sentinel columns are cleaned in place, and only four of them are
 * coerced. The employed workforce is then renamed for display, and the
 * frame is shaped to the nine published columns.
 */
module DashboardPrep {
  import opened Common
  import opened Strings
  import opened Frame
  import opened Codebook
  import opened Features
  import opened Load
  import opened Sanitize
  import opened Segregation

  // ------------------------------------------------------------- loading

  /** load_and_unify_data: the FileNotFoundError check, the reading loop, concat and the blank replacement. */
  method LoadAndUnify(listing: seq<FileEntry>) returns (r: Result<Table>)
    ensures r == Unified(listing, QuarterIfKnown)
  {
    var files := CsvFiles(listing);
    if files == [] {
      return Failure(NoInputFiles);
    }
    var frames := LoadLoop(files, QuarterIfKnown);
    if frames.Failure? {
      return Failure(frames.error);
    }
    r := Success(NormalizeBlanks(ConcatAll(frames.value)));
  }

  // ------------------------------------------------------------ cleaning

  /** codes_to_nan of clean_special_codes. */
  const PrepSentinels: map<string, seq<real>> := map[
    "C208" := [99.0], "INGTOT" := [999999.0], "whoraT" := [99.0], "I339_1" := [999999.0], "C312" := [4.0]]

  /** numeric_cols of clean_special_codes: every sentinel column but C312. */
  const PrepNumeric: seq<string> := ["C208", "INGTOT", "whoraT", "I339_1"]

  /** `df[column].replace(codes, np.nan)` for a column of codes_to_nan. */
  function PrepReplace(col: string, c: Cell): Cell {
    ReplaceCodes(c, CodesOf(PrepSentinels, col))
  }

  /** clean_special_codes as a value: the replace pass over codes_to_nan, then the coercion pass over numeric_cols. */
  function PrepCleaned(t: Table): (r: Table)
    ensures r.columns == t.columns && |r.rows| == |t.rows|
    ensures Valid(t) ==> Valid(r)
  {
    ColumnsMapped(ColumnsMapped(t, PrepSentinels.Keys, PrepReplace), LabelSet(PrepNumeric), Coerce)
  }

  /**
   * Cell c of row k after cleaning: a present numeric column ends numeric,
   * and a numeric cell there ends NaN exactly when it was NaN or its
   * column's code; C312 loses its code 4 but is not coerced; every other
   * column is as it was.
   */
  lemma PrepCleanedCell(t: Table, k: nat, c: string)
    requires k < |t.rows|
    ensures var r := PrepCleaned(t).rows[k];
            c in PrepNumeric && c in t.columns ==>
              IsNumeric(Get(r, c)) &&
              (IsNumeric(Get(t.rows[k], c)) ==>
                 (Get(r, c).Missing? <==> Get(t.rows[k], c).Missing? || Get(t.rows[k], c).value in PrepSentinels[c]))
    ensures "C312" in t.columns ==> Get(PrepCleaned(t).rows[k], "C312") == ReplaceCodes(Get(t.rows[k], "C312"), [4.0])
    ensures c !in PrepSentinels || c !in t.columns ==> Get(PrepCleaned(t).rows[k], c) == Get(t.rows[k], c)
  {
    assert "C312" !in LabelSet(PrepNumeric);
    assert forall x | x in PrepNumeric :: x in PrepSentinels;
  }

  /** The four numeric labels are pairwise different. */
  lemma NumericDistinct()
    ensures Distinct(PrepNumeric)
  {
    assert PrepNumeric[0][0] == 'C' && PrepNumeric[1][0] == 'I' && PrepNumeric[2][0] == 'w' && PrepNumeric[3][0] == 'I';
    assert PrepNumeric[1][1] == 'N' && PrepNumeric[3][1] == '3';
  }

  /** The code 4 of C312 becomes NaN, while a text answer of C312 stays text. */
  lemma RegistrationNotCoerced(t: Table, k: nat)
    requires "C312" in t.columns && k < |t.rows|
    ensures Get(t.rows[k], "C312") == Num(4.0) ==> Get(PrepCleaned(t).rows[k], "C312") == Missing
    ensures Get(t.rows[k], "C312").Text? ==> Get(PrepCleaned(t).rows[k], "C312") == Get(t.rows[k], "C312")
  {
    PrepCleanedCell(t, k, "C312");
  }

  /** The dashboard shares the replace-then-coerce order: a text age "99" comes out as the number 99. */
  lemma PrepTextAgeSurvives()
    ensures Get(PrepCleaned(TextAgeFrame).rows[0], "C208") == Num(99.0)
  {
    TextSentinelSurvives();
    assert "C208" in PrepSentinels && "C208" in PrepNumeric && CodesOf(PrepSentinels, "C208") == [99.0];
    assert Get(TextAgeFrame.rows[0], "C208") == Text("99");
  }

  /** The frame df that clean_special_codes receives, rewrites column by column, and returns. */
  class DataFrame {
    var columns: seq<string>
    var rows: seq<Row>

    /** The frame's current value. */
    function Contents(): Table
      reads this
    {
      Table(columns, rows)
    }

    constructor (t: Table)
      ensures Contents() == t
    {
      columns, rows := t.columns, t.rows;
    }

    /** `for column in cols: if column in df.columns: df[column] = f(column, df[column])`, over a dict's keys. */
    method MapEach(cols: set<string>, f: (string, Cell) -> Cell)
      modifies this
      ensures Contents() == ColumnsMapped(old(Contents()), cols, f)
    {
      ghost var t := Contents();
      ColumnsMappedNone(t, f);
      var todo := cols;
      assert cols - todo == {};
      while todo != {}
        invariant todo <= cols
        invariant Contents() == ColumnsMapped(t, cols - todo, f)
        decreases |todo|
      {
        var column :| column in todo;
        ColumnsMappedOne(t, cols - todo, column, f);
        var next := ColumnsMapped(Contents(), {column}, f);
        columns, rows := next.columns, next.rows;
        assert cols - (todo - {column}) == (cols - todo) + {column};
        todo := todo - {column};
      }
      assert cols - todo == cols;
    }

    /** `for col in cols: if col in df.columns: df[col] = f(col, df[col])`, over a list of distinct labels. */
    method MapInOrder(cols: seq<string>, f: (string, Cell) -> Cell)
      requires Distinct(cols)
      modifies this
      ensures Contents() == ColumnsMapped(old(Contents()), LabelSet(cols), f)
    {
      ghost var t := Contents();
      ColumnsMappedNone(t, f);
      ghost var done: set<string> := {};
      assert LabelSet(cols[..0]) == done;
      var i := 0;
      while i < |cols|
        invariant 0 <= i <= |cols|
        invariant done == LabelSet(cols[..i])
        invariant Contents() == ColumnsMapped(t, done, f)
      {
        var col := cols[i];
        LabelSetNext(cols, i);
        ColumnsMappedOne(t, done, col, f);
        var next := ColumnsMapped(Contents(), {col}, f);
        columns, rows := next.columns, next.rows;
        done := done + {col};
        i := i + 1;
      }
      assert cols[..i] == cols;
    }

    /**
     * clean_special_codes(df): the replace loop over codes_to_nan, then the
     * coercion loop over numeric_cols, each writing one column of df at a
     * time; df itself is returned.
     */
    method CleanSpecialCodes() returns (df: DataFrame)
      modifies this
      ensures df == this
      ensures Contents() == PrepCleaned(old(Contents()))
    {
      MapEach(PrepSentinels.Keys, PrepReplace);
      NumericDistinct();
      MapInOrder(PrepNumeric, Coerce);
      df := this;
    }
  }

  // ------------------------------------------------- working population

  /** The rename dict of process_working_population, entry by entry. */
  const DisplayPairs: seq<(string, string)> := [
    ("C207", "Sexo"), ("C208", "Edad"), ("C366", "Nivel Educativo"),
    ("C310", "Tipo de Ocupación"), ("INGTOT", "Ingreso_Mensual")]

  /** Labels whose characters at fixed positions differ are different labels. */
  lemma {:induction false} SeparateByChars(pairs: seq<(string, string)>, old1: string, old3: string, new0: string, new1: string)
    requires |old1| == |old3| == |new0| == |new1| == |pairs|
    requires forall i | 0 <= i < |pairs| :: |pairs[i].0| > 3 && |pairs[i].1| > 1
    requires forall i | 0 <= i < |pairs| ::
      pairs[i].0[1] == old1[i] && pairs[i].0[3] == old3[i] && pairs[i].1[0] == new0[i] && pairs[i].1[1] == new1[i]
    requires forall i, j | 0 <= i < |pairs| && 0 <= j < |pairs| ::
      new1[i] != old1[j] && (i != j ==> old3[i] != old3[j] && new0[i] != new0[j])
    ensures Separate(pairs)
  {
    forall i, j | 0 <= i < |pairs| && 0 <= j < |pairs|
      ensures pairs[i].1 != pairs[j].0 && (i != j ==> pairs[i].0 != pairs[j].0 && pairs[i].1 != pairs[j].1)
    {
      assert pairs[i].1[1] != pairs[j].0[1];
      if i != j {
        assert pairs[i].0[3] != pairs[j].0[3];
        assert pairs[i].1[0] != pairs[j].1[0];
      }
    }
  }

  /** No old label is a new one and the old and the new labels are pairwise different. */
  lemma DisplayPairsSeparate()
    ensures Separate(DisplayPairs)
  {
    var old1, old3, new0, new1 := "2233N", "7860T", "SENTI", "ediin";
    assert forall i, j | 0 <= i < 5 && 0 <= j < 5 ::
      new1[i] != old1[j] && (i != j ==> old3[i] != old3[j] && new0[i] != new0[j]);
    SeparateByChars(DisplayPairs, old1, old3, new0, new1);
  }

  /** The display names of process_working_population's rename. */
  function DisplayNames(t: Table): (r: Table)
    ensures |r.rows| == |t.rows|
  {
    RenameAll(t, DisplayPairs)
  }

  /** Row k's cell under a display label: the old label's cell when the frame had that label, its own otherwise. */
  function Moved(t: Table, k: nat, from: string, to: string): Cell
    requires k < |t.rows|
  {
    if from in t.columns then Get(t.rows[k], from) else Get(t.rows[k], to)
  }

  /** The five renames, seen from row k, and every label outside the rename dict left alone. */
  lemma DisplayNamesRow(t: Table, k: nat, c: string)
    requires k < |t.rows|
    requires c !in {"C207", "Sexo", "C208", "Edad", "C366", "Nivel Educativo", "C310", "Tipo de Ocupación", "INGTOT", "Ingreso_Mensual"}
    ensures var r := DisplayNames(t);
            ("C207" in t.columns ==> "Sexo" in r.columns) && Get(r.rows[k], "Sexo") == Moved(t, k, "C207", "Sexo") &&
            ("C208" in t.columns ==> "Edad" in r.columns) && Get(r.rows[k], "Edad") == Moved(t, k, "C208", "Edad") &&
            ("C366" in t.columns ==> "Nivel Educativo" in r.columns) &&
            Get(r.rows[k], "Nivel Educativo") == Moved(t, k, "C366", "Nivel Educativo") &&
            ("C310" in t.columns ==> "Tipo de Ocupación" in r.columns) &&
            Get(r.rows[k], "Tipo de Ocupación") == Moved(t, k, "C310", "Tipo de Ocupación") &&
            ("INGTOT" in t.columns ==> "Ingreso_Mensual" in r.columns) &&
            Get(r.rows[k], "Ingreso_Mensual") == Moved(t, k, "INGTOT", "Ingreso_Mensual") &&
            (c in r.columns <==> c in t.columns) && Get(r.rows[k], c) == Get(t.rows[k], c)
  {
    DisplayPairsSeparate();
    RenameAllTarget(t, DisplayPairs, k, 0);
    RenameAllTarget(t, DisplayPairs, k, 1);
    RenameAllTarget(t, DisplayPairs, k, 2);
    RenameAllTarget(t, DisplayPairs, k, 3);
    RenameAllTarget(t, DisplayPairs, k, 4);
    RenameAllOther(t, DisplayPairs, k, c);
  }

  /** df_trabajo['OCUP300'] == 'Ocupado'. */
  predicate Ocupado(row: Row) {
    Get(row, "OCUP300") == Text("Ocupado")
  }

  /**
   * The display columns of row x as read off its source row src, in a frame
   * whose labels were cols: sex, education and occupation recoded to their
   * labels, age and income as they were, each under its display name.
   */
  predicate Displayed(cols: seq<string>, src: Row, x: Row) {
    Get(x, "Sexo") == (if "C207" in cols then Recode(Get(src, "C207"), Sex) else Get(src, "Sexo")) &&
    Get(x, "Edad") == (if "C208" in cols then Get(src, "C208") else Get(src, "Edad")) &&
    Get(x, "Nivel Educativo") == (if "C366" in cols then Recode(Get(src, "C366"), Education) else Get(src, "Nivel Educativo")) &&
    Get(x, "Tipo de Ocupación") == (if "C310" in cols then Recode(Get(src, "C310"), JobCategory) else Get(src, "Tipo de Ocupación")) &&
    Get(x, "Ingreso_Mensual") == (if "INGTOT" in cols then Get(src, "INGTOT") else Get(src, "Ingreso_Mensual"))
  }

  /** Recoding by tables m that recode sex, education and occupation and leave age, income and the display names alone, then renaming, shows each row's display columns. */
  lemma NamedRowBy(t: Table, k: nat, m: Maps)
    requires k < |t.rows|
    requires "C207" in m && m["C207"] == Sex && "C366" in m && m["C366"] == Education && "C310" in m && m["C310"] == JobCategory
    requires "Sexo" !in m && "C208" !in m && "Edad" !in m && "Nivel Educativo" !in m
    requires "Tipo de Ocupación" !in m && "INGTOT" !in m && "Ingreso_Mensual" !in m
    ensures Displayed(t.columns, t.rows[k], DisplayNames(ColumnsMapped(t, m.Keys, Recoder(m))).rows[k])
  {
    DisplayNamesRow(ColumnsMapped(t, m.Keys, Recoder(m)), k, "OCUP300");
  }

  /** The dashboard's four tables recode sex, education and occupation. */
  lemma PrepMapsRecode()
    ensures "C207" in PrepMaps && PrepMaps["C207"] == Sex && "C366" in PrepMaps && PrepMaps["C366"] == Education
    ensures "C310" in PrepMaps && PrepMaps["C310"] == JobCategory
  {
  }

  /** ... and leave the age and the income alone ... */
  lemma PrepMapsKeep()
    ensures "C208" !in PrepMaps && "INGTOT" !in PrepMaps && "Sexo" !in PrepMaps
  {
  }

  /** ... and the display names. */
  lemma PrepMapsKeepNames()
    ensures "Edad" !in PrepMaps && "Nivel Educativo" !in PrepMaps
    ensures "Tipo de Ocupación" !in PrepMaps && "Ingreso_Mensual" !in PrepMaps
  {
  }

  /** The rows aged 14 and over, recoded and renamed for display, and banded by Edad. */
  function Banded(t: Table): (r: Table)
    requires "C208" in t.columns
    ensures |r.rows| == |Filter(t.rows, Adult)|
  {
    var recoded := ColumnsMapped(FilterRows(t, Adult), PrepMaps.Keys, Recoder(PrepMaps));
    var named := DisplayNames(recoded);
    WithColumn(named, "grupo_edad", Bands(named, "Edad"))
  }

  /** Row k of the banded frame shows the display columns of the k-th row aged 14 and over. */
  lemma BandedDisplayed(t: Table, k: nat)
    requires "C208" in t.columns && k < |Filter(t.rows, Adult)|
    ensures Displayed(t.columns, Filter(t.rows, Adult)[k], Banded(t).rows[k])
  {
    PrepMapsRecode();
    PrepMapsKeep();
    PrepMapsKeepNames();
    BandedDisplayedBy(FilterRows(t, Adult), k, PrepMaps);
  }

  /** Banding after recoding by tables m as NamedRowBy asks for keeps row k's display columns. */
  lemma BandedDisplayedBy(t: Table, k: nat, m: Maps)
    requires k < |t.rows|
    requires "C207" in m && m["C207"] == Sex && "C366" in m && m["C366"] == Education && "C310" in m && m["C310"] == JobCategory
    requires "Sexo" !in m && "C208" !in m && "Edad" !in m && "Nivel Educativo" !in m
    requires "Tipo de Ocupación" !in m && "INGTOT" !in m && "Ingreso_Mensual" !in m
    ensures var named := DisplayNames(ColumnsMapped(t, m.Keys, Recoder(m)));
            Displayed(t.columns, t.rows[k], WithColumn(named, "grupo_edad", Bands(named, "Edad")).rows[k])
  {
    var named := DisplayNames(ColumnsMapped(t, m.Keys, Recoder(m)));
    NamedRowBy(t, k, m);
    DisplayedAway(t.columns, t.rows[k], named.rows[k], "grupo_edad", AgeBand(Get(named.rows[k], "Edad")));
  }

  /** es_informal: 1 where 'Ocupado' and C361_1 == 2. */
  function Flagged(b: Table): (r: Table)
    ensures |r.rows| == |b.rows|
    ensures forall k | 0 <= k < |b.rows| :: r.rows[k] == b.rows[k]["es_informal" := Flag(InformalByLabel(b.rows[k]))]
  {
    WithColumn(b, "es_informal", seq(|b.rows|, k requires 0 <= k < |b.rows| => Flag(InformalByLabel(b.rows[k]))))
  }

  /** Row k after the recode loop: the age and C361_1 as they were, OCUP300 as its label. */
  lemma RecodedRow(t: Table, k: nat)
    requires "OCUP300" in t.columns && k < |t.rows|
    ensures var r := ColumnsMapped(t, PrepMaps.Keys, Recoder(PrepMaps)).rows[k];
            Get(r, "C208") == Get(t.rows[k], "C208") && Get(r, "C361_1") == Get(t.rows[k], "C361_1") &&
            Get(r, "OCUP300") == Recode(Get(t.rows[k], "OCUP300"), Activity)
  {
    assert "C208" !in PrepMaps && "C361_1" !in PrepMaps && PrepMaps["OCUP300"] == Activity;
  }

  /** Row k of the banded frame keeps its source row's age as Edad, carries its band, and is 'Ocupado' exactly when its code was 1. */
  lemma BandedRow(t: Table, k: nat)
    requires "C208" in t.columns && "OCUP300" in t.columns && k < |Filter(t.rows, Adult)|
    ensures var src := Filter(t.rows, Adult)[k];
            var b := Banded(t).rows[k];
            Get(b, "Edad") == Get(src, "C208") && Get(b, "grupo_edad") == AgeBand(Get(src, "C208")) &&
            (Ocupado(b) <==> Employed(src)) && Get(b, "C361_1") == Get(src, "C361_1")
  {
    var adults := FilterRows(t, Adult);
    var recoded := ColumnsMapped(adults, PrepMaps.Keys, Recoder(PrepMaps));
    RecodedRow(adults, k);
    DisplayNamesRow(recoded, k, "OCUP300");
    DisplayNamesRow(recoded, k, "C361_1");
    ActivityOcupado(Get(adults.rows[k], "OCUP300"));
  }

  /** The workforce recoded, renamed for display, banded by Edad and flagged, before the employed filter. */
  function Labelled(t: Table): (r: Table)
    requires "C208" in t.columns
    ensures |r.rows| == |Filter(t.rows, Adult)|
  {
    Flagged(Banded(t))
  }

  /** Row k of Labelled reads its age, band, activity and informality off the k-th row aged 14 and over. */
  lemma LabelledRow(t: Table, k: nat)
    requires "C208" in t.columns && "OCUP300" in t.columns && k < |Filter(t.rows, Adult)|
    ensures var src := Filter(t.rows, Adult)[k];
            var x := Labelled(t).rows[k];
            NumAtLeast(Get(x, "Edad"), 14.0) && Get(x, "Edad") == Get(src, "C208") &&
            Get(x, "grupo_edad") == AgeBand(Get(src, "C208")) &&
            (Ocupado(x) <==> Employed(src)) &&
            Get(x, "es_informal") == Flag(Ocupado(x) && NumEq(Get(x, "C361_1"), 2.0))
  {
    BandedRow(t, k);
    var adults := Filter(t.rows, Adult);
    assert adults[k] in adults;
  }

  /** The employed rows of the labelled frame are as many as the employed rows aged 14 and over. */
  lemma EmployedCount(t: Table)
    requires "C208" in t.columns && "OCUP300" in t.columns
    ensures |Filter(Labelled(t).rows, Ocupado)| == |Filter(Filter(t.rows, Adult), Employed)|
  {
    var l := Labelled(t);
    forall k | 0 <= k < |l.rows| ensures Employed(Filter(t.rows, Adult)[k]) <==> Ocupado(l.rows[k]) {
      LabelledRow(t, k);
    }
    FilterAlignedCount(Filter(t.rows, Adult), l.rows, Employed, Ocupado);
  }

  /** Every employed row of the labelled frame is aged 14 or more, banded by its age, and flagged by C361_1 alone. */
  lemma EmployedRows(t: Table)
    requires "C208" in t.columns && "OCUP300" in t.columns
    ensures forall x | x in Filter(Labelled(t).rows, Ocupado) ::
              NumAtLeast(Get(x, "Edad"), 14.0) && Ocupado(x) &&
              Get(x, "grupo_edad") == AgeBand(Get(x, "Edad")) &&
              Get(x, "es_informal") == Flag(NumEq(Get(x, "C361_1"), 2.0))
  {
    var l := Labelled(t);
    forall x | x in Filter(l.rows, Ocupado)
      ensures NumAtLeast(Get(x, "Edad"), 14.0) && Get(x, "grupo_edad") == AgeBand(Get(x, "Edad"))
      ensures Get(x, "es_informal") == Flag(NumEq(Get(x, "C361_1"), 2.0))
    {
      var k :| 0 <= k < |l.rows| && l.rows[k] == x;
      LabelledRow(t, k);
    }
  }

  /** What each kept row of process_working_population holds, read off its source row src. */
  predicate WorkingRow(cols: seq<string>, src: Row, x: Row) {
    Displayed(cols, src, x) && Ocupado(x) &&
    Get(x, "grupo_edad") == AgeBand(Get(src, "C208")) && Get(x, "C361_1") == Get(src, "C361_1") &&
    Get(x, "es_informal") == Flag(NumEq(Get(src, "C361_1"), 2.0))
  }

  /** A labelled row that is 'Ocupado' holds what process_working_population keeps of its source row. */
  lemma LabelledWorking(t: Table, j: nat)
    requires "C208" in t.columns && "OCUP300" in t.columns
    requires j < |Filter(t.rows, Adult)| && Ocupado(Labelled(t).rows[j])
    ensures WorkingRow(t.columns, Filter(t.rows, Adult)[j], Labelled(t).rows[j])
  {
    var b := Banded(t).rows[j];
    BandedRow(t, j);
    BandedDisplayed(t, j);
    FlaggedWorking(t.columns, Filter(t.rows, Adult)[j], b, Labelled(t).rows[j]);
  }

  /** Flagging a banded row that shows its source row's display columns, band and C361_1 gives a kept row, once it is 'Ocupado'. */
  lemma FlaggedWorking(cols: seq<string>, src: Row, b: Row, x: Row)
    requires Displayed(cols, src, b) && Get(b, "grupo_edad") == AgeBand(Get(src, "C208")) && Get(b, "C361_1") == Get(src, "C361_1")
    requires x == b["es_informal" := Flag(InformalByLabel(b))] && Ocupado(x)
    ensures WorkingRow(cols, src, x)
  {
    DisplayedAway(cols, src, b, "es_informal", Flag(InformalByLabel(b)));
  }

  /** Writing a column whose first letter no display name starts with keeps the display columns. */
  lemma DisplayedAway(cols: seq<string>, src: Row, x: Row, c: string, v: Cell)
    requires Displayed(cols, src, x) && c != [] && c[0] !in "SENTI"
    ensures Displayed(cols, src, x[c := v])
  {
    assert forall d | d in ["Sexo", "Edad", "Nivel Educativo", "Tipo de Ocupación", "Ingreso_Mensual"] :: d[0] in "SENTI" && d != c;
  }

  /** The k-th kept row comes from the k-th employed row aged 14 and over. */
  lemma WorkingRowAt(t: Table, k: nat)
    requires "C208" in t.columns && "OCUP300" in t.columns
    requires k < |Filter(Filter(t.rows, Adult), Employed)|
    ensures k < |Filter(Labelled(t).rows, Ocupado)|
    ensures WorkingRow(t.columns, Filter(Filter(t.rows, Adult), Employed)[k], Filter(Labelled(t).rows, Ocupado)[k])
  {
    var adults := Filter(t.rows, Adult);
    var l := Labelled(t);
    forall i | 0 <= i < |adults| ensures Ocupado(l.rows[i]) == Employed(adults[i]) {
      LabelledRow(t, i);
    }
    var j := FilterAlignedAt(adults, l.rows, Employed, Ocupado, k);
    assert l.rows[j] in Filter(l.rows, Ocupado);
    LabelledWorking(t, j);
  }

  /** Every kept row, position by position, against the employed rows aged 14 and over. */
  lemma WorkingRows(t: Table)
    requires "C208" in t.columns && "OCUP300" in t.columns
    ensures |Filter(Labelled(t).rows, Ocupado)| == |Filter(Filter(t.rows, Adult), Employed)|
    ensures forall k | 0 <= k < |Filter(Labelled(t).rows, Ocupado)| ::
              WorkingRow(t.columns, Filter(Filter(t.rows, Adult), Employed)[k], Filter(Labelled(t).rows, Ocupado)[k])
  {
    EmployedCount(t);
    var kept := Filter(Labelled(t).rows, Ocupado);
    var src := Filter(Filter(t.rows, Adult), Employed);
    forall k | 0 <= k < |kept| ensures WorkingRow(t.columns, src[k], kept[k]) {
      WorkingRowAt(t, k);
    }
  }

  /**
   * process_working_population: a KeyError without C208, then without
   * OCUP300 or C361_1 when es_informal is computed; otherwise the employed
   * rows aged 14 and over, recoded, renamed, banded and flagged.
   */
  function WorkingPopulation(t: Table): (r: Result<Table>)
    ensures r.Success? <==> "C208" in t.columns && "OCUP300" in t.columns && "C361_1" in t.columns
    ensures "C208" !in t.columns ==> r == Failure(MissingColumn("C208"))
    ensures r.Success? ==> |r.value.rows| == |Filter(Filter(t.rows, Adult), Employed)|
    ensures r.Success? ==> forall x | x in r.value.rows ::
              NumAtLeast(Get(x, "Edad"), 14.0) && Ocupado(x) &&
              Get(x, "grupo_edad") == AgeBand(Get(x, "Edad")) &&
              Get(x, "es_informal") == Flag(NumEq(Get(x, "C361_1"), 2.0))
    ensures r.Success? ==> forall k | 0 <= k < |r.value.rows| ::
              WorkingRow(t.columns, Filter(Filter(t.rows, Adult), Employed)[k], r.value.rows[k])
  {
    if "C208" !in t.columns then Failure(MissingColumn("C208"))
    else if "OCUP300" !in t.columns then Failure(MissingColumn("OCUP300"))
    else if "C361_1" !in t.columns then Failure(MissingColumn("C361_1"))
    else
      EmployedCount(t);
      EmployedRows(t);
      WorkingRows(t);
      Success(FilterRows(Labelled(t), Ocupado))
  }

  /** The steps of process_working_population, each reassigning the working copy. */
  method ProcessWorkingPopulation(t: Table) returns (r: Result<Table>)
    ensures r == WorkingPopulation(t)
  {
    if "C208" !in t.columns {
      return Failure(MissingColumn("C208"));
    }
    var work := FilterRows(t, Adult);
    work := MapColumns(work, PrepMaps.Keys, Recoder(PrepMaps));
    work := DisplayNames(work);
    work := WithColumn(work, "grupo_edad", Bands(work, "Edad"));
    if "OCUP300" !in t.columns {
      return Failure(MissingColumn("OCUP300"));
    }
    if "C361_1" !in t.columns {
      return Failure(MissingColumn("C361_1"));
    }
    work := Flagged(work);
    assert work == Labelled(t);
    r := Success(FilterRows(work, Ocupado));
  }

  // ------------------------------------------------------- final shaping

  /** final_columns of main(). */
  const FinalColumns: seq<string> := [
    "periodo", "Sexo", "Edad", "grupo_edad", "Nivel Educativo",
    "Tipo de Ocupación", "Ingreso_Mensual", "whoraT", "es_informal"]

  /** The nine labels are pairwise different: their first letters already are. */
  lemma FinalColumnsDistinct()
    ensures Distinct(FinalColumns)
  {
    var heads := "pSEgNTIwe";
    assert forall i | 0 <= i < |FinalColumns| :: FinalColumns[i] != [] && FinalColumns[i][0] == heads[i];
    assert forall i, j | 0 <= i < j < |heads| :: heads[i] != heads[j];
  }

  /**
   * The back-fill loop over cols: an absent column is added as all NaN;
   * no cell that was readable changes.
   */
  function Backfilled(t: Table, cols: seq<string>): (r: Table)
    ensures forall c :: c in r.columns <==> c in cols || c in t.columns
    ensures |r.rows| == |t.rows|
    ensures forall k, c | 0 <= k < |t.rows| ::
              Get(r.rows[k], c) == if c in t.columns || c !in cols then Get(t.rows[k], c) else Missing
    decreases |cols|
  {
    if cols == [] then t
    else
      var n := |cols| - 1;
      var u := Backfilled(t, cols[..n]);
      var c := cols[n];
      assert forall x | x in cols :: x in cols[..n] || x == c;
      if c in u.columns then u
      else
        assert c !in cols[..n] && c !in t.columns;
        WithColumn(u, c, Fill(|u.rows|, Missing))
  }

  /**
   * df_final[cols] after the back-fill: exactly the columns cols in their
   * order, each row's own value where the column existed and NaN where it
   * did not.
   */
  function Shaped(t: Table, cols: seq<string>): (r: Table)
    ensures r.columns == cols && |r.rows| == |t.rows|
    ensures forall k, c | 0 <= k < |t.rows| ::
              Get(r.rows[k], c) == if c in cols && c in t.columns then Get(t.rows[k], c) else Missing
    ensures Distinct(cols) ==> Valid(r)
  {
    Project(Backfilled(t, cols), cols).value
  }

  /** `for col in final_columns: if col not in df_final.columns: df_final[col] = np.nan`, then the selection. */
  method FinalShape(t: Table) returns (r: Table)
    ensures r == Shaped(t, FinalColumns)
    ensures Valid(r)
  {
    r := t;
    var i := 0;
    while i < |FinalColumns|
      invariant 0 <= i <= |FinalColumns|
      invariant r == Backfilled(t, FinalColumns[..i])
    {
      var col := FinalColumns[i];
      assert FinalColumns[..i + 1][..i] == FinalColumns[..i];
      if col !in r.columns {
        r := WithColumn(r, col, Fill(|r.rows|, Missing));
      }
      i := i + 1;
    }
    assert FinalColumns[..i] == FinalColumns;
    r := Project(r, FinalColumns).value;
    FinalColumnsDistinct();
  }

  // ------------------------------------------------------------- main()

  /** main(): load, clean, select the employed workforce, shape; the first exception ends the run. */
  function Prepared(listing: seq<FileEntry>): (r: Result<Table>)
    ensures CsvFiles(listing) == [] ==> r == Failure(NoInputFiles)
    ensures Unified(listing, QuarterIfKnown).Failure? ==> r == Failure(Unified(listing, QuarterIfKnown).error)
    ensures Unified(listing, QuarterIfKnown).Success? ==>
              r == match WorkingPopulation(PrepCleaned(Unified(listing, QuarterIfKnown).value))
                   case Failure(e) => Failure(e)
                   case Success(w) => Success(Shaped(w, FinalColumns))
    ensures r.Success? ==> r.value.columns == FinalColumns
  {
    match Unified(listing, QuarterIfKnown)
    case Failure(e) => Failure(e)
    case Success(m) =>
      match WorkingPopulation(PrepCleaned(m))
      case Failure(e) => Failure(e)
      case Success(w) => Success(Shaped(w, FinalColumns))
  }

  /** main() with the frame that clean_special_codes updates in place. */
  method RunDataPrep(listing: seq<FileEntry>) returns (r: Result<Table>)
    ensures r == Prepared(listing)
  {
    var master := LoadAndUnify(listing);
    if master.Failure? {
      return Failure(master.error);
    }
    var df := new DataFrame(master.value);
    var cleaned := df.CleanSpecialCodes();
    var work := ProcessWorkingPopulation(cleaned.Contents());
    if work.Failure? {
      return Failure(work.error);
    }
    var final := FinalShape(work.value);
    r := Success(final);
  }
}
