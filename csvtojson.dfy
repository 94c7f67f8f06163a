/**
 * csv_to_json.py: read the rows of a CSV file as dictionaries of strings,
 * keep those whose period and income are both given, and project each
 * kept row onto an eight-field record with income, flag and hours
 * converted to numbers. The first KeyError or ValueError ends the
 * conversion.
 */
module CsvToJson {
  import opened Common
  import opened Strings

  /** One csv.DictReader row: header label to field text. */
  type RawRow = map<string, string>

  const NoAplica := "No Aplica"

  /** The JSON object written for a kept row, one field per key. */
  datatype Record = Record(
    periodo: string, sexo: string, nivelEducativo: string, ingreso: real,
    informal: int, ocupacion: string, grupoEdad: string, horasTrabajadas: int)

  /** `row[key]`: a KeyError when the header lacks it. */
  function Field(row: RawRow, key: string): (r: Result<string>)
    ensures r.Success? <==> key in row
    ensures r.Success? ==> r.value == row[key]
    ensures r.Failure? ==> r.error == MissingColumn(key)
  {
    if key in row then Success(row[key]) else Failure(MissingColumn(key))
  }

  /**
   * The filter of the loop: periodo is read first, and INGTOT only when
   * periodo is not 'No Aplica'.
   */
  function Keep(row: RawRow): (r: Result<bool>)
    ensures r == Success(true) <==>
              "periodo" in row && "INGTOT" in row && row["periodo"] != NoAplica && row["INGTOT"] != NoAplica
    ensures r.Failure? <==> "periodo" !in row || (row["periodo"] != NoAplica && "INGTOT" !in row)
    ensures r.Failure? ==> r.error.MissingColumn? && r.error.column !in row
  {
    match Field(row, "periodo")
    case Failure(e) => Failure(e)
    case Success(p) =>
      if p == NoAplica then Success(false)
      else
        match Field(row, "INGTOT")
        case Failure(e) => Failure(e)
        case Success(i) => Success(i != NoAplica)
  }

  /** `float(s) if s else 0`. */
  function Amount(s: string): (r: Result<real>)
    ensures s == [] ==> r == Success(0.0)
    ensures s != [] ==> (r.Success? <==> ParseReal(s).Some?)
    ensures s != [] && r.Success? ==> r.value == ParseReal(s).value
    ensures r.Failure? ==> r.error == BadNumber(s)
  {
    if s == [] then Success(0.0)
    else
      match ParseReal(s)
      case None => Failure(BadNumber(s))
      case Some(x) => Success(x)
  }

  /** `int(s)`: an empty or non-integral text raises. */
  function Whole(s: string): (r: Result<int>)
    ensures r.Success? <==> ParseInt(s).Some?
    ensures r.Success? ==> r.value == ParseInt(s).value
    ensures r.Failure? ==> r.error == BadNumber(s)
  {
    match ParseInt(s)
    case None => Failure(BadNumber(s))
    case Some(n) => Success(n)
  }

  /** `int(float(s)) if s else 0`: the value truncated toward zero. */
  function Hours(s: string): (r: Result<int>)
    ensures s == [] ==> r == Success(0)
    ensures s != [] ==> (r.Success? <==> ParseReal(s).Some?)
    ensures s != [] && r.Success? ==>
              var x := ParseReal(s).value;
              r.value == Trunc(x) && (x >= 0.0 ==> 0 <= r.value && r.value as real <= x < r.value as real + 1.0) &&
              (x < 0.0 ==> r.value <= 0 && r.value as real - 1.0 < x <= r.value as real)
    ensures r.Failure? ==> r.error == BadNumber(s)
  {
    if s == [] then Success(0)
    else
      match ParseReal(s)
      case None => Failure(BadNumber(s))
      case Some(x) => Success(Trunc(x))
  }

  /** The row has every label the record reads. */
  predicate HasLabels(row: RawRow) {
    "periodo" in row && "C207" in row && "C366" in row && "INGTOT" in row &&
    "es_informal" in row && "OCUP300" in row && "grupo_edad" in row && "whoraT" in row
  }

  /**
   * `selected_row`: a KeyError at an absent label, a ValueError at a bad
   * number; otherwise each field is its source label's text or number.
   */
  function Projected(row: RawRow): (r: Result<Record>)
    ensures r.Success? <==>
              HasLabels(row) &&
              Amount(row["INGTOT"]).Success? && Whole(row["es_informal"]).Success? && Hours(row["whoraT"]).Success?
    ensures r.Success? ==>
              r.value == Record(row["periodo"], row["C207"], row["C366"], Amount(row["INGTOT"]).value,
                                Whole(row["es_informal"]).value, row["OCUP300"], row["grupo_edad"], Hours(row["whoraT"]).value)
    ensures r.Failure? ==>
              (r.error.MissingColumn? && !HasLabels(row) && r.error.column !in row) ||
              (r.error.BadNumber? &&
               (("INGTOT" in row && r.error.text == row["INGTOT"]) ||
                ("es_informal" in row && r.error.text == row["es_informal"]) ||
                ("whoraT" in row && r.error.text == row["whoraT"])))
  {
    if "periodo" !in row then Failure(MissingColumn("periodo"))
    else if "C207" !in row then Failure(MissingColumn("C207"))
    else if "C366" !in row then Failure(MissingColumn("C366"))
    else if "INGTOT" !in row then Failure(MissingColumn("INGTOT"))
    else if Amount(row["INGTOT"]).Failure? then Failure(BadNumber(row["INGTOT"]))
    else if "es_informal" !in row then Failure(MissingColumn("es_informal"))
    else if Whole(row["es_informal"]).Failure? then Failure(BadNumber(row["es_informal"]))
    else if "OCUP300" !in row then Failure(MissingColumn("OCUP300"))
    else if "grupo_edad" !in row then Failure(MissingColumn("grupo_edad"))
    else if "whoraT" !in row then Failure(MissingColumn("whoraT"))
    else if Hours(row["whoraT"]).Failure? then Failure(BadNumber(row["whoraT"]))
    else
      Success(Record(row["periodo"], row["C207"], row["C366"], Amount(row["INGTOT"]).value,
                     Whole(row["es_informal"]).value, row["OCUP300"], row["grupo_edad"], Hours(row["whoraT"]).value))
  }

  /** One pass of the loop body: skip the row, or the record to append. */
  function Step(row: RawRow): (r: Result<Option<Record>>)
    ensures r == Success(None) <==> Keep(row) == Success(false)
    ensures r.Success? && r.value.Some? <==> Keep(row) == Success(true) && Projected(row).Success?
    ensures r.Success? && r.value.Some? ==> r.value.value == Projected(row).value
  {
    match Keep(row)
    case Failure(e) => Failure(e)
    case Success(keep) =>
      if !keep then Success(None)
      else
        match Projected(row)
        case Failure(e) => Failure(e)
        case Success(rec) => Success(Some(rec))
  }

  /** The list the loop builds, or the exception that ends it. */
  function Converted(rows: seq<RawRow>): (r: Result<seq<Record>>)
    decreases |rows|
  {
    if rows == [] then Success([])
    else
      match Converted(rows[..|rows| - 1])
      case Failure(e) => Failure(e)
      case Success(data) =>
        match Step(rows[|rows| - 1])
        case Failure(e) => Failure(e)
        case Success(None) => Success(data)
        case Success(Some(rec)) => Success(data + [rec])
  }

  /** The rows the filter keeps, in input order. */
  function KeptRows(rows: seq<RawRow>): (r: seq<RawRow>)
    ensures |r| <= |rows|
    ensures forall row :: row in r <==> row in rows && Keep(row) == Success(true)
    decreases |rows|
  {
    if rows == [] then []
    else KeptRows(rows[..|rows| - 1]) + (if Keep(rows[|rows| - 1]) == Success(true) then [rows[|rows| - 1]] else [])
  }

  /**
   * A conversion fails exactly when some row's filter or record raises;
   * it then carries the error of the first such row.
   */
  lemma {:induction false} ConvertedFails(rows: seq<RawRow>)
    ensures Converted(rows).Failure? <==> exists i | 0 <= i < |rows| :: Step(rows[i]).Failure?
    ensures Converted(rows).Failure? ==>
              exists i | 0 <= i < |rows| ::
                Step(rows[i]).Failure? && Converted(rows).error == Step(rows[i]).error &&
                forall j | 0 <= j < i :: Step(rows[j]).Success?
    decreases |rows|
  {
    if rows != [] {
      var init := rows[..|rows| - 1];
      ConvertedFails(init);
      assert forall i | 0 <= i < |init| :: init[i] == rows[i];
      if Converted(init).Failure? {
        var i :| 0 <= i < |init| && Step(init[i]).Failure? && Converted(init).error == Step(init[i]).error &&
                 forall j | 0 <= j < i :: Step(init[j]).Success?;
        assert Step(rows[i]).Failure?;
      }
    }
  }

  /**
   * On success the output holds one record per kept row, in the same
   * order: the j-th record is the projection of the j-th kept row.
   */
  lemma {:induction false} ConvertedProjects(rows: seq<RawRow>)
    requires Converted(rows).Success?
    ensures |Converted(rows).value| == |KeptRows(rows)|
    ensures forall j | 0 <= j < |KeptRows(rows)| :: Projected(KeptRows(rows)[j]) == Success(Converted(rows).value[j])
    decreases |rows|
  {
    if rows != [] {
      var init, last := rows[..|rows| - 1], rows[|rows| - 1];
      ConvertedProjects(init);
    }
  }

  /** What a successful loop pass appends. */
  function Emitted(o: Option<Record>): seq<Record> {
    if o.Some? then [o.value] else []
  }

  /** One more row: its pass appends to the records so far. */
  lemma ConvertedLast(rows: seq<RawRow>, row: RawRow)
    requires Converted(rows).Success? && Step(row).Success?
    ensures Converted(rows + [row]) == Success(Converted(rows).value + Emitted(Step(row).value))
  {
    var all := rows + [row];
    assert all[..|all| - 1] == rows && all[|all| - 1] == row;
    if Step(row).value.None? {
      assert Converted(rows).value + [] == Converted(rows).value;
    }
  }

  /** Converting a file in two parts and appending the results is converting it whole. */
  lemma {:induction false} ConvertedAppend(a: seq<RawRow>, b: seq<RawRow>)
    requires Converted(a).Success? && Converted(b).Success?
    ensures Converted(a + b) == Success(Converted(a).value + Converted(b).value)
    decreases |b|
  {
    if b == [] {
      assert a + b == a;
      assert Converted(a).value + [] == Converted(a).value;
    } else {
      var init, last := b[..|b| - 1], b[|b| - 1];
      assert Converted(init).Success? && Step(last).Success?;
      assert b == init + [last] && a + b == (a + init) + [last];
      ConvertedAppend(a, init);
      ConvertedLast(init, last);
      ConvertedLast(a + init, last);
      var x, y, e := Converted(a).value, Converted(init).value, Emitted(Step(last).value);
      assert x + (y + e) == (x + y) + e;
    }
  }

  /** A failing prefix decides the whole conversion. */
  lemma {:induction false} ConvertedPrefixFails(rows: seq<RawRow>, n: nat)
    requires n <= |rows| && Converted(rows[..n]).Failure?
    ensures Converted(rows) == Converted(rows[..n])
    decreases |rows| - n
  {
    if n < |rows| {
      assert rows[..n + 1][..n] == rows[..n];
      ConvertedPrefixFails(rows, n + 1);
    } else {
      assert rows[..n] == rows;
    }
  }

  /** `for row in csv_reader: ... data.append(selected_row)`. */
  method Convert(rows: seq<RawRow>) returns (r: Result<seq<Record>>)
    ensures r == Converted(rows)
  {
    var data: seq<Record> := [];
    var i := 0;
    while i < |rows|
      invariant 0 <= i <= |rows|
      invariant Converted(rows[..i]) == Success(data)
    {
      assert rows[..i + 1][..i] == rows[..i];
      var keep := Keep(rows[i]);
      if keep.Failure? {
        ConvertedPrefixFails(rows, i + 1);
        return Failure(keep.error);
      }
      if keep.value {
        var rec := Projected(rows[i]);
        if rec.Failure? {
          ConvertedPrefixFails(rows, i + 1);
          return Failure(rec.error);
        }
        data := data + [rec.value];
      }
      i := i + 1;
    }
    assert rows[..i] == rows;
    r := Success(data);
  }

  /** An empty flag field is a ValueError, not a 0: int('') raises. */
  lemma EmptyFlagFails(row: RawRow)
    requires HasLabels(row) && row["es_informal"] == []
    ensures Projected(row).Failure?
  {
  }

  /** An empty income or hours field is a 0, not an error. */
  lemma EmptyAmountsAreZero(row: RawRow)
    requires Projected(row).Success? && row["INGTOT"] == [] && row["whoraT"] == []
    ensures Projected(row).value.ingreso == 0.0 && Projected(row).value.horasTrabajadas == 0
  {
  }
}
