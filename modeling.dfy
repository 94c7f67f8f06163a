/**
 * lima/modeling_script.py up to the model fits: load the cleaned Lima
 * files, add the informality flag, and build the two training sets, each
 * a feature frame with its target and weight column aligned row by row.
 * The split, the forests and their metrics are outside the model.
 */
module Modeling {
  import opened Common
  import opened Strings
  import opened Frame
  import opened Features
  import opened LimaFiles
  import opened LimaAnalysis

  /** `features`: the categorical predictors, then the numerical ones. */
  const ModelFeatures: seq<string> := ["C207", "C366", "periodo", "C208", "whoraT"]

  /** The dropna subset of a training set for a target. */
  function Needs(target: string): seq<string> {
    ModelFeatures + [target, "factor_expansion"]
  }

  /** X, y and the sample weights handed to train_test_split. */
  datatype Training = Training(x: Table, y: seq<Cell>, weights: seq<Cell>)

  /**
   * `df[df['OCUP300'] == 1].dropna(subset=features + [target, 'factor_expansion'])`
   * and its three selections: a KeyError at an absent label, otherwise
   * one row of X, y and weights per employed row with none of those
   * labels NaN, in row order.
   */
  function TrainingSet(t: Table, target: string): (r: Result<Training>)
    ensures r.Failure? <==> exists c | c in Needs(target) :: c !in t.columns
    ensures r.Failure? ==> r.error.MissingColumn? && r.error.column in Needs(target) && r.error.column !in t.columns
    ensures r.Success? ==>
              var rows := CompleteRows(EmployedRows(t).rows, Needs(target));
              r.value.x.columns == ModelFeatures &&
              |r.value.x.rows| == |r.value.y| == |r.value.weights| == |rows| &&
              forall k | 0 <= k < |rows| ::
                (forall c :: Get(r.value.x.rows[k], c) == if c in ModelFeatures then Get(rows[k], c) else Missing) &&
                r.value.y[k] == Get(rows[k], target) && r.value.weights[k] == Get(rows[k], "factor_expansion")
  {
    match DropNa(EmployedRows(t), Needs(target))
    case Failure(e) => Failure(e)
    case Success(d) =>
      assert forall c | c in ModelFeatures :: c in Needs(target);
      var x := Project(d, ModelFeatures);
      Success(Training(x.value, Column(d, target), Column(d, "factor_expansion")))
  }

  /**
   * Every training row is an employed person with all features, the
   * target and the weight present: neither y nor the weights hold a NaN.
   */
  lemma TrainingRows(t: Table, target: string, k: nat)
    requires TrainingSet(t, target).Success? && k < |TrainingSet(t, target).value.y|
    ensures var rows := CompleteRows(EmployedRows(t).rows, Needs(target));
            k < |rows| && rows[k] in t.rows && NumEq(Get(rows[k], "OCUP300"), 1.0) &&
            forall c | c in ModelFeatures :: !Get(TrainingSet(t, target).value.x.rows[k], c).Missing?
    ensures !TrainingSet(t, target).value.y[k].Missing? && !TrainingSet(t, target).value.weights[k].Missing?
  {
    var rows := CompleteRows(EmployedRows(t).rows, Needs(target));
    assert rows[k] in rows;
    assert target in Needs(target) && "factor_expansion" in Needs(target);
    assert forall c | c in ModelFeatures :: c in Needs(target);
  }

  /** The two training sets, regression first. */
  datatype Sets = Sets(regression: Training, classification: Training)

  /**
   * After the flag: the regression set predicts INGTOT, the
   * classification set es_informal; the first KeyError ends the script.
   */
  function Trained(t: Table): (r: Result<Sets>)
    ensures r.Success? <==>
              Informal(t).Success? &&
              TrainingSet(Informal(t).value, "INGTOT").Success? && TrainingSet(Informal(t).value, "es_informal").Success?
    ensures r.Success? ==>
              r.value.regression == TrainingSet(Informal(t).value, "INGTOT").value &&
              r.value.classification == TrainingSet(Informal(t).value, "es_informal").value
  {
    match Informal(t)
    case Failure(e) => Failure(e)
    case Success(u) =>
      match TrainingSet(u, "INGTOT")
      case Failure(e) => Failure(e)
      case Success(reg) =>
        match TrainingSet(u, "es_informal")
        case Failure(e) => Failure(e)
        case Success(cls) => Success(Sets(reg, cls))
  }

  /** The classification target is a 0/1 flag on every row: the stratified split sees two classes at most. */
  lemma ClassesAreFlags(t: Table, k: nat)
    requires Trained(t).Success? && k < |Trained(t).value.classification.y|
    ensures Trained(t).value.classification.y[k] in {Num(0.0), Num(1.0)}
  {
    var u := Informal(t).value;
    var rows := CompleteRows(EmployedRows(u).rows, Needs("es_informal"));
    assert rows[k] in rows;
    var i :| 0 <= i < |u.rows| && u.rows[i] == rows[k];
    assert i < |t.rows|;
    assert Get(u.rows[i], "es_informal") == Flag(NumEq(Get(t.rows[i], "OCUP300"), 1.0) && NumEq(Get(t.rows[i], "C361_1"), 2.0));
  }

  /** The classification target marks exactly the employed rows without ESSALUD cover (C361_1 == 2). */
  lemma ClassTargetMeaning(t: Table, k: nat)
    requires Trained(t).Success? && k < |Trained(t).value.classification.y|
    ensures var rows := CompleteRows(EmployedRows(Informal(t).value).rows, Needs("es_informal"));
            k < |rows| &&
            (Trained(t).value.classification.y[k] == Num(1.0) <==> NumEq(Get(rows[k], "C361_1"), 2.0))
  {
    var u := Informal(t).value;
    var rows := CompleteRows(EmployedRows(u).rows, Needs("es_informal"));
    assert rows[k] in rows;
    var i :| 0 <= i < |u.rows| && u.rows[i] == rows[k];
    assert i < |t.rows|;
    assert Get(u.rows[i], "es_informal") == Flag(NumEq(Get(t.rows[i], "OCUP300"), 1.0) && NumEq(Get(t.rows[i], "C361_1"), 2.0));
    assert Get(u.rows[i], "OCUP300") == Get(t.rows[i], "OCUP300") && Get(u.rows[i], "C361_1") == Get(t.rows[i], "C361_1");
  }

  /** The script up to the fits: a failed load ends it (the `except ... exit()`). */
  function ModelingRun(f: Folder, listing: seq<string>): (r: Result<Sets>)
    ensures LimaMaster(f, listing, IsCleaned).Failure? ==> r == Failure(LimaMaster(f, listing, IsCleaned).error)
    ensures LimaMaster(f, listing, IsCleaned).Success? ==> r == Trained(LimaMaster(f, listing, IsCleaned).value)
  {
    match LimaMaster(f, listing, IsCleaned)
    case Failure(e) => Failure(e)
    case Success(m) => Trained(m)
  }

  /** The script's statements in order. */
  method RunModeling(f: Folder, listing: seq<string>) returns (r: Result<Sets>)
    ensures r == ModelingRun(f, listing)
  {
    var master := LoadLima(f, listing, IsCleaned);
    if master.Failure? {
      return Failure(master.error);
    }
    var u := SetInformal(master.value);
    if u.Failure? {
      return Failure(u.error);
    }
    var reg := TrainingSet(u.value, "INGTOT");
    if reg.Failure? {
      return Failure(reg.error);
    }
    var cls := TrainingSet(u.value, "es_informal");
    if cls.Failure? {
      return Failure(cls.error);
    }
    r := Success(Sets(reg.value, cls.value));
  }
}
