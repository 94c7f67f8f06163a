/**
 * Derived variables shared by the pipelines: the age band of
 * `pd.cut(age, bins=[14, 18, 25, 35, 45, 55, 65, inf], right=False)` and
 * the informality flag.
 */
module Features {
  import opened Common
  import opened Frame

  /** The left edges of the seven bins; the last bin is open to infinity. */
  const AgeEdges: seq<real> := [14.0, 18.0, 25.0, 35.0, 45.0, 55.0, 65.0]
  const AgeLabels: seq<string> := ["14-17", "18-24", "25-34", "35-44", "45-54", "55-64", "65+"]

  /** The index of the half-open bin [AgeEdges[i], AgeEdges[i+1]) holding age. */
  function BandIndex(age: real): (i: Option<nat>)
    ensures i.None? <==> age < AgeEdges[0]
    ensures i.Some? ==> i.value < |AgeEdges| && AgeEdges[i.value] <= age
    ensures i.Some? && i.value + 1 < |AgeEdges| ==> age < AgeEdges[i.value + 1]
  {
    if age < 14.0 then None
    else if age < 18.0 then Some(0)
    else if age < 25.0 then Some(1)
    else if age < 35.0 then Some(2)
    else if age < 45.0 then Some(3)
    else if age < 55.0 then Some(4)
    else if age < 65.0 then Some(5)
    else Some(6)
  }

  /** pd.cut on one cell: a band label, or NaN below 14 and for a missing or non-numeric age. */
  function AgeBand(c: Cell): (r: Cell)
    ensures r.Missing? || r.Text?
    ensures r.Text? <==> c.Num? && c.value >= 14.0
    ensures r.Text? ==> exists i | 0 <= i < |AgeLabels| ::
              r.text == AgeLabels[i] && AgeEdges[i] <= c.value && (i + 1 < |AgeEdges| ==> c.value < AgeEdges[i + 1])
  {
    if c.Num? then
      match BandIndex(c.value)
      case None => Missing
      case Some(i) => Text(AgeLabels[i])
    else Missing
  }

  /** The bins are left-closed: each edge falls in the bin it opens, so 18 is '18-24'. */
  lemma {:induction false} EdgeOpensItsBin(i: nat)
    requires i < |AgeEdges|
    ensures AgeBand(Num(AgeEdges[i])) == Text(AgeLabels[i])
  {
    assert BandIndex(AgeEdges[i]) == Some(i) by {
      var b := BandIndex(AgeEdges[i]);
      assert forall j | 0 <= j < i :: AgeEdges[j] < AgeEdges[i];
      assert forall j | i < j < |AgeEdges| :: AgeEdges[i] < AgeEdges[j];
    }
  }

  /** Band order follows age order. */
  lemma {:induction false} BandMonotone(a: real, b: real)
    requires 14.0 <= a <= b
    ensures BandIndex(a).Some? && BandIndex(b).Some? && BandIndex(a).value <= BandIndex(b).value
  {
  }

  /** The 0/1 indicator as a cell. */
  function Flag(b: bool): (r: Cell)
    ensures r.Num? && (r.value == 1.0 <==> b) && (r.value == 0.0 <==> !b)
  {
    Num(if b then 1.0 else 0.0)
  }

  /** (OCUP300 == 'Ocupado') & (C361_1 == 2), on a frame whose OCUP300 has been recoded to labels. */
  predicate InformalByLabel(row: Row) {
    Get(row, "OCUP300") == Text("Ocupado") && NumEq(Get(row, "C361_1"), 2.0)
  }

  /** (OCUP300 == 1) & (C361_1 == 2), on the numeric codes. */
  predicate InformalByCode(row: Row) {
    NumEq(Get(row, "OCUP300"), 1.0) && NumEq(Get(row, "C361_1"), 2.0)
  }

  /** Recoding OCUP300 with a table that maps exactly code 1 to 'Ocupado' turns one rule into the other. */
  lemma InformalRulesAgree(row: Row, m: map<int, string>)
    requires forall code | code in m :: m[code] == "Ocupado" <==> code == 1
    requires 1 in m
    ensures InformalByLabel(row["OCUP300" := Recode(Get(row, "OCUP300"), m)]) == InformalByCode(row)
  {
    var c := Get(row, "OCUP300");
    var row' := row["OCUP300" := Recode(c, m)];
    assert Get(row', "C361_1") == Get(row, "C361_1");
    if NumEq(c, 1.0) {
      assert c.value.Floor == 1;
    }
  }
}
