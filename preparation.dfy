// The preparation step shared by the binary search and the verifier (their initialize methods):
// weights of every type, the sand expansion and the pattern weight threshold, computed from the
// types, red spaces and target ratio that were read from the input file.
module Preparation {
  import opened Results
  import opened Types
  import opened DualLP

  /** computeWeights for every type, in order; the first type that cannot be weighed stops it. */
  function WeighAll(types: seq<TypeInfo>): (r: Result<seq<TypeInfo>>)
    ensures r.Ok? <==> forall i | 0 <= i < |types| :: ComputeWeights(types[i]).Ok?
    ensures r.Err? ==> r.error == DivisionByZero
    ensures r.Ok? ==> |r.value| == |types|
    ensures r.Ok? ==> forall i | 0 <= i < |types| :: r.value[i] == ComputeWeights(types[i]).value
  {
    if types == [] then Ok([])
    else
      match ComputeWeights(types[0])
      case Err(e) => Err(e)
      case Ok(t) =>
        match WeighAll(types[1..])
        case Err(e) => Err(e)
        case Ok(rest) =>
          assert forall i | 1 <= i < |types| :: types[i] == types[1..][i - 1];
          Ok([t] + rest)
  }

  /**
   * initialize on values: the smallest type is the last one, the sand expansion is
   * 1/(1 - its size lower bound), and the threshold is the target ratio minus 1/1000.
   */
  function Prepared(types: seq<TypeInfo>, redSpace: seq<real>, targetRatio: real): (r: Result<Problem>)
    ensures r.Ok? <==>
      |types| > 0 && types[|types| - 1].sizeLB != 1.0 && forall i | 0 <= i < |types| :: ComputeWeights(types[i]).Ok?
    ensures |types| == 0 ==> r == Err(IndexOutOfRange)
    ensures |types| > 0 && r.Err? ==> r.error == DivisionByZero
  {
    if |types| == 0 then Err(IndexOutOfRange)
    else if 1.0 - types[|types| - 1].sizeLB == 0.0 then Err(DivisionByZero)
    else
      match WeighAll(types)
      case Err(e) => Err(e)
      case Ok(weighted) =>
        Ok(Problem(weighted, redSpace, targetRatio, targetRatio - Slack, 1.0 / (1.0 - types[|types| - 1].sizeLB)))
  }

  /**
   * A prepared problem keeps the types' sizes and fits and sets their weights, the red spaces and
   * the target; sand of the smallest size expands by the sand expansion to fill a whole bin, and
   * the threshold lies 1/1000 below the target.
   */
  lemma PreparedProblem(types: seq<TypeInfo>, redSpace: seq<real>, targetRatio: real)
    requires Prepared(types, redSpace, targetRatio).Ok?
    ensures var prob := Prepared(types, redSpace, targetRatio).value;
      |prob.types| == |types| && prob.redSpace == redSpace && prob.targetRatio == targetRatio &&
      prob.threshold + Slack == targetRatio &&
      prob.sandExpansion * (1.0 - types[|types| - 1].sizeLB) == 1.0 &&
      forall i | 0 <= i < |types| ::
        WeightsComputed(prob.types[i]) &&
        prob.types[i] == types[i].(redWeight := prob.types[i].redWeight, blueWeight := prob.types[i].blueWeight)
  {
    var prob := Prepared(types, redSpace, targetRatio).value;
    var last := types[|types| - 1].sizeLB;
    assert prob.sandExpansion == 1.0 / (1.0 - last);
    forall i | 0 <= i < |types|
      ensures WeightsComputed(prob.types[i])
      ensures prob.types[i] == types[i].(redWeight := prob.types[i].redWeight, blueWeight := prob.types[i].blueWeight)
    {
      assert prob.types[i] == ComputeWeights(types[i]).value;
    }
  }

  /**
   * initialize: the sand expansion first, then computeWeights on each type in place, then the
   * threshold.
   */
  method Initialize(types: seq<TypeInfo>, redSpace: seq<real>, targetRatio: real) returns (r: Result<Problem>)
    ensures r == Prepared(types, redSpace, targetRatio)
  {
    if |types| == 0 {
      return Err(IndexOutOfRange);
    }
    var smallest := types[|types| - 1].sizeLB;
    if 1.0 - smallest == 0.0 {
      return Err(DivisionByZero);
    }
    var sandExpansion := 1.0 / (1.0 - smallest);
    var weighted := new TypeInfo[|types|](i requires 0 <= i < |types| => types[i]);
    for i := 0 to weighted.Length
      invariant forall j | 0 <= j < i :: ComputeWeights(types[j]).Ok? && weighted[j] == ComputeWeights(types[j]).value
      invariant forall j | i <= j < weighted.Length :: weighted[j] == types[j]
    {
      var w := ComputeWeights(weighted[i]);
      if w.Err? {
        assert WeighAll(types).Err?;
        return Err(w.error);
      }
      weighted[i] := w.value;
    }
    var all := WeighAll(types);
    assert all.Ok?;
    assert weighted[..] == all.value;
    return Ok(Problem(weighted[..], redSpace, targetRatio, targetRatio - Slack, sandExpansion));
  }
}
