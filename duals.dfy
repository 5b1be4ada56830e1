/**
 * The dual values y1, y2, y3 that the verifier reads for every case k, and the range checks it
 * applies to them: Verifier's checkY1, checkY2 and checkY3, the hooks DualLPChecker calls.
 */
module Duals {
  import opened Results

  /** The values of y1, y2 and y3 for each case k, indexed by k. */
  datatype DualValues = DualValues(y1Values: seq<real>, y2Values: seq<real>, y3Values: seq<real>)

  const MaxY1: real := 5.0 / 100.0
  const MaxY3: real := 6.0 / 10.0

  /**
   * checkY1: y1 of case k, accepted exactly when 0 <= y1 <= 5/100. The weight w1 the source
   * passes along is not looked at.
   */
  function CheckY1(d: DualValues, k: nat): (r: Result<real>)
    ensures r.Ok? <==> k < |d.y1Values| && 0.0 <= d.y1Values[k] <= MaxY1
    ensures r.Ok? ==> r.value == d.y1Values[k]
    ensures r.Err? && k < |d.y1Values| ==> (r.error == Y1Negative <==> d.y1Values[k] < 0.0)
  {
    if k >= |d.y1Values| then Err(IndexOutOfRange)
    else if d.y1Values[k] < 0.0 then Err(Y1Negative)
    else if d.y1Values[k] > MaxY1 then Err(Y1TooLarge)
    else Ok(d.y1Values[k])
  }

  /** checkY2: y2 of case k, accepted exactly when it is non-negative. */
  function CheckY2(d: DualValues, k: nat): (r: Result<real>)
    ensures r.Ok? <==> k < |d.y2Values| && 0.0 <= d.y2Values[k]
    ensures r.Ok? ==> r.value == d.y2Values[k]
  {
    if k >= |d.y2Values| then Err(IndexOutOfRange)
    else if d.y2Values[k] < 0.0 then Err(Y2Negative)
    else Ok(d.y2Values[k])
  }

  /**
   * checkY3: accepts exactly 0 <= y3 <= 6/10 (the message of the source speaks of 1/2, the
   * comparison is with 6/10).
   */
  function CheckY3(y3: real): (r: Outcome)
    ensures r.Pass? <==> 0.0 <= y3 <= MaxY3
    ensures r.Fail? ==> (r.error == Y3Negative <==> y3 < 0.0)
    ensures r.Fail? ==> (r.error == Y3TooLarge <==> y3 > MaxY3)
  {
    if y3 < 0.0 then Fail(Y3Negative)
    else if y3 > MaxY3 then Fail(Y3TooLarge)
    else Pass
  }
}
