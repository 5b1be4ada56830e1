/**
 * BinarySearchSH: for every case k that needs checking, a bisection for a value of y3 that makes
 * the simple dual LP of that case feasible; the values found are kept per case.
 */
module BinarySearch {
  import opened Results
  import opened Types
  import opened Pattern
  import opened Feasibility
  import opened Solver
  import opened DualLP

  /** The instance BinarySearchSH's checkDualLP searches: every type at weight (1 - y3) W + y3 V. */
  function SHInstance(prob: Problem, k: int, y3: real): Instance
  {
    Instance(TypeSizes(prob.types), MixedWeights(prob.types, k, y3), AllPatterns, prob.sandExpansion)
  }

  /** BinarySearchSH's checkDualLP on values: the simple dual LP of that instance. */
  function SHDualLP(prob: Problem, k: int, y3: real): Result<Option<seq<Entry>>>
  {
    Solution(SHInstance(prob, k, y3), prob.targetRatio - Slack)
  }

  const MaxIter: nat := 20
  const Tolerance: real := 1.0 / 10000000.0
  const FirstCenter: real := 3.0 / 16.0

  /** A search result that shows the dual LP feasible: no pattern, or one within the target. */
  predicate Feasible(prob: Problem, p: Option<seq<Entry>>)
  {
    p.None? || WeightInclSand(p.value, prob.sandExpansion) <= prob.targetRatio
  }

  function Abs(x: real): (r: real)
    ensures r >= 0.0 && (r == x || r == -x)
  {
    if x < 0.0 then -x else x
  }

  /**
   * The interval after an infeasible try at `center`: when the w-weight of the violating pattern
   * exceeds its v-weight, the lower end moves up to the centre, otherwise the upper end down.
   */
  function Narrowed(lo: real, hi: real, center: real, up: bool): (real, real)
  {
    if up then (center, hi) else (lo, center)
  }

  function Midpoint(lo: real, hi: real): real
  {
    lo + (hi - lo) / 2.0
  }

  /** The dual LP check findY3 calls for each value of y3 it tries, as a function of y3. */
  type DualCheck = real -> Result<Option<seq<Entry>>>

  /**
   * findY3 on values, from the state of its loop: the interval [lo, hi], the centre to try, the
   * last change of the centre and the tries made so far; `check` is the dual LP check it calls.
   * The result is the first feasible centre, or none when the tries run out, the centre settles,
   * or the violating pattern weighs the same under w and v (then no y3 helps).
   */
  function Bisect(prob: Problem, k: int, check: DualCheck, lo: real, hi: real, center: real, diff: real, iter: nat)
    : Result<Option<real>>
    decreases MaxIter - iter
  {
    if iter >= MaxIter || diff <= Tolerance then Ok(None)
    else
      match check(center)
      case Err(e) => Err(e)
      case Ok(p) =>
        if Feasible(prob, p) then Ok(Some(center))
        else
          var d := WTotal(p.value, prob.types, k) - VTotal(p.value, prob.types, k);
          if d == 0.0 then Ok(None)
          else
            var (lo', hi') := Narrowed(lo, hi, center, d > 0.0);
            var c := Midpoint(lo', hi');
            Bisect(prob, k, check, lo', hi', c, Abs(c - center), iter + 1)
  }

  /** The check BinarySearchSH uses: its own checkDualLP for case k. */
  function SHCheck(prob: Problem, k: int): DualCheck
  {
    y3 => SHDualLP(prob, k, y3)
  }

  /** findY3(k): the search from [0, 1] with centre 3/16 and last change 1. */
  function SearchY3(prob: Problem, k: int): Result<Option<real>>
  {
    Bisect(prob, k, SHCheck(prob, k), 0.0, 1.0, FirstCenter, 1.0, 0)
  }

  /** The value the search hands back is a centre at which the dual LP is feasible. */
  lemma {:induction false} BisectFeasible(prob: Problem, k: int, check: DualCheck, lo: real, hi: real, center: real, diff: real, iter: nat)
    requires Bisect(prob, k, check, lo, hi, center, diff, iter).Ok?
    requires Bisect(prob, k, check, lo, hi, center, diff, iter).value.Some?
    ensures var y := Bisect(prob, k, check, lo, hi, center, diff, iter).value.value;
      check(y).Ok? && Feasible(prob, check(y).value)
    decreases MaxIter - iter
  {
    var p := check(center).value;
    if !Feasible(prob, p) {
      var d := WTotal(p.value, prob.types, k) - VTotal(p.value, prob.types, k);
      var (lo', hi') := Narrowed(lo, hi, center, d > 0.0);
      var c := Midpoint(lo', hi');
      BisectFeasible(prob, k, check, lo', hi', c, Abs(c - center), iter + 1);
    }
  }

  /**
   * One narrowing keeps 0 <= lo <= centre <= hi <= 1 with the new centre in the middle; from a
   * centre in the middle it halves the interval, and the change of the centre is then half the
   * new width.
   */
  lemma NarrowedBracket(lo: real, hi: real, center: real, up: bool)
    requires 0.0 <= lo <= center <= hi <= 1.0
    ensures var (lo', hi') := Narrowed(lo, hi, center, up);
      var c := Midpoint(lo', hi');
      lo <= lo' <= c <= hi' <= hi && hi' - lo' <= hi - lo && c - lo' == hi' - c
    ensures var (lo', hi') := Narrowed(lo, hi, center, up);
      center == Midpoint(lo, hi) ==>
        hi' - lo' == (hi - lo) / 2.0 && Abs(Midpoint(lo', hi') - center) == (hi' - lo') / 2.0
  {
  }

  /** The search only hands back values inside its interval, so findY3 only values in [0, 1]. */
  lemma {:induction false} BisectInBracket(prob: Problem, k: int, check: DualCheck, lo: real, hi: real, center: real, diff: real, iter: nat)
    requires 0.0 <= lo <= center <= hi <= 1.0
    requires Bisect(prob, k, check, lo, hi, center, diff, iter).Ok?
    requires Bisect(prob, k, check, lo, hi, center, diff, iter).value.Some?
    ensures lo <= Bisect(prob, k, check, lo, hi, center, diff, iter).value.value <= hi
    decreases MaxIter - iter
  {
    var p := check(center).value;
    if !Feasible(prob, p) {
      var d := WTotal(p.value, prob.types, k) - VTotal(p.value, prob.types, k);
      var (lo', hi') := Narrowed(lo, hi, center, d > 0.0);
      var c := Midpoint(lo', hi');
      NarrowedBracket(lo, hi, center, d > 0.0);
      BisectInBracket(prob, k, check, lo', hi', c, Abs(c - center), iter + 1);
    }
  }

  /** One infeasible round of the search: it goes on from the narrowed interval. */
  lemma BisectContinues(prob: Problem, k: int, check: DualCheck, lo: real, hi: real, center: real, diff: real,
                        iter: nat, es: seq<Entry>, lo': real, hi': real)
    requires iter < MaxIter && diff > Tolerance
    requires check(center) == Ok(Some(es)) && !Feasible(prob, Some(es))
    requires WTotal(es, prob.types, k) != VTotal(es, prob.types, k)
    requires (lo', hi') == Narrowed(lo, hi, center, WTotal(es, prob.types, k) > VTotal(es, prob.types, k))
    ensures Bisect(prob, k, check, lo, hi, center, diff, iter) ==
      Bisect(prob, k, check, lo', hi', Midpoint(lo', hi'), Abs(Midpoint(lo', hi') - center), iter + 1)
  {
  }

  /** Once the tries run out or the centre settles, the search ends without a value. */
  lemma BisectStops(prob: Problem, k: int, check: DualCheck, lo: real, hi: real, center: real, diff: real,
                    iter: nat)
    requires iter >= MaxIter || diff <= Tolerance
    ensures Bisect(prob, k, check, lo, hi, center, diff, iter) == Ok(None)
  {
  }

  /** A round whose dual LP fails, or whose pattern is feasible or balanced, ends the search. */
  lemma BisectEnds(prob: Problem, k: int, check: DualCheck, lo: real, hi: real, center: real, diff: real,
                   iter: nat)
    requires iter < MaxIter && diff > Tolerance
    ensures check(center).Err? ==> Bisect(prob, k, check, lo, hi, center, diff, iter) == Err(check(center).error)
    ensures check(center).Ok? && Feasible(prob, check(center).value) ==>
      Bisect(prob, k, check, lo, hi, center, diff, iter) == Ok(Some(center))
    ensures (check(center).Ok? && !Feasible(prob, check(center).value) &&
             WTotal(check(center).value.value, prob.types, k) == VTotal(check(center).value.value, prob.types, k)) ==>
      Bisect(prob, k, check, lo, hi, center, diff, iter) == Ok(None)
  {
  }

  /** A feasible simple dual LP of BinarySearchSH bounds every pattern of it by the target. */
  lemma FeasibleWithinTarget(prob: Problem, k: int, y: real, r: Result<Option<seq<Entry>>>)
    requires r == SHDualLP(prob, k, y) && r.Ok? && Feasible(prob, r.value)
    ensures WithinTarget(SHInstance(prob, k, y), prob.targetRatio)
  {
    var inst := SHInstance(prob, k, y);
    assert Solution(inst, prob.targetRatio - Slack) == r;
    SimpleWithinTarget(prob, inst);
  }

  /**
   * A value findY3 reports is in [0, 1], and every pattern of the dual LP at that value weighs,
   * with sand, at most the target.
   */
  lemma SearchY3Sound(prob: Problem, k: int, y: real)
    requires SearchY3(prob, k) == Ok(Some(y))
    ensures 0.0 <= y <= 1.0 && WithinTarget(SHInstance(prob, k, y), prob.targetRatio)
  {
    var check := SHCheck(prob, k);
    BisectInBracket(prob, k, check, 0.0, 1.0, FirstCenter, 1.0, 0);
    BisectFeasible(prob, k, check, 0.0, 1.0, FirstCenter, 1.0, 0);
    FeasibleWithinTarget(prob, k, y, check(y));
  }

  /** The outcome of findY3 for every case, in order. */
  function Searches(prob: Problem): (found: seq<Result<Option<real>>>)
    ensures |found| == |prob.redSpace|
  {
    seq(|prob.redSpace|, k => SearchY3(prob, k))
  }

  /**
   * start on values from case k on, given the outcome of findY3 for each case: every case that
   * needs checking gets a value of y3.
   */
  function SearchFrom(prob: Problem, found: seq<Result<Option<real>>>, k: nat): Outcome
    requires k <= |prob.redSpace| == |found|
    decreases |prob.redSpace| - k
  {
    if k == |prob.redSpace| then Pass
    else if !IsNecessaryToCheckCase(prob, k) then SearchFrom(prob, found, k + 1)
    else
      match found[k]
      case Err(e) => Fail(e)
      case Ok(None) => Fail(NoY3Found(k))
      case Ok(Some(_)) => SearchFrom(prob, found, k + 1)
  }

  /** start on values: the case without r first, then the searches. */
  function SearchVerdict(prob: Problem): Outcome
  {
    match KPlusOneVerdict(prob)
    case Fail(e) => Fail(e)
    case Pass => SearchFrom(prob, Searches(prob), 0)
  }

  /** The searches from case k on succeed exactly when each case from k on that needs it finds a value. */
  lemma {:induction false} SearchFromPasses(prob: Problem, found: seq<Result<Option<real>>>, k: nat)
    requires k <= |prob.redSpace| == |found|
    ensures SearchFrom(prob, found, k).Pass? <==>
      forall j | k <= j < |prob.redSpace| && IsNecessaryToCheckCase(prob, j) :: found[j].Ok? && found[j].value.Some?
    decreases |prob.redSpace| - k
  {
    if k < |prob.redSpace| {
      SearchFromPasses(prob, found, k + 1);
      if !IsNecessaryToCheckCase(prob, k) || (found[k].Ok? && found[k].value.Some?) {
        assert SearchFrom(prob, found, k) == SearchFrom(prob, found, k + 1);
      } else {
        assert SearchFrom(prob, found, k).Fail?;
      }
    }
  }

  /** A failing search names the first case that needs checking and has no value. */
  lemma {:induction false} SearchFromFails(prob: Problem, found: seq<Result<Option<real>>>, k: nat)
    requires k <= |prob.redSpace| == |found|
    requires SearchFrom(prob, found, k).Fail?
    ensures exists j | k <= j < |prob.redSpace| ::
      IsNecessaryToCheckCase(prob, j) && !(found[j].Ok? && found[j].value.Some?) &&
      SearchFrom(prob, found, k).error == (if found[j].Err? then found[j].error else NoY3Found(j))
    decreases |prob.redSpace| - k
  {
    if IsNecessaryToCheckCase(prob, k) && !(found[k].Ok? && found[k].value.Some?) {
      assert IsNecessaryToCheckCase(prob, k) && !(found[k].Ok? && found[k].value.Some?);
    } else {
      SearchFromFails(prob, found, k + 1);
    }
  }

  /**
   * What a successful run of the binary search establishes: no pattern without r is heavier
   * than the target, and for every case that needs checking the value found makes every pattern
   * of its dual LP weigh at most the target.
   */
  lemma SearchVerdictSound(prob: Problem)
    requires prob.threshold <= prob.targetRatio && SearchVerdict(prob).Pass?
    ensures WithinTarget(WithoutRInstance(prob), prob.targetRatio)
    ensures forall k | 0 <= k < |prob.redSpace| && IsNecessaryToCheckCase(prob, k) ::
      SearchY3(prob, k).Ok? && SearchY3(prob, k).value.Some? &&
      WithinTarget(SHInstance(prob, k, SearchY3(prob, k).value.value), prob.targetRatio)
  {
    KPlusOneWithinTarget(prob);
    var found := Searches(prob);
    SearchFromPasses(prob, found, 0);
    forall k | 0 <= k < |prob.redSpace| && IsNecessaryToCheckCase(prob, k)
      ensures SearchY3(prob, k).Ok? && SearchY3(prob, k).value.Some?
      ensures WithinTarget(SHInstance(prob, k, SearchY3(prob, k).value.value), prob.targetRatio)
    {
      assert found[k] == SearchY3(prob, k);
      SearchY3Sound(prob, k, SearchY3(prob, k).value.value);
    }
  }

  /**
   * The values of y3 per case after start has handled the cases before k: each of those cases
   * that needs checking holds the value its search found, and every other case is as before.
   */
  ghost predicate Stored(prob: Problem, found: seq<Result<Option<real>>>, ys: seq<Option<real>>,
                         before: seq<Option<real>>, k: nat)
    requires |found| == |ys| == |before| == |prob.redSpace|
  {
    forall j | 0 <= j < |prob.redSpace| ::
      if j < k && IsNecessaryToCheckCase(prob, j) then found[j] == Ok(ys[j]) else ys[j] == before[j]
  }

  /** Handling case k extends what is stored to the cases before k + 1. */
  lemma StoredStep(prob: Problem, found: seq<Result<Option<real>>>, ys: seq<Option<real>>,
                   ys': seq<Option<real>>, before: seq<Option<real>>, k: nat)
    requires |found| == |ys| == |ys'| == |before| == |prob.redSpace| && k < |prob.redSpace|
    requires Stored(prob, found, ys, before, k)
    requires IsNecessaryToCheckCase(prob, k) ==> found[k] == Ok(ys'[k]) && ys' == ys[k := ys'[k]]
    requires !IsNecessaryToCheckCase(prob, k) ==> ys' == ys
    ensures Stored(prob, found, ys', before, k + 1)
  {
    forall j | 0 <= j < |prob.redSpace| && j != k
      ensures ys'[j] == ys[j]
    {
    }
  }

  /** The binary search object: the problem and the values of y3 found so far, per case. */
  class BinarySearchSH {
    const prob: Problem
    var y3Values: seq<Option<real>>

    ghost predicate Valid()
      reads this
    {
      |y3Values| == |prob.redSpace|
    }

    /** After initialize: no value found for any case yet. */
    constructor (prob: Problem)
      ensures this.prob == prob && Valid()
      ensures forall k | 0 <= k < |y3Values| :: y3Values[k].None?
    {
      this.prob := prob;
      y3Values := seq(|prob.redSpace|, _ => None);
    }

    /** checkDualLP: sizes t_i and weights (1 - y3) W_i(k) + y3 V_i(k), searched as a simple dual LP. */
    method CheckDualLP(k: int, y3: real) returns (r: Result<KnapsackPattern?>)
      ensures KnapsackSolver.Reported(r) == SHDualLP(prob, k, y3)
      ensures r.Ok? && r.value != null ==> r.value.Valid()
    {
      var sizes, weights := BuildMixedCase(prob.types, k, y3);
      r := CheckSimpleDualLP(prob, sizes, weights);
    }

    /** The arrays of BinarySearchSH's checkDualLP: every type's size and its weight (1 - y3) W + y3 V. */
    method BuildMixedCase(types: seq<TypeInfo>, k: int, y3: real) returns (sizes: seq<real>, weights: seq<real>)
      ensures sizes == TypeSizes(types) && weights == MixedWeights(types, k, y3)
    {
      var allSizes := new real[|types|];
      var ws := new real[allSizes.Length];
      for i := 0 to |types|
        invariant forall j | 0 <= j < i :: allSizes[j] == types[j].sizeLB
        invariant forall j | 0 <= j < i :: ws[j] == Mixed(types[j], k, y3)
      {
        allSizes[i] := types[i].sizeLB;
        ws[i] := Mixed(types[i], k, y3);
      }
      sizes, weights := allSizes[..], ws[..];
    }

    /**
     * One round of findY3 at y3 = center: the dual LP, whether its heaviest pattern is feasible,
     * and the difference of that pattern's W and V totals.
     */
    method Probe(k: nat, center: real) returns (found: Result<Option<seq<Entry>>>, feasible: bool, d: real)
      ensures found == SHCheck(prob, k)(center)
      ensures found.Ok? ==> feasible == Feasible(prob, found.value)
      ensures found.Ok? && !feasible ==>
        d == WTotal(found.value.value, prob.types, k) - VTotal(found.value.value, prob.types, k)
    {
      var r := CheckDualLP(k, center);
      if r.Err? {
        return Err(r.error), false, 0.0;
      }
      var p := r.value;
      if p == null {
        return Ok(None), true, 0.0;
      }
      found := Ok(Some(p.items));
      if p.GetTotalWeightInclSand(prob.sandExpansion) <= prob.targetRatio {
        return found, true, 0.0;
      }
      var totalW := p.GetTotalWeightWInclSand(prob.types, k, prob.sandExpansion);
      var totalV := p.GetTotalWeightVInclSand(prob.types, k, prob.sandExpansion);
      feasible, d := false, totalW - totalV;
    }

    /**
     * One round of findY3's loop at y3 = center: either the search ends here with the result
     * findY3 hands back, or the interval is narrowed towards the balanced side and the search goes on
     * from the new centre.
     */
    method Round(k: nat, ellipsoid: array<real>, center: real, diff: real, ghost iter: nat)
      returns (stop: Option<Result<Option<real>>>, newCenter: real, newDiff: real)
      requires ellipsoid.Length == 2 && iter < MaxIter && diff > Tolerance
      modifies ellipsoid
      ensures var result := Bisect(prob, k, SHCheck(prob, k), old(ellipsoid[0]), old(ellipsoid[1]), center, diff, iter);
        if stop.Some? then stop.value == result
        else result == Bisect(prob, k, SHCheck(prob, k), ellipsoid[0], ellipsoid[1], newCenter, newDiff, iter + 1)
    {
      ghost var check, lo, hi := SHCheck(prob, k), ellipsoid[0], ellipsoid[1];
      BisectEnds(prob, k, check, lo, hi, center, diff, iter);
      var found, feasible, d := Probe(k, center);
      if found.Err? {
        return Some(Err(found.error)), center, diff;
      }
      if feasible {
        return Some(Ok(Some(center))), center, diff;
      }
      if d == 0.0 {
        return Some(Ok(None)), center, diff;
      } else if d > 0.0 {
        ellipsoid[0] := center;
      } else {
        ellipsoid[1] := center;
      }
      newCenter := ellipsoid[0] + (ellipsoid[1] - ellipsoid[0]) / 2.0;
      assert newCenter == Midpoint(ellipsoid[0], ellipsoid[1]);
      BisectContinues(prob, k, check, lo, hi, center, diff, iter, found.value.value, ellipsoid[0], ellipsoid[1]);
      newDiff := Abs(newCenter - center);
      stop := None;
    }

    /**
     * findY3: the bisection for case k; a feasible value is also stored for the case.
     */
    method FindY3(k: nat) returns (r: Result<Option<real>>)
      requires Valid() && k < |prob.redSpace|
      modifies this
      ensures Valid()
      ensures r == SearchY3(prob, k)
      ensures y3Values == if r.Ok? && r.value.Some? then old(y3Values)[k := r.value] else old(y3Values)
    {
      r := Bisection(k);
      if r.Ok? && r.value.Some? {
        y3Values := y3Values[k := r.value];
      }
    }

    /** The loop of findY3: rounds from [0, 1] and centre 3/16 until one ends the search. */
    method Bisection(k: nat) returns (r: Result<Option<real>>)
      ensures r == SearchY3(prob, k)
    {
      ghost var goal := SearchY3(prob, k);
      var ellipsoid := new real[2];
      ellipsoid[0], ellipsoid[1] := 0.0, 1.0;
      var center := FirstCenter;
      var diff := 1.0;
      var iter: nat := 0;
      while iter < MaxIter && diff > Tolerance
        invariant iter <= MaxIter
        invariant goal == Bisect(prob, k, SHCheck(prob, k), ellipsoid[0], ellipsoid[1], center, diff, iter)
        decreases MaxIter - iter
      {
        var stop;
        stop, center, diff := Round(k, ellipsoid, center, diff, iter);
        iter := iter + 1;
        if stop.Some? {
          return stop.value;
        }
      }
      BisectStops(prob, k, SHCheck(prob, k), ellipsoid[0], ellipsoid[1], center, diff, iter);
      return Ok(None);
    }

    /**
     * The body of start's loop for case k, given the outcome of findY3 for each case: a case that
     * needs no check is skipped; otherwise findY3 runs, and start stops unless it found a value.
     */
    method StartCase(k: nat, ghost found: seq<Result<Option<real>>>) returns (stop: Option<Outcome>)
      requires Valid() && k < |prob.redSpace| == |found|
      requires forall k {:trigger SearchY3(prob, k)} | 0 <= k < |found| :: found[k] == SearchY3(prob, k)
      modifies this
      ensures Valid()
      ensures stop.Some? ==> stop.value.Fail? && stop.value == SearchFrom(prob, found, k)
      ensures stop.None? ==> SearchFrom(prob, found, k) == SearchFrom(prob, found, k + 1)
      ensures stop.None? && IsNecessaryToCheckCase(prob, k) ==>
        found[k] == Ok(y3Values[k]) && y3Values == old(y3Values)[k := y3Values[k]]
      ensures stop.None? && !IsNecessaryToCheckCase(prob, k) ==> y3Values == old(y3Values)
    {
      if !IsNecessaryToCheckCase(prob, k) {
        return None;
      }
      var y3 := FindY3(k);
      if y3.Err? {
        return Some(Fail(y3.error));
      }
      if y3.value.None? {
        return Some(Fail(NoY3Found(k)));
      }
      return None;
    }

    /**
     * start's loop over the cases: findY3 for every case that needs checking, stopping at the
     * first case without a value. When it passes, every such case holds the value found.
     */
    method SearchCases(ghost found: seq<Result<Option<real>>>) returns (r: Outcome)
      requires Valid() && |found| == |prob.redSpace|
      requires forall k {:trigger SearchY3(prob, k)} | 0 <= k < |found| :: found[k] == SearchY3(prob, k)
      modifies this
      ensures Valid()
      ensures r == SearchFrom(prob, found, 0)
      ensures r.Pass? ==> forall k | 0 <= k < |prob.redSpace| ::
        if IsNecessaryToCheckCase(prob, k) then found[k] == Ok(y3Values[k]) else y3Values[k] == old(y3Values)[k]
    {
      for k := 0 to |prob.redSpace|
        invariant Valid()
        invariant SearchFrom(prob, found, 0) == SearchFrom(prob, found, k)
        invariant Stored(prob, found, y3Values, old(y3Values), k)
      {
        ghost var before := y3Values;
        var stop := StartCase(k, found);
        if stop.Some? {
          return stop.value;
        }
        StoredStep(prob, found, before, y3Values, old(y3Values), k);
      }
      return Pass;
    }

    /**
     * start: the case without r, then the search of every case. When it passes, every case that
     * needs checking holds the value findY3 found for it.
     */
    method Start() returns (r: Outcome)
      requires Valid()
      modifies this
      ensures Valid()
      ensures r == SearchVerdict(prob)
      ensures r.Pass? ==> forall k | 0 <= k < |prob.redSpace| ::
        if IsNecessaryToCheckCase(prob, k) then Searches(prob)[k] == Ok(y3Values[k]) else y3Values[k] == old(y3Values)[k]
    {
      r := CheckKPlusOne(prob);
      if r.Pass? {
        r := SearchCases(Searches(prob));
      }
    }
  }
}
