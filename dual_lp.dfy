/**
 * The dual LP checks shared by the binary search and the verifier (DualLPChecker): for a case k
 * (the class of the item r) they build the knapsack instance of the dual LP, with two or three
 * large types in front of the non-large ones, and ask the solver for its heaviest pattern.
 */
module DualLP {
  import opened Results
  import opened Types
  import opened Pattern
  import opened Feasibility
  import opened Solver
  import opened Duals

  /** The parameters every checker holds: the non-large types and the problem constants. */
  datatype Problem = Problem(
    types: seq<TypeInfo>,     // the non-large types, by decreasing size lower bound
    redSpace: seq<real>,      // the red spaces; case k is the class of r
    targetRatio: real,
    threshold: real,          // patternWeightThreshold
    sandExpansion: real)

  const TwoThirds: real := 2.0 / 3.0
  const OneHalf: real := 1.0 / 2.0
  const OneThird: real := 1.0 / 3.0
  /** checkSimpleDualLP ignores patterns that weigh at most the target minus this margin. */
  const Slack: real := 1.0 / 1000.0

  // ----- the columns of the knapsack instances -----

  /** The size lower bounds of the types, in order. */
  function TypeSizes(types: seq<TypeInfo>): seq<real>
  {
    seq(|types|, i requires 0 <= i < |types| => types[i].sizeLB)
  }

  /** The weights (1 - y3) W + y3 V of the types in case k. */
  function MixedWeights(types: seq<TypeInfo>, k: int, y3: real): seq<real>
  {
    seq(|types|, i requires 0 <= i < |types| => Mixed(types[i], k, y3))
  }

  /** The blue weights of the types. */
  function BlueWeights(types: seq<TypeInfo>): seq<real>
  {
    seq(|types|, i requires 0 <= i < |types| => types[i].blueWeight)
  }

  /** Sizes when r is small (and without r): large types (2/3, 1] and (1/2, 2/3] first. */
  function SmallSizes(types: seq<TypeInfo>): seq<real>
  {
    [TwoThirds, OneHalf] + TypeSizes(types)
  }

  /** Weights when r is small: 1 for (2/3, 1], 1 - y3 for (1/2, 2/3] (w = 1, v = 0). */
  function SmallWeights(types: seq<TypeInfo>, k: int, y3: real): seq<real>
  {
    [1.0, 1.0 - y3] + MixedWeights(types, k, y3)
  }

  /** Sizes when r is medium: the large types (2/3, 1], (1 - t_{t-1}, 2/3] and (1/2, 1 - t_{t-1}]. */
  function MediumSizes(types: seq<TypeInfo>, t: nat): seq<real>
    requires 0 < t < |types|
  {
    [TwoThirds, 1.0 - types[t - 1].sizeLB, OneHalf] + TypeSizes(types)
  }

  /** Weights of the simple dual LP when r is medium. */
  function MediumWeights(types: seq<TypeInfo>, k: int, y3: real): seq<real>
  {
    [1.0, 1.0, 1.0 - y3] + MixedWeights(types, k, y3)
  }

  /**
   * When the type above r has size lower bound 1/3, the large types (2/3, 1] and (1 - t_{t-1}, 2/3]
   * both have size 2/3. With weight 1 each and sand expansion at most 3/2 both are kept, so the
   * model refuses every medium instance of such a case.
   */
  lemma MediumThirdRefused(types: seq<TypeInfo>, t: nat, weights: seq<real>, check: Check, sand: real, threshold: real)
    requires 0 < t < |types| && types[t - 1].sizeLB == OneThird
    requires |weights| >= 2 && weights[0] == 1.0 && weights[1] == 1.0 && sand <= 3.0 / 2.0
    ensures Solution(Instance(MediumSizes(types, t), weights, check, sand), threshold).Err?
  {
    var inst := Instance(MediumSizes(types, t), weights, check, sand);
    SolutionErrors(inst, threshold);
    AllReadable(inst);
    if Readable(inst) {
      assert inst.sizes[0] == TwoThirds && inst.sizes[1] == TwoThirds;
      assert Expansions(inst)[0] == 1.0 / TwoThirds == Expansions(inst)[1];
      assert Kept(inst, 0) && Kept(inst, 1);
    }
  }

  /** omega for the first n types, or the division by zero of the first type that fails. */
  function OmegaWeights(types: seq<TypeInfo>, t: nat, y1: real, y2: real, y3: real, n: nat): (r: Result<seq<real>>)
    requires t < |types| && n <= |types|
    ensures r.Err? <==> exists i | 0 <= i < n :: OmegaDividesByZero(types, i, t)
    ensures r.Err? ==> r.error == DivisionByZero
    ensures r.Ok? ==> |r.value| == n && forall i | 0 <= i < n :: ComputeOmega(types, i, t, y1, y2, y3) == Ok(r.value[i])
  {
    if n == 0 then Ok([])
    else
      match OmegaWeights(types, t, y1, y2, y3, n - 1)
      case Err(e) => Err(e)
      case Ok(init) =>
        match ComputeOmega(types, n - 1, t, y1, y2, y3)
        case Err(e) => Err(e)
        case Ok(o) => Ok(init + [o])
  }

  // ----- the class of r -----

  /** The indices below n of the types whose needs is k, each once, in increasing order. */
  function ClassMembers(types: seq<TypeInfo>, k: int, n: nat): (r: seq<nat>)
    requires n <= |types|
    ensures forall j | 0 <= j < |r| :: r[j] < n && types[r[j]].needs == k
    ensures forall i | 0 <= i < n && types[i].needs == k :: i in r
    ensures forall a, b | 0 <= a < b < |r| :: r[a] < r[b]
  {
    if n == 0 then []
    else
      var init := ClassMembers(types, k, n - 1);
      init + (if types[n - 1].needs == k then [n - 1] else [])
  }

  /** findTypesForRedClass: every type whose needs is k, in increasing order. */
  function TypesForRedClass(types: seq<TypeInfo>, k: int): (r: seq<nat>)
    ensures forall j | 0 <= j < |r| :: r[j] < |types| && types[r[j]].needs == k
    ensures forall i | 0 <= i < |types| && types[i].needs == k :: i in r
    ensures forall a, b | 0 <= a < b < |r| :: r[a] < r[b]
  {
    ClassMembers(types, k, |types|)
  }

  /** The first index from `from` on whose needs is k. */
  function FirstOfClass(types: seq<TypeInfo>, k: int, from: nat): (r: Result<nat>)
    requires from <= |types|
    ensures r.Ok? <==> exists i | from <= i < |types| :: types[i].needs == k
    ensures r.Ok? ==> from <= r.value < |types| && types[r.value].needs == k
    ensures r.Ok? ==> forall j | from <= j < r.value :: types[j].needs != k
    ensures r.Err? ==> r.error == NoTypeForClass
    decreases |types| - from
  {
    if from == |types| then Err(NoTypeForClass)
    else if types[from].needs == k then Ok(from)
    else FirstOfClass(types, k, from + 1)
  }

  /** computeTypeOfRFromClass: the lowest index whose needs is k; none is an error. */
  function TypeOfRFromClass(types: seq<TypeInfo>, k: int): (r: Result<nat>)
    ensures r.Ok? <==> exists i | 0 <= i < |types| :: types[i].needs == k
    ensures r.Ok? ==> r.value < |types| && types[r.value].needs == k
    ensures r.Ok? ==> forall j | 0 <= j < r.value :: types[j].needs != k
    ensures r.Err? ==> r.error == NoTypeForClass
  {
    FirstOfClass(types, k, 0)
  }

  /**
   * isNecessaryToCheckCase: case k is checked exactly when its red space is not zero and some
   * type has needs k.
   */
  function IsNecessaryToCheckCase(prob: Problem, k: nat): (b: bool)
    requires k < |prob.redSpace|
    ensures b <==> prob.redSpace[k] != 0.0 && exists i | 0 <= i < |prob.types| :: prob.types[i].needs == k
  {
    if prob.redSpace[k] == 0.0 then false
    else
      var members := TypesForRedClass(prob.types, k);
      assert members != [] ==> prob.types[members[0]].needs == k;
      |members| != 0
  }

  /** In a case that is checked, the type of r exists: computeTypeOfRFromClass does not throw. */
  lemma NecessaryCaseHasTypeOfR(prob: Problem, k: nat)
    requires k < |prob.redSpace| && IsNecessaryToCheckCase(prob, k)
    ensures TypeOfRFromClass(prob.types, k).Ok?
  {
  }

  // ----- the special patterns q1 and q3 -----

  /** computeWeightOfQ1: 1 for the item 1 - s(r), the full weight of r, and sand for t_{t-1} - t_t. */
  function WeightOfQ1(types: seq<TypeInfo>, t: nat, sand: real): real
    requires 0 < t < |types|
  {
    1.0 + (types[t].blueWeight + types[t].redWeight) + (types[t - 1].sizeLB - types[t].sizeLB) * sand
  }

  /** The pattern built by adding one item of size a, then one of size b, to an empty pattern. */
  function PairPattern(a: real, wa: real, b: real, wb: real): seq<Entry>
  {
    Added(Added([], a, wa, 1), b, wb, 1)
  }

  /** Two different sizes give two entries of one item each; the totals are the sums. */
  lemma PairPatternTotals(a: real, wa: real, b: real, wb: real)
    requires a != b
    ensures PairPattern(a, wa, b, wb) == [Entry(a, wa, 1), Entry(b, wb, 1)]
    ensures SizeOf(PairPattern(a, wa, b, wb)) == a + b
    ensures WeightOf(PairPattern(a, wa, b, wb)) == wa + wb
  {
    var one := Added([], a, wa, 1);
    assert one == [Entry(a, wa, 1)];
    assert !HasSize(one, b);
    var two := [Entry(a, wa, 1), Entry(b, wb, 1)];
    assert PairPattern(a, wa, b, wb) == two;
    assert two[1..] == [Entry(b, wb, 1)];
    assert two[1..][1..] == [];
    ScaleOne(a);
    ScaleOne(wa);
    ScaleOne(b);
    ScaleOne(wb);
    assert SizeOf(two[1..]) == b + SizeOf([]);
    assert WeightOf(two[1..]) == wb + WeightOf([]);
  }

  /**
   * w1 is the weight with sand of the pattern q1: an item of size 1 - t_{t-1} and weight 1 and
   * the item r of type t at its full weight.
   */
  lemma WeightOfQ1IsPatternWeight(types: seq<TypeInfo>, t: nat, sand: real)
    requires 0 < t < |types| && 1.0 - types[t - 1].sizeLB != types[t].sizeLB
    ensures WeightOfQ1(types, t, sand) ==
      WeightInclSand(PairPattern(1.0 - types[t - 1].sizeLB, 1.0, types[t].sizeLB,
                                 types[t].blueWeight + types[t].redWeight), sand)
  {
    var a, b := 1.0 - types[t - 1].sizeLB, types[t].sizeLB;
    PairPatternTotals(a, 1.0, b, types[t].blueWeight + types[t].redWeight);
  }

  /** The weight of q3 as compareWithQ3 computes it, with the term y1 (1 - red)/(1 + red). */
  function WeightOfQ3(prob: Problem, t: nat, k: int, y1: real, y3: real): real
    requires 0 < t < |prob.types| && 1.0 + prob.types[t].redFraction != 0.0
  {
    var tt := prob.types[t];
    var sandWeight := prob.sandExpansion * (prob.types[t - 1].sizeLB - tt.sizeLB);
    var w3k := 1.0 + tt.blueWeight + sandWeight;
    var v3k := 1.0 + GetWeightV(tt, k) + sandWeight;
    (1.0 - y3) * w3k + y3 * v3k + y1 * ((1.0 - tt.redFraction) / (1.0 + tt.redFraction))
  }

  /** The weight compareWithQ3 gives the item of type t in q3: (1 - y3) blue + y3 V. */
  function Q3ItemWeight(tt: TypeInfo, k: int, y3: real): real
  {
    tt.blueWeight * (1.0 - y3) + GetWeightV(tt, k) * y3
  }

  /** The hand-built pattern q3: an item 1 - t_{t-1} of weight 1 and an item of type t. */
  function Q3Pattern(prob: Problem, t: nat, k: int, y3: real): seq<Entry>
    requires 0 < t < |prob.types|
  {
    PairPattern(1.0 - prob.types[t - 1].sizeLB, 1.0, prob.types[t].sizeLB, Q3ItemWeight(prob.types[t], k, y3))
  }

  /**
   * compareWithQ3 on values: q3 replaces the search result when it weighs more than the
   * threshold and more than the result; its weight must then match weightOfQ3.
   */
  function Q3Comparison(prob: Problem, p: Option<seq<Entry>>, t: nat, k: int, y1: real, y3: real): Result<Option<seq<Entry>>>
    requires 0 < t < |prob.types|
  {
    var tt := prob.types[t];
    if 1.0 + tt.redFraction == 0.0 then Err(DivisionByZero)
    else
      var weightOfQ3 := WeightOfQ3(prob, t, k, y1, y3);
      if weightOfQ3 > prob.threshold && (p.None? || weightOfQ3 > WeightInclSand(p.value, prob.sandExpansion)) then
        if 1.0 - prob.types[t - 1].sizeLB == tt.sizeLB && Q3ItemWeight(tt, k, y3) != 1.0 then Err(InvalidInstance)
        else if weightOfQ3 != WeightInclSand(Q3Pattern(prob, t, k, y3), prob.sandExpansion) then Err(Q3WeightMismatch)
        else Ok(Some(Q3Pattern(prob, t, k, y3)))
      else Ok(p)
  }

  /**
   * compareWithQ3 hands back the search result unchanged, or q3 when q3 weighs more than the
   * threshold and strictly more than the result, and exactly weightOfQ3.
   */
  lemma Q3ComparisonResult(prob: Problem, p: Option<seq<Entry>>, t: nat, k: int, y1: real, y3: real)
    requires 0 < t < |prob.types|
    ensures var r := Q3Comparison(prob, p, t, k, y1, y3);
      r.Err? <==> (1.0 + prob.types[t].redFraction == 0.0 ||
        (var w := WeightOfQ3(prob, t, k, y1, y3);
         w > prob.threshold && (p.None? || w > WeightInclSand(p.value, prob.sandExpansion)) &&
         ((1.0 - prob.types[t - 1].sizeLB == prob.types[t].sizeLB && Q3ItemWeight(prob.types[t], k, y3) != 1.0) ||
          w != WeightInclSand(Q3Pattern(prob, t, k, y3), prob.sandExpansion))))
    ensures var r := Q3Comparison(prob, p, t, k, y1, y3);
      r.Ok? ==> (r.value == p ||
        (var w := WeightOfQ3(prob, t, k, y1, y3);
         r.value == Some(Q3Pattern(prob, t, k, y3)) && w > prob.threshold &&
         WeightInclSand(Q3Pattern(prob, t, k, y3), prob.sandExpansion) == w &&
         (p.None? || w > WeightInclSand(p.value, prob.sandExpansion))))
  {
  }

  /** The arithmetic of q3: its weight with sand is weightOfQ3 without the y1 term. */
  lemma Q3Arith(y1: real, y3: real, blue: real, v: real, sand: real, upper: real, lower: real, termC: real,
                weightOfQ3: real, patternWeight: real)
    requires weightOfQ3 == (1.0 - y3) * (1.0 + blue + sand * (upper - lower)) +
                           y3 * (1.0 + v + sand * (upper - lower)) + y1 * termC
    requires patternWeight == 1.0 + (blue * (1.0 - y3) + v * y3) + (1.0 - ((1.0 - upper) + lower)) * sand
    ensures patternWeight == weightOfQ3 - y1 * termC
  {
  }

  /**
   * When the two items of q3 have different sizes, q3 weighs, with sand, weightOfQ3 less its term
   * y1 (1 - red)/(1 + red): the consistency check of compareWithQ3 fails exactly when that term
   * is not zero.
   */
  lemma Q3PatternWeight(prob: Problem, t: nat, k: int, y1: real, y3: real)
    requires 0 < t < |prob.types| && 1.0 + prob.types[t].redFraction != 0.0
    requires 1.0 - prob.types[t - 1].sizeLB != prob.types[t].sizeLB
    ensures var tt := prob.types[t];
      WeightInclSand(Q3Pattern(prob, t, k, y3), prob.sandExpansion) ==
        WeightOfQ3(prob, t, k, y1, y3) - y1 * ((1.0 - tt.redFraction) / (1.0 + tt.redFraction))
    ensures var tt := prob.types[t];
      WeightInclSand(Q3Pattern(prob, t, k, y3), prob.sandExpansion) == WeightOfQ3(prob, t, k, y1, y3) <==>
        y1 * ((1.0 - tt.redFraction) / (1.0 + tt.redFraction)) == 0.0
  {
    var tt := prob.types[t];
    var upper, lower := prob.types[t - 1].sizeLB, tt.sizeLB;
    PairPatternTotals(1.0 - upper, 1.0, lower, Q3ItemWeight(tt, k, y3));
    Q3Arith(y1, y3, tt.blueWeight, GetWeightV(tt, k), prob.sandExpansion, upper, lower,
            (1.0 - tt.redFraction) / (1.0 + tt.redFraction), WeightOfQ3(prob, t, k, y1, y3),
            WeightInclSand(Q3Pattern(prob, t, k, y3), prob.sandExpansion));
  }

  // ----- checkDualLP on values -----

  /** What checkDualLP searches in case k. */
  datatype Plan =
    | Skip                                          // r is medium and its type has no red items
    | Simple(inst: Instance)                        // a simple dual LP over every pattern
    | Extended(inst: Instance, t: nat, y1: real)    // the extended dual LP, without q1 and q2

  /** The range (t_t, t_{t-1}] of the type of r is at most the smallest type's lower bound wide. */
  predicate RangeOfRSmallEnough(types: seq<TypeInfo>, t: nat)
    requires 0 < t < |types|
  {
    types[t - 1].sizeLB - types[t].sizeLB <= types[|types| - 1].sizeLB
  }

  /** The medium case once the type t of r is known: the simple or the extended dual LP. */
  function MediumPlan(prob: Problem, d: DualValues, k: nat, t: nat, y3: real): Result<Plan>
    requires 0 < t < |prob.types|
  {
    var types := prob.types;
    var w1 := WeightOfQ1(types, t, prob.sandExpansion);
    var sizes := MediumSizes(types, t);
    if !RangeOfRSmallEnough(types, t) || w1 <= prob.targetRatio then
      Ok(Simple(Instance(sizes, MediumWeights(types, k, y3), AllPatterns, prob.sandExpansion)))
    else
      match CheckY1(d, k)
      case Err(e) => Err(e)
      case Ok(y1) =>
        match CheckY2(d, k)
        case Err(e) => Err(e)
        case Ok(y2) =>
          match OmegaWeights(types, t, y1, y2, y3, |types|)
          case Err(e) => Err(e)
          case Ok(omega) =>
            if y1 + prob.targetRatio < w1 then Err(FirstConstraintViolated)
            else if y2 / 2.0 + prob.targetRatio < w1 then Err(SecondConstraintViolated)
            else
              Ok(Extended(Instance(sizes, [1.0, 1.0, 1.0 - y3] + omega,
                                   NotQ1Q2(1.0 - types[t - 1].sizeLB, types[t].sizeLB), prob.sandExpansion), t, y1))
  }

  /**
   * The search checkDualLP runs in case k at y3, or the error it stops with first. No search
   * happens exactly when r is medium and its type has red fraction 0; the extended dual LP is
   * searched only when the range of the type of r is small enough and w1 exceeds the target,
   * and then only after both side constraints hold.
   */
  function PlanCase(prob: Problem, d: DualValues, k: nat, y3: real): (r: Result<Plan>)
    requires k < |prob.redSpace|
    ensures r.Ok? ==> 0.0 <= y3 <= MaxY3
    ensures (r.Ok? && r.value.Skip?) <==>
      CheckY3(y3).Pass? && prob.redSpace[k] > OneThird && TypeOfRFromClass(prob.types, k).Ok? &&
      prob.types[TypeOfRFromClass(prob.types, k).value].redFraction == 0.0
    ensures r.Ok? && !r.value.Skip? ==>
      r.value.inst.sandExpansion == prob.sandExpansion &&
      |r.value.inst.sizes| == |r.value.inst.weights| == |prob.types| + (if prob.redSpace[k] <= OneThird then 2 else 3)
    ensures r.Ok? && r.value.Simple? ==> r.value.inst.check == AllPatterns
    ensures r.Ok? && r.value.Extended? ==>
      prob.redSpace[k] > OneThird && TypeOfRFromClass(prob.types, k) == Ok(r.value.t) && 0 < r.value.t
    ensures r.Ok? && r.value.Extended? ==>
      var t := r.value.t;
      var types := prob.types;
      var w1 := WeightOfQ1(types, t, prob.sandExpansion);
      RangeOfRSmallEnough(types, t) && w1 > prob.targetRatio &&
      CheckY1(d, k) == Ok(r.value.y1) && r.value.y1 + prob.targetRatio >= w1 &&
      CheckY2(d, k).Ok? && CheckY2(d, k).value / 2.0 + prob.targetRatio >= w1 &&
      r.value.inst.check == NotQ1Q2(1.0 - types[t - 1].sizeLB, types[t].sizeLB)
  {
    match CheckY3(y3)
    case Fail(e) => Err(e)
    case Pass =>
      if prob.redSpace[k] <= OneThird then
        Ok(Simple(Instance(SmallSizes(prob.types), SmallWeights(prob.types, k, y3), AllPatterns, prob.sandExpansion)))
      else
        match TypeOfRFromClass(prob.types, k)
        case Err(e) => Err(e)
        case Ok(t) =>
          if prob.types[t].redFraction == 0.0 then Ok(Skip)
          else if t == 0 then Err(IndexOutOfRange)
          else MediumPlan(prob, d, k, t, y3)
  }

  /**
   * The outcome of a plan: nothing to search, the simple dual LP with threshold target - 1/1000,
   * or the extended dual LP with the pattern threshold followed by the comparison with q3.
   */
  function PlanResult(prob: Problem, plan: Plan, k: int, y3: real): Result<Option<seq<Entry>>>
    requires plan.Extended? ==> 0 < plan.t < |prob.types|
  {
    match plan
    case Skip => Ok(None)
    case Simple(inst) => Solution(inst, prob.targetRatio - Slack)
    case Extended(inst, t, y1) =>
      match Solution(inst, prob.threshold)
      case Err(e) => Err(e)
      case Ok(p) => Q3Comparison(prob, p, t, k, y1, y3)
  }

  /** checkDualLP on values: the heaviest pattern of case k at y3, or the error it ends in. */
  function DualLPResult(prob: Problem, d: DualValues, k: nat, y3: real): Result<Option<seq<Entry>>>
    requires k < |prob.redSpace|
  {
    match PlanCase(prob, d, k, y3)
    case Err(e) => Err(e)
    case Ok(plan) => PlanResult(prob, plan, k, y3)
  }

  /** Every pattern the search of an instance enumerates weighs, with sand, at most `bound`. */
  ghost predicate WithinTarget(inst: Instance, bound: real)
  {
    Readable(inst) && PermOk(inst, Permutation(inst)) &&
    forall leaf | leaf in Leaves(inst, Permutation(inst), 0, []) :: WeightInclSand(leaf, inst.sandExpansion) <= bound
  }

  /**
   * A search result that is absent or within the target means that every pattern of the search
   * is within the target (given a threshold not above the target).
   */
  lemma SolutionWithinTarget(inst: Instance, threshold: real, target: real)
    requires threshold <= target && Solution(inst, threshold).Ok?
    requires var p := Solution(inst, threshold).value;
      p.None? || WeightInclSand(p.value, inst.sandExpansion) <= target
    ensures WithinTarget(inst, target)
  {
    SolutionCorrect(inst, threshold);
  }

  /** A simple dual LP whose search finds no pattern, or one within the target, is within the target. */
  lemma SimpleWithinTarget(prob: Problem, inst: Instance)
    requires inst.sandExpansion == prob.sandExpansion
    requires var found := Solution(inst, prob.targetRatio - Slack);
      found.Ok? && (found.value.None? || WeightInclSand(found.value.value, prob.sandExpansion) <= prob.targetRatio)
    ensures WithinTarget(inst, prob.targetRatio)
  {
    SolutionWithinTarget(inst, prob.targetRatio - Slack, prob.targetRatio);
  }

  /**
   * What a feasible verdict of checkDualLP means: when it reports no pattern, or one within the
   * target, then every pattern of the dual LP it searched is within the target.
   */
  lemma DualLPResultWithinTarget(prob: Problem, d: DualValues, k: nat, y3: real)
    requires k < |prob.redSpace| && prob.threshold <= prob.targetRatio
    requires DualLPResult(prob, d, k, y3).Ok?
    requires var p := DualLPResult(prob, d, k, y3).value;
      p.None? || WeightInclSand(p.value, prob.sandExpansion) <= prob.targetRatio
    ensures PlanCase(prob, d, k, y3).Ok?
    ensures var plan := PlanCase(prob, d, k, y3).value;
      !plan.Skip? ==> WithinTarget(plan.inst, prob.targetRatio)
  {
    var plan := PlanCase(prob, d, k, y3).value;
    assert DualLPResult(prob, d, k, y3) == PlanResult(prob, plan, k, y3);
    PlanResultWithinTarget(prob, plan, k, y3);
  }

  /** A plan whose result is absent or within the target bounds every pattern it searches. */
  lemma PlanResultWithinTarget(prob: Problem, plan: Plan, k: int, y3: real)
    requires plan.Extended? ==> 0 < plan.t < |prob.types|
    requires prob.threshold <= prob.targetRatio && PlanResult(prob, plan, k, y3).Ok?
    requires var p := PlanResult(prob, plan, k, y3).value;
      p.None? || WeightInclSand(p.value, prob.sandExpansion) <= prob.targetRatio
    requires !plan.Skip? ==> plan.inst.sandExpansion == prob.sandExpansion
    ensures !plan.Skip? ==> WithinTarget(plan.inst, prob.targetRatio)
  {
    match plan
    case Skip =>
    case Simple(inst) =>
      assert PlanResult(prob, plan, k, y3) == Solution(inst, prob.targetRatio - Slack);
      SimpleWithinTarget(prob, inst);
    case Extended(inst, t, y1) =>
      ExtendedWithinTarget(prob, inst, t, k, y1, y3);
  }

  /** The extended case of PlanResultWithinTarget. */
  lemma ExtendedWithinTarget(prob: Problem, inst: Instance, t: nat, k: int, y1: real, y3: real)
    requires 0 < t < |prob.types| && prob.threshold <= prob.targetRatio
    requires inst.sandExpansion == prob.sandExpansion
    requires PlanResult(prob, Extended(inst, t, y1), k, y3).Ok?
    requires var p := PlanResult(prob, Extended(inst, t, y1), k, y3).value;
      p.None? || WeightInclSand(p.value, prob.sandExpansion) <= prob.targetRatio
    ensures WithinTarget(inst, prob.targetRatio)
  {
    var found := Solution(inst, prob.threshold);
    assert found.Ok? && PlanResult(prob, Extended(inst, t, y1), k, y3) == Q3Comparison(prob, found.value, t, k, y1, y3);
    ComparedWithinTarget(prob, found.value, t, k, y1, y3);
    SolutionWithinTarget(inst, prob.threshold, prob.targetRatio);
  }

  /**
   * The comparison with q3 only ever replaces the pattern found by a heavier one, so a compared
   * result within the target means that the pattern found was within the target.
   */
  lemma ComparedWithinTarget(prob: Problem, p: Option<seq<Entry>>, t: nat, k: int, y1: real, y3: real)
    requires 0 < t < |prob.types| && Q3Comparison(prob, p, t, k, y1, y3).Ok?
    requires var q := Q3Comparison(prob, p, t, k, y1, y3).value;
      q.None? || WeightInclSand(q.value, prob.sandExpansion) <= prob.targetRatio
    ensures p.None? || WeightInclSand(p.value, prob.sandExpansion) <= prob.targetRatio
  {
    Q3ComparisonResult(prob, p, t, k, y1, y3);
  }

  // ----- the knapsack instance of the case without r (k = K + 1) -----

  /** findHeaviestPatternWithoutR's instance: sizes 2/3, 1/2, t_i with weights 1, 1, blue_i. */
  function WithoutRInstance(prob: Problem): Instance
  {
    Instance(SmallSizes(prob.types), [1.0, 1.0] + BlueWeights(prob.types), AllPatterns, prob.sandExpansion)
  }

  /** checkKPlusOne on values: fails when the heaviest pattern without r weighs more than the target. */
  function KPlusOneVerdict(prob: Problem): Outcome
  {
    match Solution(WithoutRInstance(prob), prob.threshold)
    case Err(e) => Fail(e)
    case Ok(v) =>
      if v.Some? && WeightInclSand(v.value, prob.sandExpansion) > prob.targetRatio then Fail(InfeasibleWithoutR)
      else Pass
  }

  /** A passed check of the case without r bounds every pattern without r by the target. */
  lemma KPlusOneWithinTarget(prob: Problem)
    requires prob.threshold <= prob.targetRatio && KPlusOneVerdict(prob).Pass?
    ensures WithinTarget(WithoutRInstance(prob), prob.targetRatio)
  {
    SolutionWithinTarget(WithoutRInstance(prob), prob.threshold, prob.targetRatio);
  }

  // ----- the methods of DualLPChecker -----

  /** checkSimpleDualLP: the search over every pattern with threshold target - 1/1000. */
  method CheckSimpleDualLP(prob: Problem, sizes: seq<real>, weights: seq<real>) returns (r: Result<KnapsackPattern?>)
    ensures KnapsackSolver.Reported(r) ==
      Solution(Instance(sizes, weights, AllPatterns, prob.sandExpansion), prob.targetRatio - Slack)
    ensures r.Ok? && r.value != null ==> r.value.Valid()
  {
    var solver := new KnapsackSolver(sizes, weights, AllPatterns, prob.sandExpansion);
    r := solver.Solve(prob.targetRatio - Slack);
  }

  /** The arrays of the case where r is small: large types 2/3 and 1/2, then every type. */
  method BuildSmallCase(types: seq<TypeInfo>, k: int, y3: real) returns (sizes: seq<real>, weights: seq<real>)
    ensures sizes == SmallSizes(types) && weights == SmallWeights(types, k, y3)
  {
    var allSizes := new real[|types| + 2];
    var ws := new real[allSizes.Length];
    allSizes[0], allSizes[1] := TwoThirds, OneHalf;
    ws[0], ws[1] := 1.0, 1.0 - y3;
    for i := 0 to |types|
      invariant allSizes[0] == TwoThirds && allSizes[1] == OneHalf
      invariant ws[0] == 1.0 && ws[1] == 1.0 - y3
      invariant forall j | 0 <= j < i :: allSizes[j + 2] == types[j].sizeLB
      invariant forall j | 0 <= j < i :: ws[j + 2] == Mixed(types[j], k, y3)
    {
      allSizes[i + 2] := types[i].sizeLB;
      ws[i + 2] := Mixed(types[i], k, y3);
    }
    sizes, weights := allSizes[..], ws[..];
    assert sizes == SmallSizes(types);
    assert weights == SmallWeights(types, k, y3);
  }

  /** The sizes of the case where r is medium: 2/3, 1 - t_{t-1}, 1/2, then every type. */
  method BuildMediumSizes(types: seq<TypeInfo>, t: nat) returns (sizes: seq<real>)
    requires 0 < t < |types|
    ensures sizes == MediumSizes(types, t)
  {
    var allSizes := new real[|types| + 3];
    allSizes[0], allSizes[1], allSizes[2] := TwoThirds, 1.0 - types[t - 1].sizeLB, OneHalf;
    for i := 0 to |types|
      invariant forall j | 0 <= j < i + 3 :: allSizes[j] == MediumSizes(types, t)[j]
    {
      allSizes[i + 3] := types[i].sizeLB;
    }
    sizes := allSizes[..];
  }

  /** The weights of the simple dual LP when r is medium: 1, 1, 1 - y3, then (1 - y3) W + y3 V. */
  method BuildMediumWeights(types: seq<TypeInfo>, k: int, y3: real) returns (weights: seq<real>)
    ensures weights == MediumWeights(types, k, y3)
  {
    var ws := new real[|types| + 3];
    ws[0], ws[1], ws[2] := 1.0, 1.0, 1.0 - y3;
    for i := 0 to |types|
      invariant ws[0] == 1.0 && ws[1] == 1.0 && ws[2] == 1.0 - y3
      invariant forall j | 0 <= j < i :: ws[j + 3] == Mixed(types[j], k, y3)
    {
      ws[i + 3] := Mixed(types[i], k, y3);
    }
    weights := ws[..];
    assert weights == MediumWeights(types, k, y3);
  }

  /** The weights of the extended dual LP: 1, 1, 1 - y3, then omega of every type. */
  method BuildExtendedWeights(types: seq<TypeInfo>, t: nat, y1: real, y2: real, y3: real) returns (r: Result<seq<real>>)
    requires t < |types|
    ensures r.Err? <==> OmegaWeights(types, t, y1, y2, y3, |types|).Err?
    ensures r.Err? ==> r.error == DivisionByZero
    ensures r.Ok? ==> r.value == [1.0, 1.0, 1.0 - y3] + OmegaWeights(types, t, y1, y2, y3, |types|).value
  {
    var ws := new real[|types| + 3];
    ws[0], ws[1], ws[2] := 1.0, 1.0, 1.0 - y3;
    for i := 0 to |types|
      invariant OmegaWeights(types, t, y1, y2, y3, i).Ok?
      invariant ws[..3] == [1.0, 1.0, 1.0 - y3]
      invariant ws[3..i + 3] == OmegaWeights(types, t, y1, y2, y3, i).value
    {
      var omega := ComputeOmega(types, i, t, y1, y2, y3);
      if omega.Err? {
        assert OmegaDividesByZero(types, i, t);
        assert OmegaWeights(types, t, y1, y2, y3, |types|).Err?;
        return Err(omega.error);
      }
      ws[i + 3] := omega.value;
      assert ws[3..i + 4] == ws[3..i + 3] + [omega.value];
    }
    assert ws[..] == ws[..3] + ws[3..|types| + 3];
    r := Ok(ws[..]);
  }

  /**
   * compareWithQ3: builds q3 with two calls of addItems and hands it back instead of p when
   * it is heavier than the threshold and than p; a q3 of another weight than weightOfQ3 is an
   * error.
   */
  method CompareWithQ3(prob: Problem, p: KnapsackPattern?, t: nat, k: int, y1: real, y3: real)
    returns (r: Result<KnapsackPattern?>)
    requires 0 < t < |prob.types|
    requires p != null ==> p.Valid()
    ensures KnapsackSolver.Reported(r) == Q3Comparison(prob, if p == null then None else Some(p.items), t, k, y1, y3)
    ensures r.Ok? && r.value != null ==> r.value.Valid()
  {
    var tt := prob.types[t];
    var sandVolumeInQ3 := if t > 0 then prob.types[t - 1].sizeLB - tt.sizeLB else 0.0;
    var sandWeightInQ3 := prob.sandExpansion * sandVolumeInQ3;
    var w3k := 1.0 + tt.blueWeight + sandWeightInQ3;
    var v3k := 1.0 + GetWeightV(tt, k) + sandWeightInQ3;
    if 1.0 + tt.redFraction == 0.0 {
      return Err(DivisionByZero);
    }
    var weightOfQ3 := (1.0 - y3) * w3k + y3 * v3k + y1 * ((1.0 - tt.redFraction) / (1.0 + tt.redFraction));
    assert weightOfQ3 == WeightOfQ3(prob, t, k, y1, y3);
    if weightOfQ3 > prob.threshold && (p == null || weightOfQ3 > p.GetTotalWeightInclSand(prob.sandExpansion)) {
      var q3 := BuildQ3(prob, t, k, y3);
      if q3.Err? {
        return Err(q3.error);
      }
      var p2 := q3.value;
      if weightOfQ3 != p2.GetTotalWeightInclSand(prob.sandExpansion) {
        return Err(Q3WeightMismatch);
      }
      return Ok(p2);
    }
    return Ok(p);
  }

  /**
   * The q3 pattern of compareWithQ3, built with two calls of addItems: the large item 1 - t_{t-1}
   * of weight 1, then an item of type t. When both have the same size, the second call would
   * merge items of different weights unless the item of type t also weighs 1.
   */
  method BuildQ3(prob: Problem, t: nat, k: int, y3: real) returns (r: Result<KnapsackPattern>)
    requires 0 < t < |prob.types|
    ensures r.Err? <==>
      1.0 - prob.types[t - 1].sizeLB == prob.types[t].sizeLB && Q3ItemWeight(prob.types[t], k, y3) != 1.0
    ensures r.Err? ==> r.error == InvalidInstance
    ensures r.Ok? ==> fresh(r.value) && r.value.Valid() && r.value.items == Q3Pattern(prob, t, k, y3)
  {
    var tt := prob.types[t];
    var large := 1.0 - prob.types[t - 1].sizeLB;
    var weightOfR := tt.blueWeight * (1.0 - y3) + GetWeightV(tt, k) * y3;
    var p2 := new KnapsackPattern();
    p2.AddItems(large, 1.0, 1);
    if large == tt.sizeLB && weightOfR != 1.0 {
      return Err(InvalidInstance);
    }
    p2.AddItems(tt.sizeLB, weightOfR, 1);
    assert p2.items == PairPattern(large, 1.0, tt.sizeLB, weightOfR);
    assert weightOfR == Q3ItemWeight(tt, k, y3);
    return Ok(p2);
  }

  /**
   * checkDualLP (the verifier's): the heaviest pattern of case k at y3 and its errors, as
   * DualLPResult describes them. Every check of the source except those of compareWithQ3 comes
   * before its one search, so the method first settles what to search (PlanOf) and then
   * searches it and compares with q3 (RunPlan).
   */
  method CheckDualLP(prob: Problem, d: DualValues, k: nat, y3: real) returns (r: Result<KnapsackPattern?>)
    requires k < |prob.redSpace|
    ensures KnapsackSolver.Reported(r) == DualLPResult(prob, d, k, y3)
    ensures r.Ok? && r.value != null ==> r.value.Valid()
  {
    var plan := PlanOf(prob, d, k, y3);
    if plan.Err? {
      return Err(plan.error);
    }
    r := RunPlan(prob, plan.value, k, y3);
  }

  /** The checks of checkDualLP and the arrays it fills, up to the search. */
  method PlanOf(prob: Problem, d: DualValues, k: nat, y3: real) returns (plan: Result<Plan>)
    requires k < |prob.redSpace|
    ensures plan == PlanCase(prob, d, k, y3)
  {
    var checked := CheckY3(y3);
    if checked.Fail? {
      return Err(checked.error);
    }
    var types := prob.types;
    var rIsMedium := prob.redSpace[k] > OneThird;
    if !rIsMedium {
      var sizes, weights := BuildSmallCase(types, k, y3);
      return Ok(Simple(Instance(sizes, weights, AllPatterns, prob.sandExpansion)));
    }
    var typeOfR := TypeOfRFromClass(types, k);
    if typeOfR.Err? {
      return Err(typeOfR.error);
    }
    var t := typeOfR.value;
    if types[t].redFraction == 0.0 {
      return Ok(Skip);
    }
    if t == 0 {
      return Err(IndexOutOfRange);
    }
    plan := MediumPlanOf(prob, d, k, t, y3);
  }

  /** The part of checkDualLP after the type t of a medium r is found, up to the search. */
  method MediumPlanOf(prob: Problem, d: DualValues, k: nat, t: nat, y3: real) returns (plan: Result<Plan>)
    requires 0 < t < |prob.types|
    ensures plan == MediumPlan(prob, d, k, t, y3)
  {
    var types := prob.types;
    var w1 := WeightOfQ1(types, t, prob.sandExpansion);
    var rangeOfRSmallEnough := types[t - 1].sizeLB - types[t].sizeLB <= types[|types| - 1].sizeLB;
    var allSizes := BuildMediumSizes(types, t);
    if !rangeOfRSmallEnough || w1 <= prob.targetRatio {
      var weights := BuildMediumWeights(types, k, y3);
      return Ok(Simple(Instance(allSizes, weights, AllPatterns, prob.sandExpansion)));
    }
    var y1 := CheckY1(d, k);
    if y1.Err? {
      return Err(y1.error);
    }
    var y2 := CheckY2(d, k);
    if y2.Err? {
      return Err(y2.error);
    }
    var weights := BuildExtendedWeights(types, t, y1.value, y2.value, y3);
    if weights.Err? {
      return Err(weights.error);
    }
    var check := NotQ1Q2(allSizes[1], types[t].sizeLB);
    if y1.value + prob.targetRatio < w1 {
      return Err(FirstConstraintViolated);
    }
    if y2.value / 2.0 + prob.targetRatio < w1 {
      return Err(SecondConstraintViolated);
    }
    return Ok(Extended(Instance(allSizes, weights.value, check, prob.sandExpansion), t, y1.value));
  }

  /** The search of checkDualLP: none, checkSimpleDualLP, or the extended search and compareWithQ3. */
  method RunPlan(prob: Problem, plan: Plan, k: int, y3: real) returns (r: Result<KnapsackPattern?>)
    requires plan.Simple? ==> plan.inst.check == AllPatterns && plan.inst.sandExpansion == prob.sandExpansion
    requires plan.Extended? ==> 0 < plan.t < |prob.types|
    ensures KnapsackSolver.Reported(r) == PlanResult(prob, plan, k, y3)
    ensures r.Ok? && r.value != null ==> r.value.Valid()
  {
    match plan
    case Skip =>
      r := Ok(null);
    case Simple(inst) =>
      assert inst == Instance(inst.sizes, inst.weights, AllPatterns, prob.sandExpansion);
      assert PlanResult(prob, plan, k, y3) == Solution(inst, prob.targetRatio - Slack);
      r := CheckSimpleDualLP(prob, inst.sizes, inst.weights);
    case Extended(inst, t, y1) =>
      assert plan == Extended(inst, t, y1);
      r := SearchExtended(prob, inst, t, k, y1, y3);
  }

  /** The extended dual LP: the search with the pattern threshold, then the comparison with q3. */
  method SearchExtended(prob: Problem, inst: Instance, t: nat, k: int, y1: real, y3: real) returns (r: Result<KnapsackPattern?>)
    requires 0 < t < |prob.types|
    ensures KnapsackSolver.Reported(r) == PlanResult(prob, Extended(inst, t, y1), k, y3)
    ensures r.Ok? && r.value != null ==> r.value.Valid()
  {
    var solver := new KnapsackSolver(inst.sizes, inst.weights, inst.check, inst.sandExpansion);
    var p := solver.Solve(prob.threshold);
    if p.Err? {
      return Err(p.error);
    }
    r := CompareWithQ3(prob, p.value, t, k, y1, y3);
  }

  /** findHeaviestPatternWithoutR: the search of the case without r. */
  method FindHeaviestPatternWithoutR(prob: Problem) returns (r: Result<KnapsackPattern?>)
    ensures KnapsackSolver.Reported(r) == Solution(WithoutRInstance(prob), prob.threshold)
    ensures r.Ok? && r.value != null ==> r.value.Valid()
  {
    var types := prob.types;
    var allSizes := new real[|types| + 2];
    var weights := new real[allSizes.Length];
    allSizes[0], allSizes[1] := TwoThirds, OneHalf;
    weights[0], weights[1] := 1.0, 1.0;
    for i := 2 to allSizes.Length
      invariant forall j | 0 <= j < i :: allSizes[j] == WithoutRInstance(prob).sizes[j]
      invariant forall j | 0 <= j < i :: weights[j] == WithoutRInstance(prob).weights[j]
    {
      allSizes[i] := types[i - 2].sizeLB;
      weights[i] := types[i - 2].blueWeight;
    }
    assert allSizes[..] == WithoutRInstance(prob).sizes;
    assert weights[..] == WithoutRInstance(prob).weights;
    var solver := new KnapsackSolver(allSizes[..], weights[..], AllPatterns, prob.sandExpansion);
    r := solver.Solve(prob.threshold);
  }

  /** checkKPlusOne: fails when a pattern without r weighs more than the target. */
  method CheckKPlusOne(prob: Problem) returns (r: Outcome)
    ensures r == KPlusOneVerdict(prob)
  {
    var v := FindHeaviestPatternWithoutR(prob);
    if v.Err? {
      return Fail(v.error);
    }
    if v.value != null && v.value.GetTotalWeightInclSand(prob.sandExpansion) > prob.targetRatio {
      return Fail(InfeasibleWithoutR);
    }
    return Pass;
  }
}
