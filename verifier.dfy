/**
 * The verifier: it checks the parameters read from the input file (sizes, red spaces, bluefit,
 * leaves, needs, the smallest type, the red fractions), then the case without r, then the dual LP
 * of every case k with the values y1, y2, y3 read for it.
 */
module Verifier {
  import opened Results
  import opened Types
  import opened Pattern
  import opened Solver
  import opened Duals
  import opened DualLP
  import opened Preparation

  /**
   * What a verifier works on: the prepared problem, the dual values of every case and the size
   * upper bound of the first type (getFirstTypeUpperBound, supplied by each concrete verifier).
   */
  datatype Verification = Verification(prob: Problem, duals: DualValues, firstUb: real)

  const OneTenth: real := 1.0 / 10.0

  /**
   * initialize: the shared preparation of the types, red spaces and target ratio, kept together
   * with the y1, y2, y3 values read for every case and the first type's size upper bound.
   */
  method Initialize(types: seq<TypeInfo>, redSpace: seq<real>, targetRatio: real, duals: DualValues, firstUb: real)
    returns (r: Result<Verification>)
    ensures r.Ok? <==> Prepared(types, redSpace, targetRatio).Ok?
    ensures r.Ok? ==> r.value == Verification(Prepared(types, redSpace, targetRatio).value, duals, firstUb)
    ensures r.Err? ==> r.error == Prepared(types, redSpace, targetRatio).error
  {
    var prob := Preparation.Initialize(types, redSpace, targetRatio);
    if prob.Err? {
      return Err(prob.error);
    }
    return Ok(Verification(prob.value, duals, firstUb));
  }

  /** A failure stops at once; otherwise what follows decides. */
  function AndThen(first: Outcome, next: Outcome): (r: Outcome)
    ensures r.Pass? <==> first.Pass? && next.Pass?
    ensures r.Fail? ==> r == if first.Fail? then first else next
  {
    if first.Fail? then first else next
  }

  // ----- verifySizesSorted -----

  /** The size lower bounds strictly decrease along the types. */
  predicate SizesSorted(types: seq<TypeInfo>)
  {
    forall i, j | 0 <= i < j < |types| :: types[j].sizeLB < types[i].sizeLB
  }

  function SizesVerdict(types: seq<TypeInfo>): Outcome
  {
    if SizesSorted(types) then Pass else Fail(SizesNotSorted)
  }

  /** verifySizesSorted: compares each type with the one before it. */
  method VerifySizesSorted(types: seq<TypeInfo>) returns (r: Outcome)
    ensures r.Pass? <==> SizesSorted(types)
    ensures r.Fail? ==> r.error == SizesNotSorted
  {
    var i := 1;
    while i < |types|
      invariant 1 <= i
      invariant forall a, b | 0 <= a < b < i && b < |types| :: types[b].sizeLB < types[a].sizeLB
    {
      if types[i].sizeLB >= types[i - 1].sizeLB {
        return Fail(SizesNotSorted);
      }
      i := i + 1;
    }
    return Pass;
  }

  // ----- verifyEnoughTypesBetweenOneThirdAndOneHalf -----

  /**
   * largestTypeBelowOneHalf after the first loop has looked at types 1 .. n-1: the first of them
   * below 1/2, or -1.
   */
  function FirstBelowHalf(types: seq<TypeInfo>, n: nat): (h: int)
    requires n <= |types|
    ensures h == -1 || 1 <= h < n
    ensures h == -1 <==> forall i | 1 <= i < n :: types[i].sizeLB >= OneHalf
    ensures h != -1 ==> types[h].sizeLB < OneHalf && forall i | 1 <= i < h :: types[i].sizeLB >= OneHalf
  {
    if n <= 1 then -1
    else
      var h := FirstBelowHalf(types, n - 1);
      if h == -1 && types[n - 1].sizeLB < OneHalf then n - 1 else h
  }

  /**
   * smallestTypeAboveOneThird after the first loop has looked at types 1 .. n-1: the last of them
   * at least 1/3, or -1.
   */
  function LastAboveThird(types: seq<TypeInfo>, n: nat): (t: int)
    requires n <= |types|
    ensures t == -1 || 1 <= t < n
    ensures t == -1 <==> forall i | 1 <= i < n :: types[i].sizeLB < OneThird
    ensures t != -1 ==> types[t].sizeLB >= OneThird && forall i | t < i < n :: types[i].sizeLB < OneThird
  {
    if n <= 1 then -1
    else if types[n - 1].sizeLB >= OneThird then n - 1
    else LastAboveThird(types, n - 1)
  }

  /** The second loop from type i on: each gap to the type before must stay below the smallest size. */
  function GapsFrom(types: seq<TypeInfo>, i: int, upto: int, minSize: real): Outcome
    requires upto < |types|
    decreases upto - i
  {
    if i >= upto then Pass
    else if i < 1 then Fail(IndexOutOfRange)
    else if types[i].sizeLB - types[i - 1].sizeLB >= minSize then Fail(MediumGapTooLarge)
    else GapsFrom(types, i + 1, upto, minSize)
  }

  function EnoughTypesVerdict(types: seq<TypeInfo>): Outcome
  {
    if |types| == 0 then Fail(IndexOutOfRange)
    else
      GapsFrom(types, LastAboveThird(types, |types|) + 1, FirstBelowHalf(types, |types|), types[|types| - 1].sizeLB)
  }

  /**
   * The gap check never reports a gap: every type it would compare is both below 1/3 and not
   * below 1/2. It fails only on an empty list of types, or when it reads the type before type 0
   * (no type after the first is at least 1/3, but one is below 1/2).
   */
  lemma EnoughTypesNeverGap(types: seq<TypeInfo>)
    ensures EnoughTypesVerdict(types) ==
      if |types| > 0 && ((exists i | 1 <= i < |types| :: types[i].sizeLB >= OneThird) ||
                         (forall i | 1 <= i < |types| :: types[i].sizeLB >= OneHalf))
      then Pass else Fail(IndexOutOfRange)
  {
    if |types| > 0 {
      var n := |types|;
      var h, t := FirstBelowHalf(types, n), LastAboveThird(types, n);
      GapsNeverFound(types, t + 1, h, types[n - 1].sizeLB);
    }
  }

  lemma {:induction false} GapsNeverFound(types: seq<TypeInfo>, i: int, upto: int, minSize: real)
    requires upto < |types| && i >= 0
    requires upto == -1 || forall j | 1 <= j < upto :: types[j].sizeLB >= OneHalf
    requires forall j | i <= j < |types| && 1 <= j :: types[j].sizeLB < OneThird
    ensures GapsFrom(types, i, upto, minSize) == if i < upto && i < 1 then Fail(IndexOutOfRange) else Pass
    decreases upto - i
  {
  }

  /** verifyEnoughTypesBetweenOneThirdAndOneHalf: the two loops of the source. */
  method VerifyEnoughTypes(types: seq<TypeInfo>) returns (r: Outcome)
    ensures r == EnoughTypesVerdict(types)
  {
    if |types| == 0 {
      return Fail(IndexOutOfRange);
    }
    var minItemSize := types[|types| - 1].sizeLB;
    var largestTypeBelowOneHalf := -1;
    var smallestTypeAboveOneThird := -1;
    for i := 1 to |types|
      invariant largestTypeBelowOneHalf == FirstBelowHalf(types, i)
      invariant smallestTypeAboveOneThird == LastAboveThird(types, i)
    {
      if largestTypeBelowOneHalf == -1 && types[i].sizeLB < OneHalf {
        largestTypeBelowOneHalf := i;
      }
      if types[i].sizeLB >= OneThird {
        smallestTypeAboveOneThird := i;
      }
    }
    r := CheckGaps(types, smallestTypeAboveOneThird + 1, largestTypeBelowOneHalf, minItemSize);
  }

  /** The second loop of verifyEnoughTypesBetweenOneThirdAndOneHalf: the gaps between types from..upto-1. */
  method CheckGaps(types: seq<TypeInfo>, from: int, upto: int, minSize: real) returns (r: Outcome)
    requires upto < |types|
    ensures r == GapsFrom(types, from, upto, minSize)
  {
    var i := from;
    while i < upto
      invariant GapsFrom(types, from, upto, minSize) == GapsFrom(types, i, upto, minSize)
      decreases upto - i
    {
      if i < 1 {
        return Fail(IndexOutOfRange);
      }
      var diff := types[i].sizeLB - types[i - 1].sizeLB;
      if diff >= minSize {
        return Fail(MediumGapTooLarge);
      }
      i := i + 1;
    }
    return Pass;
  }

  // ----- verifyRedSpaceValuesSorted -----

  /** The red spaces strictly increase. */
  predicate Increasing(rs: seq<real>)
  {
    forall i, j | 0 <= i < j < |rs| :: rs[i] < rs[j]
  }

  /** The loop of verifyRedSpaceValuesSorted from position i on. */
  function RedSpaceFrom(rs: seq<real>, i: nat): Outcome
    decreases |rs| - i
  {
    if i + 1 >= |rs| then Pass
    else if rs[i] == rs[i + 1] then Fail(DuplicateRedSpace)
    else if rs[i] > rs[i + 1] then Fail(RedSpaceNotSorted)
    else RedSpaceFrom(rs, i + 1)
  }

  /**
   * The red spaces pass exactly when they strictly increase; otherwise the first neighbours out
   * of order are named: a duplicate when they are equal, unsorted when the first is larger.
   */
  lemma {:induction false} RedSpaceFromMeaning(rs: seq<real>, i: nat)
    requires i <= |rs|
    requires forall a, b | 0 <= a < b <= i && b < |rs| :: rs[a] < rs[b]
    ensures RedSpaceFrom(rs, i).Pass? <==> Increasing(rs)
    ensures RedSpaceFrom(rs, i).Fail? ==> exists j | i <= j && j + 1 < |rs| ::
      rs[j] >= rs[j + 1] && Increasing(rs[..j + 1]) &&
      RedSpaceFrom(rs, i).error == (if rs[j] == rs[j + 1] then DuplicateRedSpace else RedSpaceNotSorted)
    decreases |rs| - i
  {
    if i + 1 < |rs| && rs[i] < rs[i + 1] {
      RedSpaceFromMeaning(rs, i + 1);
    } else if i + 1 < |rs| {
      assert Increasing(rs[..i + 1]);
    }
  }

  /** verifyRedSpaceValuesSorted: compares each red space with the next one. */
  method VerifyRedSpaceValuesSorted(rs: seq<real>) returns (r: Outcome)
    ensures r == RedSpaceFrom(rs, 0)
  {
    var i := 0;
    while i + 1 < |rs|
      invariant RedSpaceFrom(rs, 0) == RedSpaceFrom(rs, i)
      decreases |rs| - i
    {
      var last, next := rs[i], rs[i + 1];
      if last == next {
        return Fail(DuplicateRedSpace);
      } else if last > next {
        return Fail(RedSpaceNotSorted);
      }
      i := i + 1;
    }
    return Pass;
  }

  // ----- verifyBluefit, verifyLeaves, verifyNeeds -----

  /** The size upper bound of type i that verifyBluefit and verifyLeaves use. */
  function UpperBound(v: Verification, i: nat): real
    requires i < |v.prob.types|
  {
    if i > 0 then v.prob.types[i - 1].sizeLB else v.firstUb
  }

  /** verifyBluefit: bluefit is the integer part of 1/ub (1/firstUb is computed for every type). */
  function BluefitVerdict(v: Verification, i: nat): Outcome
    requires i < |v.prob.types|
  {
    if v.firstUb == 0.0 then Fail(DivisionByZero)
    else
      var type0BlueFit := Truncate(1.0 / v.firstUb);
      if i > 0 && v.prob.types[i - 1].sizeLB == 0.0 then Fail(DivisionByZero)
      else
        var supposed := if i == 0 then type0BlueFit else Truncate(1.0 / v.prob.types[i - 1].sizeLB);
        if v.prob.types[i].bluefit != supposed then Fail(WrongBluefit) else Pass
  }

  /** bluefit items of the largest size of the type fit into a bin, and one more does not. */
  predicate FitsExactly(count: int, size: real)
  {
    count as real * size <= 1.0 < count as real * size + size
  }

  /** Java's intValue of 1/size is the number of items of that size that fit exactly. */
  lemma FitsExactlyIsQuotient(count: int, size: real)
    requires size > 0.0
    ensures FitsExactly(count, size) <==> count == Truncate(1.0 / size)
  {
    assert 1.0 / size > 0.0;
    FitsBounds(count, size);
    TruncateBetween(count, 1.0 / size);
  }

  /** count items of a positive size fit exactly when count is the integer part of its reciprocal. */
  lemma FitsBounds(count: int, size: real)
    requires size > 0.0
    ensures FitsExactly(count, size) <==> count as real <= 1.0 / size < (count + 1) as real
  {
    BelowReciprocal(count as real, size);
    BelowReciprocal(count as real + 1.0, size);
    assert (count as real + 1.0) * size == count as real * size + size;
  }

  /** Multiplying by a positive size turns a bound on its reciprocal into a bound on 1. */
  lemma BelowReciprocal(c: real, size: real)
    requires size > 0.0
    ensures c <= 1.0 / size <==> c * size <= 1.0
  {
    var q := 1.0 / size;
    assert q * size == 1.0;
    MultiplyBoth(c, q, size);
    MultiplyBoth(q, c, size);
  }

  /** The truncation of a non-negative value is the integer at or just below it. */
  lemma TruncateBetween(count: int, q: real)
    requires q >= 0.0
    ensures count == Truncate(q) <==> count as real <= q < (count + 1) as real
  {
  }

  lemma MultiplyBoth(a: real, b: real, c: real)
    requires c > 0.0
    ensures a <= b ==> a * c <= b * c
    ensures a < b ==> a * c < b * c
  {
  }

  /** With positive size bounds, the bluefit check passes exactly when bluefit items fit exactly. */
  lemma BluefitMeaning(v: Verification, i: nat)
    requires i < |v.prob.types| && v.firstUb > 0.0 && UpperBound(v, i) > 0.0
    ensures BluefitVerdict(v, i).Pass? <==> FitsExactly(v.prob.types[i].bluefit, UpperBound(v, i))
    ensures BluefitVerdict(v, i).Fail? ==> BluefitVerdict(v, i).error == WrongBluefit
  {
    FitsExactlyIsQuotient(v.prob.types[i].bluefit, UpperBound(v, i));
  }

  /** The space bluefit blue items of the largest size of type i leave free in a bin. */
  function BlueSpaceLeft(v: Verification, i: nat): real
    requires i < |v.prob.types|
  {
    1.0 - UpperBound(v, i) * v.prob.types[i].bluefit as real
  }

  /**
   * verifyLeaves: leaves names the largest red space that the free space reaches, -1 when it
   * reaches none, and the free space is below the next red space (or 1).
   */
  function LeavesVerdict(v: Verification, i: nat): Outcome
    requires i < |v.prob.types|
  {
    var ub := UpperBound(v, i);
    var spaceLeft := BlueSpaceLeft(v, i);
    var rs := v.prob.redSpace;
    var blue := v.prob.types[i].leaves;
    if spaceLeft > ub then Fail(BluefitLeavesTooMuch)
    else if blue == -1 then
      if |rs| == 0 then Fail(IndexOutOfRange)
      else if spaceLeft >= rs[0] then Fail(LeavesTooHigh)
      else Pass
    else if blue < 0 || blue >= |rs| then Fail(IndexOutOfRange)
    else
      var ubRedSpace := if blue < |rs| - 1 then rs[blue + 1] else 1.0;
      if spaceLeft < rs[blue] then Fail(LeavesTooLow)
      else if spaceLeft >= ubRedSpace then Fail(LeavesTooHigh)
      else Pass
  }

  /** The number of red spaces below x (strict), or at most x (not strict). */
  function CountBelow(rs: seq<real>, x: real, strict: bool): (c: nat)
    ensures c <= |rs|
  {
    if rs == [] then 0
    else (if (if strict then rs[0] < x else rs[0] <= x) then 1 else 0) + CountBelow(rs[1..], x, strict)
  }

  /** In increasing red spaces, those below x are exactly the ones before the first that is not. */
  lemma {:induction false} CountOfIncreasing(rs: seq<real>, x: real, strict: bool, c: nat)
    requires Increasing(rs) && c <= |rs|
    requires c > 0 ==> (if strict then rs[c - 1] < x else rs[c - 1] <= x)
    requires c < |rs| ==> !(if strict then rs[c] < x else rs[c] <= x)
    ensures CountBelow(rs, x, strict) == c
    decreases |rs|
  {
    if rs != [] {
      assert Increasing(rs[1..]);
      if c == 0 {
        assert !(if strict then rs[0] < x else rs[0] <= x);
        if 1 < |rs| {
          assert rs[0] < rs[1];
        }
        CountOfIncreasing(rs[1..], x, strict, 0);
      } else {
        assert rs[0] <= rs[c - 1];
        CountOfIncreasing(rs[1..], x, strict, c - 1);
      }
    }
  }

  /**
   * With increasing red spaces, the leaves check passes exactly when bluefit leaves at most ub
   * free, leaves is one less than the number of red spaces that free space reaches, and the free
   * space is below 1 when it reaches them all.
   */
  lemma LeavesMeaning(v: Verification, i: nat)
    requires i < |v.prob.types| && Increasing(v.prob.redSpace) && |v.prob.redSpace| > 0
    ensures var rs, free := v.prob.redSpace, BlueSpaceLeft(v, i);
      LeavesVerdict(v, i).Pass? <==>
        free <= UpperBound(v, i) && v.prob.types[i].leaves == CountBelow(rs, free, false) - 1 &&
        (CountBelow(rs, free, false) == |rs| ==> free < 1.0)
  {
    var rs, free := v.prob.redSpace, BlueSpaceLeft(v, i);
    var blue := v.prob.types[i].leaves;
    if LeavesVerdict(v, i).Pass? {
      if blue == -1 {
        CountOfIncreasing(rs, free, false, 0);
      } else {
        CountOfIncreasing(rs, free, false, blue + 1);
      }
    }
    var c := CountBelow(rs, free, false);
    CountBoundary(rs, free, false);
  }

  /** In increasing red spaces, the count stops at the boundary: the last counted is below x, the next is not. */
  lemma {:induction false} CountBoundary(rs: seq<real>, x: real, strict: bool)
    requires Increasing(rs)
    ensures var c := CountBelow(rs, x, strict);
      (c > 0 ==> (if strict then rs[c - 1] < x else rs[c - 1] <= x)) &&
      (c < |rs| ==> !(if strict then rs[c] < x else rs[c] <= x))
    decreases |rs|
  {
    if rs != [] {
      assert Increasing(rs[1..]);
      CountBoundary(rs[1..], x, strict);
    }
  }

  /** The size upper bound of type i that verifyNeeds uses: 1/2 for the first type. */
  function NeedsUpperBound(v: Verification, i: nat): real
    requires i < |v.prob.types|
  {
    if i > 0 then v.prob.types[i - 1].sizeLB else OneHalf
  }

  /** The space redfit red items of the largest size of type i occupy. */
  function RedSpaceOccupied(v: Verification, i: nat): real
    requires i < |v.prob.types|
  {
    NeedsUpperBound(v, i) * v.prob.types[i].redfit as real
  }

  /**
   * verifyNeeds: a type with red items lies below the largest red space, and needs names the
   * first red space that the occupied space does not exceed; a type without red items has
   * redfit 0.
   */
  function NeedsVerdict(v: Verification, i: nat): Outcome
    requires i < |v.prob.types|
  {
    var t := v.prob.types[i];
    var rs := v.prob.redSpace;
    var r := t.needs;
    if t.redFraction != 0.0 then
      if |rs| == 0 then Fail(IndexOutOfRange)
      else if NeedsUpperBound(v, i) > rs[|rs| - 1] then Fail(RedSizeTooLarge)
      else
        var occupied := RedSpaceOccupied(v, i);
        var free := 1.0 - occupied;
        if r == 0 then
          if rs[0] < free then Fail(NeedsTooHigh) else Pass
        else if r < 1 || r >= |rs| then Fail(IndexOutOfRange)
        else if rs[r - 1] >= occupied then Fail(NeedsTooLow)
        else if rs[r] < occupied then Fail(NeedsTooHigh)
        else Pass
    else if t.redfit != 0 then Fail(RedfitNotZero)
    else Pass
  }

  /**
   * What the needs check accepts. A type without red items passes exactly when its redfit is 0.
   * A type with red items fails when it lies above the largest red space; otherwise, with
   * increasing red spaces, a positive needs passes exactly when it counts the red spaces below
   * the occupied space and one red space is left, and needs 0 passes exactly when the first red
   * space is at least the space left FREE by the red items.
   */
  lemma NeedsMeaning(v: Verification, i: nat)
    requires i < |v.prob.types|
    ensures var t, rs := v.prob.types[i], v.prob.redSpace;
      t.redFraction == 0.0 ==> (NeedsVerdict(v, i).Pass? <==> t.redfit == 0)
    ensures var t, rs := v.prob.types[i], v.prob.redSpace;
      t.redFraction != 0.0 && |rs| > 0 && NeedsUpperBound(v, i) > rs[|rs| - 1] ==>
        NeedsVerdict(v, i) == Fail(RedSizeTooLarge)
    ensures var t, rs, occupied := v.prob.types[i], v.prob.redSpace, RedSpaceOccupied(v, i);
      t.redFraction != 0.0 && Increasing(rs) && |rs| > 0 && NeedsUpperBound(v, i) <= rs[|rs| - 1] ==>
        (t.needs == 0 ==> (NeedsVerdict(v, i).Pass? <==> 1.0 - occupied <= rs[0])) &&
        (t.needs != 0 ==> (NeedsVerdict(v, i).Pass? <==> t.needs == CountBelow(rs, occupied, true) < |rs|))
  {
    var t, rs, occupied := v.prob.types[i], v.prob.redSpace, RedSpaceOccupied(v, i);
    if t.redFraction != 0.0 && Increasing(rs) && |rs| > 0 && NeedsUpperBound(v, i) <= rs[|rs| - 1] && t.needs != 0 {
      if NeedsVerdict(v, i).Pass? {
        CountOfIncreasing(rs, occupied, true, t.needs);
      }
      CountBoundary(rs, occupied, true);
    }
  }

  // ----- the parameter checks of start -----

  /** The three checks start runs on type i, in order. */
  function TypeChecks(v: Verification, i: nat): Outcome
    requires i < |v.prob.types|
  {
    AndThen(BluefitVerdict(v, i), AndThen(LeavesVerdict(v, i), NeedsVerdict(v, i)))
  }

  /** The loop over the types from type i on: the first type whose checks fail stops it. */
  function TypesFrom(v: Verification, i: nat): Outcome
    requires i <= |v.prob.types|
    decreases |v.prob.types| - i
  {
    if i == |v.prob.types| then Pass else AndThen(TypeChecks(v, i), TypesFrom(v, i + 1))
  }

  /** The loop over the types passes exactly when every type from i on passes its three checks. */
  lemma {:induction false} TypesFromPasses(v: Verification, i: nat)
    requires i <= |v.prob.types|
    ensures TypesFrom(v, i).Pass? <==> forall j | i <= j < |v.prob.types| :: TypeChecks(v, j).Pass?
    decreases |v.prob.types| - i
  {
    if i < |v.prob.types| {
      TypesFromPasses(v, i + 1);
    }
  }

  /** The smallest type must lie below 1/10. */
  function SmallestVerdict(types: seq<TypeInfo>): Outcome
  {
    if |types| == 0 then Fail(IndexOutOfRange)
    else if types[|types| - 1].sizeLB >= OneTenth then Fail(SmallestTypeTooLarge)
    else Pass
  }

  /** Every red fraction lies in [0, 1/3). */
  predicate RedFractionsInRange(types: seq<TypeInfo>)
  {
    forall i | 0 <= i < |types| :: 0.0 <= types[i].redFraction < OneThird
  }

  function RedFractionsVerdict(types: seq<TypeInfo>): Outcome
  {
    if RedFractionsInRange(types) then Pass else Fail(RedFractionOutOfRange)
  }

  /** The checks start runs before any search, in the order of the source. */
  function ParametersVerdict(v: Verification): Outcome
  {
    var types := v.prob.types;
    AndThen(SizesVerdict(types),
    AndThen(EnoughTypesVerdict(types),
    AndThen(RedSpaceFrom(v.prob.redSpace, 0),
    AndThen(TypesFrom(v, 0),
    AndThen(SmallestVerdict(types), RedFractionsVerdict(types))))))
  }

  /**
   * What the three checks mean for type i, given increasing red spaces: the bluefit that fits
   * exactly, the leaves that count the red spaces its free space reaches, and, when it has red
   * items, a place below the largest red space with needs counting the red spaces below the
   * occupied space (or, for needs 0, a first red space that covers the free space); a type
   * without red items has redfit 0.
   */
  predicate TypeConsistent(v: Verification, i: nat)
    requires i < |v.prob.types| && |v.prob.redSpace| > 0
  {
    var t, rs, occupied := v.prob.types[i], v.prob.redSpace, RedSpaceOccupied(v, i);
    (v.firstUb > 0.0 && UpperBound(v, i) > 0.0 ==> FitsExactly(t.bluefit, UpperBound(v, i))) &&
    BlueSpaceLeft(v, i) <= UpperBound(v, i) &&
    t.leaves == CountBelow(rs, BlueSpaceLeft(v, i), false) - 1 &&
    (t.redFraction != 0.0 ==>
      NeedsUpperBound(v, i) <= rs[|rs| - 1] &&
      (t.needs == 0 ==> 1.0 - occupied <= rs[0]) &&
      (t.needs != 0 ==> t.needs == CountBelow(rs, occupied, true) < |rs|)) &&
    (t.redFraction == 0.0 ==> t.redfit == 0)
  }

  /** A type that passes its three checks is consistent with increasing red spaces. */
  lemma TypeSound(v: Verification, i: nat)
    requires i < |v.prob.types| && Increasing(v.prob.redSpace) && |v.prob.redSpace| > 0
    requires TypeChecks(v, i).Pass?
    ensures TypeConsistent(v, i)
  {
    if v.firstUb > 0.0 && UpperBound(v, i) > 0.0 {
      BluefitMeaning(v, i);
    }
    LeavesMeaning(v, i);
    NeedsMeaning(v, i);
  }

  /**
   * What passing every parameter check establishes: sizes strictly decrease, red spaces strictly
   * increase, the smallest type is below 1/10, red fractions lie in [0, 1/3), and every type is
   * consistent.
   */
  lemma ParametersSound(v: Verification)
    requires ParametersVerdict(v).Pass?
    ensures var types, rs := v.prob.types, v.prob.redSpace;
      SizesSorted(types) && Increasing(rs) && |types| > 0 && |rs| > 0 &&
      types[|types| - 1].sizeLB < OneTenth && RedFractionsInRange(types)
    ensures forall i | 0 <= i < |v.prob.types| :: TypeConsistent(v, i)
  {
    var types, rs := v.prob.types, v.prob.redSpace;
    RedSpaceFromMeaning(rs, 0);
    TypesFromPasses(v, 0);
    assert TypeChecks(v, 0).Pass?;
    forall i | 0 <= i < |types|
      ensures TypeConsistent(v, i)
    {
      TypeSound(v, i);
    }
  }

  /** The loop of start over the types: verifyBluefit, verifyLeaves and verifyNeeds for each. */
  method VerifyTypes(v: Verification) returns (r: Outcome)
    ensures r == TypesFrom(v, 0)
  {
    for i := 0 to |v.prob.types|
      invariant TypesFrom(v, 0) == TypesFrom(v, i)
    {
      var bluefit := BluefitVerdict(v, i);
      if bluefit.Fail? {
        return bluefit;
      }
      var leaves := LeavesVerdict(v, i);
      if leaves.Fail? {
        return leaves;
      }
      var needs := NeedsVerdict(v, i);
      if needs.Fail? {
        return needs;
      }
    }
    return Pass;
  }

  /** The loop of start over the red fractions. */
  method VerifyRedFractions(types: seq<TypeInfo>) returns (r: Outcome)
    ensures r.Pass? <==> RedFractionsInRange(types)
    ensures r.Fail? ==> r.error == RedFractionOutOfRange
  {
    for i := 0 to |types|
      invariant forall j | 0 <= j < i :: 0.0 <= types[j].redFraction < OneThird
    {
      if types[i].redFraction >= OneThird || types[i].redFraction < 0.0 {
        return Fail(RedFractionOutOfRange);
      }
    }
    return Pass;
  }

  /** The first part of start: every check on the parameters, in order. */
  method CheckParameters(v: Verification) returns (r: Outcome)
    ensures r == ParametersVerdict(v)
  {
    var types := v.prob.types;
    r := VerifySizesSorted(types);
    if r.Fail? {
      return;
    }
    r := VerifyEnoughTypes(types);
    if r.Fail? {
      return;
    }
    r := VerifyRedSpaceValuesSorted(v.prob.redSpace);
    if r.Fail? {
      return;
    }
    r := VerifyTypes(v);
    if r.Fail? {
      return;
    }
    if types[|types| - 1].sizeLB >= OneTenth {
      return Fail(SmallestTypeTooLarge);
    }
    r := VerifyRedFractions(types);
  }

  // ----- checkCasek and start -----

  /** What checkDualLP reports for case k with the y3 value read for it. */
  function CaseResult(v: Verification, k: nat): Result<Option<seq<Entry>>>
    requires k < |v.prob.redSpace|
  {
    if k >= |v.duals.y3Values| then Err(IndexOutOfRange)
    else DualLPResult(v.prob, v.duals, k, v.duals.y3Values[k])
  }

  /** The verdict on case k from what checkDualLP reported: a pattern heavier than the target fails it. */
  function CaseOutcome(v: Verification, k: nat, found: Result<Option<seq<Entry>>>): Outcome
  {
    match found
    case Err(e) => Fail(e)
    case Ok(None) => Pass
    case Ok(Some(p)) =>
      if WeightInclSand(p, v.prob.sandExpansion) > v.prob.targetRatio then Fail(InfeasibleCase(k)) else Pass
  }

  /** checkCasek on values: a case without red items of its class is skipped. */
  function CaseVerdict(v: Verification, k: nat): Outcome
    requires k < |v.prob.redSpace|
  {
    if !IsNecessaryToCheckCase(v.prob, k) then Pass else CaseOutcome(v, k, CaseResult(v, k))
  }

  /**
   * A case that passes was checked with a y3 value that was read for it, the dual LP gave a plan,
   * and every pattern that plan searches weighs at most the target.
   */
  lemma CaseSound(v: Verification, k: nat)
    requires k < |v.prob.redSpace| && v.prob.threshold <= v.prob.targetRatio
    requires IsNecessaryToCheckCase(v.prob, k) && CaseVerdict(v, k).Pass?
    ensures k < |v.duals.y3Values|
    ensures var plan := PlanCase(v.prob, v.duals, k, v.duals.y3Values[k]);
      plan.Ok? && (!plan.value.Skip? ==> WithinTarget(plan.value.inst, v.prob.targetRatio))
  {
    DualLPResultWithinTarget(v.prob, v.duals, k, v.duals.y3Values[k]);
  }

  /** checkCasek: the dual LP of case k, then the weight of the pattern it reports. */
  method CheckCasek(v: Verification, k: nat) returns (r: Outcome)
    requires k < |v.prob.redSpace|
    ensures r == CaseVerdict(v, k)
  {
    if !IsNecessaryToCheckCase(v.prob, k) {
      return Pass;
    }
    if k >= |v.duals.y3Values| {
      return Fail(IndexOutOfRange);
    }
    var found := CheckDualLP(v.prob, v.duals, k, v.duals.y3Values[k]);
    if found.Err? {
      return Fail(found.error);
    }
    var p := found.value;
    if p != null && p.GetTotalWeightInclSand(v.prob.sandExpansion) > v.prob.targetRatio {
      return Fail(InfeasibleCase(k));
    }
    return Pass;
  }

  /** The loop of start over the cases from k on, given what checkDualLP reports for each. */
  function CasesFrom(v: Verification, found: seq<Result<Option<seq<Entry>>>>, k: nat): Outcome
    requires k <= |v.prob.redSpace| == |found|
    decreases |v.prob.redSpace| - k
  {
    if k == |v.prob.redSpace| then Pass
    else if !IsNecessaryToCheckCase(v.prob, k) then CasesFrom(v, found, k + 1)
    else AndThen(CaseOutcome(v, k, found[k]), CasesFrom(v, found, k + 1))
  }

  /** The cases from k on pass exactly when every case from k on that needs checking passes. */
  lemma {:induction false} CasesFromPasses(v: Verification, found: seq<Result<Option<seq<Entry>>>>, k: nat)
    requires k <= |v.prob.redSpace| == |found|
    ensures CasesFrom(v, found, k).Pass? <==>
      forall j | k <= j < |found| && IsNecessaryToCheckCase(v.prob, j) :: CaseOutcome(v, j, found[j]).Pass?
    decreases |v.prob.redSpace| - k
  {
    if k < |v.prob.redSpace| {
      CasesFromPasses(v, found, k + 1);
    }
  }

  /** What checkDualLP reports for every case, indexed by k. */
  function CaseResults(v: Verification): (found: seq<Result<Option<seq<Entry>>>>)
    ensures |found| == |v.prob.redSpace|
  {
    seq(|v.prob.redSpace|, k requires 0 <= k < |v.prob.redSpace| => CaseResult(v, k))
  }

  /** start on values: the parameter checks, then the case without r, then every case k. */
  function StartVerdict(v: Verification): Outcome
  {
    AndThen(ParametersVerdict(v), AndThen(KPlusOneVerdict(v.prob), CasesFrom(v, CaseResults(v), 0)))
  }

  /** checkCasek for case k, stated on what checkDualLP reports for it. */
  method CheckCase(v: Verification, ghost found: seq<Result<Option<seq<Entry>>>>, k: nat) returns (r: Outcome)
    requires k < |found| == |v.prob.redSpace|
    requires forall k {:trigger CaseResult(v, k)} | 0 <= k < |found| :: found[k] == CaseResult(v, k)
    ensures r == if IsNecessaryToCheckCase(v.prob, k) then CaseOutcome(v, k, found[k]) else Pass
  {
    r := CheckCasek(v, k);
    assert found[k] == CaseResult(v, k);
  }

  /** The loop of start over the cases. */
  method CheckCases(v: Verification, ghost found: seq<Result<Option<seq<Entry>>>>) returns (r: Outcome)
    requires |found| == |v.prob.redSpace|
    requires forall k {:trigger CaseResult(v, k)} | 0 <= k < |found| :: found[k] == CaseResult(v, k)
    ensures r == CasesFrom(v, found, 0)
  {
    for k := 0 to |v.prob.redSpace|
      invariant CasesFrom(v, found, 0) == CasesFrom(v, found, k)
    {
      r := CheckCase(v, found, k);
      if r.Fail? {
        return;
      }
    }
    return Pass;
  }

  /** start: the parameter checks, checkKPlusOne, then checkCasek for every k. */
  method Start(v: Verification) returns (r: Outcome)
    ensures r == StartVerdict(v)
  {
    r := CheckParameters(v);
    if r.Fail? {
      return;
    }
    r := CheckKPlusOne(v.prob);
    if r.Fail? {
      return;
    }
    r := CheckCases(v, CaseResults(v));
  }

  /**
   * What a verification that passes establishes (with a threshold not above the target): the
   * parameters are as ParametersSound says, no pattern without r is heavier than the target, and
   * every case that needs checking has a y3 value, a dual LP plan, and all patterns that plan
   * searches weigh at most the target.
   */
  lemma StartSound(v: Verification)
    requires v.prob.threshold <= v.prob.targetRatio && StartVerdict(v).Pass?
    ensures ParametersVerdict(v).Pass?
    ensures WithinTarget(WithoutRInstance(v.prob), v.prob.targetRatio)
    ensures forall k | 0 <= k < |v.prob.redSpace| && IsNecessaryToCheckCase(v.prob, k) ::
      k < |v.duals.y3Values| &&
      var plan := PlanCase(v.prob, v.duals, k, v.duals.y3Values[k]);
      plan.Ok? && (!plan.value.Skip? ==> WithinTarget(plan.value.inst, v.prob.targetRatio))
  {
    KPlusOneWithinTarget(v.prob);
    var found := CaseResults(v);
    CasesFromPasses(v, found, 0);
    forall k | 0 <= k < |v.prob.redSpace| && IsNecessaryToCheckCase(v.prob, k)
      ensures k < |v.duals.y3Values|
      ensures var plan := PlanCase(v.prob, v.duals, k, v.duals.y3Values[k]);
        plan.Ok? && (!plan.value.Skip? ==> WithinTarget(plan.value.inst, v.prob.targetRatio))
    {
      assert found[k] == CaseResult(v, k);
      CaseSound(v, k);
    }
  }
}
