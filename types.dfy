/** One non-large item type and the weights the dual LPs give it (TypeInfo). */
module Types {
  import opened Results

  /** A type covering sizes (sizeLB, ub]; the red/blue weights are set by ComputeWeights. */
  datatype TypeInfo = TypeInfo(
    sizeLB: real,
    redFraction: real,
    redfit: int,
    bluefit: int,
    needs: int,
    leaves: int,
    redWeight: real,
    blueWeight: real)

  /** The weights ComputeWeights establishes, stated without division. */
  ghost predicate WeightsComputed(t: TypeInfo)
  {
    t.bluefit != 0 && t.blueWeight * t.bluefit as real == 1.0 - t.redFraction &&
    (t.redFraction == 0.0 ==> t.redWeight == 0.0) &&
    (t.redFraction != 0.0 ==> t.redfit != 0 && t.redWeight * t.redfit as real == t.redFraction)
  }

  /** blue = (1 - red)/bluefit, and red/redfit unless red = 0 (then 0, whatever redfit is). */
  function ComputeWeights(t: TypeInfo): (r: Result<TypeInfo>)
    ensures r.Ok? <==> t.bluefit != 0 && (t.redFraction != 0.0 ==> t.redfit != 0)
    ensures r.Err? ==> r.error == DivisionByZero
    ensures r.Ok? ==> WeightsComputed(r.value)
    ensures r.Ok? ==> r.value == t.(redWeight := r.value.redWeight, blueWeight := r.value.blueWeight)
  {
    if t.redFraction != 0.0 && t.redfit == 0 then Err(DivisionByZero)
    else if t.bluefit == 0 then Err(DivisionByZero)
    else
      var red := if t.redFraction == 0.0 then t.redFraction else t.redFraction / t.redfit as real;
      var blue := (1.0 - t.redFraction) / t.bluefit as real;
      assert blue * t.bluefit as real == 1.0 - t.redFraction;
      Ok(t.(redWeight := red, blueWeight := blue))
  }

  /**
   * The w-weight in case k: the full weight when needs >= k or needs = 0, else only blue. The
   * selector itself is all the source promises, so the contract is its two cases.
   */
  function GetWeightW(t: TypeInfo, k: int): (r: real)
    ensures (t.needs >= k || t.needs == 0) ==> r == t.blueWeight + t.redWeight
    ensures 0 != t.needs < k ==> r == t.blueWeight
  {
    if t.needs >= k || t.needs == 0 then t.blueWeight + t.redWeight else t.blueWeight
  }

  /** The v-weight in case k: the full weight when leaves < k, else only red (again the selector is the promise). */
  function GetWeightV(t: TypeInfo, k: int): (r: real)
    ensures t.leaves < k ==> r == t.blueWeight + t.redWeight
    ensures t.leaves >= k ==> r == t.redWeight
  {
    if t.leaves < k then t.blueWeight + t.redWeight else t.redWeight
  }

  /** The knapsack weight of a type in the simple dual LP: (1 - y3) W + y3 V. */
  function Mixed(t: TypeInfo, k: int, y3: real): real
  {
    GetWeightW(t, k) * (1.0 - y3) + GetWeightV(t, k) * y3
  }

  /** Moving y3 changes the mixed weight by the step times (V - W): it falls as y3 grows iff W > V. */
  lemma MixedSlope(t: TypeInfo, k: int, a: real, b: real)
    ensures Mixed(t, k, b) - Mixed(t, k, a) == (b - a) * (GetWeightV(t, k) - GetWeightW(t, k))
    ensures a <= b && GetWeightW(t, k) > GetWeightV(t, k) ==> Mixed(t, k, b) <= Mixed(t, k, a)
    ensures a <= b && GetWeightW(t, k) < GetWeightV(t, k) ==> Mixed(t, k, b) >= Mixed(t, k, a)
  {
    var w, v := GetWeightW(t, k), GetWeightV(t, k);
    assert Mixed(t, k, b) - Mixed(t, k, a) == (b - a) * (v - w);
    if a <= b && w > v { MulNonneg(b - a, w - v); }
    if a <= b && w < v { MulNonneg(b - a, v - w); }
  }

  /** For 0 <= y3 <= 1 the mixed weight lies between W and V. */
  lemma MixedBetween(t: TypeInfo, k: int, y3: real)
    requires 0.0 <= y3 <= 1.0
    ensures var w, v := GetWeightW(t, k), GetWeightV(t, k);
      (w <= v ==> w <= Mixed(t, k, y3) <= v) && (v <= w ==> v <= Mixed(t, k, y3) <= w)
  {
    var w, v := GetWeightW(t, k), GetWeightV(t, k);
    assert Mixed(t, k, y3) == w + y3 * (v - w);
    if w <= v { MulNonneg(y3, v - w); MulNonneg(1.0 - y3, v - w); }
    if v <= w { MulNonneg(y3, w - v); MulNonneg(1.0 - y3, w - v); }
  }

  /** A product of two non-negative reals is non-negative. */
  lemma MulNonneg(a: real, b: real)
    requires 0.0 <= a && 0.0 <= b
    ensures 0.0 <= a * b
  {
  }

  /**
   * With the weights computed, (1 - red)/bluefit + red/redfit is the full weight blue + red of the
   * type (for red = 0 both the second term and the red weight are 0).
   */
  lemma TermAIsFullWeight(t: TypeInfo)
    requires t.bluefit != 0 && t.redfit != 0
    ensures WeightsComputed(t) ==>
      (1.0 - t.redFraction) / t.bluefit as real + t.redFraction / t.redfit as real == t.blueWeight + t.redWeight
  {
    if WeightsComputed(t) {
      DivOfProduct(t.blueWeight, t.bluefit as real, 1.0 - t.redFraction);
      if t.redFraction != 0.0 {
        DivOfProduct(t.redWeight, t.redfit as real, t.redFraction);
      }
    }
  }

  /** x * d == n with d != 0 gives x == n / d. */
  lemma DivOfProduct(x: real, d: real, n: real)
    requires d != 0.0 && x * d == n
    ensures x == n / d
  {
  }

  /** When computeOmega divides by zero (each is an ArithmeticException in the source). */
  predicate OmegaDividesByZero(types: seq<TypeInfo>, i: nat, r: nat)
    requires i < |types| && r < |types|
  {
    var t, tr := types[i], types[r];
    if i == r then t.bluefit == 0 || t.redfit == 0 || 1.0 + t.redFraction == 0.0
    else 0 < t.needs <= tr.leaves && t.redfit == 0
  }

  /**
   * The weight function omega of the extended dual LP for type i, where r is the type of the
   * item r (the source compares the objects; distinct array slots are distinct objects).
   */
  function ComputeOmega(types: seq<TypeInfo>, i: nat, r: nat, y1: real, y2: real, y3: real): (o: Result<real>)
    requires i < |types| && r < |types|
    ensures o.Err? <==> OmegaDividesByZero(types, i, r)
    ensures o.Ok? && i != r && !(0 < types[i].needs <= types[r].leaves) ==>
      o.value == Mixed(types[i], types[r].needs, y3)
    ensures o.Ok? && i != r && 0 < types[i].needs <= types[r].leaves ==>
      (o.value - Mixed(types[i], types[r].needs, y3)) * types[i].redfit as real == y2 * types[i].redFraction
    ensures o.Ok? && i == r && WeightsComputed(types[i]) ==>
      var t := types[i];
      o.value == (1.0 - y3) * (t.blueWeight + t.redWeight) + y3 * GetWeightV(t, t.needs)
                 + y1 * ((1.0 - t.redFraction) / (1.0 + t.redFraction))
  {
    var t, tr := types[i], types[r];
    var v := GetWeightV(t, tr.needs);
    var w := GetWeightW(t, tr.needs);
    if i == r then
      if t.bluefit == 0 || t.redfit == 0 || 1.0 + t.redFraction == 0.0 then Err(DivisionByZero)
      else
        var termA := (1.0 - t.redFraction) / t.bluefit as real + t.redFraction / t.redfit as real;
        var termC := (1.0 - t.redFraction) / (1.0 + t.redFraction);
        TermAIsFullWeight(t);
        Ok((1.0 - y3) * termA + y3 * v + y1 * termC)
    else if 0 < t.needs <= tr.leaves then
      if t.redfit == 0 then Err(DivisionByZero)
      else
        var extra := t.redFraction / t.redfit as real;
        assert extra * t.redfit as real == t.redFraction;
        Ok((1.0 - y3) * w + y3 * v + y2 * extra)
    else
      Ok((1.0 - y3) * w + y3 * v)
  }

  /** The first index whose type has lower bound s, or |types| when there is none. */
  function TypeIndex(types: seq<TypeInfo>, s: real): (r: nat)
    ensures r <= |types|
    ensures r < |types| ==> types[r].sizeLB == s
    ensures forall j | 0 <= j < r :: types[j].sizeLB != s
  {
    if types == [] then 0
    else if types[0].sizeLB == s then 0
    else 1 + TypeIndex(types[1..], s)
  }
}
