/**
 * The pattern feasibility checks (PatternFeasibilityCheck) the solver consults before it adds
 * items of a type: AllPatterns accepts every pattern, NotQ1Q2 forbids patterns that hold both a
 * large item (size 1 - r) and an item of the type of r.
 */
module Feasibility {
  import opened Pattern

  datatype Check =
    | AllPatterns
    | NotQ1Q2(sizeOfLarge: real, sizeOfTypeOfR: real)

  /** canAdd: may items of this size be added to a pattern with these entries? */
  function CanAdd(c: Check, size: real, es: seq<Entry>): (b: bool)
    ensures c.AllPatterns? ==> b
    ensures c.NotQ1Q2? ==>
      (!b <==> (size == c.sizeOfLarge && HasSize(es, c.sizeOfTypeOfR)) ||
               (size == c.sizeOfTypeOfR && HasSize(es, c.sizeOfLarge)))
  {
    match c
    case AllPatterns => true
    case NotQ1Q2(large, typeOfR) =>
      if size != large && size != typeOfR then true
      else if size == large && HasSize(es, typeOfR) then false
      else if size == typeOfR && HasSize(es, large) then false
      else true
  }

  /** The pattern is one the check accepts: under NotQ1Q2 it never holds both guarded sizes. */
  predicate Respects(c: Check, es: seq<Entry>)
  {
    c.NotQ1Q2? ==> !(HasSize(es, c.sizeOfLarge) && HasSize(es, c.sizeOfTypeOfR))
  }

  /** Sizes other than the two guarded ones can always be added. */
  lemma OtherSizesAllowed(c: Check, size: real, es: seq<Entry>)
    requires c.NotQ1Q2? && size != c.sizeOfLarge && size != c.sizeOfTypeOfR
    ensures CanAdd(c, size, es)
  {
  }

  /**
   * Adding items only when canAdd allows it keeps a pattern acceptable (the two guarded sizes
   * must differ: a single size guarded against itself would let its first item in).
   */
  lemma AddedRespects(c: Check, es: seq<Entry>, s: real, w: real, n: nat)
    requires Positive(es) && DistinctSizes(es) && Respects(c, es)
    requires c.NotQ1Q2? ==> c.sizeOfLarge != c.sizeOfTypeOfR
    requires n == 0 || CanAdd(c, s, es)
    ensures Respects(c, Added(es, s, w, n))
  {
    AddedValid(es, s, w, n);
  }

  /** The empty pattern is acceptable and accepts items of every size. */
  lemma EmptyAcceptsAll(c: Check, size: real)
    ensures Respects(c, []) && CanAdd(c, size, [])
  {
  }

  /** canAdd as the solver calls it: on the pattern object, through its contains-test. */
  method CanAddTo(c: Check, size: real, pattern: KnapsackPattern) returns (b: bool)
    ensures b == CanAdd(c, size, pattern.items)
  {
    match c
    case AllPatterns =>
      b := true;
    case NotQ1Q2(large, typeOfR) =>
      if size != large && size != typeOfR {
        return true;
      }
      var hasR := false;
      if size == large {
        hasR := pattern.ContainsSize(typeOfR);
      }
      if hasR {
        return false;
      }
      var hasLarge := false;
      if size == typeOfR {
        hasLarge := pattern.ContainsSize(large);
      }
      b := !hasLarge;
  }
}
