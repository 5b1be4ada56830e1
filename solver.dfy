/**
 * The exact branch-and-bound knapsack solver (KnapsackSolver): it orders the item types by
 * decreasing expansion (weight per size), leaving out those below the expansion of sand, and
 * searches the patterns depth first, pruning every branch whose optimistic bound stays below
 * the heaviest pattern found so far.
 */
module Solver {
  import opened Results
  import opened Pattern
  import opened Feasibility

  /** What a solver is built from: sizes and weights of the types, the check and the sand expansion. */
  datatype Instance = Instance(sizes: seq<real>, weights: seq<real>, check: Check, sandExpansion: real)

  /** Every type has a weight and a size one can divide by. */
  predicate Readable(inst: Instance)
  {
    |inst.weights| >= |inst.sizes| && forall t | 0 <= t < |inst.sizes| :: inst.sizes[t] != 0.0
  }

  /** The expansion of each type: its weight divided by its size. */
  function Expansions(inst: Instance): (r: seq<real>)
    requires Readable(inst)
    ensures |r| == |inst.sizes|
  {
    seq(|inst.sizes|, t requires 0 <= t < |inst.sizes| => inst.weights[t] / inst.sizes[t])
  }

  // ----- createPermutation -----

  /**
   * The types below n whose expansion reaches sand: exactly those, each once, in increasing
   * order (the list the first loop of createPermutation builds).
   */
  function Filtered(exp: seq<real>, sand: real, n: nat): (r: seq<nat>)
    requires n <= |exp|
    ensures forall k | 0 <= k < |r| :: r[k] < n
    ensures forall t: nat :: t in r <==> t < n && exp[t] >= sand
    ensures forall a, b | 0 <= a < b < |r| :: r[a] < r[b]
  {
    if n == 0 then []
    else
      var init := Filtered(exp, sand, n - 1);
      var r := init + (if exp[n - 1] < sand then [] else [n - 1]);
      assert forall k | 0 <= k < |init| :: r[k] == init[k];
      r
  }

  /** The order the comparator asks for: expansion does not increase along p. */
  predicate SortedByExpansion(exp: seq<real>, p: seq<nat>)
    requires forall k | 0 <= k < |p| :: p[k] < |exp|
  {
    forall a, b | 0 <= a < b < |p| :: exp[p[a]] >= exp[p[b]]
  }

  /** Types of equal expansion keep their increasing order (the sort is stable). */
  predicate StableOrder(exp: seq<real>, p: seq<nat>)
    requires forall k | 0 <= k < |p| :: p[k] < |exp|
  {
    forall a, b | 0 <= a < b < |p| :: exp[p[a]] == exp[p[b]] ==> p[a] < p[b]
  }

  /** j placed after every element of expansion at least its own. */
  function Insert(exp: seq<real>, p: seq<nat>, j: nat): (r: seq<nat>)
    requires j < |exp| && forall k | 0 <= k < |p| :: p[k] < |exp|
    ensures multiset(r) == multiset(p) + multiset{j}
    ensures forall k | 0 <= k < |r| :: r[k] < |exp|
  {
    if p == [] then [j]
    else if exp[p[0]] >= exp[j] then
      assert p == [p[0]] + p[1..];
      [p[0]] + Insert(exp, p[1..], j)
    else [j] + p
  }

  /** Collections.sort with the decreasing-expansion comparator: a stable insertion sort. */
  function SortByExpansion(exp: seq<real>, xs: seq<nat>): (r: seq<nat>)
    requires forall k | 0 <= k < |xs| :: xs[k] < |exp|
    ensures multiset(r) == multiset(xs)
    ensures forall k | 0 <= k < |r| :: r[k] < |exp|
  {
    if xs == [] then []
    else
      assert xs == xs[..|xs| - 1] + [xs[|xs| - 1]];
      Insert(exp, SortByExpansion(exp, xs[..|xs| - 1]), xs[|xs| - 1])
  }

  /** Putting x in front keeps the order when x comes first among the elements it is compared to. */
  lemma ConsOrdered(exp: seq<real>, x: nat, rest: seq<nat>)
    requires x < |exp| && forall k | 0 <= k < |rest| :: rest[k] < |exp|
    requires SortedByExpansion(exp, rest) && StableOrder(exp, rest)
    requires forall k | 0 <= k < |rest| :: exp[x] >= exp[rest[k]] && (exp[x] == exp[rest[k]] ==> x < rest[k])
    ensures SortedByExpansion(exp, [x] + rest) && StableOrder(exp, [x] + rest)
  {
    var r := [x] + rest;
    forall a, b | 0 <= a < b < |r|
      ensures exp[r[a]] >= exp[r[b]] && (exp[r[a]] == exp[r[b]] ==> r[a] < r[b])
    {
      assert r[b] == rest[b - 1];
      if a > 0 {
        assert r[a] == rest[a - 1];
      }
    }
  }

  lemma {:induction false} InsertSorted(exp: seq<real>, p: seq<nat>, j: nat)
    requires j < |exp| && forall k | 0 <= k < |p| :: p[k] < |exp|
    requires SortedByExpansion(exp, p)
    requires StableOrder(exp, p) && forall k | 0 <= k < |p| :: p[k] < j
    ensures SortedByExpansion(exp, Insert(exp, p, j))
    ensures StableOrder(exp, Insert(exp, p, j))
  {
    if p == [] {
    } else if exp[p[0]] >= exp[j] {
      var tail := p[1..];
      var rest := Insert(exp, tail, j);
      InsertSorted(exp, tail, j);
      forall k | 0 <= k < |rest|
        ensures exp[p[0]] >= exp[rest[k]] && (exp[p[0]] == exp[rest[k]] ==> p[0] < rest[k])
      {
        assert rest[k] in multiset(rest);
        assert rest[k] in tail || rest[k] == j;
      }
      ConsOrdered(exp, p[0], rest);
    } else {
      forall k | 0 <= k < |p| ensures exp[j] > exp[p[k]] {
        assert exp[p[0]] >= exp[p[k]];
      }
      ConsOrdered(exp, j, p);
    }
  }

  /** The sort orders by decreasing expansion and, on increasing input, is stable. */
  lemma {:induction false} SortSorted(exp: seq<real>, xs: seq<nat>)
    requires forall k | 0 <= k < |xs| :: xs[k] < |exp|
    requires forall a, b | 0 <= a < b < |xs| :: xs[a] < xs[b]
    ensures SortedByExpansion(exp, SortByExpansion(exp, xs))
    ensures StableOrder(exp, SortByExpansion(exp, xs))
  {
    if xs != [] {
      var init := xs[..|xs| - 1];
      var last := xs[|xs| - 1];
      SortSorted(exp, init);
      var p := SortByExpansion(exp, init);
      forall k | 0 <= k < |p| ensures p[k] < last {
        assert p[k] in multiset(init);
      }
      InsertSorted(exp, p, last);
    }
  }

  /** The permutation createPermutation builds: the kept types, by decreasing expansion. */
  function Permutation(inst: Instance): (r: seq<nat>)
    requires Readable(inst)
  {
    SortByExpansion(Expansions(inst), Filtered(Expansions(inst), inst.sandExpansion, |inst.sizes|))
  }

  /**
   * The permutation lists each type of expansion at least sand exactly once and no other,
   * by decreasing expansion, types of equal expansion in increasing order.
   */
  lemma PermutationCorrect(inst: Instance)
    requires Readable(inst)
    ensures forall t: nat :: t in Permutation(inst) <==>
      t < |inst.sizes| && Expansions(inst)[t] >= inst.sandExpansion
    ensures forall a, b | 0 <= a < b < |Permutation(inst)| :: Permutation(inst)[a] != Permutation(inst)[b]
    ensures SortedByExpansion(Expansions(inst), Permutation(inst))
    ensures StableOrder(Expansions(inst), Permutation(inst))
  {
    var exp := Expansions(inst);
    var f := Filtered(exp, inst.sandExpansion, |inst.sizes|);
    SortSorted(exp, f);
    var p := Permutation(inst);
    assert multiset(p) == multiset(f);
    forall t ensures t in p <==> t in f {
      assert t in p <==> t in multiset(p);
      assert t in f <==> t in multiset(f);
    }
  }

  // ----- the search tree -----

  /** The permutation names types whose weight exists and whose size is positive. */
  predicate PermOk(inst: Instance, perm: seq<nat>)
  {
    |inst.weights| >= |inst.sizes| &&
    forall k | 0 <= k < |perm| :: perm[k] < |inst.sizes| && inst.sizes[perm[k]] > 0.0
  }

  /** The size, weight and expansion of the type at position i of the permutation. */
  function SizeAt(inst: Instance, perm: seq<nat>, i: nat): real
    requires PermOk(inst, perm) && i < |perm|
  {
    inst.sizes[perm[i]]
  }

  function WeightAt(inst: Instance, perm: seq<nat>, i: nat): real
    requires PermOk(inst, perm) && i < |perm|
  {
    inst.weights[perm[i]]
  }

  function ExpansionAt(inst: Instance, perm: seq<nat>, i: nat): (r: real)
    requires PermOk(inst, perm) && i < |perm|
  {
    WeightAt(inst, perm, i) / SizeAt(inst, perm, i)
  }

  /** The expansion is the weight per unit of size. */
  lemma ExpansionTimesSize(inst: Instance, perm: seq<nat>, i: nat)
    requires PermOk(inst, perm) && i < |perm|
    ensures ExpansionAt(inst, perm, i) * SizeAt(inst, perm, i) == WeightAt(inst, perm, i)
  {
  }

  /** What the pruning argument needs of a permutation: decreasing expansion, distinct sizes. */
  predicate Ordered(inst: Instance, perm: seq<nat>)
  {
    PermOk(inst, perm) &&
    (forall a, b | 0 <= a < b < |perm| :: ExpansionAt(inst, perm, a) >= ExpansionAt(inst, perm, b)) &&
    (forall a, b | 0 <= a < b < |perm| :: SizeAt(inst, perm, a) != SizeAt(inst, perm, b))
  }

  /**
   * A pattern the search can reach at depth i: valid entries, some space left, and no item
   * of a type it has still to decide on.
   */
  predicate Fresh(inst: Instance, perm: seq<nat>, i: nat, es: seq<Entry>)
    requires PermOk(inst, perm)
  {
    Positive(es) && DistinctSizes(es) && SizeOf(es) < 1.0 &&
    forall k | i <= k < |perm| :: !HasSize(es, SizeAt(inst, perm, k))
  }

  /** How many items of the type at position i the search starts with. */
  function Count(inst: Instance, perm: seq<nat>, i: nat, es: seq<Entry>): nat
    requires PermOk(inst, perm) && i < |perm|
  {
    if CanAdd(inst.check, SizeAt(inst, perm, i), es) then ItemsFit(SizeOf(es), SizeAt(inst, perm, i))
    else 0
  }

  /** The first position from i on whose type is smaller than the free space `room`. */
  function FirstFitting(inst: Instance, perm: seq<nat>, i: nat, room: real): (r: nat)
    requires PermOk(inst, perm) && i <= |perm|
    ensures i <= r <= |perm|
    ensures r < |perm| ==> SizeAt(inst, perm, r) < room
    ensures forall k | i <= k < r :: SizeAt(inst, perm, k) >= room
    decreases |perm| - i
  {
    if i == |perm| then i
    else if room <= SizeAt(inst, perm, i) then FirstFitting(inst, perm, i + 1, room)
    else i
  }

  /** findMaxExpansionFitting: the expansion of that type, never below the sand expansion. */
  function MaxExpansionFitting(inst: Instance, perm: seq<nat>, i: nat, es: seq<Entry>): real
    requires PermOk(inst, perm) && i <= |perm|
  {
    var j := FirstFitting(inst, perm, i, 1.0 - SizeOf(es));
    var e := if j == |perm| then inst.sandExpansion else ExpansionAt(inst, perm, j);
    if e < inst.sandExpansion then inst.sandExpansion else e
  }

  /**
   * findMaxExpansionFitting is never below the sand expansion; it is the sand expansion when no
   * type from i on is smaller than the free space, and otherwise the expansion of the first such
   * type, raised to the sand expansion when below it.
   */
  lemma MaxExpansionFittingMeaning(inst: Instance, perm: seq<nat>, i: nat, es: seq<Entry>)
    requires PermOk(inst, perm) && i <= |perm|
    ensures MaxExpansionFitting(inst, perm, i, es) >= inst.sandExpansion
    ensures (forall k | i <= k < |perm| :: SizeAt(inst, perm, k) >= 1.0 - SizeOf(es)) ==>
      MaxExpansionFitting(inst, perm, i, es) == inst.sandExpansion
    ensures forall k | i <= k < |perm| && SizeAt(inst, perm, k) < 1.0 - SizeOf(es) &&
                       (forall j | i <= j < k :: SizeAt(inst, perm, j) >= 1.0 - SizeOf(es)) ::
      MaxExpansionFitting(inst, perm, i, es) ==
        (if ExpansionAt(inst, perm, k) < inst.sandExpansion then inst.sandExpansion else ExpansionAt(inst, perm, k))
  {
    var j := FirstFitting(inst, perm, i, 1.0 - SizeOf(es));
    forall k | i <= k < |perm| && SizeAt(inst, perm, k) < 1.0 - SizeOf(es) &&
               (forall j' | i <= j' < k :: SizeAt(inst, perm, j') >= 1.0 - SizeOf(es))
      ensures k == j
    {
    }
  }

  /** The optimistic bound of packRecursively: weight so far plus the free space at that expansion. */
  function Bound(inst: Instance, perm: seq<nat>, i: nat, es: seq<Entry>): real
    requires PermOk(inst, perm) && i <= |perm|
  {
    WeightInclSand(es, MaxExpansionFitting(inst, perm, i, es))
  }

  /**
   * The complete patterns below a partial one, in the order the search visits them, without
   * any pruning: for the type at position i the counts Count, Count - 1, ..., 0 in turn.
   */
  function Leaves(inst: Instance, perm: seq<nat>, i: nat, es: seq<Entry>): seq<seq<Entry>>
    requires PermOk(inst, perm) && i <= |perm|
    decreases |perm| - i, 1, 0
  {
    if i == |perm| then [es] else LeavesFrom(inst, perm, i, es, Count(inst, perm, i, es))
  }

  function LeavesFrom(inst: Instance, perm: seq<nat>, i: nat, es: seq<Entry>, c: nat): seq<seq<Entry>>
    requires PermOk(inst, perm) && i < |perm|
    decreases |perm| - i, 0, c
  {
    Leaves(inst, perm, i + 1, Added(es, SizeAt(inst, perm, i), WeightAt(inst, perm, i), c)) +
    (if c == 0 then [] else LeavesFrom(inst, perm, i, es, c - 1))
  }

  /** The solver's record: the weight to beat and the heaviest pattern found so far. */
  datatype Record = Record(maxWeight: real, heaviest: Option<seq<Entry>>)

  /** A complete pattern whose weight with sand reaches the record becomes the record. */
  function Step(inst: Instance, leaf: seq<Entry>, st: Record): Record
  {
    var w := WeightInclSand(leaf, inst.sandExpansion);
    if st.maxWeight > w then st else Record(w, Some(leaf))
  }

  /** The record after visiting the given complete patterns in turn. */
  function Fold(inst: Instance, leaves: seq<seq<Entry>>, st: Record): Record
  {
    if leaves == [] then st else Fold(inst, leaves[1..], Step(inst, leaves[0], st))
  }

  /** packRecursively on values: the search with its pruning. */
  function Pack(inst: Instance, perm: seq<nat>, i: nat, es: seq<Entry>, st: Record): Record
    requires PermOk(inst, perm) && i <= |perm|
    decreases |perm| - i, 1, 0
  {
    var bound := Bound(inst, perm, i, es);
    if st.maxWeight > bound then st
    else if i == |perm| then Record(bound, Some(es))
    else PackFrom(inst, perm, i, es, Count(inst, perm, i, es), st)
  }

  function PackFrom(inst: Instance, perm: seq<nat>, i: nat, es: seq<Entry>, c: nat, st: Record): Record
    requires PermOk(inst, perm) && i < |perm|
    decreases |perm| - i, 0, c
  {
    var st' := Pack(inst, perm, i + 1, Added(es, SizeAt(inst, perm, i), WeightAt(inst, perm, i), c), st);
    if c == 0 then st' else PackFrom(inst, perm, i, es, c - 1, st')
  }

  // ----- the record after a sequence of complete patterns -----

  lemma {:induction false} FoldConcat(inst: Instance, a: seq<seq<Entry>>, b: seq<seq<Entry>>, st: Record)
    ensures Fold(inst, a + b, st) == Fold(inst, b, Fold(inst, a, st))
  {
    if a != [] {
      assert (a + b)[0] == a[0] && (a + b)[1..] == a[1..] + b;
      FoldConcat(inst, a[1..], b, Step(inst, a[0], st));
    } else {
      assert a + b == b;
    }
  }

  /** Complete patterns lighter than the record leave it as it is. */
  lemma {:induction false} FoldBelow(inst: Instance, leaves: seq<seq<Entry>>, st: Record)
    requires forall k | 0 <= k < |leaves| :: WeightInclSand(leaves[k], inst.sandExpansion) < st.maxWeight
    ensures Fold(inst, leaves, st) == st
  {
    if leaves != [] {
      FoldBelow(inst, leaves[1..], st);
    }
  }

  /**
   * The record never decreases and ends at least as heavy as every pattern visited; as soon as
   * one pattern reaches the starting record, the final record holds a visited pattern of
   * exactly the final weight.
   */
  lemma {:induction false} FoldMax(inst: Instance, leaves: seq<seq<Entry>>, st: Record)
    ensures Fold(inst, leaves, st).maxWeight >= st.maxWeight
    ensures forall k | 0 <= k < |leaves| ::
      WeightInclSand(leaves[k], inst.sandExpansion) <= Fold(inst, leaves, st).maxWeight
    ensures (exists k | 0 <= k < |leaves| :: WeightInclSand(leaves[k], inst.sandExpansion) >= st.maxWeight) ==>
      var r := Fold(inst, leaves, st);
      r.heaviest.Some? && r.heaviest.value in leaves &&
      WeightInclSand(r.heaviest.value, inst.sandExpansion) == r.maxWeight
  {
    if leaves != [] {
      var st' := Step(inst, leaves[0], st);
      FoldMax(inst, leaves[1..], st');
      var r := Fold(inst, leaves, st);
      assert r == Fold(inst, leaves[1..], st');
      forall k | 1 <= k < |leaves|
        ensures WeightInclSand(leaves[k], inst.sandExpansion) <= r.maxWeight
      {
        assert leaves[k] == leaves[1..][k - 1];
      }
      if exists k | 0 <= k < |leaves| :: WeightInclSand(leaves[k], inst.sandExpansion) >= st.maxWeight {
        if WeightInclSand(leaves[0], inst.sandExpansion) >= st.maxWeight {
          if forall k | 0 <= k < |leaves[1..]| :: WeightInclSand(leaves[1..][k], inst.sandExpansion) < st'.maxWeight {
            FoldBelow(inst, leaves[1..], st');
          }
        } else {
          var k :| 0 <= k < |leaves| && WeightInclSand(leaves[k], inst.sandExpansion) >= st.maxWeight;
          assert leaves[1..][k - 1] == leaves[k];
        }
      }
    }
  }

  /**
   * Starting from a threshold and no pattern, the search records a pattern exactly when some
   * visited pattern reaches the threshold, and then it is a heaviest visited pattern.
   */
  lemma FoldFromThreshold(inst: Instance, leaves: seq<seq<Entry>>, threshold: real)
    ensures var r := Fold(inst, leaves, Record(threshold, None));
      (r.heaviest.None? <==>
        forall k | 0 <= k < |leaves| :: WeightInclSand(leaves[k], inst.sandExpansion) < threshold) &&
      (r.heaviest.Some? ==>
        r.heaviest.value in leaves && r.maxWeight >= threshold &&
        WeightInclSand(r.heaviest.value, inst.sandExpansion) == r.maxWeight &&
        forall k | 0 <= k < |leaves| :: WeightInclSand(leaves[k], inst.sandExpansion) <= r.maxWeight)
  {
    var st := Record(threshold, None);
    FoldMax(inst, leaves, st);
    if forall k | 0 <= k < |leaves| :: WeightInclSand(leaves[k], inst.sandExpansion) < threshold {
      FoldBelow(inst, leaves, st);
    }
  }

  // ----- the pruning bound is sound -----

  /** The two guarded sizes of a NotQ1Q2 check differ. */
  predicate Separated(c: Check)
  {
    c.NotQ1Q2? ==> c.sizeOfLarge != c.sizeOfTypeOfR
  }

  /** c items fit when c is at most the fit count: then one fits as well. */
  lemma FitsBelowCount(used: real, s: real, c: nat)
    requires s > 0.0 && 0 < c <= ItemsFit(used, s)
    ensures used + s * c as real < 1.0 && s < 1.0 - used
  {
    ItemsFitBounds(used, s);
    FitsBelowArith(used, s, c as real, ItemsFit(used, s) as real);
  }

  /** The arithmetic of FitsBelowCount. */
  lemma FitsBelowArith(used: real, s: real, c: real, n: real)
    requires s > 0.0 && 1.0 <= c <= n && used + s * n < 1.0
    ensures used + s * c < 1.0 && s < 1.0 - used
  {
    MulMonotone(c, n, s);
    MulMonotone(1.0, c, s);
  }

  /** One step down the tree: c <= Count items of the type at position i are added. */
  /** The part of AddedStep the search loop needs: the pattern one level down is reachable. */
  lemma AddedFresh(inst: Instance, perm: seq<nat>, i: nat, es: seq<Entry>, c: nat)
    requires Ordered(inst, perm) && i < |perm| && Fresh(inst, perm, i, es)
    requires c <= Count(inst, perm, i, es)
    ensures Fresh(inst, perm, i + 1, Added(es, SizeAt(inst, perm, i), WeightAt(inst, perm, i), c))
  {
    AddedStep(inst, perm, i, es, c);
  }

  lemma AddedStep(inst: Instance, perm: seq<nat>, i: nat, es: seq<Entry>, c: nat)
    requires Ordered(inst, perm) && i < |perm| && Fresh(inst, perm, i, es)
    requires c <= Count(inst, perm, i, es)
    ensures var es' := Added(es, SizeAt(inst, perm, i), WeightAt(inst, perm, i), c);
      Fresh(inst, perm, i + 1, es') && SizeOf(es') >= SizeOf(es) &&
      SizeOf(es') == SizeOf(es) + Scale(SizeAt(inst, perm, i), c) &&
      WeightOf(es') == WeightOf(es) + Scale(WeightAt(inst, perm, i), c) &&
      (Respects(inst.check, es) && Separated(inst.check) ==> Respects(inst.check, es'))
    ensures c > 0 ==>
      CanAdd(inst.check, SizeAt(inst, perm, i), es) && SizeAt(inst, perm, i) < 1.0 - SizeOf(es)
  {
    var s := SizeAt(inst, perm, i);
    var w := WeightAt(inst, perm, i);
    var es' := Added(es, s, w, c);
    AddedTotals(es, s, w, c);
    AddedValid(es, s, w, c);
    ScaleIsProduct(s, c);
    Types.MulNonneg(s, c as real);
    if c > 0 {
      assert CanAdd(inst.check, s, es);
      FitsBelowCount(SizeOf(es), s, c);
    }
    forall k | i + 1 <= k < |perm| ensures !HasSize(es', SizeAt(inst, perm, k)) {
      assert SizeAt(inst, perm, i) != SizeAt(inst, perm, k);
    }
    if Respects(inst.check, es) && Separated(inst.check) {
      AddedRespects(inst.check, es, s, w, c);
    }
  }

  /**
   * The arithmetic of one step of the bound. The child holds items of total size a and weight
   * b = exp * a more than its parent and keeps some space free; its best expansion e' is at most
   * the parent's e, which is at least exp when items were added.
   */
  lemma StepArith(w0: real, s0: real, w1: real, s1: real, a: real, b: real, exp: real,
                  e: real, e': real, sand0: real, sand1: real)
    requires s1 == s0 + a && w1 == w0 + b && s1 <= 1.0
    requires a >= 0.0 && b == exp * a && e' <= e && (a != 0.0 ==> exp <= e)
    requires sand0 == (1.0 - s0) * e && sand1 == (1.0 - s1) * e'
    ensures w1 + sand1 <= w0 + sand0
  {
    var room := 1.0 - s1;
    if a > 0.0 {
      MulMonotone(exp, e, a);
    }
    assert exp * a <= e * a;
    if room > 0.0 {
      MulMonotone(e', e, room);
    }
    assert room * e' <= room * e;
    assert 1.0 - s0 == a + room;
    assert (1.0 - s0) * e == a * e + room * e;
  }

  /** n items of size s and weight w = exp * s: their weight is exp times their size. */
  lemma ScaledWeight(s: real, w: real, n: nat, exp: real)
    requires s > 0.0 && exp * s == w
    ensures Scale(w, n) == exp * Scale(s, n) && Scale(s, n) >= 0.0
    ensures Scale(s, n) != 0.0 ==> n != 0
  {
    ScaleIsProduct(s, n);
    ScaleIsProduct(w, n);
    Types.MulNonneg(s, n as real);
  }

  /** The step of the bound on plain numbers: c items of size s and weight w = exp * s. */
  lemma RealStep(w0: real, s0: real, w1: real, s1: real, s: real, w: real, c: nat, exp: real, e: real, e': real)
    requires s1 == s0 + Scale(s, c) && w1 == w0 + Scale(w, c) && s1 <= 1.0
    requires s > 0.0 && exp * s == w && e' <= e && (c != 0 ==> exp <= e)
    ensures PlusSand(w1, s1, e') <= PlusSand(w0, s0, e)
  {
    ScaledWeight(s, w, c, exp);
    StepArith(w0, s0, w1, s1, Scale(s, c), Scale(w, c), exp, e, e', (1.0 - s0) * e, (1.0 - s1) * e');
  }

  /** The step of the bound on patterns: the child holds c items of the type at position i more. */
  lemma StepBound(inst: Instance, perm: seq<nat>, i: nat, es: seq<Entry>, es': seq<Entry>, c: nat,
                  e: real, e': real)
    requires PermOk(inst, perm) && i < |perm|
    requires SizeOf(es') == SizeOf(es) + Scale(SizeAt(inst, perm, i), c)
    requires WeightOf(es') == WeightOf(es) + Scale(WeightAt(inst, perm, i), c)
    requires SizeOf(es') < 1.0 && e' <= e && (c != 0 ==> ExpansionAt(inst, perm, i) <= e)
    ensures WeightInclSand(es', e') <= WeightInclSand(es, e)
  {
    ExpansionTimesSize(inst, perm, i);
    RealStep(WeightOf(es), SizeOf(es), WeightOf(es'), SizeOf(es'), SizeAt(inst, perm, i),
             WeightAt(inst, perm, i), c, ExpansionAt(inst, perm, i), e, e');
  }


  /**
   * With less free space, the best expansion still fitting from a later position is no larger
   * (the types are in decreasing order of expansion).
   */
  lemma ExpansionShrinks(inst: Instance, perm: seq<nat>, i: nat, es: seq<Entry>, es': seq<Entry>)
    requires Ordered(inst, perm) && i < |perm| && SizeOf(es') >= SizeOf(es)
    ensures MaxExpansionFitting(inst, perm, i + 1, es') <= MaxExpansionFitting(inst, perm, i, es)
  {
    var room := 1.0 - SizeOf(es);
    var j := FirstFitting(inst, perm, i, room);
    var j' := FirstFitting(inst, perm, i + 1, 1.0 - SizeOf(es'));
    if j' < |perm| {
      assert j <= j';
      if j < j' {
        assert ExpansionAt(inst, perm, j) >= ExpansionAt(inst, perm, j');
      }
    }
  }

  /** A type that fits is the first fitting one, so its expansion is at most the bound's. */
  lemma FittingTypeBelow(inst: Instance, perm: seq<nat>, i: nat, es: seq<Entry>)
    requires PermOk(inst, perm) && i < |perm| && SizeAt(inst, perm, i) < 1.0 - SizeOf(es)
    ensures ExpansionAt(inst, perm, i) <= MaxExpansionFitting(inst, perm, i, es)
  {
    assert FirstFitting(inst, perm, i, 1.0 - SizeOf(es)) == i;
  }

  /** The bound of a child in the tree is at most the bound of its parent. */
  lemma BoundStep(inst: Instance, perm: seq<nat>, i: nat, es: seq<Entry>, c: nat)
    requires Ordered(inst, perm) && i < |perm| && Fresh(inst, perm, i, es)
    requires c <= Count(inst, perm, i, es)
    ensures Bound(inst, perm, i + 1, Added(es, SizeAt(inst, perm, i), WeightAt(inst, perm, i), c))
      <= Bound(inst, perm, i, es)
  {
    var s, w, exp := SizeAt(inst, perm, i), WeightAt(inst, perm, i), ExpansionAt(inst, perm, i);
    var es' := Added(es, s, w, c);
    var e := MaxExpansionFitting(inst, perm, i, es);
    var e' := MaxExpansionFitting(inst, perm, i + 1, es');
    assert SizeOf(es') == SizeOf(es) + Scale(s, c) && WeightOf(es') == WeightOf(es) + Scale(w, c) &&
           SizeOf(es') < 1.0 by {
      AddedStep(inst, perm, i, es, c);
    }
    assert e' <= e by {
      AddedStep(inst, perm, i, es, c);
      ExpansionShrinks(inst, perm, i, es, es');
    }
    assert c != 0 ==> exp <= e by {
      AddedStep(inst, perm, i, es, c);
      if c > 0 {
        FittingTypeBelow(inst, perm, i, es);
      }
    }
    StepBound(inst, perm, i, es, es', c, e, e');
  }

  /** At a complete pattern every expansion is the sand's: the bound is the weight with sand. */
  lemma LeafBound(inst: Instance, perm: seq<nat>, es: seq<Entry>)
    requires PermOk(inst, perm)
    ensures Bound(inst, perm, |perm|, es) == WeightInclSand(es, inst.sandExpansion)
  {
    assert FirstFitting(inst, perm, |perm|, 1.0 - SizeOf(es)) == |perm|;
  }

  /** No complete pattern below a partial one weighs more, with sand, than the partial one's bound. */
  lemma {:induction false} BoundSound(inst: Instance, perm: seq<nat>, i: nat, es: seq<Entry>)
    requires Ordered(inst, perm) && i <= |perm| && Fresh(inst, perm, i, es)
    ensures forall leaf | leaf in Leaves(inst, perm, i, es) ::
      WeightInclSand(leaf, inst.sandExpansion) <= Bound(inst, perm, i, es)
    decreases |perm| - i, 1, 0
  {
    if i == |perm| {
      LeafBound(inst, perm, es);
    } else {
      BoundSoundFrom(inst, perm, i, es, Count(inst, perm, i, es));
    }
  }

  lemma {:induction false} BoundSoundFrom(inst: Instance, perm: seq<nat>, i: nat, es: seq<Entry>, c: nat)
    requires Ordered(inst, perm) && i < |perm| && Fresh(inst, perm, i, es)
    requires c <= Count(inst, perm, i, es)
    ensures forall leaf | leaf in LeavesFrom(inst, perm, i, es, c) ::
      WeightInclSand(leaf, inst.sandExpansion) <= Bound(inst, perm, i, es)
    decreases |perm| - i, 0, c
  {
    var child := Added(es, SizeAt(inst, perm, i), WeightAt(inst, perm, i), c);
    AddedStep(inst, perm, i, es, c);
    BoundSound(inst, perm, i + 1, child);
    BoundStep(inst, perm, i, es, c);
    if c > 0 {
      BoundSoundFrom(inst, perm, i, es, c - 1);
    }
  }

  /** The search with pruning ends in the same record as visiting every complete pattern in turn. */
  lemma {:induction false} PackIsFold(inst: Instance, perm: seq<nat>, i: nat, es: seq<Entry>, st: Record)
    requires Ordered(inst, perm) && i <= |perm| && Fresh(inst, perm, i, es)
    ensures Pack(inst, perm, i, es, st) == Fold(inst, Leaves(inst, perm, i, es), st)
    decreases |perm| - i, 1, 0
  {
    var leaves := Leaves(inst, perm, i, es);
    if st.maxWeight > Bound(inst, perm, i, es) {
      BoundSound(inst, perm, i, es);
      assert forall k | 0 <= k < |leaves| :: leaves[k] in leaves;
      FoldBelow(inst, leaves, st);
    } else if i == |perm| {
      LeafBound(inst, perm, es);
      assert leaves[1..] == [];
    } else {
      PackFromIsFold(inst, perm, i, es, Count(inst, perm, i, es), st);
    }
  }

  lemma {:induction false} PackFromIsFold(inst: Instance, perm: seq<nat>, i: nat, es: seq<Entry>, c: nat, st: Record)
    requires Ordered(inst, perm) && i < |perm| && Fresh(inst, perm, i, es)
    requires c <= Count(inst, perm, i, es)
    ensures PackFrom(inst, perm, i, es, c, st) == Fold(inst, LeavesFrom(inst, perm, i, es, c), st)
    decreases |perm| - i, 0, c
  {
    var child := Added(es, SizeAt(inst, perm, i), WeightAt(inst, perm, i), c);
    AddedStep(inst, perm, i, es, c);
    PackIsFold(inst, perm, i + 1, child, st);
    var first := Leaves(inst, perm, i + 1, child);
    var st' := Pack(inst, perm, i + 1, child, st);
    if c == 0 {
      assert LeavesFrom(inst, perm, i, es, c) == first + [];
      assert first + [] == first;
    } else {
      PackFromIsFold(inst, perm, i, es, c - 1, st');
      FoldConcat(inst, first, LeavesFrom(inst, perm, i, es, c - 1), st);
    }
  }

  /** Every complete pattern is valid, fits, and keeps the large item apart from the item r. */
  lemma {:induction false} LeavesValid(inst: Instance, perm: seq<nat>, i: nat, es: seq<Entry>)
    requires Ordered(inst, perm) && i <= |perm| && Fresh(inst, perm, i, es)
    ensures forall leaf | leaf in Leaves(inst, perm, i, es) ::
      Fresh(inst, perm, |perm|, leaf) &&
      (Separated(inst.check) && Respects(inst.check, es) ==> Respects(inst.check, leaf))
    decreases |perm| - i, 1, 0
  {
    if i < |perm| {
      LeavesFromValid(inst, perm, i, es, Count(inst, perm, i, es));
    }
  }

  lemma {:induction false} LeavesFromValid(inst: Instance, perm: seq<nat>, i: nat, es: seq<Entry>, c: nat)
    requires Ordered(inst, perm) && i < |perm| && Fresh(inst, perm, i, es)
    requires c <= Count(inst, perm, i, es)
    ensures forall leaf | leaf in LeavesFrom(inst, perm, i, es, c) ::
      Fresh(inst, perm, |perm|, leaf) &&
      (Separated(inst.check) && Respects(inst.check, es) ==> Respects(inst.check, leaf))
    decreases |perm| - i, 0, c
  {
    var child := Added(es, SizeAt(inst, perm, i), WeightAt(inst, perm, i), c);
    AddedStep(inst, perm, i, es, c);
    LeavesValid(inst, perm, i + 1, child);
    if c > 0 {
      LeavesFromValid(inst, perm, i, es, c - 1);
    }
  }

  // ----- errors, the admissible instances and solve on values -----

  /** Type t can be read: it has a weight and a size one can divide by. */
  predicate TypeReadable(inst: Instance, t: nat)
  {
    t < |inst.weights| && t < |inst.sizes| && inst.sizes[t] != 0.0
  }

  /**
   * What the expansion loop of createPermutation throws from type `from` on: reading a weight
   * past the end of the weights, or dividing by a size of zero, at the first type that fails.
   */
  function ExpansionFailure(inst: Instance, from: nat): (r: Option<Error>)
    requires from <= |inst.sizes|
    ensures r.None? <==> forall t | from <= t < |inst.sizes| :: TypeReadable(inst, t)
    decreases |inst.sizes| - from
  {
    if from == |inst.sizes| then None
    else if from >= |inst.weights| then
      assert !TypeReadable(inst, from);
      Some(IndexOutOfRange)
    else if inst.sizes[from] == 0.0 then
      assert !TypeReadable(inst, from);
      Some(DivisionByZero)
    else
      assert TypeReadable(inst, from);
      ExpansionFailure(inst, from + 1)
  }

  /** A failure is the one of the first type that cannot be read: a missing weight or a zero size. */
  lemma {:induction false} FailureAtFirstUnreadable(inst: Instance, from: nat)
    requires from <= |inst.sizes| && ExpansionFailure(inst, from).Some?
    ensures exists t | from <= t < |inst.sizes| ::
      !TypeReadable(inst, t) && (forall u | from <= u < t :: TypeReadable(inst, u)) &&
      ExpansionFailure(inst, from).value == (if t >= |inst.weights| then IndexOutOfRange else DivisionByZero)
    decreases |inst.sizes| - from
  {
    if from < |inst.weights| && inst.sizes[from] != 0.0 {
      FailureAtFirstUnreadable(inst, from + 1);
      var t :| from + 1 <= t < |inst.sizes| &&
        !TypeReadable(inst, t) && (forall u | from + 1 <= u < t :: TypeReadable(inst, u)) &&
        ExpansionFailure(inst, from + 1).value == (if t >= |inst.weights| then IndexOutOfRange else DivisionByZero);
      assert TypeReadable(inst, from);
    } else {
      assert !TypeReadable(inst, from);
    }
  }

  /** Without a failure from the first type on, every type is readable. */
  lemma NoFailureReadable(inst: Instance)
    requires ExpansionFailure(inst, 0).None?
    ensures Readable(inst)
  {
    if |inst.sizes| > 0 {
      assert TypeReadable(inst, |inst.sizes| - 1);
    }
    forall t | 0 <= t < |inst.sizes| ensures inst.sizes[t] != 0.0 {
      assert TypeReadable(inst, t);
    }
  }

  /**
   * The kept types have positive and pairwise different sizes: what the model of the search
   * needs of an instance (checked by Solve, which refuses other instances).
   */
  predicate SizesUsable(inst: Instance, perm: seq<nat>)
  {
    PermOk(inst, perm) && forall a, b | 0 <= a < b < |perm| :: inst.sizes[perm[a]] != inst.sizes[perm[b]]
  }

  /** The permutation of a usable instance orders the search as the pruning needs. */
  lemma PermutationOrdered(inst: Instance)
    requires Readable(inst) && SizesUsable(inst, Permutation(inst))
    ensures Ordered(inst, Permutation(inst))
  {
    PermutationCorrect(inst);
    var perm := Permutation(inst);
    forall a, b | 0 <= a < b < |perm|
      ensures ExpansionAt(inst, perm, a) >= ExpansionAt(inst, perm, b)
    {
      assert ExpansionAt(inst, perm, a) == Expansions(inst)[perm[a]];
      assert ExpansionAt(inst, perm, b) == Expansions(inst)[perm[b]];
    }
  }

  /** solve on values: the heaviest pattern of the search, or the error it ends in. */
  function Solution(inst: Instance, threshold: real): (r: Result<Option<seq<Entry>>>)
  {
    match ExpansionFailure(inst, 0)
    case Some(e) => Err(e)
    case None =>
      NoFailureReadable(inst);
      var perm := Permutation(inst);
      if !SizesUsable(inst, perm) then Err(InvalidInstance)
      else Ok(Pack(inst, perm, 0, [], Record(threshold, None)).heaviest)
  }

  /** Every type can be read exactly when the instance is readable. */
  lemma AllReadable(inst: Instance)
    ensures Readable(inst) <==> forall t | 0 <= t < |inst.sizes| :: TypeReadable(inst, t)
  {
    if Readable(inst) {
      forall t | 0 <= t < |inst.sizes| ensures TypeReadable(inst, t) { }
    } else if forall t | 0 <= t < |inst.sizes| :: TypeReadable(inst, t) {
      NoFailureReadable(inst);
    }
  }

  /** The kept types: those whose expansion reaches sand, the types of the permutation. */
  predicate Kept(inst: Instance, t: nat)
    requires Readable(inst)
  {
    t < |inst.sizes| && Expansions(inst)[t] >= inst.sandExpansion
  }

  /** Every kept type has a positive size, and no two kept types have the same size. */
  predicate KeptSizesDistinct(inst: Instance)
    requires Readable(inst)
  {
    (forall t | 0 <= t < |inst.sizes| && Kept(inst, t) :: inst.sizes[t] > 0.0) &&
    (forall a, b | 0 <= a < b < |inst.sizes| && Kept(inst, a) && Kept(inst, b) :: inst.sizes[a] != inst.sizes[b])
  }

  /**
   * The instances whose kept types solve can search are those whose kept types have positive,
   * pairwise different sizes.
   */
  lemma UsableSizes(inst: Instance)
    requires Readable(inst)
    ensures SizesUsable(inst, Permutation(inst)) <==> KeptSizesDistinct(inst)
  {
    PermutationCorrect(inst);
    if SizesUsable(inst, Permutation(inst)) {
      UsableKeptDistinct(inst);
    } else if KeptSizesDistinct(inst) {
      KeptDistinctUsable(inst);
    }
  }

  lemma UsableKeptDistinct(inst: Instance)
    requires Readable(inst) && SizesUsable(inst, Permutation(inst))
    requires forall t: nat :: t in Permutation(inst) <==> Kept(inst, t)
    ensures KeptSizesDistinct(inst)
  {
    var perm := Permutation(inst);
    forall t | 0 <= t < |inst.sizes| && Kept(inst, t) ensures inst.sizes[t] > 0.0 {
      var k :| 0 <= k < |perm| && perm[k] == t;
    }
    forall a, b | 0 <= a < b < |inst.sizes| && Kept(inst, a) && Kept(inst, b) ensures inst.sizes[a] != inst.sizes[b] {
      var i :| 0 <= i < |perm| && perm[i] == a;
      var j :| 0 <= j < |perm| && perm[j] == b;
      assert i != j;
      if j < i {
        assert inst.sizes[perm[j]] != inst.sizes[perm[i]];
      }
    }
  }

  lemma KeptDistinctUsable(inst: Instance)
    requires Readable(inst) && KeptSizesDistinct(inst)
    requires forall t: nat :: t in Permutation(inst) <==> Kept(inst, t)
    requires forall a, b | 0 <= a < b < |Permutation(inst)| :: Permutation(inst)[a] != Permutation(inst)[b]
    ensures SizesUsable(inst, Permutation(inst))
  {
    var perm := Permutation(inst);
    forall k | 0 <= k < |perm| ensures Kept(inst, perm[k]) {
      assert perm[k] in perm;
    }
    forall i, j | 0 <= i < j < |perm| ensures inst.sizes[perm[i]] != inst.sizes[perm[j]] {
      assert Kept(inst, perm[i]) && Kept(inst, perm[j]) && perm[i] != perm[j];
      if perm[j] < perm[i] {
        assert inst.sizes[perm[j]] != inst.sizes[perm[i]];
      }
    }
  }

  /**
   * The errors of solve: it fails exactly when a type cannot be read, or when kept types have
   * a non-positive size or share a size. A type that cannot be read is reported at the first such type (a missing
   * weight as an index error, a zero size as a division by zero); otherwise the instance is
   * refused as invalid.
   */
  lemma SolutionErrors(inst: Instance, threshold: real)
    ensures Solution(inst, threshold).Err? <==>
      (exists t | 0 <= t < |inst.sizes| :: !TypeReadable(inst, t)) ||
      (Readable(inst) && !KeptSizesDistinct(inst))
    ensures Solution(inst, threshold).Err? && (forall t | 0 <= t < |inst.sizes| :: TypeReadable(inst, t)) ==>
      Solution(inst, threshold).error == InvalidInstance
    ensures forall t | 0 <= t < |inst.sizes| && !TypeReadable(inst, t) &&
                       (forall u | 0 <= u < t :: TypeReadable(inst, u)) ::
      Solution(inst, threshold) == Err(if t >= |inst.weights| then IndexOutOfRange else DivisionByZero)
  {
    AllReadable(inst);
    if Readable(inst) {
      UsableSizes(inst);
    }
    if ExpansionFailure(inst, 0).Some? {
      FailureAtFirstUnreadable(inst, 0);
      var first :| 0 <= first < |inst.sizes| &&
        !TypeReadable(inst, first) && (forall u | 0 <= u < first :: TypeReadable(inst, u)) &&
        ExpansionFailure(inst, 0).value == (if first >= |inst.weights| then IndexOutOfRange else DivisionByZero);
      forall t | 0 <= t < |inst.sizes| && !TypeReadable(inst, t) && (forall u | 0 <= u < t :: TypeReadable(inst, u))
        ensures t == first
      {
      }
    }
  }

  /**
   * What solve promises: no pattern exactly when no complete pattern, with sand, reaches the
   * threshold; otherwise a complete pattern that reaches it and is at least as heavy as every
   * other. Each complete pattern holds valid entries, fits, and respects the check.
   */
  lemma SolutionCorrect(inst: Instance, threshold: real)
    requires Solution(inst, threshold).Ok?
    ensures Readable(inst) && Ordered(inst, Permutation(inst))
    ensures var perm := Permutation(inst);
      var leaves := Leaves(inst, perm, 0, []);
      var best := Solution(inst, threshold).value;
      (forall leaf | leaf in leaves ::
        Fresh(inst, perm, |perm|, leaf) && (Separated(inst.check) ==> Respects(inst.check, leaf))) &&
      (best.None? <==> forall leaf | leaf in leaves :: WeightInclSand(leaf, inst.sandExpansion) < threshold) &&
      (best.Some? ==>
        best.value in leaves && WeightInclSand(best.value, inst.sandExpansion) >= threshold &&
        (forall leaf | leaf in leaves ::
          WeightInclSand(leaf, inst.sandExpansion) <= WeightInclSand(best.value, inst.sandExpansion)))
  {
    NoFailureReadable(inst);
    var perm := Permutation(inst);
    PermutationOrdered(inst);
    var leaves := Leaves(inst, perm, 0, []);
    var st := Record(threshold, None);
    PackIsFold(inst, perm, 0, [], st);
    LeavesValid(inst, perm, 0, []);
    EmptyAcceptsAll(inst.check, 0.0);
    FoldFromThreshold(inst, leaves, threshold);
    forall leaf | leaf in leaves
      ensures exists k | 0 <= k < |leaves| :: leaves[k] == leaf
    {
      var k :| 0 <= k < |leaves| && leaves[k] == leaf;
    }
  }

  // ----- NotQ1Q2 against AllPatterns -----

  /** The same items searched with AllPatterns instead of the instance's own check. */
  function Unrestricted(inst: Instance): (r: Instance)
    ensures r.check.AllPatterns?
    ensures r.sizes == inst.sizes && r.weights == inst.weights && r.sandExpansion == inst.sandExpansion
  {
    inst.(check := AllPatterns)
  }

  /**
   * Under AllPatterns the search starts every type with exactly howManyItemsFit items; under any
   * check it starts with no more than that.
   */
  lemma CountAtMostFit(inst: Instance, perm: seq<nat>, i: nat, es: seq<Entry>)
    requires PermOk(inst, perm) && i < |perm|
    ensures Count(Unrestricted(inst), perm, i, es) == ItemsFit(SizeOf(es), SizeAt(inst, perm, i))
    ensures Count(inst, perm, i, es) <= Count(Unrestricted(inst), perm, i, es)
  {
  }

  /** Every complete pattern the search reaches below es is one the unrestricted search reaches too. */
  lemma {:induction false} LeavesRestricted(inst: Instance, perm: seq<nat>, i: nat, es: seq<Entry>)
    requires PermOk(inst, perm) && i <= |perm|
    ensures forall leaf | leaf in Leaves(inst, perm, i, es) :: leaf in Leaves(Unrestricted(inst), perm, i, es)
    decreases |perm| - i, 1, 0
  {
    if i < |perm| {
      CountAtMostFit(inst, perm, i, es);
      LeavesFromRestricted(inst, perm, i, es, Count(inst, perm, i, es), Count(Unrestricted(inst), perm, i, es));
    }
  }

  lemma {:induction false} LeavesFromRestricted(inst: Instance, perm: seq<nat>, i: nat, es: seq<Entry>, c: nat, c': nat)
    requires PermOk(inst, perm) && i < |perm| && c <= c'
    ensures forall leaf | leaf in LeavesFrom(inst, perm, i, es, c) ::
      leaf in LeavesFrom(Unrestricted(inst), perm, i, es, c')
    decreases |perm| - i, 0, c'
  {
    var u := Unrestricted(inst);
    var child := Added(es, SizeAt(inst, perm, i), WeightAt(inst, perm, i), c');
    var here, rest := Leaves(u, perm, i + 1, child), if c' == 0 then [] else LeavesFrom(u, perm, i, es, c' - 1);
    assert LeavesFrom(u, perm, i, es, c') == here + rest;
    if c < c' {
      LeavesFromRestricted(inst, perm, i, es, c, c' - 1);
    } else {
      var mine, others := Leaves(inst, perm, i + 1, child), if c == 0 then [] else LeavesFrom(inst, perm, i, es, c - 1);
      assert LeavesFrom(inst, perm, i, es, c) == mine + others;
      LeavesRestricted(inst, perm, i + 1, child);
      if c > 0 {
        LeavesFromRestricted(inst, perm, i, es, c - 1, c' - 1);
      }
    }
  }

  /** The expansion loop fails, or not, regardless of the check. */
  lemma {:induction false} FailureUnrestricted(inst: Instance, from: nat)
    requires from <= |inst.sizes|
    ensures ExpansionFailure(Unrestricted(inst), from) == ExpansionFailure(inst, from)
    decreases |inst.sizes| - from
  {
    if from < |inst.sizes| {
      FailureUnrestricted(inst, from + 1);
    }
  }

  /**
   * Restricting the search never makes it find more: solve succeeds for an instance exactly when
   * it succeeds for the same items under AllPatterns, and then the restricted search finds no
   * pattern when the unrestricted one finds none, and otherwise one no heavier than it.
   */
  lemma RestrictedNoHeavier(inst: Instance, threshold: real)
    ensures Solution(inst, threshold).Ok? <==> Solution(Unrestricted(inst), threshold).Ok?
    ensures Solution(inst, threshold).Ok? ==>
      var best, best' := Solution(inst, threshold).value, Solution(Unrestricted(inst), threshold).value;
      (best'.None? ==> best.None?) &&
      (best.Some? ==>
        best'.Some? && WeightInclSand(best.value, inst.sandExpansion) <= WeightInclSand(best'.value, inst.sandExpansion))
  {
    var u := Unrestricted(inst);
    FailureUnrestricted(inst, 0);
    if ExpansionFailure(inst, 0).None? {
      NoFailureReadable(inst);
      assert Expansions(u) == Expansions(inst);
      assert Permutation(u) == Permutation(inst);
    }
    if Solution(inst, threshold).Ok? {
      SolutionCorrect(inst, threshold);
      SolutionCorrect(u, threshold);
      LeavesRestricted(inst, Permutation(inst), 0, []);
    }
  }

  // ----- the solver object -----

  class KnapsackSolver {
    const inst: Instance
    var maxWeightFound: real
    var heaviestPattern: KnapsackPattern?
    var typePermutation: seq<nat>

    constructor (sizes: seq<real>, weights: seq<real>, check: Check, sandExpansion: real)
      ensures inst == Instance(sizes, weights, check, sandExpansion)
      ensures heaviestPattern == null
    {
      inst := Instance(sizes, weights, check, sandExpansion);
      heaviestPattern := null;
    }

    /** The record the search keeps: the weight to beat and the entries of the heaviest pattern. */
    ghost function Current(): Record
      reads this, heaviestPattern
    {
      Record(maxWeightFound, if heaviestPattern == null then None else Some(heaviestPattern.items))
    }

    /** createPermutation: the kept types by decreasing expansion, or what its first loop throws. */
    method CreatePermutation() returns (r: Result<seq<nat>>)
      ensures ExpansionFailure(inst, 0).Some? ==> r == Err(ExpansionFailure(inst, 0).value)
      ensures ExpansionFailure(inst, 0).None? ==> Readable(inst) && r == Ok(Permutation(inst))
    {
      var expansion := ComputeExpansions();
      if expansion.Err? {
        return Err(expansion.error);
      }
      var kept := KeepExpansive(expansion.value);
      kept := SortByExpansion(expansion.value, kept);
      var pi := WriteToArray(kept);
      return Ok(pi[..]);
    }

    /** The first loop of createPermutation: each type's weight divided by its size. */
    method ComputeExpansions() returns (r: Result<seq<real>>)
      ensures ExpansionFailure(inst, 0).Some? ==> r == Err(ExpansionFailure(inst, 0).value)
      ensures ExpansionFailure(inst, 0).None? ==> Readable(inst) && r == Ok(Expansions(inst))
    {
      var n := |inst.sizes|;
      var expansion := new real[n];
      var i := 0;
      while i < n
        invariant 0 <= i <= n
        invariant ExpansionFailure(inst, 0) == ExpansionFailure(inst, i)
        invariant forall t | 0 <= t < i :: TypeReadable(inst, t) && expansion[t] == inst.weights[t] / inst.sizes[t]
      {
        if i >= |inst.weights| {
          return Err(IndexOutOfRange);
        }
        if inst.sizes[i] == 0.0 {
          return Err(DivisionByZero);
        }
        expansion[i] := inst.weights[i] / inst.sizes[i];
        i := i + 1;
      }
      NoFailureReadable(inst);
      ghost var exp := Expansions(inst);
      assert forall t | 0 <= t < n :: expansion[t] == exp[t];
      assert expansion[..] == exp;
      return Ok(expansion[..]);
    }

    /** The second loop of createPermutation: the types whose expansion reaches sand, in order. */
    method KeepExpansive(expansion: seq<real>) returns (kept: seq<nat>)
      ensures kept == Filtered(expansion, inst.sandExpansion, |expansion|)
    {
      kept := [];
      var i := 0;
      while i < |expansion|
        invariant 0 <= i <= |expansion|
        invariant kept == Filtered(expansion, inst.sandExpansion, i)
      {
        if expansion[i] >= inst.sandExpansion {
          kept := kept + [i];
        }
        i := i + 1;
      }
    }

    /** The last loop of createPermutation: the sorted list written to an array. */
    static method WriteToArray(xs: seq<nat>) returns (pi: array<nat>)
      ensures fresh(pi) && pi[..] == xs
    {
      pi := new nat[|xs|];
      var i := 0;
      while i < |xs|
        invariant 0 <= i <= |xs|
        invariant forall t | 0 <= t < i :: pi[t] == xs[t]
      {
        pi[i] := xs[i];
        i := i + 1;
      }
    }

    /** findMaxExpansionFitting: a scan for the first type that still fits. */
    method FindMaxExpansionFitting(i: nat, pattern: KnapsackPattern) returns (e: real)
      requires PermOk(inst, typePermutation) && i <= |typePermutation| && pattern.Valid()
      ensures e == MaxExpansionFitting(inst, typePermutation, i, pattern.items)
    {
      var j := i;
      while j < |typePermutation| && pattern.GetRemainingSpace() <= inst.sizes[typePermutation[j]]
        invariant i <= j <= |typePermutation|
        invariant FirstFitting(inst, typePermutation, j, 1.0 - SizeOf(pattern.items)) ==
                  FirstFitting(inst, typePermutation, i, 1.0 - SizeOf(pattern.items))
      {
        j := j + 1;
      }
      if j == |typePermutation| {
        e := inst.sandExpansion;
      } else {
        e := inst.weights[typePermutation[j]] / inst.sizes[typePermutation[j]];
      }
      if e < inst.sandExpansion {
        e := inst.sandExpansion;
      }
    }

    /** What solve hands back, on values: the error, or the entries of the pattern if there is one. */
    static ghost function Reported(r: Result<KnapsackPattern?>): Result<Option<seq<Entry>>>
      reads if r.Ok? && r.value != null then {r.value} else {}
    {
      match r
      case Err(e) => Err(e)
      case Ok(p) => if p == null then Ok(None) else Ok(Some(p.items))
    }

    /**
     * solve: the heaviest pattern whose weight with sand reaches the threshold, or null when
     * there is none; the errors are those of createPermutation, and instances whose kept types
     * have sizes that are not positive or not pairwise different are refused.
     */
    method Solve(threshold: real) returns (r: Result<KnapsackPattern?>)
      modifies this
      ensures Reported(r) == Solution(inst, threshold)
      ensures r.Ok? ==> r.value == heaviestPattern
      ensures heaviestPattern != null ==> heaviestPattern.Valid()
    {
      var p := new KnapsackPattern();
      maxWeightFound := threshold;
      heaviestPattern := null;
      var perm := CreatePermutation();
      if perm.Err? {
        assert Solution(inst, threshold) == Err(perm.error);
        return Err(perm.error);
      }
      typePermutation := perm.value;
      if !SizesUsable(inst, typePermutation) {
        assert Solution(inst, threshold) == Err(InvalidInstance);
        return Err(InvalidInstance);
      }
      SearchFromEmpty(p);
      r := Ok(heaviestPattern);
    }

    /** The search of solve, from the empty pattern with no heaviest pattern yet. */
    method SearchFromEmpty(p: KnapsackPattern)
      requires ExpansionFailure(inst, 0).None? && Readable(inst)
      requires typePermutation == Permutation(inst) && SizesUsable(inst, typePermutation)
      requires p.Valid() && p.items == [] && heaviestPattern == null
      modifies this, p
      ensures heaviestPattern != null ==> heaviestPattern.Valid()
      ensures Reported(Ok(heaviestPattern)) == Solution(inst, old(maxWeightFound))
    {
      assert Solution(inst, maxWeightFound) == Ok(Pack(inst, typePermutation, 0, [], Record(maxWeightFound, None)).heaviest);
      PermutationOrdered(inst);
      PackRecursively(0, p);
    }

    /**
     * packRecursively: the search below the pattern from position i on. It leaves the pattern as
     * it found it, and the record it leaves is the record of the search on values.
     */
    method PackRecursively(i: nat, pattern: KnapsackPattern)
      requires Ordered(inst, typePermutation) && i <= |typePermutation|
      requires pattern.Valid() && Fresh(inst, typePermutation, i, pattern.items)
      requires heaviestPattern != pattern && (heaviestPattern != null ==> heaviestPattern.Valid())
      modifies this, pattern
      ensures typePermutation == old(typePermutation)
      ensures pattern.Valid() && pattern.items == old(pattern.items)
      ensures heaviestPattern != pattern && (heaviestPattern != null ==> heaviestPattern.Valid())
      ensures heaviestPattern == old(heaviestPattern) || (heaviestPattern != null && fresh(heaviestPattern))
      ensures Current() == Pack(inst, typePermutation, i, old(pattern.items), old(Current()))
      decreases |typePermutation| - i, 2
    {
      var expansion := FindMaxExpansionFitting(i, pattern);
      var upperBound := pattern.GetTotalWeightWithoutSand() + pattern.GetRemainingSpace() * expansion;
      assert upperBound == Bound(inst, typePermutation, i, pattern.items);
      if maxWeightFound > upperBound {
        return;
      }
      if i == |typePermutation| {
        maxWeightFound := upperBound;
        heaviestPattern := pattern.Copy();
      } else {
        PackType(i, pattern);
      }
    }

    /**
     * The branch of packRecursively that decides on the type at position i: with as many of its
     * items as fit and the check allows, then one fewer, down to none.
     */
    /** The number of items of the type at position i that packRecursively starts with. */
    method CountToAdd(i: nat, pattern: KnapsackPattern) returns (count: nat)
      requires PermOk(inst, typePermutation) && i < |typePermutation|
      requires pattern.Valid()
      ensures count == Count(inst, typePermutation, i, pattern.items)
    {
      var size := inst.sizes[typePermutation[i]];
      count := pattern.HowManyItemsFit(size);
      var allowed := CanAddTo(inst.check, size, pattern);
      if !allowed {
        count := 0;
      }
    }

    method PackType(i: nat, pattern: KnapsackPattern)
      requires Ordered(inst, typePermutation) && i < |typePermutation|
      requires pattern.Valid() && Fresh(inst, typePermutation, i, pattern.items)
      requires heaviestPattern != pattern && (heaviestPattern != null ==> heaviestPattern.Valid())
      modifies this, pattern
      ensures typePermutation == old(typePermutation)
      ensures pattern.Valid() && pattern.items == old(pattern.items)
      ensures heaviestPattern != pattern && (heaviestPattern != null ==> heaviestPattern.Valid())
      ensures heaviestPattern == old(heaviestPattern) || (heaviestPattern != null && fresh(heaviestPattern))
      ensures Current() == PackFrom(inst, typePermutation, i, old(pattern.items),
        Count(inst, typePermutation, i, old(pattern.items)), old(Current()))
      decreases |typePermutation| - i, 1
    {
      ghost var es := pattern.items;
      ghost var st := Current();
      var typeToAdd := typePermutation[i];
      var size, weight := inst.sizes[typeToAdd], inst.weights[typeToAdd];
      var count := CountToAdd(i, pattern);
      pattern.AddItems(size, weight, count);
      var n: int := count;
      while n >= 0
        invariant -1 <= n <= count
        invariant typePermutation == old(typePermutation)
        invariant pattern.Valid() && pattern.items == Added(es, size, weight, if n < 0 then 0 else n)
        invariant heaviestPattern != pattern && (heaviestPattern != null ==> heaviestPattern.Valid())
        invariant heaviestPattern == old(heaviestPattern) || (heaviestPattern != null && fresh(heaviestPattern))
        invariant PackFrom(inst, typePermutation, i, es, count, st) ==
          if n < 0 then Current() else PackFrom(inst, typePermutation, i, es, n, Current())
        decreases n + 1
      {
        TryCount(i, pattern, es, n);
        n := n - 1;
      }
      AddThenRemoveAll(es, size, weight, 0);
      pattern.RemoveAllItems(size);
    }

    /**
     * One round of the while loop of packRecursively: search below the pattern holding n items
     * of the type at position i, then take one of them out again unless none is left.
     */
    method TryCount(i: nat, pattern: KnapsackPattern, ghost es: seq<Entry>, n: nat)
      requires Ordered(inst, typePermutation) && i < |typePermutation|
      requires Fresh(inst, typePermutation, i, es) && n <= Count(inst, typePermutation, i, es)
      requires pattern.Valid() &&
        pattern.items == Added(es, SizeAt(inst, typePermutation, i), WeightAt(inst, typePermutation, i), n)
      requires heaviestPattern != pattern && (heaviestPattern != null ==> heaviestPattern.Valid())
      modifies this, pattern
      ensures typePermutation == old(typePermutation)
      ensures pattern.Valid() && pattern.items ==
        Added(es, SizeAt(inst, typePermutation, i), WeightAt(inst, typePermutation, i), if n == 0 then 0 else n - 1)
      ensures heaviestPattern != pattern && (heaviestPattern != null ==> heaviestPattern.Valid())
      ensures heaviestPattern == old(heaviestPattern) || (heaviestPattern != null && fresh(heaviestPattern))
      ensures Current() == Pack(inst, typePermutation, i + 1,
        Added(es, SizeAt(inst, typePermutation, i), WeightAt(inst, typePermutation, i), n), old(Current()))
      decreases |typePermutation| - i, 0
    {
      var size, weight := inst.sizes[typePermutation[i]], inst.weights[typePermutation[i]];
      AddedFresh(inst, typePermutation, i, es, n);
      PackRecursively(i + 1, pattern);
      if n > 0 {
        RemoveOneOfAdded(es, size, weight, n);
        pattern.RemoveItem(size);
      }
    }
  }
}
