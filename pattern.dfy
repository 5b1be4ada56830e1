/**
 * A knapsack pattern (KnapsackPattern): a list of entries (size, weight, cardinality) with the
 * running total size and total weight of its items. The weight of sand is never stored; it is
 * added on demand for the space 1 - totalSize that the items leave free.
 */
module Pattern {
  import opened Types
  import opened Results

  /** One item type packed in a pattern, `card` times. */
  datatype Entry = Entry(size: real, weight: real, card: nat)

  /** n copies of x added up; equal to x * n (ScaleIsProduct). */
  function Scale(x: real, n: nat): real
  {
    if n == 0 then 0.0 else Scale(x, n - 1) + x
  }

  lemma {:induction false} ScaleIsProduct(x: real, n: nat)
    ensures Scale(x, n) == x * n as real
  {
    if n > 0 {
      ScaleIsProduct(x, n - 1);
      assert x * n as real == x * (n - 1) as real + x;
    }
  }

  lemma {:induction false} ScaleAdd(x: real, a: nat, b: nat)
    ensures Scale(x, a + b) == Scale(x, a) + Scale(x, b)
  {
    if b > 0 {
      ScaleAdd(x, a, b - 1);
    }
  }

  lemma ScaleOne(x: real)
    ensures Scale(x, 1) == x
  {
  }

  /** The space the items of one entry take: size * card. */
  function EntrySize(e: Entry): real
  {
    Scale(e.size, e.card)
  }

  /** The weight of the items of one entry: weight * card. */
  function EntryWeight(e: Entry): real
  {
    Scale(e.weight, e.card)
  }

  /** The total size of the items: the sum of size * card. */
  function SizeOf(es: seq<Entry>): real
  {
    if es == [] then 0.0 else EntrySize(es[0]) + SizeOf(es[1..])
  }

  /** The total weight of the items, without sand: the sum of weight * card. */
  function WeightOf(es: seq<Entry>): real
  {
    if es == [] then 0.0 else EntryWeight(es[0]) + WeightOf(es[1..])
  }

  /** The weight of the items plus sand of density sand in the space they leave free. */
  function WeightInclSand(es: seq<Entry>, sand: real): real
  {
    PlusSand(WeightOf(es), SizeOf(es), sand)
  }

  /** A weight w of items of total size s, plus sand of density sand in the room 1 - s. */
  function PlusSand(w: real, s: real, sand: real): real
  {
    w + (1.0 - s) * sand
  }

  /** Some entry has size s. */
  predicate HasSize(es: seq<Entry>, s: real)
  {
    Find(es, s) < |es|
  }

  /** HasSize is the existence of an entry of size s. */
  lemma HasSizeIff(es: seq<Entry>, s: real)
    ensures HasSize(es, s) <==> exists i | 0 <= i < |es| :: es[i].size == s
  {
  }

  /** No entry has cardinality 0. */
  predicate Positive(es: seq<Entry>)
  {
    forall i | 0 <= i < |es| :: es[i].card >= 1
  }

  /** Sizes are the key of the entries. */
  predicate DistinctSizes(es: seq<Entry>)
  {
    forall i, j | 0 <= i < j < |es| :: es[i].size != es[j].size
  }

  /** The index of the first entry of size s, or |es| when there is none. */
  function Find(es: seq<Entry>, s: real): (r: nat)
    ensures r <= |es|
    ensures r < |es| ==> es[r].size == s
    ensures forall j | 0 <= j < r :: es[j].size != s
  {
    if es == [] then 0
    else if es[0].size == s then 0
    else
      var r := 1 + Find(es[1..], s);
      assert forall j | 1 <= j < |es| :: es[j] == es[1..][j - 1];
      r
  }

  /** An existing entry of size s carries weight w (the pattern keeps a fixed weight per size). */
  predicate WeightAgrees(es: seq<Entry>, s: real, w: real)
  {
    HasSize(es, s) ==> es[Find(es, s)].weight == w
  }

  /** The entries after adding n items of size s and weight w (addItems). */
  function Added(es: seq<Entry>, s: real, w: real, n: nat): seq<Entry>
  {
    if n == 0 then es
    else if HasSize(es, s) then
      var i := Find(es, s);
      es[i := es[i].(card := es[i].card + n)]
    else es + [Entry(s, w, n)]
  }

  /** The entries after removing one item of size s (removeItem). */
  function RemovedOne(es: seq<Entry>, s: real): seq<Entry>
    requires Positive(es)
  {
    if !HasSize(es, s) then es
    else
      var i := Find(es, s);
      if es[i].card == 1 then es[..i] + es[i + 1..]
      else es[i := es[i].(card := es[i].card - 1)]
  }

  /** The entries after removing every item of size s (removeAllItems). */
  function RemovedAll(es: seq<Entry>, s: real): seq<Entry>
  {
    if !HasSize(es, s) then es
    else
      var i := Find(es, s);
      es[..i] + es[i + 1..]
  }

  // ----- totals over concatenations and single entries -----

  lemma {:induction false} TotalsConcat(a: seq<Entry>, b: seq<Entry>)
    ensures SizeOf(a + b) == SizeOf(a) + SizeOf(b)
    ensures WeightOf(a + b) == WeightOf(a) + WeightOf(b)
  {
    if a == [] {
      assert a + b == b;
    } else {
      assert (a + b)[1..] == a[1..] + b;
      TotalsConcat(a[1..], b);
    }
  }

  /** The totals split around entry i. */
  lemma TotalsAround(es: seq<Entry>, i: nat)
    requires i < |es|
    ensures SizeOf(es) == SizeOf(es[..i]) + EntrySize(es[i]) + SizeOf(es[i + 1..])
    ensures WeightOf(es) == WeightOf(es[..i]) + EntryWeight(es[i]) + WeightOf(es[i + 1..])
  {
    assert es == es[..i] + ([es[i]] + es[i + 1..]);
    TotalsConcat(es[..i], [es[i]] + es[i + 1..]);
    assert ([es[i]] + es[i + 1..])[1..] == es[i + 1..];
  }

  /** Replacing entry i changes the totals by the difference of the two entries. */
  lemma TotalsUpdate(es: seq<Entry>, i: nat, e: Entry)
    requires i < |es|
    ensures SizeOf(es[i := e]) == SizeOf(es) - EntrySize(es[i]) + EntrySize(e)
    ensures WeightOf(es[i := e]) == WeightOf(es) - EntryWeight(es[i]) + EntryWeight(e)
  {
    var es' := es[i := e];
    TotalsAround(es, i);
    TotalsAround(es', i);
    assert es'[..i] == es[..i] && es'[i + 1..] == es[i + 1..];
  }

  /** Deleting entry i subtracts that entry from the totals. */
  lemma TotalsDelete(es: seq<Entry>, i: nat)
    requires i < |es|
    ensures SizeOf(es[..i] + es[i + 1..]) == SizeOf(es) - EntrySize(es[i])
    ensures WeightOf(es[..i] + es[i + 1..]) == WeightOf(es) - EntryWeight(es[i])
  {
    TotalsAround(es, i);
    TotalsConcat(es[..i], es[i + 1..]);
  }

  lemma TotalsAppend(es: seq<Entry>, e: Entry)
    ensures SizeOf(es + [e]) == SizeOf(es) + EntrySize(e)
    ensures WeightOf(es + [e]) == WeightOf(es) + EntryWeight(e)
  {
    TotalsConcat(es, [e]);
    assert [e][1..] == [];
  }

  // ----- properties of the entry operations -----

  /** addItems(s, w, n) adds s*n to the total size and w*n to the total weight. */
  lemma AddedTotals(es: seq<Entry>, s: real, w: real, n: nat)
    requires WeightAgrees(es, s, w)
    ensures SizeOf(Added(es, s, w, n)) == SizeOf(es) + Scale(s, n)
    ensures WeightOf(Added(es, s, w, n)) == WeightOf(es) + Scale(w, n)
  {
    if n == 0 {
    } else if HasSize(es, s) {
      var i := Find(es, s);
      var e := es[i].(card := es[i].card + n);
      TotalsUpdate(es, i, e);
      ScaleAdd(s, es[i].card, n);
      ScaleAdd(w, es[i].card, n);
      assert EntrySize(e) == EntrySize(es[i]) + Scale(s, n);
      assert EntryWeight(e) == EntryWeight(es[i]) + Scale(w, n);
    } else {
      TotalsAppend(es, Entry(s, w, n));
    }
  }

  /** addItems keeps every cardinality positive and the sizes distinct. */
  lemma AddedValid(es: seq<Entry>, s: real, w: real, n: nat)
    requires Positive(es) && DistinctSizes(es)
    ensures Positive(Added(es, s, w, n)) && DistinctSizes(Added(es, s, w, n))
    ensures forall x :: HasSize(Added(es, s, w, n), x) <==> HasSize(es, x) || (n > 0 && x == s)
  {
    var r := Added(es, s, w, n);
    if n > 0 && !HasSize(es, s) {
      assert r[|es|].size == s;
      forall x | HasSize(r, x) ensures HasSize(es, x) || x == s {
        var i :| 0 <= i < |r| && r[i].size == x;
        if i < |es| { assert es[i].size == x; }
      }
      forall x | HasSize(es, x) ensures HasSize(r, x) {
        var i :| 0 <= i < |es| && es[i].size == x;
        assert r[i].size == x;
      }
    } else if n > 0 {
      forall x | HasSize(r, x) ensures HasSize(es, x) {
        var i :| 0 <= i < |r| && r[i].size == x;
        assert es[i].size == x;
      }
      forall x | HasSize(es, x) ensures HasSize(r, x) {
        var i :| 0 <= i < |es| && es[i].size == x;
        assert r[i].size == x;
      }
    }
  }

  /** Adding n = 0 items changes nothing. */
  lemma AddedZero(es: seq<Entry>, s: real, w: real)
    ensures Added(es, s, w, 0) == es
  {
  }

  /** removeItem on a present size takes away exactly one size and one weight of that entry. */
  lemma RemovedOneTotals(es: seq<Entry>, s: real)
    requires Positive(es)
    ensures !HasSize(es, s) ==> RemovedOne(es, s) == es
    ensures HasSize(es, s) ==>
      SizeOf(RemovedOne(es, s)) == SizeOf(es) - s &&
      WeightOf(RemovedOne(es, s)) == WeightOf(es) - es[Find(es, s)].weight
  {
    if HasSize(es, s) {
      var i := Find(es, s);
      if es[i].card == 1 {
        assert RemovedOne(es, s) == es[..i] + es[i + 1..];
        TotalsDelete(es, i);
        ScaleOne(s);
        ScaleOne(es[i].weight);
      } else {
        var e := es[i].(card := es[i].card - 1);
        assert RemovedOne(es, s) == es[i := e];
        TotalsUpdate(es, i, e);
        ScaleAdd(s, e.card, 1);
        ScaleAdd(es[i].weight, e.card, 1);
        ScaleOne(s);
        ScaleOne(es[i].weight);
        assert EntrySize(e) == EntrySize(es[i]) - s;
        assert EntryWeight(e) == EntryWeight(es[i]) - es[i].weight;
      }
    }
  }

  /** Deleting one entry keeps the other entries' properties. */
  lemma DeleteValid(es: seq<Entry>, i: nat)
    requires i < |es| && Positive(es) && DistinctSizes(es)
    ensures Positive(es[..i] + es[i + 1..]) && DistinctSizes(es[..i] + es[i + 1..])
    ensures !HasSize(es[..i] + es[i + 1..], es[i].size)
    ensures forall x | x != es[i].size :: HasSize(es[..i] + es[i + 1..], x) <==> HasSize(es, x)
  {
    var r := es[..i] + es[i + 1..];
    assert forall j | 0 <= j < |r| :: r[j] == if j < i then es[j] else es[j + 1];
    forall x | x != es[i].size && HasSize(es, x) ensures HasSize(r, x) {
      var j :| 0 <= j < |es| && es[j].size == x;
      if j < i { assert r[j].size == x; } else { assert r[j - 1].size == x; }
    }
  }

  /** removeItem keeps every cardinality positive and the sizes distinct. */
  lemma RemovedOneValid(es: seq<Entry>, s: real)
    requires Positive(es) && DistinctSizes(es)
    ensures Positive(RemovedOne(es, s)) && DistinctSizes(RemovedOne(es, s))
  {
    if HasSize(es, s) && es[Find(es, s)].card == 1 {
      DeleteValid(es, Find(es, s));
    }
  }

  /** removeAllItems deletes the entry of s and subtracts card*s and card*w. */
  lemma RemovedAllTotals(es: seq<Entry>, s: real)
    ensures !HasSize(es, s) ==> RemovedAll(es, s) == es
    ensures HasSize(es, s) ==>
      SizeOf(RemovedAll(es, s)) == SizeOf(es) - EntrySize(es[Find(es, s)]) &&
      WeightOf(RemovedAll(es, s)) == WeightOf(es) - EntryWeight(es[Find(es, s)])
  {
    if HasSize(es, s) {
      var i := Find(es, s);
      var r := es[..i] + es[i + 1..];
      assert RemovedAll(es, s) == r;
      TotalsDelete(es, i);
    }
  }

  /** removeAllItems keeps the entries valid and leaves no entry of s. */
  lemma RemovedAllValid(es: seq<Entry>, s: real)
    requires Positive(es) && DistinctSizes(es)
    ensures Positive(RemovedAll(es, s)) && DistinctSizes(RemovedAll(es, s))
    ensures !HasSize(RemovedAll(es, s), s)
  {
    if HasSize(es, s) {
      var i := Find(es, s);
      assert RemovedAll(es, s) == es[..i] + es[i + 1..];
      DeleteValid(es, i);
    }
  }

  /** On entries without s, addItems(s, w, n) then removeAllItems(s) restores the entries. */
  lemma AddThenRemoveAll(es: seq<Entry>, s: real, w: real, n: nat)
    requires !HasSize(es, s)
    ensures RemovedAll(Added(es, s, w, n), s) == es
  {
    if n > 0 {
      var r := es + [Entry(s, w, n)];
      assert r[|es|].size == s;
      assert Find(r, s) == |es|;
      assert r[..|es|] == es;
    }
  }

  /** On entries without s, removing one of n >= 1 added items leaves n - 1 added items. */
  lemma RemoveOneOfAdded(es: seq<Entry>, s: real, w: real, n: nat)
    requires Positive(es) && !HasSize(es, s) && n >= 1
    ensures Positive(Added(es, s, w, n))
    ensures RemovedOne(Added(es, s, w, n), s) == Added(es, s, w, n - 1)
  {
    var r := es + [Entry(s, w, n)];
    assert r[|es|].size == s;
    assert Find(r, s) == |es|;
    assert r[..|es|] == es;
  }

  /** The objects the prover packs: a mutable pattern. */
  class KnapsackPattern {
    var items: seq<Entry>
    var totalSize: real
    var totalWeight: real

    ghost predicate Valid()
      reads this
    {
      Positive(items) && DistinctSizes(items) &&
      totalSize == SizeOf(items) && totalWeight == WeightOf(items)
    }

    constructor ()
      ensures Valid() && items == [] && totalSize == 0.0 && totalWeight == 0.0
    {
      items := [];
      totalWeight := 0.0;
      totalSize := 0.0;
    }

    /** Adds `number` items of the given size and weight, merging into an existing entry. */
    method AddItems(size: real, w: real, number: nat)
      requires Valid() && WeightAgrees(items, size, w)
      modifies this
      ensures Valid()
      ensures items == Added(old(items), size, w, number)
      ensures totalSize == old(totalSize) + Scale(size, number)
      ensures totalWeight == old(totalWeight) + Scale(w, number)
    {
      if number == 0 {
        return;
      }
      ghost var es := items;
      var existing := false;
      var i := 0;
      while i < |items|
        invariant 0 <= i <= |items| == |es|
        invariant totalSize == old(totalSize) && totalWeight == old(totalWeight)
        invariant existing <==> exists j | 0 <= j < i :: es[j].size == size
        invariant forall j | 0 <= j < |es| ::
          items[j] == if j < i && es[j].size == size then es[j].(card := es[j].card + number) else es[j]
      {
        if items[i].size == size {
          existing := true;
          items := items[i := items[i].(card := items[i].card + number)];
        }
        i := i + 1;
      }
      if existing {
        var f := Find(es, size);
        assert items == es[f := es[f].(card := es[f].card + number)];
      } else {
        items := items + [Entry(size, w, number)];
        assert !HasSize(es, size);
        assert items == es + [Entry(size, w, number)];
      }
      totalWeight := totalWeight + w * number as real;
      totalSize := totalSize + size * number as real;
      AddedTotals(es, size, w, number);
      ScaleIsProduct(size, number);
      ScaleIsProduct(w, number);
      AddedValid(es, size, w, number);
    }

    /** An independent copy with the same entries and totals. */
    method Copy() returns (p: KnapsackPattern)
      requires Valid()
      ensures fresh(p) && p.Valid()
      ensures p.items == items && p.totalSize == totalSize && p.totalWeight == totalWeight
    {
      p := new KnapsackPattern();
      var i := 0;
      while i < |items|
        invariant 0 <= i <= |items|
        invariant p.items == items[..i]
      {
        p.items := p.items + [items[i]];
        i := i + 1;
      }
      assert items[..|items|] == items;
      p.totalSize := totalSize;
      p.totalWeight := totalWeight;
    }

    /** 1 - totalSize. */
    function GetRemainingSpace(): (r: real)
      reads this
      requires Valid()
      ensures r == 1.0 - SizeOf(items)
    {
      1.0 - totalSize
    }

    /** howManyItemsFit, computed from the running total size. */
    function HowManyItemsFit(size: real): (r: nat)
      reads this
      requires size > 0.0
      ensures r == ItemsFit(totalSize, size)
    {
      ItemsFit(totalSize, size)
    }

    /** The total weight of the items, without sand. */
    function GetTotalWeightWithoutSand(): (r: real)
      reads this
      requires Valid()
      ensures r == WeightOf(items)
    {
      totalWeight
    }

    /** A contains-test by a scan of the entries. */
    method ContainsSize(size: real) returns (b: bool)
      ensures b == HasSize(items, size)
    {
      var i := 0;
      while i < |items|
        invariant 0 <= i <= |items|
        invariant forall j | 0 <= j < i :: items[j].size != size
      {
        if items[i].size == size {
          return true;
        }
        i := i + 1;
      }
      return false;
    }

    /** Removes one item of the given size; an entry down to 1 is deleted; absent sizes are a no-op. */
    method RemoveItem(size: real)
      requires Valid()
      modifies this
      ensures Valid()
      ensures items == RemovedOne(old(items), size)
      ensures !HasSize(old(items), size) ==> totalSize == old(totalSize) && totalWeight == old(totalWeight)
      ensures HasSize(old(items), size) ==>
        totalSize == old(totalSize) - size &&
        totalWeight == old(totalWeight) - old(items)[Find(old(items), size)].weight
    {
      var i := 0;
      while i < |items| && items[i].size != size
        invariant 0 <= i <= |items|
        invariant forall j | 0 <= j < i :: items[j].size != size
        invariant items == old(items) && totalSize == old(totalSize) && totalWeight == old(totalWeight)
      {
        i := i + 1;
      }
      if i == |items| {
        return;
      }
      ghost var es := items;
      assert i == Find(es, size);
      var found := items[i];
      if found.card == 1 {
        items := items[..i] + items[i + 1..];
      } else {
        items := items[i := found.(card := found.card - 1)];
      }
      totalSize := totalSize - size * 1.0;
      totalWeight := totalWeight - found.weight * 1.0;
      RemovedOneTotals(es, size);
      RemovedOneValid(es, size);
    }

    /** Removes the whole entry of the given size; absent sizes are a no-op. */
    method RemoveAllItems(size: real)
      requires Valid()
      modifies this
      ensures Valid()
      ensures items == RemovedAll(old(items), size)
      ensures !HasSize(old(items), size) ==> totalSize == old(totalSize) && totalWeight == old(totalWeight)
      ensures HasSize(old(items), size) ==>
        var e := old(items)[Find(old(items), size)];
        totalSize == old(totalSize) - EntrySize(e) && totalWeight == old(totalWeight) - EntryWeight(e)
    {
      var i := 0;
      while i < |items| && items[i].size != size
        invariant 0 <= i <= |items|
        invariant forall j | 0 <= j < i :: items[j].size != size
        invariant items == old(items) && totalSize == old(totalSize) && totalWeight == old(totalWeight)
      {
        i := i + 1;
      }
      if i == |items| {
        return;
      }
      ghost var es := items;
      assert i == Find(es, size);
      var e := items[i];
      items := items[..i] + items[i + 1..];
      var dSize := size * e.card as real;
      var dWeight := e.weight * e.card as real;
      ScaleIsProduct(size, e.card);
      ScaleIsProduct(e.weight, e.card);
      assert dSize == EntrySize(e) && dWeight == EntryWeight(e);
      totalSize := totalSize - dSize;
      totalWeight := totalWeight - dWeight;
      RemovedAllTotals(es, size);
      RemovedAllValid(es, size);
    }

    /** totalWeight plus sand in the free space. */
    function GetTotalWeightInclSand(sandExpansion: real): (r: real)
      reads this
      requires Valid()
      ensures r == WeightInclSand(items, sandExpansion)
    {
      totalWeight + (1.0 - totalSize) * sandExpansion
    }

    /** One w-weight per distinct entry (cardinality ignored, no sand); 1 for sizes of no type. */
    method GetTotalWeightWInclSand(types: seq<TypeInfo>, k: int, sandExpansion: real) returns (total: real)
      ensures total == WTotal(items, types, k)
    {
      total := 0.0;
      var n := 0;
      while n < |items|
        invariant 0 <= n <= |items|
        invariant total == WTotal(items[..n], types, k)
      {
        var e := items[n];
        var index := -1;
        var i := 0;
        while i < |types|
          invariant 0 <= i <= |types|
          invariant forall j | 0 <= j < i :: types[j].sizeLB != e.size
          invariant index == -1
        {
          if types[i].sizeLB == e.size {
            index := i;
            break;
          }
          i := i + 1;
        }
        assert index == -1 ==> TypeIndex(types, e.size) == |types|;
        assert index >= 0 ==> index == TypeIndex(types, e.size);
        if index < 0 {
          total := total + 1.0;
        } else {
          total := total + GetWeightW(types[index], k);
        }
        assert items[..n + 1][..n] == items[..n];
        n := n + 1;
      }
      assert items[..|items|] == items;
    }

    /** One v-weight per distinct entry; sizes of no type count 1, except 1/2, which counts 0. */
    method GetTotalWeightVInclSand(types: seq<TypeInfo>, classOfR: int, sandExpansion: real) returns (total: real)
      ensures total == VTotal(items, types, classOfR)
    {
      total := 0.0;
      var n := 0;
      while n < |items|
        invariant 0 <= n <= |items|
        invariant total == VTotal(items[..n], types, classOfR)
      {
        var e := items[n];
        var index := -1;
        var i := 0;
        while i < |types|
          invariant 0 <= i <= |types|
          invariant forall j | 0 <= j < i :: types[j].sizeLB != e.size
          invariant index == -1
        {
          if types[i].sizeLB == e.size {
            index := i;
            break;
          }
          i := i + 1;
        }
        assert index == -1 ==> TypeIndex(types, e.size) == |types|;
        assert index >= 0 ==> index == TypeIndex(types, e.size);
        if index < 0 {
          if e.size != 0.5 {
            total := total + 1.0;
          }
        } else {
          total := total + GetWeightV(types[index], classOfR);
        }
        assert items[..n + 1][..n] == items[..n];
        n := n + 1;
      }
      assert items[..|items|] == items;
    }
  }

  /**
   * How many items of the given size still fit next to items of total size `used`: the largest
   * n >= 0 with used + n * size < 1 (one less than the plain floor when the free space is a
   * multiple of size), and 0 when even one does not fit.
   */
  function ItemsFit(used: real, size: real): nat
    requires size > 0.0
  {
    var bf := (1.0 - used) / size;
    var intPart := Truncate(bf);
    var res := if bf == intPart as real then intPart - 1 else intPart;
    if res < 0 then 0 else res
  }

  /** The items counted fit strictly (no space left is not "fitting"), and one more would not. */
  lemma ItemsFitBounds(used: real, size: real)
    requires size > 0.0
    ensures var r := ItemsFit(used, size);
      (r > 0 ==> used + size * r as real < 1.0) && used + size * (r + 1) as real >= 1.0
  {
    var bf := (1.0 - used) / size;
    var intPart := Truncate(bf);
    var res := if bf == intPart as real then intPart - 1 else intPart;
    FitArithmetic(used, size, bf, intPart, res);
  }

  /** No count larger than ItemsFit fits: it is the largest one. */
  lemma ItemsFitIsLargest(used: real, size: real, n: nat)
    requires size > 0.0 && n > ItemsFit(used, size)
    ensures used + size * n as real >= 1.0
  {
    var r := ItemsFit(used, size);
    ItemsFitBounds(used, size);
    assert (r + 1) as real <= n as real;
    FillsBeyond(used, size, (r + 1) as real, n as real);
  }

  /** Once a items fill the knapsack, so do b >= a items. */
  lemma FillsBeyond(used: real, size: real, a: real, b: real)
    requires size > 0.0 && a <= b && used + size * a >= 1.0
    ensures used + size * b >= 1.0
  {
    MulMonotone(a, b, size);
    assert a * size <= b * size;
  }

  /** The arithmetic behind ItemsFit. */
  lemma FitArithmetic(totalSize: real, size: real, bf: real, intPart: int, res: int)
    requires size > 0.0 && bf == (1.0 - totalSize) / size && intPart == Truncate(bf)
    requires res == if bf == intPart as real then intPart - 1 else intPart
    ensures res > 0 ==> totalSize + size * res as real < 1.0
    ensures totalSize + size * ((if res < 0 then 0 else res) + 1) as real >= 1.0
  {
    var free := 1.0 - totalSize;
    assert bf * size == free;
    var m := if res < 0 then 0 else res;
    if bf >= 0.0 {
      // res < bf <= res + 1
      assert res as real < bf <= res as real + 1.0;
      if res > 0 {
        MulMonotone(res as real, bf, size);
        assert size * res as real < free;
      }
      if res >= 0 {
        var k := (m + 1) as real;
        assert k == res as real + 1.0;
        assert bf <= k;
        MulMonotone(bf, k, size);
        calc {
          free;
          bf * size;
        <= k * size;
        }
        assert size * k >= free;
      } else {
        assert bf == 0.0 && m == 0;
        assert free == 0.0;
      }
    } else {
      assert free < 0.0 by { assert bf * size < 0.0; }
      assert res <= 0 && m == 0;
    }
  }

  lemma MulMonotone(a: real, b: real, c: real)
    requires a <= b && c > 0.0
    ensures a * c <= b * c
    ensures a < b ==> a * c < b * c
  {
  }

  /** The w-weight the source reads for one entry. */
  function EntryW(types: seq<TypeInfo>, k: int, e: Entry): real
  {
    var i := TypeIndex(types, e.size);
    if i < |types| then GetWeightW(types[i], k) else 1.0
  }

  /** The v-weight the source reads for one entry. */
  function EntryV(types: seq<TypeInfo>, k: int, e: Entry): real
  {
    var i := TypeIndex(types, e.size);
    if i < |types| then GetWeightV(types[i], k) else if e.size != 0.5 then 1.0 else 0.0
  }

  /** The sum of EntryW over the entries, each entry once. */
  function WTotal(es: seq<Entry>, types: seq<TypeInfo>, k: int): real
  {
    if es == [] then 0.0 else WTotal(es[..|es| - 1], types, k) + EntryW(types, k, es[|es| - 1])
  }

  /** The sum of EntryV over the entries, each entry once. */
  function VTotal(es: seq<Entry>, types: seq<TypeInfo>, k: int): real
  {
    if es == [] then 0.0 else VTotal(es[..|es| - 1], types, k) + EntryV(types, k, es[|es| - 1])
  }

  /** The W/V totals only look at sizes: cardinalities, weights and sand play no part. */
  lemma {:induction false} WVTotalsIgnoreCards(es: seq<Entry>, es': seq<Entry>, types: seq<TypeInfo>, k: int)
    requires |es| == |es'| && forall i | 0 <= i < |es| :: es[i].size == es'[i].size
    ensures WTotal(es, types, k) == WTotal(es', types, k)
    ensures VTotal(es, types, k) == VTotal(es', types, k)
  {
    if es != [] {
      WVTotalsIgnoreCards(es[..|es| - 1], es'[..|es'| - 1], types, k);
    }
  }
}
