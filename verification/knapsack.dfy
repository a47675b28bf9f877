/**
 * The 0/1 knapsack instance shared by the ABSI-EF solvers: items with a positive
 * weight and a value, their density order, subsets written as R/L choices, and the
 * exhaustive recursive oracle (`brute_force_recursive`, `fuerza_bruta_recursiva`,
 * `solve_standard` in the sources), with its characterisation as the best value of
 * a feasible subset and its invariance under reordering the items.
 */
module Knapsack {
  import opened Routes
  import opened Sorting

  /** Weights are positive: every item constructor divides by its weight. */
  type Weight = w: int | w >= 1 witness 1

  datatype Item = Item(w: Weight, v: int)

  function Max(a: int, b: int): int { if a >= b then a else b }

  /**
   * a may stand ahead of b in non-increasing density, v/w compared by
   * cross-multiplication (the weights are positive).
   */
  predicate DensityBefore(a: Item, b: Item) {
    a.v * b.w >= b.v * a.w
  }

  /** Multiplying by a positive weight keeps the sign: x * y >= 0 exactly when x >= 0. */
  lemma {:induction false} ProductSign(x: int, y: int)
    requires y > 0
    ensures x >= 0 <==> x * y >= 0
  {
    if x < 0 {
      assert x * y == -((-x) * y);
      assert (-x) * y >= y;
    }
  }

  lemma {:induction false} DensityTransitive(a: Item, b: Item, c: Item)
    requires DensityBefore(a, b) && DensityBefore(b, c)
    ensures DensityBefore(a, c)
  {
    var x := a.v * b.w - b.v * a.w;
    var y := b.v * c.w - c.v * b.w;
    var z := a.v * c.w - c.v * a.w;
    CrossIdentity(a.v, a.w, b.v, b.w, c.v, c.w);
    ProductSign(x, c.w);
    ProductSign(y, a.w);
    ProductSign(z, b.w);
  }

  /** The cross-multiplied comparison of a with c, scaled by b's weight, splits into the a-b and b-c comparisons. */
  lemma {:induction false} CrossIdentity(av: int, aw: int, bv: int, bw: int, cv: int, cw: int)
    ensures (av * cw - cv * aw) * bw == (av * bw - bv * aw) * cw + (bv * cw - cv * bw) * aw
  {
  }

  /** Density order is a total preorder, so sorting by it is well defined. */
  lemma {:induction false} DensityOrder()
    ensures TotalPreorder(DensityBefore)
  {
    forall a, b, c | DensityBefore(a, b) && DensityBefore(b, c) ensures DensityBefore(a, c) {
      DensityTransitive(a, b, c);
    }
  }

  /** The items built from parallel weight and value lists. */
  function MakeItems(weights: seq<int>, values: seq<int>): (items: seq<Item>)
    requires |weights| <= |values|
    requires forall i :: 0 <= i < |weights| ==> weights[i] >= 1
    ensures |items| == |weights|
    ensures forall i :: 0 <= i < |items| ==> items[i].w == weights[i] && items[i].v == values[i]
  {
    seq(|weights|, i requires 0 <= i < |weights| => Item(weights[i], values[i]))
  }

  /** Total weight of the items marked R in c (item i is decided by c[i]). */
  function ChosenWeight(items: seq<Item>, c: Route): (r: int)
    requires |c| <= |items|
    ensures r >= 0
    decreases |c|
  {
    if c == [] then 0
    else ChosenWeight(items, c[..|c| - 1]) + (if c[|c| - 1] == R then items[|c| - 1].w else 0)
  }

  /** Total value of the items marked R in c. */
  function ChosenValue(items: seq<Item>, c: Route): int
    requires |c| <= |items|
    decreases |c|
  {
    if c == [] then 0
    else ChosenValue(items, c[..|c| - 1]) + (if c[|c| - 1] == R then items[|c| - 1].v else 0)
  }

  /** c decides each of the first |c| items and its chosen items fit. */
  predicate Feasible(items: seq<Item>, c: Route, capacity: int) {
    |c| <= |items| && IsChoice(c) && ChosenWeight(items, c) <= capacity
  }

  lemma {:induction false} ChosenAppend(items: seq<Item>, c: Route, x: Letter)
    requires |c| < |items|
    ensures ChosenWeight(items, c + [x]) == ChosenWeight(items, c) + (if x == R then items[|c|].w else 0)
    ensures ChosenValue(items, c + [x]) == ChosenValue(items, c) + (if x == R then items[|c|].v else 0)
  {
    assert (c + [x])[..|c|] == c;
  }

  /** Choices that take nothing weigh nothing and are worth nothing. */
  lemma {:induction false} NothingChosen(items: seq<Item>, c: Route)
    requires |c| <= |items|
    requires forall i :: 0 <= i < |c| ==> c[i] != R
    ensures ChosenWeight(items, c) == 0 && ChosenValue(items, c) == 0
  {
    if c != [] {
      NothingChosen(items, c[..|c| - 1]);
    }
  }

  /** A choice that weighs nothing takes no item, since every weight is positive. */
  lemma {:induction false} WeightlessChoice(items: seq<Item>, c: Route)
    requires |c| <= |items| && ChosenWeight(items, c) <= 0
    ensures forall i :: 0 <= i < |c| ==> c[i] != R
  {
    if c != [] {
      var p := c[..|c| - 1];
      WeightlessChoice(items, p);
      forall i | 0 <= i < |c| ensures c[i] != R {
        if i < |p| {
          assert c[i] == p[i];
        }
      }
    }
  }

  /** The choice that skips the first n items. */
  function SkipAll(n: nat): (c: Route)
    ensures |c| == n && IsChoice(c)
    ensures forall i :: 0 <= i < n ==> c[i] == L
  {
    seq(n, _ => L)
  }

  /** The exhaustive oracle over the first n objects. */
  function BruteForce(objects: seq<Item>, capacity: int, n: nat): (r: int)
    requires n <= |objects|
    ensures r >= 0
    decreases n
  {
    if n == 0 || capacity == 0 then 0
    else if objects[n - 1].w > capacity then BruteForce(objects, capacity, n - 1)
    else Max(objects[n - 1].v + BruteForce(objects, capacity - objects[n - 1].w, n - 1),
             BruteForce(objects, capacity, n - 1))
  }

  /** The oracle over all of s. */
  function Opt(s: seq<Item>, capacity: int): int {
    BruteForce(s, capacity, |s|)
  }

  /** No feasible subset of the first n objects is worth more than the oracle says. */
  lemma {:induction false} BruteForceUpperBound(objects: seq<Item>, capacity: int, n: nat, c: Route)
    requires n <= |objects| && |c| == n && Feasible(objects, c, capacity)
    ensures ChosenValue(objects, c) <= BruteForce(objects, capacity, n)
    decreases n
  {
    if n == 0 {
    } else if capacity == 0 {
      WeightlessChoice(objects, c);
      NothingChosen(objects, c);
    } else {
      var p := c[..n - 1];
      assert c == p + [c[n - 1]];
      ChosenAppend(objects, p, c[n - 1]);
      if c[n - 1] == R {
        BruteForceUpperBound(objects, capacity - objects[n - 1].w, n - 1, p);
      } else {
        BruteForceUpperBound(objects, capacity, n - 1, p);
      }
    }
  }

  /** A feasible choice of the first n - 1 objects, extended by one more decision. */
  lemma {:induction false} Extend(objects: seq<Item>, p: Route, x: Letter, capacity: int, budget: int)
    requires |p| < |objects| && Feasible(objects, p, budget) && x != N
    requires x == R ==> budget == capacity - objects[|p|].w
    requires x == L ==> budget == capacity
    ensures Feasible(objects, p + [x], capacity)
    ensures ChosenValue(objects, p + [x]) == ChosenValue(objects, p) + (if x == R then objects[|p|].v else 0)
  {
    ChosenAppend(objects, p, x);
    ChoiceSnoc(p, x);
  }

  /** Some feasible subset of the first n objects is worth exactly what the oracle says. */
  lemma {:induction false} BruteForceAttained(objects: seq<Item>, capacity: int, n: nat) returns (c: Route)
    requires n <= |objects| && capacity >= 0
    ensures |c| == n && Feasible(objects, c, capacity)
    ensures ChosenValue(objects, c) == BruteForce(objects, capacity, n)
    decreases n
  {
    if n == 0 {
      c := [];
    } else if capacity == 0 {
      c := SkipAll(n);
      NothingChosen(objects, c);
    } else {
      var item := objects[n - 1];
      if item.w <= capacity && item.v + BruteForce(objects, capacity - item.w, n - 1) >= BruteForce(objects, capacity, n - 1) {
        var take := BruteForceAttained(objects, capacity - item.w, n - 1);
        c := TakeLast(objects, capacity, n, take);
      } else {
        var skip := BruteForceAttained(objects, capacity, n - 1);
        c := SkipLast(objects, capacity, n, skip);
      }
    }
  }

  /** When taking object n is at least as good, an optimal choice for the rest followed by R attains the oracle. */
  lemma {:induction false} TakeLast(objects: seq<Item>, capacity: int, n: nat, take: Route) returns (c: Route)
    requires 0 < n <= |objects| && capacity > 0 && objects[n - 1].w <= capacity
    requires objects[n - 1].v + BruteForce(objects, capacity - objects[n - 1].w, n - 1) >= BruteForce(objects, capacity, n - 1)
    requires |take| == n - 1 && Feasible(objects, take, capacity - objects[n - 1].w)
    requires ChosenValue(objects, take) == BruteForce(objects, capacity - objects[n - 1].w, n - 1)
    ensures |c| == n && Feasible(objects, c, capacity)
    ensures ChosenValue(objects, c) == BruteForce(objects, capacity, n)
  {
    Extend(objects, take, R, capacity, capacity - objects[n - 1].w);
    c := take + [R];
  }

  /** Otherwise an optimal choice for the rest followed by L attains it. */
  lemma {:induction false} SkipLast(objects: seq<Item>, capacity: int, n: nat, skip: Route) returns (c: Route)
    requires 0 < n <= |objects| && capacity > 0
    requires objects[n - 1].w > capacity
             || objects[n - 1].v + BruteForce(objects, capacity - objects[n - 1].w, n - 1) < BruteForce(objects, capacity, n - 1)
    requires |skip| == n - 1 && Feasible(objects, skip, capacity)
    requires ChosenValue(objects, skip) == BruteForce(objects, capacity, n - 1)
    ensures |c| == n && Feasible(objects, c, capacity)
    ensures ChosenValue(objects, c) == BruteForce(objects, capacity, n)
  {
    Extend(objects, skip, L, capacity, capacity);
    c := skip + [L];
  }

  /** If no object fits on its own, the oracle finds nothing. */
  lemma {:induction false} NothingFits(objects: seq<Item>, capacity: int, n: nat)
    requires n <= |objects|
    requires forall i :: 0 <= i < n ==> objects[i].w > capacity
    ensures BruteForce(objects, capacity, n) == 0
    decreases n
  {
    if n > 0 && capacity != 0 {
      NothingFits(objects, capacity, n - 1);
    }
  }

  /** The oracle over the first n objects ignores everything after them. */
  lemma {:induction false} BruteForcePrefix(s: seq<Item>, t: seq<Item>, capacity: int, n: nat)
    requires n <= |s|
    ensures BruteForce(s + t, capacity, n) == BruteForce(s, capacity, n)
    decreases n
  {
    if n > 0 && capacity != 0 {
      assert (s + t)[n - 1] == s[n - 1];
      BruteForcePrefix(s, t, capacity, n - 1);
      BruteForcePrefix(s, t, capacity - s[n - 1].w, n - 1);
    }
  }

  /** One more object at the end: the oracle's recursion step, on whole sequences. */
  lemma {:induction false} OptAppend(s: seq<Item>, z: Item, capacity: int)
    ensures Opt(s + [z], capacity)
         == if capacity == 0 then 0
            else if z.w > capacity then Opt(s, capacity)
            else Max(z.v + Opt(s, capacity - z.w), Opt(s, capacity))
  {
    assert (s + [z])[|s|] == z;
    BruteForcePrefix(s, [z], capacity, |s|);
    BruteForcePrefix(s, [z], capacity - z.w, |s|);
  }

  /** Exchanging the last two objects does not change the optimum. */
  lemma {:induction false} OptSwapLast(a: seq<Item>, x: Item, y: Item, capacity: int)
    ensures Opt(a + [x] + [y], capacity) == Opt(a + [y] + [x], capacity)
  {
    OptAppend(a + [x], y, capacity);
    OptAppend(a + [y], x, capacity);
    OptAppend(a, x, capacity);
    OptAppend(a, y, capacity);
    OptAppend(a, x, capacity - y.w);
    OptAppend(a, y, capacity - x.w);
  }

  /** Moving one object to the end does not change the optimum. */
  lemma {:induction false} OptMoveLast(t1: seq<Item>, z: Item, t2: seq<Item>, capacity: int)
    ensures Opt(t1 + [z] + t2, capacity) == Opt(t1 + t2 + [z], capacity)
    decreases |t2|
  {
    if t2 != [] {
      var u := t2[|t2| - 1];
      var t2' := t2[..|t2| - 1];
      assert t1 + [z] + t2 == (t1 + [z] + t2') + [u];
      assert t1 + t2 + [z] == (t1 + t2') + [u] + [z];
      OptAppend(t1 + [z] + t2', u, capacity);
      OptMoveLast(t1, z, t2', capacity);
      OptMoveLast(t1, z, t2', capacity - u.w);
      OptAppend(t1 + t2' + [z], u, capacity);
      OptSwapLast(t1 + t2', z, u, capacity);
    } else {
      assert t1 + [z] + t2 == t1 + t2 + [z];
    }
  }

  /** The optimum depends only on the multiset of objects, not on their order. */
  lemma {:induction false} OptPermutation(s: seq<Item>, t: seq<Item>, capacity: int)
    requires multiset(s) == multiset(t)
    ensures Opt(s, capacity) == Opt(t, capacity)
    decreases |s|
  {
    if s == [] {
      assert |t| == |multiset(t)| == 0;
      assert t == [];
    } else {
      var z := s[|s| - 1];
      var s' := s[..|s| - 1];
      var t1, t2 := FindLast(s, t);
      assert s == s' + [z];
      OptPermutation(s', t1 + t2, capacity);
      OptPermutation(s', t1 + t2, capacity - z.w);
      OptAppend(s', z, capacity);
      OptAppend(t1 + t2, z, capacity);
      OptMoveLast(t1, z, t2, capacity);
    }
  }

  /** The last object of s occurs in its permutation t; taking it out of both leaves permutations of each other. */
  lemma {:induction false} FindLast(s: seq<Item>, t: seq<Item>) returns (t1: seq<Item>, t2: seq<Item>)
    requires s != [] && multiset(s) == multiset(t)
    ensures t == t1 + [s[|s| - 1]] + t2
    ensures multiset(s[..|s| - 1]) == multiset(t1 + t2)
  {
    var z := s[|s| - 1];
    var s' := s[..|s| - 1];
    assert s == s' + [z];
    assert z in multiset(t);
    var i :| 0 <= i < |t| && t[i] == z;
    t1, t2 := t[..i], t[i + 1..];
    assert t == t1 + [z] + t2;
    MultisetCut(t1, z, t2);
    MultisetCancel(multiset(s'), multiset(t1 + t2), z);
  }

  /** Cutting one element out of the middle of a sequence removes one copy of it from the multiset. */
  lemma {:induction false} MultisetCut<T>(a: seq<T>, z: T, b: seq<T>)
    ensures multiset(a + [z] + b) == multiset(a + b) + multiset{z}
  {
    calc {
      multiset(a + [z] + b);
      multiset(a + [z]) + multiset(b);
      multiset(a) + multiset{z} + multiset(b);
      multiset(a + b) + multiset{z};
    }
  }

  /** A copy of z added to both sides cancels. */
  lemma {:induction false} MultisetCancel<T>(x: multiset<T>, y: multiset<T>, z: T)
    requires x + multiset{z} == y + multiset{z}
    ensures x == y
  {
    assert x == x + multiset{z} - multiset{z};
    assert y == y + multiset{z} - multiset{z};
  }

  /** Sorting the objects by density leaves the optimum unchanged. */
  lemma {:induction false} OptOfSorted(s: seq<Item>, capacity: int)
    ensures Opt(SortBy(s, DensityBefore), capacity) == Opt(s, capacity)
  {
    SortPermutes(s, DensityBefore);
    OptPermutation(SortBy(s, DensityBefore), s, capacity);
  }
}
