/**
 * The entry points of the four ABSI-EF knapsack files. Each builds its items,
 * sorts them stably by non-increasing density and runs the shared beam engine;
 * each file also carries the exhaustive recursive oracle.
 */

/** `z/z3/core.py`: items from parallel lists, beam without routes, recursive oracle on the lists. */
module KnapsackCore {
  import opened Sorting
  import opened Routes
  import opened Knapsack
  import opened Beam

  /** `solve_standard`: the exhaustive recursion over the first n entries of the parallel lists. */
  function SolveStandard(weights: seq<int>, values: seq<int>, capacity: int, n: nat): (r: int)
    requires n <= |weights| && n <= |values|
    ensures r >= 0
    decreases n
  {
    if n == 0 || capacity == 0 then 0
    else if weights[n - 1] > capacity then SolveStandard(weights, values, capacity, n - 1)
    else Max(values[n - 1] + SolveStandard(weights, values, capacity - weights[n - 1], n - 1),
             SolveStandard(weights, values, capacity, n - 1))
  }

  /** On positive weights the list recursion is the oracle over the items built from the lists. */
  lemma {:induction false} SolveStandardIsBruteForce(weights: seq<int>, values: seq<int>, capacity: int, n: nat)
    requires n <= |weights| <= |values|
    requires forall i :: 0 <= i < |weights| ==> weights[i] >= 1
    ensures SolveStandard(weights, values, capacity, n) == BruteForce(MakeItems(weights, values), capacity, n)
  {
    ListsAreItems(weights, values, MakeItems(weights, values), capacity, n);
  }

  /** The recursion on the lists follows the oracle on any items that agree with the lists. */
  lemma {:induction false} ListsAreItems(weights: seq<int>, values: seq<int>, items: seq<Item>, capacity: int, n: nat)
    requires n <= |weights| && n <= |values| && n <= |items|
    requires forall i :: 0 <= i < n ==> items[i].w == weights[i] && items[i].v == values[i]
    ensures SolveStandard(weights, values, capacity, n) == BruteForce(items, capacity, n)
    decreases n
  {
    if n > 0 && capacity != 0 {
      ListsAreItems(weights, values, items, capacity, n - 1);
      ListsAreItems(weights, values, items, capacity - weights[n - 1], n - 1);
    }
  }

  /**
   * `solve_standard` is the 0/1 optimum: no feasible subset of the first n items is
   * worth more, and (for a capacity of at least 0) one is worth exactly as much.
   */
  lemma {:induction false} SolveStandardOptimal(weights: seq<int>, values: seq<int>, capacity: int, n: nat, c: Route)
    requires n <= |weights| <= |values|
    requires forall i :: 0 <= i < |weights| ==> weights[i] >= 1
    requires |c| == n && Feasible(MakeItems(weights, values), c, capacity)
    ensures ChosenValue(MakeItems(weights, values), c) <= SolveStandard(weights, values, capacity, n)
  {
    SolveStandardIsBruteForce(weights, values, capacity, n);
    BruteForceUpperBound(MakeItems(weights, values), capacity, n, c);
  }

  /** `solve_fast`: build the items, sort them by density, run the beam. The lists are values and stay unchanged. */
  method SolveFast(weights: seq<int>, values: seq<int>, capacity: int) returns (maxVal: int)
    requires |weights| <= |values|
    requires forall i :: 0 <= i < |weights| ==> weights[i] >= 1
    ensures maxVal == BestAfter(SortBy(MakeItems(weights, values), DensityBefore), capacity, |weights|)
    ensures 0 <= maxVal <= SolveStandard(weights, values, capacity, |weights|)
    ensures |weights| <= 9 ==> maxVal == SolveStandard(weights, values, capacity, |weights|)
  {
    var items := MakeItems(weights, values);
    items := SortBy(items, DensityBefore);
    maxVal := BeamSearch(items, capacity);
    OptOfSorted(MakeItems(weights, values), capacity);
    SolveStandardIsBruteForce(weights, values, capacity, |weights|);
  }
}

/**
 * `2025/2026/mochila_knapsack.py` (`solve_knapsack_absi_pro`) and
 * `2026/mochila_knapsack.py` (`resolver_mochila_absi_pro`): the same solver over a
 * caller's list of objects, which it sorts in place.
 */
module AbsiPro {
  import opened Sorting
  import opened Routes
  import opened Knapsack
  import opened Beam

  /** Sorts the caller's objects in place by density, then runs the beam with routes. */
  method SolveKnapsackAbsiPro(objects: array<Item>, capacity: int) returns (bestValue: int)
    modifies objects
    ensures objects[..] == SortBy(old(objects[..]), DensityBefore)
    ensures bestValue == BestAfter(objects[..], capacity, objects.Length)
    ensures 0 <= bestValue <= Opt(old(objects[..]), capacity)
    ensures objects.Length <= 9 ==> bestValue == Opt(old(objects[..]), capacity)
    ensures capacity >= 0 ==> exists c :: |c| == objects.Length && Feasible(objects[..], c, capacity)
                                          && ChosenValue(objects[..], c) == bestValue
  {
    var sorted := SortBy(objects[..], DensityBefore);
    forall i | 0 <= i < objects.Length {
      objects[i] := sorted[i];
    }
    assert objects[..] == sorted;
    bestValue := BeamSearch(objects[..], capacity);
    OptOfSorted(old(objects[..]), capacity);
  }

  /**
   * The in-place sort leaves the objects in non-increasing density, as a permutation
   * of the caller's list, with objects of equal density in their original order.
   */
  lemma {:induction false} SortedObjects(objects: seq<Item>, k: Item)
    ensures SortedBy(SortBy(objects, DensityBefore), DensityBefore)
    ensures multiset(SortBy(objects, DensityBefore)) == multiset(objects)
    ensures TiesWith(SortBy(objects, DensityBefore), k, DensityBefore) == TiesWith(objects, k, DensityBefore)
  {
    DensityOrder();
    SortSorted(objects, DensityBefore);
    SortPermutes(objects, DensityBefore);
    SortStable(objects, k, DensityBefore);
  }

  /**
   * The comparison harness runs the oracle on the list the solver has already
   * reordered; that gives the optimum of the original list.
   */
  lemma {:induction false} OracleAfterSort(objects: seq<Item>, capacity: int)
    ensures BruteForce(SortBy(objects, DensityBefore), capacity, |objects|) == Opt(objects, capacity)
  {
    OptOfSorted(objects, capacity);
  }
}

/** `2025/z3/z.py`: objects built from the first `cantidadN` entries of two parallel lists. */
module MochilaListas {
  import opened Sorting
  import opened Routes
  import opened Knapsack
  import opened Beam

  /** The object-building loop; the lists themselves are values and are not changed. */
  method BuildObjects(weights: seq<int>, values: seq<int>, count: nat) returns (objects: seq<Item>)
    requires count <= |weights| && count <= |values|
    requires forall i :: 0 <= i < count ==> weights[i] >= 1
    ensures |objects| == count
    ensures forall i :: 0 <= i < count ==> objects[i].w == weights[i] && objects[i].v == values[i]
  {
    objects := [];
    for i := 0 to count
      invariant |objects| == i
      invariant forall j :: 0 <= j < i ==> objects[j].w == weights[j] && objects[j].v == values[j]
    {
      objects := objects + [Item(weights[i], values[i])];
    }
  }

  /** `resolver_mochila_absi_pro(pesos_items, valores_items, capacidad)` with the global `cantidadN` as `count`. */
  method ResolverMochilaAbsiPro(weights: seq<int>, values: seq<int>, capacity: int, count: nat) returns (best: int)
    requires count <= |weights| && count <= |values|
    requires forall i :: 0 <= i < count ==> weights[i] >= 1
    ensures best == BestAfter(SortBy(MakeItems(weights[..count], values[..count]), DensityBefore), capacity, count)
    ensures 0 <= best <= Opt(MakeItems(weights[..count], values[..count]), capacity)
    ensures count <= 9 ==> best == Opt(MakeItems(weights[..count], values[..count]), capacity)
    ensures capacity >= 0 ==> exists c :: |c| == count
                               && Feasible(SortBy(MakeItems(weights[..count], values[..count]), DensityBefore), c, capacity)
                               && ChosenValue(SortBy(MakeItems(weights[..count], values[..count]), DensityBefore), c) == best
    ensures (forall i :: 0 <= i < count ==> weights[i] > capacity) ==> best == 0
  {
    var objects := BuildObjects(weights, values, count);
    ghost var built := MakeItems(weights[..count], values[..count]);
    assert objects == built;
    objects := SortBy(objects, DensityBefore);
    best := BeamSearch(objects, capacity);
    OptOfSorted(built, capacity);
    if forall i :: 0 <= i < count ==> weights[i] > capacity {
      NothingFits(built, capacity, count);
    }
  }
}
