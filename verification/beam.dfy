/**
 * The ABSI-EF beam engine shared by every knapsack solver of the repository.
 * The frontier starts as the root node (weight 0, value 0, route "N"); each item
 * replaces every node by its include successor (when it still fits) followed by its
 * exclude successor; the best include value is recorded as it is created; and a
 * frontier of more than 1000 nodes is cut to its 500 highest-value nodes by a stable
 * descending sort.
 *
 * `Frontier` and `BestAfter` state what the frontier and the best value are after
 * the first i items; `Expand` and `BeamSearch` are the loops, proved to compute them.
 */
module Beam {
  import opened Sorting
  import opened Routes
  import opened Knapsack

  /** A frontier longer than this is pruned. */
  const PruneAbove := 1000
  /** How many nodes a pruned frontier keeps. */
  const BeamWidth := 500

  /** A frontier node: accumulated weight, accumulated value and the route that led to it. */
  datatype Node = Node(w: int, v: int, route: Route)

  const Root := Node(0, 0, [N])

  /** The node that the choice c of the first |c| items leads to. */
  function NodeFor(items: seq<Item>, c: Route): Node
    requires |c| <= |items|
  {
    Node(ChosenWeight(items, c), ChosenValue(items, c), [N] + c)
  }

  /**
   * x is a node of the frontier after i items: its route is "N" and one R/L letter
   * per item, its weight and value are the sums over the R positions, and it fits
   * (with a negative capacity only weightless nodes exist).
   */
  predicate NodeOk(x: Node, items: seq<Item>, i: nat, capacity: int) {
    && i <= |items|
    && |x.route| == i + 1
    && x.route[0] == N
    && IsChoice(x.route[1..])
    && x == NodeFor(items, x.route[1..])
    && (x.w <= capacity || x.w == 0)
  }

  /** Include successor (only if the item fits) followed by the exclude successor. */
  function Branch(x: Node, item: Item, capacity: int): (r: seq<Node>)
    ensures |r| == (if x.w + item.w <= capacity then 2 else 1)
    ensures r[|r| - 1] == Node(x.w, x.v, x.route + [L])
    ensures |r| == 2 ==> r[0] == Node(x.w + item.w, x.v + item.v, x.route + [R])
  {
    (if x.w + item.w <= capacity then [Node(x.w + item.w, x.v + item.v, x.route + [R])] else [])
    + [Node(x.w, x.v, x.route + [L])]
  }

  /** The successors of a frontier, in frontier order. */
  function Successors(active: seq<Node>, item: Item, capacity: int): (r: seq<Node>)
    ensures |active| <= |r| <= 2 * |active|
    decreases |active|
  {
    if active == [] then []
    else Successors(active[..|active| - 1], item, capacity) + Branch(active[|active| - 1], item, capacity)
  }

  /** The largest of `best` and the include values created while expanding `active`. */
  function IncludeBest(active: seq<Node>, item: Item, capacity: int, best: int): (r: int)
    ensures r >= best
    decreases |active|
  {
    if active == [] then best
    else
      var r0 := IncludeBest(active[..|active| - 1], item, capacity, best);
      var x := active[|active| - 1];
      if x.w + item.w <= capacity && x.v + item.v > r0 then x.v + item.v else r0
  }

  /**
   * IncludeBest is the maximum: at least every include value of the expansion,
   * and either `best` itself or one of those include values.
   */
  lemma {:induction false} IncludeBestIsMax(active: seq<Node>, item: Item, capacity: int, best: int)
    ensures forall x :: x in active && x.w + item.w <= capacity ==> IncludeBest(active, item, capacity, best) >= x.v + item.v
    ensures IncludeBest(active, item, capacity, best) == best
            || exists x :: x in active && x.w + item.w <= capacity && IncludeBest(active, item, capacity, best) == x.v + item.v
    decreases |active|
  {
    if active != [] {
      var p := active[..|active| - 1];
      assert active == p + [active[|active| - 1]];
      IncludeBestIsMax(p, item, capacity, best);
    }
  }

  /** The pruning order: higher value first. */
  predicate ValueBefore(a: Node, b: Node) {
    a.v >= b.v
  }

  lemma {:induction false} ValueOrder()
    ensures TotalPreorder(ValueBefore)
  {
  }

  /** The frontier after pruning: unchanged up to 1000 nodes, otherwise the first 500 after a stable sort by value. */
  function Prune(nodes: seq<Node>): (r: seq<Node>)
    ensures |r| <= PruneAbove
    ensures |nodes| <= PruneAbove ==> r == nodes
    ensures |nodes| > PruneAbove ==> |r| == BeamWidth
  {
    if |nodes| > PruneAbove then SortBy(nodes, ValueBefore)[..BeamWidth] else nodes
  }

  /**
   * Pruning keeps the highest values: the kept nodes are in descending value order
   * and none of them is worth less than a dropped node.
   */
  lemma {:induction false} PruneKeepsHighest(nodes: seq<Node>)
    requires |nodes| > PruneAbove
    ensures multiset(Prune(nodes)) <= multiset(nodes)
    ensures SortedBy(Prune(nodes), ValueBefore)
    ensures forall x, y :: x in Prune(nodes) && y in multiset(nodes) - multiset(Prune(nodes)) ==> x.v >= y.v
  {
    ValueOrder();
    var s := SortBy(nodes, ValueBefore);
    SortSorted(nodes, ValueBefore);
    SortPermutes(nodes, ValueBefore);
    var r := s[..BeamWidth];
    assert s == r + s[BeamWidth..];
    assert multiset(nodes) - multiset(r) == multiset(s[BeamWidth..]);
    SortedSplit(s, BeamWidth);
  }

  /** In a sequence sorted by value, everything before position m is worth at least everything from m on. */
  lemma {:induction false} SortedSplit(s: seq<Node>, m: nat)
    requires m <= |s| && SortedBy(s, ValueBefore)
    ensures forall x, y :: x in s[..m] && y in multiset(s[m..]) ==> x.v >= y.v
  {
    forall x, y | x in s[..m] && y in multiset(s[m..]) ensures x.v >= y.v {
      var i :| 0 <= i < m && s[i] == x;
      assert y in s[m..];
      var j :| m <= j < |s| && s[j] == y;
      assert ValueBefore(s[i], s[j]);
    }
  }

  /** Pruning only drops nodes. */
  lemma {:induction false} PruneSubset(nodes: seq<Node>)
    ensures forall x :: x in Prune(nodes) ==> x in nodes
  {
    if |nodes| > PruneAbove {
      var s := SortBy(nodes, ValueBefore);
      SortPermutes(nodes, ValueBefore);
      forall x | x in s[..BeamWidth] ensures x in nodes {
        assert x in multiset(s);
      }
    }
  }

  /** Pruning is stable: nodes of equal value keep their frontier order. */
  lemma {:induction false} PruneStable(nodes: seq<Node>, k: Node)
    ensures TiesWith(Prune(nodes), k, ValueBefore) <= TiesWith(nodes, k, ValueBefore)
  {
    if |nodes| > PruneAbove {
      ValueOrder();
      SortStable(nodes, k, ValueBefore);
      TiesOfPrefix(SortBy(nodes, ValueBefore), BeamWidth, k, ValueBefore);
    }
  }

  /** The frontier after the first i items. */
  function Frontier(items: seq<Item>, capacity: int, i: nat): (r: seq<Node>)
    requires i <= |items|
    ensures 1 <= |r| <= PruneAbove
    decreases i
  {
    if i == 0 then [Root]
    else Prune(Successors(Frontier(items, capacity, i - 1), items[i - 1], capacity))
  }

  /** The best value recorded after the first i items. */
  function BestAfter(items: seq<Item>, capacity: int, i: nat): (r: int)
    requires i <= |items|
    ensures r >= 0
    decreases i
  {
    if i == 0 then 0
    else IncludeBest(Frontier(items, capacity, i - 1), items[i - 1], capacity, BestAfter(items, capacity, i - 1))
  }

  /** Every successor comes from one node of the frontier. */
  lemma {:induction false} InSuccessors(active: seq<Node>, item: Item, capacity: int, y: Node)
    requires y in Successors(active, item, capacity)
    ensures exists x :: x in active && y in Branch(x, item, capacity)
    decreases |active|
  {
    var p := active[..|active| - 1];
    var x := active[|active| - 1];
    assert active == p + [x];
    if y !in Branch(x, item, capacity) {
      InSuccessors(p, item, capacity, y);
    }
  }

  /** Every successor of a frontier node is among the successors of the frontier. */
  lemma {:induction false} BranchInSuccessors(active: seq<Node>, item: Item, capacity: int, x: Node, y: Node)
    requires x in active && y in Branch(x, item, capacity)
    ensures y in Successors(active, item, capacity)
    decreases |active|
  {
    var p := active[..|active| - 1];
    assert active == p + [active[|active| - 1]];
    if x != active[|active| - 1] {
      BranchInSuccessors(p, item, capacity, x, y);
    }
  }

  /** Both successors of a good node are good one item later. */
  lemma {:induction false} BranchOk(x: Node, items: seq<Item>, i: nat, capacity: int, y: Node)
    requires i < |items| && NodeOk(x, items, i, capacity) && y in Branch(x, items[i], capacity)
    ensures NodeOk(y, items, i + 1, capacity)
  {
    var b := Branch(x, items[i], capacity);
    var j :| 0 <= j < |b| && b[j] == y;
    if j == |b| - 1 {
      ExtendOk(x, items, i, capacity, L, y);
    } else {
      ExtendOk(x, items, i, capacity, R, y);
    }
  }

  /** Deciding item i of a good node, taking it only if it fits, gives a good node one item later. */
  lemma {:induction false} ExtendOk(x: Node, items: seq<Item>, i: nat, capacity: int, z: Letter, y: Node)
    requires i < |items| && NodeOk(x, items, i, capacity) && z != N
    requires z == R ==> x.w + items[i].w <= capacity
    requires y == Node(x.w + (if z == R then items[i].w else 0), x.v + (if z == R then items[i].v else 0), x.route + [z])
    ensures NodeOk(y, items, i + 1, capacity)
  {
    var p := x.route[1..];
    assert y.route[1..] == p + [z];
    ChosenAppend(items, p, z);
    ChoiceSnoc(p, z);
  }

  /** The successors of good nodes are good one item later. */
  lemma {:induction false} SuccessorsOk(prev: seq<Node>, items: seq<Item>, k: nat, capacity: int)
    requires k < |items|
    requires forall x :: x in prev ==> NodeOk(x, items, k, capacity)
    ensures forall y :: y in Successors(prev, items[k], capacity) ==> NodeOk(y, items, k + 1, capacity)
    decreases |prev|
  {
    if prev != [] {
      var front, x := prev[..|prev| - 1], prev[|prev| - 1];
      forall x' | x' in front ensures NodeOk(x', items, k, capacity) {
        assert x' in prev;
      }
      SuccessorsOk(front, items, k, capacity);
      forall y | y in Branch(x, items[k], capacity) ensures NodeOk(y, items, k + 1, capacity) {
        BranchOk(x, items, k, capacity, y);
      }
    }
  }

  /** Frontier invariant: every node of every frontier is a feasible subset sum with its route. */
  lemma {:induction false} FrontierOk(items: seq<Item>, capacity: int, i: nat)
    requires i <= |items|
    ensures forall x :: x in Frontier(items, capacity, i) ==> NodeOk(x, items, i, capacity)
    decreases i
  {
    if i == 0 {
      assert [N][1..] == [];
    } else {
      FrontierOk(items, capacity, i - 1);
      var s := Successors(Frontier(items, capacity, i - 1), items[i - 1], capacity);
      SuccessorsOk(Frontier(items, capacity, i - 1), items, i - 1, capacity);
      PruneSubset(s);
    }
  }

  /** One more item never lowers the recorded best value. */
  lemma {:induction false} BestGrows(items: seq<Item>, capacity: int, k: nat)
    requires k < |items|
    ensures BestAfter(items, capacity, k) <= BestAfter(items, capacity, k + 1)
  {
    var b := BestAfter(items, capacity, k);
    assert BestAfter(items, capacity, k + 1) == IncludeBest(Frontier(items, capacity, k), items[k], capacity, b);
  }

  /** The recorded best value never decreases. */
  lemma {:induction false} BestMonotone(items: seq<Item>, capacity: int, i: nat, j: nat)
    requires i <= j <= |items|
    ensures BestAfter(items, capacity, i) <= BestAfter(items, capacity, j)
    decreases j - i
  {
    if i < j {
      var i' := i + 1;
      assert i < |items| && i' <= j;
      BestGrows(items, capacity, i);
      BestMonotone(items, capacity, i', j);
    }
  }

  /**
   * The best value is 0 or the value of an include node created along the way,
   * and is at least every include value created, even of nodes pruned afterwards.
   */
  lemma {:induction false} BestRecordsIncludes(items: seq<Item>, capacity: int, i: nat)
    requires i < |items|
    ensures forall x :: x in Frontier(items, capacity, i) && x.w + items[i].w <= capacity
                        ==> BestAfter(items, capacity, i + 1) >= x.v + items[i].v
    ensures BestAfter(items, capacity, i + 1) == BestAfter(items, capacity, i)
            || exists x :: x in Frontier(items, capacity, i) && x.w + items[i].w <= capacity
                           && BestAfter(items, capacity, i + 1) == x.v + items[i].v
  {
    IncludeBestIsMax(Frontier(items, capacity, i), items[i], capacity, BestAfter(items, capacity, i));
  }

  /** The best value is achieved by a feasible choice of the first i items. */
  lemma {:induction false} BestWitness(items: seq<Item>, capacity: int, i: nat) returns (c: Route)
    requires i <= |items| && capacity >= 0
    ensures |c| == i && Feasible(items, c, capacity)
    ensures ChosenValue(items, c) == BestAfter(items, capacity, i)
    decreases i
  {
    if i == 0 {
      c := [];
    } else {
      var p := BestWitness(items, capacity, i - 1);
      FrontierOk(items, capacity, i - 1);
      c := BestStep(items, capacity, i - 1, Frontier(items, capacity, i - 1), p);
    }
  }

  /**
   * One item later: a witness of the old best value, extended by L, or the route
   * of the frontier node whose include value became the new best, extended by R.
   */
  lemma {:induction false} BestStep(items: seq<Item>, capacity: int, k: nat, prev: seq<Node>, p: Route) returns (c: Route)
    requires k < |items| && capacity >= 0 && |p| == k && Feasible(items, p, capacity)
    requires forall x :: x in prev ==> NodeOk(x, items, k, capacity)
    ensures |c| == k + 1 && Feasible(items, c, capacity)
    ensures ChosenValue(items, c) == IncludeBest(prev, items[k], capacity, ChosenValue(items, p))
  {
    var item := items[k];
    var b := ChosenValue(items, p);
    IncludeBestIsMax(prev, item, capacity, b);
    if IncludeBest(prev, item, capacity, b) == b {
      Extend(items, p, L, capacity, capacity);
      c := p + [L];
    } else {
      var x :| x in prev && x.w + item.w <= capacity && IncludeBest(prev, item, capacity, b) == x.v + item.v;
      assert NodeOk(x, items, k, capacity);
      var q := x.route[1..];
      Extend(items, q, R, capacity, capacity - item.w);
      c := q + [R];
    }
  }

  /** With a negative capacity nothing is ever included. */
  lemma {:induction false} NegativeCapacity(items: seq<Item>, capacity: int, i: nat)
    requires i <= |items| && capacity < 0
    ensures BestAfter(items, capacity, i) == 0
    decreases i
  {
    if i > 0 {
      NegativeCapacity(items, capacity, i - 1);
      FrontierOk(items, capacity, i - 1);
      NothingIncluded(Frontier(items, capacity, i - 1), items, i - 1, capacity);
    }
  }

  /** With a negative capacity no node of a good frontier can take one more item. */
  lemma {:induction false} NothingIncluded(prev: seq<Node>, items: seq<Item>, k: nat, capacity: int)
    requires k < |items| && capacity < 0
    requires forall x :: x in prev ==> NodeOk(x, items, k, capacity)
    ensures IncludeBest(prev, items[k], capacity, 0) == 0
  {
    forall x | x in prev ensures x.w + items[k].w > capacity {
      assert NodeOk(x, items, k, capacity);
    }
    IncludeBestIsMax(prev, items[k], capacity, 0);
  }

  /** The beam never claims more than the exhaustive optimum over the same items. */
  lemma {:induction false} BestBounded(items: seq<Item>, capacity: int, i: nat)
    requires i <= |items|
    ensures BestAfter(items, capacity, i) <= BruteForce(items, capacity, i)
  {
    if capacity < 0 {
      NegativeCapacity(items, capacity, i);
    } else {
      var c := BestWitness(items, capacity, i);
      BruteForceUpperBound(items, capacity, i, c);
    }
  }

  function Pow2(k: nat): (r: nat)
    ensures r >= 1
  {
    if k == 0 then 1 else 2 * Pow2(k - 1)
  }

  lemma {:induction false} Pow2Small(k: nat)
    requires k <= 9
    ensures Pow2(k) <= 512
    decreases 9 - k
  {
    if k < 9 {
      Pow2Small(k + 1);
    } else {
      assert Pow2(9) == 512;
    }
  }

  /** Up to nine items the frontier holds at most 2^i nodes, so pruning never fires. */
  lemma {:induction false} SmallFrontier(items: seq<Item>, capacity: int, i: nat)
    requires i <= |items| && i <= 9
    ensures |Frontier(items, capacity, i)| <= Pow2(i) <= 512
    ensures i > 0 ==> Frontier(items, capacity, i)
                      == Successors(Frontier(items, capacity, i - 1), items[i - 1], capacity)
    decreases i
  {
    Pow2Small(i);
    if i > 0 {
      SmallFrontier(items, capacity, i - 1);
    }
  }

  /** The node of a choice extended by one decision is a successor of the node of the choice. */
  lemma {:induction false} NodeForBranch(items: seq<Item>, capacity: int, p: Route, z: Letter)
    requires |p| < |items| && z != N && ChosenWeight(items, p + [z]) <= capacity
    ensures NodeFor(items, p + [z]) in Branch(NodeFor(items, p), items[|p|], capacity)
  {
    ChosenAppend(items, p, z);
    assert [N] + (p + [z]) == ([N] + p) + [z];
    var b := Branch(NodeFor(items, p), items[|p|], capacity);
    if z == L {
      assert NodeFor(items, p + [z]) == b[|b| - 1];
    } else {
      assert NodeFor(items, p + [z]) == b[0];
    }
  }

  /** Up to nine items the frontier holds the node of every feasible choice. */
  lemma {:induction false} FrontierComplete(items: seq<Item>, capacity: int, i: nat, c: Route)
    requires i <= |items| && i <= 9 && |c| == i && Feasible(items, c, capacity)
    ensures NodeFor(items, c) in Frontier(items, capacity, i)
    decreases i
  {
    if i == 0 {
      assert NodeFor(items, c) == Root;
    } else {
      var p := c[..i - 1];
      assert c == p + [c[i - 1]];
      ChosenAppend(items, p, c[i - 1]);
      assert Feasible(items, p, capacity);
      FrontierComplete(items, capacity, i - 1, p);
      NodeForBranch(items, capacity, p, c[i - 1]);
      SmallFrontier(items, capacity, i);
      BranchInSuccessors(Frontier(items, capacity, i - 1), items[i - 1], capacity, NodeFor(items, p), NodeFor(items, c));
    }
  }

  /** Up to nine items no feasible choice is worth more than the recorded best value. */
  lemma {:induction false} BestCovers(items: seq<Item>, capacity: int, i: nat, c: Route)
    requires i <= |items| && i <= 9 && |c| == i && Feasible(items, c, capacity)
    ensures ChosenValue(items, c) <= BestAfter(items, capacity, i)
    decreases i
  {
    if i > 0 {
      var p := c[..i - 1];
      var z := c[i - 1];
      assert c == p + [z];
      ChosenAppend(items, p, z);
      if z == R {
        assert Feasible(items, p, capacity);
        FrontierComplete(items, capacity, i - 1, p);
        IncludeBestIsMax(Frontier(items, capacity, i - 1), items[i - 1], capacity, BestAfter(items, capacity, i - 1));
      } else {
        assert Feasible(items, p, capacity);
        BestCovers(items, capacity, i - 1, p);
      }
    }
  }

  /** Up to nine items the beam finds the exhaustive optimum. */
  lemma {:induction false} BeamExact(items: seq<Item>, capacity: int)
    requires |items| <= 9
    ensures BestAfter(items, capacity, |items|) == Opt(items, capacity)
  {
    BestBounded(items, capacity, |items|);
    if capacity >= 0 {
      var c := BruteForceAttained(items, capacity, |items|);
      BestCovers(items, capacity, |items|, c);
    } else {
      NothingFits(items, capacity, |items|);
    }
  }

  /** One item: the inner loop over the frontier. */
  method Expand(active: seq<Node>, item: Item, capacity: int, best: int) returns (next: seq<Node>, newBest: int)
    ensures next == Successors(active, item, capacity)
    ensures newBest == IncludeBest(active, item, capacity, best)
  {
    next := [];
    newBest := best;
    for j := 0 to |active|
      invariant next == Successors(active[..j], item, capacity)
      invariant newBest == IncludeBest(active[..j], item, capacity, best)
    {
      assert active[..j + 1][..j] == active[..j];
      var x := active[j];
      if x.w + item.w <= capacity {
        var nv := x.v + item.v;
        next := next + [Node(x.w + item.w, nv, x.route + [R])];
        if nv > newBest {
          newBest := nv;
        }
      }
      next := next + [Node(x.w, x.v, x.route + [L])];
    }
    assert active[..|active|] == active;
  }

  /** The whole beam search over items already in processing order. */
  method BeamSearch(items: seq<Item>, capacity: int) returns (best: int)
    ensures best == BestAfter(items, capacity, |items|)
    ensures 0 <= best <= Opt(items, capacity)
    ensures |items| <= 9 ==> best == Opt(items, capacity)
    ensures capacity >= 0 ==> exists c :: |c| == |items| && Feasible(items, c, capacity) && ChosenValue(items, c) == best
  {
    best := 0;
    var active := [Root];
    for i := 0 to |items|
      invariant active == Frontier(items, capacity, i)
      invariant best == BestAfter(items, capacity, i)
    {
      var next;
      next, best := Expand(active, items[i], capacity, best);
      active := next;
      if |active| > PruneAbove {
        active := SortBy(active, ValueBefore);
        active := active[..BeamWidth];
      }
    }
    BestBounded(items, capacity, |items|);
    if |items| <= 9 {
      BeamExact(items, capacity);
    }
    if capacity >= 0 {
      var c := BestWitness(items, capacity, |items|);
    }
  }
}
