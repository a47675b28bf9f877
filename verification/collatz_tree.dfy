/**
 * The level-by-level parity-split tree shared by `generar_arbol_multiple`,
 * `generar_arbol_con_marcas` and `generar_arbol`: level 0 is `{"": seeds}`; every
 * group of a level sends its even seeds, halved, to `route + "R"` and its odd seeds,
 * mapped to 3s + 1, to `route + "L"`, and only non-empty groups are stored. A level
 * (a Python dict in insertion order) is a sequence of groups.
 */
module CollatzTree {
  import opened Routes
  import opened CollatzSteps

  datatype Group = Group(route: Route, values: seq<int>)

  type Level = seq<Group>

  /**
   * The Collatz images, in seed order, of the seeds whose step takes branch x:
   * `grupo_r` for x = R, `grupo_l` for x = L.
   */
  function Images(s: seq<int>, x: Letter): (r: seq<int>)
    ensures |r| <= |s|
  {
    if s == [] then []
    else Images(s[..|s| - 1], x) + (if Collatz(s[|s| - 1]).1 == x then [Collatz(s[|s| - 1]).0] else [])
  }

  /** The seeds the values of a branch came from. */
  function Origins(r: seq<int>, x: Letter): (o: seq<int>)
    ensures |o| == |r|
  {
    seq(|r|, i requires 0 <= i < |r| => Unstep(r[i], x))
  }

  /** The split as a multiset identity: undoing the step on both branches gives back the seeds. */
  predicate Partitions(s: seq<int>) {
    multiset(Origins(Images(s, R), R)) + multiset(Origins(Images(s, L), L)) == multiset(s)
  }

  /** One more seed adds its image to the end of its own branch and leaves the other alone. */
  lemma {:induction false} ImagesSnoc(front: seq<int>, z: int, x: Letter)
    ensures Images(front + [z], x) == Images(front, x) + (if Collatz(z).1 == x then [Collatz(z).0] else [])
  {
    assert (front + [z])[..|front|] == front;
  }

  lemma {:induction false} OriginsSnoc(a: seq<int>, v: int, x: Letter)
    ensures Origins(a + [v], x) == Origins(a, x) + [Unstep(v, x)]
  {
  }

  /** One more seed lands on exactly one branch, and undoing its step gives it back. */
  lemma {:induction false} SplitSnoc(front: seq<int>, z: int)
    requires Partitions(front)
    ensures Partitions(front + [z])
  {
    var x, v := Collatz(z).1, Collatz(z).0;
    var y := if x == R then L else R;
    var grown, other := Origins(Images(front, x), x), Origins(Images(front, y), y);
    ImagesSnoc(front, z, x);
    ImagesSnoc(front, z, y);
    assert Images(front + [z], y) == Images(front, y);
    OriginsSnoc(Images(front, x), v, x);
    CollatzUnstep(z);
    assert Origins(Images(front + [z], x), x) == grown + [z];
    assert multiset(grown) + multiset(other) == multiset(front);
    assert multiset(grown + [z]) + multiset(other) == multiset(front + [z]);
  }

  /**
   * The split partitions the seeds: the two groups together are as long as the
   * seed list, and undoing the step on them gives back the seeds as a multiset.
   */
  lemma {:induction false} SplitPartition(s: seq<int>)
    ensures |Images(s, R)| + |Images(s, L)| == |s|
    ensures Partitions(s)
  {
    if s != [] {
      var front := s[..|s| - 1];
      SplitPartition(front);
      SplitSnoc(front, s[|s| - 1]);
      assert s == front + [s[|s| - 1]];
    }
  }

  /** Negative seeds give negative images. */
  lemma {:induction false} ImagesNegative(s: seq<int>, x: Letter)
    requires AllNegative(s)
    ensures AllNegative(Images(s, x))
  {
    if s != [] {
      ImagesNegative(s[..|s| - 1], x);
      CollatzSign(s[|s| - 1]);
    }
  }

  /** The innermost loop: one pass over a group's seeds, appending each image to its branch's list. */
  method SplitByParity(seeds: seq<int>) returns (groupR: seq<int>, groupL: seq<int>)
    ensures groupR == Images(seeds, R) && groupL == Images(seeds, L)
  {
    groupR, groupL := [], [];
    for i := 0 to |seeds|
      invariant groupR == Images(seeds[..i], R) && groupL == Images(seeds[..i], L)
    {
      var (v, b) := Collatz(seeds[i]);
      assert seeds[..i + 1][..i] == seeds[..i];
      if b == R {
        groupR := groupR + [v];
      } else {
        groupL := groupL + [v];
      }
    }
    assert seeds[..|seeds|] == seeds;
  }

  /** The children a group contributes to the next level: its R child, then its L child, each only if non-empty. */
  function ChildrenOf(g: Group): (r: Level)
    ensures |r| <= 2
  {
    (if Images(g.values, R) != [] then [Group(g.route + [R], Images(g.values, R))] else [])
    + (if Images(g.values, L) != [] then [Group(g.route + [L], Images(g.values, L))] else [])
  }

  /** The next level: the children of every group, in the level's order. */
  function Children(level: Level): Level {
    if level == [] then [] else Children(level[..|level| - 1]) + ChildrenOf(level[|level| - 1])
  }

  /** Level k of the tree grown from the seeds. */
  function Tree(seeds: seq<int>, k: nat): Level {
    if k == 0 then [Group([], seeds)] else Children(Tree(seeds, k - 1))
  }

  /** One iteration of the level loop: fills `proximo_nivel` group by group. */
  method NextLevel(level: Level) returns (next: Level)
    ensures next == Children(level)
  {
    next := [];
    for i := 0 to |level|
      invariant next == Children(level[..i])
    {
      var groupR, groupL := SplitByParity(level[i].values);
      assert level[..i + 1][..i] == level[..i];
      var before := next;
      if groupR != [] {
        next := next + [Group(level[i].route + [R], groupR)];
      }
      if groupL != [] {
        next := next + [Group(level[i].route + [L], groupL)];
      }
      assert next == before + ChildrenOf(level[i]);
    }
    assert level[..|level|] == level;
  }

  /** `generar_arbol_multiple(lista_inicio, niveles)`: `niveles + 1` levels, level 0 holding the seeds under the empty route. */
  method BuildTree(seeds: seq<int>, levels: nat) returns (tree: seq<Level>)
    ensures |tree| == levels + 1
    ensures tree[0] == [Group([], seeds)]
    ensures forall k :: 0 <= k <= levels ==> tree[k] == Tree(seeds, k)
  {
    tree := [[Group([], seeds)]];
    for q := 0 to levels
      invariant |tree| == q + 1
      invariant forall k :: 0 <= k <= q ==> tree[k] == Tree(seeds, k)
    {
      var next := NextLevel(tree[q]);
      LevelsSnoc(seeds, tree, q);
      tree := tree + [next];
    }
  }

  /** Appending the children of the last level extends a prefix of the tree by one level. */
  lemma {:induction false} LevelsSnoc(seeds: seq<int>, tree: seq<Level>, q: nat)
    requires |tree| == q + 1 && forall k :: 0 <= k <= q ==> tree[k] == Tree(seeds, k)
    ensures forall k :: 0 <= k <= q + 1 ==> (tree + [Children(tree[q])])[k] == Tree(seeds, k)
  {
    forall k | 0 <= k <= q + 1 ensures (tree + [Children(tree[q])])[k] == Tree(seeds, k) {
      if k <= q {
        assert (tree + [Children(tree[q])])[k] == tree[k];
      }
    }
  }

  /** The number of values held by a level. */
  function Total(level: Level): nat {
    if level == [] then 0 else Total(level[..|level| - 1]) + |level[|level| - 1].values|
  }

  lemma {:induction false} TotalAppend(a: Level, b: Level)
    ensures Total(a + b) == Total(a) + Total(b)
    decreases |b|
  {
    if b != [] {
      var ab := a + b;
      assert ab[..|ab| - 1] == a + b[..|b| - 1];
      assert ab[|ab| - 1] == b[|b| - 1];
      TotalAppend(a, b[..|b| - 1]);
    } else {
      assert a + b == a;
    }
  }

  /** Each level partitions its parent's values: the count of values is the same. */
  lemma {:induction false} ChildrenTotal(level: Level)
    ensures Total(Children(level)) == Total(level)
  {
    if level != [] {
      var g := level[|level| - 1];
      ChildrenTotal(level[..|level| - 1]);
      TotalAppend(Children(level[..|level| - 1]), ChildrenOf(g));
      SplitPartition(g.values);
      var a := if Images(g.values, R) != [] then [Group(g.route + [R], Images(g.values, R))] else [];
      var b := if Images(g.values, L) != [] then [Group(g.route + [L], Images(g.values, L))] else [];
      TotalAppend(a, b);
      assert Total(a) == |Images(g.values, R)|;
      assert Total(b) == |Images(g.values, L)|;
    }
  }

  /** Every level of the tree holds exactly as many values as there are seeds. */
  lemma {:induction false} TreeTotal(seeds: seq<int>, k: nat)
    ensures Total(Tree(seeds, k)) == |seeds|
  {
    if k == 0 {
      assert Total([Group([], seeds)]) == Total([]) + |seeds|;
    } else {
      TreeTotal(seeds, k - 1);
      ChildrenTotal(Tree(seeds, k - 1));
    }
  }

  /** Where a child came from: a group of the level and the branch it took. */
  lemma {:induction false} ChildOrigin(level: Level, c: Group) returns (i: nat, x: Letter)
    requires c in Children(level)
    ensures i < |level| && (x == R || x == L)
    ensures c == Group(level[i].route + [x], Images(level[i].values, x)) && c.values != []
    decreases |level|
  {
    var front := level[..|level| - 1];
    var g := level[|level| - 1];
    if c in Children(front) {
      i, x := ChildOrigin(front, c);
    } else {
      assert c in ChildrenOf(g);
      i := |level| - 1;
      if Images(g.values, R) != [] && c == Group(g.route + [R], Images(g.values, R)) {
        x := R;
      } else {
        x := L;
      }
    }
  }

  /** Every child of a group is in the next level. */
  lemma {:induction false} InChildren(level: Level, i: nat, c: Group)
    requires i < |level| && c in ChildrenOf(level[i])
    ensures c in Children(level)
    decreases |level|
  {
    if i < |level| - 1 {
      assert level[..|level| - 1][i] == level[i];
      InChildren(level[..|level| - 1], i, c);
    }
  }

  /** The routes of a level are pairwise different: a list of groups stands for a dict. */
  predicate DistinctRoutes(level: Level) {
    forall i, j :: 0 <= i < j < |level| ==> level[i].route != level[j].route
  }

  /** Different parents have different children, so the next level's routes are distinct again. */
  lemma {:induction false} ChildrenDistinct(level: Level)
    requires DistinctRoutes(level)
    ensures DistinctRoutes(Children(level))
  {
    if level != [] {
      var front, g := level[..|level| - 1], level[|level| - 1];
      ChildrenDistinct(front);
      var a, b := Children(front), ChildrenOf(g);
      forall i, j | 0 <= i < |a| && 0 <= j < |b|
        ensures a[i].route != b[j].route
      {
        var p, x := ChildOrigin(front, a[i]);
        assert front[p] == level[p];
        assert b[j] in b;
        assert b[j].route[..|g.route|] == g.route;
        assert a[i].route[..|front[p].route|] == front[p].route;
      }
      if |b| == 2 {
        assert b[0].route[|g.route|] == R && b[1].route[|g.route|] == L;
      }
      var ab := a + b;
      forall i, j | 0 <= i < j < |ab|
        ensures ab[i].route != ab[j].route
      {
        if j < |a| {
          assert ab[i] == a[i] && ab[j] == a[j];
        } else if i >= |a| {
          assert ab[i] == b[i - |a|] && ab[j] == b[j - |a|];
        } else {
          assert ab[i] == a[i] && ab[j] == b[j - |a|];
        }
      }
    }
  }

  /** The children of groups with k-letter R/L keys have (k + 1)-letter R/L keys and are not empty. */
  lemma {:induction false} ChildrenShape(level: Level, k: nat)
    requires forall g :: g in level ==> |g.route| == k && IsChoice(g.route)
    ensures forall c :: c in Children(level) ==> |c.route| == k + 1 && IsChoice(c.route) && c.values != []
  {
    forall c | c in Children(level) ensures |c.route| == k + 1 && IsChoice(c.route) && c.values != [] {
      var i, x := ChildOrigin(level, c);
      assert level[i] in level;
      ChoiceSnoc(level[i].route, x);
    }
  }

  /** The keys of a level are distinct. */
  lemma {:induction false} TreeDistinct(seeds: seq<int>, k: nat)
    ensures DistinctRoutes(Tree(seeds, k))
  {
    if k > 0 {
      TreeDistinct(seeds, k - 1);
      ChildrenDistinct(Tree(seeds, k - 1));
    }
  }

  /** Keys at level k are k-letter strings over {R, L}; below the root no group is empty. */
  lemma {:induction false} TreeShape(seeds: seq<int>, k: nat)
    ensures forall g :: g in Tree(seeds, k) ==> |g.route| == k && IsChoice(g.route)
    ensures k > 0 ==> forall g :: g in Tree(seeds, k) ==> g.values != []
  {
    if k > 0 {
      TreeShape(seeds, k - 1);
      ChildrenShape(Tree(seeds, k - 1), k - 1);
    }
  }

  /** Each child key extends its parent's key by one letter, and carries that parent's images on the branch. */
  lemma {:induction false} ChildExtendsParent(seeds: seq<int>, k: nat, c: Group) returns (p: Group, x: Letter)
    requires c in Tree(seeds, k + 1)
    ensures p in Tree(seeds, k) && (x == R || x == L)
    ensures c.route == p.route + [x] && c.values == Images(p.values, x)
  {
    var i;
    i, x := ChildOrigin(Tree(seeds, k), c);
    p := Tree(seeds, k)[i];
  }

  /** A child key is present exactly when its group is non-empty. */
  lemma {:induction false} ChildKeyPresent(level: Level, i: nat, x: Letter)
    requires DistinctRoutes(level) && i < |level| && (x == R || x == L)
    ensures (exists c :: c in Children(level) && c.route == level[i].route + [x])
            <==> Images(level[i].values, x) != []
  {
    var g := level[i];
    if Images(g.values, x) != [] {
      var c := Group(g.route + [x], Images(g.values, x));
      assert c in ChildrenOf(g);
      InChildren(level, i, c);
    }
    if c :| c in Children(level) && c.route == g.route + [x] {
      var j, y := ChildOrigin(level, c);
      assert level[j].route + [y] == g.route + [x];
      assert level[j].route == (level[j].route + [y])[..|level[j].route|];
    }
  }

  predicate AllNegative(s: seq<int>) {
    forall i :: 0 <= i < |s| ==> s[i] < 0
  }

  /** The children of groups of negative values hold negative values. */
  lemma {:induction false} ChildrenNegative(level: Level)
    requires forall g :: g in level ==> AllNegative(g.values)
    ensures forall c :: c in Children(level) ==> AllNegative(c.values)
  {
    forall c | c in Children(level) ensures AllNegative(c.values) {
      var i, x := ChildOrigin(level, c);
      assert level[i] in level;
      ImagesNegative(level[i].values, x);
    }
  }

  /** Negative seeds: every value at every level is negative. */
  lemma {:induction false} TreeNegative(seeds: seq<int>, k: nat)
    requires AllNegative(seeds)
    ensures forall g :: g in Tree(seeds, k) ==> AllNegative(g.values)
  {
    if k > 0 {
      TreeNegative(seeds, k - 1);
      ChildrenNegative(Tree(seeds, k - 1));
    }
  }
}
