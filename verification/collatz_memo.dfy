/**
 * `z/z4/7.py`: the node tree with duplicate marks and a memo of results.
 * `historial_patrones` is the set of child pairs produced so far: a child whose
 * pair is already in it is flagged as a duplicate. `historial_de_resultados` maps
 * a node's pair to the pairs of its R and L children, so a node met again is not
 * recomputed. The classifier's threshold is half the seed count.
 */
module MemoNodeTree {
  import opened Routes
  import opened CollatzSteps
  import opened CollatzTree
  import opened CollatzNodes
  import NodeTree

  type Pair = (int, int)

  /**
   * The child pair on branch x of the node keyed `key`, for `count` seeds: present
   * when two or more seeds take the branch, and then the closed form of the split.
   */
  function Child(key: Pair, count: nat, x: Letter): Option<Pair> {
    if ChildCount(key.0, key.1, count, x) > 1 then Some((ChildStart(key.0, key.1, x), ChildStep(key.1, x))) else None
  }

  /**
   * With half the seeds as threshold the classifier never raises and finds exactly
   * Child, whose pair regenerates the images of the seeds that took the branch.
   */
  lemma {:induction false} ChildIsPattern(key: Pair, count: nat, x: Letter)
    requires x == R || x == L
    ensures ChildPattern(key, count, count / 2, x) == Ok(Child(key, count, x))
    ensures Child(key, count, x).Some? ==>
              Arith(Child(key, count, x).value.0, Child(key, count, x).value.1, ChildCount(key.0, key.1, count, x))
              == Images(Arith(key.0, key.1, count), x)
  {
    ChildPatternNeverFails(key, count, count / 2, x);
    ImagesOfArith(key.0, key.1, count, x);
  }

  /**
   * Emitting a found child: it is flagged as a duplicate exactly when its pair is
   * already in the history, and the pair is in the history afterwards.
   */
  function Emit(parent: Node, q1: nat, x: Letter, p: Option<Pair>, history: set<Pair>): (seq<Node>, set<Pair>) {
    if p.None? then ([], history)
    else ([Node(p.value.0, p.value.1, EntryKey(parent, q1) + [x], q1 + 1, p.value in history)], history + {p.value})
  }

  /** The children of one node, R then L, threading the history. */
  function Expand(node: Node, q1: nat, count: nat, history: set<Pair>): (seq<Node>, set<Pair>) {
    var r := Emit(node, q1, R, Child(Key(node), count, R), history);
    var l := Emit(node, q1, L, Child(Key(node), count, L), r.1);
    (r.0 + l.0, l.1)
  }

  /** The next level, node by node in the order of the current one. */
  function ExpandAll(level: seq<Node>, q1: nat, count: nat, history: set<Pair>): (seq<Node>, set<Pair>) {
    if level == [] then ([], history)
    else
      var front := ExpandAll(level[..|level| - 1], q1, count, history);
      var cs := Expand(level[|level| - 1], q1, count, front.1);
      (front.0 + cs.0, cs.1)
  }

  /** The tree `generar_arbol` returns and the pattern history it ends with; the start pair is not recorded. */
  function DupForest(start: Node, count: nat, levels: nat): (r: (seq<seq<Node>>, set<Pair>))
    ensures |r.0| == levels + 1 && r.0[0] == [start]
  {
    if levels == 0 then ([[start]], {})
    else
      var prev := DupForest(start, count, levels - 1);
      var next := ExpandAll(prev.0[levels - 1], levels - 1, count, prev.1);
      (prev.0 + [next.0], next.1)
  }

  /** `historial_de_resultados`, with absent children as None. */
  type Memo = map<Pair, (Option<Pair>, Option<Pair>)>

  /** Every memo entry holds the children the node's pair actually has. */
  predicate MemoSound(memo: Memo, count: nat) {
    forall k :: k in memo ==> memo[k] == (Child(k, count, R), Child(k, count, L))
  }

  /** The classification of one side of the split (`if len(r_vals) > 1: detectar_patron(r_vals)`). */
  method ClassifyChild(node: Node, group: seq<int>, count: nat, x: Letter) returns (p: Option<Pair>)
    requires x == R || x == L
    requires group == Images(Arith(node.offset, node.step, count), x)
    ensures p == Child(Key(node), count, x)
  {
    p := None;
    ghost var key := Key(node);
    assert group == Images(Arith(key.0, key.1, count), x);
    ChildIsPattern(key, count, x);
    if |group| > 1 {
      var found := DetectProgression(group, count / 2);
      assert ChildPattern(key, count, count / 2, x) == Ok(Some(found.value));
      p := Some(found.value);
    }
  }

  /** Creating a child and recording its pair (`isDup = p in historial_patrones`). */
  method EmitChild(parent: Node, q1: nat, x: Letter, p: Option<Pair>, history: set<Pair>)
    returns (child: seq<Node>, history': set<Pair>)
    ensures (child, history') == Emit(parent, q1, x, p, history)
  {
    child, history' := [], history;
    if p.Some? {
      var isDup := p.value in history;
      if !isDup {
        history' := history + {p.value};
      } else {
        assert history + {p.value} == history;
      }
      child := [Node(p.value.0, p.value.1, EntryKey(parent, q1) + [x], q1 + 1, isDup)];
    }
  }

  /** One node: from the memo when its pair was met before, otherwise computed and stored. */
  method MemoNode(node: Node, q1: nat, count: nat, history: set<Pair>, memo: Memo)
    returns (children: seq<Node>, history': set<Pair>, memo': Memo)
    requires MemoSound(memo, count)
    ensures (children, history') == Expand(node, q1, count, history)
    ensures MemoSound(memo', count)
    ensures memo'.Keys == memo.Keys + {Key(node)}
  {
    var key := Key(node);
    var pr, pl;
    if key in memo {
      pr, pl := memo[key].0, memo[key].1;
      memo' := memo;
    } else {
      var seeds := GenerateList(node, count);
      var r, l := SplitByParity(seeds);
      pr := ClassifyChild(node, r, count, R);
      pl := ClassifyChild(node, l, count, L);
      memo' := memo[key := (pr, pl)];
    }
    var rs, h := EmitChild(node, q1, R, pr, history);
    var ls;
    ls, history' := EmitChild(node, q1, L, pl, h);
    children := rs + ls;
  }

  /** One iteration of the level loop. */
  method MemoLevel(level: seq<Node>, q1: nat, count: nat, history: set<Pair>, memo: Memo)
    returns (next: seq<Node>, history': set<Pair>, memo': Memo)
    requires MemoSound(memo, count)
    ensures (next, history') == ExpandAll(level, q1, count, history)
    ensures MemoSound(memo', count) && memo.Keys <= memo'.Keys
    ensures KeysOf(level) <= memo'.Keys
  {
    next, history', memo' := [], history, memo;
    for i := 0 to |level|
      invariant (next, history') == ExpandAll(level[..i], q1, count, history)
      invariant MemoSound(memo', count) && memo.Keys <= memo'.Keys
      invariant KeysOf(level[..i]) <= memo'.Keys
    {
      ghost var before := history';
      assert level[..i + 1][..i] == level[..i] && level[..i + 1][i] == level[i];
      var children;
      children, history', memo' := MemoNode(level[i], q1, count, history', memo');
      assert ExpandAll(level[..i + 1], q1, count, history)
          == (next + Expand(level[i], q1, count, before).0, Expand(level[i], q1, count, before).1);
      next := next + children;
    }
    assert level[..|level|] == level;
  }

  /** `generar_arbol` with both histories starting empty. */
  method GenerarArbolMemo(start: Node, count: nat, levels: nat) returns (tree: seq<seq<Node>>)
    ensures tree == DupForest(start, count, levels).0
  {
    tree := [[start]];
    var history: set<Pair> := {};
    var memo: Memo := map[];
    for q1 := 0 to levels
      invariant (tree, history) == DupForest(start, count, q1)
      invariant MemoSound(memo, count)
    {
      var next;
      next, history, memo := MemoLevel(tree[q1], q1, count, history, memo);
      tree := tree + [next];
    }
  }

  /** The pairs of a sequence of nodes. */
  function KeysOf(nodes: seq<Node>): set<Pair> {
    if nodes == [] then {} else KeysOf(nodes[..|nodes| - 1]) + {Key(nodes[|nodes| - 1])}
  }

  lemma {:induction false} KeysOfHas(nodes: seq<Node>, i: nat)
    requires i < |nodes|
    ensures Key(nodes[i]) in KeysOf(nodes)
  {
    if i < |nodes| - 1 {
      KeysOfHas(nodes[..|nodes| - 1], i);
    }
  }

  lemma {:induction false} KeysOfMembers(nodes: seq<Node>, k: Pair)
    requires k in KeysOf(nodes)
    ensures exists i :: 0 <= i < |nodes| && Key(nodes[i]) == k
  {
    if Key(nodes[|nodes| - 1]) != k {
      KeysOfMembers(nodes[..|nodes| - 1], k);
    }
  }

  lemma {:induction false} KeysOfConcat(a: seq<Node>, b: seq<Node>)
    ensures KeysOf(a + b) == KeysOf(a) + KeysOf(b)
    decreases |b|
  {
    if b == [] {
      assert a + b == a;
    } else {
      assert (a + b)[..|a + b| - 1] == a + b[..|b| - 1];
      KeysOfConcat(a, b[..|b| - 1]);
    }
  }

  /** Each node is flagged exactly when its pair was in the history or is the pair of a node before it. */
  predicate Flagged(nodes: seq<Node>, history: set<Pair>) {
    nodes == [] ||
    var front, last := nodes[..|nodes| - 1], nodes[|nodes| - 1];
    Flagged(front, history) && (last.duplicate <==> Key(last) in history + KeysOf(front))
  }

  /** Read at one node: "the pair of a node before it" means some earlier index with that pair. */
  lemma {:induction false} FlaggedAt(nodes: seq<Node>, history: set<Pair>, j: nat)
    requires Flagged(nodes, history) && j < |nodes|
    ensures nodes[j].duplicate <==> Key(nodes[j]) in history || exists i :: 0 <= i < j && Key(nodes[i]) == Key(nodes[j])
  {
    var front := nodes[..|nodes| - 1];
    if j < |nodes| - 1 {
      FlaggedAt(front, history, j);
      assert front[j] == nodes[j];
      if i :| 0 <= i < j && Key(nodes[i]) == Key(nodes[j]) {
        assert Key(front[i]) == Key(front[j]);
      }
    } else {
      var k := Key(nodes[j]);
      assert front == nodes[..j];
      if k in KeysOf(front) {
        KeysOfMembers(front, k);
        var i :| 0 <= i < |front| && Key(front[i]) == k;
        assert Key(nodes[i]) == k;
      }
      if i :| 0 <= i < j && Key(nodes[i]) == k {
        assert front[i] == nodes[i];
        KeysOfHas(front, i);
      }
    }
  }

  lemma {:induction false} FlaggedConcat(a: seq<Node>, b: seq<Node>, history: set<Pair>)
    requires Flagged(a, history) && Flagged(b, history + KeysOf(a))
    ensures Flagged(a + b, history)
    decreases |b|
  {
    if b == [] {
      assert a + b == a;
    } else {
      var ab, front := a + b, b[..|b| - 1];
      FlaggedConcat(a, front, history);
      assert ab[..|ab| - 1] == a + front && ab[|ab| - 1] == b[|b| - 1];
      KeysOfConcat(a, front);
      assert history + KeysOf(a + front) == (history + KeysOf(a)) + KeysOf(front);
    }
  }

  /** The history after emitting is the history before plus the pairs emitted, each flagged as the predicate says. */
  lemma {:induction false} EmitFlags(parent: Node, q1: nat, x: Letter, p: Option<Pair>, history: set<Pair>)
    ensures Flagged(Emit(parent, q1, x, p, history).0, history)
    ensures Emit(parent, q1, x, p, history).1 == history + KeysOf(Emit(parent, q1, x, p, history).0)
  {
    if p.Some? {
      var c := Emit(parent, q1, x, p, history).0;
      assert KeysOf(c) == KeysOf(c[..0]) + {Key(c[0])};
    }
  }

  lemma {:induction false} ExpandAllFlags(level: seq<Node>, q1: nat, count: nat, history: set<Pair>)
    ensures Flagged(ExpandAll(level, q1, count, history).0, history)
  {
    if level != [] {
      var node := level[|level| - 1];
      ExpandAllFlags(level[..|level| - 1], q1, count, history);
      ExpandAllHistory(level[..|level| - 1], q1, count, history);
      var front := ExpandAll(level[..|level| - 1], q1, count, history);
      var h := front.1;
      var r := Emit(node, q1, R, Child(Key(node), count, R), h);
      var h1 := r.1;
      var l := Emit(node, q1, L, Child(Key(node), count, L), h1);
      var rs, ls := r.0, l.0;
      EmitFlags(node, q1, R, Child(Key(node), count, R), h);
      EmitFlags(node, q1, L, Child(Key(node), count, L), h1);
      FlaggedConcat(rs, ls, h);
      KeysOfConcat(rs, ls);
      FlaggedConcat(front.0, rs + ls, history);
    }
  }

  /** Expanding a level adds to the history exactly the pairs of the nodes it emits. */
  lemma {:induction false} ExpandAllHistory(level: seq<Node>, q1: nat, count: nat, history: set<Pair>)
    ensures ExpandAll(level, q1, count, history).1 == history + KeysOf(ExpandAll(level, q1, count, history).0)
  {
    if level != [] {
      var node := level[|level| - 1];
      ExpandAllHistory(level[..|level| - 1], q1, count, history);
      var front := ExpandAll(level[..|level| - 1], q1, count, history);
      var h := front.1;
      var r := Emit(node, q1, R, Child(Key(node), count, R), h);
      var h1 := r.1;
      var l := Emit(node, q1, L, Child(Key(node), count, L), h1);
      var rs, ls := r.0, l.0;
      EmitFlags(node, q1, R, Child(Key(node), count, R), h);
      EmitFlags(node, q1, L, Child(Key(node), count, L), h1);
      KeysOfConcat(rs, ls);
      KeysOfConcat(front.0, rs + ls);
    }
  }

  /** All levels below the root, in order. */
  function Below(t: seq<seq<Node>>): seq<Node> {
    if |t| <= 1 then [] else Below(t[..|t| - 1]) + t[|t| - 1]
  }

  /**
   * A node of the tree is marked as a duplicate exactly when an earlier node below
   * the root, in level order, has the same pair.
   */
  lemma {:induction false} DuplicateMarks(start: Node, count: nat, levels: nat)
    ensures Flagged(Below(DupForest(start, count, levels).0), {})
  {
    if levels > 0 {
      var prev := DupForest(start, count, levels - 1);
      DuplicateMarks(start, count, levels - 1);
      FinalHistory(start, count, levels - 1);
      assert |prev.0| == levels && prev.1 == KeysOf(Below(prev.0)) && Flagged(Below(prev.0), {});
      FlagStep(prev.0, prev.1, levels - 1, count);
      DupForestGrows(start, count, levels);
    }
  }

  /** One more level keeps every node below the root flagged exactly when its pair came earlier. */
  lemma {:induction false} FlagStep(t: seq<seq<Node>>, h: set<Pair>, q1: nat, count: nat)
    requires |t| == q1 + 1 && h == KeysOf(Below(t)) && Flagged(Below(t), {})
    ensures Flagged(Below(t + [ExpandAll(t[q1], q1, count, h).0]), {})
  {
    var next := ExpandAll(t[q1], q1, count, h).0;
    BelowStep(t, next);
    ExpandAllFlags(t[q1], q1, count, h);
    assert {} + KeysOf(Below(t)) == h;
    FlaggedConcat(Below(t), next, {});
  }

  /** The final history holds exactly the pairs of the nodes below the root. */
  lemma {:induction false} FinalHistory(start: Node, count: nat, levels: nat)
    ensures DupForest(start, count, levels).1 == KeysOf(Below(DupForest(start, count, levels).0))
  {
    if levels == 0 {
      assert KeysOf([]) == {};
    } else {
      FinalHistory(start, count, levels - 1);
      FinalHistoryStep(start, count, levels);
    }
  }

  /** The history after one more level is again the set of pairs below the root. */
  lemma {:induction false} FinalHistoryStep(start: Node, count: nat, levels: nat)
    requires levels > 0
    requires DupForest(start, count, levels - 1).1 == KeysOf(Below(DupForest(start, count, levels - 1).0))
    ensures DupForest(start, count, levels).1 == KeysOf(Below(DupForest(start, count, levels).0))
  {
    var prev := DupForest(start, count, levels - 1);
    HistoryStep(prev.0, prev.1, levels - 1, count);
    DupForestGrows(start, count, levels);
  }

  /** One more level keeps "the history is the set of pairs below the root". */
  lemma {:induction false} HistoryStep(t: seq<seq<Node>>, h: set<Pair>, q1: nat, count: nat)
    requires |t| == q1 + 1 && h == KeysOf(Below(t))
    ensures var next := ExpandAll(t[q1], q1, count, h);
            next.1 == KeysOf(Below(t + [next.0]))
  {
    var next := ExpandAll(t[q1], q1, count, h);
    ExpandAllHistory(t[q1], q1, count, h);
    BelowStep(t, next.0);
    KeysOfConcat(Below(t), next.0);
  }

  /** Level `levels` and the history after it come from expanding the level before. */
  lemma {:induction false} DupForestGrows(start: Node, count: nat, levels: nat)
    requires levels > 0
    ensures var prev := DupForest(start, count, levels - 1);
            var next := ExpandAll(prev.0[levels - 1], levels - 1, count, prev.1);
            DupForest(start, count, levels) == (prev.0 + [next.0], next.1)
  {
  }

  lemma {:induction false} BelowStep(t: seq<seq<Node>>, next: seq<Node>)
    requires |t| >= 1
    ensures Below(t + [next]) == Below(t) + next
  {
    assert (t + [next])[..|t|] == t;
  }

  /** The children of one node are siblings: R before L, both keyed by the node's key. */
  lemma {:induction false} ExpandSiblings(node: Node, q1: nat, count: nat, history: set<Pair>)
    ensures Siblings(Expand(node, q1, count, history).0, node, q1)
  {
    var r := Emit(node, q1, R, Child(Key(node), count, R), history);
    var l := Emit(node, q1, L, Child(Key(node), count, L), r.1);
    var pr, pl := Child(Key(node), count, R), Child(Key(node), count, L);
    var dr := pr.Some? && pr.value in history;
    var dl := pl.Some? && pl.value in r.1;
    assert r.0 == ChildNode(node, q1, R, pr, dr) && l.0 == ChildNode(node, q1, L, pl, dl);
    ChildNodesSiblings(node, q1, pr, pl, dr, dl);
  }

  /** Every node of the next level is a child of a node of this level. */
  lemma {:induction false} ExpandAllOrigin(level: seq<Node>, q1: nat, count: nat, history: set<Pair>, c: Node)
    requires c in ExpandAll(level, q1, count, history).0
    ensures exists i :: 0 <= i < |level| && ChildOf(c, level[i], q1)
  {
    var front, last := level[..|level| - 1], level[|level| - 1];
    var a := ExpandAll(front, q1, count, history);
    if c in a.0 {
      ExpandAllOrigin(front, q1, count, history, c);
      var i :| 0 <= i < |front| && ChildOf(c, front[i], q1);
      assert front[i] == level[i];
    } else {
      ExpandSiblings(last, q1, count, a.1);
      assert ChildOf(c, level[|level| - 1], q1);
    }
  }

  /** Children of nodes with distinct keys have distinct routes: no dict entry of the next level is overwritten. */
  lemma {:induction false} ExpandAllDistinct(level: seq<Node>, q1: nat, count: nat, history: set<Pair>)
    requires DistinctKeys(level, q1)
    ensures DistinctKeys(ExpandAll(level, q1, count, history).0, q1 + 1)
  {
    if level != [] {
      var front, last := level[..|level| - 1], level[|level| - 1];
      assert DistinctKeys(front, q1) by {
        forall i, j | 0 <= i < j < |front| ensures EntryKey(front[i], q1) != EntryKey(front[j], q1) {
          assert front[i] == level[i] && front[j] == level[j];
        }
      }
      ExpandAllDistinct(front, q1, count, history);
      var a := ExpandAll(front, q1, count, history);
      forall c | c in a.0
        ensures exists i :: 0 <= i < |level| - 1 && ChildOf(c, level[i], q1)
      {
        ExpandAllOrigin(front, q1, count, history, c);
        var i :| 0 <= i < |front| && ChildOf(c, front[i], q1);
        assert front[i] == level[i];
      }
      ExpandSiblings(last, q1, count, a.1);
      SpawnDistinct(level, q1, a.0, Expand(last, q1, count, a.1).0);
    }
  }

  /** Every level of the memoised tree is a dict: its keys are distinct. */
  lemma {:induction false} DupForestDistinct(start: Node, count: nat, levels: nat, k: nat)
    requires k <= levels
    ensures DistinctKeys(DupForest(start, count, levels).0[k], k)
    decreases levels
  {
    if levels > 0 {
      if k < levels {
        DupForestKeeps(start, count, levels, k);
        DupForestDistinct(start, count, levels - 1, k);
      } else {
        DupForestDistinct(start, count, levels - 1, levels - 1);
        DupForestLastDistinct(start, count, levels);
      }
    }
  }

  /** Growing the tree leaves the levels already built as they were. */
  lemma {:induction false} DupForestKeeps(start: Node, count: nat, levels: nat, k: nat)
    requires k < levels
    ensures DupForest(start, count, levels).0[k] == DupForest(start, count, levels - 1).0[k]
  {
    DupForestGrows(start, count, levels);
  }

  /** The new level has distinct keys when the level it grew from has. */
  lemma {:induction false} DupForestLastDistinct(start: Node, count: nat, levels: nat)
    requires levels > 0 && DistinctKeys(DupForest(start, count, levels - 1).0[levels - 1], levels - 1)
    ensures DistinctKeys(DupForest(start, count, levels).0[levels], levels)
  {
    var prev := DupForest(start, count, levels - 1);
    var next := ExpandAll(prev.0[levels - 1], levels - 1, count, prev.1).0;
    ExpandAllDistinct(prev.0[levels - 1], levels - 1, count, prev.1);
    assert DistinctKeys(next, levels);
    DupForestGrows(start, count, levels);
    assert DupForest(start, count, levels).0 == prev.0 + [next];
    assert DupForest(start, count, levels).0[levels] == next;
  }

  /** A node with its duplicate mark cleared. */
  function Unflag(level: seq<Node>): (r: seq<Node>)
    ensures |r| == |level|
    ensures forall i :: 0 <= i < |level| ==> r[i] == level[i].(duplicate := false)
  {
    if level == [] then [] else Unflag(level[..|level| - 1]) + [level[|level| - 1].(duplicate := false)]
  }

  /** The plain builder only reads pairs and routes, never marks. */
  lemma {:induction false} NextNodesIgnoresMarks(level: seq<Node>, q1: nat)
    ensures NodeTree.NextNodes(level, q1) == NodeTree.NextNodes(Unflag(level), q1)
  {
    if level != [] {
      assert Unflag(level)[..|level| - 1] == Unflag(level[..|level| - 1]);
      NextNodesIgnoresMarks(level[..|level| - 1], q1);
    }
  }

  lemma {:induction false} UnflagConcat(a: seq<Node>, b: seq<Node>)
    ensures Unflag(a + b) == Unflag(a) + Unflag(b)
  {
  }

  /** Memoisation and duplicate marks aside, a level grows as in the plain builder. */
  lemma {:induction false} ExpandAllIsNextNodes(level: seq<Node>, q1: nat, history: set<Pair>)
    ensures NodeTree.NextNodes(level, q1).Ok?
    ensures Unflag(ExpandAll(level, q1, NodeTree.SeedCount, history).0) == NodeTree.NextNodes(level, q1).value
  {
    NodeTree.NextNodesNeverFail(level, q1);
    if level != [] {
      var node := level[|level| - 1];
      ExpandAllIsNextNodes(level[..|level| - 1], q1, history);
      var front := ExpandAll(level[..|level| - 1], q1, NodeTree.SeedCount, history);
      var r := Emit(node, q1, R, Child(Key(node), NodeTree.SeedCount, R), front.1);
      var l := Emit(node, q1, L, Child(Key(node), NodeTree.SeedCount, L), r.1);
      var rs, ls := r.0, l.0;
      UnflagConcat(front.0, rs + ls);
      UnflagConcat(rs, ls);
      ChildPatternNeverFails(Key(node), NodeTree.SeedCount, NodeTree.MinRun, R);
      ChildPatternNeverFails(Key(node), NodeTree.SeedCount, NodeTree.MinRun, L);
      EmitUnflagged(node, q1, R, Child(Key(node), NodeTree.SeedCount, R), front.1);
      EmitUnflagged(node, q1, L, Child(Key(node), NodeTree.SeedCount, L), r.1);
    }
  }

  /** Without its mark, an emitted child is the plain builder's child. */
  lemma {:induction false} EmitUnflagged(parent: Node, q1: nat, x: Letter, p: Option<Pair>, history: set<Pair>)
    ensures Unflag(Emit(parent, q1, x, p, history).0) == ChildNode(parent, q1, x, p, false)
  {
    if p.Some? {
      var c := Emit(parent, q1, x, p, history).0;
      assert Unflag(c) == [c[0].(duplicate := false)];
    }
  }

  lemma {:induction false} UnflagTwice(level: seq<Node>)
    ensures Unflag(Unflag(level)) == Unflag(level)
  {
  }

  /** Levels equal up to marks grow into next levels equal up to marks. */
  lemma {:induction false} NextLevelSame(d: seq<Node>, p: seq<Node>, q1: nat, history: set<Pair>)
    requires Unflag(d) == Unflag(p)
    ensures NodeTree.NextNodes(p, q1).Ok?
    ensures Unflag(ExpandAll(d, q1, NodeTree.SeedCount, history).0) == NodeTree.NextNodes(p, q1).value
  {
    ExpandAllIsNextNodes(d, q1, history);
    NextNodesIgnoresMarks(d, q1);
    NextNodesIgnoresMarks(p, q1);
  }

  /** Two trees with the same levels once the duplicate marks are cleared. */
  predicate SameUpToMarks(d: seq<seq<Node>>, p: seq<seq<Node>>) {
    |d| == |p| && forall k :: 0 <= k < |d| ==> Unflag(d[k]) == Unflag(p[k])
  }

  lemma {:induction false} SameSnoc(d: seq<seq<Node>>, p: seq<seq<Node>>, e: seq<Node>, g: seq<Node>)
    requires SameUpToMarks(d, p) && Unflag(e) == Unflag(g)
    ensures SameUpToMarks(d + [e], p + [g])
  {
    forall k | 0 <= k < |d| + 1
      ensures Unflag((d + [e])[k]) == Unflag((p + [g])[k])
    {
      if k < |d| {
        assert (d + [e])[k] == d[k] && (p + [g])[k] == p[k];
      }
    }
  }

  /** Trees equal up to marks stay so when each grows by its next level. */
  lemma {:induction false} SameStep(t: seq<seq<Node>>, h: set<Pair>, plain: seq<seq<Node>>, q1: nat)
    requires |t| == q1 + 1 && SameUpToMarks(t, plain)
    ensures NodeTree.NextNodes(plain[q1], q1).Ok?
    ensures SameUpToMarks(t + [ExpandAll(t[q1], q1, NodeTree.SeedCount, h).0],
                          plain + [NodeTree.NextNodes(plain[q1], q1).value])
  {
    NextLevelSame(t[q1], plain[q1], q1, h);
    var grown := NodeTree.NextNodes(plain[q1], q1).value;
    UnflagTwice(grown);
    SameSnoc(t, plain, ExpandAll(t[q1], q1, NodeTree.SeedCount, h).0, grown);
  }

  /**
   * With the program's 32 seeds the memoised builder grows the same tree as the
   * plain one of `2025/z5/z4/7.py`, level by level, up to the duplicate marks.
   */
  lemma {:induction false} SameTreeAsPlain(start: Node, levels: nat)
    ensures NodeTree.Forest(start, levels).Ok?
    ensures SameUpToMarks(DupForest(start, NodeTree.SeedCount, levels).0, NodeTree.Forest(start, levels).value)
  {
    NodeTree.ForestNeverFails(start, levels);
    if levels > 0 {
      SameTreeAsPlain(start, levels - 1);
      SameTreeStep(start, levels);
    }
  }

  /** One more level of both builders keeps the trees equal up to marks. */
  lemma {:induction false} SameTreeStep(start: Node, levels: nat)
    requires levels > 0 && NodeTree.Forest(start, levels - 1).Ok?
    requires SameUpToMarks(DupForest(start, NodeTree.SeedCount, levels - 1).0, NodeTree.Forest(start, levels - 1).value)
    ensures NodeTree.Forest(start, levels).Ok?
    ensures SameUpToMarks(DupForest(start, NodeTree.SeedCount, levels).0, NodeTree.Forest(start, levels).value)
  {
    NodeTree.ForestNeverFails(start, levels);
    var prev := DupForest(start, NodeTree.SeedCount, levels - 1);
    var plain := NodeTree.Forest(start, levels - 1).value;
    SameStep(prev.0, prev.1, plain, levels - 1);
    DupForestGrows(start, NodeTree.SeedCount, levels);
    NodeTree.ForestStep(start, levels);
  }


  /** The pair `(-1, -1)` that `historial_de_resultados` stores for a missing child. */
  function Sentinel(p: Option<Pair>): (t: Pair)
    ensures t == (-1, -1) <==> p.None? || p == Some((-1, -1))
  {
    if p.None? then (-1, -1) else p.value
  }

  /** Reading a stored pair back: `if tupleR != (-1, -1)`. */
  function FromSentinel(t: Pair): (p: Option<Pair>)
    ensures Sentinel(p) == t
    ensures p.None? <==> t == (-1, -1)
  {
    if t != (-1, -1) then Some(t) else None
  }

  /** The sentinel encoding loses exactly one child: the genuine pair (-1, -1). */
  lemma {:induction false} SentinelRoundTrip(p: Option<Pair>)
    ensures FromSentinel(Sentinel(p)) == p <==> p != Some((-1, -1))
  {
  }

  /** As written: the memo-hit path, emitting the children decoded from a stored sentinel pair. */
  function ExpandFromSentinels(node: Node, q1: nat, stored: (Pair, Pair), history: set<Pair>): (e: (seq<Node>, set<Pair>))
    ensures |e.0| == (if stored.0 == (-1, -1) then 0 else 1) + (if stored.1 == (-1, -1) then 0 else 1)
    ensures Flagged(e.0, history) && e.1 == history + KeysOf(e.0)
  {
    var r := Emit(node, q1, R, FromSentinel(stored.0), history);
    var l := Emit(node, q1, L, FromSentinel(stored.1), r.1);
    EmitFlags(node, q1, R, FromSentinel(stored.0), history);
    EmitFlags(node, q1, L, FromSentinel(stored.1), r.1);
    FlaggedConcat(r.0, l.0, history);
    KeysOfConcat(r.0, l.0);
    (r.0 + l.0, l.1)
  }

  /**
   * The node (-1, -1), over 32 seeds, has itself as R child: its even seeds -2, ..., -32
   * halve to -1, ..., -16. Grown from (-1, -1), level 1 therefore starts with a node
   * whose pair is already in the memo, and the source takes the hit path for it.
   */
  lemma {:induction false} SelfChild(start: Node)
    requires Key(start) == (-1, -1)
    ensures ChildPattern((-1, -1), 32, 16, R) == Ok(Some((-1, -1)))
    ensures ChildPattern((-1, -1), 32, 16, L) == Ok(Some((-2, -6)))
    ensures Key(DupForest(start, 32, 1).0[1][0]) == (-1, -1)
    ensures DupForest(start, 32, 1).0[1][0].route == [N, R]
  {
    ChildIsPattern((-1, -1), 32, R);
    ChildIsPattern((-1, -1), 32, L);
    DupForestGrows(start, 32, 1);
    assert [start][..0] == [];
  }

  /**
   * On that hit the as-written decoding drops the R child that recomputation
   * (and the None-based memo of this model) produces.
   */
  lemma {:induction false} SentinelLosesChild(node: Node, q1: nat, history: set<Pair>)
    requires Key(node) == (-1, -1)
    ensures var stored := (Sentinel(Child(Key(node), 32, R)), Sentinel(Child(Key(node), 32, L)));
            |Expand(node, q1, 32, history).0| == 2
            && Expand(node, q1, 32, history).0[0].route == EntryKey(node, q1) + [R]
            && |ExpandFromSentinels(node, q1, stored, history).0| == 1
            && ExpandFromSentinels(node, q1, stored, history).0[0].route == EntryKey(node, q1) + [L]
  {
    SelfChild(node);
  }

  /** Wherever no child is the pair (-1, -1), the as-written hit path agrees with recomputation. */
  lemma {:induction false} SentinelHarmless(node: Node, q1: nat, count: nat, history: set<Pair>)
    requires Child(Key(node), count, R) != Some((-1, -1)) && Child(Key(node), count, L) != Some((-1, -1))
    ensures ExpandFromSentinels(node, q1, (Sentinel(Child(Key(node), count, R)), Sentinel(Child(Key(node), count, L))), history)
            == Expand(node, q1, count, history)
  {
    SentinelRoundTrip(Child(Key(node), count, R));
    SentinelRoundTrip(Child(Key(node), count, L));
  }
}
