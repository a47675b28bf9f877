/**
 * `NodoCollatz`: a node stands for the seeds `desplazamiento + progresion * q`,
 * q = 0, 1, ..., regenerated on demand; a child is the (start, step) pair that
 * `detectar_patron` finds in the Collatz images of the parent's seeds of one parity.
 */
module CollatzNodes {
  import opened Routes
  import opened CollatzSteps
  import opened CollatzTree
  import opened IntArith

  /** `NodoCollatz(desplazamiento, progresion, ruta, nivel, es_duplicado)`. */
  datatype Node = Node(offset: int, step: int, route: Route, level: nat, duplicate: bool)

  /** `mytuple`: the pair a node is keyed by. */
  function Key(node: Node): (int, int) {
    (node.offset, node.step)
  }

  /** `GenerateList(xrange)`: the first `count` seeds of the node. */
  method GenerateList(node: Node, count: nat) returns (list: seq<int>)
    ensures list == Arith(node.offset, node.step, count)
  {
    list := [];
    for q := 0 to count
      invariant list == Arith(node.offset, node.step, q)
    {
      list := list + [node.step * q + node.offset];
    }
  }

  /** Two or more seeds determine the node's pair, so a recognised pair regenerates exactly its list. */
  lemma {:induction false} ArithDeterminesPair(a: int, s: int, b: int, t: int, k: nat)
    requires k >= 2 && Arith(a, s, k) == Arith(b, t, k)
    ensures a == b && s == t
  {
    assert Arith(a, s, k)[0] == a && Arith(b, t, k)[0] == b;
    assert Arith(a, s, k)[1] == s + a && Arith(b, t, k)[1] == t + b;
  }

  /** Whether a value's step takes branch x (x being R or L). */
  predicate Matches(v: int, x: Letter) {
    (v % 2 == 0) == (x == R)
  }

  /** The position, 0 or 1, of the first seed that can take branch x when the step is odd. */
  function FirstMatch(a: int, x: Letter): nat {
    if Matches(a, x) then 0 else 1
  }

  /** The step of a child progression: even steps keep every seed's parity, odd steps alternate it. */
  function ChildStep(s: int, x: Letter): int {
    if s % 2 == 0 then (if x == R then s / 2 else 3 * s) else (if x == R then s else 6 * s)
  }

  /** How many of the first n seeds take branch x. */
  function ChildCount(a: int, s: int, n: nat, x: Letter): nat {
    if s % 2 == 0 then (if Matches(a, x) then n else 0) else (n + 1 - FirstMatch(a, x)) / 2
  }

  /** The first value of a child progression. */
  function ChildStart(a: int, s: int, x: Letter): int {
    Collatz(s * FirstMatch(a, x) + a).0
  }

  /** The parity of seed m of the progression a, a + s, ...: that of a for even s, that of m + a for odd s. */
  lemma {:induction false} Parity(s: int, m: int, a: int)
    ensures (s * m + a) % 2 == if s % 2 == 0 then a % 2 else (m + a) % 2
  {
    var h, r := s / 2, s % 2;
    Distrib(m, 2 * h, r);
    MulSwap(2, h, m);
    var rest := if r == 0 then a else m + a;
    assert s * m + a == 2 * (h * m) + rest;
    EvenShift(rest, h * m);
  }

  lemma {:induction false} Distribute(s: int, q: int, t: int)
    ensures s * (q + 2 * t) == s * q + 2 * (s * t)
  {
  }

  /**
   * The parity split of a progression is again a progression on each side: the
   * images of the seeds taking branch x are ChildCount terms from ChildStart by
   * ChildStep. This is what lets a child be stored as a pair.
   */
  lemma {:induction false} ImagesOfArith(a: int, s: int, n: nat, x: Letter)
    requires x == R || x == L
    ensures Images(Arith(a, s, n), x) == Arith(ChildStart(a, s, x), ChildStep(s, x), ChildCount(a, s, n, x))
  {
    if n > 0 {
      ImagesOfArith(a, s, n - 1, x);
      ImagesOfArithStep(a, s, n - 1, x);
    }
  }

  /** One more seed of the progression adds the next child value exactly when it takes branch x. */
  lemma {:induction false} ImagesOfArithStep(a: int, s: int, m: nat, x: Letter)
    requires x == R || x == L
    requires Images(Arith(a, s, m), x) == Arith(ChildStart(a, s, x), ChildStep(s, x), ChildCount(a, s, m, x))
    ensures Images(Arith(a, s, m + 1), x) == Arith(ChildStart(a, s, x), ChildStep(s, x), ChildCount(a, s, m + 1, x))
  {
    var v := s * m + a;
    ArithSnoc(a, s, m);
    ImagesSnoc(Arith(a, s, m), v, x);
    if Matches(v, x) {
      NextImage(a, s, m, x);
      ArithSnoc(ChildStart(a, s, x), ChildStep(s, x), ChildCount(a, s, m, x));
    } else {
      NoImage(a, s, m, x);
    }
  }

  lemma {:induction false} NextImage(a: int, s: int, m: nat, x: Letter)
    requires x == R || x == L
    requires Matches(s * m + a, x)
    ensures ChildCount(a, s, m + 1, x) == ChildCount(a, s, m, x) + 1
    ensures Collatz(s * m + a).0 == ChildStep(s, x) * ChildCount(a, s, m, x) + ChildStart(a, s, x)
  {
    Parity(s, m, a);
    if s % 2 == 0 {
      NextImageEvenStep(a, s, m, x);
    } else {
      NextImageOddStep(a, s, m, x);
    }
  }

  lemma {:induction false} NextImageEvenStep(a: int, s: int, m: nat, x: Letter)
    requires x == R || x == L
    requires s % 2 == 0 && Matches(a, x) && Matches(s * m + a, x)
    ensures Collatz(s * m + a).0 == ChildStep(s, x) * m + Collatz(a).0
  {
    var h := s / 2;
    assert s * m == 2 * (h * m);
    if x == L {
      assert (3 * s) * m == 3 * (s * m);
    }
  }

  lemma {:induction false} NextImageOddStep(a: int, s: int, m: nat, x: Letter)
    requires x == R || x == L
    requires s % 2 != 0 && Matches(s * m + a, x)
    ensures ChildCount(a, s, m + 1, x) == ChildCount(a, s, m, x) + 1
    ensures Collatz(s * m + a).0 == ChildStep(s, x) * ChildCount(a, s, m, x) + ChildStart(a, s, x)
  {
    var q0 := FirstMatch(a, x);
    var t := OddMatchIndex(a, s, m, x);
    assert ChildCount(a, s, m, x) == t;
    FirstMatchMatches(a, s, x);
    OddImage(s * q0 + a, s, t, x);
    Distribute(s, q0, t);
  }

  /** With an odd step, the seed at FirstMatch takes branch x. */
  lemma {:induction false} FirstMatchMatches(a: int, s: int, x: Letter)
    requires x == R || x == L
    requires s % 2 != 0
    ensures Matches(s * FirstMatch(a, x) + a, x)
  {
    Parity(s, FirstMatch(a, x), a);
  }

  /** With an odd step the seeds alternate parity: those taking branch x sit at FirstMatch, FirstMatch + 2, ... */
  lemma {:induction false} OddMatchIndex(a: int, s: int, m: nat, x: Letter) returns (t: nat)
    requires x == R || x == L
    requires s % 2 != 0 && Matches(s * m + a, x)
    ensures m == FirstMatch(a, x) + 2 * t
  {
    Parity(s, m, a);
    t := MatchIndex(s * m + a, m, a, x);
  }

  /** A seed v at position m that has the parity of m + a and takes branch x sits at FirstMatch + 2t. */
  lemma {:induction false} MatchIndex(v: int, m: nat, a: int, x: Letter) returns (t: nat)
    requires x == R || x == L
    requires v % 2 == (m + a) % 2 && Matches(v, x)
    ensures m == FirstMatch(a, x) + 2 * t
  {
    var q0 := FirstMatch(a, x);
    assert (m + a) % 2 == (q0 + a) % 2;
    t := (m - q0) / 2;
  }

  /** Seeds 2s apart taking the same branch have images s (R) or 6s (L) apart. */
  lemma {:induction false} OddImage(b: int, s: int, t: int, x: Letter)
    requires x == R || x == L
    requires Matches(b, x)
    ensures Collatz(b + 2 * (s * t)).0 == ChildStep(s, x) * t + Collatz(b).0 || s % 2 == 0
  {
    if s % 2 != 0 && x == L {
      assert (6 * s) * t == 6 * (s * t);
    }
  }

  lemma {:induction false} NoImage(a: int, s: int, m: nat, x: Letter)
    requires x == R || x == L
    requires !Matches(s * m + a, x)
    ensures ChildCount(a, s, m + 1, x) == ChildCount(a, s, m, x)
  {
    Parity(s, m, a);
    NoMatchCount(s * m + a, a, s, m, x);
  }

  /** A seed v at position m, with the parity Parity gives it, that misses branch x leaves the count unchanged. */
  lemma {:induction false} NoMatchCount(v: int, a: int, s: int, m: nat, x: Letter)
    requires x == R || x == L
    requires v % 2 == (if s % 2 == 0 then a % 2 else (m + a) % 2) && !Matches(v, x)
    ensures ChildCount(a, s, m + 1, x) == ChildCount(a, s, m, x)
  {
    if s % 2 != 0 {
      var q0 := FirstMatch(a, x);
      assert (m + a) % 2 != (q0 + a) % 2;
      assert (m + 1 - q0) % 2 == 0;
    }
  }

  /** A side of the split is empty or holds at least half the seeds, rounded down. */
  lemma {:induction false} ChildCountBound(a: int, s: int, n: nat, x: Letter)
    ensures ChildCount(a, s, n, x) == 0 || ChildCount(a, s, n, x) >= n / 2
  {
  }

  /**
   * The pattern of the child on branch x of the node keyed (offset, step): none when
   * at most one of the first `count` seeds takes that branch (`len(r) > 1` fails),
   * otherwise what the raising `detectar_patron` makes of the images, with `minLen`
   * its length threshold.
   */
  function ChildPattern(key: (int, int), count: nat, minLen: int, x: Letter): (r: Outcome<Option<(int, int)>>)
    ensures var group := Images(Arith(key.0, key.1, count), x);
            (r == Ok(None) <==> |group| <= 1)
            && (r == Fail(TooShort) <==> 1 < |group| < minLen)
            && (r.Ok? && r.value.Some? ==> Arith(r.value.value.0, r.value.value.1, |group|) == group)
  {
    var group := Images(Arith(key.0, key.1, count), x);
    if |group| > 1 then
      match DetectProgression(group, minLen)
      case Ok(p) => Ok(Some(p))
      case Fail(e) => Fail(e)
    else Ok(None)
  }

  /**
   * With a threshold of at most half the seeds the classifier never raises: a child
   * exists exactly when more than one seed takes the branch, and it is the pair of
   * the closed form above.
   */
  lemma {:induction false} ChildPatternNeverFails(key: (int, int), count: nat, minLen: int, x: Letter)
    requires x == R || x == L
    requires minLen <= count / 2
    ensures ChildPattern(key, count, minLen, x)
            == Ok(if ChildCount(key.0, key.1, count, x) > 1
                  then Some((ChildStart(key.0, key.1, x), ChildStep(key.1, x)))
                  else None)
  {
    var a, s := key.0, key.1;
    ImagesOfArith(a, s, count, x);
    ChildCountBound(a, s, count, x);
    var k := ChildCount(a, s, count, x);
    if k > 1 {
      DetectProgressionArith(ChildStart(a, s, x), ChildStep(s, x), k, minLen);
    }
  }

  /** A child's pair regenerates exactly the images of the parent's seeds that took its branch. */
  lemma {:induction false} ChildRegenerates(key: (int, int), count: nat, minLen: int, x: Letter)
    requires ChildPattern(key, count, minLen, x).Ok? && ChildPattern(key, count, minLen, x).value.Some?
    ensures var p := ChildPattern(key, count, minLen, x).value.value;
            var group := Images(Arith(key.0, key.1, count), x);
            |group| > 1 && Arith(p.0, p.1, |group|) == group
  {
  }

  /**
   * The dict key under which a node of depth q1 is stored: the root dict is
   * `{"N": nodo_de_Inicio}` whatever the start node's own `ruta`, and every later
   * node is stored under the route it was created with.
   */
  function EntryKey(node: Node, q1: nat): (key: Route)
    ensures q1 == 0 ==> key == [N]
    ensures q1 > 0 ==> key == node.route
  {
    if q1 == 0 then [N] else node.route
  }

  /** The child node a pattern gives on branch x at depth q1 + 1, if any, keyed by the parent's key plus x. */
  function ChildNode(parent: Node, q1: nat, x: Letter, p: Option<(int, int)>, duplicate: bool): (r: seq<Node>)
    ensures |r| == if p.None? then 0 else 1
    ensures |r| == 1 ==> r[0].route == EntryKey(parent, q1) + [x] && r[0].level == q1 + 1
  {
    if p.None? then [] else [Node(p.value.0, p.value.1, EntryKey(parent, q1) + [x], q1 + 1, duplicate)]
  }

  /** The keys of a level of depth q1 are pairwise different: the list stands for a dict. */
  predicate DistinctKeys(level: seq<Node>, q1: nat) {
    forall i, j :: 0 <= i < j < |level| ==> EntryKey(level[i], q1) != EntryKey(level[j], q1)
  }

  /** A node's route is its parent's key followed by one letter. */
  predicate ChildOf(c: Node, parent: Node, q1: nat) {
    |c.route| >= 1 && c.route[..|c.route| - 1] == EntryKey(parent, q1)
  }

  /** At most two children of `parent`, on different branches. */
  predicate Siblings(cs: seq<Node>, parent: Node, q1: nat) {
    |cs| <= 2
    && (forall c :: c in cs ==> ChildOf(c, parent, q1))
    && (|cs| == 2 ==> cs[0].route != cs[1].route)
  }

  /** The R child then the L child of one node are siblings. */
  lemma {:induction false} ChildNodesSiblings(parent: Node, q1: nat, pr: Option<(int, int)>, pl: Option<(int, int)>, dr: bool, dl: bool)
    ensures Siblings(ChildNode(parent, q1, R, pr, dr) + ChildNode(parent, q1, L, pl, dl), parent, q1)
  {
    var cs := ChildNode(parent, q1, R, pr, dr) + ChildNode(parent, q1, L, pl, dl);
    forall c | c in cs ensures ChildOf(c, parent, q1) {
      assert c.route[..|c.route| - 1] == EntryKey(parent, q1);
    }
    if |cs| == 2 {
      var k := |EntryKey(parent, q1)|;
      assert cs[0].route[k] == R && cs[1].route[k] == L;
    }
  }

  /**
   * A level built parent by parent keeps distinct keys: children of different parents
   * differ in the parent key, and siblings in the last letter.
   */
  lemma {:induction false} SpawnDistinct(level: seq<Node>, q1: nat, a: seq<Node>, b: seq<Node>)
    requires |level| >= 1 && DistinctKeys(level, q1) && DistinctKeys(a, q1 + 1)
    requires forall c :: c in a ==> exists i :: 0 <= i < |level| - 1 && ChildOf(c, level[i], q1)
    requires Siblings(b, level[|level| - 1], q1)
    ensures DistinctKeys(a + b, q1 + 1)
  {
    var g := level[|level| - 1];
    forall i, j | 0 <= i < |a| && 0 <= j < |b|
      ensures a[i].route != b[j].route
    {
      assert a[i] in a && b[j] in b;
      var p :| 0 <= p < |level| - 1 && ChildOf(a[i], level[p], q1);
      assert EntryKey(level[p], q1) != EntryKey(g, q1);
    }
    var ab := a + b;
    forall i, j | 0 <= i < j < |ab|
      ensures EntryKey(ab[i], q1 + 1) != EntryKey(ab[j], q1 + 1)
    {
      if j < |a| {
        assert ab[i] == a[i] && ab[j] == a[j];
      } else if i >= |a| {
        assert ab[i] == b[0] && ab[j] == b[1];
      } else {
        assert ab[i] == a[i] && ab[j] == b[j - |a|];
      }
    }
  }
}

/** `2025/z5/z4/7.py`: the node tree with 32 regenerated seeds and a classifier that needs 16 values. */
module NodeTree {
  import opened Routes
  import opened CollatzSteps
  import opened CollatzTree
  import opened CollatzNodes

  /** `GenerateList(32)`. */
  const SeedCount: nat := 32

  /** `if len(valores) < 16: raise ValueError("muyCorto")`. */
  const MinRun: int := 16

  /** The children `generar_arbol` creates for one node at depth q1: R child, then L child. */
  function NodeChildren(node: Node, q1: nat): Outcome<seq<Node>> {
    match ChildPattern(Key(node), SeedCount, MinRun, R)
    case Fail(e) => Fail(e)
    case Ok(pr) =>
      match ChildPattern(Key(node), SeedCount, MinRun, L)
      case Fail(e) => Fail(e)
      case Ok(pl) => Ok(ChildNode(node, q1, R, pr, false) + ChildNode(node, q1, L, pl, false))
  }

  /** The next level, node by node; the first exception stops everything. */
  function NextNodes(level: seq<Node>, q1: nat): Outcome<seq<Node>> {
    if level == [] then Ok([])
    else
      match NextNodes(level[..|level| - 1], q1)
      case Fail(e) => Fail(e)
      case Ok(front) =>
        match NodeChildren(level[|level| - 1], q1)
        case Fail(e) => Fail(e)
        case Ok(cs) => Ok(front + cs)
  }

  /** `generar_arbol(nodo_de_Inicio, niveles)` as a value: the levels, or the exception it raises. */
  function Forest(start: Node, levels: nat): (r: Outcome<seq<seq<Node>>>)
    ensures r.Ok? ==> |r.value| == levels + 1 && r.value[0] == [start]
  {
    if levels == 0 then Ok([[start]])
    else
      match Forest(start, levels - 1)
      case Fail(e) => Fail(e)
      case Ok(t) =>
        match NextNodes(t[levels - 1], levels - 1)
        case Fail(e) => Fail(e)
        case Ok(next) => Ok(t + [next])
  }

  /** Classifying one side of the split: nothing for at most one value, else the raising `detectar_patron`. */
  method ClassifySide(node: Node, group: seq<int>, x: Letter) returns (result: Outcome<Option<(int, int)>>)
    requires group == Images(Arith(node.offset, node.step, SeedCount), x)
    ensures result == ChildPattern(Key(node), SeedCount, MinRun, x)
  {
    if |group| > 1 {
      var p := DetectProgression(group, MinRun);
      if p.Fail? {
        return Fail(p.error);
      }
      return Ok(Some(p.value));
    }
    return Ok(None);
  }

  /** The body of the node loop: regenerate, split by parity, classify each side with more than one value. */
  method ExpandNode(node: Node, q1: nat) returns (result: Outcome<seq<Node>>)
    ensures result == NodeChildren(node, q1)
  {
    var seeds := GenerateList(node, SeedCount);
    var r, l := SplitByParity(seeds);
    var pr := ClassifySide(node, r, R);
    if pr.Fail? {
      return Fail(pr.error);
    }
    var pl := ClassifySide(node, l, L);
    if pl.Fail? {
      return Fail(pl.error);
    }
    return Ok(ChildNode(node, q1, R, pr.value, false) + ChildNode(node, q1, L, pl.value, false));
  }

  /** One iteration of the level loop. */
  method ExpandLevel(level: seq<Node>, q1: nat) returns (result: Outcome<seq<Node>>)
    ensures result == NextNodes(level, q1)
  {
    var next := [];
    for i := 0 to |level|
      invariant NextNodes(level[..i], q1) == Ok(next)
    {
      assert level[..i + 1][..i] == level[..i];
      var children := ExpandNode(level[i], q1);
      if children.Fail? {
        NextNodesFailPersists(level, i + 1, q1);
        return Fail(children.error);
      }
      next := next + children.value;
    }
    assert level[..|level|] == level;
    return Ok(next);
  }

  lemma {:induction false} NextNodesFailPersists(level: seq<Node>, i: nat, q1: nat)
    requires i <= |level| && NextNodes(level[..i], q1).Fail?
    ensures NextNodes(level, q1) == NextNodes(level[..i], q1)
    decreases |level| - i
  {
    if i < |level| {
      assert level[..i + 1][..i] == level[..i];
      NextNodesFailPersists(level, i + 1, q1);
    } else {
      assert level[..i] == level;
    }
  }

  lemma {:induction false} ForestFailPersists(start: Node, k: nat, levels: nat)
    requires k <= levels && Forest(start, k).Fail?
    ensures Forest(start, levels) == Forest(start, k)
    decreases levels - k
  {
    if k < levels {
      ForestFailPersists(start, k + 1, levels);
    }
  }

  /** `generar_arbol`: `{"N": start}`, then one level per iteration, unless `detectar_patron` raises. */
  method GenerarArbol(start: Node, levels: nat) returns (result: Outcome<seq<seq<Node>>>)
    ensures result == Forest(start, levels)
  {
    var tree := [[start]];
    for q1 := 0 to levels
      invariant |tree| == q1 + 1
      invariant Forest(start, q1) == Ok(tree)
    {
      var next := ExpandLevel(tree[q1], q1);
      if next.Fail? {
        assert Forest(start, q1 + 1) == Fail(next.error);
        ForestFailPersists(start, q1 + 1, levels);
        return Fail(next.error);
      }
      assert Forest(start, q1 + 1) == Ok(tree + [next.value]);
      tree := tree + [next.value];
    }
    return Ok(tree);
  }

  /** With 32 seeds and a threshold of 16 the classifier never raises, so the tree is always built. */
  lemma {:induction false} ForestNeverFails(start: Node, levels: nat)
    ensures Forest(start, levels).Ok?
  {
    if levels > 0 {
      ForestNeverFails(start, levels - 1);
      NextNodesNeverFail(Forest(start, levels - 1).value[levels - 1], levels - 1);
    }
  }

  lemma {:induction false} NextNodesNeverFail(level: seq<Node>, q1: nat)
    ensures NextNodes(level, q1).Ok?
  {
    if level != [] {
      NextNodesNeverFail(level[..|level| - 1], q1);
      ChildPatternNeverFails(Key(level[|level| - 1]), SeedCount, MinRun, R);
      ChildPatternNeverFails(Key(level[|level| - 1]), SeedCount, MinRun, L);
    }
  }

  /**
   * Every node of the next level is a child of a node of this level: its route
   * extends the parent's by R or L, its depth is q1 + 1, and its pair regenerates
   * the images of the parent's seeds on that branch.
   */
  lemma {:induction false} NextNodeOrigin(level: seq<Node>, q1: nat, c: Node) returns (i: nat, x: Letter)
    requires NextNodes(level, q1).Ok? && c in NextNodes(level, q1).value
    ensures i < |level| && (x == R || x == L)
    ensures c.route == EntryKey(level[i], q1) + [x] && c.level == q1 + 1 && !c.duplicate
    ensures ChildPattern(Key(level[i]), SeedCount, MinRun, x) == Ok(Some(Key(c)))
    ensures Arith(c.offset, c.step, |Images(Arith(level[i].offset, level[i].step, SeedCount), x)|)
            == Images(Arith(level[i].offset, level[i].step, SeedCount), x)
    decreases |level|
  {
    var front, last := level[..|level| - 1], level[|level| - 1];
    if NextNodes(front, q1).Ok? && c in NextNodes(front, q1).value {
      i, x := NextNodeOrigin(front, q1, c);
    } else {
      i := |level| - 1;
      var pr := ChildPattern(Key(last), SeedCount, MinRun, R).value;
      if c in ChildNode(last, q1, R, pr, false) {
        x := R;
      } else {
        x := L;
      }
      ChildRegenerates(Key(last), SeedCount, MinRun, x);
    }
  }

  /** A built tree extends the tree one level shorter by the next level of its last row. */
  lemma {:induction false} ForestStep(start: Node, levels: nat)
    requires levels > 0 && Forest(start, levels).Ok?
    ensures Forest(start, levels - 1).Ok?
    ensures NextNodes(Forest(start, levels - 1).value[levels - 1], levels - 1).Ok?
    ensures Forest(start, levels).value
            == Forest(start, levels - 1).value + [NextNodes(Forest(start, levels - 1).value[levels - 1], levels - 1).value]
  {
  }

  /**
   * Grown from a root at depth 0 with route "N", level k holds nodes at depth k
   * whose routes are "N" followed by k letters R or L.
   */
  lemma {:induction false} ForestShape(start: Node, levels: nat, k: nat, c: Node)
    requires start.level == 0 && start.route == [N]
    requires Forest(start, levels).Ok? && k <= levels && c in Forest(start, levels).value[k]
    ensures c.level == k && |c.route| == k + 1 && c.route[0] == N && IsChoice(c.route[1..])
    decreases levels
  {
    if levels > 0 {
      ForestStep(start, levels);
      var prev := Forest(start, levels - 1).value;
      if k < levels {
        assert Forest(start, levels).value[k] == prev[k];
        ForestShape(start, levels - 1, k, c);
      } else {
        var parent := LastLevelParent(start, levels, c);
        ForestShape(start, levels - 1, levels - 1, parent);
      }
    }
  }

  /** A node of the last level has a parent on the level before, and inherits its shape one letter longer. */
  lemma {:induction false} LastLevelParent(start: Node, levels: nat, c: Node) returns (parent: Node)
    requires levels > 0 && Forest(start, levels).Ok? && c in Forest(start, levels).value[levels]
    ensures Forest(start, levels - 1).Ok? && parent in Forest(start, levels - 1).value[levels - 1]
    ensures c.level == levels
    ensures |parent.route| == levels && parent.route[0] == N && IsChoice(parent.route[1..])
            ==> |c.route| == levels + 1 && c.route[0] == N && IsChoice(c.route[1..])
  {
    ForestStep(start, levels);
    var q: nat := levels - 1;
    var t := Forest(start, q).value;
    var above := t[q];
    var next := NextNodes(above, q);
    NextNodesNeverFail(above, q);
    assert Forest(start, levels).value == t + [next.value];
    assert next.Ok? && c in next.value;
    parent := ChildShape(above, q, c);
  }

  /** A node of the next level sits one deeper than a parent of this level, whose route it extends by R or L. */
  lemma {:induction false} ChildShape(level: seq<Node>, q1: nat, c: Node) returns (parent: Node)
    requires NextNodes(level, q1).Ok? && c in NextNodes(level, q1).value
    ensures parent in level && c.level == q1 + 1
    ensures |parent.route| == q1 + 1 && parent.route[0] == N && IsChoice(parent.route[1..])
            ==> |c.route| == q1 + 2 && c.route[0] == N && IsChoice(c.route[1..])
  {
    var i, x := NextNodeOrigin(level, q1, c);
    parent := level[i];
    if q1 == 0 {
      assert c.route == [N, x] && c.route[1..] == [x];
      ChoiceSnoc([], x);
    } else if |parent.route| == q1 + 1 && parent.route[0] == N && IsChoice(parent.route[1..]) {
      assert c.route[1..] == parent.route[1..] + [x];
      ChoiceSnoc(parent.route[1..], x);
    }
  }

  /** Children of nodes with distinct keys have distinct routes: no dict entry of the next level is overwritten. */
  lemma {:induction false} NextNodesDistinct(level: seq<Node>, q1: nat)
    requires DistinctKeys(level, q1) && NextNodes(level, q1).Ok?
    ensures DistinctKeys(NextNodes(level, q1).value, q1 + 1)
  {
    if level != [] {
      var front, last := level[..|level| - 1], level[|level| - 1];
      assert DistinctKeys(front, q1) by {
        forall i, j | 0 <= i < j < |front| ensures EntryKey(front[i], q1) != EntryKey(front[j], q1) {
          assert front[i] == level[i] && front[j] == level[j];
        }
      }
      NextNodesDistinct(front, q1);
      var a := NextNodes(front, q1).value;
      forall c | c in a
        ensures exists i :: 0 <= i < |level| - 1 && ChildOf(c, level[i], q1)
      {
        var i, x := NextNodeOrigin(front, q1, c);
        assert front[i] == level[i] && c.route[..|c.route| - 1] == EntryKey(level[i], q1);
      }
      var pr := ChildPattern(Key(last), SeedCount, MinRun, R).value;
      var pl := ChildPattern(Key(last), SeedCount, MinRun, L).value;
      ChildNodesSiblings(last, q1, pr, pl, false, false);
      SpawnDistinct(level, q1, a, ChildNode(last, q1, R, pr, false) + ChildNode(last, q1, L, pl, false));
    }
  }

  /** Every level of the tree is a dict: its keys are distinct. */
  lemma {:induction false} ForestDistinct(start: Node, levels: nat, k: nat)
    requires Forest(start, levels).Ok? && k <= levels
    ensures DistinctKeys(Forest(start, levels).value[k], k)
    decreases levels
  {
    if levels > 0 {
      ForestStep(start, levels);
      var prev := Forest(start, levels - 1).value;
      if k < levels {
        assert Forest(start, levels).value[k] == prev[k];
        ForestDistinct(start, levels - 1, k);
      } else {
        ForestDistinct(start, levels - 1, levels - 1);
        NextNodesDistinct(prev[levels - 1], levels - 1);
      }
    }
  }
}
