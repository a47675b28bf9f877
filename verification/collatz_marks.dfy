/**
 * The marking loops that walk a finished parity-split tree level by level, each
 * level in route order, and print one line per group: its route, its size, the
 * pattern of its first 100 values and a mark, "#" the first time the group's key is
 * seen and "*" afterwards. The key is the first five values (`huella`) in
 * `collad/3.py`, `3_grafica.py` and `3_grafica2.py`, and the pattern itself in
 * `5.py`, where a broken pattern is never recorded and the lines whose route starts
 * with "R" are set aside per level.
 */
module CollatzMarks {
  import opened Sorting
  import opened Routes
  import opened CollatzSteps
  import opened CollatzTree

  /** "#" and "*". */
  datatype Mark = First | Repeat

  /** One printed line. */
  datatype Line = Line(route: Route, count: nat, pattern: Pattern, mark: Mark)

  /** Python's `s[:k]`. */
  function Take(s: seq<int>, k: nat): (r: seq<int>)
    ensures |r| == if |s| < k then |s| else k
  {
    if |s| < k then s else s[..k]
  }

  /** The pattern printed for a group: that of its first 100 values. */
  function PatternOf(g: Group): Pattern {
    DetectPattern(Take(g.values, 100))
  }

  /** `huella = tuple(valores[:5])`. */
  function FingerprintKey(g: Group): (k: Option<seq<int>>)
    ensures k.Some? && k.value <= g.values
    ensures |k.value| == if |g.values| < 5 then |g.values| else 5
  {
    Some(Take(g.values, 5))
  }

  /** The pattern as a history key; a broken pattern has none, so it is never recorded and never repeated. */
  function PatternKey(g: Group): (k: Option<Pattern>)
    ensures var t := Take(g.values, 100);
            k.None? <==> |t| >= 3 && t != Arith(t[0], t[1] - t[0], |t|)
    ensures k.Some? ==> k.value == PatternOf(g)
  {
    if PatternOf(g) == Broken then None else Some(PatternOf(g))
  }

  /** Whether a group's key is already in the history. */
  predicate Seen<K(==)>(h: map<K, Route>, k: Option<K>) {
    k.Some? && k.value in h
  }

  /** The line printed for a group against the history built so far. */
  function LineFor<K(==)>(g: Group, h: map<K, Route>, key: Group -> Option<K>): Line {
    Line(g.route, |g.values|, PatternOf(g), if Seen(h, key(g)) then Repeat else First)
  }

  /** A group's key is recorded, with the group's route, only the first time it is seen. */
  function Record<K(==)>(h: map<K, Route>, g: Group, key: Group -> Option<K>): (h': map<K, Route>)
    ensures h'.Keys == if key(g).Some? then h.Keys + {key(g).value} else h.Keys
    ensures forall k :: k in h ==> h'[k] == h[k]
    ensures key(g).Some? && key(g).value !in h ==> h'[key(g).value] == g.route
  {
    if key(g).Some? && key(g).value !in h then h[key(g).value := g.route] else h
  }

  /** The history after visiting the groups in order. */
  function HistoryAfter<K(==)>(h: map<K, Route>, e: seq<Group>, key: Group -> Option<K>): map<K, Route> {
    if e == [] then h else Record(HistoryAfter(h, e[..|e| - 1], key), e[|e| - 1], key)
  }

  /** The lines printed while visiting the groups in order. */
  function LinesOf<K(==)>(h: map<K, Route>, e: seq<Group>, key: Group -> Option<K>): (r: seq<Line>)
    ensures |r| == |e|
  {
    if e == [] then [] else LinesOf(h, e[..|e| - 1], key) + [LineFor(e[|e| - 1], HistoryAfter(h, e[..|e| - 1], key), key)]
  }

  /** `sorted(nivel.items())`: the routes of a level are distinct, so this is the order of the routes. */
  predicate RouteBefore(a: Group, b: Group) {
    RouteLe(a.route, b.route)
  }

  /** The groups of a level in the order they are printed. */
  function SortedLevel(level: Level): (r: Level)
    ensures |r| == |level|
  {
    SortBy(level, RouteBefore)
  }

  /** The order of the whole walk: level 0 first, each level in route order. */
  function Traversal(tree: seq<Level>): seq<Group> {
    if tree == [] then [] else Traversal(tree[..|tree| - 1]) + SortedLevel(tree[|tree| - 1])
  }

  lemma {:induction false} TraversalStep(tree: seq<Level>, i: nat)
    requires i < |tree|
    ensures Traversal(tree[..i + 1]) == Traversal(tree[..i]) + SortedLevel(tree[i])
  {
    assert tree[..i + 1][..i] == tree[..i];
  }

  /** Each level is printed in ascending route order, as a rearrangement of the level. */
  lemma {:induction false} SortedLevelOrder(level: Level)
    ensures SortedBy(SortedLevel(level), RouteBefore)
    ensures multiset(SortedLevel(level)) == multiset(level)
  {
    RouteOrder();
    assert TotalPreorder(RouteBefore);
    SortSorted(level, RouteBefore);
    SortPermutes(level, RouteBefore);
  }

  /** Visiting a + b leaves the history that visiting b leaves, starting from where a left it. */
  lemma {:induction false} HistoryConcat<K>(h: map<K, Route>, a: seq<Group>, b: seq<Group>, key: Group -> Option<K>)
    ensures HistoryAfter(h, a + b, key) == HistoryAfter(HistoryAfter(h, a, key), b, key)
    decreases |b|
  {
    if b == [] {
      assert a + b == a;
    } else {
      var ab := a + b;
      assert ab[..|ab| - 1] == a + b[..|b| - 1];
      assert ab[|ab| - 1] == b[|b| - 1];
      HistoryConcat(h, a, b[..|b| - 1], key);
    }
  }

  /** The lines of a + b are those of a, then those of b printed against the history a left. */
  lemma {:induction false} LinesConcat<K>(h: map<K, Route>, a: seq<Group>, b: seq<Group>, key: Group -> Option<K>)
    ensures LinesOf(h, a + b, key) == LinesOf(h, a, key) + LinesOf(HistoryAfter(h, a, key), b, key)
    decreases |b|
  {
    if b == [] {
      assert a + b == a;
    } else {
      var ab, front := a + b, b[..|b| - 1];
      assert ab[..|ab| - 1] == a + front;
      assert ab[|ab| - 1] == b[|b| - 1];
      LinesConcat(h, a, front, key);
      HistoryConcat(h, a, front, key);
    }
  }

  /** The history only grows, and a recorded route is never overwritten. */
  lemma {:induction false} HistoryKeeps<K>(h: map<K, Route>, e: seq<Group>, key: Group -> Option<K>, k: K)
    requires k in h
    ensures k in HistoryAfter(h, e, key) && HistoryAfter(h, e, key)[k] == h[k]
  {
    if e != [] {
      HistoryKeeps(h, e[..|e| - 1], key, k);
    }
  }

  /** A key is in the history exactly when it was already there or some visited group has it. */
  lemma {:induction false} HistoryKeys<K>(h: map<K, Route>, e: seq<Group>, key: Group -> Option<K>, k: K)
    ensures k in HistoryAfter(h, e, key) <==> k in h || exists j :: 0 <= j < |e| && key(e[j]) == Some(k)
  {
    if e != [] {
      var front := e[..|e| - 1];
      HistoryKeys(h, front, key, k);
      if exists j :: 0 <= j < |e| && key(e[j]) == Some(k) {
        var j :| 0 <= j < |e| && key(e[j]) == Some(k);
        if j < |e| - 1 {
          assert front[j] == e[j];
        }
      }
    }
  }

  /** Visiting group j after the groups before it records its key and prints its line. */
  lemma {:induction false} Visit<K>(h: map<K, Route>, e: seq<Group>, j: nat, key: Group -> Option<K>)
    requires j < |e|
    ensures HistoryAfter(h, e[..j + 1], key) == Record(HistoryAfter(h, e[..j], key), e[j], key)
    ensures LinesOf(h, e[..j + 1], key) == LinesOf(h, e[..j], key) + [LineFor(e[j], HistoryAfter(h, e[..j], key), key)]
  {
    assert e[..j + 1][..j] == e[..j];
  }

  /** The line at position i is computed against the history of the groups before it. */
  lemma {:induction false} LineAt<K>(h: map<K, Route>, e: seq<Group>, key: Group -> Option<K>, i: nat)
    requires i < |e|
    ensures LinesOf(h, e, key)[i] == LineFor(e[i], HistoryAfter(h, e[..i], key), key)
  {
    if i < |e| - 1 {
      LineAt(h, e[..|e| - 1], key, i);
      assert e[..|e| - 1][..i] == e[..i];
    } else {
      assert e[..|e| - 1] == e[..i];
    }
  }

  /**
   * First-seen marking: a line is marked "*" exactly when its group has a key and
   * an earlier group of the walk had the same key; otherwise "#".
   */
  lemma {:induction false} MarkIff<K>(e: seq<Group>, key: Group -> Option<K>, i: nat)
    requires i < |e|
    ensures LinesOf(map[], e, key)[i].mark == Repeat
            <==> key(e[i]).Some? && exists j :: 0 <= j < i && key(e[j]) == key(e[i])
  {
    LineAt(map[], e, key, i);
    if key(e[i]).Some? {
      HistoryKeys(map[], e[..i], key, key(e[i]).value);
      if exists j :: 0 <= j < i && key(e[j]) == key(e[i]) {
        var j :| 0 <= j < i && key(e[j]) == key(e[i]);
        assert e[..i][j] == e[j];
      }
    }
  }

  /**
   * Each key is recorded once, with the route of the first group of the walk that
   * has it; keys no group has are never recorded.
   */
  lemma {:induction false} FirstRouteRecorded<K>(e: seq<Group>, key: Group -> Option<K>, j: nat)
    requires j < |e| && key(e[j]).Some?
    requires forall i :: 0 <= i < j ==> key(e[i]) != key(e[j])
    ensures key(e[j]).value in HistoryAfter(map[], e, key)
    ensures HistoryAfter(map[], e, key)[key(e[j]).value] == e[j].route
  {
    var k := key(e[j]).value;
    var upTo := e[..j + 1];
    HistoryKeys(map[], e[..j], key, k);
    assert upTo[..j] == e[..j];
    assert k in HistoryAfter(map[], upTo, key) && HistoryAfter(map[], upTo, key)[k] == e[j].route;
    HistoryKeeps(HistoryAfter(map[], upTo, key), e[j + 1..], key, k);
    HistoryConcat(map[], upTo, e[j + 1..], key);
    assert upTo + e[j + 1..] == e;
  }

  /** The body of the fingerprint loop for one group: mark, record, classify. */
  method MarkByFingerprint(g: Group, history: map<seq<int>, Route>) returns (line: Line, history': map<seq<int>, Route>)
    ensures line == LineFor(g, history, FingerprintKey)
    ensures history' == Record(history, g, FingerprintKey)
  {
    var fingerprint := Take(g.values, 5);
    var mark;
    history' := history;
    if fingerprint in history {
      mark := Repeat;
    } else {
      mark := First;
      history' := history[fingerprint := g.route];
    }
    var pattern := DetectPatternLoop(Take(g.values, 100));
    line := Line(g.route, |g.values|, pattern, mark);
  }

  /** The fingerprint marking loop over the groups of a walk, one at a time, from history `start`. */
  method MarkFingerprintWalk(walk: seq<Group>, start: map<seq<int>, Route>) returns (lines: seq<Line>, history: map<seq<int>, Route>)
    ensures lines == LinesOf(start, walk, FingerprintKey)
    ensures history == HistoryAfter(start, walk, FingerprintKey)
  {
    lines, history := [], start;
    for j := 0 to |walk|
      invariant lines == LinesOf(start, walk[..j], FingerprintKey)
      invariant history == HistoryAfter(start, walk[..j], FingerprintKey)
    {
      Visit(start, walk, j, FingerprintKey);
      var line;
      line, history := MarkByFingerprint(walk[j], history);
      lines := lines + [line];
    }
    assert walk[..|walk|] == walk;
  }

  /** The marking loop of `collad/3.py`, `3_grafica.py` and `3_grafica2.py`. */
  method MarkFingerprints(tree: seq<Level>) returns (lines: seq<Line>, history: map<seq<int>, Route>)
    ensures lines == LinesOf(map[], Traversal(tree), FingerprintKey)
    ensures history == HistoryAfter(map[], Traversal(tree), FingerprintKey)
  {
    lines, history := [], map[];
    for i := 0 to |tree|
      invariant lines == LinesOf(map[], Traversal(tree[..i]), FingerprintKey)
      invariant history == HistoryAfter(map[], Traversal(tree[..i]), FingerprintKey)
    {
      var levelLines;
      levelLines, history := MarkFingerprintWalk(SortedLevel(tree[i]), history);
      TraversalStep(tree, i);
      HistoryConcat(map[], Traversal(tree[..i]), SortedLevel(tree[i]), FingerprintKey);
      LinesConcat(map[], Traversal(tree[..i]), SortedLevel(tree[i]), FingerprintKey);
      lines := lines + levelLines;
    }
    assert tree[..|tree|] == tree;
  }

  /** The lines of a level whose route does (`wantR`) or does not start with "R", in order. */
  function Only(lines: seq<Line>, wantR: bool): (r: seq<Line>)
    ensures |r| <= |lines|
  {
    if lines == [] then []
    else Only(lines[..|lines| - 1], wantR)
         + (if StartsWithR(lines[|lines| - 1].route) == wantR then [lines[|lines| - 1]] else [])
  }

  lemma {:induction false} OnlyAppend(lines: seq<Line>, line: Line, wantR: bool)
    ensures Only(lines + [line], wantR) == Only(lines, wantR) + (if StartsWithR(line.route) == wantR then [line] else [])
  {
    var all := lines + [line];
    assert all[..|all| - 1] == lines && all[|all| - 1] == line;
  }

  /** Every line goes to exactly one of the two lists, each list holding only its kind of route. */
  lemma {:induction false} OnlySplits(lines: seq<Line>)
    ensures multiset(Only(lines, false)) + multiset(Only(lines, true)) == multiset(lines)
    ensures forall l :: l in Only(lines, true) ==> StartsWithR(l.route)
    ensures forall l :: l in Only(lines, false) ==> !StartsWithR(l.route)
  {
    if lines != [] {
      var front, last := lines[..|lines| - 1], lines[|lines| - 1];
      OnlySplits(front);
      assert lines == front + [last];
    }
  }

  /** What a level of `5.py` leaves: the lines it prints and the "R" lines it only counts. */
  datatype LevelReport = LevelReport(printed: seq<Line>, symmetricR: seq<Line>)

  /** The report of one level of `5.py`, visited in route order from history h. */
  function ReportOf(h: map<Pattern, Route>, level: Level): LevelReport {
    Split(LinesOf(h, SortedLevel(level), PatternKey))
  }

  /** The body of the `5.py` loop for one group: classify, mark, record. */
  method MarkByPattern(g: Group, history: map<Pattern, Route>) returns (line: Line, history': map<Pattern, Route>)
    ensures line == LineFor(g, history, PatternKey)
    ensures history' == Record(history, g, PatternKey)
  {
    var pattern := DetectPattern(Take(g.values, 100));
    var mark;
    history' := history;
    if pattern in history && pattern != Broken {
      mark := Repeat;
    } else {
      mark := First;
      if pattern != Broken {
        history' := history[pattern := g.route];
      }
    }
    line := Line(g.route, |g.values|, pattern, mark);
  }

  /** The report of the groups visited so far, split by whether their route starts with "R". */
  function Split(lines: seq<Line>): LevelReport {
    LevelReport(Only(lines, false), Only(lines, true))
  }

  /** One more visited group adds its line to the list its route belongs to. */
  lemma {:induction false} SplitStep(start: map<Pattern, Route>, e: seq<Group>, j: nat)
    requires j < |e|
    ensures var line := LineFor(e[j], HistoryAfter(start, e[..j], PatternKey), PatternKey);
            var r := Split(LinesOf(start, e[..j], PatternKey));
            Split(LinesOf(start, e[..j + 1], PatternKey))
            == if StartsWithR(line.route) then LevelReport(r.printed, r.symmetricR + [line])
               else LevelReport(r.printed + [line], r.symmetricR)
    ensures HistoryAfter(start, e[..j + 1], PatternKey) == Record(HistoryAfter(start, e[..j], PatternKey), e[j], PatternKey)
  {
    Visit(start, e, j, PatternKey);
    var line := LineFor(e[j], HistoryAfter(start, e[..j], PatternKey), PatternKey);
    OnlyAppend(LinesOf(start, e[..j], PatternKey), line, true);
    OnlyAppend(LinesOf(start, e[..j], PatternKey), line, false);
  }

  /** One level of the `5.py` marking loop: the two route lists start empty and the history carries over. */
  method MarkLevel(level: Level, start: map<Pattern, Route>) returns (report: LevelReport, history: map<Pattern, Route>)
    ensures report == ReportOf(start, level)
    ensures history == HistoryAfter(start, SortedLevel(level), PatternKey)
  {
    var sorted := SortedLevel(level);
    history := start;
    var printed, symmetricR := [], [];
    for j := 0 to |sorted|
      invariant LevelReport(printed, symmetricR) == Split(LinesOf(start, sorted[..j], PatternKey))
      invariant history == HistoryAfter(start, sorted[..j], PatternKey)
    {
      SplitStep(start, sorted, j);
      var line;
      line, history := MarkByPattern(sorted[j], history);
      if StartsWithR(line.route) {
        symmetricR := symmetricR + [line];
      } else {
        printed := printed + [line];
      }
    }
    assert sorted[..|sorted|] == sorted;
    report := LevelReport(printed, symmetricR);
  }

  /** The reports of the levels of `5.py`, each against the history of the walk before it. */
  function Reports(tree: seq<Level>): (r: seq<LevelReport>)
    ensures |r| == |tree|
  {
    if tree == [] then []
    else
      var front := tree[..|tree| - 1];
      Reports(front) + [ReportOf(HistoryAfter(map[], Traversal(front), PatternKey), tree[|tree| - 1])]
  }

  /** Report i is that of level i, visited against the history the levels before it left. */
  lemma {:induction false} ReportAt(tree: seq<Level>, i: nat)
    requires i < |tree|
    ensures Reports(tree)[i] == ReportOf(HistoryAfter(map[], Traversal(tree[..i]), PatternKey), tree[i])
  {
    var front := tree[..|tree| - 1];
    var last := ReportOf(HistoryAfter(map[], Traversal(front), PatternKey), tree[|tree| - 1]);
    assert Reports(tree) == Reports(front) + [last];
    if i < |tree| - 1 {
      ReportAt(front, i);
      assert front[..i] == tree[..i] && front[i] == tree[i];
    } else {
      assert front == tree[..i];
    }
  }

  /** The pattern-history marking loop of `5.py`: one report per level, one history across levels. */
  method MarkPatterns(tree: seq<Level>) returns (reports: seq<LevelReport>, history: map<Pattern, Route>)
    ensures reports == Reports(tree)
    ensures history == HistoryAfter(map[], Traversal(tree), PatternKey)
  {
    reports, history := [], map[];
    for i := 0 to |tree|
      invariant reports == Reports(tree[..i])
      invariant history == HistoryAfter(map[], Traversal(tree[..i]), PatternKey)
    {
      var report;
      report, history := MarkLevel(tree[i], history);
      assert tree[..i + 1][..i] == tree[..i];
      TraversalStep(tree, i);
      HistoryConcat(map[], Traversal(tree[..i]), SortedLevel(tree[i]), PatternKey);
      reports := reports + [report];
    }
    assert tree[..|tree|] == tree;
  }

  /** The lines of all levels of `5.py`, put together in walk order, are the marking of the whole walk. */
  lemma {:induction false} LevelLines(tree: seq<Level>, i: nat)
    requires i < |tree|
    ensures LinesOf(map[], Traversal(tree[..i + 1]), PatternKey)
            == LinesOf(map[], Traversal(tree[..i]), PatternKey)
               + LinesOf(HistoryAfter(map[], Traversal(tree[..i]), PatternKey), SortedLevel(tree[i]), PatternKey)
  {
    TraversalStep(tree, i);
    LinesConcat(map[], Traversal(tree[..i]), SortedLevel(tree[i]), PatternKey);
  }
}
