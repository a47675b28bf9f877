/**
 * Stable sorting, as performed by Python's `list.sort(key=..., reverse=...)` and
 * `sorted(...)`: the result is a permutation of the input, ordered by a total
 * preorder, and elements that the order ties keep their input order.
 *
 * The order is given as a relation `before(x, y)`: "x may stand ahead of y".
 * A descending sort on a key (`reverse=True`) is `before(x, y) == key(x) >= key(y)`.
 */
module Sorting {

  /** `before` is total and transitive: a total preorder. */
  ghost predicate TotalPreorder<T(!new)>(before: (T, T) -> bool) {
    && (forall x, y :: before(x, y) || before(y, x))
    && (forall x, y, z :: before(x, y) && before(y, z) ==> before(x, z))
  }

  /** Neither of x and y is strictly ahead of the other. */
  predicate Tied<T>(before: (T, T) -> bool, x: T, y: T) {
    before(x, y) && before(y, x)
  }

  /** Every element may stand ahead of every later element. */
  ghost predicate SortedBy<T>(s: seq<T>, before: (T, T) -> bool) {
    forall i, j :: 0 <= i < j < |s| ==> before(s[i], s[j])
  }

  /** Inserts x in front of the first element it may stand ahead of. */
  function Insert<T>(x: T, s: seq<T>, before: (T, T) -> bool): (r: seq<T>)
    ensures |r| == |s| + 1
  {
    if s == [] || before(x, s[0]) then [x] + s
    else
      assert s == [s[0]] + s[1..];
      [s[0]] + Insert(x, s[1..], before)
  }

  /**
   * The stable sort of s. The first element is inserted last, in front of
   * every element it ties with, so tied elements keep their input order.
   */
  function SortBy<T>(s: seq<T>, before: (T, T) -> bool): (r: seq<T>)
    ensures |r| == |s|
  {
    if s == [] then []
    else
      assert s == [s[0]] + s[1..];
      Insert(s[0], SortBy(s[1..], before), before)
  }

  lemma {:induction false} InsertPermutes<T>(x: T, s: seq<T>, before: (T, T) -> bool)
    ensures multiset(Insert(x, s, before)) == multiset(s) + multiset{x}
  {
    if s != [] && !before(x, s[0]) {
      assert s == [s[0]] + s[1..];
      InsertPermutes(x, s[1..], before);
    }
  }

  /** Sorting only reorders: the result is a permutation of the input. */
  lemma {:induction false} SortPermutes<T>(s: seq<T>, before: (T, T) -> bool)
    ensures multiset(SortBy(s, before)) == multiset(s)
  {
    if s != [] {
      assert s == [s[0]] + s[1..];
      SortPermutes(s[1..], before);
      InsertPermutes(s[0], SortBy(s[1..], before), before);
    }
  }

  /** The elements of s tied with k, in their order in s. */
  function TiesWith<T>(s: seq<T>, k: T, before: (T, T) -> bool): (r: seq<T>)
    ensures |r| <= |s|
    ensures forall x :: x in r ==> x in s && Tied(before, x, k)
  {
    if s == [] then []
    else (if Tied(before, s[0], k) then [s[0]] else []) + TiesWith(s[1..], k, before)
  }

  lemma {:induction false} InsertSorted<T(!new)>(x: T, s: seq<T>, before: (T, T) -> bool)
    requires TotalPreorder(before) && SortedBy(s, before)
    ensures SortedBy(Insert(x, s, before), before)
  {
    if s == [] || before(x, s[0]) {
      var r := [x] + s;
      forall i, j | 0 <= i < j < |r| ensures before(r[i], r[j]) {
        if i == 0 && j > 1 {
          assert before(s[0], s[j - 1]);
        }
      }
    } else {
      InsertSorted(x, s[1..], before);
      InsertPermutes(x, s[1..], before);
      var t := Insert(x, s[1..], before);
      assert before(s[0], x);
      forall y | y in t ensures before(s[0], y) {
        assert y in multiset(t);
        assert y == x || y in multiset(s[1..]);
      }
      var r := [s[0]] + t;
      forall i, j | 0 <= i < j < |r| ensures before(r[i], r[j]) {
        if i == 0 {
          assert r[j] in t;
        } else {
          assert r[i] == t[i - 1] && r[j] == t[j - 1];
        }
      }
    }
  }

  /** The result of SortBy is ordered by `before`. */
  lemma {:induction false} SortSorted<T(!new)>(s: seq<T>, before: (T, T) -> bool)
    requires TotalPreorder(before)
    ensures SortedBy(SortBy(s, before), before)
  {
    if s != [] {
      SortSorted(s[1..], before);
      InsertSorted(s[0], SortBy(s[1..], before), before);
    }
  }

  lemma {:induction false} TiesConcat<T>(a: seq<T>, b: seq<T>, k: T, before: (T, T) -> bool)
    ensures TiesWith(a + b, k, before) == TiesWith(a, k, before) + TiesWith(b, k, before)
  {
    if a == [] {
      assert a + b == b;
    } else {
      assert (a + b)[0] == a[0] && (a + b)[1..] == a[1..] + b;
      TiesConcat(a[1..], b, k, before);
      var h := if Tied(before, a[0], k) then [a[0]] else [];
      assert TiesWith(a + b, k, before) == h + TiesWith(a[1..] + b, k, before);
      assert TiesWith(a, k, before) == h + TiesWith(a[1..], k, before);
      assert h + (TiesWith(a[1..], k, before) + TiesWith(b, k, before))
          == (h + TiesWith(a[1..], k, before)) + TiesWith(b, k, before);
    }
  }

  lemma {:induction false} InsertTies<T(!new)>(x: T, s: seq<T>, k: T, before: (T, T) -> bool)
    requires TotalPreorder(before)
    ensures TiesWith(Insert(x, s, before), k, before)
         == (if Tied(before, x, k) then [x] else []) + TiesWith(s, k, before)
  {
    if s == [] || before(x, s[0]) {
      TiesConcat([x], s, k, before);
    } else {
      InsertTies(x, s[1..], k, before);
      TiesConcat([s[0]], Insert(x, s[1..], before), k, before);
      TiesConcat([s[0]], s[1..], k, before);
      assert [s[0]] + s[1..] == s;
    }
  }

  /** Stability: the elements tied with any k appear in the same order before and after sorting. */
  lemma {:induction false} SortStable<T(!new)>(s: seq<T>, k: T, before: (T, T) -> bool)
    requires TotalPreorder(before)
    ensures TiesWith(SortBy(s, before), k, before) == TiesWith(s, k, before)
  {
    if s != [] {
      SortStable(s[1..], k, before);
      InsertTies(s[0], SortBy(s[1..], before), k, before);
    }
  }

  /** Truncating a sequence keeps a prefix of its tied elements. */
  lemma {:induction false} TiesOfPrefix<T>(s: seq<T>, m: nat, k: T, before: (T, T) -> bool)
    requires m <= |s|
    ensures TiesWith(s[..m], k, before) <= TiesWith(s, k, before)
  {
    assert s == s[..m] + s[m..];
    TiesConcat(s[..m], s[m..], k, before);
  }
}
