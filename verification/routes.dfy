/**
 * Routes: the strings over 'N', 'R' and 'L' that name a node of a decision tree
 * ("R" = right branch, "L" = left branch, "N" = the root marker some builders put
 * in front). Python compares such strings character by character, by code point,
 * and a proper prefix comes first; since 'L' < 'N' < 'R' this is the order below.
 */
module Routes {
  import opened Sorting

  datatype Letter = N | R | L

  type Route = seq<Letter>

  /** The position of a letter in Python's code-point order ('L' = 76, 'N' = 78, 'R' = 82). */
  function Rank(c: Letter): (k: nat)
    ensures k < 3
  {
    match c
    case L => 0
    case N => 1
    case R => 2
  }

  /** Python's `a <= b` on the strings spelling the routes. */
  predicate RouteLe(a: Route, b: Route) {
    a == [] || (b != [] && (Rank(a[0]) < Rank(b[0]) || (a[0] == b[0] && RouteLe(a[1..], b[1..]))))
  }

  /** A sequence of branch decisions: every letter is R or L. */
  predicate IsChoice(c: Route) {
    forall i :: 0 <= i < |c| ==> c[i] == R || c[i] == L
  }

  /** One more branch decision keeps a choice a choice. */
  lemma {:induction false} ChoiceSnoc(c: Route, z: Letter)
    requires IsChoice(c) && z != N
    ensures IsChoice(c + [z])
  {
    forall i | 0 <= i < |c| + 1 ensures (c + [z])[i] == R || (c + [z])[i] == L {
      if i < |c| {
        assert (c + [z])[i] == c[i];
      }
    }
  }

  /** Python's `route.startswith("R")`. */
  predicate StartsWithR(route: Route) {
    |route| > 0 && route[0] == R
  }

  lemma {:induction false} RouteLeTotal(a: Route, b: Route)
    ensures RouteLe(a, b) || RouteLe(b, a)
  {
    if a != [] && b != [] && a[0] == b[0] {
      RouteLeTotal(a[1..], b[1..]);
    }
  }

  lemma {:induction false} RouteLeTransitive(a: Route, b: Route, c: Route)
    requires RouteLe(a, b) && RouteLe(b, c)
    ensures RouteLe(a, c)
  {
    if a != [] && a[0] == b[0] && b[0] == c[0] {
      RouteLeTransitive(a[1..], b[1..], c[1..]);
    }
  }

  lemma {:induction false} RouteLeAntisymmetric(a: Route, b: Route)
    requires RouteLe(a, b) && RouteLe(b, a)
    ensures a == b
  {
    if a != [] {
      RouteLeAntisymmetric(a[1..], b[1..]);
      assert a == [a[0]] + a[1..] && b == [b[0]] + b[1..];
    }
  }

  /** Python's string order on routes is a total order. */
  lemma {:induction false} RouteOrder()
    ensures TotalPreorder(RouteLe)
  {
    forall a, b ensures RouteLe(a, b) || RouteLe(b, a) {
      RouteLeTotal(a, b);
    }
    forall a, b, c | RouteLe(a, b) && RouteLe(b, c) ensures RouteLe(a, c) {
      RouteLeTransitive(a, b, c);
    }
  }
}
