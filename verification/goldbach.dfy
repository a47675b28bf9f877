/**
 * `2025/2025_11_03/z3.py`: trial-division primality and the search for a
 * symmetric pair of primes k + d, k - d around the centre k = E // 2.
 */
module Goldbach {
  import opened IntArith

  datatype Option<T> = None | Some(value: T)

  /** n is prime: at least 2 and without a divisor strictly between 1 and n. */
  predicate Prime(n: int) {
    n >= 2 && forall d :: 2 <= d < n ==> n % d != 0
  }

  /** A multiple of q leaves no remainder. */
  lemma {:induction false} MultipleMod(a: int, q: int)
    requires q > 0
    ensures (a * q) % q == 0
  {
    RemainderUnique(0, a, q);
    assert a * q == 0 + q * a;
  }

  /** A divisor above the square root comes with a cofactor at or below it. */
  lemma {:induction false} SmallDivisor(n: int, d: int) returns (e: int)
    requires n >= 2 && 2 <= d < n && n % d == 0
    ensures 2 <= e && e * e <= n && n % e == 0
  {
    var q := n / d;
    assert n == d * q;
    if d * d <= n {
      return d;
    }
    if q <= 1 {
      MulLe(q, 1, d);
    }
    if q >= d {
      MulLe(d, q, d);
    }
    assert 2 <= q < d;
    MulLe(q, d, q);
    MultipleMod(d, q);
    return q;
  }

  /** A trial divisor i with i * i <= n is a proper one. */
  lemma {:induction false} BelowRoot(n: int, i: int)
    requires 2 <= i && i * i <= n
    ensures i < n
  {
    MulLe(2, i, i);
  }

  /** No divisor below i, with i * i past n, leaves n prime. */
  lemma {:induction false} NoSmallDivisor(n: int, i: int)
    requires n >= 2 && 2 <= i && i * i > n
    requires forall e :: 2 <= e < i ==> n % e != 0
    ensures Prime(n)
  {
    if !Prime(n) {
      var d :| 2 <= d < n && n % d == 0;
      var e := SmallDivisor(n, d);
      if e >= i {
        MulLe(i, e, i);
        MulLe(i, e, e);
      }
      assert false;
    }
  }

  /**
   * `es_primo`: False below 2, otherwise trial division by every i with i * i <= n
   * (`range(2, int(np.sqrt(n)) + 1)`); the answer is exactly primality.
   */
  method EsPrimo(n: int) returns (prime: bool)
    ensures prime <==> Prime(n)
  {
    if n < 2 {
      return false;
    }
    var i := 2;
    while i * i <= n
      invariant 2 <= i
      invariant forall e :: 2 <= e < i ==> n % e != 0
      decreases n - i
    {
      BelowRoot(n, i);
      if n % i == 0 {
        return false;
      }
      i := i + 1;
    }
    NoSmallDivisor(n, i);
    return true;
  }

  /** Offset d works for centre k: both k + d and k - d are prime. */
  predicate PrimePair(k: int, d: int) {
    Prime(k + d) && Prime(k - d)
  }

  /** The search from offset d on: the first working offset, or None once k - d drops to 1 or below. */
  function FirstOffset(k: int, d: nat): Option<nat>
    decreases if k - d > 1 then k - d else 0
  {
    if k - d <= 1 then None
    else if PrimePair(k, d) then Some(d)
    else FirstOffset(k, d + 1)
  }

  /** What the search from d finds is the least working offset at or above d. */
  lemma {:induction false} FirstOffsetSpec(k: int, d: nat)
    ensures FirstOffset(k, d).Some? ==>
              var f := FirstOffset(k, d).value;
              d <= f && k - f >= 2 && PrimePair(k, f) && forall e :: d <= e < f ==> !PrimePair(k, e)
    ensures FirstOffset(k, d).None? <==> forall e :: d <= e && k - e >= 2 ==> !PrimePair(k, e)
    decreases if k - d > 1 then k - d else 0
  {
    if k - d > 1 && !PrimePair(k, d) {
      FirstOffsetSpec(k, d + 1);
      if FirstOffset(k, d).None? {
        forall e | d <= e && k - e >= 2
          ensures !PrimePair(k, e)
        {
          if e > d {
            assert d + 1 <= e;
          }
        }
      }
    }
  }

  /**
   * `encontrar_pares_goldbach(E_par)`: (True, delta) as Some(delta), (False, None) as None.
   * The loop ends because k - delta falls by one each round until it is at most 1.
   */
  method EncontrarParesGoldbach(e: int) returns (result: Option<nat>)
    ensures result == FirstOffset(e / 2, 0)
  {
    var k := e / 2;
    var delta: nat := 0;
    while true
      invariant FirstOffset(k, delta) == FirstOffset(k, 0)
      decreases if k - delta > 1 then k - delta else 0
    {
      var p1 := k + delta;
      var p2 := k - delta;
      if p2 <= 1 {
        return None;
      }
      var prime1 := EsPrimo(p1);
      var prime2 := false;
      if prime1 {
        prime2 := EsPrimo(p2);
      }
      if prime1 && prime2 {
        return Some(delta);
      }
      delta := delta + 1;
    }
  }

  /**
   * The search's answer, read as Goldbach's statement: a found offset gives two
   * primes summing to E (E even), with the smaller one at least 2 and no smaller
   * offset working; None means no pair symmetric about E / 2 exists at all.
   */
  lemma {:induction false} GoldbachAnswer(e: int)
    requires e % 2 == 0
    ensures FirstOffset(e / 2, 0).Some? ==>
              var d := FirstOffset(e / 2, 0).value;
              Prime(e / 2 + d) && Prime(e / 2 - d) && (e / 2 + d) + (e / 2 - d) == e && e / 2 - d >= 2
              && forall d' :: 0 <= d' < d ==> !PrimePair(e / 2, d')
    ensures FirstOffset(e / 2, 0).None? <==> forall d :: 0 <= d && e / 2 - d >= 2 ==> !PrimePair(e / 2, d)
  {
    FirstOffsetSpec(e / 2, 0);
  }

  /** Below 4 there is nothing to find: the centre is at most 1. */
  lemma {:induction false} SmallEvenFails(e: int)
    requires e < 4
    ensures FirstOffset(e / 2, 0) == None
  {
  }

  /**
   * For even E, any pair of primes p <= q with p + q == E is symmetric about E / 2,
   * so the search finds a pair, at an offset no larger than that pair's.
   */
  lemma {:induction false} FindsEveryPair(e: int, p: int, q: int)
    requires e % 2 == 0
    requires Prime(p) && Prime(q) && p <= q && p + q == e
    ensures FirstOffset(e / 2, 0).Some? && FirstOffset(e / 2, 0).value <= (q - p) / 2
  {
    var k, d := e / 2, (q - p) / 2;
    assert q - p == e - 2 * p;
    assert k + d == q && k - d == p;
    assert PrimePair(k, d);
    FirstOffsetSpec(k, 0);
  }
}
