/**
 * The Collatz step used by every tree builder, its two variants `collatz2` and
 * `collatz3`, and the arithmetic-progression classifiers (`detectar_patron`) in
 * their three forms: the string-returning one (empty / progression / broken),
 * the flag-and-break loop that computes it, and the raising one of the node trees.
 */
module CollatzSteps {
  import opened Routes

  /**
   * One Collatz step and the branch it takes: even n halves exactly ("R"), odd n
   * becomes 3n + 1 ("L"). Python's `n % 2` and `n // 2` by 2 agree with Dafny's
   * Euclidean operators for every sign of n.
   */
  function Collatz(n: int): (r: (int, Letter))
    ensures r.1 == R <==> n % 2 == 0
    ensures r.1 != N
  {
    if n % 2 == 0 then (n / 2, R) else (n * 3 + 1, L)
  }

  /** The value a step came from, given where it went and the branch it took. */
  function Unstep(value: int, branch: Letter): int {
    if branch == R then 2 * value else (value - 1) / 3
  }

  /** The step is undone by Unstep: the branch letter and the new value determine n. */
  lemma {:induction false} CollatzUnstep(n: int)
    ensures Unstep(Collatz(n).0, Collatz(n).1) == n
  {
    if n % 2 != 0 {
      assert (n * 3 + 1 - 1) / 3 == n;
    }
  }

  /** An odd step always lands on an even number, so an L is always followed by an R. */
  lemma {:induction false} OddStepEven(n: int)
    requires n % 2 != 0
    ensures Collatz(n).0 % 2 == 0 && Collatz(Collatz(n).0).1 == R
  {
    Halve(n);
    Double(3 * (n / 2) + 2);
    assert n * 3 + 1 == 2 * (3 * (n / 2) + 2);
  }

  /** n is twice its half plus its parity bit. */
  lemma {:induction false} Halve(n: int)
    ensures n == 2 * (n / 2) + n % 2 && 0 <= n % 2 < 2
  {
  }

  /** 2k is even and halves back to k. */
  lemma {:induction false} Double(k: int)
    ensures (2 * k) % 2 == 0 && (2 * k) / 2 == k
  {
  }

  /** The step keeps the sign: negative seeds only ever produce negative values, positive ones positive values. */
  lemma {:induction false} CollatzSign(n: int)
    ensures n < 0 ==> Collatz(n).0 < 0
    ensures n > 0 ==> Collatz(n).0 > 0
  {
  }

  /** `collatz2`: even n goes to n - 1 ("R"), odd n to n + 1 ("L"). */
  function Collatz2(n: int): (r: (int, Letter))
    ensures r.1 == R <==> n % 2 == 0
    ensures r.0 % 2 != n % 2
  {
    if n % 2 == 0 then (n - 1, R) else (n + 1, L)
  }

  /** `collatz2` is an involution on values, and its two branches alternate. */
  lemma {:induction false} Collatz2Involution(n: int)
    ensures Collatz2(Collatz2(n).0).0 == n
    ensures Collatz2(Collatz2(n).0).1 != Collatz2(n).1
  {
  }

  /** `collatz3`: even n halves ("R"), odd n goes to n + 1 ("L"). */
  function Collatz3(n: int): (r: (int, Letter))
    ensures r.1 == R <==> n % 2 == 0
    ensures r.1 == L ==> r.0 % 2 == 0 && r.0 == n + 1
    ensures r.1 == R ==> 2 * r.0 == n
  {
    Halve(n);
    Halve(n + 1);
    if n % 2 == 0 then (n / 2, R) else (n + 1, L)
  }

  /** The arithmetic progression a, a + s, ..., a + (k - 1) * s. */
  function Arith(a: int, s: int, k: nat): (v: seq<int>)
    ensures |v| == k
    ensures forall q :: 0 <= q < k ==> v[q] == s * q + a
  {
    seq(k, q requires 0 <= q => s * q + a)
  }

  /** The progression one term longer. */
  lemma {:induction false} ArithSnoc(a: int, s: int, k: nat)
    ensures Arith(a, s, k + 1) == Arith(a, s, k) + [s * k + a]
  {
    var longer, shorter := Arith(a, s, k + 1), Arith(a, s, k) + [s * k + a];
    forall q | 0 <= q < k + 1 ensures longer[q] == shorter[q] {
      if q < k {
        assert shorter[q] == Arith(a, s, k)[q];
      }
    }
  }

  /** Every consecutive difference equals the first one (Python's `all(...)` over `range(len - 1)`). */
  predicate ConstantSteps(v: seq<int>)
    requires |v| >= 2
  {
    forall i :: 0 <= i < |v| - 1 ==> v[i + 1] - v[i] == v[1] - v[0]
  }

  lemma {:induction false} StepsGiveArith(v: seq<int>, i: nat)
    requires |v| >= 2 && ConstantSteps(v) && i < |v|
    ensures v[i] == (v[1] - v[0]) * i + v[0]
  {
    if i > 0 {
      StepsGiveArith(v, i - 1);
      assert v[i] - v[i - 1] == v[1] - v[0];
      assert (v[1] - v[0]) * i == (v[1] - v[0]) * (i - 1) + (v[1] - v[0]);
    }
  }

  /** Equal consecutive differences is exactly being the progression of the first value and first difference. */
  lemma {:induction false} ArithIffSteps(v: seq<int>)
    requires |v| >= 2
    ensures ConstantSteps(v) <==> v == Arith(v[0], v[1] - v[0], |v|)
  {
    var p := Arith(v[0], v[1] - v[0], |v|);
    if ConstantSteps(v) {
      forall i | 0 <= i < |v| ensures v[i] == p[i] {
        StepsGiveArith(v, i);
      }
    } else if v == p {
      forall i | 0 <= i < |v| - 1 ensures v[i + 1] - v[i] == v[1] - v[0] {
        assert (v[1] - v[0]) * (i + 1) == (v[1] - v[0]) * i + (v[1] - v[0]);
      }
    }
  }

  /** The pattern of a list of values; the source renders it as "", "(>{a}n{s})" or "!!!!!!!". */
  datatype Pattern = NoData | Progression(start: int, step: int) | Broken

  /** `detectar_patron`, string-returning form. */
  function DetectPattern(v: seq<int>): (p: Pattern)
    ensures p == NoData <==> |v| < 3
    ensures p.Progression? <==> |v| >= 3 && v == Arith(v[0], v[1] - v[0], |v|)
    ensures p.Progression? ==> p.start == v[0] && p.step == v[1] - v[0]
  {
    if |v| < 3 then NoData
    else
      ArithIffSteps(v);
      if ConstantSteps(v) then Progression(v[0], v[1] - v[0]) else Broken
  }

  /** Round trip: at least three terms of a progression are classified as that progression. */
  lemma {:induction false} DetectArith(a: int, s: int, k: nat)
    requires k >= 3
    ensures DetectPattern(Arith(a, s, k)) == Progression(a, s)
  {
    var v := Arith(a, s, k);
    assert v[0] == a && v[1] - v[0] == s;
  }

  /** The flag-and-break loop form of `detectar_patron`. */
  method DetectPatternLoop(v: seq<int>) returns (p: Pattern)
    ensures p == DetectPattern(v)
  {
    if |v| < 3 {
      return NoData;
    }
    var step := v[1] - v[0];
    var isArithmetic := true;
    for i := 0 to |v| - 1
      invariant isArithmetic
      invariant forall k :: 0 <= k < i ==> v[k + 1] - v[k] == step
    {
      if v[i + 1] - v[i] != step {
        isArithmetic := false;
        break;
      }
    }
    if isArithmetic {
      p := Progression(v[0], step);
    } else {
      p := Broken;
    }
  }

  /** The reasons the raising `detectar_patron` of the node trees gives up. */
  datatype PatternError = TooShort | MissingSecond | NotSimple

  datatype Outcome<T> = Ok(value: T) | Fail(error: PatternError)

  datatype Option<T> = None | Some(value: T)

  /**
   * `detectar_patron` of the node trees: fewer than `minLen` values raise "muyCorto";
   * reading `valores[1]` of a shorter list fails; a list whose differences are not all
   * equal raises "NoSimple"; otherwise the pair (first value, first difference).
   */
  function DetectProgression(v: seq<int>, minLen: int): (r: Outcome<(int, int)>)
    ensures r == Fail(TooShort) <==> |v| < minLen
    ensures r.Ok? <==> |v| >= minLen && |v| >= 2 && v == Arith(v[0], v[1] - v[0], |v|)
    ensures r.Ok? ==> r.value == (v[0], v[1] - v[0])
  {
    if |v| < minLen then Fail(TooShort)
    else if |v| < 2 then Fail(MissingSecond)
    else
      ArithIffSteps(v);
      if ConstantSteps(v) then Ok((v[0], v[1] - v[0])) else Fail(NotSimple)
  }

  /** Round trip: a long enough progression is recognised as its own (start, step) pair. */
  lemma {:induction false} DetectProgressionArith(a: int, s: int, k: nat, minLen: int)
    requires k >= 2 && k >= minLen
    ensures DetectProgression(Arith(a, s, k), minLen) == Ok((a, s))
  {
    var v := Arith(a, s, k);
    assert v[0] == a && v[1] - v[0] == s;
  }
}
