/**
 * `z/z5/c/my.c`: a 128-limb big integer of unsigned 64-bit words, cleared with
 * `memset` and multiplied schoolbook-style on its low 8 limbs (512 bits), each
 * row accumulating 64x64-bit products with a running carry in a 128-bit temporary.
 */
module BigMul {
  import opened IntArith

  /** `WORDS`. */
  const Words: nat := 128

  /** 2^64, the radix of a limb. */
  const Base: nat := 0x1_0000_0000_0000_0000

  /** `uint64_t`. */
  newtype U64 = x: int | 0 <= x < 0x1_0000_0000_0000_0000

  /** `BigInt`: a struct holding `uint64_t d[WORDS]`. */
  class BigInt {
    const d: array<U64>

    constructor ()
      ensures d.Length == Words && fresh(d)
    {
      d := new U64[Words];
    }
  }

  /** Base^k. */
  function Pow(k: nat): (p: nat)
    ensures p >= 1
  {
    if k == 0 then 1 else Base * Pow(k - 1)
  }

  /** The little-endian value of a run of limbs: limb k weighs Base^k. */
  function Val(s: seq<U64>): int {
    if s == [] then 0 else Val(s[..|s| - 1]) + s[|s| - 1] as int * Pow(|s| - 1)
  }

  /** Values of adjacent runs add up, the upper one shifted by the lower one's length. */
  lemma {:induction false} ValConcat(a: seq<U64>, b: seq<U64>)
    ensures Val(a + b) == Val(a) + Pow(|a|) * Val(b)
    decreases |b|
  {
    if b == [] {
      assert a + b == a;
    } else {
      var front := b[..|b| - 1];
      assert (a + b)[..|a + b| - 1] == a + front;
      ValConcat(a, front);
      PowAdd(|a|, |b| - 1);
      var top, pa, pb := b[|b| - 1] as int, Pow(|a|), Pow(|b| - 1);
      assert Val(a + b) == Val(a) + pa * Val(front) + top * (pa * pb);
      MulSwap(top, pa, pb);
      Distrib(pa, Val(front), top * pb);
    }
  }

  lemma {:induction false} PowAdd(m: nat, n: nat)
    ensures Pow(m + n) == Pow(m) * Pow(n)
  {
    if n > 0 {
      PowAdd(m, n - 1);
      MulSwap(Base, Pow(m), Pow(n - 1));
    }
  }

  /** k limbs hold a value in [0, Base^k). */
  lemma {:induction false} ValBounds(s: seq<U64>)
    ensures 0 <= Val(s) < Pow(|s|)
  {
    if s != [] {
      var front, top, p := s[..|s| - 1], s[|s| - 1] as int, Pow(|s| - 1);
      ValBounds(front);
      MulLe(0, top, p);
      MulLe(top, Base - 1, p);
      Distrib(p, Base, -1);
    }
  }

  /** Limbs that are all zero have value zero. */
  lemma {:induction false} ValZero(s: seq<U64>)
    requires forall k :: 0 <= k < |s| ==> s[k] == 0
    ensures Val(s) == 0
  {
    if s != [] {
      ValZero(s[..|s| - 1]);
    }
  }

  /** `clear_big`: every one of the 128 limbs becomes 0. */
  method ClearBig(n: BigInt)
    requires n.d.Length == Words
    modifies n.d
    ensures forall k :: 0 <= k < Words ==> n.d[k] == 0
  {
    forall k | 0 <= k < n.d.Length {
      n.d[k] := 0;
    }
  }

  /**
   * `a*b + res + carry` never overflows the 128-bit temporary: with every operand
   * below 2^64 the sum is at most 2^128 - 1, so its high half, the next carry, is a limb.
   */
  lemma {:induction false} ProductFits(a: U64, b: U64, r: U64, c: U64)
    ensures 0 <= a as int * b as int + r as int + c as int <= Base * Base - 1
    ensures (a as int * b as int + r as int + c as int) / Base < Base
  {
    var x, y, m := a as int, b as int, Base;
    MulLe(0, x, y);
    MulLe(x, m - 1, y);
    MulLe(y, m - 1, m - 1);
    MulSwap(1, m - 1, y);
    assert (m - 1) * y == y * (m - 1);
    Distrib(m - 1, m, -1);
    Distrib(m, m, -1);
  }

  lemma {:induction false} RowArith(vc: int, vo: int, vb: int, c: int, p: int, p1: int, m: int, a: int, bj: int, oj: int, low: int, c': int,
                 vc': int, vo': int, vb': int)
    requires vc + c * p == vo + a * vb
    requires a * bj + oj + c == low + m * c'
    requires p1 == m * p
    requires vc' == vc + low * p && vo' == vo + oj * p && vb' == vb + bj * p
    ensures vc' + c' * p1 == vo' + a * vb'
  {
    assert (a * bj + oj + c) * p == (low + m * c') * p;
    Distrib(p, a * bj + oj, c);
    Distrib(p, a * bj, oj);
    Distrib(p, low, m * c');
    MulSwap(a, bj, p);
    MulSwap(c', m, p);
    MulSwap(m, c', p);
    Distrib(a, vb, bj * p);
  }

  /** Appending a limb adds it at the next weight. */
  lemma {:induction false} ValSnoc(s: seq<U64>, j: nat)
    requires j < |s|
    ensures Val(s[..j + 1]) == Val(s[..j]) + s[j] as int * Pow(j)
  {
    assert s[..j + 1][..j] == s[..j];
  }

  /** One step of a row keeps "limbs written + carry shifted == old limbs + a times the B limbs read". */
  lemma {:induction false} RowStep(cur: seq<U64>, orig: seq<U64>, bs: seq<U64>, a: int, carry: int, low: U64, carry': int)
    requires |orig| == |cur| + 1 && |bs| == |cur| + 1
    requires Val(cur) + carry * Pow(|cur|) == Val(orig[..|cur|]) + a * Val(bs[..|cur|])
    requires a * bs[|cur|] as int + orig[|cur|] as int + carry == low as int + Base * carry'
    ensures Val(cur + [low]) + carry' * Pow(|cur| + 1) == Val(orig) + a * Val(bs)
  {
    var j := |cur|;
    var next := cur + [low];
    assert next[..j] == cur && next[j] == low;
    ValSnoc(next, j);
    ValSnoc(orig, j);
    ValSnoc(bs, j);
    assert next[..j + 1] == next && orig[..j + 1] == orig && bs[..j + 1] == bs;
    var vc, vo, vb, p := Val(cur), Val(orig[..j]), Val(bs[..j]), Pow(j);
    RowArith(vc, vo, vb, carry, p, Pow(j + 1), Base, a, bs[j] as int, orig[j] as int, low as int, carry',
             Val(next), Val(orig), Val(bs));
  }

  /**
   * The inner step of `fast_mult_v2`: the 128-bit `prod = a*b + res + carry`, split
   * into its low limb (written back) and its high limb (the next carry).
   */
  method MulAdd(a: U64, b: U64, r: U64, carry: U64) returns (low: U64, high: U64)
    ensures a as int * b as int + r as int + carry as int == low as int + Base * high as int
  {
    ProductFits(a, b, r, carry);
    var prod := a as int * b as int + r as int + carry as int;
    low := (prod % Base) as U64;
    high := (prod / Base) as U64;
  }

  /**
   * Row i of `fast_mult_v2`: `res[i..i+8] += a * B[0..8]` with the carry, and the
   * final carry assigned to `res[i+8]`, which is still 0. Only limbs i to i + 8 change.
   */
  method MulRow(a: U64, b: array<U64>, res: array<U64>, i: nat)
    requires b.Length == Words && res.Length == Words && res != b && i + 9 <= Words
    requires res[i + 8] == 0
    modifies res
    ensures Val(res[i..i + 9]) == Val(old(res[i..i + 9])) + a as int * Val(b[..8])
    ensures forall k :: 0 <= k < Words && !(i <= k < i + 9) ==> res[k] == old(res[k])
  {
    ghost var start, bs := res[..], b[..8];
    var carry: U64 := 0;
    for j := 0 to 8
      invariant RowSoFar(start, res[..], bs, i, j, a as int, carry)
    {
      ghost var pre := res[..];
      var low, next := MulAdd(a, b[j], res[i + j], carry);
      res[i + j] := low;
      assert res[..] == pre[i + j := low];
      RowAdvance(start, pre, res[..], bs, i, j, a as int, carry, low, next);
      carry := next;
    }
    ghost var pre := res[..];
    res[i + 8] := carry;
    assert res[..] == pre[i + 8 := carry];
    assert bs[..8] == bs;
    assert start[i..i + 9][..8] == start[i..i + 8];
    StoreTop(pre, res[..], i, carry);
    RowTail(pre[i..i + 8], start[i..i + 9], bs, a as int, carry);
  }

  /**
   * After j steps of row i: limbs outside i to i + j - 1 are as they started, and the
   * j limbs written plus the carry shifted above them equal the j limbs they replaced
   * plus a times the first j limbs of B.
   */
  predicate RowSoFar(start: seq<U64>, cur: seq<U64>, bs: seq<U64>, i: nat, j: nat, a: int, carry: U64) {
    |start| == Words && |cur| == Words && |bs| == 8 && i + 9 <= Words && j <= 8 &&
    (forall k :: 0 <= k < Words && !(i <= k < i + j) ==> cur[k] == start[k]) &&
    Val(cur[i..i + j]) + carry as int * Pow(j) == Val(start[i..i + j]) + a * Val(bs[..j])
  }

  /** One limb of the row: writing the low half of `a*b[j] + res[i+j] + carry` keeps RowSoFar. */
  lemma {:induction false} RowAdvance(start: seq<U64>, pre: seq<U64>, post: seq<U64>, bs: seq<U64>, i: nat, j: nat, a: int,
                   carry: U64, low: U64, next: U64)
    requires RowSoFar(start, pre, bs, i, j, a, carry) && j < 8
    requires a * bs[j] as int + pre[i + j] as int + carry as int == low as int + Base * next as int
    requires post == pre[i + j := low]
    ensures RowSoFar(start, post, bs, i, j + 1, a, next)
  {
    var cur, orig := pre[i..i + j], start[i..i + j + 1];
    assert post[i..i + j + 1] == cur + [low];
    assert orig[..j] == start[i..i + j] && orig[j] == pre[i + j];
    assert bs[..j + 1][..j] == bs[..j];
    RowStep(cur, orig, bs[..j + 1], a, carry as int, low, next as int);
  }

  /** Storing the carry at i + 8 puts it on top of the 8 limbs below it. */
  lemma {:induction false} StoreTop(before: seq<U64>, after: seq<U64>, i: nat, c: U64)
    requires |before| == Words && i + 9 <= Words && after == before[i + 8 := c]
    ensures after[i..i + 9] == before[i..i + 8] + [c]
  {
  }

  /** The final carry becomes the row's ninth limb, which was 0. */
  lemma {:induction false} RowTail(low: seq<U64>, orig: seq<U64>, bs: seq<U64>, a: int, carry: U64)
    requires |low| == 8 && |orig| == 9 && |bs| == 8 && orig[8] == 0
    requires Val(low) + carry as int * Pow(8) == Val(orig[..8]) + a * Val(bs)
    ensures Val(low + [carry]) == Val(orig) + a * Val(bs)
  {
    var row := low + [carry];
    assert orig[..8 + 1] == orig && row[..8 + 1] == row && row[..8] == low;
    ValSnoc(row, 8);
    ValSnoc(orig, 8);
    MulEqual(row[8] as int, carry as int, Pow(8), Pow(8));
    MulEqual(orig[8] as int, 0, Pow(8), Pow(8));
  }

  /** Changing limbs i to i + 8 of the 16 product limbs changes their value by Base^i times that run's change. */
  lemma {:induction false} RowInProduct(before: seq<U64>, after: seq<U64>, i: nat, delta: int)
    requires |before| == |after| == Words && i + 9 <= 16
    requires forall k :: 0 <= k < Words && !(i <= k < i + 9) ==> after[k] == before[k]
    requires Val(after[i..i + 9]) == Val(before[i..i + 9]) + delta
    ensures Val(after[..16]) == Val(before[..16]) + Pow(i) * delta
  {
    var x, y, z := before[..i], before[i..i + 9], before[i + 9..16];
    var y' := after[i..i + 9];
    Splice(before, after, i);
    SpliceVal(x, y, z);
    SpliceVal(x, y', z);
    RunChange(Val(before[..16]), Val(after[..16]), Val(x), Val(y), Val(y'), Val(z), Pow(i), Pow(i + 9), delta);
  }

  lemma {:induction false} RunChange(vb: int, va: int, vx: int, vy: int, vy': int, vz: int, p: int, q: int, delta: int)
    requires vb == vx + p * vy + q * vz && va == vx + p * vy' + q * vz && vy' == vy + delta
    ensures va == vb + p * delta
  {
    Distrib(p, vy, delta);
  }

  /** Limbs 0 to 15 are the untouched run below i, the row, and the untouched run above. */
  lemma {:induction false} Splice(before: seq<U64>, after: seq<U64>, i: nat)
    requires |before| == |after| == Words && i + 9 <= 16
    requires forall k :: 0 <= k < Words && !(i <= k < i + 9) ==> after[k] == before[k]
    ensures before[..16] == before[..i] + before[i..i + 9] + before[i + 9..16]
    ensures after[..16] == before[..i] + after[i..i + 9] + before[i + 9..16]
  {
  }

  lemma {:induction false} SpliceVal(x: seq<U64>, y: seq<U64>, z: seq<U64>)
    ensures Val(x + y + z) == Val(x) + Pow(|x|) * Val(y) + Pow(|x| + |y|) * Val(z)
  {
    ValConcat(x + y, z);
    ValConcat(x, y);
  }

  /** Adding row i: the product of the first i + 1 limbs of A is the previous one plus A[i] Base^i times B. */
  lemma {:induction false} NextRowValue(a: seq<U64>, i: nat, vb: int)
    requires i < |a|
    ensures Val(a[..i + 1]) * vb == Val(a[..i]) * vb + Pow(i) * (a[i] as int * vb)
  {
    assert a[..i + 1][..i] == a[..i];
    var ai, p := a[i] as int, Pow(i);
    assert Val(a[..i + 1]) == Val(a[..i]) + ai * p;
    Distrib(vb, Val(a[..i]), ai * p);
    MulSwap(ai, p, vb);
    MulSwap(p, ai, vb);
  }

  /**
   * `fast_mult_v2(A, B, res)`: the 16 low limbs of `res` hold the full product of
   * the 8 low limbs of A and of B, and limbs 16 to 127 are 0. Rows with a zero limb
   * of A are skipped, which adds nothing. A and B are only read.
   */
  method FastMultV2(x: BigInt, y: BigInt, res: BigInt)
    requires x.d.Length == Words && y.d.Length == Words && res.d.Length == Words
    requires res.d != x.d && res.d != y.d
    modifies res.d
    ensures Val(res.d[..16]) == Val(x.d[..8]) * Val(y.d[..8])
    ensures forall k :: 16 <= k < Words ==> res.d[k] == 0
    ensures res.d[0] == NativeMult(x.d[0], y.d[0])
  {
    ClearBig(res);
    ValZero(res.d[..16]);
    for i := 0 to 8
      invariant Val(res.d[..16]) == Val(x.d[..i]) * Val(y.d[..8])
      invariant forall k :: i + 8 <= k < Words ==> res.d[k] == 0
    {
      var aVal := x.d[i];
      NextRowValue(x.d[..8], i, Val(y.d[..8]));
      assert x.d[..8][..i + 1] == x.d[..i + 1] && x.d[..8][..i] == x.d[..i];
      if aVal == 0 {
        continue;
      }
      ghost var before := res.d[..];
      MulRow(aVal, y.d, res.d, i);
      RowInProduct(before, res.d[..], i, aVal as int * Val(y.d[..8]));
    }
    NativeIsLowLimb(x.d[..8], y.d[..8], res.d[..16]);
  }

  /** The lowest limb of a value is its remainder modulo Base. */
  lemma {:induction false} LowLimb(s: seq<U64>)
    requires |s| >= 1
    ensures Val(s) % Base == s[0] as int
  {
    assert s == [s[0]] + s[1..];
    ValConcat([s[0]], s[1..]);
    assert Val([s[0]]) == s[0] as int;
    RemainderUnique(s[0] as int, Val(s[1..]), Base);
  }

  /** `native_mult`: `uint64_t` multiplication, which wraps modulo 2^64. */
  function NativeMult(a: U64, b: U64): U64 {
    ((a as int * b as int) % Base) as U64
  }

  /**
   * The native 64-bit product is the lowest limb of the big product: limb 0 of
   * `fast_mult_v2`'s result equals `native_mult` of the two lowest limbs. The printed
   * control limb comes after the repeated `add_big_asm` calls, which are not modelled.
   */
  lemma {:induction false} NativeIsLowLimb(x: seq<U64>, y: seq<U64>, r: seq<U64>)
    requires |x| >= 1 && |y| >= 1 && |r| >= 1
    requires Val(r) == Val(x) * Val(y)
    ensures r[0] == NativeMult(x[0], y[0])
  {
    LowLimb(r);
    assert x == [x[0]] + x[1..] && y == [y[0]] + y[1..];
    ValConcat([x[0]], x[1..]);
    ValConcat([y[0]], y[1..]);
    assert Pow(1) == Base;
    assert Val([x[0]]) == x[0] as int && Val([y[0]]) == y[0] as int;
    ProductRemainder(Val(x), Val(y), x[0] as int, y[0] as int, Val(x[1..]), Val(y[1..]), Base);
  }

  /** Only the low digits of the factors reach the low digit of the product. */
  lemma {:induction false} ProductRemainder(vx: int, vy: int, a: int, b: int, hx: int, hy: int, m: int)
    requires m > 0 && vx == a + m * hx && vy == b + m * hy
    ensures (vx * vy) % m == (a * b) % m
  {
    var q, low := (a * b) / m, (a * b) % m;
    var k := q + a * hy + hx * (b + m * hy);
    ExpandProduct(a, b, hx, hy, m, q, low);
    MulEqual(vx, a + m * hx, vy, b + m * hy);
    RemainderUnique(low, k, m);
  }

  lemma {:induction false} ExpandProduct(a: int, b: int, hx: int, hy: int, m: int, q: int, low: int)
    requires a * b == m * q + low
    ensures (a + m * hx) * (b + m * hy) == low + m * (q + a * hy + hx * (b + m * hy))
  {
    Distrib(b + m * hy, a, m * hx);
    Distrib(a, b, m * hy);
    MulSwap(a, m, hy);
    MulSwap(m, hx, b + m * hy);
    assert (m * hx) * (b + m * hy) == m * (hx * (b + m * hy));
    Distrib(m, q, a * hy);
    Distrib(m, q + a * hy, hx * (b + m * hy));
  }

  /** The product of two 8-limb values fits the 16 limbs `fast_mult_v2` writes. */
  lemma {:induction false} ProductFitsSixteenLimbs(x: seq<U64>, y: seq<U64>)
    requires |x| == 8 && |y| == 8
    ensures 0 <= Val(x) * Val(y) < Pow(16)
  {
    ValBounds(x);
    ValBounds(y);
    PowAdd(8, 8);
    MulBelow(Val(x), Val(y), Pow(8));
  }
}
