/** Small facts of integer arithmetic, stated over plain integers so that the solver meets each nonlinear step alone. */
module IntArith {
  lemma {:induction false} MulSwap(x: int, y: int, z: int)
    ensures x * (y * z) == y * (x * z) && x * (y * z) == (x * y) * z
  {
  }

  lemma {:induction false} Distrib(x: int, y: int, z: int)
    ensures x * (y + z) == x * y + x * z && (y + z) * x == y * x + z * x
  {
  }

  lemma {:induction false} MulEqual(x: int, x': int, y: int, y': int)
    requires x == x' && y == y'
    ensures x * y == x' * y'
  {
  }

  lemma {:induction false} MulLe(x: int, y: int, z: int)
    requires x <= y && z >= 0
    ensures x * z <= y * z
  {
  }

  lemma {:induction false} RemainderUnique(low: int, k: int, m: int)
    requires 0 <= low < m
    ensures (low + m * k) % m == low && (low + m * k) / m == k
  {
    var t, r := (low + m * k) / m, (low + m * k) % m;
    assert m * (k - t) == r - low by {
      Distrib(m, k, -t);
    }
    if k - t >= 1 {
      MulLe(1, k - t, m);
    } else if k - t <= -1 {
      MulLe(1, t - k, m);
      Distrib(m, t, -k);
    }
  }

  lemma {:induction false} MulBelow(x: int, y: int, p: int)
    requires 0 <= x < p && 0 <= y < p
    ensures 0 <= x * y < p * p
  {
    MulLe(0, x, y);
    MulLe(y, p - 1, x);
    MulSwap(1, x, p - 1);
    MulLe(x, p - 1, p);
    Distrib(p, p, -1);
    Distrib(x, p, -1);
  }

  /** Adding an even number keeps the parity. */
  lemma {:induction false} EvenShift(x: int, k: int)
    ensures (2 * k + x) % 2 == x % 2
  {
    RemainderUnique(x % 2, k + x / 2, 2);
    assert 2 * k + x == x % 2 + 2 * (k + x / 2);
  }
}
