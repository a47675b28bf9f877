/**
 * `x/2025_12_11/2.py`: Pascal's triangle built row by row, the "multiplied"
 * triangle 6i - 2t[i][j] derived from it, and the alternating sum `valier`
 * printed for its even rows.
 */
module Pascal {
  /** The binomial coefficient C(n, k), by Pascal's rule; 0 when k > n. */
  function Binom(n: nat, k: nat): nat {
    if k == 0 then 1
    else if n == 0 then 0
    else Binom(n - 1, k - 1) + Binom(n - 1, k)
  }

  /** Row n of the triangle: C(n, 0), ..., C(n, n). */
  function Row(n: nat): (r: seq<int>)
    ensures |r| == n + 1
    ensures forall j :: 0 <= j <= n ==> r[j] == Binom(n, j)
  {
    seq(n + 1, j requires 0 <= j => Binom(n, j))
  }

  lemma {:induction false} BinomAbove(n: nat, k: nat)
    requires k > n
    ensures Binom(n, k) == 0
  {
    if n > 0 {
      BinomAbove(n - 1, k - 1);
      BinomAbove(n - 1, k);
    }
  }

  lemma {:induction false} BinomDiagonal(n: nat)
    ensures Binom(n, n) == 1
  {
    if n > 0 {
      BinomDiagonal(n - 1);
      BinomAbove(n - 1, n);
    }
  }

  /**
   * Each row has i + 1 entries, starts and ends with 1, and every interior entry
   * is the sum of the two entries above it.
   */
  lemma {:induction false} RowShape(i: nat)
    ensures |Row(i)| == i + 1 && Row(i)[0] == 1 && Row(i)[i] == 1
    ensures i > 0 ==> forall j :: 1 <= j < i ==> Row(i)[j] == Row(i - 1)[j - 1] + Row(i - 1)[j]
  {
    BinomDiagonal(i);
  }

  /** The triangle is symmetric: C(n, k) == C(n, n - k). */
  lemma {:induction false} BinomSymmetric(n: nat, k: nat)
    requires k <= n
    ensures Binom(n, k) == Binom(n, n - k)
    decreases n
  {
    if k == 0 {
      BinomDiagonal(n);
    } else if k == n {
      BinomDiagonal(n);
    } else {
      BinomSymmetric(n - 1, k - 1);
      BinomSymmetric(n - 1, k);
      assert n - 1 - (k - 1) == n - k && n - 1 - k == n - k - 1;
    }
  }

  function Pow2(n: nat): nat {
    if n == 0 then 1 else 2 * Pow2(n - 1)
  }

  /** The sum of the first m entries of a row. */
  function Sum(r: seq<int>, m: nat): int
    requires m <= |r|
  {
    if m == 0 then 0 else Sum(r, m - 1) + r[m - 1]
  }

  /** The sum C(n, 0) + ... + C(n, m - 1). */
  function BinomSum(n: nat, m: nat): int {
    if m == 0 then 0 else BinomSum(n, m - 1) + Binom(n, m - 1)
  }

  lemma {:induction false} BinomSumStep(n: nat, m: nat)
    requires n > 0
    ensures BinomSum(n, m + 1) == BinomSum(n - 1, m) + BinomSum(n - 1, m + 1)
  {
    if m > 0 {
      BinomSumStep(n, m - 1);
    }
  }

  lemma {:induction false} BinomSumFull(n: nat, m: nat)
    requires m > n
    ensures BinomSum(n, m) == BinomSum(n, n + 1)
    decreases m
  {
    if m > n + 1 {
      BinomSumFull(n, m - 1);
      BinomAbove(n, m - 1);
    }
  }

  /** Row n sums to 2^n. */
  lemma {:induction false} RowSum(n: nat)
    ensures Sum(Row(n), n + 1) == Pow2(n)
  {
    RowSumIsBinomSum(n, n + 1);
    BinomSumPow(n);
  }

  lemma {:induction false} RowSumIsBinomSum(n: nat, m: nat)
    requires m <= n + 1
    ensures Sum(Row(n), m) == BinomSum(n, m)
  {
    if m > 0 {
      RowSumIsBinomSum(n, m - 1);
    }
  }

  lemma {:induction false} BinomSumPow(n: nat)
    ensures BinomSum(n, n + 1) == Pow2(n)
  {
    if n > 0 {
      BinomSumPow(n - 1);
      BinomSumStep(n, n);
      BinomSumFull(n - 1, n + 1);
    }
  }

  /** The row loop: 1, then the sums of neighbours of the previous row, then 1. */
  method NextRow(previous: seq<int>, i: nat) returns (row: seq<int>)
    requires i >= 1 && previous == Row(i - 1)
    ensures row == Row(i)
  {
    row := [1];
    for j := 1 to i
      invariant |row| == j
      invariant forall k :: 0 <= k < j ==> row[k] == Binom(i, k)
    {
      row := row + [previous[j - 1] + previous[j]];
    }
    row := row + [1];
    BinomDiagonal(i);
  }

  /** `generar_triangulo_pascal(N)`: nothing for a negative N, otherwise rows 0 to N. */
  method GenerarTrianguloPascal(n: int) returns (triangle: seq<seq<int>>)
    ensures n < 0 ==> triangle == []
    ensures n >= 0 ==> |triangle| == n + 1 && forall i :: 0 <= i <= n ==> triangle[i] == Row(i)
  {
    triangle := [];
    if n >= 0 {
      triangle := [[1]];
      assert Row(0) == [1];
    }
    var i := 1;
    while i <= n
      invariant n < 0 ==> triangle == []
      invariant n >= 0 ==> 1 <= i <= n + 1 && |triangle| == i
      invariant forall k :: 0 <= k < |triangle| ==> triangle[k] == Row(k)
      decreases n - i
    {
      var row := NextRow(triangle[i - 1], i);
      triangle := triangle + [row];
      i := i + 1;
    }
  }

  /** Entry (i, j) of the multiplied triangle: `(6*i)-2*fila_original[j]`, which is not (6i - 2) t[i][j]. */
  function Scaled(i: int, value: int): int {
    6 * i - 2 * value
  }

  /** `scaled` has the shape of `triangle` and holds its entries multiplied. */
  predicate ScaledOf(scaled: seq<seq<int>>, triangle: seq<seq<int>>) {
    |scaled| == |triangle|
    && (forall i :: 0 <= i < |triangle| ==> |scaled[i]| == |triangle[i]|)
    && (forall i, j :: 0 <= i < |triangle| && 0 <= j < |triangle[i]| ==> scaled[i][j] == Scaled(i, triangle[i][j]))
  }

  /**
   * The multiplied triangle loses nothing: it determines the triangle it was made
   * from, entry (i, j) being `(6*i - scaled[i][j]) / 2`.
   */
  lemma {:induction false} ScaledDetermines(scaled: seq<seq<int>>, t1: seq<seq<int>>, t2: seq<seq<int>>)
    requires ScaledOf(scaled, t1) && ScaledOf(scaled, t2)
    ensures t1 == t2
    ensures forall i, j :: 0 <= i < |t1| && 0 <= j < |t1[i]| ==> t1[i][j] == (6 * i - scaled[i][j]) / 2
  {
    forall i | 0 <= i < |t1|
      ensures t1[i] == t2[i]
    {
      forall j | 0 <= j < |t1[i]|
        ensures t1[i][j] == t2[i][j]
      {
        assert Scaled(i, t1[i][j]) == scaled[i][j] == Scaled(i, t2[i][j]);
      }
    }
  }

  /** `generar_triangulo_pascal_multiplicado`: a new triangle of the same shape; the input is a value and stays as it is. */
  method GenerarTrianguloPascalMultiplicado(triangle: seq<seq<int>>) returns (scaled: seq<seq<int>>)
    ensures ScaledOf(scaled, triangle)
  {
    scaled := [];
    for i := 0 to |triangle|
      invariant |scaled| == i
      invariant forall k :: 0 <= k < i ==> |scaled[k]| == |triangle[k]|
      invariant forall k, j :: 0 <= k < i && 0 <= j < |triangle[k]| ==> scaled[k][j] == Scaled(k, triangle[k][j])
    {
      var row := [];
      for j := 0 to |triangle[i]|
        invariant |row| == j
        invariant forall m :: 0 <= m < j ==> row[m] == Scaled(i, triangle[i][m])
      {
        row := row + [Scaled(i, triangle[i][j])];
      }
      scaled := scaled + [row];
    }
  }

  /** The sign `valier` gives entry j: + for j = 0 and for odd j, - for even j > 0. */
  function Sign(j: nat): int {
    if j == 0 || j % 2 != 0 then 1 else -1
  }

  /** `valier` over the first m entries. */
  function Valier(r: seq<int>, m: nat): int
    requires m <= |r|
  {
    if m == 0 then 0 else Valier(r, m - 1) + Sign(m - 1) * r[m - 1]
  }

  /** The `valier` loop. */
  method AlternatingSum(r: seq<int>) returns (valier: int)
    ensures valier == Valier(r, |r|)
  {
    valier := 0;
    for j := 0 to |r|
      invariant valier == Valier(r, j)
    {
      if j == 0 {
        valier := valier + r[j];
      } else if j % 2 != 0 {
        valier := valier + r[j];
      } else {
        valier := valier - r[j];
      }
    }
  }

  /** The alternating sum C(n, 0) - C(n, 1) + ... of the first m coefficients. */
  function AltBinom(n: nat, m: nat): int {
    if m == 0 then 0 else AltBinom(n, m - 1) + (if (m - 1) % 2 == 0 then 1 else -1) * Binom(n, m - 1)
  }

  /** Pascal's rule telescopes the alternating sum: it is (-1)^(m-1) C(n - 1, m - 1). */
  lemma {:induction false} AltBinomTelescopes(n: nat, m: nat)
    requires n > 0 && m > 0
    ensures AltBinom(n, m) == (if (m - 1) % 2 == 0 then 1 else -1) * Binom(n - 1, m - 1)
  {
    if m > 1 {
      AltBinomTelescopes(n, m - 1);
    }
  }

  /** A whole row of at least two entries has alternating sum 0. */
  lemma {:induction false} AltBinomRow(n: nat)
    requires n > 0
    ensures AltBinom(n, n + 1) == 0
  {
    AltBinomTelescopes(n, n + 1);
    BinomAbove(n - 1, n);
  }

  /** Row i of the multiplied Pascal triangle. */
  function ScaledRow(i: nat): (r: seq<int>)
    ensures |r| == i + 1
    ensures forall j :: 0 <= j <= i ==> r[j] == Scaled(i, Binom(i, j))
  {
    seq(i + 1, j requires 0 <= j => Scaled(i, Binom(i, j)))
  }

  lemma {:induction false} ValierOfScaledPrefix(i: nat, m: nat)
    requires 1 <= m <= i + 1
    ensures Valier(ScaledRow(i), m) == 12 * i - 4 - (if m % 2 == 1 then 6 * i else 0) + 2 * AltBinom(i, m)
  {
    if m > 1 {
      ValierOfScaledPrefix(i, m - 1);
    }
  }

  /**
   * What the script prints after each even row of the multiplied triangle:
   * `valier` is 6i - 4, except -2 for the single-entry row 0.
   */
  lemma {:induction false} ValierOfEvenRow(i: nat)
    requires i % 2 == 0
    ensures Valier(ScaledRow(i), i + 1) == if i == 0 then -2 else 6 * i - 4
  {
    ValierOfScaledPrefix(i, i + 1);
    if i > 0 {
      AltBinomRow(i);
    }
  }

  /** The printing loop over the even rows (`range(0, len(z2), 2)`), collecting each row's `valier`. */
  method EvenRowSums(scaled: seq<seq<int>>) returns (sums: seq<int>)
    ensures |sums| == (|scaled| + 1) / 2
    ensures forall k :: 0 <= k < |sums| ==> sums[k] == Valier(scaled[2 * k], |scaled[2 * k]|)
  {
    sums := [];
    var i := 0;
    while i < |scaled|
      invariant i % 2 == 0 && i <= |scaled| + 1 && |sums| == i / 2
      invariant forall k :: 0 <= k < |sums| ==> sums[k] == Valier(scaled[2 * k], |scaled[2 * k]|)
      decreases |scaled| - i
    {
      var valier := AlternatingSum(scaled[i]);
      sums := sums + [valier];
      i := i + 2;
    }
  }

  /**
   * The whole script: for N >= 0 the k-th printed sum of the multiplied triangle of
   * rows 0 to N is 12k - 4, and -2 for k = 0.
   */
  lemma {:induction false} PrintedSums(n: nat, triangle: seq<seq<int>>, scaled: seq<seq<int>>, k: nat)
    requires |triangle| == n + 1 && forall i :: 0 <= i <= n ==> triangle[i] == Row(i)
    requires ScaledOf(scaled, triangle)
    requires 2 * k <= n
    ensures Valier(scaled[2 * k], |scaled[2 * k]|) == if k == 0 then -2 else 12 * k - 4
  {
    assert scaled[2 * k] == ScaledRow(2 * k);
    ValierOfEvenRow(2 * k);
  }
}
