/** The packed storage scheme of a triangular, symmetric or Hermitian n-by-n matrix:
    the referenced triangle is stored column by column in a linear array AP of
    n(n+1)/2 entries. Indices i, j of A and of AP are 1-based as in the documentation;
    the test drivers' diagonal indices are 0-based. */
module PackedStorage {
  import opened Marshal

  /** The triangular number k(k+1)/2, by its recursive definition. */
  function Tri(k: nat): nat
  {
    if k == 0 then 0 else Tri(k - 1) + k
  }

  lemma {:induction false} TriClosedForm(k: nat)
    ensures 2 * Tri(k) == k * (k + 1)
  {
    if k > 0 {
      TriClosedForm(k - 1);
    }
  }

  lemma {:induction false} TriMonotone(a: nat, b: nat)
    requires a <= b
    ensures Tri(a) + (b - a) <= Tri(b)
  {
    if a < b {
      TriMonotone(a, b - 1);
    }
  }

  /** The buffer length `n*(n+1)/2` the drivers allocate (and the documented size of AP). */
  function PackedLength(n: nat): (len: nat)
    ensures len == Tri(n)
  {
    TriClosedForm(n);
    n * (n + 1) / 2
  }

  /** A(i, j) lies in the stored triangle. */
  predicate InTriangle(uplo: Uplo, n: int, i: int, j: int)
  {
    match uplo
    case Upper => 1 <= i <= j <= n
    case Lower => 1 <= j <= i <= n
  }

  /** The documented position of A(i, j) in AP: i + (j-1)*j/2 (Upper),
      i + (j-1)*(2n-j)/2 (Lower). */
  function PackedIndex(uplo: Uplo, n: int, i: int, j: int): int
  {
    match uplo
    case Upper => i + (j - 1) * j / 2
    case Lower => i + (j - 1) * (2 * n - j) / 2
  }

  /** Entries of the lower triangle that precede column j: the columns before it hold
      n, n-1, ... entries. */
  function LowerStart(n: int, j: nat): int
  {
    if j <= 1 then 0 else LowerStart(n, j - 1) + (n - j + 1)
  }

  lemma {:induction false} LowerStartClosedForm(n: int, j: nat)
    requires j >= 1
    ensures 2 * LowerStart(n, j) == (j - 1) * (2 * n - j)
  {
    if j > 1 {
      LowerStartClosedForm(n, j - 1);
    }
  }

  lemma {:induction false} LowerStartMonotone(n: int, a: nat, b: nat)
    requires 1 <= a <= b <= n
    ensures LowerStart(n, a) + (b - a) <= LowerStart(n, b)
    ensures a < b ==> LowerStart(n, a) + n < LowerStart(n, b) + b
  {
    if a < b {
      LowerStartMonotone(n, a, b - 1);
    }
  }

  /** The column offsets in closed form: the divisions by 2 are exact. */
  lemma {:induction false} ColumnStart(uplo: Uplo, n: int, i: int, j: int)
    requires j >= 1
    ensures uplo == Upper ==> PackedIndex(uplo, n, i, j) == i + Tri(j - 1)
    ensures uplo == Lower ==> PackedIndex(uplo, n, i, j) == i + LowerStart(n, j)
  {
    TriClosedForm(j - 1);
    LowerStartClosedForm(n, j);
    assert (j - 1) * j == 2 * Tri(j - 1);
  }

  /** Every stored entry lands in 1..n(n+1)/2. */
  lemma {:induction false} PackedIndexInRange(uplo: Uplo, n: int, i: int, j: int)
    requires InTriangle(uplo, n, i, j)
    ensures 1 <= PackedIndex(uplo, n, i, j) <= PackedLength(n)
  {
    ColumnStart(uplo, n, i, j);
    match uplo
    case Upper =>
      TriMonotone(j, n);
    case Lower =>
      LowerStartMonotone(n, 1, j);
      LowerStartMonotone(n, j, n);
      LowerIsTri(n);
  }

  /** The lower triangle ends exactly where the upper one does, at n(n+1)/2. */
  lemma {:induction false} LowerIsTri(n: nat)
    requires n >= 1
    ensures LowerStart(n, n) + n == Tri(n)
  {
    LowerStartClosedForm(n, n);
    TriClosedForm(n);
  }

  /** Distinct stored entries occupy distinct positions of AP. */
  lemma {:induction false} PackedIndexInjective(uplo: Uplo, n: int, i1: int, j1: int, i2: int, j2: int)
    requires InTriangle(uplo, n, i1, j1) && InTriangle(uplo, n, i2, j2)
    requires PackedIndex(uplo, n, i1, j1) == PackedIndex(uplo, n, i2, j2)
    ensures i1 == i2 && j1 == j2
  {
    ColumnStart(uplo, n, i1, j1);
    ColumnStart(uplo, n, i2, j2);
    if j1 != j2 {
      var (ia, ja, ib, jb) := if j1 < j2 then (i1, j1, i2, j2) else (i2, j2, i1, j1);
      match uplo
      case Upper =>
        TriMonotone(ja, jb - 1);
      case Lower =>
        LowerStartMonotone(n, ja, jb);
    }
  }

  /** The 0-based index of the diagonal entry of column i as `test_hpgv` computes it:
      `i + (i+1)*i/2` (Upper) or `i + n*i - i*(i+1)/2` (Lower). */
  function DiagonalIndex(uplo: Uplo, n: int, i: int): int
  {
    match uplo
    case Upper => i + (i + 1) * i / 2
    case Lower => i + n * i - i * (i + 1) / 2
  }

  /** The same index as `test_ppsv` and `test_pptri` compute it, in floating point
      with a factor 0.5 (modelled over the reals, so without rounding). */
  function HalfDiagonalIndex(uplo: Uplo, n: int, i: int): real
  {
    match uplo
    case Upper => i as real + 0.5 * (i + 1) as real * i as real
    case Lower => (i + n * i) as real - 0.5 * i as real * (i + 1) as real
  }

  /** The 0-based diagonal index is the documented packed position of A(i+1, i+1), less one. */
  lemma {:induction false} DiagonalIndexIsPacked(uplo: Uplo, n: int, i: nat)
    requires i < n
    ensures InTriangle(uplo, n, i + 1, i + 1)
    ensures DiagonalIndex(uplo, n, i) == PackedIndex(uplo, n, i + 1, i + 1) - 1
  {
    TriClosedForm(i);
    LowerStartClosedForm(n, i + 1);
    ColumnStart(uplo, n, i + 1, i + 1);
    assert (i + 1) * i == i * (i + 1) == 2 * Tri(i);
    assert i * (2 * n - (i + 1)) == 2 * n * i - i * (i + 1);
  }

  /** Because i(i+1) is even, the 0.5 formulas yield exactly the integer index. */
  lemma {:induction false} HalfDiagonalIndexExact(uplo: Uplo, n: int, i: nat)
    ensures HalfDiagonalIndex(uplo, n, i) == DiagonalIndex(uplo, n, i) as real
  {
    TriClosedForm(i);
    var t := Tri(i);
    assert (i + 1) * i == i * (i + 1) == 2 * t;
    assert (i + 1) * i / 2 == t && i * (i + 1) / 2 == t;
    assert 0.5 * (i + 1) as real * i as real == ((i + 1) * i) as real / 2.0;
    assert 0.5 * i as real * (i + 1) as real == (i * (i + 1)) as real / 2.0;
  }

  /** Column by column the diagonal indices strictly increase inside [0, n(n+1)/2). */
  lemma {:induction false} DiagonalIndexMonotone(uplo: Uplo, n: int, i1: nat, i2: nat)
    requires i1 < i2 < n
    ensures 0 <= DiagonalIndex(uplo, n, i1) < DiagonalIndex(uplo, n, i2) < PackedLength(n)
  {
    DiagonalIndexIsPacked(uplo, n, i1);
    DiagonalIndexIsPacked(uplo, n, i2);
    PackedIndexInRange(uplo, n, i1 + 1, i1 + 1);
    PackedIndexInRange(uplo, n, i2 + 1, i2 + 1);
    ColumnStart(uplo, n, i1 + 1, i1 + 1);
    ColumnStart(uplo, n, i2 + 1, i2 + 1);
    match uplo
    case Upper =>
      TriMonotone(i1 + 1, i2);
    case Lower =>
      LowerStartMonotone(n, i1 + 1, i2 + 1);
  }

  /** Every diagonal index of columns 0..n-1 is a valid position of the n(n+1)/2 buffer. */
  lemma {:induction false} DiagonalIndexInBounds(uplo: Uplo, n: int, i: nat)
    requires i < n
    ensures 0 <= DiagonalIndex(uplo, n, i) < PackedLength(n)
  {
    DiagonalIndexIsPacked(uplo, n, i);
    PackedIndexInRange(uplo, n, i + 1, i + 1);
  }
}
