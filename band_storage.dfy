/** The band storage scheme of a Hermitian positive definite band matrix with `kd`
    super- (Upper) or sub-diagonals (Lower): column j of A is kept in column j of an
    `ldab`-by-n array AB, stored column-major in a flat buffer. Indices i, j of A and
    rows of AB are 1-based as in the documentation; buffer offsets are 0-based. */
module BandStorage {
  import opened Marshal

  function Max(a: int, b: int): int { if a < b then b else a }
  function Min(a: int, b: int): int { if a < b then a else b }

  /** A(i, j) is one of the entries the band layout stores. */
  predicate InBand(uplo: Uplo, n: int, kd: int, i: int, j: int)
  {
    1 <= j <= n &&
    match uplo
    case Upper => Max(1, j - kd) <= i <= j
    case Lower => j <= i <= Min(n, j + kd)
  }

  /** The row of AB that holds A(i, j): kd+1+i-j (Upper) or 1+i-j (Lower). */
  function BandRow(uplo: Uplo, kd: int, i: int, j: int): (row: int)
    requires kd >= 0
    ensures forall n :: InBand(uplo, n, kd, i, j) ==> 1 <= row <= kd + 1
  {
    match uplo
    case Upper => kd + 1 + i - j
    case Lower => 1 + i - j
  }

  /** Offset of AB(row, j) in the flat column-major buffer. */
  function BandOffset(uplo: Uplo, kd: int, ldab: int, i: int, j: int): int
    requires kd >= 0
  {
    (BandRow(uplo, kd, i, j) - 1) + (j - 1) * ldab
  }

  lemma MulMono(a: int, b: int, c: nat)
    requires a <= b
    ensures a * c <= b * c
  {
  }

  /** With ldab >= kd+1 every stored entry lands inside the ldab*n buffer. */
  lemma {:induction false} BandOffsetInBounds(uplo: Uplo, n: int, kd: int, ldab: int, i: int, j: int)
    requires kd >= 0 && ldab >= kd + 1
    requires InBand(uplo, n, kd, i, j)
    ensures 0 <= BandOffset(uplo, kd, ldab, i, j) < ldab * n
  {
    var row := BandRow(uplo, kd, i, j);
    MulMono(0, j - 1, ldab);
    MulMono(j, n, ldab);
    assert (j - 1) * ldab + ldab == j * ldab;
  }

  /** Distinct stored entries of A occupy distinct offsets of AB. */
  lemma {:induction false} BandOffsetInjective(uplo: Uplo, n: int, kd: int, ldab: int,
                                               i1: int, j1: int, i2: int, j2: int)
    requires kd >= 0 && ldab >= kd + 1
    requires InBand(uplo, n, kd, i1, j1) && InBand(uplo, n, kd, i2, j2)
    requires BandOffset(uplo, kd, ldab, i1, j1) == BandOffset(uplo, kd, ldab, i2, j2)
    ensures i1 == i2 && j1 == j2
  {
    if j1 < j2 {
      ColumnsOrdered(uplo, n, kd, ldab, i1, j1, i2, j2);
    } else if j2 < j1 {
      ColumnsOrdered(uplo, n, kd, ldab, i2, j2, i1, j1);
    }
  }

  /** Every entry of an earlier column sits before every entry of a later one. */
  lemma ColumnsOrdered(uplo: Uplo, n: int, kd: int, ldab: int, i1: int, j1: int, i2: int, j2: int)
    requires kd >= 0 && ldab >= kd + 1
    requires InBand(uplo, n, kd, i1, j1) && InBand(uplo, n, kd, i2, j2)
    requires j1 < j2
    ensures BandOffset(uplo, kd, ldab, i1, j1) < BandOffset(uplo, kd, ldab, i2, j2)
  {
    MulMono(j1, j2 - 1, ldab);
    assert (j1 - 1) * ldab + ldab == j1 * ldab;
  }

  /** The diagonal entry of 0-based column j as the band test drivers index it:
      `kd + j*ldab` for Upper, `j*ldab` for Lower. */
  function DiagonalOffset(uplo: Uplo, kd: int, ldab: int, j: int): int
  {
    match uplo
    case Upper => kd + j * ldab
    case Lower => j * ldab
  }

  /** The test drivers' index is the documented band position of A(j+1, j+1), which
      sits in row kd+1 (Upper) or row 1 (Lower) of AB. */
  lemma {:induction false} DiagonalOffsetIsBandDiagonal(uplo: Uplo, n: int, kd: int, ldab: int, j: int)
    requires kd >= 0 && 0 <= j < n
    ensures InBand(uplo, n, kd, j + 1, j + 1)
    ensures DiagonalOffset(uplo, kd, ldab, j) == BandOffset(uplo, kd, ldab, j + 1, j + 1)
    ensures BandRow(uplo, kd, j + 1, j + 1) == if uplo == Upper then kd + 1 else 1
  {
  }

  /** The diagonal of column j lies in column j of AB, in its diagonal row: so the
      boost loops touch only row kd (Upper) or row 0 (Lower), once per column. */
  lemma {:induction false} DiagonalOffsetSplit(uplo: Uplo, kd: int, ldab: int, j: int)
    requires kd >= 0 && ldab >= kd + 1 && j >= 0
    ensures DiagonalOffset(uplo, kd, ldab, j) / ldab == j
    ensures DiagonalOffset(uplo, kd, ldab, j) % ldab == if uplo == Upper then kd else 0
  {
    var d := DiagonalOffset(uplo, kd, ldab, j);
    var r := if uplo == Upper then kd else 0;
    assert d == j * ldab + r;
    DivModUnique(d, ldab, j, r);
  }

  lemma DivModUnique(d: int, m: int, q: int, r: int)
    requires m > 0 && 0 <= r < m && d == q * m + r
    ensures d / m == q && d % m == r
  {
    var q', r' := d / m, d % m;
    assert d == q' * m + r' && 0 <= r' < m;
    MultiplesApart(q, q', m);
  }

  /** Two different multiples of m are at least m apart. */
  lemma MultiplesApart(a: int, b: int, m: nat)
    ensures a == b || a * m + m <= b * m || b * m + m <= a * m
  {
    assert a * m + m == (a + 1) * m && b * m + m == (b + 1) * m;
    if a < b {
      MulMono(a + 1, b, m);
    } else if b < a {
      MulMono(b + 1, a, m);
    }
  }

  /** The diagonal offsets of columns 0..n-1 strictly increase and stay below ldab*n. */
  lemma {:induction false} DiagonalOffsetMonotone(uplo: Uplo, n: int, kd: int, ldab: int, j1: int, j2: int)
    requires kd >= 0 && ldab >= kd + 1
    requires 0 <= j1 < j2 < n
    ensures DiagonalOffset(uplo, kd, ldab, j1) < DiagonalOffset(uplo, kd, ldab, j2) < ldab * n
  {
    DiagonalOffsetIsBandDiagonal(uplo, n, kd, ldab, j1);
    DiagonalOffsetIsBandDiagonal(uplo, n, kd, ldab, j2);
    ColumnsOrdered(uplo, n, kd, ldab, j1 + 1, j1 + 1, j2 + 1, j2 + 1);
    BandOffsetInBounds(uplo, n, kd, ldab, j2 + 1, j2 + 1);
  }
}
