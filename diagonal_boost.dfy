/** The test drivers make a random Hermitian matrix diagonally dominant, hence positive
    definite, by adding n to each diagonal entry of its packed or band storage in place.
    Scalars are modelled as reals (for complex types the addition changes the real part). */
module DiagonalBoost {
  import opened Marshal
  import opened BandStorage
  import opened PackedStorage

  /** `s` with `delta` added at every position in `positions` and nothing else changed. */
  function Boosted(s: seq<real>, positions: set<int>, delta: real): (r: seq<real>)
    ensures |r| == |s|
  {
    seq(|s|, k requires 0 <= k < |s| => if k in positions then s[k] + delta else s[k])
  }

  /** Positions of the packed diagonal entries of columns 0..count-1. */
  function PackedDiagonal(uplo: Uplo, n: int, count: nat): set<int>
  {
    set k | 0 <= k < count :: DiagonalIndex(uplo, n, k)
  }

  /** Positions of the band diagonal entries of columns 0..count-1. */
  function BandDiagonal(uplo: Uplo, kd: int, ldab: int, count: nat): set<int>
  {
    set j | 0 <= j < count :: DiagonalOffset(uplo, kd, ldab, j)
  }

  /** Adding at one more position that was not boosted yet extends the boosted set. */
  lemma BoostOneMore(s: seq<real>, positions: set<int>, p: int, delta: real)
    requires 0 <= p < |s| && p !in positions
    ensures Boosted(s, positions, delta)[p := Boosted(s, positions, delta)[p] + delta]
            == Boosted(s, positions + {p}, delta)
  {
  }

  /** How `test_ppsv`/`test_pptri` (0.5 factor) and `test_hpgv` (integer division)
      compute the packed diagonal index. */
  datatype IndexArithmetic = IntegerHalving | FloatingHalf

  /** The index the drivers' loop subscripts with: the floating-point value is converted
      to an integer subscript by truncation, which is exact here. */
  function PackedSubscript(arith: IndexArithmetic, uplo: Uplo, n: int, i: nat): (k: int)
    ensures k == DiagonalIndex(uplo, n, i)
  {
    HalfDiagonalIndexExact(uplo, n, i);
    match arith
    case IntegerHalving => DiagonalIndex(uplo, n, i)
    case FloatingHalf => HalfDiagonalIndex(uplo, n, i).Floor
  }

  /** The packed boost loops: `AP[diag(i)] += n` for i = 0..n-1. */
  method BoostPackedDiagonal(AP: array<real>, uplo: Uplo, n: nat, arith: IndexArithmetic)
    requires AP.Length == PackedLength(n)
    modifies AP
    ensures AP[..] == Boosted(old(AP[..]), PackedDiagonal(uplo, n, n), n as real)
  {
    for i := 0 to n
      invariant AP[..] == Boosted(old(AP[..]), PackedDiagonal(uplo, n, i), n as real)
    {
      var k := PackedSubscript(arith, uplo, n, i);
      DiagonalIndexInBounds(uplo, n, i);
      forall j | 0 <= j < i
        ensures DiagonalIndex(uplo, n, j) != k
      {
        DiagonalIndexMonotone(uplo, n, j, i);
      }
      BoostOneMore(old(AP[..]), PackedDiagonal(uplo, n, i), k, n as real);
      assert PackedDiagonal(uplo, n, i + 1) == PackedDiagonal(uplo, n, i) + {k};
      AP[k] := AP[k] + n as real;
    }
  }

  /** The band boost loops: `AB[kd + j*ldab] += n` (Upper) or `AB[j*ldab] += n` (Lower). */
  method BoostBandDiagonal(AB: array<real>, uplo: Uplo, n: nat, kd: nat, ldab: int)
    requires ldab >= kd + 1 && AB.Length == ldab * n
    modifies AB
    ensures AB[..] == Boosted(old(AB[..]), BandDiagonal(uplo, kd, ldab, n), n as real)
  {
    for j := 0 to n
      invariant AB[..] == Boosted(old(AB[..]), BandDiagonal(uplo, kd, ldab, j), n as real)
    {
      var k := DiagonalOffset(uplo, kd, ldab, j);
      DiagonalOffsetIsBandDiagonal(uplo, n, kd, ldab, j);
      BandOffsetInBounds(uplo, n, kd, ldab, j + 1, j + 1);
      forall c | 0 <= c < j
        ensures DiagonalOffset(uplo, kd, ldab, c) != k
      {
        DiagonalOffsetMonotone(uplo, n, kd, ldab, c, j);
      }
      BoostOneMore(old(AB[..]), BandDiagonal(uplo, kd, ldab, j), k, n as real);
      assert BandDiagonal(uplo, kd, ldab, j + 1) == BandDiagonal(uplo, kd, ldab, j) + {k};
      AB[k] := AB[k] + n as real;
    }
  }

  /** The packed boost adds n at exactly n distinct positions, all inside the buffer. */
  lemma {:induction false} PackedDiagonalCount(uplo: Uplo, n: nat, count: nat)
    requires count <= n
    ensures |PackedDiagonal(uplo, n, count)| == count
    ensures forall p :: p in PackedDiagonal(uplo, n, count) ==> 0 <= p < PackedLength(n)
  {
    if count > 0 {
      PackedDiagonalCount(uplo, n, count - 1);
      var k := DiagonalIndex(uplo, n, count - 1);
      DiagonalIndexInBounds(uplo, n, count - 1);
      forall j | 0 <= j < count - 1
        ensures DiagonalIndex(uplo, n, j) != k
      {
        DiagonalIndexMonotone(uplo, n, j, count - 1);
      }
      assert PackedDiagonal(uplo, n, count) == PackedDiagonal(uplo, n, count - 1) + {k};
    }
  }

  /** Every band position the boost touches lies in the diagonal row of its column:
      row kd for Upper, row 0 for Lower; there are n of them, all inside the buffer. */
  lemma {:induction false} BandDiagonalRow(uplo: Uplo, n: nat, kd: nat, ldab: int, count: nat)
    requires ldab >= kd + 1 && count <= n
    ensures |BandDiagonal(uplo, kd, ldab, count)| == count
    ensures forall p :: p in BandDiagonal(uplo, kd, ldab, count) ==>
              0 <= p < ldab * n && p % ldab == (if uplo == Upper then kd else 0)
  {
    if count > 0 {
      BandDiagonalRow(uplo, n, kd, ldab, count - 1);
      var k := DiagonalOffset(uplo, kd, ldab, count - 1);
      DiagonalOffsetSplit(uplo, kd, ldab, count - 1);
      DiagonalOffsetIsBandDiagonal(uplo, n, kd, ldab, count - 1);
      BandOffsetInBounds(uplo, n, kd, ldab, count, count);
      forall c | 0 <= c < count - 1
        ensures DiagonalOffset(uplo, kd, ldab, c) != k
      {
        DiagonalOffsetMonotone(uplo, n, kd, ldab, c, count - 1);
      }
      assert BandDiagonal(uplo, kd, ldab, count) == BandDiagonal(uplo, kd, ldab, count - 1) + {k};
    }
  }
}
