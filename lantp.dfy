/** `lapack::lantp`: a norm of a triangular matrix in packed storage. The wrapper guards
    `n`, sizes a scratch vector from the norm kind and returns whatever the native
    routine computes; AP is only read. The native routine is a parameter of the model. */
module Lantp {
  import opened Marshal

  /** Which norm to compute. */
  datatype Norm = Max | One | Inf | Fro

  /** Whether the matrix has an implicit unit diagonal. */
  datatype Diag = NonUnit | Unit

  /** The arguments the native `LAPACK_?lantp` receives, and the length of its scratch vector. */
  datatype LantpCall = LantpCall(entry: string, norm: Norm, uplo: Uplo, diag: Diag, n: int, workLength: int)

  function EntryPoint(s: Scalar): string
  {
    "LAPACK_" + [Prefix(s)] + "lantp"
  }

  /** `lwork = (norm == Norm::Inf ? n : 1)`: only the infinity norm needs a row-sum per row. */
  function Lwork(norm: Norm, n: int): int
  {
    if norm == Inf then n else 1
  }

  /** The scratch vector holds `max(1, lwork)` entries. */
  function WorkLength(norm: Norm, n: int): (len: int)
    ensures len >= 1
    ensures norm == Inf && n >= 1 ==> len == n
    ensures norm != Inf || n < 1 ==> len == 1
  {
    if Lwork(norm, n) < 1 then 1 else Lwork(norm, n)
  }

  /** The call the native routine receives once the guard has passed: `n` arrives
      unchanged and the scratch vector is never empty, and long enough for the
      infinity norm. */
  function LantpArgs(w: IntWidth, s: Scalar, norm: Norm, uplo: Uplo, diag: Diag, n: int): (call: LantpCall)
    requires IsInt64(n) && !Overflows(w, n)
    ensures call.n == n
    ensures call.workLength >= 1 && (norm == Inf ==> call.workLength >= n)
    ensures call == LantpCall(EntryPoint(s), norm, uplo, diag, n, call.workLength)
  {
    LantpCall(EntryPoint(s), norm, uplo, diag, Narrow(w, n), WorkLength(norm, n))
  }

  /** One overload of `lapack::lantp`: the overflow error, or the native routine's value. */
  function Lantp(w: IntWidth, s: Scalar, norm: Norm, uplo: Uplo, diag: Diag, n: int,
                 native: LantpCall -> real): (r: Outcome<real>)
    requires IsInt64(n)
    ensures r.Thrown? <==> Overflows(w, n)
    ensures r.Thrown? ==> r.error == Overflow
    ensures r.Returned? ==> r.value == native(LantpArgs(w, s, norm, uplo, diag, n))
  {
    if Overflows(w, n) then Thrown(Overflow) else Returned(native(LantpArgs(w, s, norm, uplo, diag, n)))
  }

  /** The documented behaviour of the native routine for an empty matrix: it returns zero. */
  ghost predicate ZeroForEmpty(native: LantpCall -> real)
  {
    forall call: LantpCall :: call.n == 0 ==> native(call) == 0.0
  }

  /** So the wrapper returns exactly 0 for n = 0, whatever the norm, triangle, diagonal or width. */
  lemma {:induction false} EmptyMatrixNormIsZero(w: IntWidth, s: Scalar, norm: Norm, uplo: Uplo, diag: Diag,
                                                 native: LantpCall -> real)
    requires ZeroForEmpty(native)
    ensures Lantp(w, s, norm, uplo, diag, 0, native) == Returned(0.0)
  {
    assert LantpArgs(w, s, norm, uplo, diag, 0).n == 0;
  }
}
