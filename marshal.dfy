/** Argument marshalling shared by every wrapper: the native integer width chosen at
    build time, the overflow guard, narrowing casts, status translation and the
    scalar-type dispatch of entry points. */
module Marshal {

  /** The width of `blas_int`/`lapack_int`: `int` by default, 64-bit when the
      library is built with LAPACK_ILP64. */
  datatype IntWidth = Int32 | Int64

  const INT32_MAX: int := 0x7fff_ffff
  const INT64_MAX: int := 0x7fff_ffff_ffff_ffff
  const TWO_32: int := 0x1_0000_0000

  /** `std::numeric_limits<blas_int>::max()`. */
  function NativeMax(w: IntWidth): int
  {
    if w == Int32 then INT32_MAX else INT64_MAX
  }

  /** `sizeof(int64_t) > sizeof(blas_int)`: the guard is compiled in only then. */
  predicate GuardActive(w: IntWidth)
  {
    w == Int32
  }

  predicate IsInt64(x: int)
  {
    -INT64_MAX - 1 <= x <= INT64_MAX
  }

  predicate IsNative(w: IntWidth, x: int)
  {
    -NativeMax(w) - 1 <= x <= NativeMax(w)
  }

  /** `std::abs` over mathematical integers (so `std::abs(INT64_MIN)` is not undefined here). */
  function Abs(x: int): nat
  {
    if x < 0 then -x else x
  }

  /** One `throw_if_(std::abs(x) > max)` line of a wrapper's guard. */
  predicate Overflows(w: IntWidth, x: int)
  {
    GuardActive(w) && Abs(x) > NativeMax(w)
  }

  /** The whole guard block: the checks run in order and the first that fires throws,
      so the call proceeds exactly when no argument overflows. */
  function GuardPasses(w: IntWidth, xs: seq<int>): (ok: bool)
    ensures ok <==> forall i :: 0 <= i < |xs| ==> !Overflows(w, xs[i])
  {
    if xs == [] then true else !Overflows(w, xs[0]) && GuardPasses(w, xs[1..])
  }

  /** The C cast `(blas_int) x` of an `int64_t`: the identity in ILP64 builds and
      two's-complement wrap-around to 32 bits otherwise. */
  function Narrow(w: IntWidth, x: int): (r: int)
    requires IsInt64(x)
    ensures IsNative(w, r)
    ensures w == Int32 ==> (x - r) % TWO_32 == 0
    ensures Abs(x) <= NativeMax(w) ==> r == x
  {
    if w == Int64 then x else (x + 0x8000_0000) % TWO_32 - 0x8000_0000
  }

  /** Once the guard has passed, every narrowed argument equals its 64-bit original. */
  lemma {:induction false} GuardedNarrowIsExact(w: IntWidth, xs: seq<int>, i: nat)
    requires forall k :: 0 <= k < |xs| ==> IsInt64(xs[k])
    requires GuardPasses(w, xs)
    requires i < |xs|
    ensures Narrow(w, xs[i]) == xs[i]
  {
    assert !Overflows(w, xs[i]);
  }

  /** An argument the guard does not cover can change under the cast: 2^31 becomes -2^31. */
  lemma UnguardedNarrowCanWrap()
    ensures IsInt64(INT32_MAX + 1) && Narrow(Int32, INT32_MAX + 1) == -INT32_MAX - 1
  {
  }

  /** The errors the wrappers raise. `Overflow` is the guard's precondition error,
      `NativeError` the `Error` thrown for a negative native status and `LengthError`
      what `std::vector` throws when asked for a negative size. */
  datatype Error = Overflow | NativeError | LengthError

  /** How a wrapper call ends: a normal return, or an exception. */
  datatype Outcome<+T> = Returned(value: T) | Thrown(error: Error)

  /** Status translation: a negative `info_` is thrown, anything else returned as is. */
  function TranslateStatus(info: int): (r: Outcome<int>)
    ensures r.Thrown? <==> info < 0
    ensures r.Thrown? ==> r.error == NativeError
    ensures r.Returned? ==> r.value == info && r.value >= 0
  {
    if info < 0 then Thrown(NativeError) else Returned(info)
  }

  /** The four scalar types every overload set is instantiated for. */
  datatype Scalar = Single | Double | SingleComplex | DoubleComplex

  predicate IsComplex(s: Scalar)
  {
    s == SingleComplex || s == DoubleComplex
  }

  /** The precision letter LAPACK prefixes to its routine names. */
  function Prefix(s: Scalar): (c: char)
    ensures c in "sdcz"
  {
    match s
    case Single => 's'
    case Double => 'd'
    case SingleComplex => 'c'
    case DoubleComplex => 'z'
  }

  /** Distinct scalar types call distinct entry points of the same routine. */
  lemma PrefixInjective(s: Scalar, t: Scalar)
    requires Prefix(s) == Prefix(t)
    ensures s == t
  {
  }

  /** Which triangle of a symmetric, Hermitian or triangular matrix is referenced. */
  datatype Uplo = Upper | Lower

  /** Whether eigenvectors are computed (`lapack::Job`). */
  datatype Job = NoVec | Vec
}
