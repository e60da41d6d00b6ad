/** `lapack::sbgvx`: selected eigenvalues and eigenvectors of a real generalized
    symmetric-definite banded problem (overloads exist for `float` and `double` only;
    the complex counterpart is `hbgvx`). Beyond the common guard, narrowing and status
    translation, the wrapper allocates `7n` reals and `5n` integers of scratch, and in
    32-bit builds routes the native `ifail` output through a temporary `ifail_` of `n`
    native integers, copying its first `m_` entries back to the caller's 64-bit array.
    The native routine is a parameter of the model; the floating-point buffers AB, BB,
    Q, W and Z are passed straight through and are not modelled. */
module Sbgvx {
  import opened Marshal

  /** Which eigenvalues are wanted: all, those in (vl, vu], or those with index il..iu. */
  datatype Range = All | Value | Index

  /** The integer arguments the native `LAPACK_?sbgvx` receives, and the lengths of the
      scratch vectors it is handed. */
  datatype SbgvxCall = SbgvxCall(entry: string, jobz: Job, range: Range, uplo: Uplo,
                                 n: int, ka: int, kb: int, ldab: int, ldbb: int, ldq: int,
                                 il: int, iu: int, m: int, ldz: int,
                                 workLength: int, iworkLength: int)

  /** What the native routine leaves behind: `info_`, `m_` and the n entries of the
      integer buffer it was given for `ifail`. */
  datatype SbgvxEffect = SbgvxEffect(info: int, m: int, ifail: seq<int>)

  /** The native routine's documented behaviour that the wrapper relies on: it writes
      the n entries of `ifail` it is handed, and on a normal exit reports 0 <= m <= n. */
  ghost predicate NativeContract(native: (SbgvxCall, seq<int>) -> SbgvxEffect)
  {
    forall call, buf ::
      |native(call, buf).ifail| == |buf| &&
      (native(call, buf).info >= 0 ==> 0 <= native(call, buf).m <= call.n)
  }

  function EntryPoint(s: Scalar): string
  {
    "LAPACK_" + [Prefix(s)] + "sbgvx"
  }

  /** The nine arguments the guard checks; `*m` is not among them. */
  function GuardedSizes(n: int, ka: int, kb: int, ldab: int, ldbb: int, ldq: int, il: int, iu: int, ldz: int)
    : seq<int>
  {
    [n, ka, kb, ldab, ldbb, ldq, il, iu, ldz]
  }

  predicate AllInt64(xs: seq<int>)
  {
    forall i :: 0 <= i < |xs| ==> IsInt64(xs[i])
  }

  /** The call after narrowing, once the guard has passed. The nine guarded arguments
      arrive unchanged; `m` is cast without a check; the scratch vectors hold exactly
      `7n` reals and `5n` integers. */
  function SbgvxArgs(w: IntWidth, s: Scalar, jobz: Job, range: Range, uplo: Uplo,
                     n: int, ka: int, kb: int, ldab: int, ldbb: int, ldq: int,
                     il: int, iu: int, m: int, ldz: int): (call: SbgvxCall)
    requires !IsComplex(s)
    requires AllInt64(GuardedSizes(n, ka, kb, ldab, ldbb, ldq, il, iu, ldz)) && IsInt64(m)
    requires GuardPasses(w, GuardedSizes(n, ka, kb, ldab, ldbb, ldq, il, iu, ldz))
    ensures call.n == n && call.ka == ka && call.kb == kb && call.ldab == ldab && call.ldbb == ldbb
    ensures call.ldq == ldq && call.il == il && call.iu == iu && call.ldz == ldz
    ensures call.m == Narrow(w, m)
    ensures call.workLength == 7 * n && call.iworkLength == 5 * n
    ensures call.entry == EntryPoint(s) && call.jobz == jobz && call.range == range && call.uplo == uplo
  {
    var sizes := GuardedSizes(n, ka, kb, ldab, ldbb, ldq, il, iu, ldz);
    GuardedNarrowIsExact(w, sizes, 0);
    GuardedNarrowIsExact(w, sizes, 1);
    GuardedNarrowIsExact(w, sizes, 2);
    GuardedNarrowIsExact(w, sizes, 3);
    GuardedNarrowIsExact(w, sizes, 4);
    GuardedNarrowIsExact(w, sizes, 5);
    GuardedNarrowIsExact(w, sizes, 6);
    GuardedNarrowIsExact(w, sizes, 7);
    GuardedNarrowIsExact(w, sizes, 8);
    SbgvxCall(EntryPoint(s), jobz, range, uplo, Narrow(w, n), Narrow(w, ka), Narrow(w, kb),
              Narrow(w, ldab), Narrow(w, ldbb), Narrow(w, ldq), Narrow(w, il), Narrow(w, iu),
              Narrow(w, m), Narrow(w, ldz), 7 * n, 5 * n)
  }

  /** `*m` is outside the guard: a value the guard would reject for any other argument
      passes and is silently wrapped by the cast. */
  lemma {:induction false} MIsNarrowedUnchecked(s: Scalar, jobz: Job, range: Range, uplo: Uplo)
    requires !IsComplex(s)
    ensures var sizes := GuardedSizes(1, 0, 0, 1, 1, 1, 1, 1, 1);
      AllInt64(sizes) && GuardPasses(Int32, sizes) && Overflows(Int32, INT32_MAX + 1) &&
      SbgvxArgs(Int32, s, jobz, range, uplo, 1, 0, 0, 1, 1, 1, 1, 1, INT32_MAX + 1, 1).m != INT32_MAX + 1
  {
    var sizes := GuardedSizes(1, 0, 0, 1, 1, 1, 1, 1, 1);
    assert forall i :: 0 <= i < |sizes| ==> !Overflows(Int32, sizes[i]);
    UnguardedNarrowCanWrap();
  }

  /** For n = 0 the scratch vectors are empty, so `&work[0]` and `&iwork[0]` (and, in
      32-bit builds, `&ifail_[0]`) subscript past the end of an empty vector. */
  lemma EmptyScratchAtZero(w: IntWidth, s: Scalar, jobz: Job, range: Range, uplo: Uplo, m: int)
    requires !IsComplex(s) && IsInt64(m)
    ensures var call := SbgvxArgs(w, s, jobz, range, uplo, 0, 0, 0, 1, 1, 1, 1, 1, m, 1);
      call.workLength == 0 && call.iworkLength == 0
  {
    assert GuardPasses(w, GuardedSizes(0, 0, 0, 1, 1, 1, 1, 1, 1));
  }

  /** The first n entries of the buffer the native routine writes `ifail` into: a fresh
      zero-filled `ifail_` in 32-bit builds, the caller's own array in ILP64 builds. */
  function IfailBuffer(w: IntWidth, n: nat, callerIfail: seq<int>): seq<int>
    requires n <= |callerIfail|
  {
    if w == Int32 then seq(n, _ => 0) else callerIfail[..n]
  }

  /** The caller's `ifail` after a normal return: in 32-bit builds the first `m_` entries
      are copied from `ifail_`, and the rest are untouched; in ILP64 builds the native
      routine wrote its n entries directly. */
  function IfailAfter(w: IntWidth, n: nat, callerIfail: seq<int>, effect: SbgvxEffect): (r: seq<int>)
    requires n <= |callerIfail| && |effect.ifail| == n && 0 <= effect.m <= n
    ensures |r| == |callerIfail|
    ensures w == Int32 ==> forall k :: 0 <= k < |r| ==>
      r[k] == if k < effect.m then effect.ifail[k] else callerIfail[k]
    ensures w == Int64 ==> forall k :: 0 <= k < |r| ==>
      r[k] == if k < n then effect.ifail[k] else callerIfail[k]
  {
    if w == Int32 then effect.ifail[..effect.m] + callerIfail[effect.m..]
    else effect.ifail + callerIfail[n..]
  }

  /** One overload of `lapack::sbgvx`. `*m` is in/out: `mIn` is its value on entry and
      `mOut` its value when the call ends, normally or by an exception. */
  method Sbgvx(w: IntWidth, s: Scalar, jobz: Job, range: Range, uplo: Uplo,
               n: int, ka: int, kb: int, ldab: int, ldbb: int, ldq: int,
               il: int, iu: int, mIn: int, ldz: int, ifail: array<int>,
               native: (SbgvxCall, seq<int>) -> SbgvxEffect)
    returns (r: Outcome<int>, mOut: int)
    requires !IsComplex(s)
    requires AllInt64(GuardedSizes(n, ka, kb, ldab, ldbb, ldq, il, iu, ldz)) && IsInt64(mIn)
    requires NativeContract(native)
    requires n <= ifail.Length
    modifies ifail
    ensures !GuardPasses(w, GuardedSizes(n, ka, kb, ldab, ldbb, ldq, il, iu, ldz)) ==>
      r == Thrown(Overflow) && mOut == mIn && ifail[..] == old(ifail[..])
    ensures GuardPasses(w, GuardedSizes(n, ka, kb, ldab, ldbb, ldq, il, iu, ldz)) && n < 0 ==>
      r == Thrown(LengthError) && mOut == mIn && ifail[..] == old(ifail[..])
    ensures GuardPasses(w, GuardedSizes(n, ka, kb, ldab, ldbb, ldq, il, iu, ldz)) && n >= 0 ==>
      var call := SbgvxArgs(w, s, jobz, range, uplo, n, ka, kb, ldab, ldbb, ldq, il, iu, mIn, ldz);
      var effect := native(call, IfailBuffer(w, n, old(ifail[..])));
      if effect.info < 0 then
        r == Thrown(NativeError) && mOut == mIn &&
        ifail[..] == if w == Int32 then old(ifail[..]) else effect.ifail + old(ifail[n..])
      else
        r == Returned(effect.info) && mOut == effect.m &&
        ifail[..] == IfailAfter(w, n, old(ifail[..]), effect)
  {
    mOut := mIn;
    var sizes := GuardedSizes(n, ka, kb, ldab, ldbb, ldq, il, iu, ldz);
    if !GuardPasses(w, sizes) {
      return Thrown(Overflow), mOut;
    }
    if n < 0 {
      // std::vector of a negative size: ifail_ (32-bit) or work (ILP64) throws first
      return Thrown(LengthError), mOut;
    }
    var call := SbgvxArgs(w, s, jobz, range, uplo, n, ka, kb, ldab, ldbb, ldq, il, iu, mIn, ldz);
    var effect := native(call, IfailBuffer(w, n, ifail[..]));
    if w == Int64 {
      // ifail is handed to the native routine directly
      forall k | 0 <= k < n {
        ifail[k] := effect.ifail[k];
      }
      assert ifail[..] == effect.ifail + old(ifail[n..]);
      if effect.info < 0 {
        return Thrown(NativeError), mOut;
      }
      mOut := effect.m;
    } else {
      // a zero-filled ifail_ of n native integers receives the native output
      var ifailTmp := new int[n](_ => 0);
      forall k | 0 <= k < n {
        ifailTmp[k] := effect.ifail[k];
      }
      if effect.info < 0 {
        return Thrown(NativeError), mOut;
      }
      mOut := effect.m;
      // std::copy(&ifail_[0], &ifail_[m_], ifail): in bounds because m_ <= n
      var k := 0;
      while k < effect.m
        invariant 0 <= k <= effect.m
        invariant forall j :: 0 <= j < n ==> ifailTmp[j] == effect.ifail[j]
        invariant forall j :: 0 <= j < ifail.Length ==>
          ifail[j] == if j < k then effect.ifail[j] else old(ifail[j])
      {
        ifail[k] := ifailTmp[k];
        k := k + 1;
      }
      assert ifail[..] == IfailAfter(w, n, old(ifail[..]), effect);
    }
    r := Returned(effect.info);
  }
}
