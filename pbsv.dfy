/** `lapack::pbsv`: solve A X = B for a Hermitian positive definite band matrix A held
    in band storage. The four scalar overloads share one skeleton: guard, narrow, call
    the native routine (which overwrites AB with the Cholesky factor and B with the
    solution), translate its status. The native routine is a parameter of the model. */
module Pbsv {
  import opened Marshal

  /** The arguments the native `LAPACK_?pbsv` receives, after narrowing. */
  datatype PbsvCall = PbsvCall(entry: string, uplo: Uplo, n: int, kd: int, nrhs: int, ldab: int, ldb: int)

  /** What the native routine leaves behind: the new contents of AB and B and `info_`. */
  datatype PbsvEffect<T> = PbsvEffect(ab: seq<T>, b: seq<T>, info: int)

  /** A native routine writes only inside the buffers it is handed. */
  ghost predicate WritesInPlace<T(!new)>(native: (PbsvCall, seq<T>, seq<T>) -> PbsvEffect<T>)
  {
    forall call, ab, b ::
      |native(call, ab, b).ab| == |ab| && |native(call, ab, b).b| == |b|
  }

  function EntryPoint(s: Scalar): string
  {
    "LAPACK_" + [Prefix(s)] + "pbsv"
  }

  /** The sizes the guard checks, in the order it checks them. */
  function GuardedSizes(n: int, kd: int, nrhs: int, ldab: int, ldb: int): seq<int>
  {
    [n, kd, nrhs, ldab, ldb]
  }

  /** Guard and narrowing: the overflow error, or the call the native routine receives. */
  function MarshalPbsv(w: IntWidth, s: Scalar, uplo: Uplo, n: int, kd: int, nrhs: int, ldab: int, ldb: int)
    : (r: Outcome<PbsvCall>)
    requires IsInt64(n) && IsInt64(kd) && IsInt64(nrhs) && IsInt64(ldab) && IsInt64(ldb)
    ensures r.Thrown? <==>
      Overflows(w, n) || Overflows(w, kd) || Overflows(w, nrhs) || Overflows(w, ldab) || Overflows(w, ldb)
    ensures r.Thrown? ==> r.error == Overflow
    ensures r.Returned? ==> r.value == PbsvCall(EntryPoint(s), uplo, n, kd, nrhs, ldab, ldb)
  {
    var sizes := GuardedSizes(n, kd, nrhs, ldab, ldb);
    if !GuardPasses(w, sizes) then
      assert exists i :: 0 <= i < 5 && Overflows(w, sizes[i]);
      Thrown(Overflow)
    else
      assert !Overflows(w, sizes[0]) && !Overflows(w, sizes[1]) && !Overflows(w, sizes[2])
          && !Overflows(w, sizes[3]) && !Overflows(w, sizes[4]);
      Returned(PbsvCall(EntryPoint(s), uplo, Narrow(w, n), Narrow(w, kd), Narrow(w, nrhs),
                        Narrow(w, ldab), Narrow(w, ldb)))
  }

  /** One overload of `lapack::pbsv`. */
  method Pbsv<T(!new)>(w: IntWidth, s: Scalar, uplo: Uplo, n: int, kd: int, nrhs: int,
                       AB: array<T>, ldab: int, B: array<T>, ldb: int,
                       native: (PbsvCall, seq<T>, seq<T>) -> PbsvEffect<T>)
    returns (r: Outcome<int>)
    requires IsInt64(n) && IsInt64(kd) && IsInt64(nrhs) && IsInt64(ldab) && IsInt64(ldb)
    requires AB != B
    requires WritesInPlace(native)
    modifies AB, B
    ensures !GuardPasses(w, GuardedSizes(n, kd, nrhs, ldab, ldb)) ==>
      r == Thrown(Overflow) && AB[..] == old(AB[..]) && B[..] == old(B[..])
    ensures GuardPasses(w, GuardedSizes(n, kd, nrhs, ldab, ldb)) ==>
      var effect := native(PbsvCall(EntryPoint(s), uplo, n, kd, nrhs, ldab, ldb), old(AB[..]), old(B[..]));
      AB[..] == effect.ab && B[..] == effect.b && r == TranslateStatus(effect.info)
    ensures r.Returned? ==> r.value >= 0
  {
    var marshalled := MarshalPbsv(w, s, uplo, n, kd, nrhs, ldab, ldb);
    if marshalled.Thrown? {
      return Thrown(marshalled.error);
    }
    var effect := native(marshalled.value, AB[..], B[..]);
    forall k | 0 <= k < AB.Length {
      AB[k] := effect.ab[k];
    }
    forall k | 0 <= k < B.Length {
      B[k] := effect.b[k];
    }
    r := TranslateStatus(effect.info);
  }

  /** The four overloads agree on everything but the native entry point they call. */
  lemma OverloadsDifferOnlyInEntry(w: IntWidth, s: Scalar, t: Scalar, uplo: Uplo,
                                   n: int, kd: int, nrhs: int, ldab: int, ldb: int)
    requires IsInt64(n) && IsInt64(kd) && IsInt64(nrhs) && IsInt64(ldab) && IsInt64(ldb)
    ensures MarshalPbsv(w, s, uplo, n, kd, nrhs, ldab, ldb).Thrown?
        == MarshalPbsv(w, t, uplo, n, kd, nrhs, ldab, ldb).Thrown?
    ensures MarshalPbsv(w, s, uplo, n, kd, nrhs, ldab, ldb).Returned? ==>
      MarshalPbsv(w, t, uplo, n, kd, nrhs, ldab, ldb) ==
      Returned(MarshalPbsv(w, s, uplo, n, kd, nrhs, ldab, ldb).value.(entry := EntryPoint(t)))
    ensures EntryPoint(s) == EntryPoint(t) <==> s == t
  {
    if EntryPoint(s) == EntryPoint(t) {
      assert EntryPoint(s)[7] == Prefix(s) && EntryPoint(t)[7] == Prefix(t);
      PrefixInjective(s, t);
    }
  }

  /** In ILP64 builds the guard is compiled out: no argument ever overflows. */
  lemma NoGuardInIlp64(s: Scalar, uplo: Uplo, n: int, kd: int, nrhs: int, ldab: int, ldb: int)
    requires IsInt64(n) && IsInt64(kd) && IsInt64(nrhs) && IsInt64(ldab) && IsInt64(ldb)
    ensures MarshalPbsv(Int64, s, uplo, n, kd, nrhs, ldab, ldb).Returned?
  {
  }
}
