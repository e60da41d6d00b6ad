/** `test_pptri`: boost the packed diagonal in place (the index computed with a factor
    0.5), factor with `lapack::pptrf`, and only then copy AP for the reference; invert
    with `lapack::pptri` and with the reference routine, and compare status and
    inverse. The `lapack::pptrf` and `lapack::pptri` wrappers are not part of this
    model: the driver sees routines that return a status, and a negative one ends the
    run as the wrapper's exception would. */
module TestPptri {
  import opened Marshal
  import opened PackedStorage
  import opened DiagonalBoost
  import opened TestSupport

  /** The integer arguments of the three calls. */
  datatype PackedCall = PackedCall(uplo: Uplo, n: int)

  /** A routine that writes only inside the buffer it is handed. */
  ghost predicate KeepsLength(routine: (PackedCall, seq<real>) -> Factored)
  {
    forall call, ap :: |routine(call, ap).a| == |ap|
  }

  /** `test_pptri_work` from the boost on. `compare` is `ref == 'y' || check == 'y'`. */
  method TestPptriWork(uplo: Uplo, n: nat, AP_tst: array<real>, compare: bool,
                       pptrf: (PackedCall, seq<real>) -> Factored,
                       tested: (PackedCall, seq<real>) -> Factored,
                       reference: (PackedCall, seq<real>) -> Factored)
    returns (verdict: Verdict)
    requires AP_tst.Length == PackedLength(n)
    requires KeepsLength(pptrf) && KeepsLength(tested) && KeepsLength(reference)
    modifies AP_tst
    ensures var boosted := Boosted(old(AP_tst[..]), PackedDiagonal(uplo, n, n), n as real);
      var factor := pptrf(PackedCall(uplo, n), boosted);
      var tst := tested(PackedCall(uplo, n), factor.a);
      var rf := reference(PackedCall(uplo, n), factor.a);
      if factor.info < 0 then
        verdict == Aborted && AP_tst[..] == factor.a
      else
        AP_tst[..] == tst.a &&
        verdict == (if tst.info < 0 then Aborted
                    else if !compare then NotCompared
                    else Compared(ComparisonError(tst.info, rf.info, [tst.a], [rf.a]),
                                  tst.info == rf.info && tst.a == rf.a))
    ensures reference == tested && verdict.Compared? ==> verdict.okay
  {
    // diagonally dominant, hence positive definite
    BoostPackedDiagonal(AP_tst, uplo, n, FloatingHalf);
    // factor A into L L^T before the copy, so both inversions start from this factor
    var call := PackedCall(uplo, n);
    var factor := pptrf(call, AP_tst[..]);
    forall k | 0 <= k < AP_tst.Length {
      AP_tst[k] := factor.a[k];
    }
    assert AP_tst[..] == factor.a;
    if factor.info < 0 {
      return Aborted;
    }
    var AP_ref := AP_tst[..];
    var tst := tested(call, AP_tst[..]);
    forall k | 0 <= k < AP_tst.Length {
      AP_tst[k] := tst.a[k];
    }
    assert AP_tst[..] == tst.a;
    if tst.info < 0 {
      return Aborted;
    }
    if !compare {
      return NotCompared;
    }
    var rf := reference(call, AP_ref);
    var error := CompareOutputs(tst.info, rf.info, [AP_tst[..]], [rf.a]);
    verdict := Compared(error, error == 0.0);
  }
}
