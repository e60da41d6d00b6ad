/** `test_pbtrf`: boost the band diagonal in place, copy AB for the reference, factor
    with `lapack::pbtrf` and with the reference routine, and compare status and factor.
    The `lapack::pbtrf` wrapper is not part of this model: the driver sees a routine
    that returns a status, and a negative one ends the run as the wrapper's exception
    would. */
module TestPbtrf {
  import opened Marshal
  import opened DiagonalBoost
  import opened TestSupport

  /** The integer arguments of both calls. */
  datatype BandCall = BandCall(uplo: Uplo, n: int, kd: int, ldab: int)

  /** A routine that writes only inside the buffer it is handed. */
  ghost predicate KeepsLength(routine: (BandCall, seq<real>) -> Factored)
  {
    forall call, ab :: |routine(call, ab).a| == |ab|
  }

  /** `test_pbtrf_work` from the boost on. `compare` is `ref == 'y' || check == 'y'`. */
  method TestPbtrfWork(uplo: Uplo, n: nat, kd: nat, AB_tst: array<real>, ldab: int, compare: bool,
                       tested: (BandCall, seq<real>) -> Factored,
                       reference: (BandCall, seq<real>) -> Factored)
    returns (verdict: Verdict)
    requires ldab >= kd + 1 && AB_tst.Length == ldab * n
    requires KeepsLength(tested) && KeepsLength(reference)
    modifies AB_tst
    ensures var boosted := Boosted(old(AB_tst[..]), BandDiagonal(uplo, kd, ldab, n), n as real);
      var tst := tested(BandCall(uplo, n, kd, ldab), boosted);
      var rf := reference(BandCall(uplo, n, kd, ldab), boosted);
      AB_tst[..] == tst.a &&
      verdict == (if tst.info < 0 then Aborted
                  else if !compare then NotCompared
                  else Compared(ComparisonError(tst.info, rf.info, [tst.a], [rf.a]),
                                tst.info == rf.info && tst.a == rf.a))
    ensures reference == tested && verdict.Compared? ==> verdict.okay
  {
    // diagonally dominant, hence positive definite
    BoostBandDiagonal(AB_tst, uplo, n, kd, ldab);
    var AB_ref := AB_tst[..];
    var call := BandCall(uplo, n, kd, ldab);
    var tst := tested(call, AB_tst[..]);
    forall k | 0 <= k < AB_tst.Length {
      AB_tst[k] := tst.a[k];
    }
    if tst.info < 0 {
      return Aborted;
    }
    if !compare {
      return NotCompared;
    }
    var rf := reference(call, AB_ref);
    var error := CompareOutputs(tst.info, rf.info, [AB_tst[..]], [rf.a]);
    verdict := Compared(error, error == 0.0);
  }
}
