/** `test_pbsv`: make the random band matrix diagonally dominant in place, copy the
    boosted AB and B for the reference, run `lapack::pbsv` (the model of `Pbsv`) on the
    originals and the reference routine on the copies, and compare status, factor and
    solution. The random fill and the timing are outside the model: AB and B arrive
    filled. */
module TestPbsv {
  import opened Marshal
  import opened BandStorage
  import opened DiagonalBoost
  import opened TestSupport
  import opened Pbsv

  /** `test_pbsv_work` from the boost on. `compare` is `ref == 'y' || check == 'y'`. */
  method TestPbsvWork(w: IntWidth, s: Scalar, uplo: Uplo, n: nat, kd: nat, nrhs: nat,
                      AB_tst: array<real>, ldab: int, B_tst: array<real>, ldb: int, compare: bool,
                      native: (PbsvCall, seq<real>, seq<real>) -> PbsvEffect<real>,
                      reference: (PbsvCall, seq<real>, seq<real>) -> PbsvEffect<real>)
    returns (verdict: Verdict)
    requires IsInt64(n) && IsInt64(kd) && IsInt64(nrhs) && IsInt64(ldab) && IsInt64(ldb)
    requires ldab >= kd + 1 && AB_tst.Length == ldab * n && B_tst != AB_tst
    requires WritesInPlace(native) && WritesInPlace(reference)
    modifies AB_tst, B_tst
    ensures var boosted := Boosted(old(AB_tst[..]), BandDiagonal(uplo, kd, ldab, n), n as real);
      var call := PbsvCall(EntryPoint(s), uplo, n, kd, nrhs, ldab, ldb);
      var tst := native(call, boosted, old(B_tst[..]));
      var rf := reference(call, boosted, old(B_tst[..]));
      if !GuardPasses(w, GuardedSizes(n, kd, nrhs, ldab, ldb)) then
        verdict == Aborted && AB_tst[..] == boosted && B_tst[..] == old(B_tst[..])
      else
        AB_tst[..] == tst.ab && B_tst[..] == tst.b &&
        verdict == (if tst.info < 0 then Aborted
                    else if !compare then NotCompared
                    else Compared(ComparisonError(tst.info, rf.info, [tst.ab, tst.b], [rf.ab, rf.b]),
                                  tst.info == rf.info && tst.ab == rf.ab && tst.b == rf.b))
    ensures reference == native && verdict.Compared? ==> verdict.okay
  {
    // diagonally dominant, hence positive definite
    BoostBandDiagonal(AB_tst, uplo, n, kd, ldab);
    var AB_ref := AB_tst[..];
    var B_ref := B_tst[..];
    var r := Pbsv.Pbsv(w, s, uplo, n, kd, nrhs, AB_tst, ldab, B_tst, ldb, native);
    if r.Thrown? {
      return Aborted;
    }
    if !compare {
      return NotCompared;
    }
    var infoTst := r.value;
    var rf := reference(PbsvCall(EntryPoint(s), uplo, n, kd, nrhs, ldab, ldb), AB_ref, B_ref);
    var error := CompareOutputs(infoTst, rf.info, [AB_tst[..], B_tst[..]], [rf.ab, rf.b]);
    verdict := Compared(error, error == 0.0);
  }
}
