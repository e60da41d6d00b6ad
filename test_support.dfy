/** What the test drivers share: dispatch on the requested data type, and the rule by
    which a tested call is compared with its reference (a status mismatch counts 1, and
    every compared output buffer adds its absolute difference). */
module TestSupport {
  import opened Marshal

  /** The data types a test can be asked to run with. */
  datatype DataType = Integer | Single | Double | SingleComplex | DoubleComplex

  /** What the `switch` in every `test_xxx` entry does: throw, or run the templated worker. */
  datatype Dispatch = Unsupported | Worker(scalar: Scalar)

  function DataTypeOf(s: Scalar): DataType
  {
    match s
    case Single => DataType.Single
    case Double => DataType.Double
    case SingleComplex => DataType.SingleComplex
    case DoubleComplex => DataType.DoubleComplex
  }

  /** `Integer` throws; each of the four scalar types runs the worker instantiated for it. */
  function DispatchOn(d: DataType): (r: Dispatch)
    ensures r.Unsupported? <==> d == Integer
    ensures r.Worker? ==> DataTypeOf(r.scalar) == d
  {
    match d
    case Integer => Unsupported
    case Single => Worker(Scalar.Single)
    case Double => Worker(Scalar.Double)
    case SingleComplex => Worker(Scalar.SingleComplex)
    case DoubleComplex => Worker(Scalar.DoubleComplex)
  }

  /** Every scalar type is reachable, and reaches the worker for exactly that type. */
  lemma DispatchRoundTrip(s: Scalar)
    ensures DispatchOn(DataTypeOf(s)) == Worker(s)
  {
  }

  function AbsDiff(x: real, y: real): real
  {
    if x < y then y - x else x - y
  }

  /** `abs_error(a, b)` for two buffers of the same length: the sum of the entrywise
      absolute differences (over the reals). */
  function AbsError(a: seq<real>, b: seq<real>): (e: real)
    requires |a| == |b|
    ensures e >= 0.0
  {
    if a == [] then 0.0 else AbsDiff(a[0], b[0]) + AbsError(a[1..], b[1..])
  }

  /** The absolute error vanishes exactly when the buffers are equal. */
  lemma {:induction false} AbsErrorZeroIff(a: seq<real>, b: seq<real>)
    requires |a| == |b|
    ensures AbsError(a, b) == 0.0 <==> a == b
  {
    if a != [] {
      AbsErrorZeroIff(a[1..], b[1..]);
      assert a == [a[0]] + a[1..] && b == [b[0]] + b[1..];
    }
  }

  /** Pairs of tested and reference buffers of matching lengths. */
  predicate Comparable(tst: seq<seq<real>>, ref: seq<seq<real>>)
  {
    |tst| == |ref| && forall k :: 0 <= k < |tst| ==> |tst[k]| == |ref[k]|
  }

  /** The absolute errors of all compared buffers, added in order. */
  function TotalAbsError(tst: seq<seq<real>>, ref: seq<seq<real>>): (e: real)
    requires Comparable(tst, ref)
    ensures e >= 0.0
  {
    if tst == [] then 0.0
    else TotalAbsError(tst[..|tst| - 1], ref[..|ref| - 1]) + AbsError(tst[|tst| - 1], ref[|ref| - 1])
  }

  /** `error = 0; if (info_tst != info_ref) error = 1; error += abs_error(...)` for each
      compared buffer. */
  function ComparisonError(infoTst: int, infoRef: int, tst: seq<seq<real>>, ref: seq<seq<real>>): (e: real)
    requires Comparable(tst, ref)
    ensures e >= 0.0
    ensures infoTst != infoRef ==> e >= 1.0
  {
    (if infoTst != infoRef then 1.0 else 0.0) + TotalAbsError(tst, ref)
  }

  lemma {:induction false} TotalAbsErrorZeroIff(tst: seq<seq<real>>, ref: seq<seq<real>>)
    requires Comparable(tst, ref)
    ensures TotalAbsError(tst, ref) == 0.0 <==> tst == ref
  {
    if tst != [] {
      var k := |tst| - 1;
      TotalAbsErrorZeroIff(tst[..k], ref[..k]);
      AbsErrorZeroIff(tst[k], ref[k]);
      assert tst == tst[..k] + [tst[k]] && ref == ref[..k] + [ref[k]];
    }
  }

  /** The drivers' accumulation, one compared buffer after the other. */
  method CompareOutputs(infoTst: int, infoRef: int, tst: seq<seq<real>>, ref: seq<seq<real>>)
    returns (error: real)
    requires Comparable(tst, ref)
    ensures error == ComparisonError(infoTst, infoRef, tst, ref)
    ensures error == 0.0 <==> infoTst == infoRef && tst == ref
  {
    error := 0.0;
    if infoTst != infoRef {
      error := 1.0;
    }
    for k := 0 to |tst|
      invariant error == (if infoTst != infoRef then 1.0 else 0.0) + TotalAbsError(tst[..k], ref[..k])
    {
      assert tst[..k + 1][..k] == tst[..k] && ref[..k + 1][..k] == ref[..k];
      error := error + AbsError(tst[k], ref[k]);
    }
    assert tst[..|tst|] == tst && ref[..|ref|] == ref;
    ExpectIdentical(infoTst, infoRef, tst, ref);
  }

  /** `okay = (error == 0)`: the tested call passes exactly when it reports the same
      status as the reference and leaves every compared buffer identical to it. */
  lemma {:induction false} ExpectIdentical(infoTst: int, infoRef: int, tst: seq<seq<real>>, ref: seq<seq<real>>)
    requires Comparable(tst, ref)
    ensures ComparisonError(infoTst, infoRef, tst, ref) == 0.0 <==> infoTst == infoRef && tst == ref
  {
    TotalAbsErrorZeroIff(tst, ref);
  }

  /** What a factorization or inversion routine leaves in its one buffer, and its status. */
  datatype Factored = Factored(a: seq<real>, info: int)

  /** What a solver leaves in the matrix buffer and the right-hand sides, and its status. */
  datatype Solved = Solved(a: seq<real>, b: seq<real>, info: int)

  /** How a driver run ends: the tested routine threw, the comparison was not requested,
      or the error and the verdict it reports. */
  datatype Verdict = Aborted | NotCompared | Compared(error: real, okay: bool)
}
