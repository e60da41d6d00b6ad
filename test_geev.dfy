/** `test_geev`: the tested and the reference routine may return the same eigenvalues in
    different orders, so before comparing them the driver sorts both arrays with the
    lexicographic comparator `lessthan` on (real part, imaginary part). `std::sort` is
    modelled by an insertion sort specified as "sorted permutation"; because such a
    permutation is unique, the comparison sees one canonical order. The residual checks
    and `rel_error` are floating point and enter as parameters. */
module TestGeev {
  import opened Marshal
  import opened LapackeAdapters

  /** `lessthan(a, b)`: smaller real part, or equal real parts and smaller imaginary part. */
  predicate LessThan(a: Complex, b: Complex)
  {
    a.re < b.re || (a.re == b.re && a.im < b.im)
  }

  /** On real and imaginary parts taken from the reals, `lessthan` is a strict total order. */
  lemma LessThanIsStrictOrder(a: Complex, b: Complex, c: Complex)
    ensures !LessThan(a, a)
    ensures LessThan(a, b) && LessThan(b, c) ==> LessThan(a, c)
    ensures a != b ==> (LessThan(a, b) <==> !LessThan(b, a))
    ensures a == b ==> !LessThan(a, b) && !LessThan(b, a)
  {
  }

  /** Sorted by `lessthan`: no later entry is less than an earlier one. */
  predicate Sorted(s: seq<Complex>)
  {
    forall i, j :: 0 <= i < j < |s| ==> !LessThan(s[j], s[i])
  }

  /** Every element of `s` is at least `x`. */
  predicate AllAtLeast(x: Complex, s: seq<Complex>)
  {
    forall k :: 0 <= k < |s| ==> !LessThan(s[k], x)
  }

  lemma {:induction false} AtLeastByMultiset(x: Complex, s: seq<Complex>, t: seq<Complex>)
    requires AllAtLeast(x, s) && multiset(t) <= multiset(s)
    ensures AllAtLeast(x, t)
  {
    forall k | 0 <= k < |t|
      ensures !LessThan(t[k], x)
    {
      assert t[k] in multiset(t);
      assert t[k] in multiset(s);
      var i :| 0 <= i < |s| && s[i] == t[k];
    }
  }

  /** Insert x into a sorted sequence, before the first entry not less than x. */
  function Insert(x: Complex, s: seq<Complex>): (r: seq<Complex>)
    requires Sorted(s)
    ensures Sorted(r)
    ensures multiset(r) == multiset(s) + multiset{x}
    ensures |r| == |s| + 1
  {
    if s == [] then [x]
    else if !LessThan(s[0], x) then
      LessThanIsStrictOrder(x, s[0], s[0]);
      assert forall k :: 0 <= k < |s| ==> !LessThan(s[k], s[0]);
      assert forall k :: 0 <= k < |s| ==> !LessThan(s[k], x) by {
        forall k | 0 <= k < |s| ensures !LessThan(s[k], x) {
          LessThanIsStrictOrder(s[k], s[0], x);
        }
      }
      [x] + s
    else
      var rest := Insert(x, s[1..]);
      assert AllAtLeast(s[0], s[1..] + [x]) by {
        forall k | 0 <= k < |s| - 1 ensures !LessThan(s[1..][k], s[0]) {
          assert s[1..][k] == s[k + 1];
        }
        LessThanIsStrictOrder(s[0], x, x);
      }
      assert multiset(rest) == multiset(s[1..] + [x]);
      AtLeastByMultiset(s[0], s[1..] + [x], rest);
      assert s == [s[0]] + s[1..];
      [s[0]] + rest
  }

  /** `std::sort(v.begin(), v.end(), lessthan)`, modelled by insertion sort. */
  function Sort(s: seq<Complex>): (r: seq<Complex>)
    ensures Sorted(r)
    ensures multiset(r) == multiset(s)
    ensures |r| == |s|
  {
    if s == [] then []
    else
      assert s == [s[0]] + s[1..];
      Insert(s[0], Sort(s[1..]))
  }

  /** Two sorted arrays holding the same values (with multiplicities) are identical. */
  lemma {:induction false} SortedPermutationUnique(a: seq<Complex>, b: seq<Complex>)
    requires Sorted(a) && Sorted(b) && multiset(a) == multiset(b)
    ensures a == b
  {
    if a != [] {
      assert |a| == |multiset(a)| == |multiset(b)| == |b|;
      assert a[0] in multiset(b);
      var j :| 0 <= j < |b| && b[j] == a[0];
      assert b[0] in multiset(a);
      var i :| 0 <= i < |a| && a[i] == b[0];
      // a[0] <= a[i] == b[0] <= b[j] == a[0]
      LessThanIsStrictOrder(a[0], b[0], a[0]);
      if j > 0 {
        assert !LessThan(b[j], b[0]);
      }
      if i > 0 {
        assert !LessThan(a[i], a[0]);
      }
      assert a[0] == b[0];
      assert a == [a[0]] + a[1..] && b == [b[0]] + b[1..];
      assert multiset(a) == multiset{a[0]} + multiset(a[1..]);
      assert multiset(b) == multiset{b[0]} + multiset(b[1..]);
      assert multiset(a[1..]) == multiset(a) - multiset{a[0]};
      assert multiset(b[1..]) == multiset(b) - multiset{b[0]};
      assert Sorted(a[1..]) && Sorted(b[1..]);
      SortedPermutationUnique(a[1..], b[1..]);
    }
  }

  /** Sorting forgets the order the routine happened to return: permutations of one
      another sort to the same array. */
  lemma SortIsCanonical(a: seq<Complex>, b: seq<Complex>)
    requires multiset(a) == multiset(b)
    ensures Sort(a) == Sort(b)
  {
    SortedPermutationUnique(Sort(a), Sort(b));
  }

  /** `std::sort` in place on the array. */
  method SortInPlace(W: array<Complex>)
    modifies W
    ensures W[..] == Sort(old(W[..]))
  {
    var sorted := Sort(W[..]);
    forall k | 0 <= k < W.Length {
      W[k] := sorted[k];
    }
  }

  /** A reported error column: a measured value, or still the no-data flag. */
  datatype Reported = NoData | Measured(value: real)

  /** The two residuals `check_geev` computes for one side (`results[0..1]` for the left
      eigenvectors, `results[2..3]` for the right ones). */
  datatype Residuals = Residuals(error: real, normError: real)

  /** The checks phase and the reference phase of `test_geev_work`: `okay` starts true
      and each enabled check can only clear it; the left and right checks run only for
      `Job::Vec`; the eigenvalue comparison sorts both arrays first. `errors` holds
      `error` .. `error5` in order. */
  method GeevVerdict(check: bool, ref: bool, jobvl: Job, jobvr: Job, tol: real,
                     left: Residuals, right: Residuals,
                     W_tst: array<Complex>, W_ref: array<Complex>,
                     relError: (seq<Complex>, seq<Complex>) -> real)
    returns (okay: bool, errors: seq<Reported>)
    requires W_tst != W_ref
    modifies W_tst, W_ref
    ensures |errors| == 5
    ensures okay <==>
      (check && jobvl == Vec ==> left.error < tol && left.normError < tol) &&
      (check && jobvr == Vec ==> right.error < tol && right.normError < tol) &&
      (ref ==> relError(Sort(old(W_tst[..])), Sort(old(W_ref[..]))) < tol)
    ensures errors[0] == (if check && jobvl == Vec then Measured(left.error) else NoData)
    ensures errors[1] == (if check && jobvl == Vec then Measured(left.normError) else NoData)
    ensures errors[2] == (if check && jobvr == Vec then Measured(right.error) else NoData)
    ensures errors[3] == (if check && jobvr == Vec then Measured(right.normError) else NoData)
    ensures errors[4] ==
      (if ref then Measured(relError(Sort(old(W_tst[..])), Sort(old(W_ref[..])))) else NoData)
    ensures ref ==> W_tst[..] == Sort(old(W_tst[..])) && W_ref[..] == Sort(old(W_ref[..]))
    ensures !ref ==> W_tst[..] == old(W_tst[..]) && W_ref[..] == old(W_ref[..])
  {
    okay := true;
    errors := [NoData, NoData, NoData, NoData, NoData];
    if check {
      if jobvl == Vec {
        okay := okay && left.error < tol && left.normError < tol;
        errors := errors[0 := Measured(left.error)][1 := Measured(left.normError)];
      }
      if jobvr == Vec {
        okay := okay && right.error < tol && right.normError < tol;
        errors := errors[2 := Measured(right.error)][3 := Measured(right.normError)];
      }
    }
    if ref {
      SortInPlace(W_tst);
      SortInPlace(W_ref);
      var error := relError(W_tst[..], W_ref[..]);
      okay := okay && error < tol;
      errors := errors[4 := Measured(error)];
    }
  }

  /** When both routines return the same eigenvalues in any order, and `rel_error` of an
      array with itself is zero, the eigenvalue comparison passes for every positive
      tolerance. */
  lemma SameSpectrumPasses(wTst: seq<Complex>, wRef: seq<Complex>, tol: real,
                           relError: (seq<Complex>, seq<Complex>) -> real)
    requires multiset(wTst) == multiset(wRef)
    requires forall v :: relError(v, v) == 0.0
    requires tol > 0.0
    ensures relError(Sort(wTst), Sort(wRef)) < tol
  {
    SortIsCanonical(wTst, wRef);
  }
}
