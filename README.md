# lapackpp glue, modelled in Dafny

lapackpp is a C++ interface to LAPACK. Nearly all of its numerical work happens
inside the Fortran/LAPACKE routines it calls, so this model covers the integer and
indexing logic around those calls:

- **Library wrappers** (`lapack::pbsv`, `lapack::lantp`, `lapack::sbgvx`). Each one:
  - guards the 64-bit size arguments against overflow of the native `blas_int`;
  - narrows those arguments;
  - sizes its scratch vectors;
  - calls the native routine;
  - throws on a negative status and returns any other status unchanged.

  `sbgvx` also routes `ifail` through a temporary array in 32-bit builds and copies a prefix of it back.
- **Test-side LAPACKE adapters**, which:
  - merge split real/imaginary eigenvalue outputs into a complex array;
  - rewrite the `trans` flag;
  - size scratch vectors, including the `n*128` of `sytrf_aa`;
  - send "Hermitian" operations to symmetric routines for real types;
  - give the reference norm helpers their own scratch.
- **Band and packed storage index arithmetic**:
  - the documented layouts: in range, injective, with the closed forms proved;
  - the test drivers' diagonal indices, shown to be the documented diagonal positions;
  - the in-place loops that add `n` to each diagonal entry to make a random matrix positive definite.
- **Test drivers**:
  - `test_pbsv`, `test_pbtrf`, `test_ppsv` and `test_pptri`: boost the diagonal, copy for the reference, call the tested routine and the reference, and compare (a status mismatch counts 1, each compared buffer adds its absolute error, and `okay` holds exactly when the error is 0);
  - `test_hpgv`: boost the packed diagonal of B, copy for the reference, call both routines, and compare the eigenvalues by relative error (`error2`, replaced by 1 on a status mismatch); `okay` is the residual check (`error < tol`, run only for `Job::Vec`) and `error2 < tol`;
  - `test_geev`: the `lessthan` comparator, sorting both eigenvalue arrays before comparing them, and the accumulation of `okay`.

A native routine whose result the model uses (LAPACK, LAPACKE, `rel_error`) is a
function parameter of the member that calls it. A routine whose results reach the
model only as numbers (the `check_geev` and `hpgv` residuals) enters as those values.
A routine whose output the wrapper ignores (the native `larf`) does not appear at all.
The behaviour the model relies on is a predicate over such a parameter:

- `WritesInPlace`, `KeepsLength` and `KeepsLengths`: the routine writes only inside the buffers it is handed;
- `NativeContract`: `0 <= m <= n` on a normal `sbgvx` exit;
- `ZeroForEmpty`: zero is returned for `n = 0`.

The native integer width is `Marshal.IntWidth`. `Int32` is the default build, and its guard is active. `Int64` is `LAPACK_ILP64`, whose guard is compiled out.

Files, each one module:
`marshal.dfy`, `band_storage.dfy`, `packed_storage.dfy`, `diagonal_boost.dfy`,
`pbsv.dfy`, `lantp.dfy`, `sbgvx.dfy`, `lapacke_adapters.dfy`, `test_support.dfy`,
`test_geev.dfy`, `test_hpgv.dfy`, `test_ppsv.dfy`, `test_pptri.dfy`, `test_pbtrf.dfy`,
`test_pbsv.dfy`.

## Model

| member | source | states |
|---|---|---|
| Marshal.GuardPasses | src/pbsv.cc:20-26 | The guard block lets the call proceed exactly when no guarded argument's magnitude exceeds the `blas_int` maximum. In ILP64 builds nothing overflows. |
| Marshal.Narrow | src/pbsv.cc:28-32 | The cast to `blas_int`: the result fits the native width and, in 32-bit builds, is congruent to the argument modulo 2^32; it is the argument itself whenever the argument's magnitude fits. |
| Marshal.GuardedNarrowIsExact | src/pbsv.cc:20-32 | Once the guard has passed, every narrowed argument equals its 64-bit original. |
| Marshal.UnguardedNarrowCanWrap | src/sbgvx.cc:46 | An argument outside the guard can change under the cast: 2^31 becomes -2^31 in 32-bit builds. |
| Marshal.TranslateStatus | src/pbsv.cc:33-39 | A negative `info_` is thrown as `Error` and never returned; any other status is returned unchanged, so every normal return is >= 0. |
| Marshal.Prefix | src/pbsv.cc:35 | Each scalar type has a precision letter among `s`, `d`, `c`, `z`. |
| Marshal.PrefixInjective | src/pbsv.cc:35 | Distinct scalar types have distinct precision letters. |
| BandStorage.BandRow | src/pbsv.cc:142-143 | For a stored entry A(i, j), the AB row (kd+1+i-j Upper, 1+i-j Lower) lies in 1..kd+1. |
| BandStorage.BandOffset | src/pbsv.cc:142-143 | The 0-based column-major offset of the AB entry that holds A(i, j). `BandOffsetInBounds` and `BandOffsetInjective` state its properties. |
| BandStorage.BandOffsetInBounds | src/pbsv.cc:142-152 | With ldab >= kd+1, every stored entry's column-major offset lies in [0, ldab*n). |
| BandStorage.BandOffsetInjective | src/pbsv.cc:142-152 | With ldab >= kd+1, distinct stored entries have distinct offsets. |
| BandStorage.ColumnsOrdered | src/pbsv.cc:142-152 | Every stored entry of an earlier column lies before every stored entry of a later column. |
| BandStorage.DiagonalOffset | test/test_pbtrf.cc:70-79 | The drivers' subscript `kd + j*ldab` (Upper) or `j*ldab` (Lower). `DiagonalOffsetIsBandDiagonal`, `DiagonalOffsetSplit` and `DiagonalOffsetMonotone` state its properties. |
| BandStorage.DiagonalOffsetIsBandDiagonal | test/test_pbtrf.cc:70-79 | The drivers' index `kd + j*ldab` (Upper) or `j*ldab` (Lower) is the documented band position of A(j+1, j+1), in row kd+1 or row 1. |
| BandStorage.DiagonalOffsetSplit | test/test_pbtrf.cc:70-79 | That index lies in column j of AB, at row kd (Upper) or row 0 (Lower), 0-based. |
| BandStorage.DiagonalOffsetMonotone | test/test_pbsv.cc:50-60 | For 0 <= j1 < j2 < n, the diagonal offsets strictly increase and stay below ldab*n. |
| PackedStorage.TriClosedForm | test/test_hpgv.cc:51-52 | The recursive triangular number equals k(k+1)/2. |
| PackedStorage.PackedLength | test/test_hpgv.cc:51-52 | The buffer length `n*(n+1)/2` is the triangular number of n. |
| PackedStorage.PackedIndex | src/lantp.cc:119-121 | The documented 1-based position of A(i, j) in AP. `ColumnStart`, `PackedIndexInRange` and `PackedIndexInjective` state its properties. |
| PackedStorage.ColumnStart | src/lantp.cc:119-121 | The divisions by 2 in the documented packed index are exact: column j starts after Tri(j-1) entries (Upper) or after the n, n-1, ... entries of the earlier columns (Lower). |
| PackedStorage.PackedIndexInRange | src/lantp.cc:119-121 | For both triangles, every stored A(i, j) maps into 1..n(n+1)/2. |
| PackedStorage.LowerIsTri | src/lantp.cc:121 | The lower layout ends exactly at n(n+1)/2. |
| PackedStorage.PackedIndexInjective | src/lantp.cc:119-121 | Distinct stored entries map to distinct positions of AP. |
| PackedStorage.DiagonalIndex | test/test_hpgv.cc:68-76 | The drivers' integer diagonal subscript. `DiagonalIndexIsPacked`, `DiagonalIndexMonotone` and `DiagonalIndexInBounds` state its properties. |
| PackedStorage.HalfDiagonalIndex | test/test_ppsv.cc:74-82 | The `0.5*` subscript of `test_ppsv` and `test_pptri`, over the reals. `HalfDiagonalIndexExact` shows it equals `DiagonalIndex`. |
| PackedStorage.DiagonalIndexIsPacked | test/test_hpgv.cc:68-76 | `i + (i+1)*i/2` (Upper) and `i + n*i - i*(i+1)/2` (Lower) equal the documented position of A(i+1, i+1), less one. |
| PackedStorage.HalfDiagonalIndexExact | test/test_ppsv.cc:74-82 | The `0.5*` index formulas, over the reals, yield exactly the integer indices, because i(i+1) is even. |
| PackedStorage.DiagonalIndexMonotone | test/test_hpgv.cc:68-77 | For 0 <= i1 < i2 < n, the diagonal indices strictly increase inside [0, n(n+1)/2). |
| PackedStorage.DiagonalIndexInBounds | test/test_hpgv.cc:52-76 | Each diagonal index for i < n lies in [0, n(n+1)/2), the length of the packed buffer. |
| DiagonalBoost.BoostOneMore | test/test_hpgv.cc:68-77 | Adding n at one more position that is not yet boosted extends the set of boosted positions by that position. |
| DiagonalBoost.PackedSubscript | test/test_ppsv.cc:74-82 | Both index arithmetics (integer halving in `test_hpgv`, the 0.5 factor in `test_ppsv`/`test_pptri`) subscript the same integer diagonal index. |
| DiagonalBoost.BoostPackedDiagonal | test/test_hpgv.cc:67-77 | After the loops, AP equals its old contents with n added at exactly the n packed diagonal positions, and every other entry is unchanged. |
| DiagonalBoost.BoostBandDiagonal | test/test_pbtrf.cc:69-79 | After the loops, AB equals its old contents with n added at exactly the n band diagonal positions, and every other entry is unchanged. |
| DiagonalBoost.PackedDiagonalCount | test/test_ppsv.cc:73-83 | The packed boost touches n distinct positions, each inside the n(n+1)/2 buffer. |
| DiagonalBoost.BandDiagonalRow | test/test_pbsv.cc:50-60 | The band boost touches n distinct positions inside the ldab*n buffer, all in row kd (Upper) or row 0 (Lower). |
| Pbsv.MarshalPbsv | src/pbsv.cc:20-32 | Throws the overflow error exactly when one of n, kd, nrhs, ldab, ldb overflows. Otherwise the native `LAPACK_?pbsv` call receives every argument unchanged. |
| Pbsv.Pbsv | src/pbsv.cc:14-40 | On guard failure: the overflow error, with AB and B untouched. Otherwise AB and B hold what the native routine wrote, and the status is translated: a negative status is thrown, and a normal return is >= 0. |
| Pbsv.OverloadsDifferOnlyInEntry | src/pbsv.cc:14-100 | Any two scalar overloads throw on the same inputs and pass the same call, apart from the entry point; entry points are equal only for the same scalar type. |
| Pbsv.NoGuardInIlp64 | src/pbsv.cc:20-26 | In ILP64 builds the guard never fires. |
| Lantp.Lwork | src/lantp.cc:28 | `lwork`: n for the infinity norm, 1 otherwise. `WorkLength` states the scratch it sizes. |
| Lantp.WorkLength | src/lantp.cc:28-31 | The scratch vector holds `max(1, lwork)` entries, where `lwork` is `n` for the infinity norm and 1 otherwise: always at least 1, and exactly n for `Inf` with n >= 1. |
| Lantp.LantpArgs | src/lantp.cc:22-33 | After the guard, the native call gets n unchanged and a non-empty scratch vector, with at least n entries for `Inf`. |
| Lantp.Lantp | src/lantp.cc:14-34 | Throws exactly when n overflows; otherwise returns the native routine's value for that call. AP is not an output. |
| Lantp.EmptyMatrixNormIsZero | src/lantp.cc:111 | When the native routine returns zero for n = 0, as documented, the wrapper returns zero for every norm, triangle, diagonal and width. |
| Sbgvx.SbgvxArgs | src/sbgvx.cc:38-70 | After the guard: the nine guarded arguments arrive unchanged; `*m` is only cast; the scratch vectors hold exactly 7n reals and 5n integers. |
| Sbgvx.MIsNarrowedUnchecked | src/sbgvx.cc:24-46 | The guard can pass while `*m` = 2^31, a value it would reject for any guarded argument; the narrowed m then differs from the caller's. |
| Sbgvx.EmptyScratchAtZero | src/sbgvx.cc:58-59 | For n = 0 both scratch vectors are empty. |
| Sbgvx.IfailBuffer | src/sbgvx.cc:48-54 | The buffer the native routine writes `ifail` into: a zero-filled `ifail_` of n entries in 32-bit builds, the caller's array in ILP64 builds. `Sbgvx` states the call it receives. |
| Sbgvx.IfailAfter | src/sbgvx.cc:74-77 | After a normal return, `ifail[k]` is the native `ifail_[k]` for k < m_ in 32-bit builds (k < n in ILP64 builds), and every later entry is unchanged. |
| Sbgvx.Sbgvx | src/sbgvx.cc:13-79 | One real (`float`/`double`) overload, with outcomes in order:<br>• guard failure throws overflow, with `*m` and `ifail` untouched;<br>• a negative n throws `std::length_error`;<br>• a negative status throws, with `*m` untouched and `ifail` untouched in 32-bit builds;<br>• otherwise `*m = m_`, `ifail` is as `IfailAfter` says, and the status is returned. |
| LapackeAdapters.Merged | test/lapacke_wrappers.hh:523-525 | Entry i of the merged array has real part re[i] and imaginary part im[i]. |
| LapackeAdapters.MergeRoundTrip | test/lapacke_wrappers.hh:509-526 | Merging loses nothing: the real and imaginary parts read back are the inputs, and any complex array is the merge of its parts. |
| LapackeAdapters.MergeInto | test/lapacke_wrappers.hh:523-525 | The loop writes the merged values into W[0..n) and leaves the rest of W untouched. |
| LapackeAdapters.MergedEigenvalues | test/lapacke_wrappers.hh:516-526 | A negative n throws `std::length_error`. Otherwise W holds the merged native outputs and the status is returned unchanged. |
| LapackeAdapters.Geev | test/lapacke_wrappers.hh:509-526 | Real `geev`: W[i] == (WR[i], WI[i]) for i < n, the rest of W is unchanged, and the native status is returned. |
| LapackeAdapters.Ggev | test/lapacke_wrappers.hh:1670-1691 | Real `ggev`: alpha[i] == (alphar[i], alphai[i]) for i < n, the rest of alpha is unchanged, and the native status is returned. |
| LapackeAdapters.GelsTrans | test/lapacke_wrappers.hh:669-713 | Real `gels` turns 'C' into 'T' and keeps every other character; complex `gels` passes `trans` through. |
| LapackeAdapters.GetslsTrans | test/lapacke_wrappers.hh:1621-1666 | Real `getsls` turns 'C' into 'T' and complex `getsls` turns 'T' into 'C'; every other character is kept. |
| LapackeAdapters.GetslsTransSound | test/lapacke_wrappers.hh:1621-1666 | For valid flags the rewrite is idempotent and yields a flag the native routine accepts. For real types it keeps the requested operation; for complex types 'T' and 'C' both request the conjugate transpose. |
| LapackeAdapters.GelsTransSound | test/lapacke_wrappers.hh:669-713 | The rewrite is idempotent. The real rewrite yields an accepted flag that keeps the requested operation. Complex `gels` yields an accepted flag exactly when `trans` is not 'T'. |
| LapackeAdapters.LarfWorkLength | test/lapacke_wrappers.hh:5456-5468 | The `larf`/`larfx` scratch length is n for side 'l' or 'L', and m otherwise. |
| LapackeAdapters.LarfWorkIsDocumented | test/lapacke_wrappers.hh:5672-5720 | For every valid side character, that length is the documented one: n columns from the left, m rows from the right. |
| LapackeAdapters.Larf | test/lapacke_wrappers.hh:5456-5468 | `larf` returns 0 exactly when its scratch vector can be built; otherwise it throws `std::length_error`. |
| LapackeAdapters.GesvdScratch | test/lapacke_wrappers.hh:1221-1287 | The `superdiag` length is min(m, n): one of the two dimensions, and at most each. |
| LapackeAdapters.GesvdxScratch | test/lapacke_wrappers.hh:1290-1308 | The `superb` length is 12 times the `gesvd` length, 12*min(m, n). |
| LapackeAdapters.LarfWorkEmptyOnEmptySide | test/lapacke_wrappers.hh:5456-5468 | When the dimension on the side of H is 0 the scratch is empty, so `&work[0]` is not a valid address, and `larf` still returns 0. |
| LapackeAdapters.SvdScratchAddressable | test/lapacke_wrappers.hh:1221-1308 | For non-negative m and n both vectors can be built, and `&v[0]` is valid exactly when m >= 1 and n >= 1. |
| LapackeAdapters.NativeProduct | test/lapacke_wrappers.hh:7923 | `n*128` in the native type fits that type and is the exact product whenever the product fits. |
| LapackeAdapters.SytrfAa | test/lapacke_wrappers.hh:7915-7931 | Throws `std::length_error` exactly when the native product `n*128` is negative. Otherwise it returns the native `info_` for a call with `lwork_` = that product. |
| LapackeAdapters.SytrfAaLworkSufficient | test/lapacke_wrappers.hh:7923-7929 | While 128n fits the native type, `lwork_` = 128n >= 2n >= 1 for n >= 1, which covers the documented minimum. |
| LapackeAdapters.SytrfAaLworkEmptyAtZero | test/lapacke_wrappers.hh:7923-7929 | For n = 0, `lwork_` = 0 is below the documented minimum 1, the scratch is not addressable, and the native routine is still called. |
| LapackeAdapters.SytrfAaLworkWraps | test/lapacke_wrappers.hh:7923-7924 | In 32-bit builds n = 2^24 makes `n*128` wrap to -2^31, so the scratch vector cannot be built. |
| LapackeAdapters.HermitianEntry | test/lapacke_wrappers.hh:2808-2858 | The LAPACKE routine each overload of `hecon`, `lanhe` and `unghr` calls. `HermitianDispatchRule` states the rule it follows. |
| LapackeAdapters.HermitianDispatchRule | test/lapacke_wrappers.hh:2808-2858 | `hecon`, `lanhe` and `unghr` call the symmetric routine (`sycon`, `lansy`, `orghr`) for real types and the Hermitian one for complex types, always at the same precision. |
| LapackeAdapters.NormEntry | test/lapacke_wrappers.hh:4867-4905 | The Fortran routine each norm helper calls: `?lansp` for real `lanhp`, otherwise the helper's own name. `RefNorm` states the call. |
| LapackeAdapters.RefNormWorkAsWritten | test/lapacke_wrappers.hh:5328 | The helpers' `work(n)` length as written. `RefNormWorkEmptyAtZero` exhibits it at n = 0. |
| LapackeAdapters.RefNormWorkEmptyAtZero | test/lapacke_wrappers.hh:5324-5331 | As written, the norm helpers' `work(n)` is empty for n = 0, so `&work[0]` is not a valid address. |
| LapackeAdapters.RefNormWorkLength | test/lapacke_wrappers.hh:4530-4568 | Corrected scratch length: always addressable, at least n, and equal to the written length for n >= 1. |
| LapackeAdapters.RefNormWorkCoversLibrary | test/lapacke_wrappers.hh:5324-5362 | The corrected reference scratch is never shorter than the scratch `lapack::lantp` hands to the same native routine, for any norm. |
| LapackeAdapters.RefNorm | test/lapacke_wrappers.hh:4867-4905 | The corrected half of the Findings row. Throws only for a negative n. Otherwise it returns the native value for the call with scratch `RefNormWorkLength(n)` = max(1, n), which is exactly the written `work(n)` for every n >= 1 (`lanhp` goes to `?lansp` for real types). |
| TestSupport.DispatchOn | test/test_hpgv.cc:215-238 | `Integer` throws, and each scalar data type runs the worker for exactly that type. |
| TestSupport.DispatchRoundTrip | test/test_pbsv.cc:104-126 | Every scalar type reaches the worker for that type. |
| TestSupport.AbsError | test/test_pbsv.cc:96-97 | The absolute error of two buffers is non-negative. |
| TestSupport.AbsErrorZeroIff | test/test_pbsv.cc:96-99 | The absolute error is 0 exactly when the buffers are equal. |
| TestSupport.TotalAbsError | test/test_ppsv.cc:118-119 | The summed error of all compared buffers is non-negative. |
| TestSupport.TotalAbsErrorZeroIff | test/test_ppsv.cc:114-121 | The summed error is 0 exactly when every tested buffer equals its reference. |
| TestSupport.ComparisonError | test/test_ppsv.cc:114-119 | The error is non-negative, and at least 1 on a status mismatch. |
| TestSupport.CompareOutputs | test/test_pbsv.cc:91-99 | The accumulation computes the comparison error, which is 0 exactly when the statuses match and every buffer equals its reference (`okay = (error == 0)`). |
| TestSupport.ExpectIdentical | test/test_pbtrf.cc:110-116 | `okay` holds exactly when the status and every compared buffer agree with the reference. |
| TestGeev.LessThan | test/test_geev.cc:14-18 | `lessthan`: a smaller real part, or equal real parts and a smaller imaginary part. `LessThanIsStrictOrder` states its properties. |
| TestGeev.LessThanIsStrictOrder | test/test_geev.cc:14-18 | Over real parts, `lessthan` is irreflexive and transitive, and exactly one of `lessthan(a,b)`, `lessthan(b,a)` holds for a != b. |
| TestGeev.Insert | test/test_geev.cc:173-174 | Inserting into a sorted array keeps it sorted and adds exactly the new element. |
| TestGeev.Sort | test/test_geev.cc:173-174 | `std::sort` with `lessthan`: the result is sorted and a permutation of the input. |
| TestGeev.SortedPermutationUnique | test/test_geev.cc:171-176 | Two sorted arrays with the same elements, counted with multiplicity, are identical. |
| TestGeev.SortIsCanonical | test/test_geev.cc:171-176 | Permutations of one another sort to the same array, so the comparison does not depend on the order the routines returned. |
| TestGeev.SortInPlace | test/test_geev.cc:173-174 | The array becomes the sorted permutation of its old contents. |
| TestGeev.GeevVerdict | test/test_geev.cc:116-181 | `okay` is the conjunction of the enabled checks. The left/right residuals are reported only for `Job::Vec` and otherwise keep the no-data flag. The eigenvalue error compares the two sorted arrays, both of which end up sorted. |
| TestGeev.SameSpectrumPasses | test/test_geev.cc:170-177 | If both routines return the same eigenvalues in any order, the eigenvalue check passes for every positive tolerance. |
| TestHpgv.ReferenceError | test/test_hpgv.cc:204-208 | `error2` is 1 on a status mismatch, and the relative error otherwise. |
| TestHpgv.TestHpgvWork | test/test_hpgv.cc:67-211 | Boost of B (integer halving), then the reference copies, then the tested call. A negative status aborts. The residual check sets `okay` only for `Job::Vec`, and the reference check ANDs `error2 < tol` into it. |
| TestPbsv.TestPbsvWork | test/test_pbsv.cc:50-99 | Boost of AB, then the reference copies, then `lapack::pbsv` as modelled (guard failure or a negative status aborts), then the comparison. When the tested and reference routines agree, every compared run is okay. |
| TestPbtrf.TestPbtrfWork | test/test_pbtrf.cc:69-116 | Boost of AB, then the reference copy, then the tested factorization, then the comparison of status and factor. Agreeing routines are always okay. |
| TestPpsv.TestPpsvWork | test/test_ppsv.cc:73-121 | Boost of AP (0.5 factor), then the reference copies of AP and B, then the solve, then the comparison of status, factor and solution. Agreeing routines are always okay. |
| TestPptri.TestPptriWork | test/test_pptri.cc:66-119 | Boost, then `pptrf` (a negative status aborts), then the copy of the factor, so both inversions start from the same factor. Then the comparison; agreeing routines are always okay. |

## Left out

- Native routines (LAPACK, LAPACKE, the Fortran norm routines, `check_geev`, `rel_error`, the `hpgv` residual) are foreign code. Each is a function parameter, and only the properties the wrappers rely on are stated about it.
- Floating point is not modelled: scalars are reals, and complex test buffers are modelled as reals. The diagonal boost adds n to the real part of a complex entry, and the model represents that as a real addition. The `0.5*` index expressions are computed over the reals, without rounding for very large i. Residuals, norms, tolerances and `rcond` enter as opaque values.
- `abs_error` (its header is not part of this model) is modelled as the sum of entrywise absolute differences. Only its non-negativity, and that it is 0 exactly for equal buffers, are used.
- Harness plumbing is not modelled: `Params`, timing, `flush_cache`, printing, and the random fills (`larnv`, `generate_matrix`). Buffers arrive already filled.
- The call-and-compare drivers `test_unglq`, `test_gelss`, `test_ggrqf`, `test_lanhp`, `test_hpcon`, `test_hptrd`, `test_pocon`, `test_gelsd`, `test_hptrs`, `test_geequ`, `test_spcon` and `test_lacpy` hold only foreign calls and floating-point differences.
- `include/lapack_config.h` is build configuration. It appears only as the choice of `IntWidth`.
- `uplo2char`, `norm2char`, `diag2char`, `job2char`, `range2char`, `throw_if_`, `lapack_error_if` and `roundup` are not part of this model. Character encodings are left out, and `roundup` is represented by the precondition ldab >= kd+1.
- Pointer reinterpret casts between `std::complex` and `lapack_complex_*` concern memory layout only.
- Marshal.GuardPasses: `std::abs` is taken over mathematical integers, so the undefined `std::abs(INT64_MIN)` is not modelled.
- Pass-through overloads in the adapters header, which only forward their arguments, are not modelled.
- The `lapack::pbtrf`, `ppsv`, `pptrf`, `pptri` and `hpgv` wrappers are not part of this model. Their drivers see a routine that returns a status, and a negative status ends the run (`Aborted`/`None`), as the wrapper's exception would.
- Sbgvx.Sbgvx: AB, BB, Q, W, Z and the real scalars vl, vu, abstol pass straight through and are not modelled. The model also assumes the native routine's documented 0 <= m_ <= n on a normal exit (`NativeContract`); without it, the 32-bit copy-back would read past `ifail_`.
- Sbgvx.Sbgvx: `&work[0]`, `&iwork[0]` and `&ifail_[0]` on empty vectors at n = 0 are not flagged as errors. `EmptyScratchAtZero` only exhibits the empty lengths.
- LapackeAdapters.Geev and LapackeAdapters.Ggev: `&WR[0]` on an empty vector at n = 0 is not flagged. The `beta`, VL, VR, A and B buffers are not modelled.
- LapackeAdapters.SytrfAa: at n = 0 the adapter passes `&work[0]` of an empty vector with `lwork_` = 0. The model does not flag this as an error and returns the native status, as the code does; `SytrfAaLworkEmptyAtZero` exhibits the case.
- LapackeAdapters.Larf: when the side dimension is 0 (n for 'L', m for 'R') the scratch is empty and `&work[0]` is past its end. The model does not flag this and returns 0, as the code does; `LarfWorkEmptyOnEmptySide` exhibits the case. `larfx` sizes its scratch the same way.
- LapackeAdapters.RefNorm: models the helpers with the corrected `max(1, n)` scratch, not the written `work(n)`. The two agree for n >= 1; for n = 0 see the Findings row.
- LapackeAdapters.NativeProduct: the signed overflow of `n*128` is undefined behaviour in C++. It is modelled as two's-complement wrap-around.
- TestGeev.Sort: `std::sort` is modelled by a functional insertion sort, specified as a sorted permutation. Its in-place algorithm and the order among equal elements are left out, and equal elements are indistinguishable anyway.
- TestHpgv.TestHpgvWork: the eigenvector array Z, which the tested and reference calls share, is not modelled.
- The drivers' parameters are taken as non-negative dimensions (`n`, `kd` as `nat`).

## Findings

| source | as written | input that shows it | evidently intended | confidence | as-written member | corrected member |
|---|---|---|---|---|---|---|
| test/lapacke_wrappers.hh:5328-5331 | the reference norm helpers (`langb`, `lanhp`, `lantp`) allocate `std::vector work(n)` and pass `&work[0]` | n = 0: the vector is empty, so `work[0]` is past its end | a scratch of `max(1, n)` entries, as `lapack::lantp` allocates (src/lantp.cc:31) | high; not executed | LapackeAdapters.RefNormWorkEmptyAtZero | LapackeAdapters.RefNormWorkLength |
