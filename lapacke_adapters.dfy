/** The reference side of the test suite: thin adapters that give LAPACKE (or plain
    LAPACK) routines the same overloaded shape as the library under test. The adapters
    that hold logic of their own merge split real/imaginary eigenvalue outputs into a
    complex array, rewrite the `trans` flag, size scratch vectors, and dispatch
    "Hermitian" operations to symmetric routines for real scalars. The native routines
    are parameters of the model. */
module LapackeAdapters {
  import opened Marshal
  import Lantp

  /** `std::complex<real>` over the reals. */
  datatype Complex = Complex(re: real, im: real)

  /** `&v[0]` of a `std::vector` is a valid address only when the vector is not empty. */
  predicate Addressable(len: int)
  {
    len >= 1
  }

  /** A `std::vector` of this length can be constructed (a negative size throws). */
  predicate Allocatable(len: int)
  {
    len >= 0
  }

  // ---------------------------------------------------------------------------
  // Real geev / ggev: merging WR, WI (alphar, alphai) into W (alpha)

  /** The complex array whose entry i has real part re[i] and imaginary part im[i]. */
  function Merged(re: seq<real>, im: seq<real>): (w: seq<Complex>)
    requires |re| == |im|
    ensures |w| == |re|
    ensures forall i :: 0 <= i < |w| ==> w[i].re == re[i] && w[i].im == im[i]
  {
    seq(|re|, i requires 0 <= i < |re| => Complex(re[i], im[i]))
  }

  /** The real and the imaginary parts of a complex array, as two real arrays. */
  function Parts(w: seq<Complex>): (p: (seq<real>, seq<real>))
    ensures |p.0| == |w| && |p.1| == |w|
  {
    (seq(|w|, i requires 0 <= i < |w| => w[i].re), seq(|w|, i requires 0 <= i < |w| => w[i].im))
  }

  /** Merging loses nothing: the parts can be read back, and every complex array is the
      merge of its own parts. */
  lemma MergeRoundTrip(re: seq<real>, im: seq<real>, w: seq<Complex>)
    requires |re| == |im|
    ensures Parts(Merged(re, im)) == (re, im)
    ensures Merged(Parts(w).0, Parts(w).1) == w
  {
    var p := Parts(Merged(re, im));
    assert p.0 == re && p.1 == im;
  }

  /** The merge loop `for (i = 0; i < n; ++i) W[i] = std::complex(WR[i], WI[i])`:
      the first n entries of W receive the merged values, the rest are untouched. */
  method MergeInto(W: array<Complex>, re: seq<real>, im: seq<real>)
    requires |re| == |im| <= W.Length
    modifies W
    ensures W[..] == Merged(re, im) + old(W[|re|..])
  {
    for i := 0 to |re|
      invariant forall k :: 0 <= k < W.Length ==>
        W[k] == if k < i then Complex(re[k], im[k]) else old(W[k])
    {
      W[i] := Complex(re[i], im[i]);
    }
    assert W[..] == Merged(re, im) + old(W[|re|..]);
  }

  /** What a real `LAPACKE_?geev` or `LAPACKE_?ggev` call leaves in the two real scratch
      vectors, and its status. */
  datatype SplitSpectrum = SplitSpectrum(re: seq<real>, im: seq<real>, info: int)

  /** The native routine fills both n-entry scratch vectors. */
  ghost predicate FillsParts(native: (string, int) -> SplitSpectrum)
  {
    forall entry: string, n: int :: n >= 0 ==> |native(entry, n).re| == n && |native(entry, n).im| == n
  }

  /** The adapter for a real scalar type: allocate the two scratch vectors (which throws
      for a negative n), call the native routine, merge, and return its status as is. */
  method MergedEigenvalues(stem: string, s: Scalar, n: int, W: array<Complex>,
                           native: (string, int) -> SplitSpectrum)
    returns (r: Outcome<int>)
    requires !IsComplex(s) && FillsParts(native) && n <= W.Length
    modifies W
    ensures n < 0 ==> r == Thrown(LengthError) && W[..] == old(W[..])
    ensures n >= 0 ==>
      var spectrum := native("LAPACKE_" + [Prefix(s)] + stem, n);
      r == Returned(spectrum.info) && W[..] == Merged(spectrum.re, spectrum.im) + old(W[n..])
  {
    if n < 0 {
      return Thrown(LengthError);
    }
    var spectrum := native("LAPACKE_" + [Prefix(s)] + stem, n);
    MergeInto(W, spectrum.re, spectrum.im);
    r := Returned(spectrum.info);
  }

  /** Real `LAPACKE_geev`: W[i] == (WR[i], WI[i]) for i < n, status returned unchanged. */
  method Geev(s: Scalar, n: int, W: array<Complex>, native: (string, int) -> SplitSpectrum)
    returns (r: Outcome<int>)
    requires !IsComplex(s) && FillsParts(native) && n <= W.Length
    modifies W
    ensures n < 0 ==> r == Thrown(LengthError) && W[..] == old(W[..])
    ensures n >= 0 ==>
      var spectrum := native("LAPACKE_" + [Prefix(s)] + "geev", n);
      r == Returned(spectrum.info) &&
      (forall i :: 0 <= i < n ==> W[i] == Complex(spectrum.re[i], spectrum.im[i])) &&
      W[n..] == old(W[n..])
  {
    r := MergedEigenvalues("geev", s, n, W, native);
  }

  /** Real `LAPACKE_ggev`: alpha[i] == (alphar[i], alphai[i]) for i < n, status returned
      unchanged (beta is written by the native routine directly and is not modelled). */
  method Ggev(s: Scalar, n: int, alpha: array<Complex>, native: (string, int) -> SplitSpectrum)
    returns (r: Outcome<int>)
    requires !IsComplex(s) && FillsParts(native) && n <= alpha.Length
    modifies alpha
    ensures n < 0 ==> r == Thrown(LengthError) && alpha[..] == old(alpha[..])
    ensures n >= 0 ==>
      var spectrum := native("LAPACKE_" + [Prefix(s)] + "ggev", n);
      r == Returned(spectrum.info) &&
      (forall i :: 0 <= i < n ==> alpha[i] == Complex(spectrum.re[i], spectrum.im[i])) &&
      alpha[n..] == old(alpha[n..])
  {
    r := MergedEigenvalues("ggev", s, n, alpha, native);
  }

  // ---------------------------------------------------------------------------
  // gels / getsls: the trans flag

  /** `if (trans == 'C') trans = 'T'` for real types; complex `gels` passes `trans` on. */
  function GelsTrans(s: Scalar, trans: char): (t: char)
    ensures !IsComplex(s) ==> t != 'C' && (trans != 'C' ==> t == trans)
    ensures IsComplex(s) ==> t == trans
  {
    if !IsComplex(s) && trans == 'C' then 'T' else trans
  }

  /** `getsls` rewrites 'C' to 'T' for real types and 'T' to 'C' for complex ones. */
  function GetslsTrans(s: Scalar, trans: char): (t: char)
    ensures !IsComplex(s) ==> t != 'C' && (trans != 'C' ==> t == trans)
    ensures IsComplex(s) ==> t != 'T' && (trans != 'T' ==> t == trans)
  {
    if !IsComplex(s) && trans == 'C' then 'T'
    else if IsComplex(s) && trans == 'T' then 'C'
    else trans
  }

  /** The flags the native least-squares routines accept: 'N' or 'T' for real types,
      'N' or 'C' for complex ones. */
  predicate NativeAccepts(s: Scalar, t: char)
  {
    t == 'N' || (if IsComplex(s) then t == 'C' else t == 'T')
  }

  /** The operation op(A) a flag requests, where the conjugate transpose of a real matrix
      is its transpose. */
  datatype Op = NoTrans | Transpose | ConjTranspose

  function Requested(s: Scalar, t: char): Op
    requires t in "NTC"
  {
    if t == 'N' then NoTrans
    else if t == 'T' || !IsComplex(s) then Transpose
    else ConjTranspose
  }

  /** Each rewrite is idempotent and turns every valid flag into one the native routine
      accepts; for real types it also keeps the requested operation. */
  lemma {:induction false} GetslsTransSound(s: Scalar, trans: char)
    requires trans in "NTC"
    ensures GetslsTrans(s, GetslsTrans(s, trans)) == GetslsTrans(s, trans)
    ensures NativeAccepts(s, GetslsTrans(s, trans))
    ensures GetslsTrans(s, trans) in "NTC"
    ensures !IsComplex(s) ==> Requested(s, GetslsTrans(s, trans)) == Requested(s, trans)
    ensures IsComplex(s) ==>
      (Requested(s, GetslsTrans(s, trans)) == if trans == 'N' then NoTrans else ConjTranspose)
  {
    assert trans == 'N' || trans == 'T' || trans == 'C';
  }

  /** The real `gels` rewrite has the same properties; complex `gels` leaves a 'T' that
      the native routine rejects. */
  lemma {:induction false} GelsTransSound(s: Scalar, trans: char)
    requires trans in "NTC"
    ensures GelsTrans(s, GelsTrans(s, trans)) == GelsTrans(s, trans)
    ensures !IsComplex(s) ==>
      NativeAccepts(s, GelsTrans(s, trans)) && Requested(s, GelsTrans(s, trans)) == Requested(s, trans)
    ensures IsComplex(s) ==> (NativeAccepts(s, GelsTrans(s, trans)) <==> trans != 'T')
  {
    assert trans == 'N' || trans == 'T' || trans == 'C';
  }

  // ---------------------------------------------------------------------------
  // Scratch lengths

  /** `work(side == 'l' || side == 'L' ? n : m)` in `larf` and `larfx`. */
  function LarfWorkLength(side: char, m: int, n: int): (len: int)
    ensures side == 'l' || side == 'L' ==> len == n
    ensures side != 'l' && side != 'L' ==> len == m
  {
    if side == 'l' || side == 'L' then n else m
  }

  /** Applying H = I - tau v v' to an m-by-n C from the left combines its n columns,
      from the right its m rows: the documented scratch length. */
  datatype Side = Left | Right

  function DocumentedLarfWork(side: Side, m: nat, n: nat): nat
  {
    match side
    case Left => n
    case Right => m
  }

  /** For every valid side character the adapter's length is the documented one. */
  lemma LarfWorkIsDocumented(side: char, m: nat, n: nat)
    requires side in "lLrR"
    ensures LarfWorkLength(side, m, n) ==
      DocumentedLarfWork(if side == 'l' || side == 'L' then Left else Right, m, n)
  {
  }

  /** `LAPACKE_larf` wraps a routine without a status: it returns 0 once its scratch
      vector exists, whatever the native routine does. The native routine itself is not
      part of this function: nothing it computes reaches the result. */
  function Larf(side: char, m: int, n: int): (r: Outcome<int>)
    ensures r.Returned? <==> Allocatable(LarfWorkLength(side, m, n))
    ensures r.Returned? ==> r.value == 0
    ensures r.Thrown? ==> r.error == LengthError
  {
    if LarfWorkLength(side, m, n) < 0 then Thrown(LengthError) else Returned(0)
  }

  /** `superdiag(std::min(m, n))` in `gesvd`. */
  function GesvdScratch(m: int, n: int): (len: int)
    ensures len <= m && len <= n && (len == m || len == n)
  {
    if m < n then m else n
  }

  /** `superb(12 * minmn)` in `gesvdx`, with `minmn` the smaller dimension. */
  function GesvdxScratch(m: int, n: int): (len: int)
    ensures len == 12 * GesvdScratch(m, n)
  {
    var minmn := if m < n then m else n;
    12 * minmn
  }

  /** When the dimension on the side of H is 0, the `larf`/`larfx` scratch vector is empty,
      so `&work[0]` is not a valid address, yet `larf` still returns 0. */
  lemma LarfWorkEmptyOnEmptySide(m: int, n: int)
    ensures LarfWorkLength('L', m, 0) == 0 && !Addressable(LarfWorkLength('L', m, 0))
    ensures LarfWorkLength('R', 0, n) == 0 && !Addressable(LarfWorkLength('R', 0, n))
    ensures Larf('L', m, 0) == Returned(0) && Larf('R', 0, n) == Returned(0)
  {
  }

  /** For a non-negative m-by-n matrix both scratch vectors can be built, and `&v[0]` is
      valid exactly when neither dimension is zero. */
  lemma SvdScratchAddressable(m: nat, n: nat)
    ensures Allocatable(GesvdScratch(m, n)) && Allocatable(GesvdxScratch(m, n))
    ensures Addressable(GesvdScratch(m, n)) <==> m >= 1 && n >= 1
    ensures Addressable(GesvdxScratch(m, n)) <==> m >= 1 && n >= 1
  {
  }

  /** `n*128` evaluated in the native integer type: two's-complement wrap-around. */
  function NativeProduct(w: IntWidth, x: int): (r: int)
    ensures IsNative(w, r)
    ensures IsNative(w, x) ==> r == x
  {
    var half := NativeMax(w) + 1;
    (x + half) % (2 * half) - half
  }

  /** The native `?sytrf_aa` call: entry point, n and the scratch length `lwork_`. */
  datatype SytrfAaCall = SytrfAaCall(entry: string, uplo: Uplo, n: int, lwork: int)

  /** `LAPACKE_sytrf_aa`: `lwork_ = n*128`, a scratch vector of that length, and the
      native `info_` returned unchanged. */
  function SytrfAa(w: IntWidth, s: Scalar, uplo: Uplo, n: int, native: SytrfAaCall -> int)
    : (r: Outcome<int>)
    ensures r.Thrown? <==> NativeProduct(w, n * 128) < 0
    ensures r.Thrown? ==> r.error == LengthError
    ensures r.Returned? ==>
      r.value == native(SytrfAaCall("LAPACK_" + [Prefix(s)] + "sytrf_aa", uplo, n, NativeProduct(w, n * 128)))
  {
    var lwork := NativeProduct(w, n * 128);
    if lwork < 0 then Thrown(LengthError)
    else Returned(native(SytrfAaCall("LAPACK_" + [Prefix(s)] + "sytrf_aa", uplo, n, lwork)))
  }

  /** While 128n fits the native type, lwork_ is 128n, well above the documented
      minimum max(1, 2n) for every n >= 1. */
  lemma {:induction false} SytrfAaLworkSufficient(w: IntWidth, n: int)
    requires 1 <= n && n * 128 <= NativeMax(w)
    ensures NativeProduct(w, n * 128) == 128 * n >= 2 * n >= 1
  {
  }

  /** For n = 0, `lwork_ = 0` is below the documented minimum max(1, 2n) = 1, the scratch
      vector is empty so `&work[0]` is not a valid address, and the adapter still calls
      the native routine. */
  lemma SytrfAaLworkEmptyAtZero(w: IntWidth, s: Scalar, uplo: Uplo, native: SytrfAaCall -> int)
    ensures NativeProduct(w, 0 * 128) == 0 && !Addressable(NativeProduct(w, 0 * 128))
    ensures SytrfAa(w, s, uplo, 0, native) ==
      Returned(native(SytrfAaCall("LAPACK_" + [Prefix(s)] + "sytrf_aa", uplo, 0, 0)))
  {
  }

  /** In 32-bit builds n = 2^24 already overflows: the product wraps to -2^31 and the
      scratch vector cannot be built. */
  lemma SytrfAaLworkWraps(s: Scalar, uplo: Uplo, native: SytrfAaCall -> int)
    ensures NativeProduct(Int32, 0x100_0000 * 128) == -INT32_MAX - 1
    ensures SytrfAa(Int32, s, uplo, 0x100_0000, native) == Thrown(LengthError)
  {
  }

  // ---------------------------------------------------------------------------
  // Real/complex dispatch of Hermitian operations

  /** The three adapters that route "Hermitian" operations by scalar type. */
  datatype HermitianOp = Hecon | Lanhe | Unghr

  /** The LAPACKE routine each overload of `hecon`, `lanhe`, `unghr` calls. */
  function HermitianEntry(op: HermitianOp, s: Scalar): string
  {
    match (op, s)
    case (Hecon, Single) => "LAPACKE_ssycon"
    case (Hecon, Double) => "LAPACKE_dsycon"
    case (Hecon, SingleComplex) => "LAPACKE_checon"
    case (Hecon, DoubleComplex) => "LAPACKE_zhecon"
    case (Lanhe, Single) => "LAPACKE_slansy"
    case (Lanhe, Double) => "LAPACKE_dlansy"
    case (Lanhe, SingleComplex) => "LAPACKE_clanhe"
    case (Lanhe, DoubleComplex) => "LAPACKE_zlanhe"
    case (Unghr, Single) => "LAPACKE_sorghr"
    case (Unghr, Double) => "LAPACKE_dorghr"
    case (Unghr, SingleComplex) => "LAPACKE_cunghr"
    case (Unghr, DoubleComplex) => "LAPACKE_zunghr"
  }

  /** The symmetric (orthogonal) counterpart of each operation, used for real types. */
  function SymmetricStem(op: HermitianOp): string
  {
    match op
    case Hecon => "sycon"
    case Lanhe => "lansy"
    case Unghr => "orghr"
  }

  function HermitianStem(op: HermitianOp): string
  {
    match op
    case Hecon => "hecon"
    case Lanhe => "lanhe"
    case Unghr => "unghr"
  }

  /** A real symmetric matrix is Hermitian, so for real types the adapter calls the
      symmetric routine; complex types call the Hermitian one, always of the same
      precision. */
  lemma {:induction false} HermitianDispatchRule(op: HermitianOp, s: Scalar)
    ensures HermitianEntry(op, s) ==
      "LAPACKE_" + [Prefix(s)] + (if IsComplex(s) then HermitianStem(op) else SymmetricStem(op))
  {
    match (op, s)
    case (Hecon, Single) => assert "LAPACKE_" + "s" + "sycon" == "LAPACKE_ssycon";
    case (Hecon, Double) => assert "LAPACKE_" + "d" + "sycon" == "LAPACKE_dsycon";
    case (Hecon, SingleComplex) => assert "LAPACKE_" + "c" + "hecon" == "LAPACKE_checon";
    case (Hecon, DoubleComplex) => assert "LAPACKE_" + "z" + "hecon" == "LAPACKE_zhecon";
    case (Lanhe, Single) => assert "LAPACKE_" + "s" + "lansy" == "LAPACKE_slansy";
    case (Lanhe, Double) => assert "LAPACKE_" + "d" + "lansy" == "LAPACKE_dlansy";
    case (Lanhe, SingleComplex) => assert "LAPACKE_" + "c" + "lanhe" == "LAPACKE_clanhe";
    case (Lanhe, DoubleComplex) => assert "LAPACKE_" + "z" + "lanhe" == "LAPACKE_zlanhe";
    case (Unghr, Single) => assert "LAPACKE_" + "s" + "orghr" == "LAPACKE_sorghr";
    case (Unghr, Double) => assert "LAPACKE_" + "d" + "orghr" == "LAPACKE_dorghr";
    case (Unghr, SingleComplex) => assert "LAPACKE_" + "c" + "unghr" == "LAPACKE_cunghr";
    case (Unghr, DoubleComplex) => assert "LAPACKE_" + "z" + "unghr" == "LAPACKE_zunghr";
  }

  // ---------------------------------------------------------------------------
  // Reference norm helpers langb, lanhp, lantp

  /** The three norm helpers that call Fortran LAPACK with a scratch vector of their own. */
  datatype NormHelper = Langb | Lanhp | Lantp

  /** The Fortran routine each helper calls: `lanhp` goes to `?lansp` for real types. */
  function NormEntry(h: NormHelper, s: Scalar): string
  {
    "LAPACK_" + [Prefix(s)] +
      match h
      case Langb => "langb"
      case Lanhp => if IsComplex(s) then "lanhp" else "lansp"
      case Lantp => "lantp"
  }

  /** The scratch length as the helpers allocate it: `std::vector work(n)`. */
  function RefNormWorkAsWritten(n: int): int
  {
    n
  }

  /** For an empty matrix the vector is empty, and `&work[0]` is not a valid address. */
  lemma RefNormWorkEmptyAtZero()
    ensures RefNormWorkAsWritten(0) == 0 && !Addressable(RefNormWorkAsWritten(0))
  {
  }

  /** The scratch length the helpers evidently intend: `max(1, n)`, as `lapack::lantp`
      itself allocates. It is always addressable and covers the n row sums the infinity
      norm needs. */
  function RefNormWorkLength(n: int): (len: int)
    ensures Addressable(len) && len >= n
    ensures n >= 1 ==> len == RefNormWorkAsWritten(n)
  {
    if n < 1 then 1 else n
  }

  /** The reference scratch (so corrected) is never shorter than the one the library
      wrapper hands to the same native routine, for any norm. */
  lemma RefNormWorkCoversLibrary(norm: Lantp.Norm, n: int)
    ensures RefNormWorkLength(n) >= Lantp.WorkLength(norm, n)
  {
  }

  /** The native call of a reference norm helper: entry point, n and scratch length. */
  datatype RefNormCall = RefNormCall(entry: string, n: int, workLength: int)

  /** A reference norm helper with the corrected scratch length `max(1, n)`: it throws
      only where `std::vector` would, and otherwise returns the native routine's value
      for a call whose scratch is addressable, n entries long for every n >= 1. */
  function RefNorm(h: NormHelper, s: Scalar, n: int, native: RefNormCall -> real): (r: Outcome<real>)
    ensures r.Thrown? <==> n < 0
    ensures r.Thrown? ==> r.error == LengthError
    ensures r.Returned? ==> r.value == native(RefNormCall(NormEntry(h, s), n, RefNormWorkLength(n)))
    ensures r.Returned? && n >= 1 ==>
      r.value == native(RefNormCall(NormEntry(h, s), n, RefNormWorkAsWritten(n)))
  {
    if n < 0 then Thrown(LengthError)
    else Returned(native(RefNormCall(NormEntry(h, s), n, RefNormWorkLength(n))))
  }
}
