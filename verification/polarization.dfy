/**
  Polarization tensors of a gravitational wave (get_polarization_tensor in
  tupak/gw/utils.py): the Earth frame (u, v) at the source's polar angles, the
  wave frame (m, n, omega) rotated by the polarisation angle psi, the six
  modes of Nishizawa et al. (2009) built from outer products, and the
  case-insensitive choice of a mode by name.
 */
module Polarization {

  import opened Wrappers
  import opened Elementary
  import opened Geometry

  /** A 3 x 3 matrix by rows. */
  datatype Mat3 = Mat3(r0: Vec3, r1: Vec3, r2: Vec3)

  /** np.einsum('i,j->ij', a, b). */
  function Outer(a: Vec3, b: Vec3): Mat3 {
    Mat3(Geometry.Scale(a.x, b), Geometry.Scale(a.y, b), Geometry.Scale(a.z, b))
  }

  function MAdd(p: Mat3, q: Mat3): Mat3 {
    Mat3(Add(p.r0, q.r0), Add(p.r1, q.r1), Add(p.r2, q.r2))
  }

  function MSub(p: Mat3, q: Mat3): Mat3 {
    Mat3(Sub(p.r0, q.r0), Sub(p.r1, q.r1), Sub(p.r2, q.r2))
  }

  function MScale(k: real, p: Mat3): Mat3 {
    Mat3(Geometry.Scale(k, p.r0), Geometry.Scale(k, p.r1), Geometry.Scale(k, p.r2))
  }

  function Transpose(p: Mat3): Mat3 {
    Mat3(Vec3(p.r0.x, p.r1.x, p.r2.x), Vec3(p.r0.y, p.r1.y, p.r2.y), Vec3(p.r0.z, p.r1.z, p.r2.z))
  }

  function Trace(p: Mat3): real {
    p.r0.x + p.r1.y + p.r2.z
  }

  /** The Frobenius inner product sum_ij p_ij q_ij. */
  function Frobenius(p: Mat3, q: Mat3): real {
    Dot(p.r0, q.r0) + Dot(p.r1, q.r1) + Dot(p.r2, q.r2)
  }

  /** The matrix-vector product p w. */
  function MatVec(p: Mat3, w: Vec3): Vec3 {
    Vec3(Dot(p.r0, w), Dot(p.r1, w), Dot(p.r2, w))
  }

  predicate Symmetric(p: Mat3) {
    Transpose(p) == p
  }

  /** Two vectors of unit length, orthogonal to each other. */
  predicate Orthonormal(a: Vec3, b: Vec3) {
    Dot(a, a) == 1.0 && Dot(b, b) == 1.0 && Dot(a, b) == 0.0
  }

  // ----- Modes and their names -----

  datatype Mode = Plus | CrossMode | Breathing | Longitudinal | X | Y

  function ModeName(mode: Mode): string {
    match mode
    case Plus => "plus"
    case CrossMode => "cross"
    case Breathing => "breathing"
    case Longitudinal => "longitudinal"
    case X => "x"
    case Y => "y"
  }

  /**
    ASCII lower-casing of one character, standing in for str.lower: the result is never an
    upper-case letter, an upper-case letter becomes the lower-case letter at
    the same place in the alphabet, and any other character is kept.
   */
  function LowerChar(c: char): (r: char)
    ensures !('A' <= r <= 'Z')
    ensures 'A' <= c <= 'Z' ==> 'a' <= r <= 'z' && r as int - 'a' as int == c as int - 'A' as int
    ensures !('A' <= c <= 'Z') ==> r == c
  {
    if 'A' <= c <= 'Z' then (c as int + 32) as char else c
  }

  /**
    ASCII lower-casing standing in for str.lower, character by character: same
    length, no upper-case letter left, every upper-case letter replaced by the
    lower-case letter at the same place in the alphabet, and every other
    character kept in place.
   */
  function Lower(s: string): (r: string)
    ensures |r| == |s|
    ensures forall k :: 0 <= k < |r| ==> !('A' <= r[k] <= 'Z')
    ensures forall k :: 0 <= k < |s| && 'A' <= s[k] <= 'Z' ==> r[k] as int - 'a' as int == s[k] as int - 'A' as int
    ensures forall k :: 0 <= k < |s| && !('A' <= s[k] <= 'Z') ==> r[k] == s[k]
  {
    seq(|s|, k requires 0 <= k < |s| => LowerChar(s[k]))
  }

  /** The if/elif chain on mode.lower(); None for a name that is not a mode. */
  function ParseMode(mode: string): Option<Mode> {
    var name := Lower(mode);
    if name == "plus" then Some(Plus)
    else if name == "cross" then Some(CrossMode)
    else if name == "breathing" then Some(Breathing)
    else if name == "longitudinal" then Some(Longitudinal)
    else if name == "x" then Some(X)
    else if name == "y" then Some(Y)
    else None
  }

  // ----- Frames and tensors -----

  /** The Earth-frame vectors u and v at polar angles theta and phi. */
  function EarthFrame(theta: real, phi: real, tr: Transcendentals): (Vec3, Vec3) {
    var u := Vec3(tr.cos(phi) * tr.cos(theta), tr.cos(theta) * tr.sin(phi), -tr.sin(theta));
    var v := Vec3(-tr.sin(phi), tr.cos(phi), 0.0);
    (u, v)
  }

  /** The wave-frame vectors m = -u sin psi - v cos psi and n = -u cos psi + v sin psi. */
  function WaveFrame(u: Vec3, v: Vec3, psi: real, tr: Transcendentals): (Vec3, Vec3) {
    var s, c := tr.sin(psi), tr.cos(psi);
    (Combination(-s, u, -c, v), Combination(-c, u, s, v))
  }

  /** The tensor of one mode in the wave frame (m, n); root2 is the square root of 2. */
  function PolarizationTensor(mode: Mode, m: Vec3, n: Vec3, root2: real): Mat3 {
    match mode
    case Plus => MSub(Outer(m, m), Outer(n, n))
    case CrossMode => MAdd(Outer(m, n), Outer(n, m))
    case Breathing => MAdd(Outer(m, m), Outer(n, n))
    case Longitudinal =>
      var omega := Geometry.Cross(m, n);
      MScale(root2, Outer(omega, omega))
    case X =>
      var omega := Geometry.Cross(m, n);
      MAdd(Outer(m, omega), Outer(omega, m))
    case Y =>
      var omega := Geometry.Cross(m, n);
      MAdd(Outer(n, omega), Outer(omega, n))
  }

  /**
    What each mode's tensor does to the wave frame, as the images of m, n and
    omega = m x n: plus stretches along m and squeezes along n, cross swaps m
    and n, breathing keeps both, longitudinal scales omega by root2, and x and
    y swap omega with m and with n. The three vectors form an orthonormal
    basis, so these images pin the tensor down.
   */
  function ModeAction(mode: Mode, m: Vec3, n: Vec3, root2: real): (Vec3, Vec3, Vec3) {
    var omega := Geometry.Cross(m, n);
    var zero := Vec3(0.0, 0.0, 0.0);
    match mode
    case Plus => (m, Neg(n), zero)
    case CrossMode => (n, m, zero)
    case Breathing => (m, n, zero)
    case Longitudinal => (zero, zero, Geometry.Scale(root2, omega))
    case X => (omega, zero, m)
    case Y => (zero, omega, n)
  }

  /** p maps m, n and m x n to the images `images` lists. */
  predicate ActsAs(p: Mat3, m: Vec3, n: Vec3, images: (Vec3, Vec3, Vec3)) {
    && MatVec(p, m) == images.0
    && MatVec(p, n) == images.1
    && MatVec(p, Geometry.Cross(m, n)) == images.2
  }

  /** The wave frame (m, n) of a source at (ra, dec), seen at a GPS time, with polarisation angle psi. */
  function SourceWaveFrame(ra: real, dec: real, time: real, psi: real, tr: Transcendentals): (Vec3, Vec3) {
    var (theta, phi) := SkyAngles(ra, dec, time, tr);
    var (u, v) := EarthFrame(theta, phi, tr);
    WaveFrame(u, v, psi, tr)
  }

  /** The polarization tensor of the named mode, or None when the name is not a mode. */
  function GetPolarizationTensor(ra: real, dec: real, time: real, psi: real, mode: string, tr: Transcendentals): (r: Option<Mat3>)
    ensures r.None? <==> ParseMode(mode).None?
    ensures r.Some? ==> r.value == PolarizationTensor(ParseMode(mode).value, SourceWaveFrame(ra, dec, time, psi, tr).0,
                                                      SourceWaveFrame(ra, dec, time, psi, tr).1, tr.sqrt(2.0))
  {
    var (m, n) := SourceWaveFrame(ra, dec, time, psi, tr);
    match ParseMode(mode)
    case None => None
    case Some(md) => Some(PolarizationTensor(md, m, n, tr.sqrt(2.0)))
  }

  // ----- Mode names -----

  lemma LowerCharIdempotent(c: char)
    ensures LowerChar(LowerChar(c)) == LowerChar(c)
  {
  }

  /** Lower-casing twice is lower-casing once. */
  lemma LowerIdempotent(s: string)
    ensures Lower(Lower(s)) == Lower(s)
  {
    forall k | 0 <= k < |s| ensures Lower(Lower(s))[k] == Lower(s)[k] {
      LowerCharIdempotent(s[k]);
    }
  }

  /** Every mode name is already in lower case. */
  lemma ModeNameIsLower(mode: Mode)
    ensures Lower(ModeName(mode)) == ModeName(mode)
  {
    var name := ModeName(mode);
    forall k | 0 <= k < |name| ensures Lower(name)[k] == name[k] {
    }
  }

  /** A name selects a mode exactly when its lower-case form is that mode's name. */
  lemma ParseModeSelects(mode: string, md: Mode)
    ensures ParseMode(mode) == Some(md) <==> Lower(mode) == ModeName(md)
  {
  }

  /** A name selects no mode exactly when its lower-case form is none of the six names. */
  lemma ParseModeRejects(mode: string)
    ensures ParseMode(mode).None? <==> forall md: Mode :: Lower(mode) != ModeName(md)
  {
    if ParseMode(mode).Some? {
      ParseModeSelects(mode, ParseMode(mode).value);
    }
  }

  /** Case does not matter: a name selects what its lower-case form selects. */
  lemma ParseModeIgnoresCase(mode: string)
    ensures ParseMode(Lower(mode)) == ParseMode(mode)
  {
    LowerIdempotent(mode);
  }

  /** Any spelling of a mode's name in mixed case selects that mode, and so does the name itself. */
  lemma ParseModeCaseInsensitive(mode: string, md: Mode)
    requires Lower(mode) == ModeName(md)
    ensures ParseMode(mode) == Some(md)
    ensures ParseMode(ModeName(md)) == Some(md)
  {
    ModeNameIsLower(md);
    ParseModeSelects(mode, md);
    ParseModeSelects(ModeName(md), md);
  }

  /** Two characters are the same letter in either case, or simply equal. */
  predicate SameIgnoringAsciiCase(c: char, d: char) {
    || c == d
    || ('A' <= c <= 'Z' && d as int == c as int + 32)
    || ('A' <= d <= 'Z' && c as int == d as int + 32)
  }

  /** Two strings are equal up to the case of their ASCII letters. */
  predicate EqualIgnoringAsciiCase(a: string, b: string) {
    |a| == |b| && forall k :: 0 <= k < |a| ==> SameIgnoringAsciiCase(a[k], b[k])
  }

  lemma LowerCharAgrees(c: char, d: char)
    ensures LowerChar(c) == LowerChar(d) <==> SameIgnoringAsciiCase(c, d)
  {
  }

  /** Two strings lower to the same string exactly when they are equal up to ASCII case. */
  lemma LowerAgrees(a: string, b: string)
    ensures Lower(a) == Lower(b) <==> EqualIgnoringAsciiCase(a, b)
  {
    if Lower(a) == Lower(b) {
      forall k | 0 <= k < |a| ensures SameIgnoringAsciiCase(a[k], b[k]) {
        assert Lower(a)[k] == Lower(b)[k];
        LowerCharAgrees(a[k], b[k]);
      }
    }
    if EqualIgnoringAsciiCase(a, b) {
      forall k | 0 <= k < |a| ensures Lower(a)[k] == Lower(b)[k] {
        LowerCharAgrees(a[k], b[k]);
      }
    }
  }

  /** A name selects a mode exactly when it spells that mode's name in any mix of cases. */
  lemma ParseModeSpelling(mode: string, md: Mode)
    ensures ParseMode(mode) == Some(md) <==> EqualIgnoringAsciiCase(mode, ModeName(md))
  {
    ModeNameIsLower(md);
    ParseModeSelects(mode, md);
    LowerAgrees(mode, ModeName(md));
  }

  /** Upper-case and capitalised spellings of a mode name select that mode. */
  lemma ParseModeCapitalised()
    ensures ParseMode("PLUS") == Some(Plus)
    ensures ParseMode("Cross") == Some(CrossMode)
  {
    assert EqualIgnoringAsciiCase("PLUS", ModeName(Plus));
    ParseModeSpelling("PLUS", Plus);
    assert EqualIgnoringAsciiCase("Cross", ModeName(CrossMode));
    ParseModeSpelling("Cross", CrossMode);
  }

  // ----- Tensor algebra -----

  lemma TransposeOuter(a: Vec3, b: Vec3)
    ensures Transpose(Outer(a, b)) == Outer(b, a)
  {
  }

  lemma TraceOuter(a: Vec3, b: Vec3)
    ensures Trace(Outer(a, b)) == Dot(a, b)
  {
  }

  /** <a b^T, c d^T> = (a . c)(b . d). */
  lemma FrobeniusOuter(a: Vec3, b: Vec3, c: Vec3, d: Vec3)
    ensures Frobenius(Outer(a, b), Outer(c, d)) == Dot(a, c) * Dot(b, d)
  {
    var bd := Dot(b, d);
    var p, q := Outer(a, b), Outer(c, d);
    calc {
      Frobenius(p, q);
      Dot(p.r0, q.r0) + Dot(p.r1, q.r1) + Dot(p.r2, q.r2);
      Dot(Geometry.Scale(a.x, b), Geometry.Scale(c.x, d)) + Dot(Geometry.Scale(a.y, b), Geometry.Scale(c.y, d))
        + Dot(Geometry.Scale(a.z, b), Geometry.Scale(c.z, d));
      { DotScaledPair(a.x, b, c.x, d); DotScaledPair(a.y, b, c.y, d); DotScaledPair(a.z, b, c.z, d); }
      (a.x * c.x) * bd + (a.y * c.y) * bd + (a.z * c.z) * bd;
      { Distribute3(a.x * c.x, a.y * c.y, a.z * c.z, bd); }
      (a.x * c.x + a.y * c.y + a.z * c.z) * bd;
      Dot(a, c) * bd;
    }
  }

  /** (s b) . (t d) = (s t)(b . d). */
  lemma DotScaledPair(s: real, b: Vec3, t: real, d: Vec3)
    ensures Dot(Geometry.Scale(s, b), Geometry.Scale(t, d)) == (s * t) * Dot(b, d)
  {
    var bd := Dot(b, d);
    DotScaleLeft(s, b, Geometry.Scale(t, d));
    DotScaleRight(t, b, d);
    assert s * (t * bd) == (s * t) * bd;
  }

  lemma Distribute3(x: real, y: real, z: real, k: real)
    ensures x * k + y * k + z * k == (x + y + z) * k
  {
  }

  lemma TraceScale(k: real, p: Mat3)
    ensures Trace(MScale(k, p)) == k * Trace(p)
  {
  }

  lemma TransposeAdd(p: Mat3, q: Mat3)
    ensures Transpose(MAdd(p, q)) == MAdd(Transpose(p), Transpose(q))
  {
  }

  lemma TransposeSub(p: Mat3, q: Mat3)
    ensures Transpose(MSub(p, q)) == MSub(Transpose(p), Transpose(q))
  {
  }

  lemma TransposeScale(k: real, p: Mat3)
    ensures Transpose(MScale(k, p)) == MScale(k, Transpose(p))
  {
  }

  /** a b^T + b a^T is symmetric. */
  lemma SymmetrizedOuterSymmetric(a: Vec3, b: Vec3)
    ensures Symmetric(MAdd(Outer(a, b), Outer(b, a)))
  {
    TransposeAdd(Outer(a, b), Outer(b, a));
    TransposeOuter(a, b);
    TransposeOuter(b, a);
    assert MAdd(Outer(b, a), Outer(a, b)) == MAdd(Outer(a, b), Outer(b, a));
  }

  lemma FrobeniusAddLeft(p: Mat3, q: Mat3, s: Mat3)
    ensures Frobenius(MAdd(p, q), s) == Frobenius(p, s) + Frobenius(q, s)
  {
  }

  lemma FrobeniusSubLeft(p: Mat3, q: Mat3, s: Mat3)
    ensures Frobenius(MSub(p, q), s) == Frobenius(p, s) - Frobenius(q, s)
  {
  }

  lemma FrobeniusAddRight(p: Mat3, q: Mat3, s: Mat3)
    ensures Frobenius(s, MAdd(p, q)) == Frobenius(s, p) + Frobenius(s, q)
  {
  }

  lemma FrobeniusSubRight(p: Mat3, q: Mat3, s: Mat3)
    ensures Frobenius(s, MSub(p, q)) == Frobenius(s, p) - Frobenius(s, q)
  {
  }

  /** The cross product is orthogonal to both factors. */
  lemma CrossOrthogonal(a: Vec3, b: Vec3)
    ensures Dot(a, Geometry.Cross(a, b)) == 0.0 && Dot(b, Geometry.Cross(a, b)) == 0.0
  {
  }

  /** Every mode's tensor is symmetric. */
  lemma PolarizationTensorSymmetric(mode: Mode, m: Vec3, n: Vec3, root2: real)
    ensures Symmetric(PolarizationTensor(mode, m, n, root2))
  {
    var omega := Geometry.Cross(m, n);
    TransposeOuter(m, m);
    TransposeOuter(n, n);
    match mode
    case Plus => TransposeSub(Outer(m, m), Outer(n, n));
    case CrossMode => SymmetrizedOuterSymmetric(m, n);
    case Breathing => TransposeAdd(Outer(m, m), Outer(n, n));
    case Longitudinal =>
      TransposeScale(root2, Outer(omega, omega));
      TransposeOuter(omega, omega);
    case X => SymmetrizedOuterSymmetric(m, omega);
    case Y => SymmetrizedOuterSymmetric(n, omega);
  }

  /** The plus and breathing tensors add up to 2 m m^T. */
  lemma PlusAddBreathing(m: Vec3, n: Vec3, root2: real)
    ensures MAdd(PolarizationTensor(Plus, m, n, root2), PolarizationTensor(Breathing, m, n, root2))
         == MScale(2.0, Outer(m, m))
  {
  }

  /**
    In an orthonormal wave frame the tensor modes (plus, cross) and the
    vector modes (x, y) are traceless, the breathing mode has trace 2 and the
    longitudinal mode has trace root2.
   */
  lemma PolarizationTensorTrace(m: Vec3, n: Vec3, root2: real)
    requires Orthonormal(m, n)
    ensures Trace(PolarizationTensor(Plus, m, n, root2)) == 0.0
    ensures Trace(PolarizationTensor(CrossMode, m, n, root2)) == 0.0
    ensures Trace(PolarizationTensor(Breathing, m, n, root2)) == 2.0
    ensures Trace(PolarizationTensor(Longitudinal, m, n, root2)) == root2
    ensures Trace(PolarizationTensor(X, m, n, root2)) == 0.0
    ensures Trace(PolarizationTensor(Y, m, n, root2)) == 0.0
  {
    var omega := Geometry.Cross(m, n);
    TraceOuter(m, m);
    TraceOuter(n, n);
    TraceOuter(m, n);
    TraceOuter(n, m);
    TraceOuter(omega, omega);
    TraceOuter(m, omega);
    TraceOuter(omega, m);
    TraceOuter(n, omega);
    TraceOuter(omega, n);
    CrossOrthogonal(m, n);
    DotSymmetric(m, omega);
    DotSymmetric(n, omega);
    LagrangeIdentity(m, n);
    assert Dot(omega, omega) == 1.0;
    TraceScale(root2, Outer(omega, omega));
  }

  /**
    In an orthonormal wave frame the plus and cross tensors are orthogonal
    and each has squared Frobenius norm 2.
   */
  lemma PlusCrossOrthogonal(m: Vec3, n: Vec3, root2: real)
    requires Orthonormal(m, n)
    ensures Frobenius(PolarizationTensor(Plus, m, n, root2), PolarizationTensor(CrossMode, m, n, root2)) == 0.0
    ensures Frobenius(PolarizationTensor(Plus, m, n, root2), PolarizationTensor(Plus, m, n, root2)) == 2.0
    ensures Frobenius(PolarizationTensor(CrossMode, m, n, root2), PolarizationTensor(CrossMode, m, n, root2)) == 2.0
  {
    var mm, nn, mn, nm := Outer(m, m), Outer(n, n), Outer(m, n), Outer(n, m);
    DotSymmetric(m, n);
    FrobeniusOuter(m, m, m, n);
    FrobeniusOuter(m, m, n, m);
    FrobeniusOuter(n, n, m, n);
    FrobeniusOuter(n, n, n, m);
    FrobeniusOuter(m, m, m, m);
    FrobeniusOuter(m, m, n, n);
    FrobeniusOuter(n, n, m, m);
    FrobeniusOuter(n, n, n, n);
    FrobeniusOuter(m, n, m, n);
    FrobeniusOuter(m, n, n, m);
    FrobeniusOuter(n, m, m, n);
    FrobeniusOuter(n, m, n, m);
    FrobeniusSubLeft(mm, nn, MAdd(mn, nm));
    FrobeniusAddRight(mn, nm, mm);
    FrobeniusAddRight(mn, nm, nn);
    FrobeniusSubLeft(mm, nn, MSub(mm, nn));
    FrobeniusSubRight(mm, nn, mm);
    FrobeniusSubRight(mm, nn, nn);
    FrobeniusAddLeft(mn, nm, MAdd(mn, nm));
    FrobeniusAddRight(mn, nm, mn);
    FrobeniusAddRight(mn, nm, nm);
  }

  /** (a b^T) w = (b . w) a. */
  lemma MatVecOuter(a: Vec3, b: Vec3, w: Vec3)
    ensures MatVec(Outer(a, b), w) == Geometry.Scale(Dot(b, w), a)
  {
    DotScaleLeft(a.x, b, w);
    DotScaleLeft(a.y, b, w);
    DotScaleLeft(a.z, b, w);
  }

  lemma MatVecAdd(p: Mat3, q: Mat3, w: Vec3)
    ensures MatVec(MAdd(p, q), w) == Add(MatVec(p, w), MatVec(q, w))
  {
    DotAddLeft(p.r0, q.r0, w);
    DotAddLeft(p.r1, q.r1, w);
    DotAddLeft(p.r2, q.r2, w);
  }

  lemma MatVecSub(p: Mat3, q: Mat3, w: Vec3)
    ensures MatVec(MSub(p, q), w) == Sub(MatVec(p, w), MatVec(q, w))
  {
  }

  lemma MatVecScale(k: real, p: Mat3, w: Vec3)
    ensures MatVec(MScale(k, p), w) == Geometry.Scale(k, MatVec(p, w))
  {
    DotScaleLeft(k, p.r0, w);
    DotScaleLeft(k, p.r1, w);
    DotScaleLeft(k, p.r2, w);
  }

  /** An orthonormal pair and its cross product are an orthonormal triple. */
  lemma FrameDots(m: Vec3, n: Vec3)
    requires Orthonormal(m, n)
    ensures var omega := Geometry.Cross(m, n);
      && Dot(n, m) == 0.0
      && Dot(omega, omega) == 1.0
      && Dot(m, omega) == 0.0 && Dot(omega, m) == 0.0
      && Dot(n, omega) == 0.0 && Dot(omega, n) == 0.0
  {
    var omega := Geometry.Cross(m, n);
    DotSymmetric(m, n);
    CrossOrthogonal(m, n);
    DotSymmetric(m, omega);
    DotSymmetric(n, omega);
    LagrangeIdentity(m, n);
  }

  /** (a b^T + b a^T) w = (b . w) a + (a . w) b. */
  lemma MatVecSymmetrized(a: Vec3, b: Vec3, w: Vec3)
    ensures MatVec(MAdd(Outer(a, b), Outer(b, a)), w) == Add(Geometry.Scale(Dot(b, w), a), Geometry.Scale(Dot(a, w), b))
  {
    MatVecAdd(Outer(a, b), Outer(b, a), w);
    MatVecOuter(a, b, w);
    MatVecOuter(b, a, w);
  }

  lemma PlusAction(m: Vec3, n: Vec3, root2: real)
    requires Orthonormal(m, n)
    ensures ActsAs(PolarizationTensor(Plus, m, n, root2), m, n, ModeAction(Plus, m, n, root2))
  {
    var omega := Geometry.Cross(m, n);
    FrameDots(m, n);
    forall w | w == m || w == n || w == omega
      ensures MatVec(MSub(Outer(m, m), Outer(n, n)), w) == Sub(Geometry.Scale(Dot(m, w), m), Geometry.Scale(Dot(n, w), n))
    {
      MatVecSub(Outer(m, m), Outer(n, n), w);
      MatVecOuter(m, m, w);
      MatVecOuter(n, n, w);
    }
  }

  lemma BreathingAction(m: Vec3, n: Vec3, root2: real)
    requires Orthonormal(m, n)
    ensures ActsAs(PolarizationTensor(Breathing, m, n, root2), m, n, ModeAction(Breathing, m, n, root2))
  {
    var omega := Geometry.Cross(m, n);
    FrameDots(m, n);
    forall w | w == m || w == n || w == omega
      ensures MatVec(MAdd(Outer(m, m), Outer(n, n)), w) == Add(Geometry.Scale(Dot(m, w), m), Geometry.Scale(Dot(n, w), n))
    {
      MatVecAdd(Outer(m, m), Outer(n, n), w);
      MatVecOuter(m, m, w);
      MatVecOuter(n, n, w);
    }
  }

  lemma LongitudinalAction(m: Vec3, n: Vec3, root2: real)
    requires Orthonormal(m, n)
    ensures ActsAs(PolarizationTensor(Longitudinal, m, n, root2), m, n, ModeAction(Longitudinal, m, n, root2))
  {
    var omega := Geometry.Cross(m, n);
    FrameDots(m, n);
    forall w | w == m || w == n || w == omega
      ensures MatVec(MScale(root2, Outer(omega, omega)), w) == Geometry.Scale(root2, Geometry.Scale(Dot(omega, w), omega))
    {
      MatVecScale(root2, Outer(omega, omega), w);
      MatVecOuter(omega, omega, w);
    }
  }

  /** k0 p + k1 q when each coefficient is zero or one. */
  lemma UnitCombination(k0: real, p: Vec3, k1: real, q: Vec3)
    ensures k0 == 0.0 && k1 == 1.0 ==> Add(Geometry.Scale(k0, p), Geometry.Scale(k1, q)) == q
    ensures k0 == 1.0 && k1 == 0.0 ==> Add(Geometry.Scale(k0, p), Geometry.Scale(k1, q)) == p
    ensures k0 == 0.0 && k1 == 0.0 ==> Add(Geometry.Scale(k0, p), Geometry.Scale(k1, q)) == Vec3(0.0, 0.0, 0.0)
  {
    if k0 == 0.0 {
      assert Geometry.Scale(k0, p) == Vec3(0.0, 0.0, 0.0);
    }
    if k0 == 1.0 {
      assert Geometry.Scale(k0, p) == p;
    }
    if k1 == 0.0 {
      assert Geometry.Scale(k1, q) == Vec3(0.0, 0.0, 0.0);
    }
    if k1 == 1.0 {
      assert Geometry.Scale(k1, q) == q;
    }
  }

  /**
    For orthonormal a, b and a vector c orthogonal to both, a b^T + b a^T
    swaps a and b and sends c to zero.
   */
  lemma SymmetrizedOnTriple(a: Vec3, b: Vec3, c: Vec3)
    requires Dot(a, a) == 1.0 && Dot(b, b) == 1.0 && Dot(a, b) == 0.0 && Dot(b, a) == 0.0
    requires Dot(a, c) == 0.0 && Dot(b, c) == 0.0
    ensures var p := MAdd(Outer(a, b), Outer(b, a));
      MatVec(p, a) == b && MatVec(p, b) == a && MatVec(p, c) == Vec3(0.0, 0.0, 0.0)
  {
    var p := MAdd(Outer(a, b), Outer(b, a));
    assert MatVec(p, a) == b by {
      MatVecSymmetrized(a, b, a);
      UnitCombination(Dot(b, a), a, Dot(a, a), b);
    }
    assert MatVec(p, b) == a by {
      MatVecSymmetrized(a, b, b);
      UnitCombination(Dot(b, b), a, Dot(a, b), b);
    }
    assert MatVec(p, c) == Vec3(0.0, 0.0, 0.0) by {
      MatVecSymmetrized(a, b, c);
      UnitCombination(Dot(b, c), a, Dot(a, c), b);
    }
  }

  lemma CrossAction(m: Vec3, n: Vec3, root2: real)
    requires Orthonormal(m, n)
    ensures ActsAs(PolarizationTensor(CrossMode, m, n, root2), m, n, ModeAction(CrossMode, m, n, root2))
  {
    var omega := Geometry.Cross(m, n);
    FrameDots(m, n);
    SymmetrizedOnTriple(m, n, omega);
  }

  lemma XAction(m: Vec3, n: Vec3, root2: real)
    requires Orthonormal(m, n)
    ensures ActsAs(PolarizationTensor(X, m, n, root2), m, n, ModeAction(X, m, n, root2))
  {
    var omega := Geometry.Cross(m, n);
    FrameDots(m, n);
    SymmetrizedOnTriple(m, omega, n);
  }

  lemma YAction(m: Vec3, n: Vec3, root2: real)
    requires Orthonormal(m, n)
    ensures ActsAs(PolarizationTensor(Y, m, n, root2), m, n, ModeAction(Y, m, n, root2))
  {
    var omega := Geometry.Cross(m, n);
    FrameDots(m, n);
    SymmetrizedOnTriple(n, omega, m);
  }

  /**
    In an orthonormal wave frame every mode's tensor maps m, n and
    omega = m x n as ModeAction says.
   */
  lemma PolarizationTensorAction(mode: Mode, m: Vec3, n: Vec3, root2: real)
    requires Orthonormal(m, n)
    ensures ActsAs(PolarizationTensor(mode, m, n, root2), m, n, ModeAction(mode, m, n, root2))
  {
    match mode
    case Plus => PlusAction(m, n, root2);
    case CrossMode => CrossAction(m, n, root2);
    case Breathing => BreathingAction(m, n, root2);
    case Longitudinal => LongitudinalAction(m, n, root2);
    case X => XAction(m, n, root2);
    case Y => YAction(m, n, root2);
  }

  // ----- Frames -----

  /** With sin^2 + cos^2 = 1 at theta and phi, the Earth-frame vectors are orthonormal. */
  lemma EarthFrameOrthonormal(theta: real, phi: real, tr: Transcendentals)
    requires PythagoreanAt(tr, theta) && PythagoreanAt(tr, phi)
    ensures var (u, v) := EarthFrame(theta, phi, tr); Orthonormal(u, v)
  {
    var (u, v) := EarthFrame(theta, phi, tr);
    var st, ct, sp, cp := tr.sin(theta), tr.cos(theta), tr.sin(phi), tr.cos(phi);
    calc {
      Dot(u, u);
      (cp * ct) * (cp * ct) + (ct * sp) * (ct * sp) + st * st;
      ct * ct * (cp * cp + sp * sp) + st * st;
      { assert cp * cp + sp * sp == 1.0; }
      ct * ct + st * st;
    }
  }

  /** u x v is the source direction that enters the time delay. */
  lemma EarthFrameCross(theta: real, phi: real, tr: Transcendentals)
    requires PythagoreanAt(tr, phi)
    ensures var (u, v) := EarthFrame(theta, phi, tr); Geometry.Cross(u, v) == RadialDirection(theta, phi, tr)
  {
    var (u, v) := EarthFrame(theta, phi, tr);
    var st, ct, sp, cp := tr.sin(theta), tr.cos(theta), tr.sin(phi), tr.cos(phi);
    calc {
      Geometry.Cross(u, v).z;
      (cp * ct) * cp - (ct * sp) * (-sp);
      ct * (cp * cp + sp * sp);
      { assert cp * cp + sp * sp == 1.0; }
      ct;
    }
  }

  /** Rotating an orthonormal pair by psi keeps it orthonormal. */
  lemma WaveFrameOrthonormal(u: Vec3, v: Vec3, psi: real, tr: Transcendentals)
    requires Orthonormal(u, v) && PythagoreanAt(tr, psi)
    ensures var (m, n) := WaveFrame(u, v, psi, tr); Orthonormal(m, n)
  {
    var s, c := tr.sin(psi), tr.cos(psi);
    DotCombinations(-s, -c, -s, -c, u, v);
    DotCombinations(-c, s, -c, s, u, v);
    DotCombinations(-s, -c, -c, s, u, v);
  }

  /** The wave-frame omega = m x n of a rotated pair is -(u x v): it points along the propagation, towards the Earth. */
  lemma WaveFrameCross(u: Vec3, v: Vec3, psi: real, tr: Transcendentals)
    requires PythagoreanAt(tr, psi)
    ensures var (m, n) := WaveFrame(u, v, psi, tr); Geometry.Cross(m, n) == Neg(Geometry.Cross(u, v))
  {
    var s, c := tr.sin(psi), tr.cos(psi);
    var w := Geometry.Cross(u, v);
    CrossCombinations(-s, -c, -c, s, u, v);
    assert (-s) * s - (-c) * (-c) == -1.0;
    assert Geometry.Scale(-1.0, w) == Neg(w);
  }

  /**
    With exact trigonometry at theta, phi and psi, the wave frame of a source
    is orthonormal and its longitudinal tensor is root2 * d d^T for the
    source direction d of the time delay, with trace root2.
   */
  lemma SourceWaveFrameProperties(ra: real, dec: real, time: real, psi: real, tr: Transcendentals)
    requires var (theta, phi) := SkyAngles(ra, dec, time, tr);
      PythagoreanAt(tr, theta) && PythagoreanAt(tr, phi) && PythagoreanAt(tr, psi)
    ensures var (m, n) := SourceWaveFrame(ra, dec, time, psi, tr);
      Orthonormal(m, n)
    ensures var (theta, phi) := SkyAngles(ra, dec, time, tr);
      var d := RadialDirection(theta, phi, tr);
      GetPolarizationTensor(ra, dec, time, psi, "longitudinal", tr) == Some(MScale(tr.sqrt(2.0), Outer(d, d)))
  {
    var (theta, phi) := SkyAngles(ra, dec, time, tr);
    var (u, v) := EarthFrame(theta, phi, tr);
    var (m, n) := WaveFrame(u, v, psi, tr);
    EarthFrameOrthonormal(theta, phi, tr);
    WaveFrameOrthonormal(u, v, psi, tr);
    EarthFrameCross(theta, phi, tr);
    WaveFrameCross(u, v, psi, tr);
    ParseModeCaseInsensitive("longitudinal", Longitudinal);
    var d := RadialDirection(theta, phi, tr);
    assert Geometry.Cross(m, n) == Neg(d);
    OuterNegNeg(d);
  }

  /** (-d)(-d)^T = d d^T. */
  lemma OuterNegNeg(d: Vec3)
    ensures Outer(Neg(d), Neg(d)) == Outer(d, d)
  {
    var l, r := Outer(Neg(d), Neg(d)), Outer(d, d);
    assert l.r0 == r.r0 by {
      assert (-d.x) * (-d.x) == d.x * d.x && (-d.x) * (-d.y) == d.x * d.y && (-d.x) * (-d.z) == d.x * d.z;
    }
    assert l.r1 == r.r1 by {
      assert (-d.y) * (-d.x) == d.y * d.x && (-d.y) * (-d.y) == d.y * d.y && (-d.y) * (-d.z) == d.y * d.z;
    }
    assert l.r2 == r.r2 by {
      assert (-d.z) * (-d.x) == d.z * d.x && (-d.z) * (-d.y) == d.z * d.y && (-d.z) * (-d.z) == d.z * d.z;
    }
  }

  /**
    End to end: with exact trigonometry at theta, phi and psi, a name whose
    lower-case form is a mode's name yields a tensor that maps the source's
    wave frame m, n, omega as ModeAction says for that mode, and omega points
    against the time delay's source direction.
   */
  lemma GetPolarizationTensorActsOnWaveFrame(ra: real, dec: real, time: real, psi: real, mode: string, md: Mode, tr: Transcendentals)
    requires var (theta, phi) := SkyAngles(ra, dec, time, tr);
      PythagoreanAt(tr, theta) && PythagoreanAt(tr, phi) && PythagoreanAt(tr, psi)
    requires Lower(mode) == ModeName(md)
    ensures var (m, n) := SourceWaveFrame(ra, dec, time, psi, tr);
      var r := GetPolarizationTensor(ra, dec, time, psi, mode, tr);
      && r.Some?
      && ActsAs(r.value, m, n, ModeAction(md, m, n, tr.sqrt(2.0)))
    ensures var (theta, phi) := SkyAngles(ra, dec, time, tr);
      var (m, n) := SourceWaveFrame(ra, dec, time, psi, tr);
      Geometry.Cross(m, n) == Neg(RadialDirection(theta, phi, tr))
  {
    var (theta, phi) := SkyAngles(ra, dec, time, tr);
    var (u, v) := EarthFrame(theta, phi, tr);
    EarthFrameOrthonormal(theta, phi, tr);
    WaveFrameOrthonormal(u, v, psi, tr);
    EarthFrameCross(theta, phi, tr);
    WaveFrameCross(u, v, psi, tr);
    ParseModeCaseInsensitive(mode, md);
    var (m, n) := WaveFrame(u, v, psi, tr);
    PolarizationTensorAction(md, m, n, tr.sqrt(2.0));
  }
}
