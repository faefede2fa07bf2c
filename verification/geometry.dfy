/**
  Three-vectors, the sky direction of a source and the geocentric time delay
  between two detectors (time_delay_geocentric in tupak/gw/utils.py).

  The sky conversions and the trigonometric functions come from
  Elementary.Transcendentals.
 */
module Geometry {

  import opened Elementary

  /** A cartesian vector, as the three-element numpy arrays of the source. */
  datatype Vec3 = Vec3(x: real, y: real, z: real)

  /** The speed of light in vacuum in m/s, the SI value. */
  const SpeedOfLight: real := 299792458.0

  function Add(a: Vec3, b: Vec3): Vec3 {
    Vec3(a.x + b.x, a.y + b.y, a.z + b.z)
  }

  function Sub(a: Vec3, b: Vec3): Vec3 {
    Vec3(a.x - b.x, a.y - b.y, a.z - b.z)
  }

  function Neg(a: Vec3): Vec3 {
    Vec3(-a.x, -a.y, -a.z)
  }

  function Scale(k: real, a: Vec3): Vec3 {
    Vec3(k * a.x, k * a.y, k * a.z)
  }

  /** np.dot on two three-vectors. */
  function Dot(a: Vec3, b: Vec3): real {
    a.x * b.x + a.y * b.y + a.z * b.z
  }

  /** np.cross on two three-vectors. */
  function Cross(a: Vec3, b: Vec3): Vec3 {
    Vec3(a.y * b.z - a.z * b.y, a.z * b.x - a.x * b.z, a.x * b.y - a.y * b.x)
  }

  /** The polar angles (theta, phi) of a source at (ra, dec) seen at a GPS time. */
  function SkyAngles(ra: real, dec: real, time: real, tr: Transcendentals): (real, real) {
    tr.raDecToThetaPhi(ra, dec, tr.gpsTimeToGmst(time))
  }

  /** The unit vector at polar angles theta and phi. */
  function RadialDirection(theta: real, phi: real, tr: Transcendentals): Vec3 {
    Vec3(tr.sin(theta) * tr.cos(phi), tr.sin(theta) * tr.sin(phi), tr.cos(theta))
  }

  /**
    The time by which a wave from (ra, dec) reaches detector1 later than
    detector2: the projection of detector2 - detector1 on the source
    direction, over the speed of light.
   */
  function TimeDelayGeocentric(detector1: Vec3, detector2: Vec3, ra: real, dec: real, time: real, tr: Transcendentals): (r: real)
    ensures detector1 == detector2 ==> r == 0.0
  {
    var (theta, phi) := SkyAngles(ra, dec, time, tr);
    var omega := RadialDirection(theta, phi, tr);
    Dot(omega, Sub(detector2, detector1)) / SpeedOfLight
  }

  lemma DotSubRight(w: Vec3, a: Vec3, b: Vec3)
    ensures Dot(w, Sub(a, b)) == Dot(w, a) - Dot(w, b)
  {
  }

  lemma DotSymmetric(a: Vec3, b: Vec3)
    ensures Dot(a, b) == Dot(b, a)
  {
  }

  /** The linear combination a u + b v. */
  function Combination(a: real, u: Vec3, b: real, v: Vec3): Vec3 {
    Add(Scale(a, u), Scale(b, v))
  }

  lemma DotAddLeft(p: Vec3, q: Vec3, w: Vec3)
    ensures Dot(Add(p, q), w) == Dot(p, w) + Dot(q, w)
  {
  }

  lemma DotScaleLeft(k: real, p: Vec3, w: Vec3)
    ensures Dot(Scale(k, p), w) == k * Dot(p, w)
  {
  }

  lemma DotScaleRight(k: real, p: Vec3, w: Vec3)
    ensures Dot(p, Scale(k, w)) == k * Dot(p, w)
  {
  }

  /** Dot(a u + b v, w) = a (u . w) + b (v . w). */
  lemma DotCombinationLeft(a: real, u: Vec3, b: real, v: Vec3, w: Vec3)
    ensures Dot(Combination(a, u, b, v), w) == a * Dot(u, w) + b * Dot(v, w)
  {
    DotAddLeft(Scale(a, u), Scale(b, v), w);
    DotScaleLeft(a, u, w);
    DotScaleLeft(b, v, w);
  }

  /** In an orthonormal pair (u, v), (a u + b v) . (c u + d v) = a c + b d. */
  lemma DotCombinations(a: real, b: real, c: real, d: real, u: Vec3, v: Vec3)
    requires Dot(u, u) == 1.0 && Dot(v, v) == 1.0 && Dot(u, v) == 0.0
    ensures Dot(Combination(a, u, b, v), Combination(c, u, d, v)) == a * c + b * d
  {
    var w := Combination(c, u, d, v);
    DotCombinationLeft(a, u, b, v, w);
    DotSymmetric(u, w);
    DotSymmetric(v, w);
    DotCombinationLeft(c, u, d, v, u);
    DotCombinationLeft(c, u, d, v, v);
    DotSymmetric(u, v);
  }

  lemma CrossAddLeft(p: Vec3, q: Vec3, w: Vec3)
    ensures Cross(Add(p, q), w) == Add(Cross(p, w), Cross(q, w))
  {
  }

  lemma CrossScaleLeft(k: real, p: Vec3, w: Vec3)
    ensures Cross(Scale(k, p), w) == Scale(k, Cross(p, w))
  {
    var l, r := Cross(Scale(k, p), w), Scale(k, Cross(p, w));
    assert l.x == r.x by {
      assert (k * p.y) * w.z - (k * p.z) * w.y == k * (p.y * w.z - p.z * w.y);
    }
    assert l.y == r.y by {
      assert (k * p.z) * w.x - (k * p.x) * w.z == k * (p.z * w.x - p.x * w.z);
    }
    assert l.z == r.z by {
      assert (k * p.x) * w.y - (k * p.y) * w.x == k * (p.x * w.y - p.y * w.x);
    }
  }

  lemma CrossAntisymmetric(p: Vec3, w: Vec3)
    ensures Cross(w, p) == Neg(Cross(p, w)) && Cross(p, p) == Vec3(0.0, 0.0, 0.0)
  {
  }

  /** Cross(a u + b v, w) = a (u x w) + b (v x w). */
  lemma CrossCombinationLeft(a: real, u: Vec3, b: real, v: Vec3, w: Vec3)
    ensures Cross(Combination(a, u, b, v), w) == Combination(a, Cross(u, w), b, Cross(v, w))
  {
    CrossAddLeft(Scale(a, u), Scale(b, v), w);
    CrossScaleLeft(a, u, w);
    CrossScaleLeft(b, v, w);
  }

  /** (a u + b v) x (c u + d v) = (a d - b c) (u x v). */
  lemma CrossCombinations(a: real, b: real, c: real, d: real, u: Vec3, v: Vec3)
    ensures Cross(Combination(a, u, b, v), Combination(c, u, d, v)) == Scale(a * d - b * c, Cross(u, v))
  {
    var w := Combination(c, u, d, v);
    var uv := Cross(u, v);
    CrossCombinationLeft(a, u, b, v, w);
    CrossAntisymmetric(u, v);
    CrossAntisymmetric(v, u);
    assert Cross(u, w) == Scale(d, uv) by {
      CrossAntisymmetric(w, u);
      CrossCombinationLeft(c, u, d, v, u);
      CrossAntisymmetric(u, u);
    }
    assert Cross(v, w) == Scale(-c, uv) by {
      CrossAntisymmetric(w, v);
      CrossCombinationLeft(c, u, d, v, v);
    }
    CombinationParallel(a, d, b, -c, uv);
  }

  lemma CombinationParallel(a: real, d: real, b: real, e: real, w: Vec3)
    ensures Combination(a, Scale(d, w), b, Scale(e, w)) == Scale(a * d + b * e, w)
  {
    assert a * (d * w.x) + b * (e * w.x) == (a * d + b * e) * w.x;
    assert a * (d * w.y) + b * (e * w.y) == (a * d + b * e) * w.y;
    assert a * (d * w.z) + b * (e * w.z) == (a * d + b * e) * w.z;
  }

  /** |a|^2 |b|^2 - (a . b)^2 = |a x b|^2 (Lagrange's identity). */
  lemma LagrangeIdentity(a: Vec3, b: Vec3)
    ensures Dot(a, a) * Dot(b, b) - Dot(a, b) * Dot(a, b) == Dot(Cross(a, b), Cross(a, b))
  {
  }

  lemma DotSelfNonNegative(a: Vec3)
    ensures Dot(a, a) >= 0.0
  {
  }

  /** (a . b)^2 <= |a|^2 |b|^2 (Cauchy-Schwarz). */
  lemma CauchySchwarz(a: Vec3, b: Vec3)
    ensures Dot(a, b) * Dot(a, b) <= Dot(a, a) * Dot(b, b)
  {
    LagrangeIdentity(a, b);
    DotSelfNonNegative(Cross(a, b));
  }

  /** With sin^2 + cos^2 = 1 at both angles, the source direction is a unit vector. */
  lemma RadialDirectionIsUnit(theta: real, phi: real, tr: Transcendentals)
    requires PythagoreanAt(tr, theta) && PythagoreanAt(tr, phi)
    ensures Dot(RadialDirection(theta, phi, tr), RadialDirection(theta, phi, tr)) == 1.0
  {
    var st, ct, sp, cp := tr.sin(theta), tr.cos(theta), tr.sin(phi), tr.cos(phi);
    calc {
      Dot(RadialDirection(theta, phi, tr), RadialDirection(theta, phi, tr));
      (st * cp) * (st * cp) + (st * sp) * (st * sp) + ct * ct;
      st * st * (cp * cp + sp * sp) + ct * ct;
      { assert cp * cp + sp * sp == 1.0; }
      st * st + ct * ct;
    }
  }

  /** Swapping the detectors negates the delay. */
  lemma TimeDelayAntisymmetric(detector1: Vec3, detector2: Vec3, ra: real, dec: real, time: real, tr: Transcendentals)
    ensures TimeDelayGeocentric(detector2, detector1, ra, dec, time, tr) == -TimeDelayGeocentric(detector1, detector2, ra, dec, time, tr)
  {
    var (theta, phi) := SkyAngles(ra, dec, time, tr);
    var omega := RadialDirection(theta, phi, tr);
    DotSubRight(omega, detector1, detector2);
    DotSubRight(omega, detector2, detector1);
  }

  /** Delays compose along a chain of detectors: 1 to 2 then 2 to 3 is 1 to 3. */
  lemma TimeDelayAdditive(detector1: Vec3, detector2: Vec3, detector3: Vec3, ra: real, dec: real, time: real, tr: Transcendentals)
    ensures TimeDelayGeocentric(detector1, detector2, ra, dec, time, tr) + TimeDelayGeocentric(detector2, detector3, ra, dec, time, tr)
         == TimeDelayGeocentric(detector1, detector3, ra, dec, time, tr)
  {
    var (theta, phi) := SkyAngles(ra, dec, time, tr);
    var omega := RadialDirection(theta, phi, tr);
    DotSubRight(omega, detector2, detector1);
    DotSubRight(omega, detector3, detector2);
    DotSubRight(omega, detector3, detector1);
  }

  /** The delay to the geocentre (detector2 = origin) is minus the projection of detector1 on the source direction. */
  lemma TimeDelayToGeocentre(detector1: Vec3, ra: real, dec: real, time: real, tr: Transcendentals)
    ensures var (theta, phi) := SkyAngles(ra, dec, time, tr);
      TimeDelayGeocentric(detector1, Vec3(0.0, 0.0, 0.0), ra, dec, time, tr)
        == -Dot(RadialDirection(theta, phi, tr), detector1) / SpeedOfLight
  {
  }

  /**
    No delay exceeds the light travel time between the detectors:
    (c * delay)^2 <= |detector2 - detector1|^2.
   */
  lemma TimeDelayBoundedByBaseline(detector1: Vec3, detector2: Vec3, ra: real, dec: real, time: real, tr: Transcendentals)
    requires var (theta, phi) := SkyAngles(ra, dec, time, tr);
      PythagoreanAt(tr, theta) && PythagoreanAt(tr, phi)
    ensures var dt := TimeDelayGeocentric(detector1, detector2, ra, dec, time, tr);
      (SpeedOfLight * dt) * (SpeedOfLight * dt) <= Dot(Sub(detector2, detector1), Sub(detector2, detector1))
  {
    var (theta, phi) := SkyAngles(ra, dec, time, tr);
    var omega := RadialDirection(theta, phi, tr);
    var delta := Sub(detector2, detector1);
    var p := Dot(omega, delta);
    assert p * p <= Dot(delta, delta) by {
      RadialDirectionIsUnit(theta, phi, tr);
      CauchySchwarz(omega, delta);
    }
    var dt := TimeDelayGeocentric(detector1, detector2, ra, dec, time, tr);
    assert dt == p / SpeedOfLight;
    SpeedTimesQuotient(p);
  }

  lemma SpeedTimesQuotient(p: real)
    ensures SpeedOfLight * (p / SpeedOfLight) == p
  {
  }
}
