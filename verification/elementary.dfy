/**
  The elementary functions the model treats as given: the conversions
  tupak.core.utils provides (GPS time to Greenwich mean sidereal time, right
  ascension and declination to polar angles) and sin, cos and the square root.
  Properties that need them to behave like their namesakes say so at the
  points they use, with PythagoreanAt here and SpectralDensity.IsSqrtAt.
 */
module Elementary {

  /** The given functions, passed to every operation that calls one of them. */
  datatype Transcendentals = Transcendentals(
    gpsTimeToGmst: real -> real,
    raDecToThetaPhi: (real, real, real) -> (real, real),
    sin: real -> real,
    cos: real -> real,
    sqrt: real -> real)

  /** sin^2 x + cos^2 x = 1 at the point x. */
  ghost predicate PythagoreanAt(tr: Transcendentals, x: real) {
    tr.sin(x) * tr.sin(x) + tr.cos(x) * tr.cos(x) == 1.0
  }
}
