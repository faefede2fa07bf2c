/**
  The noise-weighted inner product of two one-sided frequency series and the
  signal-to-noise statistics built on it (inner_product,
  noise_weighted_inner_product, matched_filter_snr_squared and
  optimal_snr_squared in tupak/gw/utils.py).

  Arrays are sequences aligned bin by bin; the power spectral density is a
  sequence of reals sampled on the same frequency bins.
 */
module InnerProducts {

  import opened ComplexNumbers

  /** Every bin of a noise curve is non-zero, so dividing by it is defined. */
  predicate NonZero(psd: seq<real>) {
    forall k :: 0 <= k < |psd| ==> psd[k] != 0.0
  }

  /** Every bin of a noise curve is positive, as a power spectral density is. */
  predicate Positive(psd: seq<real>) {
    forall k :: 0 <= k < |psd| ==> psd[k] > 0.0
  }

  /** One bin of the integrand: conj(x) * y / p. */
  function Term(x: Complex, y: Complex, p: real): Complex
    requires p != 0.0
  {
    DivReal(Mul(Conj(x), y), p)
  }

  /** `np.conj(aa) * bb / psd`, element by element. */
  function Integrand(aa: seq<Complex>, bb: seq<Complex>, psd: seq<real>): (r: seq<Complex>)
    requires |aa| == |bb| == |psd| && NonZero(psd)
    ensures |r| == |aa|
  {
    seq(|aa|, k requires 0 <= k < |aa| => Term(aa[k], bb[k], psd[k]))
  }

  /** (4 / T) * sum_k conj(aa_k) * bb_k / psd_k. */
  function NoiseWeightedInnerProduct(aa: seq<Complex>, bb: seq<Complex>, psd: seq<real>, timeDuration: real): Complex
    requires |aa| == |bb| == |psd| && NonZero(psd) && timeDuration != 0.0
  {
    Scale(4.0 / timeDuration, Sum(Integrand(aa, bb, psd)))
  }

  /**
    An interferometer as the SNR helpers read it: its frequency-domain data and
    its power spectral density array, on the same bins.
   */
  datatype Interferometer = Interferometer(data: seq<Complex>, powerSpectralDensityArray: seq<real>)

  /** <signal, data>: the signal against the interferometer's data. */
  function MatchedFilterSnrSquared(signal: seq<Complex>, ifo: Interferometer, timeDuration: real): Complex
    requires |signal| == |ifo.data| == |ifo.powerSpectralDensityArray|
    requires NonZero(ifo.powerSpectralDensityArray) && timeDuration != 0.0
  {
    NoiseWeightedInnerProduct(signal, ifo.data, ifo.powerSpectralDensityArray, timeDuration)
  }

  /** <signal, signal>: the signal against itself, weighted by the interferometer's noise. */
  function OptimalSnrSquared(signal: seq<Complex>, ifo: Interferometer, timeDuration: real): Complex
    requires |signal| == |ifo.powerSpectralDensityArray|
    requires NonZero(ifo.powerSpectralDensityArray) && timeDuration != 0.0
  {
    NoiseWeightedInnerProduct(signal, signal, ifo.powerSpectralDensityArray, timeDuration)
  }

  /**
    4 * Re(df * sum_k conj(aa_k) * bb_k / psd_k) with df = frequency[1] - frequency[0].
    `psdInterpolated` is what the PSD object's interpolation returns on `frequency`.
   */
  function InnerProduct(aa: seq<Complex>, bb: seq<Complex>, frequency: seq<real>, psdInterpolated: seq<real>): real
    requires |aa| == |bb| == |frequency| == |psdInterpolated| && |frequency| >= 2
    requires NonZero(psdInterpolated)
  {
    var integrand := Integrand(aa, bb, psdInterpolated);
    var df := frequency[1] - frequency[0];
    var integral := Scale(df, Sum(integrand));
    4.0 * integral.re
  }

  /** Pointwise sum of two series. */
  function AddSeries(bb: seq<Complex>, cc: seq<Complex>): (r: seq<Complex>)
    requires |bb| == |cc|
    ensures |r| == |bb|
  {
    seq(|bb|, k requires 0 <= k < |bb| => Add(bb[k], cc[k]))
  }

  /** A series multiplied by a complex constant. */
  function ScaleSeries(z: Complex, bb: seq<Complex>): (r: seq<Complex>)
    ensures |r| == |bb|
  {
    seq(|bb|, k requires 0 <= k < |bb| => Mul(z, bb[k]))
  }

  // Per-bin facts.

  lemma TermConj(x: Complex, y: Complex, p: real)
    requires p != 0.0
    ensures Term(y, x, p) == Conj(Term(x, y, p))
  {
    var q := 1.0 / p;
    DivRealIsScale(Mul(Conj(y), x), p);
    DivRealIsScale(Mul(Conj(x), y), p);
    ScaleConj(q, Mul(Conj(x), y));
    ConjOfMul(Conj(x), y);
    MulCommutes(Conj(y), x);
    assert Conj(Conj(x)) == x;
  }

  /** conj(x) * x / p is the real number |x|^2 / p. */
  lemma TermSelfIsReal(x: Complex, p: real)
    requires p != 0.0
    ensures Term(x, x, p) == Complex(Norm2(x) / p, 0.0)
  {
    MulConjSelf(x);
  }

  lemma TermSelf(x: Complex, p: real)
    requires p > 0.0
    ensures Term(x, x, p).im == 0.0 && Term(x, x, p).re >= 0.0
    ensures x != Zero ==> Term(x, x, p).re > 0.0
  {
    TermSelfIsReal(x, p);
    Norm2Sign(x);
    QuotientNonNegative(Norm2(x), p);
    if x != Zero {
      QuotientPositive(Norm2(x), p);
    }
  }

  lemma TermOfZero(y: Complex, p: real)
    requires p != 0.0
    ensures Term(Zero, y, p) == Zero
  {
    ZeroAbsorbs(y, p);
  }

  lemma TermAdd(x: Complex, y: Complex, w: Complex, p: real)
    requires p != 0.0
    ensures Term(x, Add(y, w), p) == Add(Term(x, y, p), Term(x, w, p))
  {
    var q := 1.0 / p;
    DivRealIsScale(Mul(Conj(x), Add(y, w)), p);
    DivRealIsScale(Mul(Conj(x), y), p);
    DivRealIsScale(Mul(Conj(x), w), p);
    MulDistributesOverAdd(Conj(x), y, w);
    ScaleAdd(q, Mul(Conj(x), y), Mul(Conj(x), w));
  }

  lemma TermMul(x: Complex, z: Complex, y: Complex, p: real)
    requires p != 0.0
    ensures Term(x, Mul(z, y), p) == Mul(z, Term(x, y, p))
  {
    var q := 1.0 / p;
    DivRealIsScale(Mul(Conj(x), Mul(z, y)), p);
    DivRealIsScale(Mul(Conj(x), y), p);
    MulLeftCommutes(Conj(x), z, y);
    ScaleMul(q, z, Mul(Conj(x), y));
  }

  // Facts about the summed integrand.

  lemma SumIntegrandConj(aa: seq<Complex>, bb: seq<Complex>, psd: seq<real>)
    requires |aa| == |bb| == |psd| && NonZero(psd)
    ensures Sum(Integrand(bb, aa, psd)) == Conj(Sum(Integrand(aa, bb, psd)))
  {
    var ab, ba := Integrand(aa, bb, psd), Integrand(bb, aa, psd);
    forall k | 0 <= k < |ab| ensures ba[k] == Conj(ab[k]) {
      TermConj(aa[k], bb[k], psd[k]);
    }
    SumConj(ab, ba);
  }

  lemma SumIntegrandAdd(aa: seq<Complex>, bb: seq<Complex>, cc: seq<Complex>, psd: seq<real>)
    requires |aa| == |bb| == |cc| == |psd| && NonZero(psd)
    ensures Sum(Integrand(aa, AddSeries(bb, cc), psd)) == Add(Sum(Integrand(aa, bb, psd)), Sum(Integrand(aa, cc, psd)))
  {
    var ab, ac, abc := Integrand(aa, bb, psd), Integrand(aa, cc, psd), Integrand(aa, AddSeries(bb, cc), psd);
    forall k | 0 <= k < |ab| ensures abc[k] == Add(ab[k], ac[k]) {
      TermAdd(aa[k], bb[k], cc[k], psd[k]);
    }
    SumAdd(ab, ac, abc);
  }

  lemma SumIntegrandMul(aa: seq<Complex>, z: Complex, bb: seq<Complex>, psd: seq<real>)
    requires |aa| == |bb| == |psd| && NonZero(psd)
    ensures Sum(Integrand(aa, ScaleSeries(z, bb), psd)) == Mul(z, Sum(Integrand(aa, bb, psd)))
  {
    var ab, azb := Integrand(aa, bb, psd), Integrand(aa, ScaleSeries(z, bb), psd);
    forall k | 0 <= k < |ab| ensures azb[k] == Mul(z, ab[k]) {
      TermMul(aa[k], z, bb[k], psd[k]);
    }
    SumMul(z, ab, azb);
  }

  /** Every bin of the integrand of a series against itself is a non-negative real. */
  lemma IntegrandSelfBins(aa: seq<Complex>, psd: seq<real>)
    requires |aa| == |psd| && Positive(psd)
    ensures forall k :: 0 <= k < |aa| ==> Integrand(aa, aa, psd)[k].im == 0.0 && Integrand(aa, aa, psd)[k].re >= 0.0
    ensures forall k :: 0 <= k < |aa| && aa[k] != Zero ==> Integrand(aa, aa, psd)[k].re > 0.0
    ensures forall k :: 0 <= k < |aa| && aa[k] == Zero ==> Integrand(aa, aa, psd)[k] == Zero
  {
    forall k | 0 <= k < |aa|
      ensures Integrand(aa, aa, psd)[k].im == 0.0 && Integrand(aa, aa, psd)[k].re >= 0.0
      ensures aa[k] != Zero ==> Integrand(aa, aa, psd)[k].re > 0.0
      ensures aa[k] == Zero ==> Integrand(aa, aa, psd)[k] == Zero
    {
      TermSelf(aa[k], psd[k]);
      if aa[k] == Zero {
        TermOfZero(aa[k], psd[k]);
      }
    }
  }

  /** The summed integrand of a series against itself is a non-negative real. */
  lemma SumIntegrandSelf(aa: seq<Complex>, psd: seq<real>)
    requires |aa| == |psd| && Positive(psd)
    ensures Sum(Integrand(aa, aa, psd)).im == 0.0 && Sum(Integrand(aa, aa, psd)).re >= 0.0
  {
    IntegrandSelfBins(aa, psd);
    SumNonNegativeReals(Integrand(aa, aa, psd));
  }

  /** ... and it is zero for the zero series, */
  lemma SumIntegrandSelfZero(aa: seq<Complex>, psd: seq<real>)
    requires |aa| == |psd| && Positive(psd)
    requires forall k :: 0 <= k < |aa| ==> aa[k] == Zero
    ensures Sum(Integrand(aa, aa, psd)) == Zero
  {
    IntegrandSelfBins(aa, psd);
    SumZeros(Integrand(aa, aa, psd));
  }

  /** ... and positive as soon as one bin of the series is not zero. */
  lemma SumIntegrandSelfPositive(aa: seq<Complex>, psd: seq<real>, j: nat)
    requires |aa| == |psd| && Positive(psd)
    requires j < |aa| && aa[j] != Zero
    ensures Sum(Integrand(aa, aa, psd)).re > 0.0
  {
    IntegrandSelfBins(aa, psd);
    SumPositiveReals(Integrand(aa, aa, psd), j);
  }

  // Properties of the noise-weighted inner product.

  /** Swapping the two series conjugates the inner product. */
  lemma NoiseWeightedInnerProductConjugateSymmetric(aa: seq<Complex>, bb: seq<Complex>, psd: seq<real>, timeDuration: real)
    requires |aa| == |bb| == |psd| && NonZero(psd) && timeDuration != 0.0
    ensures NoiseWeightedInnerProduct(bb, aa, psd, timeDuration) == Conj(NoiseWeightedInnerProduct(aa, bb, psd, timeDuration))
  {
    SumIntegrandConj(aa, bb, psd);
    ScaleConj(4.0 / timeDuration, Sum(Integrand(aa, bb, psd)));
  }

  /**
    A series against itself, with a positive noise curve and duration, gives a
    non-negative real; it is zero when the series is zero and positive as soon
    as one bin is not.
   */
  lemma NoiseWeightedInnerProductSelfNonNegative(aa: seq<Complex>, psd: seq<real>, timeDuration: real)
    requires |aa| == |psd| && Positive(psd) && timeDuration > 0.0
    ensures NoiseWeightedInnerProduct(aa, aa, psd, timeDuration).im == 0.0
    ensures NoiseWeightedInnerProduct(aa, aa, psd, timeDuration).re >= 0.0
    ensures (forall k :: 0 <= k < |aa| ==> aa[k] == Zero) ==> NoiseWeightedInnerProduct(aa, aa, psd, timeDuration) == Zero
    ensures forall k :: 0 <= k < |aa| && aa[k] != Zero ==> NoiseWeightedInnerProduct(aa, aa, psd, timeDuration).re > 0.0
  {
    var s, c := Sum(Integrand(aa, aa, psd)), 4.0 / timeDuration;
    SumIntegrandSelf(aa, psd);
    QuotientPositive(4.0, timeDuration);
    assert NoiseWeightedInnerProduct(aa, aa, psd, timeDuration) == Scale(c, s);
    ScaleNonNegativeReal(c, s);
    if forall k :: 0 <= k < |aa| ==> aa[k] == Zero {
      SumIntegrandSelfZero(aa, psd);
    }
    forall j | 0 <= j < |aa| && aa[j] != Zero
      ensures NoiseWeightedInnerProduct(aa, aa, psd, timeDuration).re > 0.0
    {
      SumIntegrandSelfPositive(aa, psd, j);
    }
  }

  /** A positive factor keeps a non-negative real number real, non-negative, zero or positive. */
  lemma ScaleNonNegativeReal(c: real, s: Complex)
    requires c > 0.0 && s.im == 0.0 && s.re >= 0.0
    ensures Scale(c, s).im == 0.0 && Scale(c, s).re >= 0.0
    ensures s == Zero ==> Scale(c, s) == Zero
    ensures s.re > 0.0 ==> Scale(c, s).re > 0.0
  {
    assert Scale(c, s).re == Product(c, s.re);
    ProductNonNegative(c, s.re);
    if s.re > 0.0 {
      ProductPositive(c, s.re);
    }
  }

  /** The inner product is additive in its second series. */
  lemma NoiseWeightedInnerProductAdditive(aa: seq<Complex>, bb: seq<Complex>, cc: seq<Complex>, psd: seq<real>, timeDuration: real)
    requires |aa| == |bb| == |cc| == |psd| && NonZero(psd) && timeDuration != 0.0
    ensures NoiseWeightedInnerProduct(aa, AddSeries(bb, cc), psd, timeDuration)
         == Add(NoiseWeightedInnerProduct(aa, bb, psd, timeDuration), NoiseWeightedInnerProduct(aa, cc, psd, timeDuration))
  {
    SumIntegrandAdd(aa, bb, cc, psd);
    ScaleAdd(4.0 / timeDuration, Sum(Integrand(aa, bb, psd)), Sum(Integrand(aa, cc, psd)));
  }

  /** A complex factor on the second series comes out of the inner product. */
  lemma NoiseWeightedInnerProductHomogeneous(aa: seq<Complex>, z: Complex, bb: seq<Complex>, psd: seq<real>, timeDuration: real)
    requires |aa| == |bb| == |psd| && NonZero(psd) && timeDuration != 0.0
    ensures NoiseWeightedInnerProduct(aa, ScaleSeries(z, bb), psd, timeDuration)
         == Mul(z, NoiseWeightedInnerProduct(aa, bb, psd, timeDuration))
  {
    SumIntegrandMul(aa, z, bb, psd);
    ScaleMul(4.0 / timeDuration, z, Sum(Integrand(aa, bb, psd)));
  }

  // The SNR helpers.

  /**
    When the interferometer's data is exactly the signal, the matched-filter SNR
    squared is the optimal SNR squared.
   */
  lemma MatchedFilterIsOptimalForPerfectMatch(signal: seq<Complex>, ifo: Interferometer, timeDuration: real)
    requires |signal| == |ifo.powerSpectralDensityArray|
    requires NonZero(ifo.powerSpectralDensityArray) && timeDuration != 0.0
    requires ifo.data == signal
    ensures MatchedFilterSnrSquared(signal, ifo, timeDuration) == OptimalSnrSquared(signal, ifo, timeDuration)
  {
  }

  /** The optimal SNR squared is a non-negative real, positive for a non-zero signal. */
  lemma OptimalSnrSquaredNonNegative(signal: seq<Complex>, ifo: Interferometer, timeDuration: real)
    requires |signal| == |ifo.powerSpectralDensityArray|
    requires Positive(ifo.powerSpectralDensityArray) && timeDuration > 0.0
    ensures OptimalSnrSquared(signal, ifo, timeDuration).im == 0.0
    ensures OptimalSnrSquared(signal, ifo, timeDuration).re >= 0.0
    ensures forall k :: 0 <= k < |signal| && signal[k] != Zero ==> OptimalSnrSquared(signal, ifo, timeDuration).re > 0.0
  {
    NoiseWeightedInnerProductSelfNonNegative(signal, ifo.powerSpectralDensityArray, timeDuration);
  }

  /** The matched-filter SNR squared of the data against a signal is the conjugate of the reverse one. */
  lemma MatchedFilterSnrSquaredConjugate(signal: seq<Complex>, ifo: Interferometer, timeDuration: real)
    requires |signal| == |ifo.data| == |ifo.powerSpectralDensityArray|
    requires NonZero(ifo.powerSpectralDensityArray) && timeDuration != 0.0
    ensures MatchedFilterSnrSquared(ifo.data, Interferometer(signal, ifo.powerSpectralDensityArray), timeDuration)
         == Conj(MatchedFilterSnrSquared(signal, ifo, timeDuration))
  {
    NoiseWeightedInnerProductConjugateSymmetric(signal, ifo.data, ifo.powerSpectralDensityArray, timeDuration);
  }

  // Properties of inner_product.

  /** inner_product is symmetric in its two series. */
  lemma InnerProductSymmetric(aa: seq<Complex>, bb: seq<Complex>, frequency: seq<real>, psdInterpolated: seq<real>)
    requires |aa| == |bb| == |frequency| == |psdInterpolated| && |frequency| >= 2
    requires NonZero(psdInterpolated)
    ensures InnerProduct(aa, bb, frequency, psdInterpolated) == InnerProduct(bb, aa, frequency, psdInterpolated)
  {
    SumIntegrandConj(aa, bb, psdInterpolated);
  }

  /**
    With df = 1 / T, inner_product is the real part of the noise-weighted inner
    product over the same bins.
   */
  lemma InnerProductIsRealPart(aa: seq<Complex>, bb: seq<Complex>, frequency: seq<real>, psdInterpolated: seq<real>, timeDuration: real)
    requires |aa| == |bb| == |frequency| == |psdInterpolated| && |frequency| >= 2
    requires NonZero(psdInterpolated) && timeDuration != 0.0
    requires (frequency[1] - frequency[0]) * timeDuration == 1.0
    ensures InnerProduct(aa, bb, frequency, psdInterpolated)
         == NoiseWeightedInnerProduct(aa, bb, psdInterpolated, timeDuration).re
  {
    var df := frequency[1] - frequency[0];
    assert df == 1.0 / timeDuration;
  }

  /** A series against itself on an increasing axis gives a non-negative inner_product. */
  lemma InnerProductSelfNonNegative(aa: seq<Complex>, frequency: seq<real>, psdInterpolated: seq<real>)
    requires |aa| == |frequency| == |psdInterpolated| && |frequency| >= 2
    requires Positive(psdInterpolated) && frequency[1] > frequency[0]
    ensures InnerProduct(aa, aa, frequency, psdInterpolated) >= 0.0
    ensures forall k :: 0 <= k < |aa| && aa[k] != Zero ==> InnerProduct(aa, aa, frequency, psdInterpolated) > 0.0
  {
    var df := frequency[1] - frequency[0];
    InnerProductIsRealPart(aa, aa, frequency, psdInterpolated, 1.0 / df);
    NoiseWeightedInnerProductSelfNonNegative(aa, psdInterpolated, 1.0 / df);
  }
}
