/**
  Amplitude and power spectral densities of a complex frequency series
  (asd_from_freq_series and psd_from_freq_series in tupak/gw/utils.py).

  The square roots the source takes (the modulus in np.absolute and df**0.5)
  are the uninterpreted `tr.sqrt`, and the properties that need it to be a
  square root at a point say so with IsSqrtAt.
 */
module SpectralDensity {

  import opened ComplexNumbers
  import opened Elementary

  /** `tr.sqrt` returns the non-negative square root of `y`. */
  ghost predicate IsSqrtAt(tr: Transcendentals, y: real) {
    tr.sqrt(y) >= 0.0 && Sq(tr.sqrt(y)) == y
  }

  /** `tr.sqrt` is a square root at df and at |x_k|^2 for every bin of x. */
  ghost predicate ExactRoots(freqData: seq<Complex>, df: real, tr: Transcendentals) {
    && IsSqrtAt(tr, df)
    && forall k :: 0 <= k < |freqData| ==> IsSqrtAt(tr, Norm2(freqData[k]))
  }

  /** np.absolute on one complex bin: tr.sqrt(re^2 + im^2). */
  function Absolute(z: Complex, tr: Transcendentals): real {
    tr.sqrt(Norm2(z))
  }

  /** asd_k = |x_k| * 2 * df**0.5. */
  function AsdFromFreqSeries(freqData: seq<Complex>, df: real, tr: Transcendentals): (r: seq<real>)
    ensures |r| == |freqData|
  {
    seq(|freqData|, k requires 0 <= k < |freqData| => Absolute(freqData[k], tr) * 2.0 * tr.sqrt(df))
  }

  /** psd_k = asd_k ** 2: the amplitude spectral density, squared bin by bin. */
  function PsdFromFreqSeries(freqData: seq<Complex>, df: real, tr: Transcendentals): (r: seq<real>)
    ensures |r| == |freqData|
  {
    var asd := AsdFromFreqSeries(freqData, df, tr);
    seq(|asd|, k requires 0 <= k < |asd| => Sq(asd[k]))
  }

  lemma SquareOfAsdBin(a: real, b: real)
    ensures Sq(a * 2.0 * b) == 4.0 * Sq(a) * Sq(b)
  {
  }

  /**
    With exact square roots, every ASD bin is non-negative and squares to
    4 * |x_k|^2 * df.
   */
  lemma AsdFromFreqSeriesSquares(freqData: seq<Complex>, df: real, tr: Transcendentals)
    requires ExactRoots(freqData, df, tr)
    ensures forall k :: 0 <= k < |freqData| ==>
      AsdFromFreqSeries(freqData, df, tr)[k] >= 0.0
      && Sq(AsdFromFreqSeries(freqData, df, tr)[k]) == 4.0 * Norm2(freqData[k]) * df
  {
    var asd := AsdFromFreqSeries(freqData, df, tr);
    forall k | 0 <= k < |freqData|
      ensures asd[k] >= 0.0 && Sq(asd[k]) == 4.0 * Norm2(freqData[k]) * df
    {
      var a, b := Absolute(freqData[k], tr), tr.sqrt(df);
      assert asd[k] == a * 2.0 * b;
      SquareOfAsdBin(a, b);
      ProductNonNegative(a * 2.0, b);
    }
  }

  /** Every PSD bin is non-negative, whatever `tr.sqrt` returns: it is a square. */
  lemma PsdFromFreqSeriesNonNegative(freqData: seq<Complex>, df: real, tr: Transcendentals)
    ensures forall k :: 0 <= k < |freqData| ==> PsdFromFreqSeries(freqData, df, tr)[k] >= 0.0
  {
    var asd := AsdFromFreqSeries(freqData, df, tr);
    forall k | 0 <= k < |freqData| ensures PsdFromFreqSeries(freqData, df, tr)[k] >= 0.0 {
      SqNonNegative(asd[k]);
    }
  }

  /** With exact square roots the PSD needs no root at all: psd_k = 4 * (re_k^2 + im_k^2) * df. */
  lemma PsdFromFreqSeriesClosedForm(freqData: seq<Complex>, df: real, tr: Transcendentals)
    requires ExactRoots(freqData, df, tr)
    ensures forall k :: 0 <= k < |freqData| ==> PsdFromFreqSeries(freqData, df, tr)[k] == 4.0 * Norm2(freqData[k]) * df
  {
    AsdFromFreqSeriesSquares(freqData, df, tr);
  }

  /** For df > 0 and exact roots, a PSD bin is zero exactly where the data bin is zero. */
  lemma PsdFromFreqSeriesVanishesExactlyAtZeroBins(freqData: seq<Complex>, df: real, tr: Transcendentals)
    requires ExactRoots(freqData, df, tr) && df > 0.0
    ensures forall k :: 0 <= k < |freqData| && freqData[k] != Zero ==> PsdFromFreqSeries(freqData, df, tr)[k] > 0.0
    ensures forall k :: 0 <= k < |freqData| && freqData[k] == Zero ==> PsdFromFreqSeries(freqData, df, tr)[k] == 0.0
  {
    PsdFromFreqSeriesClosedForm(freqData, df, tr);
    forall k | 0 <= k < |freqData|
      ensures freqData[k] != Zero ==> PsdFromFreqSeries(freqData, df, tr)[k] > 0.0
      ensures freqData[k] == Zero ==> PsdFromFreqSeries(freqData, df, tr)[k] == 0.0
    {
      var n := Norm2(freqData[k]);
      assert PsdFromFreqSeries(freqData, df, tr)[k] == 4.0 * n * df;
      Norm2Sign(freqData[k]);
      PsdBinSign(n, df);
    }
  }

  lemma PsdBinSign(n: real, df: real)
    requires n >= 0.0 && df > 0.0
    ensures n > 0.0 ==> 4.0 * n * df > 0.0
    ensures n == 0.0 ==> 4.0 * n * df == 0.0
  {
    if n > 0.0 {
      ProductPositive(4.0 * n, df);
    }
  }
}
