# Gravitational-wave utilities of tupak, modelled in Dafny

This project models the computational core of `tupak/gw/utils.py`. That is
the helper module of tupak, the Bayesian inference library for
gravitational-wave astronomy that later became bilby. The model covers these
functions:

- **Spectral densities.** `asd_from_freq_series` and `psd_from_freq_series`
  turn complex frequency-domain data into amplitude and power spectral
  densities (`SpectralDensity`).
- **Time delay.** `time_delay_geocentric` gives the arrival-time difference
  of a wave at two detectors. It projects their separation on the source
  direction (`Geometry`).
- **Polarization tensors.** `get_polarization_tensor` builds the Earth frame
  (u, v) and the wave frame (m, n, omega) of a source. It picks one of the six
  polarization modes by case-insensitive name and returns that mode's 3 x 3
  tensor, or `None` (`Polarization`).
- **Inner products.** `inner_product`, `noise_weighted_inner_product`,
  `matched_filter_snr_squared` and `optimal_snr_squared` are the
  noise-weighted inner product and the signal-to-noise statistics built on it
  (`InnerProducts`, over `ComplexNumbers`).
- **Event times.** `get_event_time` looks up the merger time of a known event
  from the last six characters of its descriptor (`EventTimes`).

Numbers are exact reals and complex numbers are pairs of reals. numpy arrays
become sequences, or three-vectors and 3 x 3 matrices. Some functions are not
modelled but taken as given:

- the GPS-time to sidereal-time conversion;
- the conversion from (ra, dec) to polar angles;
- sine, cosine and square root.

They are passed in as the fields of an `Elementary.Transcendentals` value. Each
property that needs sin² + cos² = 1 at an angle, or an exact square root at a
point, states that as a precondition.

## Model

| member | source | states |
|---|---|---|
| SpectralDensity.AsdFromFreqSeries | tupak/gw/utils.py:12-22 | one ASD bin per data bin; AsdFromFreqSeriesSquares states what each bin is |
| SpectralDensity.PsdFromFreqSeries | tupak/gw/utils.py:25-36 | one PSD bin per data bin; the three PsdFromFreqSeries lemmas below state its sign, its closed form and where it vanishes |
| SpectralDensity.AsdFromFreqSeriesSquares | tupak/gw/utils.py:12-22 | with exact square roots every ASD bin is non-negative and its square is 4 \|x_k\|² df |
| SpectralDensity.PsdFromFreqSeriesNonNegative | tupak/gw/utils.py:25-36 | every PSD bin is non-negative, whatever the square root returns, since it is a square |
| SpectralDensity.PsdFromFreqSeriesClosedForm | tupak/gw/utils.py:25-36 | with exact square roots, PSD bin k equals 4 (re_k² + im_k²) df: squaring the ASD undoes its roots |
| SpectralDensity.PsdFromFreqSeriesVanishesExactlyAtZeroBins | tupak/gw/utils.py:25-36 | for df > 0 a PSD bin is positive where the data bin is non-zero and zero where it is zero |
| Geometry.TimeDelayGeocentric | tupak/gw/utils.py:39-58 | the delay between a detector and itself is zero |
| Geometry.TimeDelayAntisymmetric | tupak/gw/utils.py:39-58 | swapping the two detectors negates the delay |
| Geometry.TimeDelayAdditive | tupak/gw/utils.py:39-58 | delays from detector 1 to 2 and from 2 to 3 add up to the delay from 1 to 3 |
| Geometry.TimeDelayToGeocentre | tupak/gw/utils.py:46-58 | with detector2 at the origin the delay is minus the projection of detector1 on the source direction, over c |
| Geometry.RadialDirection | tupak/gw/utils.py:55 | the source direction at polar angles θ, φ; RadialDirectionIsUnit states that it has unit length and EarthFrameCross that it is u × v |
| Geometry.RadialDirectionIsUnit | tupak/gw/utils.py:55 | the source direction (sinθ cosφ, sinθ sinφ, cosθ) has unit length when sin² + cos² = 1 at θ and φ |
| Geometry.TimeDelayBoundedByBaseline | tupak/gw/utils.py:53-57 | (c · delay)² never exceeds the squared distance between the detectors, by Cauchy-Schwarz |
| Polarization.GetPolarizationTensor | tupak/gw/utils.py:61-100 | the result is None exactly when the mode name selects no mode, and otherwise it is the selected mode's tensor in the source's wave frame |
| Polarization.GetPolarizationTensorActsOnWaveFrame | tupak/gw/utils.py:77-97 | with exact trigonometry, a name that lowers to a mode's name yields a tensor that maps the wave frame m, n, omega as that mode should (plus: m, -n, 0; cross: n, m, 0; breathing: m, n, 0; longitudinal: 0, 0, √2 omega; x: omega, 0, m; y: 0, omega, n), and omega is minus the source direction |
| Polarization.PolarizationTensorAction | tupak/gw/utils.py:84-97 | for an orthonormal (m, n) each mode's tensor maps m, n and omega = m × n to the images listed in the row above |
| Polarization.PolarizationTensor | tupak/gw/utils.py:84-97 | the six tensors built from outer products; PolarizationTensorAction, PolarizationTensorSymmetric and PolarizationTensorTrace state what they are |
| Polarization.LowerChar | tupak/gw/utils.py:84 | ASCII lower-casing of one character, standing in for `str.lower`: the result is never an upper-case ASCII letter, such a letter becomes the lower-case letter at the same alphabet position, and every other character is kept |
| Polarization.Lower | tupak/gw/utils.py:84 | ASCII lower-casing standing in for `mode.lower()`: same length, no upper-case ASCII letter left, each upper-case ASCII letter replaced by its own lower-case letter, every other character kept in place |
| Polarization.LowerAgrees | tupak/gw/utils.py:84 | two strings lower to the same string if and only if they are equal up to the case of their ASCII letters |
| Polarization.ParseMode | tupak/gw/utils.py:84-100 | the if/elif chain on `mode.lower()`; ParseModeSelects and ParseModeRejects state which names select which mode |
| Polarization.ParseModeSelects | tupak/gw/utils.py:84-97 | a name selects a mode if and only if its lower-case form is that mode's name |
| Polarization.ParseModeRejects | tupak/gw/utils.py:84-100 | a name selects no mode if and only if its lower-case form is none of the six names |
| Polarization.ParseModeIgnoresCase | tupak/gw/utils.py:84-97 | a name and its lower-case form select the same mode |
| Polarization.ParseModeCaseInsensitive | tupak/gw/utils.py:84-97 | every string that lowers to a mode's name selects that mode, and so does the name itself |
| Polarization.ParseModeSpelling | tupak/gw/utils.py:84-97 | a name selects a mode if and only if it spells that mode's name in any mix of ASCII upper and lower case |
| Polarization.ParseModeCapitalised | tupak/gw/utils.py:84-87 | 'PLUS' selects the plus mode and 'Cross' the cross mode |
| Polarization.PolarizationTensorSymmetric | tupak/gw/utils.py:84-97 | every mode's tensor is a symmetric matrix |
| Polarization.PlusAddBreathing | tupak/gw/utils.py:84-89 | the plus and breathing tensors add up to 2 m mᵀ |
| Polarization.PolarizationTensorTrace | tupak/gw/utils.py:84-97 | for orthonormal m, n the plus, cross, x and y tensors are traceless, breathing has trace 2 and longitudinal has trace √2 |
| Polarization.PlusCrossOrthogonal | tupak/gw/utils.py:84-87 | for orthonormal m, n the plus and cross tensors are Frobenius-orthogonal and each has squared norm 2 |
| Polarization.EarthFrame | tupak/gw/utils.py:79-80 | the Earth-frame vectors u, v; EarthFrameOrthonormal and EarthFrameCross state their properties |
| Polarization.WaveFrame | tupak/gw/utils.py:81-82 | the wave-frame vectors m, n rotated by ψ; WaveFrameOrthonormal and WaveFrameCross state their properties |
| Polarization.SourceWaveFrame | tupak/gw/utils.py:77-82 | the wave frame of a source at (ra, dec) and a GPS time; SourceWaveFrameProperties states that it is orthonormal |
| Polarization.EarthFrameOrthonormal | tupak/gw/utils.py:79-80 | u and v are orthonormal when sin² + cos² = 1 at θ and φ |
| Polarization.EarthFrameCross | tupak/gw/utils.py:79-80 | u × v is the source direction used by the time delay |
| Polarization.WaveFrameOrthonormal | tupak/gw/utils.py:81-82 | rotating an orthonormal (u, v) by ψ gives an orthonormal (m, n) |
| Polarization.WaveFrameCross | tupak/gw/utils.py:81-91 | omega = m × n equals -(u × v), whatever ψ is |
| Polarization.SourceWaveFrameProperties | tupak/gw/utils.py:77-93 | a source's wave frame is orthonormal, and its longitudinal tensor is √2 d dᵀ for the time delay's source direction d |
| InnerProducts.NoiseWeightedInnerProduct | tupak/gw/utils.py:145-168 | 4 / T times the sum of conj(a_k) b_k / S_k; the four NoiseWeightedInnerProduct lemmas below state that it is a Hermitian form, positive definite for a positive PSD |
| InnerProducts.MatchedFilterSnrSquared | tupak/gw/utils.py:171-173 | the noise-weighted product of the signal with the interferometer's data; MatchedFilterSnrSquaredConjugate and MatchedFilterIsOptimalForPerfectMatch state its properties |
| InnerProducts.OptimalSnrSquared | tupak/gw/utils.py:176-177 | the noise-weighted product of the signal with itself; OptimalSnrSquaredNonNegative states its sign |
| InnerProducts.InnerProduct | tupak/gw/utils.py:120-142 | 4 Re(df Σ conj(a_k) b_k / S_k) with df from the first two frequencies; the three InnerProduct lemmas below state its symmetry, sign and relation to the noise-weighted product |
| InnerProducts.NoiseWeightedInnerProductConjugateSymmetric | tupak/gw/utils.py:145-168 | swapping the two series conjugates the result |
| InnerProducts.NoiseWeightedInnerProductSelfNonNegative | tupak/gw/utils.py:145-168 | with a positive PSD and duration, a series against itself gives a non-negative real, zero for the zero series and positive when any bin is non-zero |
| InnerProducts.NoiseWeightedInnerProductAdditive | tupak/gw/utils.py:145-168 | the result is additive in the second series |
| InnerProducts.NoiseWeightedInnerProductHomogeneous | tupak/gw/utils.py:145-168 | a complex factor on the second series comes out of the result |
| InnerProducts.MatchedFilterIsOptimalForPerfectMatch | tupak/gw/utils.py:171-177 | when the interferometer's data is the signal, the matched-filter SNR² equals the optimal SNR² |
| InnerProducts.OptimalSnrSquaredNonNegative | tupak/gw/utils.py:176-177 | the optimal SNR² is a non-negative real, positive for a non-zero signal |
| InnerProducts.MatchedFilterSnrSquaredConjugate | tupak/gw/utils.py:171-173 | exchanging the signal and the data conjugates the matched-filter SNR² |
| InnerProducts.InnerProductSymmetric | tupak/gw/utils.py:120-142 | inner_product is symmetric in its two series |
| InnerProducts.InnerProductIsRealPart | tupak/gw/utils.py:120-142 | when df = 1 / T, inner_product is the real part of the noise-weighted inner product |
| InnerProducts.InnerProductSelfNonNegative | tupak/gw/utils.py:120-142 | on an increasing frequency axis a series against itself gives a non-negative value, positive when any bin is non-zero |
| EventTimes.LastSix | tupak/gw/utils.py:207-210 | the result is the last min(6, \|s\|) characters of s, a suffix of it |
| EventTimes.GetEventTime | tupak/gw/utils.py:180-214 | a descriptor resolves if and only if it ends with a date of the table, and then to that date's time |
| EventTimes.PrefixGuardAsWrittenAlwaysHolds | tupak/gw/utils.py:206 | the prefix test as written holds for every descriptor, including ones without GW or LVT |
| EventTimes.GetEventTimeAsWritten | tupak/gw/utils.py:206-214 | get_event_time with the guard as written; GetEventTimeAsWrittenAgrees states that it returns what GetEventTime returns |
| EventTimes.GetEventTimeAsWrittenAgrees | tupak/gw/utils.py:206-214 | the version with the guard as written returns the same result as the version with the intended guard |
| EventTimes.GetEventTimeIgnoresPrefix | tupak/gw/utils.py:196-211 | any prefix in front of a known date is ignored |
| EventTimes.GetEventTimeShortIsUnknown | tupak/gw/utils.py:209-214 | a descriptor shorter than six characters is unknown |
| EventTimes.TableDatesResolve | tupak/gw/utils.py:184-211 | every date of the table resolves on its own, after GW and after LVT |
| EventTimes.DocumentedLvtExampleResolves | tupak/gw/utils.py:196-205 | the documented example 'LVT151012' resolves to the recorded time of 151012 |

## Left out

- Functions outside this model. The file's I/O and signal-processing
  functions (`get_open_strain_data`, `read_frame_file`, `process_strain_data`
  and the others from line 217 on) need network access, files and gwpy/scipy
  filters. `get_vertex_position_geocentric` (lines 103-117) is an ellipsoid
  formula with fractional powers and is not part of this model.
- tupak/core/utils.py is not part of this model. `gps_time_to_gmst` and
  `ra_dec_to_theta_phi` are uninterpreted parameters. `speed_of_light` is the
  SI value 299792458 m/s.
- Elementary.Transcendentals: sin, cos and the square roots of `np.absolute`,
  `df**0.5` and `np.sqrt(2)` are uninterpreted. Properties that need them
  assume sin² + cos² = 1 or an exact root at the points they use.
- Floating point: numbers are exact reals. There is no IEEE rounding, and no
  overflow to infinity.
- Degenerate inputs. `time_duration` is a Python float, so a zero duration
  makes `4 / time_duration` raise ZeroDivisionError; the model leaves that
  case out by requiring a non-zero duration. A zero PSD bin gives `inf`/`nan`
  in numpy; the model requires the PSD non-zero.
  Series of different lengths fail or broadcast in numpy; the model requires
  equal lengths. `inner_product` needs at least two frequencies, as the source
  indexes `frequency[1]`.
- SpectralDensity.PsdFromFreqSeriesNonNegative: a negative frequency spacing
  is not modelled. There Python's `df**0.5` is complex (numpy gives `nan`),
  while the model's square root returns a real.
- Python 3 semantics: `4 / time_duration` is true division.
- InnerProducts.InnerProduct: the PSD object is represented only by the array
  its `power_spectral_density_interpolated` method returns on the frequency
  axis. The interpolation itself is not modelled.
- Polarization.LowerChar, Polarization.Lower, Polarization.ParseMode: the
  model lower-cases only the ASCII letters 'A'..'Z'. Python's `str.lower`
  folds all of Unicode: it changes non-ASCII capitals ('É' becomes 'é') and
  can change the length ('İ' becomes 'i' followed by U+0307). So the model's
  Lower differs from `str.lower` on non-ASCII input. The mode selected is
  still the same: the only non-ASCII characters that lower to ASCII letters
  are U+0130 (to 'i' plus a combining dot) and U+212A (to 'k'), and neither
  result can be part of one of the six mode names. Non-string modes are not
  modelled.
- `logging.warning` in `get_polarization_tensor` and `print` in
  `get_event_time` are output only. They are left out, so the one visible
  effect of the guard finding below (the text of the message for an unknown
  event) is not modelled.

## Findings

| source | as written | input that shows it | evidently intended | confidence | as-written member | corrected member |
|---|---|---|---|---|---|---|
| tupak/gw/utils.py:206 | `'GW' or 'LVT' in event` parses as `'GW' or ('LVT' in event)`, and the non-empty literal makes it always true | '150914', which contains neither GW nor LVT, still takes the truncating branch | `'GW' in event or 'LVT' in event` | high (not executed); the returned time is unaffected, because the lookup truncates again | EventTimes.PrefixGuardAsWrittenAlwaysHolds | EventTimes.GetEventTime |
