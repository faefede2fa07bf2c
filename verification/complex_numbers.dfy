/**
  Complex numbers as pairs of exact reals: the idealisation of numpy's complex128
  arrays that the frequency-domain code works on, without rounding.
 */
module ComplexNumbers {

  datatype Complex = Complex(re: real, im: real)

  const Zero: Complex := Complex(0.0, 0.0)

  /** np.conj */
  function Conj(z: Complex): Complex {
    Complex(z.re, -z.im)
  }

  function Add(z: Complex, w: Complex): Complex {
    Complex(z.re + w.re, z.im + w.im)
  }

  function Mul(z: Complex, w: Complex): Complex {
    Complex(z.re * w.re - z.im * w.im, z.re * w.im + z.im * w.re)
  }

  /** Multiplication by a real factor. */
  function Scale(k: real, z: Complex): Complex {
    Complex(k * z.re, k * z.im)
  }

  /** Division by a real divisor, as numpy divides a complex array by a float array. */
  function DivReal(z: Complex, p: real): Complex
    requires p != 0.0
  {
    Complex(z.re / p, z.im / p)
  }

  /** The squared modulus |z|^2. */
  function Norm2(z: Complex): real {
    z.re * z.re + z.im * z.im
  }

  /** np.sum over a complex array. */
  function Sum(zs: seq<Complex>): Complex {
    if |zs| == 0 then Zero else Add(zs[0], Sum(zs[1..]))
  }

  function Sq(x: real): real {
    x * x
  }

  function Product(a: real, b: real): real {
    a * b
  }

  lemma ProductPositive(a: real, b: real)
    requires a > 0.0 && b > 0.0
    ensures Product(a, b) > 0.0
  {
  }

  lemma ProductNonNegative(a: real, b: real)
    requires a >= 0.0 && b >= 0.0
    ensures Product(a, b) >= 0.0
  {
    if a > 0.0 && b > 0.0 {
      ProductPositive(a, b);
    }
  }

  lemma SqPositive(x: real)
    requires x != 0.0
    ensures Sq(x) > 0.0
  {
    if x > 0.0 {
      ProductPositive(x, x);
    } else {
      ProductPositive(-x, -x);
      assert Sq(x) == Product(-x, -x);
    }
  }

  lemma SqNonNegative(x: real)
    ensures Sq(x) >= 0.0
  {
    if x != 0.0 {
      SqPositive(x);
    }
  }

  /** |z|^2 is non-negative, and positive away from the origin. */
  lemma Norm2Sign(z: Complex)
    ensures Norm2(z) >= 0.0
    ensures z != Zero ==> Norm2(z) > 0.0
  {
    SqNonNegative(z.re);
    SqNonNegative(z.im);
    if z.re != 0.0 {
      SqPositive(z.re);
    }
    if z.im != 0.0 {
      SqPositive(z.im);
    }
    assert Norm2(z) == Sq(z.re) + Sq(z.im);
    if z != Zero {
      assert z.re != 0.0 || z.im != 0.0;
    }
  }

  lemma MulDistributesOverAdd(z: Complex, w: Complex, v: Complex)
    ensures Mul(z, Add(w, v)) == Add(Mul(z, w), Mul(z, v))
  {
  }

  lemma ZeroAbsorbs(z: Complex, p: real)
    requires p != 0.0
    ensures Conj(Zero) == Zero && Mul(Zero, z) == Zero && DivReal(Zero, p) == Zero
  {
    MulZeroLeft(z);
    DivRealZero(p);
  }

  lemma MulZeroLeft(z: Complex)
    ensures Mul(Zero, z) == Zero
  {
  }

  lemma DivRealZero(p: real)
    requires p != 0.0
    ensures DivReal(Zero, p) == Zero
  {
  }

  lemma MulCommutes(z: Complex, w: Complex)
    ensures Mul(z, w) == Mul(w, z)
  {
  }

  lemma MulAssociative(z: Complex, w: Complex, v: Complex)
    ensures Mul(Mul(z, w), v) == Mul(z, Mul(w, v))
  {
    var a, b, c, d, e, f := z.re, z.im, w.re, w.im, v.re, v.im;
    assert (a * c - b * d) * e - (a * d + b * c) * f == a * (c * e - d * f) - b * (c * f + d * e);
    assert (a * c - b * d) * f + (a * d + b * c) * e == a * (c * f + d * e) + b * (c * e - d * f);
  }

  lemma MulLeftCommutes(z: Complex, w: Complex, v: Complex)
    ensures Mul(z, Mul(w, v)) == Mul(w, Mul(z, v))
  {
    MulAssociative(z, w, v);
    MulAssociative(w, z, v);
    MulCommutes(z, w);
  }

  lemma ConjOfMul(z: Complex, w: Complex)
    ensures Conj(Mul(z, w)) == Mul(Conj(z), Conj(w))
  {
  }

  lemma ScaleConj(k: real, z: Complex)
    ensures Scale(k, Conj(z)) == Conj(Scale(k, z))
  {
  }

  lemma ScaleAdd(k: real, z: Complex, w: Complex)
    ensures Scale(k, Add(z, w)) == Add(Scale(k, z), Scale(k, w))
  {
  }

  lemma ScaleMul(k: real, z: Complex, w: Complex)
    ensures Scale(k, Mul(z, w)) == Mul(z, Scale(k, w))
  {
  }

  /** conj(z) * z is the real number |z|^2. */
  lemma MulConjSelf(z: Complex)
    ensures Mul(Conj(z), z) == Complex(Norm2(z), 0.0)
  {
  }

  lemma QuotientPositive(a: real, p: real)
    requires a > 0.0 && p > 0.0
    ensures a / p > 0.0
  {
  }

  lemma QuotientNonNegative(a: real, p: real)
    requires a >= 0.0 && p > 0.0
    ensures a / p >= 0.0
  {
  }

  /** Dividing by p is scaling by 1 / p. */
  lemma DivRealIsScale(z: Complex, p: real)
    requires p != 0.0
    ensures DivReal(z, p) == Scale(1.0 / p, z)
  {
  }

  /** Summing the conjugates conjugates the sum. */
  lemma {:induction false} SumConj(zs: seq<Complex>, ws: seq<Complex>)
    requires |ws| == |zs|
    requires forall k :: 0 <= k < |zs| ==> ws[k] == Conj(zs[k])
    ensures Sum(ws) == Conj(Sum(zs))
  {
    if |zs| > 0 {
      SumConj(zs[1..], ws[1..]);
    }
  }

  /** The sum of a pointwise sum is the sum of the sums. */
  lemma {:induction false} SumAdd(zs: seq<Complex>, ws: seq<Complex>, vs: seq<Complex>)
    requires |ws| == |zs| && |vs| == |zs|
    requires forall k :: 0 <= k < |zs| ==> vs[k] == Add(zs[k], ws[k])
    ensures Sum(vs) == Add(Sum(zs), Sum(ws))
  {
    if |zs| > 0 {
      SumAdd(zs[1..], ws[1..], vs[1..]);
    }
  }

  /** A common complex factor comes out of the sum. */
  lemma {:induction false} SumMul(z: Complex, zs: seq<Complex>, ws: seq<Complex>)
    requires |ws| == |zs|
    requires forall k :: 0 <= k < |zs| ==> ws[k] == Mul(z, zs[k])
    ensures Sum(ws) == Mul(z, Sum(zs))
  {
    if |zs| > 0 {
      SumMul(z, zs[1..], ws[1..]);
      MulDistributesOverAdd(z, zs[0], Sum(zs[1..]));
    }
  }

  /** A sum of non-negative reals is a non-negative real. */
  lemma {:induction false} SumNonNegativeReals(zs: seq<Complex>)
    requires forall k :: 0 <= k < |zs| ==> zs[k].im == 0.0 && zs[k].re >= 0.0
    ensures Sum(zs).im == 0.0 && Sum(zs).re >= 0.0
  {
    if |zs| > 0 {
      SumNonNegativeReals(zs[1..]);
    }
  }

  /** A sum of non-negative reals with one positive term is positive. */
  lemma {:induction false} SumPositiveReals(zs: seq<Complex>, j: nat)
    requires forall k :: 0 <= k < |zs| ==> zs[k].im == 0.0 && zs[k].re >= 0.0
    requires j < |zs| && zs[j].re > 0.0
    ensures Sum(zs).re > 0.0
  {
    SumNonNegativeReals(zs[1..]);
    if j > 0 {
      assert zs[1..][j - 1] == zs[j];
      SumPositiveReals(zs[1..], j - 1);
    }
  }

  /** A sum of zeros is zero. */
  lemma {:induction false} SumZeros(zs: seq<Complex>)
    requires forall k :: 0 <= k < |zs| ==> zs[k] == Zero
    ensures Sum(zs) == Zero
  {
    if |zs| > 0 {
      SumZeros(zs[1..]);
    }
  }
}
