/// The complex value type `Complex<T>` of include/complex.h, with exact
/// `real` arithmetic standing in for the floating-point element type `T`,
/// and the projections of a vector of complex values onto real vectors.
module Types {

  /** A complex number: a record of its real and imaginary components. */
  datatype Complex = Complex(re: real, im: real)
  {
    /** `operator +`: component-wise sum. */
    function Plus(other: Complex): Complex
    {
      Complex(re + other.re, im + other.im)
    }

    /** `operator -`: component-wise difference. */
    function Minus(other: Complex): Complex
    {
      Complex(re - other.re, im - other.im)
    }

    /** `operator *` of two complex values: (ac - bd) + (ad + bc)i. */
    function Times(other: Complex): Complex
    {
      Complex(re * other.re - im * other.im, re * other.im + im * other.re)
    }

    /** `operator *` with a scalar on the right. */
    function Scale(s: real): Complex
    {
      Complex(re * s, im * s)
    }

    /** `operator /` by a scalar. */
    function DivBy(s: real): Complex
      requires s != 0.0
    {
      Complex(re / s, im / s)
    }

    /** `operator !`: the complex conjugate. */
    function Conj(): Complex
    {
      Complex(re, -im)
    }

    /** `operator ==`: both components equal. */
    predicate Equals(other: Complex)
    {
      re == other.re && im == other.im
    }

    /** `operator !=`: some component differs. */
    predicate NotEquals(other: Complex)
    {
      re != other.re || im != other.im
    }
  }

  /** The default-constructed value `Complex<T>{}` and the value `{0, 0}`. */
  const Zero := Complex(0.0, 0.0)

  /** The value `{1, 0}`. */
  const One := Complex(1.0, 0.0)

  /** The free `operator *(const T&, const Complex<T>&)`: a scalar on the left. */
  function ScaleLeft(s: real, c: Complex): Complex
  {
    Complex(c.re * s, c.im * s)
  }

  /** Squared modulus re^2 + im^2, the argument of `sqrt` in `mod`. */
  function Norm2(c: Complex): real
  {
    c.re * c.re + c.im * c.im
  }

  /**
   * `mod(complex)`: sqrt(re^2 + im^2).  The square root is a floating-point
   * library function and is taken as a parameter.
   */
  function Modulus(c: Complex, sqrt: real -> real): real
  {
    sqrt(Norm2(c))
  }

  // ---------------------------------------------------------------------
  // Algebraic laws of the operators (they hold in exact arithmetic only).

  lemma PlusCommutes(a: Complex, b: Complex)
    ensures a.Plus(b) == b.Plus(a)
  {
  }

  lemma PlusAssociates(a: Complex, b: Complex, c: Complex)
    ensures a.Plus(b).Plus(c) == a.Plus(b.Plus(c))
  {
  }

  lemma ZeroIsPlusIdentity(a: Complex)
    ensures a.Plus(Zero) == a && Zero.Plus(a) == a
  {
  }

  /** Subtraction undoes addition. */
  lemma MinusUndoesPlus(a: Complex, b: Complex)
    ensures a.Plus(b).Minus(b) == a
  {
  }

  /** Adding the scalar multiple by -1 yields zero. */
  lemma PlusNegationIsZero(a: Complex)
    ensures a.Plus(ScaleLeft(-1.0, a)) == Zero
  {
  }

  lemma TimesCommutes(a: Complex, b: Complex)
    ensures a.Times(b) == b.Times(a)
  {
  }

  lemma OneIsTimesIdentity(a: Complex)
    ensures a.Times(One) == a && One.Times(a) == a
  {
  }

  lemma TimesDistributesOverPlus(a: Complex, b: Complex, c: Complex)
    ensures a.Times(b.Plus(c)) == a.Times(b).Plus(a.Times(c))
  {
  }

  /** A scalar on the left or on the right gives the same value. */
  lemma ScaleLeftIsScale(s: real, c: Complex)
    ensures ScaleLeft(s, c) == c.Scale(s)
  {
  }

  /** Scaling by s is multiplication by the complex value (s, 0). */
  lemma ScaleIsTimesReal(s: real, c: Complex)
    ensures c.Scale(s) == c.Times(Complex(s, 0.0))
  {
  }

  /** Dividing by a non-zero scalar is undone by scaling with it. */
  lemma DivByUndoneByScale(c: Complex, s: real)
    requires s != 0.0
    ensures c.DivBy(s).Scale(s) == c
  {
  }

  /** The conjugate keeps the real part, negates the imaginary part, and is an involution. */
  lemma ConjInvolution(c: Complex)
    ensures c.Conj().re == c.re && c.Conj().im == -c.im
    ensures c.Conj().Conj() == c
  {
  }

  /** c * !c is the real number re^2 + im^2. */
  lemma TimesConjIsNorm2(c: Complex)
    ensures c.Times(c.Conj()) == Complex(Norm2(c), 0.0)
  {
  }

  /** Conjugation does not change the modulus, whatever the square root. */
  lemma ModulusOfConj(c: Complex, sqrt: real -> real)
    ensures Modulus(c.Conj(), sqrt) == Modulus(c, sqrt)
  {
    assert (-c.im) * (-c.im) == c.im * c.im;
    assert Norm2(c.Conj()) == Norm2(c);
  }

  /** `==` is exactly equality of values, and `!=` its negation. */
  lemma EqualsIsEquality(a: Complex, b: Complex)
    ensures a.Equals(b) <==> a == b
    ensures a.NotEquals(b) <==> !a.Equals(b)
  {
  }

  // ---------------------------------------------------------------------
  // Compound assignment mutates a complex object in place.

  /** A `Complex<T>` object whose two fields are updated by `+=`, `*=` and `=`. */
  class ComplexVar {
    var re: real
    var im: real

    /** The value currently held. */
    function Value(): Complex
      reads this
    {
      Complex(re, im)
    }

    /** `Complex() = default`: both components zero. */
    constructor ()
      ensures Value() == Zero
    {
      re, im := 0.0, 0.0;
    }

    /** `Complex(const T& Re, const T& Im)`. */
    constructor FromParts(re: real, im: real)
      ensures Value() == Complex(re, im)
    {
      this.re, this.im := re, im;
    }

    /** The copy constructor. */
    constructor Copy(other: ComplexVar)
      ensures Value() == other.Value()
    {
      re, im := other.re, other.im;
    }

    /**
     * `operator +=`: the receiver becomes the sum of both old values; the
     * operand is untouched unless it is the receiver itself (`a += a`).
     */
    method PlusAssign(other: ComplexVar)
      modifies this
      ensures Value() == old(Value()).Plus(old(other.Value()))
      ensures other != this ==> other.Value() == old(other.Value())
    {
      re := re + other.re;
      im := im + other.im;
    }

    /** `operator *=`: computes `*this * other` first, then assigns it. */
    method TimesAssign(other: ComplexVar)
      modifies this
      ensures Value() == old(Value()).Times(old(other.Value()))
      ensures other != this ==> other.Value() == old(other.Value())
    {
      var product := Value().Times(other.Value());
      re := product.re;
      im := product.im;
    }

    /** `operator =`: copies both components of the operand. */
    method Assign(other: ComplexVar)
      modifies this
      ensures Value() == old(other.Value())
      ensures other != this ==> other.Value() == old(other.Value())
    {
      re := other.re;
      im := other.im;
    }
  }

  // ---------------------------------------------------------------------
  // Projections of a vector of complex values, built with push_back.

  /** `Re(x)`: the real parts, in order. */
  method Re(x: seq<Complex>) returns (y: seq<real>)
    ensures |y| == |x|
    ensures forall i :: 0 <= i < |x| ==> y[i] == x[i].re
  {
    y := [];
    var i := 0;
    while i < |x|
      invariant i <= |x|
      invariant |y| == i
      invariant forall k :: 0 <= k < i ==> y[k] == x[k].re
    {
      y := y + [x[i].re];
      i := i + 1;
    }
  }

  /** `Im(x)`: the imaginary parts, in order. */
  method Im(x: seq<Complex>) returns (y: seq<real>)
    ensures |y| == |x|
    ensures forall i :: 0 <= i < |x| ==> y[i] == x[i].im
  {
    y := [];
    var i := 0;
    while i < |x|
      invariant i <= |x|
      invariant |y| == i
      invariant forall k :: 0 <= k < i ==> y[k] == x[k].im
    {
      y := y + [x[i].im];
      i := i + 1;
    }
  }

  /** `mod(x)`: the moduli, in order, for a given square root. */
  method Mod(x: seq<Complex>, sqrt: real -> real) returns (y: seq<real>)
    ensures |y| == |x|
    ensures forall i :: 0 <= i < |x| ==> y[i] == Modulus(x[i], sqrt)
  {
    y := [];
    var i := 0;
    while i < |x|
      invariant i <= |x|
      invariant |y| == i
      invariant forall k :: 0 <= k < i ==> y[k] == Modulus(x[k], sqrt)
    {
      y := y + [Modulus(x[i], sqrt)];
      i := i + 1;
    }
  }
}
