/// Linearity of the transform of include/dft.h: for vectors of equal
/// length and real coefficients a and b, `fft` of a x + b y is a fft(x) +
/// b fft(y), whatever the twiddle factors.  Padding appends zeros, the
/// bit-reversal only moves elements, and every butterfly is linear in its
/// block because complex `*` distributes over `+` and commutes with real
/// scaling.
module Linearity {
  import opened Types
  import opened PowerOfTwo
  import opened BitReversal
  import opened Transform

  /** The linear combination a u + b v of two complex values. */
  function Mix(a: real, u: Complex, b: real, v: Complex): Complex
  {
    u.Scale(a).Plus(v.Scale(b))
  }

  /** The element-wise linear combination a x + b y of two vectors of equal length. */
  function MixSeq(a: real, x: seq<Complex>, b: real, y: seq<Complex>): (r: seq<Complex>)
    requires |x| == |y|
    ensures |r| == |x|
  {
    seq(|x|, i requires 0 <= i < |x| => Mix(a, x[i], b, y[i]))
  }

  // ---------------------------------------------------------------------
  // The operators on linear combinations.

  /** Multiplying by c commutes with scaling by a real. */
  lemma TimesScale(c: Complex, u: Complex, s: real)
    ensures c.Times(u.Scale(s)) == c.Times(u).Scale(s)
  {
    assert c.re * (u.re * s) - c.im * (u.im * s) == (c.re * u.re - c.im * u.im) * s;
    assert c.re * (u.im * s) + c.im * (u.re * s) == (c.re * u.im + c.im * u.re) * s;
  }

  /** Multiplying by c commutes with taking a linear combination. */
  lemma TimesMix(c: Complex, a: real, u: Complex, b: real, v: Complex)
    ensures c.Times(Mix(a, u, b, v)) == Mix(a, c.Times(u), b, c.Times(v))
  {
    calc {
      c.Times(Mix(a, u, b, v));
    ==
      c.Times(u.Scale(a).Plus(v.Scale(b)));
    == { TimesDistributesOverPlus(c, u.Scale(a), v.Scale(b)); }
      c.Times(u.Scale(a)).Plus(c.Times(v.Scale(b)));
    == { TimesScale(c, u, a); TimesScale(c, v, b); }
      c.Times(u).Scale(a).Plus(c.Times(v).Scale(b));
    }
  }

  /** Scaling by a real distributes over the sum and the difference. */
  lemma ScaleDistributes(u: Complex, w: Complex, s: real)
    ensures u.Plus(w).Scale(s) == u.Scale(s).Plus(w.Scale(s))
    ensures u.Minus(w).Scale(s) == u.Scale(s).Minus(w.Scale(s))
  {
    assert (u.re + w.re) * s == u.re * s + w.re * s && (u.im + w.im) * s == u.im * s + w.im * s;
    assert (u.re - w.re) * s == u.re * s - w.re * s && (u.im - w.im) * s == u.im * s - w.im * s;
  }

  /** The butterfly's sum and difference of two linear combinations. */
  lemma PlusMinusMix(a: real, u1: Complex, v1: Complex, b: real, u2: Complex, v2: Complex)
    ensures Mix(a, u1, b, v1).Plus(Mix(a, u2, b, v2)) == Mix(a, u1.Plus(u2), b, v1.Plus(v2))
    ensures Mix(a, u1, b, v1).Minus(Mix(a, u2, b, v2)) == Mix(a, u1.Minus(u2), b, v1.Minus(v2))
  {
    ScaleDistributes(u1, u2, a);
    ScaleDistributes(v1, v2, b);
  }

  // ---------------------------------------------------------------------
  // Each step of the transform is linear.

  /** Butterfly j of a combined block is the combination of the butterflies. */
  lemma UpperLowerLinear(a: real, x: seq<Complex>, b: real, y: seq<Complex>, h: nat, wm: Complex, j: nat)
    requires |x| == |y| == 2 * h && j < h
    ensures Upper(MixSeq(a, x, b, y), h, wm, j) == Mix(a, Upper(x, h, wm, j), b, Upper(y, h, wm, j))
    ensures Lower(MixSeq(a, x, b, y), h, wm, j) == Mix(a, Lower(x, h, wm, j), b, Lower(y, h, wm, j))
  {
    var w := Power(wm, j);
    TimesMix(w, a, x[j + h], b, y[j + h]);
    PlusMinusMix(a, x[j], y[j], b, w.Times(x[j + h]), w.Times(y[j + h]));
  }

  /** The butterflies of one block are linear in the block. */
  lemma ButterfliesLinear(a: real, x: seq<Complex>, b: real, y: seq<Complex>, h: nat, wm: Complex)
    requires |x| == |y| == 2 * h
    ensures Butterflies(MixSeq(a, x, b, y), h, wm) == MixSeq(a, Butterflies(x, h, wm), b, Butterflies(y, h, wm))
  {
    forall p | 0 <= p < 2 * h
      ensures Butterflies(MixSeq(a, x, b, y), h, wm)[p] == MixSeq(a, Butterflies(x, h, wm), b, Butterflies(y, h, wm))[p]
    {
      if p < h {
        UpperLowerLinear(a, x, b, y, h, wm, p);
      } else {
        UpperLowerLinear(a, x, b, y, h, wm, p - h);
      }
    }
  }

  /** Slicing a combination combines the slices. */
  lemma MixSeqSlices(a: real, x: seq<Complex>, b: real, y: seq<Complex>, n: nat)
    requires |x| == |y| && n <= |x|
    ensures MixSeq(a, x, b, y)[..n] == MixSeq(a, x[..n], b, y[..n])
    ensures MixSeq(a, x, b, y)[n..] == MixSeq(a, x[n..], b, y[n..])
  {
  }

  /** Concatenating combinations combines the concatenations. */
  lemma MixSeqConcat(a: real, x1: seq<Complex>, x2: seq<Complex>, b: real, y1: seq<Complex>, y2: seq<Complex>)
    requires |x1| == |y1| && |x2| == |y2|
    ensures MixSeq(a, x1, b, y1) + MixSeq(a, x2, b, y2) == MixSeq(a, x1 + x2, b, y1 + y2)
  {
  }

  /** One stage is linear in the vector. */
  lemma {:induction false} StagePassLinear(a: real, x: seq<Complex>, b: real, y: seq<Complex>, h: nat, wm: Complex)
    requires |x| == |y|
    ensures StagePass(MixSeq(a, x, b, y), h, wm) == MixSeq(a, StagePass(x, h, wm), b, StagePass(y, h, wm))
    decreases |x|
  {
    if h > 0 && |x| >= 2 * h {
      var z := MixSeq(a, x, b, y);
      MixSeqSlices(a, x, b, y, 2 * h);
      StagePassLinear(a, x[2 * h..], b, y[2 * h..], h, wm);
      ButterfliesLinear(a, x[..2 * h], b, y[..2 * h], h, wm);
      MixSeqConcat(a, Butterflies(x[..2 * h], h, wm), StagePass(x[2 * h..], h, wm),
                   b, Butterflies(y[..2 * h], h, wm), StagePass(y[2 * h..], h, wm));
    }
  }

  /** The first e stages are linear in the vector. */
  lemma {:induction false} AfterStagesLinear(a: real, x: seq<Complex>, b: real, y: seq<Complex>, l: nat, e: nat, twiddle: nat -> Complex)
    requires |x| == |y| == Pow2(l) && e <= l
    ensures AfterStages(MixSeq(a, x, b, y), l, e, twiddle) == MixSeq(a, AfterStages(x, l, e, twiddle), b, AfterStages(y, l, e, twiddle))
  {
    if e > 0 {
      AfterStagesLinear(a, x, b, y, l, e - 1, twiddle);
      StagePassLinear(a, AfterStages(x, l, e - 1, twiddle), b, AfterStages(y, l, e - 1, twiddle), Pow2(e - 1), twiddle(e));
    }
  }

  /** The bit-reversal permutation moves the combination as it moves each vector. */
  lemma BitReversedLinear(a: real, x: seq<Complex>, b: real, y: seq<Complex>)
    requires |x| == |y|
    ensures BitReversed(MixSeq(a, x, b, y)) == MixSeq(a, BitReversed(x), b, BitReversed(y))
  {
  }

  /** Zero-padding a combination pads each vector: the combination of zeros is zero. */
  lemma PaddedLinear(a: real, x: seq<Complex>, b: real, y: seq<Complex>)
    requires |x| == |y| > 0
    ensures Padded(MixSeq(a, x, b, y)) == MixSeq(a, Padded(x), b, Padded(y))
  {
    var z := MixSeq(a, x, b, y);
    forall i | 0 <= i < |Padded(z)|
      ensures Padded(z)[i] == MixSeq(a, Padded(x), b, Padded(y))[i]
    {
      if i < |x| {
        assert Padded(z)[..|x|][i] == z[i];
        assert Padded(x)[..|x|][i] == x[i];
        assert Padded(y)[..|y|][i] == y[i];
      }
    }
  }

  /**
   * `fft` is linear: for vectors of equal length and real coefficients a
   * and b, the transform of a x + b y is a fft(x) + b fft(y), whatever the
   * twiddle factors.
   */
  lemma FftOfLinear(a: real, x: seq<Complex>, b: real, y: seq<Complex>, twiddle: nat -> Complex)
    requires |x| == |y| > 0
    ensures FftOf(MixSeq(a, x, b, y), twiddle) == MixSeq(a, FftOf(x, twiddle), b, FftOf(y, twiddle))
  {
    var px, py := Padded(x), Padded(y);
    PaddedLinear(a, x, b, y);
    BitReversedLinear(a, px, b, py);
    var rx, ry := BitReversed(px), BitReversed(py);
    PowerOfTwoIsPow2(|rx|);
    AfterStagesLinear(a, rx, b, ry, FloorLog2(|rx|), FloorLog2(|rx|), twiddle);
  }
}
