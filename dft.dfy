/// The transform routines of include/dft.h, `fft` and `normalize`, acting
/// in place on a vector of complex values, each proved to leave the vector
/// as the functions of module Transform describe.
module Dft {
  import opened Types
  import opened PowerOfTwo
  import opened BitReversal
  import opened Transform

  /**
   * A `std::vector<Complex<T>>`: its elements live in an array that
   * `PushBack` replaces by a longer one.
   */
  class ComplexVector {
    var elems: array<Complex>

    /** The elements, in order. */
    function Contents(): seq<Complex>
      reads this, elems
    {
      elems[..]
    }

    /** A vector holding the given elements. */
    constructor (s: seq<Complex>)
      ensures Contents() == s
      ensures fresh(elems)
    {
      elems := new Complex[|s|](i requires 0 <= i < |s| => s[i]);
    }

    /** `push_back(c)`: c is appended after the existing elements. */
    method PushBack(c: Complex)
      modifies this
      ensures fresh(elems)
      ensures Contents() == old(Contents()) + [c]
    {
      var s := elems[..];
      elems := new Complex[|s| + 1](i requires 0 <= i < |s| + 1 => if i < |s| then s[i] else c);
    }
  }

  /**
   * The block `cur` after the butterflies of the pairs 0 .. j-1 of `block`:
   * those pairs hold their butterflies, the others their original values.
   */
  ghost predicate ButterfliesUpTo(cur: seq<Complex>, block: seq<Complex>, h: nat, wm: Complex, j: nat)
    requires |cur| == |block| == 2 * h && j <= h
  {
    && (forall q :: 0 <= q < j ==> cur[q] == Upper(block, h, wm, q))
    && (forall q :: 0 <= q < j ==> cur[q + h] == Lower(block, h, wm, q))
    && (forall q :: j <= q < h ==> cur[q] == block[q])
    && (forall p :: h + j <= p < 2 * h ==> cur[p] == block[p])
  }

  /**
   * Doing the butterfly of pair j of the block at k advances the progress
   * by one pair and leaves everything outside the block alone.
   */
  lemma ButterflyStep(s: seq<Complex>, block: seq<Complex>, k: nat, m: nat, h: nat, wm: Complex, j: nat)
    requires m == 2 * h && j < h && k + m <= |s| && |block| == m
    requires ButterfliesUpTo(s[k..k + m], block, h, wm, j)
    ensures s[k + j] == block[j] && s[k + j + h] == block[j + h]
    ensures ButterfliesUpTo(s[k + j := Upper(block, h, wm, j)][k + j + h := Lower(block, h, wm, j)][k..k + m], block, h, wm, j + 1)
    ensures s[k + j := Upper(block, h, wm, j)][k + j + h := Lower(block, h, wm, j)][..k] == s[..k]
    ensures s[k + j := Upper(block, h, wm, j)][k + j + h := Lower(block, h, wm, j)][k + m..] == s[k + m..]
  {
    var cur := s[k..k + m];
    assert cur[h + j] == block[h + j];
    var next := s[k + j := Upper(block, h, wm, j)][k + j + h := Lower(block, h, wm, j)];
    assert next[k..k + m] == cur[j := Upper(block, h, wm, j)][j + h := Lower(block, h, wm, j)];
  }

  /**
   * Butterfly j of the block at k, with w = wm^j: t = w * X[k + j + h] and
   * u = X[k + j]; X[k + j] becomes u + t and X[k + j + h] becomes u - t.
   */
  method PairButterfly(X: array<Complex>, k: nat, m: nat, h: nat, wm: Complex, j: nat, w: Complex, ghost block: seq<Complex>)
    requires m == 2 * h && j < h && k + m <= X.Length && |block| == m
    requires w == Power(wm, j)
    requires ButterfliesUpTo(X[k..k + m], block, h, wm, j)
    modifies X
    ensures ButterfliesUpTo(X[k..k + m], block, h, wm, j + 1)
    ensures X[..k] == old(X[..k])
    ensures X[k + m..] == old(X[k + m..])
  {
    ghost var before := X[..];
    ButterflyStep(before, block, k, m, h, wm, j);
    var t := w.Times(X[k + j + h]);
    var u := X[k + j];
    assert u.Plus(t) == Upper(block, h, wm, j) && u.Minus(t) == Lower(block, h, wm, j);
    X[k + j] := u.Plus(t);
    X[k + j + h] := u.Minus(t);
    assert X[..] == before[k + j := Upper(block, h, wm, j)][k + j + h := Lower(block, h, wm, j)];
  }

  /**
   * The butterflies of the block of m elements starting at k (m even, h =
   * m/2): for each j < h, with the running twiddle w = wm^j,
   * t = w * X[k + j + h] and u = X[k + j], X[k + j] becomes u + t and
   * X[k + j + h] becomes u - t.
   */
  method BlockButterflies(X: array<Complex>, k: nat, m: nat, wm: Complex)
    requires m % 2 == 0 && k + m <= X.Length
    modifies X
    ensures X[k..k + m] == Butterflies(old(X[k..k + m]), m / 2, wm)
    ensures X[..k] == old(X[..k])
    ensures X[k + m..] == old(X[k + m..])
  {
    var h := m / 2;
    assert m == 2 * h;
    ghost var block := X[k..k + m];
    var w := One;
    var j := 0;
    while j < h
      invariant j <= h
      invariant w == Power(wm, j)
      invariant ButterfliesUpTo(X[k..k + m], block, h, wm, j)
      invariant X[..k] == old(X[..k])
      invariant X[k + m..] == old(X[k + m..])
    {
      PairButterfly(X, k, m, h, wm, j, w, block);
      w := w.Times(wm);
      j := j + 1;
    }
    ButterfliesByPairs(X[k..k + m], block, h, wm);
  }

  /** A sequence is the concatenation of its three slices around a and b. */
  lemma {:induction false} SplitThree<T>(s: seq<T>, a: nat, b: nat)
    requires a <= b <= |s|
    ensures s == s[..a] + s[a..b] + s[b..]
  {
    assert s[..b] == s[..a] + s[a..b];
    assert s == s[..b] + s[b..];
  }

  /**
   * A vector made of a prefix `staged` and the rest of `orig`, once its
   * block k .. k+m is overwritten and nothing else, is `staged`, the new
   * block and the rest of `orig` after the block.
   */
  lemma Splice<T>(orig: seq<T>, before: seq<T>, after: seq<T>, staged: seq<T>, k: nat, m: nat)
    requires |before| == |orig| && |after| == |orig| && |staged| == k && k + m <= |orig|
    requires before == staged + orig[k..]
    requires after[..k] == before[..k]
    requires after[k + m..] == before[k + m..]
    ensures before[k..k + m] == orig[k..k + m]
    ensures after == staged + after[k..k + m] + orig[k + m..]
  {
    assert before[..k] == staged;
    assert before[k + m..] == orig[k + m..];
    SplitThree(after, k, k + m);
  }

  /** Replacing block k of a partly staged vector by its butterflies stages one more block. */
  lemma StageStep(orig: seq<Complex>, before: seq<Complex>, after: seq<Complex>, k: nat, m: nat, wm: Complex)
    requires |before| == |orig| && |after| == |orig|
    requires m >= 2 && m % 2 == 0 && Tiles(k, m) && k + m <= |orig|
    requires before == StagePass(orig[..k], m / 2, wm) + orig[k..]
    requires after[k..k + m] == Butterflies(before[k..k + m], m / 2, wm)
    requires after[..k] == before[..k]
    requires after[k + m..] == before[k + m..]
    ensures Tiles(k + m, m)
    ensures after == StagePass(orig[..k + m], m / 2, wm) + orig[k + m..]
  {
    var h := m / 2;
    StagePassExtend(orig, k, h, m, wm);
    Splice(orig, before, after, StagePass(orig[..k], h, wm), k, m);
  }

  /** The block starting at k fits in a vector of whole blocks when k is below its length. */
  lemma BlockFits(n: nat, k: nat, m: nat)
    requires k < n && Tiles(n - k, m)
    ensures k + m <= n && Tiles(n - (k + m), m)
  {
  }

  /**
   * Progress of a stage over `orig`: x holds the staged blocks before k,
   * k is a whole number of blocks, and the rest of `orig` is untouched.
   */
  ghost predicate StagedUpTo(x: seq<Complex>, orig: seq<Complex>, k: nat, m: nat, wm: Complex)
  {
    && k <= |orig| == |x| && m >= 2 && m % 2 == 0
    && Tiles(k, m) && Tiles(|orig| - k, m)
    && x == StagePass(orig[..k], m / 2, wm) + orig[k..]
  }

  /** Before the first block nothing is staged. */
  lemma StageStart(orig: seq<Complex>, m: nat, wm: Complex)
    requires m >= 2 && m % 2 == 0 && Tiles(|orig|, m)
    ensures StagedUpTo(orig, orig, 0, m, wm)
  {
    assert orig[..0] == [] && orig[0..] == orig;
  }

  /** Once k reaches the end, every block is staged. */
  lemma StageEnd(x: seq<Complex>, orig: seq<Complex>, k: nat, m: nat, wm: Complex)
    requires StagedUpTo(x, orig, k, m, wm) && k >= |orig|
    ensures x == StagePass(orig, m / 2, wm)
  {
    assert orig[..k] == orig;
  }

  /**
   * The butterflies of the block starting at k, when the blocks before it
   * are already staged: afterwards the blocks up to k + m are staged.
   */
  method StageBlock(X: array<Complex>, k: nat, m: nat, wm: Complex, ghost orig: seq<Complex>)
    requires k < X.Length && StagedUpTo(X[..], orig, k, m, wm)
    modifies X
    ensures StagedUpTo(X[..], orig, k + m, m, wm)
  {
    ghost var before := X[..];
    BlockFits(X.Length, k, m);
    BlockButterflies(X, k, m, wm);
    StageStep(orig, before, X[..], k, m, wm);
  }

  /**
   * One stage of `fft` for the block size m: the butterflies of every
   * block, for the block starts k = 0, m, 2m, ... below N.
   */
  method Stage(X: array<Complex>, m: nat, wm: Complex)
    requires m >= 2 && m % 2 == 0 && Tiles(X.Length, m)
    modifies X
    ensures X[..] == StagePass(old(X[..]), m / 2, wm)
  {
    ghost var orig := X[..];
    StageStart(orig, m, wm);
    var k := 0;
    while k < X.Length
      invariant k <= X.Length && StagedUpTo(X[..], orig, k, m, wm)
    {
      StageBlock(X, k, m, wm, orig);
      k := k + m;
    }
    StageEnd(X[..], orig, k, m, wm);
  }

  /**
   * The padding step of `fft`: a vector whose length is not a power of two
   * is extended with `{0, 0}` elements up to `paddingUpPower2` of its length.
   */
  method Pad(X: ComplexVector, W: nat)
    requires W >= 1 && 0 < X.elems.Length <= Pow2(W - 1)
    modifies X
    ensures X.elems == old(X.elems) || fresh(X.elems)
    ensures X.Contents() == Padded(old(X.Contents()))
  {
    ghost var x := X.Contents();
    var oldN := X.elems.Length;
    var isPow := IsPower2(W, oldN);
    if !isPow {
      var len := PaddingUpPower2(W, oldN);
      var i := X.elems.Length;
      while i < len
        invariant oldN <= i <= len
        invariant X.elems.Length == i
        invariant X.Contents() == x + Zeros(i - oldN)
        invariant X.elems == old(X.elems) || fresh(X.elems)
      {
        X.PushBack(Zero);
        assert Zeros(i + 1 - oldN) == Zeros(i - oldN) + [Zero];
        i := i + 1;
      }
    }
  }

  /** Stage s, block size m = 2^s, takes the vector after s - 1 stages to the vector after s stages. */
  method NthStage(X: array<Complex>, l: nat, s: nat, twiddle: nat -> Complex, ghost y: seq<Complex>)
    requires |y| == Pow2(l) && 1 <= s <= l
    requires X[..] == AfterStages(y, l, s - 1, twiddle)
    modifies X
    ensures X[..] == AfterStages(y, l, s, twiddle)
  {
    ghost var before := X[..];
    StageBlockSize(l, s);
    var m := Pow2(s);
    Stage(X, m, twiddle(s));
    NextStage(y, l, s, twiddle, before, X[..]);
  }

  /**
   * The stage loop of `fft`: for s = 1 .. l, with m = 2^s, the stage of
   * block size m and twiddle factor twiddle(s) (in the C++ code,
   * {cos(-2 pi / m), sin(-2 pi / m)}).
   */
  method Stages(X: array<Complex>, l: nat, twiddle: nat -> Complex)
    requires X.Length == Pow2(l)
    modifies X
    ensures X[..] == AfterStages(old(X[..]), l, l, twiddle)
  {
    ghost var y := X[..];
    for s := 1 to l + 1
      invariant X[..] == AfterStages(y, l, s - 1, twiddle)
    {
      NthStage(X, l, s, twiddle, y);
    }
  }

  /**
   * `fft(X)`: zero-pads X to the next power of two (W is the width of
   * `size_t` in bits), reorders it by bit reversal, then runs the stages
   * s = 1 .. log2(N).
   */
  method Fft(X: ComplexVector, W: nat, twiddle: nat -> Complex)
    requires W >= 1 && 0 < X.elems.Length <= Pow2(W - 1)
    modifies X, X.elems
    ensures X.Contents() == FftOf(old(X.Contents()), twiddle)
  {
    Pad(X, W);
    var N := X.elems.Length;
    BitReversalManipulation(X.elems);
    PowerOfTwoIsPow2(N);
    var l := FloorLog2(N);
    Stages(X.elems, l, twiddle);
  }

  /** `normalize(X)`: every element divided by N/2, computed in integer arithmetic. */
  method Normalize(X: ComplexVector)
    requires X.elems.Length != 1
    modifies X.elems
    ensures X.Contents() == Normalized(old(X.Contents()))
  {
    var N := X.elems.Length;
    var N2 := N / 2;
    var k := 0;
    while k < N
      invariant k <= N
      invariant forall i :: 0 <= i < k ==> X.elems[i] == old(X.elems[i]).DivBy(N2 as real)
      invariant forall i :: k <= i < N ==> X.elems[i] == old(X.elems[i])
    {
      X.elems[k] := X.elems[k].DivBy(N2 as real);
      k := k + 1;
    }
  }
}
