/// What `fft` and `normalize` of include/dft.h compute, as functions on
/// sequences: zero-padding to a power of two, the bit-reversal pass, and
/// log2(N) stages of radix-2 butterflies whose twiddle factor is left
/// abstract (one value `twiddle(s)` per stage s), followed by the lemmas
/// that hold whatever the twiddle values are.
module Transform {
  import opened Types
  import opened PowerOfTwo
  import opened BitReversal

  // ---------------------------------------------------------------------
  // Auxiliary sequence functions.

  /** n copies of `Complex<T>{0, 0}`. */
  function Zeros(n: nat): (r: seq<Complex>)
    ensures |r| == n
  {
    seq(n, _ => Zero)
  }

  /** The sum of a sequence of complex values. */
  function Sum(s: seq<Complex>): Complex
  {
    if |s| == 0 then Zero else s[0].Plus(Sum(s[1..]))
  }

  /** The twiddle `w` after n updates `w *= Wm`, starting from `{1, 0}`. */
  function Power(wm: Complex, n: nat): Complex
  {
    if n == 0 then One else Power(wm, n - 1).Times(wm)
  }

  /** n is a whole number of blocks of m elements. */
  predicate Tiles(n: nat, m: nat)
  {
    n == 0 || (m >= 1 && n >= m && Tiles(n - m, m))
  }

  // ---------------------------------------------------------------------
  // The steps of the transform.

  /**
   * The vector after the padding step of `fft`: unchanged when its length
   * is a power of two, otherwise extended with zeros up to the next one.
   */
  function Padded(x: seq<Complex>): (r: seq<Complex>)
    requires |x| > 0
    ensures |r| == CeilPow2(|x|) && IsPowerOfTwo(|r|)
    ensures r[..|x|] == x
    ensures forall i :: |x| <= i < |r| ==> r[i] == Zero
    ensures IsPowerOfTwo(|x|) ==> r == x
  {
    if IsPowerOfTwo(|x|) then
      CeilPow2OfPowerOfTwo(|x|);
      x
    else
      x + Zeros(CeilPow2(|x|) - |x|)
  }

  /** Butterfly j of a block of 2h elements: u + t, with u = b[j], t = wm^j * b[j + h]. */
  function Upper(b: seq<Complex>, h: nat, wm: Complex, j: nat): Complex
    requires |b| == 2 * h && j < h
  {
    b[j].Plus(Power(wm, j).Times(b[j + h]))
  }

  /** Butterfly j of a block of 2h elements: u - t, with u = b[j], t = wm^j * b[j + h]. */
  function Lower(b: seq<Complex>, h: nat, wm: Complex, j: nat): Complex
    requires |b| == 2 * h && j < h
  {
    b[j].Minus(Power(wm, j).Times(b[j + h]))
  }

  /**
   * One block of 2h elements after its h butterflies: butterfly j writes
   * u + t to position j and u - t to position j + h.
   */
  function Butterflies(b: seq<Complex>, h: nat, wm: Complex): (r: seq<Complex>)
    requires |b| == 2 * h
    ensures |r| == 2 * h
  {
    seq(2 * h, p requires 0 <= p < 2 * h =>
      if p < h then Upper(b, h, wm, p) else Lower(b, h, wm, p - h))
  }

  /** The first butterfly uses w = {1, 0}: the block's head becomes b[0] + b[h]. */
  lemma ButterflyHead(b: seq<Complex>, h: nat, wm: Complex)
    requires |b| == 2 * h && h >= 1
    ensures Butterflies(b, h, wm)[0] == b[0].Plus(b[h])
  {
    assert Butterflies(b, h, wm)[0] == Upper(b, h, wm, 0);
    OneIsTimesIdentity(b[h]);
  }

  /** A block holds the butterflies' output exactly when each pair j, j + h holds butterfly j's two results. */
  lemma ButterfliesByPairs(out: seq<Complex>, b: seq<Complex>, h: nat, wm: Complex)
    requires |out| == |b| == 2 * h
    ensures out == Butterflies(b, h, wm) <==>
      (forall j :: 0 <= j < h ==> out[j] == Upper(b, h, wm, j)) &&
      (forall j :: 0 <= j < h ==> out[j + h] == Lower(b, h, wm, j))
  {
    if (forall j :: 0 <= j < h ==> out[j] == Upper(b, h, wm, j)) &&
       (forall j :: 0 <= j < h ==> out[j + h] == Lower(b, h, wm, j)) {
      forall p | 0 <= p < 2 * h
        ensures out[p] == Butterflies(b, h, wm)[p]
      {
        if p >= h {
          assert out[(p - h) + h] == Lower(b, h, wm, p - h);
        }
      }
    }
  }

  /**
   * One stage: consecutive blocks of 2h elements, each through its
   * butterflies.  A tail shorter than a block (which a power-of-two length
   * never leaves) is kept as it is.
   */
  function StagePass(x: seq<Complex>, h: nat, wm: Complex): (r: seq<Complex>)
    ensures |r| == |x|
    decreases |x|
  {
    if h == 0 || |x| < 2 * h then x
    else Butterflies(x[..2 * h], h, wm) + StagePass(x[2 * h..], h, wm)
  }

  /**
   * The vector of length 2^l after stages s = 1 .. e, where stage s works
   * on blocks of m = 2^s elements with the twiddle factor twiddle(s).
   */
  function AfterStages(y: seq<Complex>, l: nat, e: nat, twiddle: nat -> Complex): (r: seq<Complex>)
    requires |y| == Pow2(l) && e <= l
    ensures |r| == |y|
    decreases e
  {
    if e == 0 then y
    else
      StagePass(AfterStages(y, l, e - 1, twiddle), Pow2(e - 1), twiddle(e))
  }

  /** The vector after `fft`: padded, permuted, then taken through all log2(N) stages. */
  function FftOf(x: seq<Complex>, twiddle: nat -> Complex): (r: seq<Complex>)
    requires |x| > 0
    ensures |r| == CeilPow2(|x|)
  {
    var y := BitReversed(Padded(x));
    PowerOfTwoIsPow2(|y|);
    AfterStages(y, FloorLog2(|y|), FloorLog2(|y|), twiddle)
  }

  /** The vector after `normalize`: every element divided by N/2 (integer division). */
  function Normalized(x: seq<Complex>): (r: seq<Complex>)
    requires |x| != 1
    ensures |r| == |x|
  {
    seq(|x|, k requires 0 <= k < |x| => x[k].DivBy((|x| / 2) as real))
  }

  // ---------------------------------------------------------------------
  // Whole blocks.

  lemma {:induction false} TilesAdd(a: nat, b: nat, m: nat)
    requires Tiles(a, m) && Tiles(b, m)
    ensures Tiles(a + b, m)
    decreases a
  {
    if a > 0 {
      TilesAdd(a - m, b, m);
      assert a + b - m == (a - m) + b;
    }
  }

  /** A power of two is a whole number of blocks of any smaller power of two. */
  lemma {:induction false} TilesPow2(l: nat, e: nat)
    requires e <= l
    ensures Tiles(Pow2(l), Pow2(e))
    decreases l
  {
    if e == l {
      assert Tiles(0, Pow2(e));
    } else {
      TilesPow2(l - 1, e);
      TilesAdd(Pow2(l - 1), Pow2(l - 1), Pow2(e));
    }
  }

  /** The block size m = 2^s of stage s (1 <= s <= l) is even and tiles a vector of length 2^l. */
  lemma StageBlockSize(l: nat, s: nat)
    requires 1 <= s <= l
    ensures Pow2(s) >= 2 && Pow2(s) % 2 == 0 && Pow2(s) / 2 == Pow2(s - 1) && Tiles(Pow2(l), Pow2(s))
  {
    TilesPow2(l, s);
  }

  /** Stage s applied to the vector after stages 1 .. s-1 gives the vector after stages 1 .. s. */
  lemma NextStage(y: seq<Complex>, l: nat, s: nat, twiddle: nat -> Complex, before: seq<Complex>, after: seq<Complex>)
    requires |y| == Pow2(l) && 1 <= s <= l
    requires before == AfterStages(y, l, s - 1, twiddle)
    requires after == StagePass(before, Pow2(s) / 2, twiddle(s))
    ensures after == AfterStages(y, l, s, twiddle)
  {
    StageBlockSize(l, s);
  }

  /** Blocks of 2h elements split into blocks of h elements. */
  lemma {:induction false} TilesHalf(n: nat, h: nat)
    requires Tiles(n, 2 * h)
    ensures Tiles(n, h)
    decreases n
  {
    if n > 0 {
      TilesHalf(n - 2 * h, h);
      assert Tiles(n - h, h);
    }
  }

  /** Two block-aligned offsets lie at least one block apart. */
  lemma {:induction false} TilesApart(k1: nat, k2: nat, m: nat)
    requires Tiles(k1, m) && Tiles(k2, m) && k1 < k2
    ensures k1 + m <= k2
    decreases k1
  {
    if k1 > 0 {
      TilesApart(k1 - m, k2 - m, m);
    }
  }

  /** Every index p of a vector of whole blocks lies in some block, starting at k. */
  lemma {:induction false} BlockOf(n: nat, m: nat, p: nat) returns (k: nat)
    requires Tiles(n, m) && p < n
    ensures Tiles(k, m) && k <= p < k + m <= n
    decreases n
  {
    if p < n - m {
      k := BlockOf(n - m, m, p);
    } else {
      k := n - m;
    }
  }

  /** A stage acts on each block separately. */
  lemma {:induction false} StagePassConcat(a: seq<Complex>, b: seq<Complex>, h: nat, wm: Complex)
    requires Tiles(|a|, 2 * h) && Tiles(|b|, 2 * h)
    ensures Tiles(|a + b|, 2 * h)
    ensures StagePass(a + b, h, wm) == StagePass(a, h, wm) + StagePass(b, h, wm)
    decreases |a|
  {
    TilesAdd(|a|, |b|, 2 * h);
    if |a| == 0 {
      assert a + b == b;
    } else {
      var a' := a[2 * h..];
      var B := Butterflies(a[..2 * h], h, wm);
      assert Tiles(|a'|, 2 * h);
      TilesAdd(|a'|, |b|, 2 * h);
      assert StagePass(a + b, h, wm) == B + StagePass(a' + b, h, wm) by {
        assert (a + b)[..2 * h] == a[..2 * h];
        assert (a + b)[2 * h..] == a' + b;
      }
      StagePassConcat(a', b, h, wm);
      assert B + (StagePass(a', h, wm) + StagePass(b, h, wm))
          == (B + StagePass(a', h, wm)) + StagePass(b, h, wm);
    }
  }

  /** Running a stage over one more block of m = 2h elements extends its output by that block's butterflies. */
  lemma StagePassExtend(x: seq<Complex>, k: nat, h: nat, m: nat, wm: Complex)
    requires m == 2 * h && Tiles(k, m) && k + m <= |x|
    ensures Tiles(k + m, m)
    ensures StagePass(x[..k + m], h, wm) == StagePass(x[..k], h, wm) + Butterflies(x[k..k + m], h, wm)
  {
    var block := x[k..k + m];
    assert Tiles(0, m);
    if h == 0 {
      assert x[..k + m] == x[..k];
      assert StagePass(block, h, wm) == [];
    } else {
      assert Tiles(m, m);
      assert x[..k + m] == x[..k] + block;
      StagePassConcat(x[..k], block, h, wm);
      assert block[m..] == [];
      assert block[..m] == block;
      assert StagePass(block, h, wm) == Butterflies(block, h, wm) + StagePass(block[m..], h, wm);
    }
  }

  // ---------------------------------------------------------------------
  // Sums.

  lemma {:induction false} SumConcat(a: seq<Complex>, b: seq<Complex>)
    ensures Sum(a + b) == Sum(a).Plus(Sum(b))
    decreases |a|
  {
    if |a| == 0 {
      assert a + b == b;
    } else {
      SumConcat(a[1..], b);
      assert (a + b)[1..] == a[1..] + b;
    }
  }

  lemma {:induction false} SumZeros(n: nat)
    ensures Sum(Zeros(n)) == Zero
  {
    if n > 0 {
      SumZeros(n - 1);
      assert Zeros(n)[1..] == Zeros(n - 1);
    }
  }

  /** Taking out the element at i leaves the rest of the sum. */
  lemma SumRemove(b: seq<Complex>, i: nat)
    requires i < |b|
    ensures Sum(b) == b[i].Plus(Sum(b[..i] + b[i + 1..]))
  {
    assert b == b[..i] + b[i..];
    SumConcat(b[..i], b[i..]);
    assert b[i..][1..] == b[i + 1..];
    SumConcat(b[..i], b[i + 1..]);
  }

  lemma MultisetHead<T>(a: seq<T>)
    requires |a| > 0
    ensures multiset(a) == multiset(a[1..]) + multiset{a[0]}
  {
    assert a == [a[0]] + a[1..];
  }

  lemma MultisetCancel<T>(p: multiset<T>, q: multiset<T>, x: T)
    requires p + multiset{x} == q + multiset{x}
    ensures p == q
  {
    assert p == p + multiset{x} - multiset{x};
    assert q == q + multiset{x} - multiset{x};
  }

  /** An element of the multiset of b sits at some index of b. */
  lemma IndexOf<T>(b: seq<T>, x: T) returns (i: nat)
    requires x in multiset(b)
    ensures i < |b| && b[i] == x
  {
    i :| 0 <= i < |b| && b[i] == x;
  }

  /** Taking out the element at i takes one copy of it out of the multiset. */
  lemma MultisetRemove<T>(b: seq<T>, i: nat)
    requires i < |b|
    ensures multiset(b) == multiset(b[..i] + b[i + 1..]) + multiset{b[i]}
  {
    assert b == b[..i] + b[i..];
    assert b[i..] == [b[i]] + b[i + 1..];
  }

  /** Reordering the elements does not change their sum. */
  lemma {:induction false} SumOfPermutation(a: seq<Complex>, b: seq<Complex>)
    requires multiset(a) == multiset(b)
    ensures Sum(a) == Sum(b)
    decreases |a|
  {
    if |a| == 0 {
      assert |b| == |multiset(b)| == 0;
    } else {
      var i := MatchFirst(a, b);
      SumOfPermutation(a[1..], b[..i] + b[i + 1..]);
      SumRemove(b, i);
    }
  }

  /** The first element of a has a copy at some i in b, and the rests are permutations. */
  lemma MatchFirst<T>(a: seq<T>, b: seq<T>) returns (i: nat)
    requires |a| > 0 && multiset(a) == multiset(b)
    ensures i < |b| && b[i] == a[0]
    ensures multiset(a[1..]) == multiset(b[..i] + b[i + 1..])
  {
    i := IndexOf(b, a[0]);
    MultisetRemove(b, i);
    MultisetHead(a);
    MultisetCancel(multiset(a[1..]), multiset(b[..i] + b[i + 1..]), a[0]);
  }

  /** Padding adds only zeros, so it keeps the sum. */
  lemma SumOfPadded(x: seq<Complex>)
    requires |x| > 0
    ensures Sum(Padded(x)) == Sum(x)
  {
    if !IsPowerOfTwo(|x|) {
      SumConcat(x, Zeros(CeilPow2(|x|) - |x|));
      SumZeros(CeilPow2(|x|) - |x|);
    }
  }

  // ---------------------------------------------------------------------
  // The first element of every block is the sum of the block's inputs.

  /** The first element of each block of m elements. */
  function Heads(x: seq<Complex>, m: nat): seq<Complex>
    requires Tiles(|x|, m)
    decreases |x|
  {
    if |x| == 0 then [] else [x[0]] + Heads(x[m..], m)
  }

  /** The sum of each block of m elements. */
  function BlockSums(x: seq<Complex>, m: nat): seq<Complex>
    requires Tiles(|x|, m)
    decreases |x|
  {
    if |x| == 0 then [] else [Sum(x[..m])] + BlockSums(x[m..], m)
  }

  /** Sums of consecutive pairs: [v0 + v1, v2 + v3, ...]. */
  function PairSums(v: seq<Complex>): seq<Complex>
    decreases |v|
  {
    if |v| < 2 then [] else [v[0].Plus(v[1])] + PairSums(v[2..])
  }

  /** With one-element blocks, every head is its block's sum. */
  lemma {:induction false} HeadsOfUnitBlocks(y: seq<Complex>)
    requires Tiles(|y|, 1)
    ensures Heads(y, 1) == BlockSums(y, 1)
    decreases |y|
  {
    if |y| > 0 {
      HeadsOfUnitBlocks(y[1..]);
      assert Sum(y[..1]) == y[0].Plus(Sum(y[..1][1..]));
    }
  }

  /**
   * A stage adds the two half-block heads: the butterfly at j = 0 uses
   * w = {1, 0}, so it writes u + t = b[0] + b[h] to the head of the block.
   */
  lemma {:induction false} HeadsOfStage(x: seq<Complex>, h: nat, wm: Complex)
    requires Tiles(|x|, 2 * h)
    ensures Tiles(|x|, h)
    ensures Heads(StagePass(x, h, wm), 2 * h) == PairSums(Heads(x, h))
    decreases |x|
  {
    TilesHalf(|x|, h);
    if |x| > 0 {
      HeadsOfStage(x[2 * h..], h, wm);
      HeadOfStageBlock(x, h, wm);
      HeadsTwoSteps(x, h);
      PairSumsCons(x[0], x[h], Heads(x[2 * h..], h));
    }
  }

  /** The head of a staged vector is its first block's b[0] + b[h], then the rest. */
  lemma HeadOfStageBlock(x: seq<Complex>, h: nat, wm: Complex)
    requires h >= 1 && 2 * h <= |x| && Tiles(|x| - 2 * h, 2 * h)
    ensures Tiles(|x|, 2 * h)
    ensures Heads(StagePass(x, h, wm), 2 * h) == [x[0].Plus(x[h])] + Heads(StagePass(x[2 * h..], h, wm), 2 * h)
  {
    var B := Butterflies(x[..2 * h], h, wm);
    var rest := StagePass(x[2 * h..], h, wm);
    assert (B + rest)[2 * h..] == rest;
    ButterflyHead(x[..2 * h], h, wm);
  }

  /** The first two heads for blocks of h, then the rest. */
  lemma HeadsTwoSteps(x: seq<Complex>, h: nat)
    requires h >= 1 && 2 * h <= |x| && Tiles(|x|, h) && Tiles(|x| - 2 * h, h)
    ensures Heads(x, h) == [x[0], x[h]] + Heads(x[2 * h..], h)
  {
    assert x[h..][h..] == x[2 * h..];
  }

  /** A block's sum is the sum of its two halves' sums. */
  lemma {:induction false} BlockSumsOfPairs(y: seq<Complex>, h: nat)
    requires Tiles(|y|, 2 * h)
    ensures Tiles(|y|, h)
    ensures BlockSums(y, 2 * h) == PairSums(BlockSums(y, h))
    decreases |y|
  {
    TilesHalf(|y|, h);
    if |y| > 0 {
      BlockSumsOfPairs(y[2 * h..], h);
      SumOfHalves(y, h);
      BlockSumsTwoSteps(y, h);
      PairSumsCons(Sum(y[..h]), Sum(y[h..2 * h]), BlockSums(y[2 * h..], h));
    }
  }

  /** The sum of a block of 2h is the sum of its two halves. */
  lemma SumOfHalves(y: seq<Complex>, h: nat)
    requires 2 * h <= |y|
    ensures Sum(y[..2 * h]) == Sum(y[..h]).Plus(Sum(y[h..2 * h]))
  {
    assert y[..2 * h] == y[..h] + y[h..2 * h];
    SumConcat(y[..h], y[h..2 * h]);
  }

  /** The first two blocks of h, then the rest. */
  lemma BlockSumsTwoSteps(y: seq<Complex>, h: nat)
    requires h >= 1 && 2 * h <= |y| && Tiles(|y|, h) && Tiles(|y| - 2 * h, h)
    ensures BlockSums(y, h) == [Sum(y[..h]), Sum(y[h..2 * h])] + BlockSums(y[2 * h..], h)
  {
    assert y[h..][..h] == y[h..2 * h];
    assert y[h..][h..] == y[2 * h..];
  }

  lemma PairSumsCons(a: Complex, b: Complex, v: seq<Complex>)
    ensures PairSums([a, b] + v) == [a.Plus(b)] + PairSums(v)
  {
    assert ([a, b] + v)[2..] == v;
  }

  /** After e stages, the head of every block of 2^e elements is the block's input sum. */
  lemma {:induction false} HeadsAreBlockSums(y: seq<Complex>, l: nat, e: nat, twiddle: nat -> Complex)
    requires |y| == Pow2(l) && e <= l
    ensures Tiles(|y|, Pow2(e))
    ensures Heads(AfterStages(y, l, e, twiddle), Pow2(e)) == BlockSums(y, Pow2(e))
  {
    TilesPow2(l, e);
    if e == 0 {
      HeadsOfUnitBlocks(y);
    } else {
      HeadsAreBlockSums(y, l, e - 1, twiddle);
      HeadsOfStage(AfterStages(y, l, e - 1, twiddle), Pow2(e - 1), twiddle(e));
      BlockSumsOfPairs(y, Pow2(e - 1));
    }
  }

  /** After all l stages on 2^l elements, the first element is the sum of them all. */
  lemma AllStagesFirstIsSum(y: seq<Complex>, l: nat, twiddle: nat -> Complex)
    requires |y| == Pow2(l)
    ensures AfterStages(y, l, l, twiddle)[0] == Sum(y)
  {
    var X := AfterStages(y, l, l, twiddle);
    assert Tiles(0, |y|);
    assert Heads(X, |y|) == [X[0]] by {
      assert X[|y|..] == [];
    }
    assert BlockSums(y, |y|) == [Sum(y)] by {
      assert y[..|y|] == y;
      assert y[|y|..] == [];
    }
    HeadsAreBlockSums(y, l, l, twiddle);
  }

  // ---------------------------------------------------------------------
  // Properties of the whole transform, for every choice of twiddle factors.

  /**
   * The first output is the sum of the inputs: `w` restarts at {1, 0} in
   * every block, so X[0] accumulates every (padded, permuted) element.
   */
  lemma FftFirstIsSum(x: seq<Complex>, twiddle: nat -> Complex)
    requires |x| > 0
    ensures FftOf(x, twiddle)[0] == Sum(Padded(x)) == Sum(x)
  {
    var y := BitReversed(Padded(x));
    PowerOfTwoIsPow2(|y|);
    AllStagesFirstIsSum(y, FloorLog2(|y|), twiddle);
    BitReversedPermutes(Padded(x));
    SumOfPermutation(y, Padded(x));
    SumOfPadded(x);
  }

  /** A one-element vector is left as it is: it needs no padding and no stage runs. */
  lemma FftOfSingleton(c: Complex, twiddle: nat -> Complex)
    ensures FftOf([c], twiddle) == [c]
  {
    assert IsPowerOfTwo(1);
    assert FloorLog2(1) == 0;
    assert BitReversed([c])[0] == c;
  }

  /** No element is appended to a vector whose length is a power of two. */
  lemma FftKeepsPowerOfTwoLength(x: seq<Complex>, twiddle: nat -> Complex)
    requires |x| > 0 && IsPowerOfTwo(|x|)
    ensures |FftOf(x, twiddle)| == |x|
  {
    CeilPow2OfPowerOfTwo(|x|);
  }

  // ---------------------------------------------------------------------
  // The butterflies of one stage write every index exactly once.

  /**
   * The butterflies (block start k, offset j) of a stage over n elements in
   * blocks of 2h that write index p: the pair k + j, k + j + h.  The set
   * ranges over the iteration space of the two inner loops of `fft`
   * (include/dft.h:92-95): block starts k = 0, m, 2m, ... below N, which
   * `Tiles(k, 2 * h)` with m = 2h describes, and offsets j < m/2.
   */
  ghost function Writers(n: nat, h: nat, p: nat): set<(nat, nat)>
  {
    set k: nat, j: nat | k < n && Tiles(k, 2 * h) && j < h && (p == k + j || p == k + j + h) :: (k, j)
  }

  /** Both indices of a butterfly lie inside the vector. */
  lemma ButterflyIndicesInRange(n: nat, h: nat, k: nat, j: nat)
    requires Tiles(n, 2 * h) && Tiles(k, 2 * h) && k < n && j < h
    ensures k + j < k + j + h < n
  {
    TilesApart(k, n, 2 * h);
  }

  /** Every index of the vector is written by exactly one butterfly per stage. */
  lemma ButterflyWritesEachIndexOnce(n: nat, h: nat, p: nat)
    requires Tiles(n, 2 * h) && p < n
    ensures |Writers(n, h, p)| == 1
  {
    var k := BlockOf(n, 2 * h, p);
    var j := if p - k < h then p - k else p - k - h;
    assert (k, j) in Writers(n, h, p);
    forall w | w in Writers(n, h, p)
      ensures w == (k, j)
    {
      var (k', j') := w;
      if k' < k {
        TilesApart(k', k, 2 * h);
      } else if k < k' {
        TilesApart(k, k', 2 * h);
      }
    }
    assert Writers(n, h, p) == {(k, j)};
  }

  // ---------------------------------------------------------------------
  // Normalization.

  /** Scaling back by N/2 recovers the input of `normalize`. */
  lemma NormalizedUndoneByScale(x: seq<Complex>, k: nat)
    requires |x| != 1 && k < |x|
    ensures Normalized(x)[k].Scale((|x| / 2) as real) == x[k]
  {
    DivByUndoneByScale(x[k], (|x| / 2) as real);
  }

  /** Normalizing twice divides by (N/2)^2. */
  lemma NormalizedTwice(x: seq<Complex>, k: nat)
    requires |x| != 1 && k < |x|
    ensures Normalized(Normalized(x))[k] == x[k].DivBy(((|x| / 2) * (|x| / 2)) as real)
  {
    var d := (|x| / 2) as real;
    assert d * d == ((|x| / 2) * (|x| / 2)) as real;
    assert x[k].re / d / d == x[k].re / (d * d);
    assert x[k].im / d / d == x[k].im / (d * d);
  }
}
