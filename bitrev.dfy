/// The in-place bit-reversal permutation `bitReversalManipulation` of
/// include/dft.h: every index i is paired with the index j whose low
/// l = floor(log2 N) bits are those of i in reverse order, and the two
/// elements are swapped when j > i.
module BitReversal {
  import opened PowerOfTwo

  // ---------------------------------------------------------------------
  // Unsigned word operations used to build the reversed index.

  /** `n >> k`. */
  function Shr(n: nat, k: nat): nat
  {
    if k == 0 then n else Shr(n / 2, k - 1)
  }

  /** `a | b`, bit by bit. */
  function Or(a: nat, b: nat): nat
    decreases a + b
  {
    if a == 0 then b
    else if b == 0 then a
    else (if a % 2 == 1 || b % 2 == 1 then 1 else 0) + 2 * Or(a / 2, b / 2)
  }

  /** Or-ing a single bit into an even word adds it. */
  lemma OrLowBit(a: nat, b: nat)
    requires a % 2 == 0 && b <= 1
    ensures Or(a, b) == a + b
  {
    if a != 0 && b != 0 {
      assert Or(a / 2, 0) == a / 2;
    }
  }

  // ---------------------------------------------------------------------
  // Bit strings, least significant bit first.

  /** The low l bits of n, least significant first. */
  function LowBits(n: nat, l: nat): (bits: seq<bool>)
    ensures |bits| == l
  {
    if l == 0 then [] else [n % 2 == 1] + LowBits(n / 2, l - 1)
  }

  /** The number whose bits, least significant first, are `bits`. */
  function FromBits(bits: seq<bool>): nat
  {
    if |bits| == 0 then 0 else (if bits[0] then 1 else 0) + 2 * FromBits(bits[1..])
  }

  function Reverse<T>(s: seq<T>): (r: seq<T>)
    ensures |r| == |s|
  {
    seq(|s|, i requires 0 <= i < |s| => s[|s| - 1 - i])
  }

  /** Reading back the bits of an l-bit number gives the same bits. */
  lemma {:induction false} LowBitsOfFromBits(bits: seq<bool>)
    ensures LowBits(FromBits(bits), |bits|) == bits
  {
    if |bits| > 0 {
      LowBitsOfFromBits(bits[1..]);
      var n := FromBits(bits);
      assert n % 2 == 1 <==> bits[0];
      assert n / 2 == FromBits(bits[1..]);
      assert bits == [bits[0]] + bits[1..];
    }
  }

  /** Rebuilding an l-bit number from its low l bits gives the number. */
  lemma {:induction false} FromBitsOfLowBits(n: nat, l: nat)
    requires n < Pow2(l)
    ensures FromBits(LowBits(n, l)) == n
  {
    if l > 0 {
      FromBitsOfLowBits(n / 2, l - 1);
      assert LowBits(n, l)[1..] == LowBits(n / 2, l - 1);
    }
  }

  /** One more low bit appends bit k of n at the most significant end. */
  lemma {:induction false} LowBitsSnoc(n: nat, k: nat)
    ensures LowBits(n, k + 1) == LowBits(n, k) + [Shr(n, k) % 2 == 1]
  {
    if k > 0 {
      LowBitsSnoc(n / 2, k - 1);
    }
  }

  lemma ReverseReverse<T>(s: seq<T>)
    ensures Reverse(Reverse(s)) == s
  {
  }

  lemma ReverseSnoc<T>(s: seq<T>, x: T)
    ensures Reverse(s + [x]) == [x] + Reverse(s)
  {
  }

  // ---------------------------------------------------------------------
  // The reversed index.

  /**
   * The low l bits of n in reverse order (bit t of n becomes bit l-1-t),
   * built as the inner loop of the source builds it: one bit of n at a
   * time, shifted in from the least significant end.
   */
  function ReverseBits(n: nat, l: nat): (r: nat)
    ensures r < Pow2(l)
  {
    if l == 0 then 0 else 2 * ReverseBits(n, l - 1) + Shr(n, l - 1) % 2
  }

  /** The reversal read as a bit string: the low l bits of n, reversed. */
  lemma {:induction false} ReverseBitsAsBits(n: nat, l: nat)
    ensures ReverseBits(n, l) == FromBits(Reverse(LowBits(n, l)))
  {
    if l > 0 {
      var k := l - 1;
      ReverseBitsAsBits(n, k);
      var bit := Shr(n, k) % 2 == 1;
      LowBitsSnoc(n, k);
      ReverseSnoc(LowBits(n, k), bit);
      assert ([bit] + Reverse(LowBits(n, k)))[1..] == Reverse(LowBits(n, k));
    }
  }

  /** Reversing l bits twice restores every l-bit number. */
  lemma ReverseBitsInvolution(n: nat, l: nat)
    requires n < Pow2(l)
    ensures ReverseBits(ReverseBits(n, l), l) == n
  {
    var bits := LowBits(n, l);
    var r := ReverseBits(n, l);
    ReverseBitsAsBits(n, l);
    ReverseBitsAsBits(r, l);
    LowBitsOfFromBits(Reverse(bits));
    ReverseReverse(bits);
    FromBitsOfLowBits(n, l);
  }

  /**
   * The inner loop of `bitReversalManipulation`: for k = 0 .. l-1,
   * `j |= (i >> k) & 1; j <<= 1;`, and finally `j >>= 1`.
   */
  method ReversedIndex(i: nat, l: nat) returns (j: nat)
    ensures j == ReverseBits(i, l)
  {
    j := 0;
    var k := 0;
    while k < l
      invariant k <= l
      invariant j == 2 * ReverseBits(i, k)
    {
      var bit := Shr(i, k) % 2;
      OrLowBit(j, bit);
      j := Or(j, bit);
      j := j * 2;
      k := k + 1;
    }
    j := j / 2;
  }

  // ---------------------------------------------------------------------
  // The permutation as a whole.

  /**
   * The effect of the pass: with P = 2^floor(log2 N), an index k < P
   * receives the element at ReverseBits(k), and every k >= P (present only
   * when N is not a power of two) keeps its element.
   */
  function BitReversed<T>(s: seq<T>): (r: seq<T>)
    ensures |r| == |s|
  {
    var l := FloorLog2(|s|);
    seq(|s|, k requires 0 <= k < |s| =>
      if k < Pow2(l) then s[ReverseBits(k, l)] else s[k])
  }

  /**
   * `rev` pairs the indices below P: it maps every index below P, and
   * applied twice it gives back every index below P.  ReverseBits on l
   * bits is such a pairing for P = 2^l.
   */
  ghost predicate IsPairing(rev: nat -> nat, P: nat)
  {
    (forall i: nat :: rev(i) < P) && (forall k: nat :: k < P ==> rev(rev(k)) == k)
  }

  /** The reversed index on l bits, as a map. */
  function RevMap(l: nat): nat -> nat
  {
    (i: nat) => ReverseBits(i, l)
  }

  lemma RevMapIsPairing(l: nat)
    ensures IsPairing(RevMap(l), Pow2(l))
  {
    forall k: nat | k < Pow2(l)
      ensures RevMap(l)(RevMap(l)(k)) == k
    {
      ReverseBitsInvolution(k, l);
    }
  }

  /** One iteration i of the pass, j being the index paired with i: swap them when j > i. */
  function SwapStep<T>(t: seq<T>, i: nat, j: nat): (r: seq<T>)
    requires i < |t| && j < |t|
    ensures |r| == |t|
  {
    if j > i then t[i := t[j]][j := t[i]] else t
  }

  /**
   * The pass as the source runs it, for the index pairing `rev`: the state
   * after the iterations i = 0 .. n-1.
   */
  function SwapPass<T>(s: seq<T>, n: nat, rev: nat -> nat): (r: seq<T>)
    requires n <= |s| && forall i: nat :: i < n ==> rev(i) < |s|
    ensures |r| == |s|
  {
    if n == 0 then s else SwapStep(SwapPass(s, n - 1, rev), n - 1, rev(n - 1))
  }

  /** What SwapPass(s, n, rev) holds at index k, in closed form. */
  function SwappedAt<T>(s: seq<T>, n: nat, rev: nat -> nat, P: nat, k: nat): T
    requires IsPairing(rev, P) && P <= |s| && k < |s|
  {
    if k < P && (k < n || rev(k) < n) then s[rev(k)] else s[k]
  }

  /** Iteration n - 1 keeps the closed form, at one index k. */
  lemma SwapStepAt<T>(s: seq<T>, t: seq<T>, n: nat, rev: nat -> nat, P: nat, k: nat)
    requires IsPairing(rev, P) && P <= |s|
    requires 1 <= n <= |s| == |t| && k < |s|
    requires forall k' :: 0 <= k' < |s| ==> t[k'] == SwappedAt(s, n - 1, rev, P, k')
    ensures SwapStep(t, n - 1, rev(n - 1))[k] == SwappedAt(s, n, rev, P, k)
  {
    var i := n - 1;
    var j := rev(i);
    if j > i {
      assert SwapStep(t, i, j) == t[i := t[j]][j := t[i]];
      if k == i {
        assert t[j] == SwappedAt(s, i, rev, P, j);
      } else if k == j {
        assert t[i] == SwappedAt(s, i, rev, P, i);
      } else {
        assert t[k] == SwappedAt(s, i, rev, P, k);
      }
    } else {
      assert t[k] == SwappedAt(s, i, rev, P, k);
    }
  }

  lemma {:induction false} SwapPassClosedForm<T>(s: seq<T>, n: nat, rev: nat -> nat, P: nat)
    requires IsPairing(rev, P) && P <= |s| && n <= |s|
    ensures forall k :: 0 <= k < |s| ==> SwapPass(s, n, rev)[k] == SwappedAt(s, n, rev, P, k)
  {
    if n > 0 {
      SwapPassClosedForm(s, n - 1, rev, P);
      forall k | 0 <= k < |s|
        ensures SwapPass(s, n, rev)[k] == SwappedAt(s, n, rev, P, k)
      {
        SwapStepAt(s, SwapPass(s, n - 1, rev), n, rev, P, k);
      }
    }
  }

  /** Running the pass over every index yields the bit-reversed order. */
  lemma SwapPassIsBitReversed<T>(s: seq<T>)
    ensures forall i: nat :: i < |s| ==> RevMap(FloorLog2(|s|))(i) < |s|
    ensures SwapPass(s, |s|, RevMap(FloorLog2(|s|))) == BitReversed(s)
  {
    if |s| > 0 {
      var l := FloorLog2(|s|);
      var P := Pow2(l);
      RevMapIsPairing(l);
      SwapPassClosedForm(s, |s|, RevMap(l), P);
      forall k | 0 <= k < |s|
        ensures SwapPass(s, |s|, RevMap(l))[k] == BitReversed(s)[k]
      {
        assert SwapPass(s, |s|, RevMap(l))[k] == SwappedAt(s, |s|, RevMap(l), P, k);
      }
    }
  }

  /** Each step of the pass is a swap or nothing, so the elements are kept. */
  lemma {:induction false} SwapPassPermutes<T>(s: seq<T>, n: nat, rev: nat -> nat)
    requires n <= |s| && forall i: nat :: i < n ==> rev(i) < |s|
    ensures multiset(SwapPass(s, n, rev)) == multiset(s)
  {
    if n > 0 {
      SwapPassPermutes(s, n - 1, rev);
      SwapPassStepPermutes(s, n, rev);
    }
  }

  /** Iteration n - 1 keeps the elements of the state before it. */
  lemma SwapPassStepPermutes<T>(s: seq<T>, n: nat, rev: nat -> nat)
    requires 1 <= n <= |s| && forall i: nat :: i < n ==> rev(i) < |s|
    requires multiset(SwapPass(s, n - 1, rev)) == multiset(s)
    ensures multiset(SwapPass(s, n, rev)) == multiset(s)
  {
    SwapStepPermutes(SwapPass(s, n - 1, rev), n - 1, rev(n - 1));
  }

  /** A step swaps two elements or none. */
  lemma SwapStepPermutes<T>(t: seq<T>, i: nat, j: nat)
    requires i < |t| && j < |t|
    ensures multiset(SwapStep(t, i, j)) == multiset(t)
  {
    if j > i {
      var u := t[i := t[j]];
      assert multiset(u) == multiset(t) - multiset{t[i]} + multiset{t[j]};
      assert u[j] == t[j];
    }
  }

  /** The bit-reversed sequence is a permutation of the input. */
  lemma BitReversedPermutes<T>(s: seq<T>)
    ensures multiset(BitReversed(s)) == multiset(s)
  {
    SwapPassIsBitReversed(s);
    SwapPassPermutes(s, |s|, RevMap(FloorLog2(|s|)));
  }

  /** For a power-of-two length N = 2^l, the element at i moves to ReverseBits(i, l). */
  lemma BitReversedMovesToReversedIndex<T>(s: seq<T>, i: nat)
    requires IsPowerOfTwo(|s|) && i < |s|
    ensures ReverseBits(i, FloorLog2(|s|)) < |s|
    ensures BitReversed(s)[ReverseBits(i, FloorLog2(|s|))] == s[i]
  {
    PowerOfTwoIsPow2(|s|);
    ReverseBitsInvolution(i, FloorLog2(|s|));
  }

  /** Applying the permutation twice restores the original order (for every length). */
  lemma BitReversedTwice<T>(s: seq<T>)
    ensures BitReversed(BitReversed(s)) == s
  {
    var l := FloorLog2(|s|);
    forall k | 0 <= k < |s|
      ensures BitReversed(BitReversed(s))[k] == s[k]
    {
      if k < Pow2(l) {
        ReverseBitsInvolution(k, l);
      }
    }
  }

  /** `bitReversalManipulation(x)`: the in-place pass over the vector. */
  method BitReversalManipulation<T>(x: array<T>)
    modifies x
    ensures x[..] == BitReversed(old(x[..]))
    ensures multiset(x[..]) == multiset(old(x[..]))
  {
    ghost var s := x[..];
    var l := FloorLog2(x.Length);  // log2(N), rounded down
    SwapAll(x, l);
    SwapPassIsBitReversed(s);
    BitReversedPermutes(s);
  }

  /**
   * Step i of the loop of `bitReversalManipulation`: with j the l-bit
   * reversal of i, x[i] and x[j] are swapped when j > i.
   */
  method SwapWithReversed<T>(x: array<T>, l: nat, i: nat, ghost s: seq<T>)
    requires i < x.Length == |s| && Pow2(l) <= x.Length && IsPairing(RevMap(l), Pow2(l))
    requires x[..] == SwapPass(s, i, RevMap(l))
    modifies x
    ensures x[..] == SwapPass(s, i + 1, RevMap(l))
  {
    ghost var before := x[..];
    var j := ReversedIndex(i, l);
    assert j == RevMap(l)(i);
    if j > i {
      x[i], x[j] := x[j], x[i];
      assert x[..] == before[i := before[j]][j := before[i]];
    }
    assert x[..] == SwapStep(before, i, j);
  }

  /** The loop of `bitReversalManipulation` over i = 0 .. N-1, for l-bit indices. */
  method SwapAll<T>(x: array<T>, l: nat)
    requires x.Length > 0 ==> Pow2(l) <= x.Length
    modifies x
    ensures forall i: nat :: i < x.Length ==> RevMap(l)(i) < x.Length
    ensures x[..] == SwapPass(old(x[..]), x.Length, RevMap(l))
  {
    ghost var s := x[..];
    RevMapIsPairing(l);
    var N := x.Length;
    var i := 0;
    while i < N
      invariant i <= N
      invariant x[..] == SwapPass(s, i, RevMap(l))
    {
      SwapWithReversed(x, l, i, s);
      i := i + 1;
    }
  }

}
