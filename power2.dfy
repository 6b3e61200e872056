/// Power-of-two utilities on a `size_t` word of `W` bits, as used by the
/// transform to decide whether, and how far, to zero-pad its input
/// (include/complex.h, `isPower2` and `paddingUpPower2`).
module PowerOfTwo {

  /** 2^e, i.e. `(size_t)1 << e` whenever e is below the word width. */
  function Pow2(e: nat): (r: nat)
    ensures r >= 1
  {
    if e == 0 then 1 else 2 * Pow2(e - 1)
  }

  /** n is 2^e for some e (the value 0 is not). */
  predicate IsPowerOfTwo(n: nat)
  {
    n == 1 || (n >= 2 && n % 2 == 0 && IsPowerOfTwo(n / 2))
  }

  /** Number of set bits of n. */
  function PopCount(n: nat): nat
  {
    if n == 0 then 0 else n % 2 + PopCount(n / 2)
  }

  /** floor(log2 n), taken as 0 for n <= 1. */
  function FloorLog2(n: nat): (r: nat)
    ensures n >= 1 ==> Pow2(r) <= n < 2 * Pow2(r)
  {
    if n <= 1 then 0 else 1 + FloorLog2(n / 2)
  }

  /** ceil(log2 n), taken as 0 for n <= 1. */
  function CeilLog2(n: nat): (r: nat)
    ensures n >= 2 ==> r >= 1 && Pow2(r - 1) < n <= Pow2(r)
  {
    if n <= 1 then 0 else FloorLog2(n - 1) + 1
  }

  /** The smallest power of two that is at least n (1 for n == 0). */
  function CeilPow2(n: nat): (r: nat)
    ensures IsPowerOfTwo(r)
    ensures n <= r
    ensures n >= 1 ==> r < 2 * n
  {
    Pow2IsPowerOfTwo(CeilLog2(n));
    Pow2(CeilLog2(n))
  }

  lemma {:induction false} Pow2IsPowerOfTwo(e: nat)
    ensures IsPowerOfTwo(Pow2(e))
  {
    if e > 0 {
      Pow2IsPowerOfTwo(e - 1);
      assert Pow2(e) / 2 == Pow2(e - 1);
    }
  }

  lemma {:induction false} Pow2Monotone(a: nat, b: nat)
    requires a <= b
    ensures Pow2(a) <= Pow2(b)
  {
    if a < b {
      Pow2Monotone(a, b - 1);
    }
  }

  /** Every power of two is 2^(floor log2 n). */
  lemma {:induction false} PowerOfTwoIsPow2(n: nat)
    requires IsPowerOfTwo(n)
    ensures n == Pow2(FloorLog2(n))
  {
    if n >= 2 {
      PowerOfTwoIsPow2(n / 2);
    }
  }

  /** The exponent of a power-of-two bracket is unique. */
  lemma {:induction false} FloorLog2Unique(n: nat, e: nat)
    requires Pow2(e) <= n < 2 * Pow2(e)
    ensures FloorLog2(n) == e
  {
    if e > 0 {
      FloorLog2Unique(n / 2, e - 1);
    }
  }

  lemma {:induction false} PopCountZero(n: nat)
    ensures PopCount(n) == 0 <==> n == 0
  {
    if n > 0 && n % 2 == 0 {
      PopCountZero(n / 2);
    }
  }

  /** Exactly one set bit characterises the powers of two. */
  lemma {:induction false} SingleBitIffPowerOfTwo(n: nat)
    ensures PopCount(n) == 1 <==> IsPowerOfTwo(n)
  {
    if n >= 2 {
      PopCountZero(n / 2);
      SingleBitIffPowerOfTwo(n / 2);
    }
  }

  /** At most one set bit: zero or a power of two. */
  lemma AtMostOneBit(n: nat)
    ensures PopCount(n) <= 1 <==> (n == 0 || IsPowerOfTwo(n))
  {
    PopCountZero(n);
    SingleBitIffPowerOfTwo(n);
  }

  /** CeilPow2 is the least power of two not below n. */
  lemma CeilPow2Least(n: nat, p: nat)
    requires IsPowerOfTwo(p) && n <= p
    ensures CeilPow2(n) <= p
  {
    PowerOfTwoIsPow2(p);
    var e := FloorLog2(p);
    var c := CeilLog2(n);
    if c <= e {
      Pow2Monotone(c, e);
    } else {
      Pow2Monotone(e + 1, c);
      assert false;
    }
  }

  /** Padding a length that is already a power of two does not change it. */
  lemma CeilPow2OfPowerOfTwo(n: nat)
    requires IsPowerOfTwo(n)
    ensures CeilPow2(n) == n
  {
    CeilPow2Least(n, n);
  }

  /** A bracket Pow2(e-1) < x <= Pow2(e) determines CeilPow2(x). */
  lemma CeilPow2Bracket(x: nat, e: nat)
    requires e >= 1 && Pow2(e - 1) < x <= Pow2(e)
    ensures CeilPow2(x) == Pow2(e)
  {
    FloorLog2Unique(x - 1, e - 1);
  }

  /**
   * `isPower2(l)`: shift `l` right `W` times, remembering in `k` whether a
   * set bit was already seen, and fail on a second one.  Zero has no set
   * bit, so the scan accepts it.
   */
  method IsPower2(W: nat, l: nat) returns (b: bool)
    requires l < Pow2(W)
    ensures b <==> PopCount(l) <= 1
    ensures b <==> (l == 0 || IsPowerOfTwo(l))
  {
    AtMostOneBit(l);
    var x: nat := l;
    var k := false;
    var i := 0;
    while i < W
      invariant i <= W
      invariant x < Pow2(W - i)
      invariant PopCount(l) == (if k then 1 else 0) + PopCount(x)
    {
      if x % 2 == 0 {
        x := x / 2;
      } else if !k {
        k := true;
        x := x / 2;
      } else {
        return false;
      }
      i := i + 1;
    }
    return true;
  }

  /**
   * `paddingUpPower2(x)`: scan the bit positions i = W, ..., 1 for the
   * first with `x > 1 << (i - 1)` and return `1 << i`; when none matches
   * (x <= 1) the result is `1 << 0`.  The caller must keep x within
   * 2^(W-1): a larger x would make the final shift the full word width.
   */
  method PaddingUpPower2(W: nat, x: nat) returns (r: nat)
    requires W >= 1 && x <= Pow2(W - 1)
    ensures r == CeilPow2(x)
    ensures r <= Pow2(W - 1)
  {
    var last := 0;
    var i := W;
    while i > 0
      invariant i <= W
      invariant x <= Pow2(i)
      invariant last == 0
    {
      if x > Pow2(i - 1) {
        last := i;
        break;
      }
      i := i - 1;
    }
    if last == 0 {
      assert x <= 1;
    } else {
      CeilPow2Bracket(x, last);
      Pow2Monotone(last, W - 1);
    }
    r := Pow2(last);
  }
}
