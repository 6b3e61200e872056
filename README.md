# TMS320F complex arithmetic and radix-2 FFT, modelled in Dafny

This project models the two headers of the TMS320F signal-processing
library:

- `include/complex.h`: the `Complex<T>` value type with its operators, the
  vector projections `Re`, `Im` and `mod`, and the word utilities
  `isPower2` and `paddingUpPower2`;
- `include/dft.h`: the in-place bit-reversal permutation
  `bitReversalManipulation`, the iterative Cooley-Tukey transform `fft`
  (zero-padding, permutation, butterfly stages) and `normalize`.

The element type `T` is modelled by Dafny's exact `real`. The word width of
`size_t` is a parameter `W`.

The model is split into six modules, one file each:

| file | module | models |
|---|---|---|
| `power2.dfy` | `PowerOfTwo` | `isPower2` and `paddingUpPower2` as loops over a `W`-bit word, with the specification functions `Pow2`, `PopCount`, `IsPowerOfTwo`, `FloorLog2`, `CeilPow2` |
| `complex.dfy` | `Types` | `Complex<T>` as a datatype with the pure operators. A class `ComplexVar` models the compound assignments that update an object in place. The projections are loops that append to an output vector |
| `bitrev.dfy` | `BitReversal` | the reversed index built bit by bit, the swap loop on an array, and its closed form `BitReversed` |
| `transform.dfy` | `Transform` | what `fft` and `normalize` compute, as functions on sequences, and the properties that hold whatever the twiddle factors are |
| `dft.dfy` | `Dft` | `fft` and `normalize` acting in place on a vector. The vector is a class whose array `push_back` replaces |
| `linear.dfy` | `Linearity` | the linearity of `fft`, built up from the linearity of each step |

Each loop of the source is a Dafny method proved against one of these
specification functions:

- the loops of the vector `Re`, `Im` and `mod` are proved against the per-element value (`c.re`, `c.im`, `Modulus(c, sqrt)`) at every index;
- the scan in `isPower2` is proved against `PopCount`;
- the downward scan in `paddingUpPower2` is proved against `CeilPow2`;
- the inner loop of `bitReversalManipulation` is proved against `ReverseBits`;
- the swap loop is proved against `BitReversed`;
- the `push_back` loop that pads the vector in `fft` (`Dft.Pad`) is proved against `Padded`, whose tail is `Zeros`;
- the `s`, `k` and `j` loops of `fft` are proved against `AfterStages`, `StagePass` and `Butterflies`;
- the loop of `normalize` is proved against `Normalized`.

The properties are proved about those functions: involution, permutation,
padding, each index written once per stage, the first output being the
sum of the inputs, and linearity: the transform of a x + b y is
a fft(x) + b fft(y) for real a and b.

## Model

| member | source | states |
|---|---|---|
| PowerOfTwo.IsPower2 | include/complex.h:193-211 | the scan returns true exactly when `l` has at most one set bit, i.e. when `l` is 0 or a power of two; zero is accepted as the code does |
| PowerOfTwo.AtMostOneBit | include/complex.h:197-210 | at most one set bit holds exactly for 0 and the powers of two |
| PowerOfTwo.SingleBitIffPowerOfTwo | include/complex.h:197-210 | exactly one set bit holds exactly for the powers of two |
| PowerOfTwo.PaddingUpPower2 | include/complex.h:213-229 | for x up to 2^(W-1) the result is the smallest power of two not below x (1 for x = 0), and it stays within the word |
| PowerOfTwo.CeilPow2 | include/complex.h:213-229 | the padded length is a power of two, at least n, and below 2n when n >= 1 |
| PowerOfTwo.CeilPow2Least | include/complex.h:213-229 | no power of two at least n is smaller than the padded length |
| PowerOfTwo.CeilPow2OfPowerOfTwo | include/complex.h:213-229 | a power of two is its own padded length (8 stays 8) |
| PowerOfTwo.CeilPow2Bracket | include/complex.h:219-228 | the first bit position i with x > 2^(i-1) fixes the result 2^i |
| PowerOfTwo.FloorLog2 | include/dft.h:50 | the integer logarithm l satisfies 2^l <= n < 2^(l+1) |
| PowerOfTwo.PowerOfTwoIsPow2 | include/dft.h:87 | a power-of-two length N is exactly 2^log2(N) |
| PowerOfTwo.FloorLog2Unique | include/dft.h:50 | the exponent bracketing n is unique |
| PowerOfTwo.Pow2IsPowerOfTwo | include/complex.h:228 | `1 << e` is a power of two |
| Types.Complex.Plus | include/complex.h:68-71 | `+` is component-wise: `(a, b) + (c, d) = (a + c, b + d)` |
| Types.Complex.Minus | include/complex.h:73-76 | `-` is component-wise: `(a, b) - (c, d) = (a - c, b - d)` |
| Types.Complex.Times | include/complex.h:78-81 | `*` of two complex values is `(ac - bd, ad + bc)` |
| Types.Complex.Scale | include/complex.h:83-86 | `*` by a scalar s on the right is `(a s, b s)` |
| Types.Complex.DivBy | include/complex.h:88-91 | `/` by a scalar s is `(a / s, b / s)`, for s != 0 |
| Types.Complex.Conj | include/complex.h:122-125 | `!` is the conjugate `(a, -b)` |
| Types.Complex.Equals | include/complex.h:105-108 | `==` holds when both components are equal |
| Types.Complex.NotEquals | include/complex.h:110-113 | `!=` holds when either component differs |
| Types.ScaleLeft | include/complex.h:187-191 | `*` by a scalar s on the left is `(a s, b s)`, each component multiplied on the right by s as the code writes it |
| Types.Modulus | include/complex.h:148-152 | `mod` is `sqrt(a^2 + b^2)`, with the square root function as a parameter |
| Types.PlusCommutes | include/complex.h:68-71 | `a + b == b + a` |
| Types.PlusAssociates | include/complex.h:68-71 | `(a + b) + c == a + (b + c)` |
| Types.ZeroIsPlusIdentity | include/complex.h:49-52 | the default value `{0, 0}` is neutral for `+` on both sides |
| Types.MinusUndoesPlus | include/complex.h:68-76 | `(a + b) - b == a` |
| Types.PlusNegationIsZero | include/complex.h:187-191 | `a + (-1) * a` is `{0, 0}` |
| Types.TimesCommutes | include/complex.h:78-81 | complex `*` is commutative |
| Types.OneIsTimesIdentity | include/complex.h:78-81 | multiplying by `{1, 0}` on either side returns the value unchanged |
| Types.TimesDistributesOverPlus | include/complex.h:68-81 | `a * (b + c) == a * b + a * c` |
| Types.ScaleLeftIsScale | include/complex.h:187-191 | the scalar on the left gives the same result as the scalar on the right |
| Types.ScaleIsTimesReal | include/complex.h:78-86 | multiplying by a scalar s equals complex multiplication by `{s, 0}` |
| Types.DivByUndoneByScale | include/complex.h:83-91 | dividing by a non-zero scalar and multiplying back gives the value |
| Types.ConjInvolution | include/complex.h:122-125 | `!c` keeps `Re`, negates `Im`, and `!!c == c` |
| Types.TimesConjIsNorm2 | include/complex.h:122-125 | `c * !c` is the real number Re^2 + Im^2 |
| Types.ModulusOfConj | include/complex.h:148-152 | `mod(!c) == mod(c)`, whatever the square root function |
| Types.EqualsIsEquality | include/complex.h:105-113 | `==` holds exactly for equal values and `!=` is its negation |
| Types.ComplexVar.constructor | include/complex.h:52 | a default-constructed object holds `{0, 0}` |
| Types.ComplexVar.FromParts | include/complex.h:54-59 | the object holds the two given components |
| Types.ComplexVar.Copy | include/complex.h:61-66 | the new object holds the other object's value |
| Types.ComplexVar.PlusAssign | include/complex.h:93-98 | after `a += b` the receiver holds old `a + b`, and `b` is unchanged unless it is `a` itself |
| Types.ComplexVar.TimesAssign | include/complex.h:100-103 | after `a *= b` the receiver holds old `a * b`, and `b` is unchanged unless it is `a` itself |
| Types.ComplexVar.Assign | include/complex.h:115-120 | after `a = b` the receiver holds `b`'s value, and `b` is unchanged |
| Types.Re | include/complex.h:165-174 | the output has the input's length and holds the real parts in order |
| Types.Im | include/complex.h:176-185 | the output has the input's length and holds the imaginary parts in order |
| Types.Mod | include/complex.h:154-163 | the output has the input's length and holds the moduli in order |
| BitReversal.OrLowBit | include/dft.h:57-58 | or-ing one bit into the shifted (even) `j` adds it |
| BitReversal.ReverseBits | include/dft.h:54-60 | the reversed index of an l-bit number is below 2^l, so below N |
| BitReversal.ReverseBitsAsBits | include/dft.h:54-60 | the reversed index is the low l bits of i read in reverse order |
| BitReversal.ReversedIndex | include/dft.h:54-60 | the inner loop with its final `j >>= 1` computes the l-bit reversal of i |
| BitReversal.ReverseBitsInvolution | include/dft.h:52-64 | reversing l bits twice gives back every l-bit number |
| BitReversal.SwapStep | include/dft.h:62-63 | iteration i with partner j swaps `x[i]` and `x[j]` when j > i and leaves the vector unchanged otherwise |
| BitReversal.SwapPass | include/dft.h:52-64 | the vector after the first n iterations of the outer loop: each iteration i performs that guarded swap with its partner `rev(i)` |
| BitReversal.BitReversed | include/dft.h:46-65 | the result of the whole loop, in closed form: with l = log2(N) and P = 2^l, index k < P receives the element at the l-bit reversal of k, and every k >= P keeps its element |
| BitReversal.SwapStepPermutes | include/dft.h:62-63 | the guarded swap is a permutation |
| BitReversal.SwapPassPermutes | include/dft.h:52-64 | any prefix of the swap loop is a permutation of the input |
| BitReversal.SwapPassClosedForm | include/dft.h:52-64 | after the first n steps, index k holds the element at its partner exactly when k or its partner is below n; otherwise it holds its own element |
| BitReversal.SwapPassIsBitReversed | include/dft.h:52-64 | the whole swap loop yields `BitReversed`: every k < 2^l receives the element at ReverseBits(k) and higher indices keep theirs |
| BitReversal.BitReversedPermutes | include/dft.h:52-64 | the result is a permutation of the input |
| BitReversal.BitReversedMovesToReversedIndex | include/dft.h:52-64 | for N = 2^l the element at i ends up at ReverseBits(i) < N |
| BitReversal.BitReversedTwice | include/dft.h:46-65 | applying the permutation twice restores the original contents |
| BitReversal.SwapWithReversed | include/dft.h:54-63 | one iteration of the outer loop performs the next guarded swap |
| BitReversal.SwapAll | include/dft.h:52-64 | the outer loop performs every guarded swap in order, each partner index lying inside the vector |
| BitReversal.BitReversalManipulation | include/dft.h:46-65 | the array is left as `BitReversed` of its old contents, a permutation of them |
| Transform.Padded | include/dft.h:73-80 | the padded vector has the power-of-two length `paddingUpPower2(oldN)`; the old elements are its prefix and every appended element is `{0, 0}`; nothing is appended when the length is already a power of two |
| Transform.Power | include/dft.h:94-101 | `w` in butterfly j is `Wm^j`: it starts at `{1, 0}` and `w *= Wm` runs once per butterfly |
| Transform.Upper | include/dft.h:97-99 | butterfly j of a block of m = 2h elements writes `u + t` to position j, with `u = X[k + j]` and `t = Wm^j * X[k + j + h]` |
| Transform.Lower | include/dft.h:97-100 | butterfly j writes `u - t` to position j + h, from the same u and t |
| Transform.Butterflies | include/dft.h:95-102 | a block after its j loop: positions below h hold `Upper` and positions from h on hold `Lower`; every u and t are read before they are overwritten, because butterfly j reads only positions j and j + h |
| Transform.StagePass | include/dft.h:92-103 | one stage: `Butterflies` applied to each whole block of m = 2h elements in turn, from k = 0 |
| Transform.AfterStages | include/dft.h:87-104 | the vector after stages s = 1 .. e: stage s is `StagePass` with blocks of m = 2^s elements (h = 2^(s-1)) and twiddle factor `twiddle(s)` |
| Transform.ButterflyHead | include/dft.h:94-99 | the first butterfly of a block uses `w = {1, 0}`, so the block's head becomes `X[k] + X[k + m/2]` |
| Transform.ButterfliesByPairs | include/dft.h:95-102 | a block holds its butterflies' output exactly when each pair j, j + m/2 holds `u + t` and `u - t` |
| Transform.StagePassConcat | include/dft.h:92-103 | a stage works block by block: staging a concatenation of whole blocks stages each part |
| Transform.StagePassExtend | include/dft.h:92-103 | staging one more block appends that block's butterflies |
| Transform.TilesPow2 | include/dft.h:87-92 | every block size 2^s with s <= l divides N = 2^l into whole blocks |
| Transform.StageBlockSize | include/dft.h:89-95 | the block size `m = 1 << s` is even, its half is 2^(s-1), and it tiles N |
| Transform.NextStage | include/dft.h:87-104 | stage s applied after stages 1 .. s-1 gives the vector after stages 1 .. s |
| Transform.FftOf | include/dft.h:67-105 | the output length is `paddingUpPower2` of the input length |
| Transform.Normalized | include/dft.h:107-116 | normalizing keeps the length |
| Transform.ButterflyIndicesInRange | include/dft.h:92-100 | both butterfly indices k + j and k + j + m/2 lie below N |
| Transform.ButterflyWritesEachIndexOnce | include/dft.h:92-102 | every index below N is written by exactly one butterfly (k, j) per stage |
| Transform.SumOfPadded | include/dft.h:75-80 | zero-padding does not change the sum of the elements |
| Transform.SumOfPermutation | include/dft.h:85 | a permutation does not change the sum of the elements |
| Transform.HeadsOfStage | include/dft.h:92-102 | after a stage, the head of every block of m elements is the sum of the heads of its two halves |
| Transform.BlockSumsOfPairs | include/dft.h:87-92 | the sum of a block of m elements is the sum of its two halves' sums |
| Transform.HeadsAreBlockSums | include/dft.h:87-104 | after e stages, the head of every block of 2^e elements is the sum of that block's input |
| Transform.AllStagesFirstIsSum | include/dft.h:87-104 | after all log2(N) stages, `X[0]` is the sum of the stage input |
| Transform.FftFirstIsSum | include/dft.h:69-105 | for every choice of twiddle factors, `fft` leaves in `X[0]` the sum of the padded input, which is the sum of the input |
| Transform.FftOfSingleton | include/dft.h:69-105 | a one-element vector is left unchanged, since no stage runs |
| Transform.FftKeepsPowerOfTwoLength | include/dft.h:71-83 | a vector whose length is a power of two keeps its length |
| Transform.NormalizedUndoneByScale | include/dft.h:110-116 | multiplying a normalized element by N/2 (integer division) gives back the input element |
| Transform.NormalizedTwice | include/dft.h:110-116 | normalizing twice divides each element by (N/2)^2 |
| Dft.ComplexVector.PushBack | include/dft.h:78-79 | `push_back` appends the element after the existing ones |
| Dft.ButterflyStep | include/dft.h:97-100 | butterfly j reads two not-yet-written positions, and writing it advances the block's progress by one pair and touches nothing outside the block |
| Dft.PairButterfly | include/dft.h:97-101 | one iteration of the j loop, with `w == Wm^j`, writes butterfly j and nothing outside the block |
| Dft.BlockButterflies | include/dft.h:94-102 | the j loop leaves the block as `Butterflies` of its old contents and the rest of the vector unchanged |
| Dft.StageStep | include/dft.h:92-103 | replacing block k of a partly staged vector by its butterflies stages one more block |
| Dft.StageStart | include/dft.h:92 | before the first block the vector is its own staged prefix |
| Dft.StageEnd | include/dft.h:92-103 | once k reaches N, every block is staged |
| Dft.StageBlock | include/dft.h:92-103 | one iteration of the k loop stages the block at k |
| Dft.Stage | include/dft.h:92-103 | the k loop of stage s leaves the vector as `StagePass` of its old contents |
| Dft.NthStage | include/dft.h:87-104 | one iteration of the s loop takes the vector after s-1 stages to the vector after s stages |
| Dft.Stages | include/dft.h:87-104 | the s loop leaves the vector after all log2(N) stages |
| Dft.Pad | include/dft.h:73-80 | the padding step leaves the vector as `Padded` of its old contents |
| Dft.Fft | include/dft.h:67-105 | `fft` leaves the vector as `FftOf` of its old contents: padded, bit-reversed, then staged |
| Dft.Normalize | include/dft.h:107-116 | `normalize` leaves every element divided by N/2, computed in integer arithmetic |
| Linearity.TimesScale | include/complex.h:78-86 | complex `*` commutes with `*` by a real scalar: `c * (u * s) == (c * u) * s` |
| Linearity.TimesMix | include/complex.h:68-86 | `c * (a u + b v) == a (c u) + b (c v)` for real a and b |
| Linearity.ScaleDistributes | include/complex.h:68-86 | `*` by a real scalar distributes over `+` and `-` |
| Linearity.PlusMinusMix | include/dft.h:99-100 | the sum and the difference a butterfly writes, taken of two linear combinations, are the linear combinations of the sums and the differences |
| Linearity.UpperLowerLinear | include/dft.h:97-100 | both outputs of butterfly j of a block a x + b y are a times x's output plus b times y's output |
| Linearity.ButterfliesLinear | include/dft.h:95-102 | the j loop of one block is linear in the block |
| Linearity.MixSeqSlices | include/dft.h:92 | cutting a linear combination of vectors at a block boundary cuts each vector there |
| Linearity.MixSeqConcat | include/dft.h:92 | a linear combination of concatenated blocks is the concatenation of the blocks' combinations |
| Linearity.StagePassLinear | include/dft.h:92-103 | one stage is linear in the vector |
| Linearity.AfterStagesLinear | include/dft.h:87-104 | the first e stages are linear in the vector |
| Linearity.BitReversedLinear | include/dft.h:46-65 | the bit-reversal permutation of a x + b y is a times x's permutation plus b times y's |
| Linearity.PaddedLinear | include/dft.h:73-80 | padding a x + b y with `{0, 0}` gives a times x padded plus b times y padded |
| Linearity.FftOfLinear | include/dft.h:69-105 | `fft` is linear: for vectors of equal length and real a and b, `fft(a x + b y) == a fft(x) + b fft(y)`, whatever the twiddle factors |

## Left out

- `operator<<` is not modelled. It only formats to a stream.
- `arg` is not modelled. It is `atan`/`atanf` on floating point.
- Types.Modulus: the square root in `mod` is a parameter. So `Types.Mod` states only length, order and the value per element, not a numeric modulus.
- Floating point is not modelled. `T` is exact `real`, so there is no rounding, infinity or NaN. The algebraic laws in `Types` hold only in exact arithmetic.
- Types.DivBy: requires a non-zero divisor, because `real` has no infinity.
- Dft.Normalize: requires N != 1. With N = 1 the divisor N/2 is zero, which gives infinities in floating point. N = 0 runs no division and is allowed.
- The twiddle factor `Wm = {cos(-2 pi / m), sin(-2 pi / m)}` is a parameter `twiddle(s)` per stage. Its value is not modelled.
- That `fft` computes the discrete Fourier transform is not claimed, because it depends on the twiddle values. The proved properties (linearity, the first output being the sum, lengths, permutation) hold for every choice of twiddle factors.
- `log2(N)` cast to `size_t` is `FloorLog2`. It is exact for powers of two, the only lengths `fft` passes on; for other lengths a rounded `log2` just below a power of two could differ. For an empty array, `bitReversalManipulation` at include/dft.h:50 still evaluates `static_cast<size_t>(log2(0))`, a conversion of minus infinity to an unsigned integer, which is undefined behaviour in C++. The model takes `FloorLog2(0) == 0`, so `BitReversal.BitReversalManipulation` accepts an empty array and leaves it unchanged. `fft` never reaches this case because it asserts a non-empty input.
- `assert(X.size() > 0, ...)` in `fft` becomes a precondition. The behaviour under `NDEBUG` is not modelled.
- Dft.Fft: requires the input length to be at most 2^(W-1). `paddingUpPower2` of a larger length would shift by the full word width.
- PowerOfTwo.PaddingUpPower2: requires x <= 2^(W-1), for the same reason.
- Wrap-around of `size_t` counters and indices is not modelled. Loop counters are unbounded naturals, and within the preconditions none of them reaches 2^W.
- PowerOfTwo.IsPower2: models `isPower2(0)` returning true as the code does, although zero is not a power of two. `fft` never calls it with 0.
- `std::vector` growth is modelled by replacing the array. So `Dft.Pad` states only that the array is either the old one or a fresh one; what earlier references to the elements see is not modelled.
- `X.resize(N)` in `fft` does not change the vector and is not modelled.
- The unused locals `i` and `k` declared at the head of `paddingUpPower2` are not modelled.
- The preprocessor guards of both headers are not modelled.
