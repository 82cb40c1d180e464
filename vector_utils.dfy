/**
 * `VectorUtils`: the point-wise pixel kernels with a lane-wise main loop and
 * a scalar tail, and the 3x3 convolution over a row-major pixel buffer.
 *
 * A vector of `L` lanes applies the same 32-bit `int` operations to `L`
 * pixels at once, so one lane is modelled by a function on one pixel and a
 * vector step by writing `L` consecutive entries of `dst`. The lane count of
 * the preferred species is the parameter `L`; whether a vector step throws is
 * chosen nondeterministically at every step.
 */
module VectorUtils {

  import opened Argb
  import opened Int32
  import opened Images
  import opened FloatModel
  import opened Convolution

  /** `INT_SPECIES.length()`: at least one lane, at most 64 (a 2048-bit shape). */
  type LaneWidth = l: int | 1 <= l <= 64 witness 1

  const RED_WEIGHT: int := 77
  const GREEN_WEIGHT: int := 150
  const BLUE_WEIGHT: int := 29

  /** `ColorComponents`: the four channels of a pixel, each already masked to [0, 255]. */
  datatype ColorComponents = ColorComponents(alpha: Channel, red: Channel, green: Channel, blue: Channel)
  {
    /** `combine()`: the channels shifted back into place and or-ed together. */
    function Combine(): Pixel
    {
      Pack(alpha, red, green, blue)
    }
  }

  /** The `ColorComponents(pixels)` constructor on one lane. */
  function Components(p: Pixel): ColorComponents
  {
    ColorComponents(Alpha(p), Red(p), Green(p), Blue(p))
  }

  /** Combining the components of a pixel gives the pixel back. */
  lemma CombineComponents(p: Pixel)
    ensures Components(p).Combine() == p
  {
    PackUnpack(p);
  }

  /** The other direction: unpacking a combined pixel gives the same components. */
  lemma ComponentsOfCombine(c: ColorComponents)
    ensures Components(c.Combine()) == c
  {
    UnpackPack(c.alpha, c.red, c.green, c.blue);
  }

  // ---------------------------------------------------------------- brightness

  /** One lane of the vector brightness step: `clamp(channel.add(brightness))` with 32-bit `add`. */
  function BrightnessLane(p: Pixel, brightness: JInt): Pixel
  {
    var c := Components(p);
    ColorComponents(c.alpha, Clamp(Wrap(c.red + brightness)), Clamp(Wrap(c.green + brightness)),
                    Clamp(Wrap(c.blue + brightness))).Combine()
  }

  /** The scalar tail: `Math.max(0, Math.min(255, channel + brightness))`, alpha kept. */
  function BrightnessScalar(p: Pixel, brightness: JInt): Pixel
  {
    var r := Max(0, Min(255, Wrap(Red(p) + brightness)));
    var g := Max(0, Min(255, Wrap(Green(p) + brightness)));
    var b := Max(0, Min(255, Wrap(Blue(p) + brightness)));
    Pack(Alpha(p), r, g, b)
  }

  function BrightnessLaneFn(brightness: JInt): Pixel -> Pixel { p => BrightnessLane(p, brightness) }
  function BrightnessScalarFn(brightness: JInt): Pixel -> Pixel { p => BrightnessScalar(p, brightness) }

  /** The two brightness paths compute the same pixel. */
  lemma BrightnessPathsAgree(p: Pixel, brightness: JInt)
    ensures BrightnessLane(p, brightness) == BrightnessScalar(p, brightness)
  {
    var r, g, b := Wrap(Red(p) + brightness), Wrap(Green(p) + brightness), Wrap(Blue(p) + brightness);
    ClampIsMaxMin(r);
    ClampIsMaxMin(g);
    ClampIsMaxMin(b);
    BrightnessLaneIsPack(p, brightness);
  }

  lemma ClampIsMaxMin(x: int)
    ensures Max(0, Min(255, x)) == Clamp(x)
  {
  }

  /**
   * Brightness keeps alpha and moves each colour channel by `brightness`,
   * clamped to [0, 255]; the sum wraps as a Java `int`.
   */
  lemma BrightnessChannels(p: Pixel, brightness: JInt)
    ensures Alpha(BrightnessLane(p, brightness)) == Alpha(p)
    ensures Red(BrightnessLane(p, brightness)) == Clamp(Wrap(Red(p) + brightness))
    ensures Green(BrightnessLane(p, brightness)) == Clamp(Wrap(Green(p) + brightness))
    ensures Blue(BrightnessLane(p, brightness)) == Clamp(Wrap(Blue(p) + brightness))
  {
    var r, g, b := Clamp(Wrap(Red(p) + brightness)), Clamp(Wrap(Green(p) + brightness)), Clamp(Wrap(Blue(p) + brightness));
    BrightnessLaneIsPack(p, brightness);
    UnpackPack(Alpha(p), r, g, b);
  }

  /** For any `brightness <= Int32.MAX - 255` the sum cannot wrap: each channel is the clamped plain sum. */
  lemma BrightnessWithoutOverflow(p: Pixel, brightness: JInt)
    requires brightness <= Int32.MAX - 255
    ensures Red(BrightnessLane(p, brightness)) == Clamp(Red(p) + brightness)
    ensures Green(BrightnessLane(p, brightness)) == Clamp(Green(p) + brightness)
    ensures Blue(BrightnessLane(p, brightness)) == Clamp(Blue(p) + brightness)
  {
    BrightnessChannels(p, brightness);
    NoOverflow(Red(p), brightness);
    NoOverflow(Green(p), brightness);
    NoOverflow(Blue(p), brightness);
  }

  lemma BrightnessLaneIsPack(p: Pixel, brightness: JInt)
    ensures BrightnessLane(p, brightness)
         == Pack(Alpha(p), Clamp(Wrap(Red(p) + brightness)), Clamp(Wrap(Green(p) + brightness)), Clamp(Wrap(Blue(p) + brightness)))
  {
    assert Components(p).red == Red(p) && Components(p).green == Green(p) && Components(p).blue == Blue(p);
  }

  lemma NoOverflow(c: Channel, brightness: JInt)
    requires brightness <= Int32.MAX - 255
    ensures Wrap(c + brightness) == c + brightness
  {
  }

  /** A black pixel brightened by 30 has every colour channel at 30 and its alpha unchanged. */
  lemma BrightnessOfBlack(a: Channel)
    ensures BrightnessLane(Pack(a, 0, 0, 0), 30) == Pack(a, 30, 30, 30)
  {
    UnpackPack(a, 0, 0, 0);
  }

  // ------------------------------------------------------------------ contrast

  /**
   * One channel of the vector contrast step with fixed-point factor `k`:
   * `clamp(((c - 128) * k >>> 8) + 128)`. The product wraps as a 32-bit
   * `int`, and the shift is LOGICAL, so a negative product becomes a value of
   * at least 2^23 and the channel clamps to 255. The `+ 128` cannot overflow.
   */
  function ContrastLevelLane(c: Channel, k: JInt): (level: Channel)
    ensures 128 <= c && 0 <= k <= 0x80_0000 ==> level == Clamp((c - 128) * k / 256 + 128)
  {
    BrightProduct(c, k);
    Clamp(Lshr8(Wrap((c - 128) * k)) + 128)
  }

  function ContrastLane(p: Pixel, k: JInt): Pixel
  {
    var c := Components(p);
    ColorComponents(c.alpha, ContrastLevelLane(c.red, k), ContrastLevelLane(c.green, k),
                    ContrastLevelLane(c.blue, k)).Combine()
  }

  /** The scalar tail: the `float` contrast of each channel (not modelled), alpha kept. */
  function ContrastScalar(p: Pixel, fm: FloatFns): Pixel
  {
    Pack(Alpha(p), fm.contrastLevel(Red(p)), fm.contrastLevel(Green(p)), fm.contrastLevel(Blue(p)))
  }

  function ContrastLaneFn(k: JInt): Pixel -> Pixel { p => ContrastLane(p, k) }
  function ContrastScalarFn(fm: FloatFns): Pixel -> Pixel { p => ContrastScalar(p, fm) }

  /** The vector contrast keeps alpha and sets each colour channel by `ContrastLevelLane`. */
  lemma ContrastChannels(p: Pixel, k: JInt)
    ensures Alpha(ContrastLane(p, k)) == Alpha(p)
    ensures Red(ContrastLane(p, k)) == ContrastLevelLane(Red(p), k)
    ensures Green(ContrastLane(p, k)) == ContrastLevelLane(Green(p), k)
    ensures Blue(ContrastLane(p, k)) == ContrastLevelLane(Blue(p), k)
  {
    var c := Components(p);
    UnpackPack(c.alpha, ContrastLevelLane(c.red, k), ContrastLevelLane(c.green, k), ContrastLevelLane(c.blue, k));
  }

  /**
   * As written, a channel below 128 under a positive factor turns into 255:
   * even the neutral factor 1.0 (`k == 256`) maps black to white.
   */
  lemma ContrastLaneDarkSaturates(c: Channel, k: JInt)
    requires c < 128 && 0 < k <= 0x80_0000
    ensures ContrastLevelLane(c, k) == 255
  {
    ProductInRange(c - 128, k);
    ProductNegative(c - 128, k);
  }

  /** For the factors a contrast in [0, 32768) gives, `(c - 128) * k` fits in an `int`. */
  /** For a channel at or above 128 and a factor up to 2^23 the product neither wraps nor goes negative. */
  lemma BrightProduct(c: Channel, k: JInt)
    ensures 128 <= c && 0 <= k <= 0x80_0000 ==>
              0 <= Wrap((c - 128) * k) == (c - 128) * k && Lshr8(Wrap((c - 128) * k)) == (c - 128) * k / 256
  {
    if 128 <= c && 0 <= k <= 0x80_0000 {
      ProductInRange(c - 128, k);
    }
  }

  lemma ProductInRange(a: int, k: int)
    requires -128 <= a <= 127 && 0 <= k <= 0x80_0000
    ensures -0x4000_0000 <= a * k <= 127 * 0x80_0000
  {
    ProductMonotone(-128, a, k);
    ProductMonotone(a, 127, k);
  }

  lemma ProductNegative(a: int, k: int)
    requires a < 0 < k
    ensures a * k < 0
  {
  }

  lemma ProductMonotone(a: int, b: int, k: int)
    requires a <= b && 0 <= k
    ensures a * k <= b * k
  {
  }

  lemma ContrastOfBlackAtNeutralFactor()
    ensures Lshr8(Wrap((0 - 128) * 256)) == 16777088
    ensures ContrastLevelLane(0, 256) == 255
  {
    ContrastLaneDarkSaturates(0, 256);
  }

  /**
   * The evidently intended contrast channel: the same formula with an
   * ARITHMETIC shift, i.e. `((c - 128) * k) >> 8`, floor division by 256.
   */
  function ContrastLevelIntended(c: Channel, k: JInt): (level: Channel)
    ensures 128 <= c && 0 <= k <= 0x80_0000 ==> level == ContrastLevelLane(c, k)
  {
    BrightProduct(c, k);
    var prod := Wrap((c - 128) * k);
    Clamp(prod / 256 + 128)
  }

  /** With the arithmetic shift the neutral factor 1.0 (`k == 256`) leaves every channel unchanged. */
  lemma ContrastIntendedNeutral(c: Channel)
    ensures ContrastLevelIntended(c, 256) == c
  {
    assert Wrap((c - 128) * 256) == (c - 128) * 256;
  }

  /** With the arithmetic shift and a non-negative factor, a brighter channel never comes out darker. */
  lemma ContrastIntendedMonotone(c: Channel, d: Channel, k: JInt)
    requires c <= d && 0 <= k <= 0x80_0000
    ensures ContrastLevelIntended(c, k) <= ContrastLevelIntended(d, k)
  {
    var pc := (c - 128) * k;
    var pd := (d - 128) * k;
    ProductMonotone(c - 128, d - 128, k);
    ProductInRange(c - 128, k);
    ProductInRange(d - 128, k);
    assert pc / 256 <= pd / 256;
    ClampMonotone(pc / 256 + 128, pd / 256 + 128);
  }

  // ----------------------------------------------------------------- grayscale

  /** `(r * 77 + g * 150 + b * 29) >>> 8`: the weights sum to 256, so the result is at most 255. */
  function GrayLevelLane(r: Channel, g: Channel, b: Channel): (gray: Channel)
    ensures gray == (r * RED_WEIGHT + g * GREEN_WEIGHT + b * BLUE_WEIGHT) / 256
  {
    var sum := r * RED_WEIGHT + g * GREEN_WEIGHT + b * BLUE_WEIGHT;
    assert 0 <= sum <= 255 * 256;
    Lshr8(sum)
  }

  function GrayLane(p: Pixel): Pixel
  {
    var c := Components(p);
    var gray := GrayLevelLane(c.red, c.green, c.blue);
    ColorComponents(c.alpha, gray, gray, gray).Combine()
  }

  /** The scalar tail: the `double` luma of the channels (not modelled) in all three colours, alpha kept. */
  function GrayScalar(p: Pixel, fm: FloatFns): Pixel
  {
    var gray := fm.luma(Red(p), Green(p), Blue(p));
    Pack(Alpha(p), gray, gray, gray)
  }

  function GrayLaneFn(): Pixel -> Pixel { p => GrayLane(p) }
  function GrayScalarFn(fm: FloatFns): Pixel -> Pixel { p => GrayScalar(p, fm) }

  /** A vector-grayscale pixel has equal red, green and blue, the weighted level, and the old alpha. */
  lemma GrayChannels(p: Pixel)
    ensures Alpha(GrayLane(p)) == Alpha(p)
    ensures Red(GrayLane(p)) == Green(GrayLane(p)) == Blue(GrayLane(p))
    ensures Red(GrayLane(p)) == GrayLevelLane(Red(p), Green(p), Blue(p))
  {
    var c := Components(p);
    var gray := GrayLevelLane(c.red, c.green, c.blue);
    UnpackPack(c.alpha, gray, gray, gray);
  }

  /** The scalar grayscale tail also writes equal red, green and blue and keeps alpha. */
  lemma GrayScalarChannels(p: Pixel, fm: FloatFns)
    ensures Alpha(GrayScalar(p, fm)) == Alpha(p)
    ensures Red(GrayScalar(p, fm)) == Green(GrayScalar(p, fm)) == Blue(GrayScalar(p, fm))
  {
    var gray := fm.luma(Red(p), Green(p), Blue(p));
    UnpackPack(Alpha(p), gray, gray, gray);
  }

  /** The vector grayscale is idempotent: a gray pixel stays as it is. */
  lemma GrayLaneIdempotent(p: Pixel)
    ensures GrayLane(GrayLane(p)) == GrayLane(p)
  {
    var q := GrayLane(p);
    GrayChannels(p);
    GrayChannels(q);
    GrayLevelOfGray(Red(q));
    PixelExtensionality(GrayLane(q), q);
  }

  /** The weights sum to 256, so a channel level that is already gray is kept. */
  lemma GrayLevelOfGray(g: Channel)
    ensures GrayLevelLane(g, g, g) == g
  {
  }

  // --------------------------------------------------- lane-wise loop, scalar tail

  /** `INT_SPECIES.loopBound(length)`: the largest multiple of `L` not above `length`. */
  function LoopBound(length: nat, L: LaneWidth): (bound: nat)
    ensures bound <= length < bound + L
  {
    DivBounds(length, L);
    (length / L) * L
  }

  /** The bound is a whole number of vectors: the largest multiple of `L` not above `length`. */
  lemma LoopBoundAligned(length: nat, L: LaneWidth)
    ensures LoopBound(length, L) % L == 0
    ensures forall m: nat :: m % L == 0 && m <= length ==> m <= LoopBound(length, L)
  {
    var q := length / L;
    DivBounds(length, L);
    MultipleMod(q, L);
    forall m: nat | m % L == 0 && m <= length
      ensures m <= LoopBound(length, L)
    {
      MultipleBelow(m, length, L);
    }
  }

  /** A multiple of `L` up to `length` is at most `(length / L) * L`. */
  lemma MultipleBelow(m: nat, length: nat, L: LaneWidth)
    requires m % L == 0 && m <= length
    ensures m <= (length / L) * L
  {
    var q, k := length / L, m / L;
    assert m == k * L;
    assert length < (q + 1) * L by {
      DivBounds(length, L);
      assert (q + 1) * L == q * L + L;
    }
    LessOfProducts(k, q + 1, L);
    MulLeft(k, q, L);
  }

  /** A multiple of `L` leaves no remainder. */
  lemma MultipleMod(q: nat, L: LaneWidth)
    ensures (q * L) % L == 0 && (q * L) / L == q
  {
    var n := q * L;
    var d := q - n / L;
    assert d * L == n % L by {
      assert n == (n / L) * L + n % L;
      assert d * L == q * L - (n / L) * L;
    }
    LessOfProducts(d, 1, L);
    LessOfProducts(-1, d, L);
  }

  /** Multiplying by a positive factor keeps a strict order. */
  lemma LessOfProducts(a: int, b: int, c: LaneWidth)
    requires a * c < b * c
    ensures a < b
  {
    assert (b - a) * c == b * c - a * c;
  }

  lemma DivBounds(n: nat, L: LaneWidth)
    ensures (n / L) * L <= n < (n / L) * L + L
  {
  }

  /**
   * What a point-wise kernel leaves in `dst`: when every vector step
   * succeeded, the lane formula on `[0, LoopBound)` and the scalar formula on
   * the rest; after a failed vector step the scalar loop restarts at 0 and
   * every entry holds the scalar formula.
   */
  function KernelSpec(s: seq<Pixel>, L: LaneWidth, lane: Pixel -> Pixel, scalar: Pixel -> Pixel, lanesUsed: bool): (d: seq<Pixel>)
    ensures |d| == |s|
  {
    seq(|s|, j requires 0 <= j < |s| => if lanesUsed && j < LoopBound(|s|, L) then lane(s[j]) else scalar(s[j]))
  }

  /** A whole vector starting at a multiple of `L` below `LoopBound` fits below it. */
  lemma NextChunkFits(c: nat, q: nat, L: LaneWidth)
    requires c * L < q * L
    ensures c * L + L <= q * L
  {
    LessOfProducts(c, q, L);
    MulLeft(c + 1, q, L);
  }

  /**
   * The shared body of the three point-wise kernels: the vector loop in steps
   * of `L` up to `LoopBound`, which may throw at any step, then the scalar
   * loop from where the vector loop stopped, or from 0 after a throw.
   * `lanesUsed` is false exactly when the fallback message was printed.
   */
  method LaneWiseThenScalar(src: array<Pixel>, dst: array<Pixel>, L: LaneWidth,
                            lane: Pixel -> Pixel, scalar: Pixel -> Pixel) returns (lanesUsed: bool)
    requires src.Length == dst.Length && src != dst
    modifies dst
    ensures dst[..] == KernelSpec(src[..], L, lane, scalar, lanesUsed)
  {
    var length := src.Length;
    var bound := LoopBound(length, L);
    var i;
    i, lanesUsed := VectorLoop(src, dst, L, lane);
    if !lanesUsed {
      i := 0;
    }
    while i < length
      invariant 0 <= i <= length
      invariant lanesUsed ==> bound <= i
      invariant forall j :: 0 <= j < i ==>
                  dst[j] == if lanesUsed && j < bound then lane(src[j]) else scalar(src[j])
    {
      dst[i] := scalar(src[i]);
      i := i + 1;
    }
    KernelSpecByEntries(src[..], dst[..], L, lane, scalar, lanesUsed);
  }

  /**
   * The vector loop of a point-wise kernel: whole vectors of `L` entries up to
   * `LoopBound`, stopping early when a vector step throws. It returns where it
   * stopped and whether every step succeeded.
   */
  method VectorLoop(src: array<Pixel>, dst: array<Pixel>, L: LaneWidth, lane: Pixel -> Pixel)
    returns (i: nat, lanesUsed: bool)
    requires src.Length == dst.Length && src != dst
    modifies dst
    ensures i <= LoopBound(src.Length, L)
    ensures lanesUsed ==> i == LoopBound(src.Length, L)
    ensures forall j :: 0 <= j < i ==> dst[j] == lane(src[j])
  {
    var bound := LoopBound(src.Length, L);
    ghost var vectors := src.Length / L;
    i := 0;
    ghost var step := 0;
    lanesUsed := true;
    while i < bound
      invariant 0 <= step && i == step * L && i <= bound
      invariant forall j :: 0 <= j < i ==> dst[j] == lane(src[j])
    {
      var vectorStepThrows: bool := *;
      if vectorStepThrows {
        lanesUsed := false;
        break;
      }
      NextChunkFits(step, vectors, L);
      forall j | i <= j < i + L {
        dst[j] := lane(src[j]);
      }
      i, step := i + L, step + 1;
    }
  }

  /** A buffer holding the kernel's formula at every entry is `KernelSpec`. */
  lemma KernelSpecByEntries(s: seq<Pixel>, d: seq<Pixel>, L: LaneWidth, lane: Pixel -> Pixel, scalar: Pixel -> Pixel, lanesUsed: bool)
    requires |d| == |s|
    requires forall j :: 0 <= j < |d| ==>
               d[j] == if lanesUsed && j < LoopBound(|s|, L) then lane(s[j]) else scalar(s[j])
    ensures d == KernelSpec(s, L, lane, scalar, lanesUsed)
  {
  }

  /** Why a kernel throws `IllegalArgumentException`. */
  datatype KernelResult = IllegalArgument(message: string) | Completed(lanesUsed: bool)

  const NULL_ARRAYS: string := "Source and destination arrays cannot be null"
  const LENGTH_MISMATCH: string := "Source and destination arrays must have same length"

  /** The argument checks that open each point-wise kernel. */
  function CheckArguments(src: array?<Pixel>, dst: array?<Pixel>): (r: KernelResult)
    ensures r.IllegalArgument? || r == Completed(true)
    ensures r == IllegalArgument(NULL_ARRAYS) <==> src == null || dst == null
    ensures r == IllegalArgument(LENGTH_MISMATCH) <==> src != null && dst != null && src.Length != dst.Length
    reads {}
  {
    if src == null || dst == null then IllegalArgument(NULL_ARRAYS)
    else if src.Length != dst.Length then IllegalArgument(LENGTH_MISMATCH)
    else Completed(true)
  }

  /** `adjustBrightness(src, dst, brightness)` */
  method AdjustBrightness(src: array?<Pixel>, dst: array?<Pixel>, brightness: JInt, L: LaneWidth) returns (r: KernelResult)
    requires src == null || src != dst
    modifies dst
    ensures r.IllegalArgument? <==> CheckArguments(src, dst).IllegalArgument?
    ensures r.IllegalArgument? ==> r == CheckArguments(src, dst) && (dst == null || unchanged(dst))
    ensures r.Completed? ==> (src != null && dst != null &&
                              dst[..] == KernelSpec(old(src[..]), L, BrightnessLaneFn(brightness), BrightnessScalarFn(brightness), r.lanesUsed))
  {
    r := CheckArguments(src, dst);
    if r.Completed? {
      var used := LaneWiseThenScalar(src, dst, L, BrightnessLaneFn(brightness), BrightnessScalarFn(brightness));
      r := Completed(used);
    }
  }

  /** `adjustContrast(src, dst, contrast)`, with `contrastInt == (int)(contrast * 256)` passed as `k`. */
  method AdjustContrast(src: array?<Pixel>, dst: array?<Pixel>, k: JInt, L: LaneWidth, fm: FloatFns) returns (r: KernelResult)
    requires src == null || src != dst
    modifies dst
    ensures r.IllegalArgument? <==> CheckArguments(src, dst).IllegalArgument?
    ensures r.IllegalArgument? ==> r == CheckArguments(src, dst) && (dst == null || unchanged(dst))
    ensures r.Completed? ==> (src != null && dst != null &&
                              dst[..] == KernelSpec(old(src[..]), L, ContrastLaneFn(k), ContrastScalarFn(fm), r.lanesUsed))
  {
    r := CheckArguments(src, dst);
    if r.Completed? {
      var used := LaneWiseThenScalar(src, dst, L, ContrastLaneFn(k), ContrastScalarFn(fm));
      r := Completed(used);
    }
  }

  /** `convertToGrayscale(src, dst)` */
  method ConvertToGrayscale(src: array?<Pixel>, dst: array?<Pixel>, L: LaneWidth, fm: FloatFns) returns (r: KernelResult)
    requires src == null || src != dst
    modifies dst
    ensures r.IllegalArgument? <==> CheckArguments(src, dst).IllegalArgument?
    ensures r.IllegalArgument? ==> r == CheckArguments(src, dst) && (dst == null || unchanged(dst))
    ensures r.Completed? ==> (src != null && dst != null &&
                              dst[..] == KernelSpec(old(src[..]), L, GrayLaneFn(), GrayScalarFn(fm), r.lanesUsed))
  {
    r := CheckArguments(src, dst);
    if r.Completed? {
      var used := LaneWiseThenScalar(src, dst, L, GrayLaneFn(), GrayScalarFn(fm));
      r := Completed(used);
    }
  }

  /** Whatever the lane width and whether or not a vector step threw, brightness gives the same buffer. */
  lemma {:induction false} BrightnessKernelDeterministic(s: seq<Pixel>, L: LaneWidth, lanesUsed: bool, brightness: JInt)
    ensures KernelSpec(s, L, BrightnessLaneFn(brightness), BrightnessScalarFn(brightness), lanesUsed)
         == MapSeq(s, BrightnessScalarFn(brightness))
  {
    var d := KernelSpec(s, L, BrightnessLaneFn(brightness), BrightnessScalarFn(brightness), lanesUsed);
    forall j | 0 <= j < |s|
      ensures d[j] == MapSeq(s, BrightnessScalarFn(brightness))[j]
    {
      BrightnessPathsAgree(s[j], brightness);
    }
  }

  /** Every pixel a point-wise kernel writes, on either path, keeps its source alpha. */
  lemma {:induction false} KernelKeepsAlpha(s: seq<Pixel>, L: LaneWidth, lanesUsed: bool, k: JInt, fm: FloatFns, brightness: JInt)
    ensures forall j :: 0 <= j < |s| ==>
              Alpha(KernelSpec(s, L, BrightnessLaneFn(brightness), BrightnessScalarFn(brightness), lanesUsed)[j]) == Alpha(s[j]) &&
              Alpha(KernelSpec(s, L, ContrastLaneFn(k), ContrastScalarFn(fm), lanesUsed)[j]) == Alpha(s[j]) &&
              Alpha(KernelSpec(s, L, GrayLaneFn(), GrayScalarFn(fm), lanesUsed)[j]) == Alpha(s[j])
  {
    forall j | 0 <= j < |s|
      ensures Alpha(KernelSpec(s, L, BrightnessLaneFn(brightness), BrightnessScalarFn(brightness), lanesUsed)[j]) == Alpha(s[j])
      ensures Alpha(KernelSpec(s, L, ContrastLaneFn(k), ContrastScalarFn(fm), lanesUsed)[j]) == Alpha(s[j])
      ensures Alpha(KernelSpec(s, L, GrayLaneFn(), GrayScalarFn(fm), lanesUsed)[j]) == Alpha(s[j])
    {
      PixelKeepsAlpha(s[j], k, fm, brightness);
      KernelEntry(s, L, BrightnessLaneFn(brightness), BrightnessScalarFn(brightness), lanesUsed, j);
      KernelEntry(s, L, ContrastLaneFn(k), ContrastScalarFn(fm), lanesUsed, j);
      KernelEntry(s, L, GrayLaneFn(), GrayScalarFn(fm), lanesUsed, j);
    }
  }

  /** Each entry a point-wise kernel writes is the lane or the scalar formula of its source entry. */
  lemma KernelEntry(s: seq<Pixel>, L: LaneWidth, lane: Pixel -> Pixel, scalar: Pixel -> Pixel, lanesUsed: bool, j: nat)
    requires j < |s|
    ensures KernelSpec(s, L, lane, scalar, lanesUsed)[j] == lane(s[j]) ||
            KernelSpec(s, L, lane, scalar, lanesUsed)[j] == scalar(s[j])
  {
  }

  /** Both paths of each point-wise kernel keep the alpha of one pixel. */
  lemma PixelKeepsAlpha(p: Pixel, k: JInt, fm: FloatFns, brightness: JInt)
    ensures Alpha(BrightnessLane(p, brightness)) == Alpha(p) && Alpha(BrightnessScalar(p, brightness)) == Alpha(p)
    ensures Alpha(ContrastLane(p, k)) == Alpha(p) && Alpha(ContrastScalar(p, fm)) == Alpha(p)
    ensures Alpha(GrayLane(p)) == Alpha(p) && Alpha(GrayScalar(p, fm)) == Alpha(p)
  {
    BrightnessChannels(p, brightness);
    BrightnessPathsAgree(p, brightness);
    ContrastChannels(p, k);
    UnpackPack(Alpha(p), fm.contrastLevel(Red(p)), fm.contrastLevel(Green(p)), fm.contrastLevel(Blue(p)));
    GrayChannels(p);
    GrayScalarChannels(p, fm);
  }

  /** Grayscale output on either path has equal red, green and blue in every pixel. */
  lemma {:induction false} GrayKernelIsGray(s: seq<Pixel>, L: LaneWidth, lanesUsed: bool, fm: FloatFns)
    ensures forall j :: 0 <= j < |s| ==>
              var q := KernelSpec(s, L, GrayLaneFn(), GrayScalarFn(fm), lanesUsed)[j];
              Red(q) == Green(q) == Blue(q)
  {
    forall j | 0 <= j < |s|
      ensures var q := KernelSpec(s, L, GrayLaneFn(), GrayScalarFn(fm), lanesUsed)[j]; Red(q) == Green(q) == Blue(q)
    {
      GrayPixelIsGray(s[j], fm);
    }
  }

  /** Both grayscale paths give one pixel equal red, green and blue. */
  lemma GrayPixelIsGray(p: Pixel, fm: FloatFns)
    ensures Red(GrayLane(p)) == Green(GrayLane(p)) == Blue(GrayLane(p))
    ensures Red(GrayScalar(p, fm)) == Green(GrayScalar(p, fm)) == Blue(GrayScalar(p, fm))
  {
    GrayChannels(p);
    GrayScalarChannels(p, fm);
  }

  // ---------------------------------------------------------------- convolution

  /** The output pixel of `applyConvolutionVector` at `(x, y)`: alpha of the centre pixel, clamped colour sums. */
  function ConvolvedPixelVector(img: Image, x: nat, y: nat, kernel: ConvKernel, fm: FloatFns): Pixel
    requires img.Valid() && x < img.width && y < img.height
  {
    Pack(Alpha(img.At(x, y)),
         ConvolvedChannel(img, x, y, kernel, fm, Red),
         ConvolvedChannel(img, x, y, kernel, fm, Green),
         ConvolvedChannel(img, x, y, kernel, fm, Blue))
  }

  function ConvolutionVectorSpec(img: Image, kernel: ConvKernel, fm: FloatFns): (out: Image)
    requires img.Valid()
    ensures out.Valid() && out.width == img.width && out.height == img.height
  {
    Image(img.width, img.height,
          seq(img.height, y requires 0 <= y < img.height =>
            seq(img.width, x requires 0 <= x < img.width => ConvolvedPixelVector(img, x, y, kernel, fm))))
  }

  /**
   * The `ky`/`kx` loops for one output pixel: they read the nine neighbours at
   * `srcPixels[py * width + px]` with clamped coordinates, take alpha from the
   * centre entry and accumulate each colour channel.
   */
  method AccumulateKernel(srcPixels: seq<Pixel>, width: nat, height: nat, ghost img: Image,
                          x: nat, y: nat, kernel: ConvKernel, fm: FloatFns)
    returns (a: Channel, r: int, g: int, b: int)
    requires img.Valid() && width == img.width && height == img.height
    requires srcPixels == Flatten(img.rows) && x < width && y < height
    ensures a == Alpha(img.At(x, y))
    ensures r == WeightedSum(kernel, MapSeq(Neighbourhood(img, x, y), Red), fm)
    ensures g == WeightedSum(kernel, MapSeq(Neighbourhood(img, x, y), Green), fm)
    ensures b == WeightedSum(kernel, MapSeq(Neighbourhood(img, x, y), Blue), fm)
  {
    ghost var nb := Neighbourhood(img, x, y);
    var ps: seq<Pixel> := [];
    a := 0;
    var ky := 0;
    while ky < KERNEL_SIZE
      invariant 0 <= ky <= KERNEL_SIZE
      invariant ps == nb[..ky * 3]
      invariant ky > 1 ==> a == Alpha(nb[4])
    {
      ps, a := ReadKernelRow(srcPixels, width, height, img, x, y, ky, ps, a);
      ky := ky + 1;
    }
    assert ps == nb;
    r := WeightedSum(kernel, MapSeq(ps, Red), fm);
    g := WeightedSum(kernel, MapSeq(ps, Green), fm);
    b := WeightedSum(kernel, MapSeq(ps, Blue), fm);
  }

  /** The `kx` loop for kernel row `ky`: appends that row's three neighbours, and takes alpha from the centre. */
  method ReadKernelRow(srcPixels: seq<Pixel>, width: nat, height: nat, ghost img: Image,
                       x: nat, y: nat, ky: nat, ps: seq<Pixel>, a: Channel) returns (ps': seq<Pixel>, a': Channel)
    requires img.Valid() && width == img.width && height == img.height
    requires srcPixels == Flatten(img.rows) && x < width && y < height && ky < KERNEL_SIZE
    requires ps == Neighbourhood(img, x, y)[..ky * 3]
    ensures ps' == Neighbourhood(img, x, y)[..ky * 3 + 3]
    ensures a' == if ky == OFFSET then Alpha(Neighbourhood(img, x, y)[ky * 3 + OFFSET]) else a
  {
    ps', a' := ps, a;
    var kx := 0;
    while kx < KERNEL_SIZE
      invariant 0 <= kx <= KERNEL_SIZE
      invariant ps' == Neighbourhood(img, x, y)[..ky * 3 + kx]
      invariant a' == if ky == OFFSET && kx > OFFSET then Alpha(Neighbourhood(img, x, y)[ky * 3 + OFFSET]) else a
    {
      ps', a' := ReadKernelEntry(srcPixels, width, height, img, x, y, kx, ky, ps', a');
      kx := kx + 1;
    }
  }

  /** One `kx` step: reads neighbour `ky * 3 + kx`, appends it, and takes alpha when it is the centre. */
  method ReadKernelEntry(srcPixels: seq<Pixel>, width: nat, height: nat, ghost img: Image,
                         x: nat, y: nat, kx: nat, ky: nat, ps: seq<Pixel>, a: Channel) returns (ps': seq<Pixel>, a': Channel)
    requires img.Valid() && width == img.width && height == img.height
    requires srcPixels == Flatten(img.rows) && x < width && y < height && kx < KERNEL_SIZE && ky < KERNEL_SIZE
    requires ps == Neighbourhood(img, x, y)[..ky * 3 + kx]
    ensures ps' == Neighbourhood(img, x, y)[..ky * 3 + kx + 1]
    ensures a' == if kx == OFFSET && ky == OFFSET then Alpha(Neighbourhood(img, x, y)[ky * 3 + OFFSET]) else a
  {
    var pixel := ReadNeighbour(srcPixels, width, height, img, x, y, kx, ky);
    a' := a;
    if kx == OFFSET && ky == OFFSET {
      a' := Alpha(pixel);
    }
    TakeSnoc(Neighbourhood(img, x, y), ky * 3 + kx);
    ps' := ps + [pixel];
  }

  lemma TakeSnoc<T>(s: seq<T>, i: nat)
    requires i < |s|
    ensures s[..i + 1] == s[..i] + [s[i]]
  {
  }

  /** `srcPixels[py * width + px]` with both coordinates clamped to the image: neighbour `ky * 3 + kx`. */
  method ReadNeighbour(srcPixels: seq<Pixel>, width: nat, height: nat, ghost img: Image,
                       x: nat, y: nat, kx: nat, ky: nat) returns (pixel: Pixel)
    requires img.Valid() && width == img.width && height == img.height
    requires srcPixels == Flatten(img.rows) && x < width && y < height && kx < KERNEL_SIZE && ky < KERNEL_SIZE
    ensures pixel == Neighbourhood(img, x, y)[ky * 3 + kx]
  {
    var px := ClampCoord(x + kx - OFFSET, width);
    var py := ClampCoord(y + ky - OFFSET, height);
    FlattenAt(img.rows, width, px, py);
    pixel := srcPixels[py * width + px];
    NeighbourAt(img, x, y, kx, ky);
  }

  /** One output pixel: the kernel loops, then the clamped channels packed with the centre alpha. */
  method ConvolvePixel(srcPixels: seq<Pixel>, width: nat, height: nat, ghost img: Image,
                       x: nat, y: nat, kernel: ConvKernel, fm: FloatFns) returns (pixel: Pixel)
    requires img.Valid() && width == img.width && height == img.height
    requires srcPixels == Flatten(img.rows) && x < width && y < height
    ensures pixel == ConvolvedPixelVector(img, x, y, kernel, fm)
  {
    var a, r, g, b := AccumulateKernel(srcPixels, width, height, img, x, y, kernel, fm);
    pixel := Pack(a, Clamp(r), Clamp(g), Clamp(b));
  }

  /**
   * `applyConvolutionVector(src, dst, kernel, 3)`: copy the source into a
   * row-major buffer, fill the destination buffer in `y`/`x` order, store it
   * as the result image. The destination `int[]` is only ever written at the
   * next index, so it is modelled as the sequence of the entries written so far.
   */
  method ApplyConvolutionVector(src: Image, kernel: ConvKernel, fm: FloatFns) returns (dst: Image)
    requires src.Valid()
    ensures dst == ConvolutionVectorSpec(src, kernel, fm)
  {
    var width, height := src.width, src.height;
    ghost var spec := ConvolutionVectorSpec(src, kernel, fm);
    var srcPixels := Flatten(src.rows);
    var dstPixels: seq<Pixel> := [];
    var y := 0;
    while y < height
      invariant 0 <= y <= height
      invariant dstPixels == Flatten(spec.rows[..y])
    {
      var row := ConvolveRowVector(srcPixels, width, height, src, y, kernel, fm);
      assert spec.rows[..y + 1] == spec.rows[..y] + [row];
      FlattenSnoc(spec.rows[..y], row);
      dstPixels := dstPixels + row;
      y := y + 1;
    }
    assert spec.rows[..height] == spec.rows;
    UnflattenFlatten(spec.rows, width);
    dst := Image(width, height, Unflatten(dstPixels, width, height));
  }

  /** The `x` loop for output row `y`: the convolved pixels from left to right. */
  method ConvolveRowVector(srcPixels: seq<Pixel>, width: nat, height: nat, ghost img: Image,
                           y: nat, kernel: ConvKernel, fm: FloatFns) returns (row: seq<Pixel>)
    requires img.Valid() && width == img.width && height == img.height
    requires srcPixels == Flatten(img.rows) && y < height
    ensures row == ConvolutionVectorSpec(img, kernel, fm).rows[y]
  {
    ghost var want := ConvolutionVectorSpec(img, kernel, fm).rows[y];
    row := [];
    var x := 0;
    while x < width
      invariant 0 <= x <= width && row == want[..x]
    {
      var pixel := ConvolvePixel(srcPixels, width, height, img, x, y, kernel, fm);
      TakeSnoc(want, x);
      row := row + [pixel];
      x := x + 1;
    }
    assert row == want;
  }

  // ------------------------------------------------------------ chunk size

  /**
   * `getOptimalChunkSize(totalPixels)`: a small image is one chunk (at least
   * four vectors); otherwise 16 or 64 vectors depending on how many vectors
   * the image holds.
   */
  function OptimalChunkSize(totalPixels: JInt, L: LaneWidth): (size: int)
    ensures size >= L * 4
    ensures JavaDiv(totalPixels, L) < 64 ==> size >= totalPixels
    ensures 64 <= JavaDiv(totalPixels, L) ==> (size == L * 16 || size == L * 64) && size <= totalPixels
    ensures JavaDiv(totalPixels, L) < 64 ==> size == Max(L * 4, totalPixels)
    ensures 64 <= JavaDiv(totalPixels, L) < 256 ==> size == L * 16
    ensures 256 <= JavaDiv(totalPixels, L) ==> size == L * 64
  {
    var chunks := JavaDiv(totalPixels, L);
    ManyVectors(totalPixels, L);
    if chunks < 64 then Max(L * 4, totalPixels)
    else if chunks < 256 then L * 16
    else L * 64
  }

  /** An image that holds at least 64 whole vectors has at least `64 * L` pixels. */
  lemma ManyVectors(totalPixels: JInt, L: LaneWidth)
    ensures 64 <= JavaDiv(totalPixels, L) ==> L * 64 <= totalPixels
  {
    if 64 <= JavaDiv(totalPixels, L) {
      assert totalPixels >= 0;
      var q := totalPixels / L;
      DivBounds(totalPixels, L);
      MulLeft(64, q, L);
    }
  }
}
