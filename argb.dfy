/**
 * The packed ARGB pixel: alpha in bits 24-31, red in 16-23, green in 8-15,
 * blue in 0-7. A Java `int` pixel is modelled by its 32 bits. Shifting right
 * and masking with 0xFF gives the same byte whether the shift is arithmetic
 * (`>>`) or logical (`>>>`), so both are modelled by the bit-vector `>>`.
 */
module Argb {

  type Pixel = bv32

  /** One colour or alpha component, as the source holds it in an `int`. */
  type Channel = c: int | 0 <= c < 256

  function AlphaByte(p: Pixel): bv8 { ((p >> 24) & 0xFF) as bv8 }
  function RedByte(p: Pixel): bv8 { ((p >> 16) & 0xFF) as bv8 }
  function GreenByte(p: Pixel): bv8 { ((p >> 8) & 0xFF) as bv8 }
  function BlueByte(p: Pixel): bv8 { (p & 0xFF) as bv8 }

  function PackBytes(a: bv8, r: bv8, g: bv8, b: bv8): Pixel
  {
    ((a as bv32) << 24) | ((r as bv32) << 16) | ((g as bv32) << 8) | (b as bv32)
  }

  /** `(p >> 24) & 0xFF` */
  function Alpha(p: Pixel): Channel { AlphaByte(p) as int }
  /** `(p >> 16) & 0xFF` */
  function Red(p: Pixel): Channel { RedByte(p) as int }
  /** `(p >> 8) & 0xFF` */
  function Green(p: Pixel): Channel { GreenByte(p) as int }
  /** `p & 0xFF` */
  function Blue(p: Pixel): Channel { BlueByte(p) as int }

  /**
   * The eight bits of a channel value, counted up from zero. Defined by
   * recursion rather than by a conversion so that the solver sees a packed
   * pixel's bits only through `ChannelRoundTrip` and `ByteRoundTrip`.
   */
  function ChannelByte(c: Channel): bv8
  {
    if c == 0 then 0 else ChannelByte(c - 1) + 1
  }

  /** `(a << 24) | (r << 16) | (g << 8) | b` for components already in [0, 255]. */
  function Pack(a: Channel, r: Channel, g: Channel, b: Channel): Pixel
  {
    PackBytes(ChannelByte(a), ChannelByte(r), ChannelByte(g), ChannelByte(b))
  }

  /** A channel's bits read back as the same number. */
  lemma {:induction false} ChannelRoundTrip(c: Channel)
    ensures ChannelByte(c) as int == c
  {
    if c > 0 {
      ChannelRoundTrip(c - 1);
    }
  }

  lemma ByteRoundTrip(b: bv8)
    ensures ChannelByte(b as int) == b
  {
    ChannelRoundTrip(b as int);
  }

  lemma PackBytesOfBytes(p: Pixel)
    ensures PackBytes(AlphaByte(p), RedByte(p), GreenByte(p), BlueByte(p)) == p
  {
  }

  lemma BytesOfPackBytes(a: bv8, r: bv8, g: bv8, b: bv8)
    ensures AlphaByte(PackBytes(a, r, g, b)) == a && RedByte(PackBytes(a, r, g, b)) == r
    ensures GreenByte(PackBytes(a, r, g, b)) == g && BlueByte(PackBytes(a, r, g, b)) == b
  {
  }

  /** Unpacking a pixel and packing its four components again gives back the same 32 bits. */
  lemma PackUnpack(p: Pixel)
    ensures Pack(Alpha(p), Red(p), Green(p), Blue(p)) == p
  {
    ByteRoundTrip(AlphaByte(p));
    ByteRoundTrip(RedByte(p));
    ByteRoundTrip(GreenByte(p));
    ByteRoundTrip(BlueByte(p));
    PackBytesOfBytes(p);
  }

  /** Each component of a packed pixel reads back as the value that was packed. */
  lemma UnpackPack(a: Channel, r: Channel, g: Channel, b: Channel)
    ensures Alpha(Pack(a, r, g, b)) == a && Red(Pack(a, r, g, b)) == r
    ensures Green(Pack(a, r, g, b)) == g && Blue(Pack(a, r, g, b)) == b
  {
    BytesOfPackBytes(ChannelByte(a), ChannelByte(r), ChannelByte(g), ChannelByte(b));
    ChannelRoundTrip(a);
    ChannelRoundTrip(r);
    ChannelRoundTrip(g);
    ChannelRoundTrip(b);
  }

  /** Two pixels are equal exactly when all four components are. */
  lemma PixelExtensionality(p: Pixel, q: Pixel)
    requires Alpha(p) == Alpha(q) && Red(p) == Red(q) && Green(p) == Green(q) && Blue(p) == Blue(q)
    ensures p == q
  {
    PackUnpack(p);
    PackUnpack(q);
  }

  /**
   * `clamp` of the lane-wise kernels: `max(x, 0)` then `min(., 255)`. The
   * scalar code writes `Math.max(0, Math.min(255, x))` or
   * `Math.min(255, Math.max(0, x))`; all three agree for every `x`.
   */
  function Clamp(x: int): (c: Channel)
    ensures 0 <= x <= 255 ==> c == x
    ensures x < 0 ==> c == 0
    ensures x > 255 ==> c == 255
  {
    var lo := if x >= 0 then x else 0;
    if lo <= 255 then lo else 255
  }

  /** Clamping is monotone: a larger input never gives a smaller channel. */
  lemma ClampMonotone(x: int, y: int)
    requires x <= y
    ensures Clamp(x) <= Clamp(y)
  {
  }
}
