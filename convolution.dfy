/**
 * The 3x3 convolution shared by `ImageUtils.applyConvolution` and
 * `VectorUtils.applyConvolutionVector`: replicate-edge neighbour coordinates,
 * the two kernels the program uses, and the clamped colour channels.
 */
module Convolution {

  import opened Argb
  import opened Images
  import opened FloatModel

  /** Both callers pass `kernelSize == 3`, so `offset == kernelSize / 2 == 1`. */
  const KERNEL_SIZE: nat := 3
  const OFFSET: nat := KERNEL_SIZE / 2

  /** `Math.min(Math.max(v, 0), size - 1)`: a neighbour coordinate with replicated edges. */
  function ClampCoord(v: int, size: nat): (c: nat)
    requires size >= 1
    ensures c < size
    ensures 0 <= v < size ==> c == v
    ensures v < 0 ==> c == 0
    ensures v >= size ==> c == size - 1
  {
    var lo := if v >= 0 then v else 0;
    if lo <= size - 1 then lo else size - 1
  }

  /**
   * The two kernels: `{1/9f, ..., 1/9f}` (blur) and `{0, -1, 0, -1, 5, -1, 0, -1, 0}` (sharpen).
   */
  datatype ConvKernel = BlurKernel | SharpenKernel

  /** The neighbour read for kernel entry `k == ky * 3 + kx` of the output pixel at `(x, y)`. */
  function Neighbour(img: Image, x: nat, y: nat, k: nat): Pixel
    requires img.Valid() && x < img.width && y < img.height && k < 9
  {
    img.At(ClampCoord(x + k % 3 - OFFSET, img.width), ClampCoord(y + k / 3 - OFFSET, img.height))
  }

  /** The nine pixels under the kernel, row by row (`ky` outer, `kx` inner). */
  function Neighbourhood(img: Image, x: nat, y: nat): (n: seq<Pixel>)
    requires img.Valid() && x < img.width && y < img.height
    ensures |n| == 9 && n[4] == img.At(x, y)
  {
    seq(9, k requires 0 <= k < 9 => Neighbour(img, x, y, k))
  }

  /** Kernel entry `ky * 3 + kx` is the clamped neighbour `kx - 1` columns and `ky - 1` rows away. */
  lemma NeighbourAt(img: Image, x: nat, y: nat, kx: nat, ky: nat)
    requires img.Valid() && x < img.width && y < img.height && kx < 3 && ky < 3
    ensures Neighbourhood(img, x, y)[ky * 3 + kx]
         == img.rows[ClampCoord(y + ky - OFFSET, img.height)][ClampCoord(x + kx - OFFSET, img.width)]
  {
    KernelIndex(ky, kx);
  }

  lemma KernelIndex(ky: nat, kx: nat)
    requires kx < 3
    ensures (ky * 3 + kx) % 3 == kx && (ky * 3 + kx) / 3 == ky
  {
  }

  /**
   * `(int)` of the accumulated `float` `r += weight * channel` over the nine
   * neighbours. The sharpen weights are small integers, so every partial sum
   * is an integer that `float` holds exactly; the blur sum is not modelled.
   */
  function WeightedSum(kernel: ConvKernel, cs: seq<Channel>, fm: FloatFns): int
    requires |cs| == 9
  {
    match kernel
    case BlurKernel => fm.boxBlurSum(cs)
    case SharpenKernel => 5 * (cs[4] as int) - cs[1] - cs[3] - cs[5] - cs[7]
  }

  /** `Math.min(255, Math.max(0, (int)sum))` of one colour channel at `(x, y)`. */
  function ConvolvedChannel(img: Image, x: nat, y: nat, kernel: ConvKernel, fm: FloatFns, channel: Pixel -> Channel): Channel
    requires img.Valid() && x < img.width && y < img.height
  {
    Clamp(WeightedSum(kernel, MapSeq(Neighbourhood(img, x, y), channel), fm))
  }

  /** Sharpening leaves a channel unchanged where the whole neighbourhood has that channel value. */
  lemma SharpenFlat(img: Image, x: nat, y: nat, fm: FloatFns, channel: Pixel -> Channel)
    requires img.Valid() && x < img.width && y < img.height
    requires forall k :: 0 <= k < 9 ==> channel(Neighbour(img, x, y, k)) == channel(img.At(x, y))
    ensures ConvolvedChannel(img, x, y, SharpenKernel, fm, channel) == channel(img.At(x, y))
  {
    var cs := MapSeq(Neighbourhood(img, x, y), channel);
    assert cs[1] == cs[3] == cs[5] == cs[7] == cs[4];
  }
}
