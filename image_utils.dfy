/**
 * `ImageUtils`: the per-pixel filters on a `BufferedImage`, the 3x3
 * convolution read through `getRGB`, the file-extension and output-format
 * choice of `saveImage`, and the table of supported formats.
 *
 * The result images are `TYPE_INT_RGB`; the model keeps the packed value
 * each filter writes, whose alpha byte is 0.
 */
module ImageUtils {

  import opened Argb
  import opened Int32
  import opened Images
  import opened FloatModel
  import opened Convolution
  import opened Model
  import opened JavaText

  const SUPPORTED_FORMATS: seq<string> := ["jpg", "jpeg", "png", "bmp"]
  const DEFAULT_FORMAT: string := "jpg"

  /** The fixed step of the brightness filter. */
  const BRIGHTNESS_STEP: int := 30

  // ------------------------------------------------------------ point filters

  /** `GRAYSCALE`: `(gray << 16) | (gray << 8) | gray` with the `double` luma of the pixel. */
  function GrayscalePixel(p: Pixel, fm: FloatFns): (q: Pixel)
    ensures Alpha(q) == 0 && Red(q) == Green(q) == Blue(q) == fm.luma(Red(p), Green(p), Blue(p))
  {
    var gray := fm.luma(Red(p), Green(p), Blue(p));
    UnpackPack(0, gray, gray, gray);
    Pack(0, gray, gray, gray)
  }

  /** `BRIGHTNESS`: `Math.min(255, c + 30)` for each colour channel. */
  function BrightenPixel(p: Pixel): (q: Pixel)
    ensures Alpha(q) == 0
    ensures Red(q) == Min(255, Red(p) + BRIGHTNESS_STEP) >= Red(p)
    ensures Green(q) == Min(255, Green(p) + BRIGHTNESS_STEP) >= Green(p)
    ensures Blue(q) == Min(255, Blue(p) + BRIGHTNESS_STEP) >= Blue(p)
  {
    var r, g, b := Min(255, Red(p) + BRIGHTNESS_STEP), Min(255, Green(p) + BRIGHTNESS_STEP), Min(255, Blue(p) + BRIGHTNESS_STEP);
    UnpackPack(0, r, g, b);
    Pack(0, r, g, b)
  }

  /**
   * `CONTRAST`: `(int)Math.min(255, Math.max(0, 1.5 * c))`. For a channel
   * `c` in [0, 255] the `double` product `1.5 * c` is exact and not
   * negative, so the cast truncates `3c / 2`.
   */
  function ContrastLevel(c: Channel): Channel
  {
    Min(255, (3 * c) / 2)
  }

  function ContrastPixel(p: Pixel): (q: Pixel)
    ensures Alpha(q) == 0
    ensures Red(q) == ContrastLevel(Red(p)) && Green(q) == ContrastLevel(Green(p)) && Blue(q) == ContrastLevel(Blue(p))
    ensures Red(p) <= Red(q) && Green(p) <= Green(q) && Blue(p) <= Blue(q)
  {
    UnpackPack(0, ContrastLevel(Red(p)), ContrastLevel(Green(p)), ContrastLevel(Blue(p)));
    Pack(0, ContrastLevel(Red(p)), ContrastLevel(Green(p)), ContrastLevel(Blue(p)))
  }

  /** The per-pixel function of a point-wise filter. */
  function PointFilter(filter: FilterType, fm: FloatFns): Pixel -> Pixel
    requires IsPointwise(filter)
  {
    match filter
    case Grayscale => p => GrayscalePixel(p, fm)
    case Brightness => p => BrightenPixel(p)
    case Contrast => p => ContrastPixel(p)
  }

  // -------------------------------------------------------------- convolution

  /** The output pixel of `applyConvolution` at `(x, y)`: the clamped colour sums, no alpha. */
  function ConvolvedPixel(img: Image, x: nat, y: nat, kernel: ConvKernel, fm: FloatFns): Pixel
    requires img.Valid() && x < img.width && y < img.height
  {
    Pack(0, ConvolvedChannel(img, x, y, kernel, fm, Red),
            ConvolvedChannel(img, x, y, kernel, fm, Green),
            ConvolvedChannel(img, x, y, kernel, fm, Blue))
  }

  function ConvolutionSpec(img: Image, kernel: ConvKernel, fm: FloatFns): (out: Image)
    requires img.Valid()
    ensures out.Valid() && out.width == img.width && out.height == img.height
  {
    Image(img.width, img.height,
          seq(img.height, y requires 0 <= y < img.height =>
            seq(img.width, x requires 0 <= x < img.width => ConvolvedPixel(img, x, y, kernel, fm))))
  }

  function KernelOf(filter: FilterType): ConvKernel
    requires filter == Blur || filter == Sharpen
  {
    if filter == Blur then BlurKernel else SharpenKernel
  }

  /**
   * The image `applyFilter(image, filter)` returns: same width and height,
   * each pixel computed from the source image alone.
   */
  function FilterSpec(img: Image, filter: FilterType, fm: FloatFns): (out: Image)
    requires img.Valid()
    ensures out.Valid() && out.width == img.width && out.height == img.height
  {
    if IsPointwise(filter) then MapPixels(img, PointFilter(filter, fm))
    else ConvolutionSpec(img, KernelOf(filter), fm)
  }

  /** `applyFilter(image, filter)` */
  method ApplyFilter(img: Image, filter: FilterType, fm: FloatFns) returns (result: Image)
    requires img.Valid()
    ensures result == FilterSpec(img, filter, fm)
  {
    if !IsPointwise(filter) {
      result := ApplyConvolution(img, KernelOf(filter), fm);
      return;
    }
    var width, height := img.width, img.height;
    var f := PointFilter(filter, fm);
    var buf := new Pixel[height, width];
    var y := 0;
    while y < height
      invariant 0 <= y <= height
      invariant forall yy, xx :: 0 <= yy < y && 0 <= xx < width ==> buf[yy, xx] == f(img.At(xx, yy))
    {
      var row := FilterRow(img, y, f);
      forall xx | 0 <= xx < width {
        buf[y, xx] := row[xx];
      }
      y := y + 1;
    }
    result := Snapshot(buf);
    ImageExtensionality(result, FilterSpec(img, filter, fm));
  }

  /** The inner `x` loop of the point-filter branch of `applyFilter`: row `y` mapped pixel by pixel. */
  method FilterRow(img: Image, y: nat, f: Pixel -> Pixel) returns (row: seq<Pixel>)
    requires img.Valid() && y < img.height
    ensures |row| == img.width
    ensures forall xx :: 0 <= xx < img.width ==> row[xx] == f(img.At(xx, y))
  {
    row := [];
    var x := 0;
    while x < img.width
      invariant 0 <= x <= img.width && |row| == x
      invariant forall xx :: 0 <= xx < x ==> row[xx] == f(img.At(xx, y))
    {
      row := row + [f(img.At(x, y))];
      x := x + 1;
    }
  }

  /** `applyConvolution(image, kernel, 3)` */
  method ApplyConvolution(img: Image, kernel: ConvKernel, fm: FloatFns) returns (result: Image)
    requires img.Valid()
    ensures result == ConvolutionSpec(img, kernel, fm)
  {
    var width, height := img.width, img.height;
    var buf := new Pixel[height, width];
    var y := 0;
    while y < height
      invariant 0 <= y <= height
      invariant forall yy, xx :: 0 <= yy < y && 0 <= xx < width ==> buf[yy, xx] == ConvolutionSpec(img, kernel, fm).rows[yy][xx]
    {
      var row := ConvolveRow(img, y, kernel, fm);
      forall xx | 0 <= xx < width {
        buf[y, xx] := row[xx];
      }
      y := y + 1;
    }
    result := Snapshot(buf);
    ImageExtensionality(result, ConvolutionSpec(img, kernel, fm));
  }

  /** The inner `x` loop of `applyConvolution`: the output pixels of row `y`, left to right. */
  method ConvolveRow(img: Image, y: nat, kernel: ConvKernel, fm: FloatFns) returns (row: seq<Pixel>)
    requires img.Valid() && y < img.height
    ensures row == ConvolutionSpec(img, kernel, fm).rows[y]
  {
    ghost var want := ConvolutionSpec(img, kernel, fm).rows[y];
    row := [];
    var x := 0;
    while x < img.width
      invariant 0 <= x <= img.width && row == want[..x]
    {
      var p := ConvolvePixel(img, x, y, kernel, fm);
      assert want[..x + 1] == want[..x] + [p];
      row := row + [p];
      x := x + 1;
    }
    assert row == want;
  }

  /** One output pixel of `applyConvolution`: the three weighted sums, clamped and packed with alpha 0. */
  method ConvolvePixel(img: Image, x: nat, y: nat, kernel: ConvKernel, fm: FloatFns) returns (p: Pixel)
    requires img.Valid() && x < img.width && y < img.height
    ensures p == ConvolutionSpec(img, kernel, fm).rows[y][x]
  {
    var r, g, b := KernelSums(img, x, y, kernel, fm);
    p := Pack(0, Clamp(r), Clamp(g), Clamp(b));
    assert p == ConvolvedPixel(img, x, y, kernel, fm);
  }

  /** The `ky`/`kx` loops of one output pixel: the weighted sums of the nine neighbours' channels. */
  method KernelSums(img: Image, x: nat, y: nat, kernel: ConvKernel, fm: FloatFns) returns (r: int, g: int, b: int)
    requires img.Valid() && x < img.width && y < img.height
    ensures r == WeightedSum(kernel, MapSeq(Neighbourhood(img, x, y), Red), fm)
    ensures g == WeightedSum(kernel, MapSeq(Neighbourhood(img, x, y), Green), fm)
    ensures b == WeightedSum(kernel, MapSeq(Neighbourhood(img, x, y), Blue), fm)
  {
    ghost var nb := Neighbourhood(img, x, y);
    var ps: seq<Pixel> := [];
    var ky := 0;
    while ky < KERNEL_SIZE
      invariant 0 <= ky <= KERNEL_SIZE
      invariant ps == nb[..ky * 3]
    {
      var kx := 0;
      while kx < KERNEL_SIZE
        invariant 0 <= kx <= KERNEL_SIZE
        invariant ps == nb[..ky * 3 + kx]
      {
        var px := ClampCoord(x + kx - OFFSET, img.width);
        var py := ClampCoord(y + ky - OFFSET, img.height);
        NeighbourAt(img, x, y, kx, ky);
        ps := ps + [img.At(px, py)];
        kx := kx + 1;
      }
      ky := ky + 1;
    }
    assert ps == nb;
    r := WeightedSum(kernel, MapSeq(ps, Red), fm);
    g := WeightedSum(kernel, MapSeq(ps, Green), fm);
    b := WeightedSum(kernel, MapSeq(ps, Blue), fm);
  }

  // ------------------------------------------------------------- properties

  /** Brightness raises each colour channel by 30 up to 255: it never darkens, and writes no alpha. */
  lemma BrightenChannels(p: Pixel)
    ensures Alpha(BrightenPixel(p)) == 0
    ensures Red(BrightenPixel(p)) == Min(255, Red(p) + 30) >= Red(p)
    ensures Green(BrightenPixel(p)) == Min(255, Green(p) + 30) >= Green(p)
    ensures Blue(BrightenPixel(p)) == Min(255, Blue(p) + 30) >= Blue(p)
  {
  }

  /** Every pixel of a grayscale result has equal red, green and blue. */
  lemma GrayscaleIsGray(img: Image, fm: FloatFns)
    requires img.Valid()
    ensures forall y, x :: 0 <= y < img.height && 0 <= x < img.width ==>
              var q := FilterSpec(img, Grayscale, fm).At(x, y);
              Red(q) == Green(q) == Blue(q)
  {
    forall y, x | 0 <= y < img.height && 0 <= x < img.width
      ensures var q := FilterSpec(img, Grayscale, fm).At(x, y); Red(q) == Green(q) == Blue(q)
    {
      var p := img.At(x, y);
      var gray := fm.luma(Red(p), Green(p), Blue(p));
      UnpackPack(0, gray, gray, gray);
    }
  }

  /** The brightness filter never makes a colour channel of any pixel darker. */
  lemma BrightnessNeverDarkens(img: Image, fm: FloatFns)
    requires img.Valid()
    ensures forall y, x :: 0 <= y < img.height && 0 <= x < img.width ==>
              var p, q := img.At(x, y), FilterSpec(img, Brightness, fm).At(x, y);
              Red(p) <= Red(q) && Green(p) <= Green(q) && Blue(p) <= Blue(q)
  {
    forall y, x | 0 <= y < img.height && 0 <= x < img.width
      ensures var p, q := img.At(x, y), FilterSpec(img, Brightness, fm).At(x, y);
              Red(p) <= Red(q) && Green(p) <= Green(q) && Blue(p) <= Blue(q)
    {
      BrightenChannels(img.At(x, y));
    }
  }

  /** The 1.5 contrast factor never darkens a channel, and brighter stays brighter. */
  lemma ContrastLevelGrows(c: Channel, d: Channel)
    ensures c <= ContrastLevel(c)
    ensures c <= d ==> ContrastLevel(c) <= ContrastLevel(d)
    ensures 170 <= c ==> ContrastLevel(c) == 255
  {
  }

  /** Each output channel of the convolution is the clamped weighted sum; alpha is not written. */
  lemma ConvolutionChannels(img: Image, kernel: ConvKernel, fm: FloatFns, x: nat, y: nat)
    requires img.Valid() && x < img.width && y < img.height
    ensures Alpha(ConvolutionSpec(img, kernel, fm).At(x, y)) == 0
    ensures Red(ConvolutionSpec(img, kernel, fm).At(x, y)) == Clamp(WeightedSum(kernel, MapSeq(Neighbourhood(img, x, y), Red), fm))
    ensures Green(ConvolutionSpec(img, kernel, fm).At(x, y)) == Clamp(WeightedSum(kernel, MapSeq(Neighbourhood(img, x, y), Green), fm))
    ensures Blue(ConvolutionSpec(img, kernel, fm).At(x, y)) == Clamp(WeightedSum(kernel, MapSeq(Neighbourhood(img, x, y), Blue), fm))
  {
    UnpackPack(0, ConvolvedChannel(img, x, y, kernel, fm, Red), ConvolvedChannel(img, x, y, kernel, fm, Green),
               ConvolvedChannel(img, x, y, kernel, fm, Blue));
  }

  /** Sharpening an image of one colour gives back that colour everywhere. */
  lemma SharpenUniform(img: Image, fm: FloatFns, p: Pixel)
    requires img.Valid()
    requires forall y, x :: 0 <= y < img.height && 0 <= x < img.width ==> img.At(x, y) == p
    ensures forall y, x :: 0 <= y < img.height && 0 <= x < img.width ==>
              var q := FilterSpec(img, Sharpen, fm).At(x, y);
              Red(q) == Red(p) && Green(q) == Green(p) && Blue(q) == Blue(p)
  {
    forall y, x | 0 <= y < img.height && 0 <= x < img.width
      ensures var q := FilterSpec(img, Sharpen, fm).At(x, y);
              Red(q) == Red(p) && Green(q) == Green(p) && Blue(q) == Blue(p)
    {
      forall k | 0 <= k < 9
        ensures Neighbour(img, x, y, k) == p
      {
      }
      SharpenFlat(img, x, y, fm, Red);
      SharpenFlat(img, x, y, fm, Green);
      SharpenFlat(img, x, y, fm, Blue);
      ConvolutionChannels(img, SharpenKernel, fm, x, y);
    }
  }

  // ---------------------------------------------------------- file formats

  /**
   * `getFileExtension(path)` on the file-name part of the path: the text
   * after the last `.`, or `"jpg"` when there is no `.` or the last one is
   * the first character.
   */
  function FileExtension(fileName: string): (ext: string)
    ensures LastIndexOf(fileName, '.') > 0 ==>
              |ext| < |fileName| && ext == fileName[|fileName| - |ext|..] && '.' !in ext &&
              fileName[|fileName| - |ext| - 1] == '.'
    ensures LastIndexOf(fileName, '.') <= 0 ==> ext == DEFAULT_FORMAT
  {
    var dotIndex := LastIndexOf(fileName, '.');
    if dotIndex > 0 then fileName[dotIndex + 1..] else DEFAULT_FORMAT
  }

  /** A name `stem.ext` with a non-empty stem and no `.` in `ext` has extension `ext`. */
  lemma FileExtensionOfName(stem: string, ext: string)
    requires stem != [] && '.' !in ext
    ensures FileExtension(stem + "." + ext) == ext
  {
    var name := stem + "." + ext;
    assert name[|stem|] == '.';
    assert forall j :: |stem| < j < |name| ==> name[j] == ext[j - |stem| - 1];
    assert name[|stem| + 1..] == ext;
  }

  /** A name whose only `.` is its first character, or that has none, is saved as JPEG. */
  lemma FileExtensionWithoutStem(fileName: string)
    requires forall j :: 0 < j < |fileName| ==> fileName[j] != '.'
    ensures FileExtension(fileName) == DEFAULT_FORMAT
  {
  }

  /** The format `saveImage` passes to `ImageIO.write`: the lower-cased extension if supported, else `"jpg"`. */
  function SaveFormat(fileName: string): (format: string)
    ensures format in SUPPORTED_FORMATS
    ensures ToLower(FileExtension(fileName)) in SUPPORTED_FORMATS ==> format == ToLower(FileExtension(fileName))
    ensures ToLower(FileExtension(fileName)) !in SUPPORTED_FORMATS ==> format == DEFAULT_FORMAT
  {
    var format := ToLower(FileExtension(fileName));
    if format in SUPPORTED_FORMATS then format else DEFAULT_FORMAT
  }

  /** An upper-case supported extension is saved in its lower-case format. */
  lemma SaveFormatOfPng(stem: string)
    requires stem != []
    ensures SaveFormat(stem + ".PNG") == "png"
  {
    FileExtensionOfName(stem, "PNG");
    assert stem + ".PNG" == stem + "." + "PNG";
    var lower := ToLower("PNG");
    assert lower[0] == 'p' && lower[1] == 'n' && lower[2] == 'g';
    assert lower == "png";
    assert "png" == SUPPORTED_FORMATS[2];
  }

  /** `getSupportedFormats()`: a fresh copy of the table, so a caller writing to it cannot change the table. */
  method GetSupportedFormats() returns (formats: array<string>)
    ensures fresh(formats)
    ensures formats[..] == SUPPORTED_FORMATS
  {
    formats := new string[|SUPPORTED_FORMATS|](i requires 0 <= i < |SUPPORTED_FORMATS| => SUPPORTED_FORMATS[i]);
  }
}
