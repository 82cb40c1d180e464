# Concurrent Image Processor: a Dafny model of its pixel engine

This project models the integer core of the Concurrent Image Processor, a
Java program that loads a batch of images, runs a list of filters on each
of them (grayscale, blur, sharpen, brightness, contrast), and saves the
results. It offers four execution strategies: sequential, fixed-pool
parallel, Vector API (SIMD) and hybrid vector+parallel. The model covers
the parts that can be stated exactly:

- **Packed ARGB pixels** (`argb.dfy`, `int32.dfy`). A Java `int` pixel is
  modelled as a `bv32`. Java's 32-bit wrap-around, logical shift and
  truncating division are spelled out on unbounded integers.
- **The lane-wise kernels** of `VectorUtils` (`vector_utils.dfy`).
  - Brightness, contrast and grayscale have a vector loop in steps of the
    lane count `L`, then a scalar tail.
  - Any vector step may throw. If one does, the scalar loop restarts at 0.
  - `L` is a parameter, and the throw is a nondeterministic choice.
  - The 3x3 convolution runs over a row-major pixel buffer.
- **The per-pixel filters of `ImageUtils`** (`image_utils.dfy`,
  `convolution.dfy`): the filter loops, replicate-edge convolution,
  `getFileExtension`, the output-format choice of `saveImage`, and the
  supported-format table.
- **The quadrant recursion of `TileProcessingTask`**
  (`tile_processing_task.dfy`).
  - Fork/join is modelled as plain recursion.
  - `combineResults` is a method that blits into a raster buffer.
  - It is proved that tiling a point-wise filter equals applying it to
    every pixel.
- **`ImageProcessor`** (`image_processor.dfy`):
  - batching and the per-strategy result counting, with each job's outcome
    given as an input;
  - the filter pipelines and vector dispatch;
  - the tiling threshold;
  - the grow-by-doubling thread-local scratch buffers, modelled as a class.
- **`ProcessingConfig`** (`processing_config.dfy`): the quality clamp over
  reals, and the defensive copies of the filter list.
- **The console front end's line decisions** of `ConcurrentImageProcessor`
  (`concurrent_image_processor.dfy`, `java_text.dfy`):
  - `parseFilterSelection`, whose `HashSet` order is unspecified;
  - the yes/no, integer and menu prompts;
  - `getMethodName`.
  `String.trim`, `toLowerCase`, `split` and `Integer.parseInt` are modelled
  on `seq<char>`.

Floating-point results are not computed. The `double` luma, the `float`
scalar contrast and the blur sum are functions that callers pass in a
`FloatFns` record (`float_model.dfy`). Only what the surrounding integer
code guarantees about them is assumed. The sharpen kernel has small integer
weights, so its `float` sums are exact and are modelled exactly.

What the code does, and what the model therefore states:

- Both contrast paths and the scalar grayscale are not bit-for-bit equal to
  their vector counterparts, because the scalar paths use `float`/`double`.
  Only brightness is proved to agree on both paths.
- The vector contrast shifts with a logical `>>>` (see Findings). The vector
  grayscale's `>>>` agrees with an arithmetic shift, because its sum is
  never negative.
- `ProcessingConfig` keeps duplicate filters and the caller's order.
- `parseFilterSelection` returns filters in `HashSet` order, not in
  selection order.
- Target width and height are stored as given; the constructor does not
  check that they are both positive or both zero.

## Model

| member | source | states |
|---|---|---|
| Argb.PackUnpack | src/main/java/util/VectorUtils.java:56-69 | unpacking a pixel into alpha, red, green and blue and combining them again gives back the same 32 bits |
| Argb.UnpackPack | src/main/java/util/VectorUtils.java:64-69 | each channel of a combined pixel reads back as the value that was put in, so unpacking inverts combining |
| Argb.PixelExtensionality | src/main/java/util/VectorUtils.java:56-61 | two pixels with the same four channels are the same pixel |
| Argb.Clamp | src/main/java/util/VectorUtils.java:75-77 | `clamp` gives a value in [0, 255]: values already in range are unchanged, negatives become 0 and values above 255 become 255 |
| Argb.ClampMonotone | src/main/java/util/VectorUtils.java:75-77 | clamping never turns a larger input into a smaller channel |
| Int32.Wrap | src/main/java/util/VectorUtils.java:99-101 | a Java `int` result is the exact sum whenever that sum fits in 32 bits |
| Int32.WrapCongruent | src/main/java/util/VectorUtils.java:99-101 | the wrapped result differs from the exact one by a multiple of 2^32 |
| Int32.Lshr8 | src/main/java/util/VectorUtils.java:148-150 | `x >>> 8` is at most 2^24 - 1; it equals `x / 256` for non-negative `x` and is at least 2^23 for negative `x` |
| Int32.JavaDiv | src/main/java/util/VectorUtils.java:310 | `int` division truncates toward zero: it is the Euclidean quotient for a non-negative dividend and the negated quotient of the magnitude otherwise |
| JavaText.Trim | src/main/java/ConcurrentImageProcessor.java:177 | `trim` gives an empty string exactly when every character is at most U+0020, and otherwise a string whose first and last characters are above U+0020 |
| JavaText.TrimStrips | src/main/java/ConcurrentImageProcessor.java:177 | the result of `trim` is a run of the input, and every character before and after that run is at most U+0020: only blank ends are removed |
| JavaText.TrimUnpadded | src/main/java/ConcurrentImageProcessor.java:217 | a string with no blank at either end is its own trim |
| JavaText.TrimIdempotent | src/main/java/ConcurrentImageProcessor.java:217 | trimming twice is trimming once |
| JavaText.ToLower | src/main/java/ConcurrentImageProcessor.java:262 | `toLowerCase` keeps the length, turns each capital A-Z into its small letter and leaves every other character alone |
| JavaText.ToLowerIdempotent | src/main/java/ConcurrentImageProcessor.java:262 | lower-casing twice is lower-casing once, and no capital A-Z is left |
| JavaText.LastIndexOf | src/main/java/util/ImageUtils.java:171 | `lastIndexOf(c)` is the largest index holding `c`, or -1 when none does |
| JavaText.SplitOn | src/main/java/ConcurrentImageProcessor.java:173 | splitting gives at least one piece, and no piece contains the separator |
| JavaText.JoinSplitOn | src/main/java/ConcurrentImageProcessor.java:173 | joining the pieces of a split with the separator gives the original string back |
| JavaText.JavaSplit | src/main/java/ConcurrentImageProcessor.java:173 | `split(",")` gives the string itself when there is no comma; otherwise it gives the pieces with only trailing empty ones dropped |
| JavaText.ParseInt | src/main/java/ConcurrentImageProcessor.java:179 | `Integer.parseInt` succeeds exactly when the text after an optional `+` or `-` is a non-empty run of digits whose signed decimal value fits in an `int`, and then yields that value; otherwise it throws, modelled as `None` |
| JavaText.ParseIntToString | src/main/java/ConcurrentImageProcessor.java:223 | every `int` printed in decimal parses back to itself |
| JavaText.ParseIntLeadingZero | src/main/java/ConcurrentImageProcessor.java:179 | leading zeros do not change what `parseInt` gives: `"007"` parses as `"7"` does |
| JavaText.ParseIntPlusSign | src/main/java/ConcurrentImageProcessor.java:179 | an explicit plus sign is accepted: `"+7"` parses as `"7"` does |
| JavaText.ParseIntRejectsLeadingBlank | src/main/java/ConcurrentImageProcessor.java:217 | a string that starts with a blank does not parse, which is why every prompt trims first |
| Convolution.ClampCoord | src/main/java/util/ImageUtils.java:120-121 | a neighbour coordinate always lies inside the image: inner coordinates are kept, and edges are replicated on both sides |
| Convolution.Neighbourhood | src/main/java/util/ImageUtils.java:118-123 | the kernel reads nine pixels, and entry 4 (`kx == ky == offset`) is the centre pixel itself |
| Convolution.NeighbourAt | src/main/java/util/VectorUtils.java:252-255 | kernel entry `ky * 3 + kx` is the pixel at the clamped coordinates `(x + kx - 1, y + ky - 1)` |
| Convolution.SharpenFlat | src/main/java/util/ImageUtils.java:69 | with the weights `{0,-1,0,-1,5,-1,0,-1,0}`, a channel that is uniform over the neighbourhood is left unchanged |
| Images.SubImage | src/main/java/task/TileProcessingTask.java:61-65 | `getSubimage(x, y, w, h)` is a `w` by `h` image whose pixel `(xx, yy)` is pixel `(x + xx, y + yy)` of the source |
| Images.SubImageWhole | src/main/java/task/TileProcessingTask.java:61-65 | the sub-image of the whole image is the image |
| Images.Snapshot | src/main/java/util/ImageUtils.java:44-56 | the image that a raster buffer holds has the buffer's size, and each pixel is the buffer entry at the same place |
| Images.Unflatten | src/main/java/util/ImageUtils.java:189-191 | `setRGBArray` turns a `w * h` buffer into `h` rows of `w` pixels |
| Images.FlattenLength | src/main/java/util/ImageUtils.java:185-187 | `getRGBArray` of a `w`-wide image with `h` rows fills `h * w` entries |
| Images.FlattenAt | src/main/java/util/VectorUtils.java:255 | entry `y * w + x` of the row-major buffer is pixel `(x, y)` |
| Images.RowMajorBound | src/main/java/util/VectorUtils.java:255 | `py * width + px` indexes inside a `width * height` buffer |
| Images.UnflattenFlatten | src/main/java/util/ImageUtils.java:185-191 | reading an image with `getRGBArray` and storing the buffer back with `setRGBArray` gives the same rows |
| Images.FlattenUnflatten | src/main/java/util/ImageUtils.java:185-191 | storing a buffer with `setRGBArray` and reading it back gives the same buffer |
| Images.FlattenMapRows | src/main/java/processor/ImageProcessor.java:457-481 | mapping each pixel and then flattening equals flattening and then mapping each buffer entry |
| Model.ProcessingStats.constructor | src/main/java/model/ProcessingStats.java:6-9 | a new statistics record has all three counters at zero |
| ProcessingConfig.ClampQualityRange | src/main/java/config/ProcessingConfig.java:22 | the stored quality lies in [0.1, 1.0]; a quality already in range is kept, and one outside moves to the nearer end |
| ProcessingConfig.ClampQuality | src/main/java/config/ProcessingConfig.java:22 | `Math.max(0.1f, Math.min(1.0f, q))` lies in [0.1, 1.0] and keeps a quality that is already in range |
| ProcessingConfig.ClampQualityIdempotent | src/main/java/config/ProcessingConfig.java:22 | clamping a stored quality again changes nothing |
| ProcessingConfig.ClampQualityMonotone | src/main/java/config/ProcessingConfig.java:22 | a larger requested quality never gives a smaller stored one |
| ProcessingConfig.Create | src/main/java/config/ProcessingConfig.java:17-24 | the configuration holds the caller's filters in order with duplicates kept, stores the sizes and the tile flag as given, and stores the clamped quality `ClampQuality(q)`, which lies in [0.1, 1.0] and is `q` itself when in range |
| ProcessingConfig.CreateThenChangeCallerList | src/main/java/config/ProcessingConfig.java:19 | writing to the caller's list after construction leaves the configuration's filters as they were |
| ProcessingConfig.GetFilters | src/main/java/config/ProcessingConfig.java:27-29 | `getFilters` returns a fresh list equal to the stored filters |
| VectorUtils.CombineComponents | src/main/java/util/VectorUtils.java:56-69 | `new ColorComponents(p).combine()` gives back `p` |
| VectorUtils.ComponentsOfCombine | src/main/java/util/VectorUtils.java:56-69 | unpacking a combined pixel gives back the same four components |
| VectorUtils.BrightnessChannels | src/main/java/util/VectorUtils.java:99-106 | a vector brightness lane keeps alpha and sets each colour channel to `clamp(c + brightness)`, with the sum wrapping as a Java `int` |
| VectorUtils.BrightnessWithoutOverflow | src/main/java/util/VectorUtils.java:99-101 | when `brightness <= MAX_INT - 255` the sum cannot wrap, so each channel is the clamped plain sum |
| VectorUtils.BrightnessPathsAgree | src/main/java/util/VectorUtils.java:99-123 | the vector lane and the scalar tail compute the same pixel for every pixel and every brightness |
| VectorUtils.BrightnessOfBlack | src/main/java/util/VectorUtils.java:99-106 | black brightened by 30 has every colour channel at 30 and keeps its alpha |
| VectorUtils.ContrastChannels | src/main/java/util/VectorUtils.java:148-155 | a vector contrast lane keeps alpha and sets each colour channel to `clamp(((c - 128) * k >>> 8) + 128)` |
| VectorUtils.ContrastLevelLane | src/main/java/util/VectorUtils.java:148-150 | the as-written lane formula `clamp(((c - 128) * k >>> 8) + 128)`: for channels at or above 128 and factors up to 2^23 nothing wraps, and it is `clamp((c - 128) * k / 256 + 128)` |
| VectorUtils.ContrastLevelIntended | src/main/java/util/VectorUtils.java:148-150 | the corrected formula with an arithmetic shift agrees with the as-written one on every channel at or above 128 |
| VectorUtils.ProductInRange | src/main/java/util/VectorUtils.java:148 | for a factor in [0, 2^23], `(c - 128) * k` fits in an `int`, so the multiplication does not wrap |
| VectorUtils.ContrastLaneDarkSaturates | src/main/java/util/VectorUtils.java:148-150 | as written, under any positive factor up to 2^23, every channel below 128 becomes 255 |
| VectorUtils.ContrastOfBlackAtNeutralFactor | src/main/java/util/VectorUtils.java:148-150 | as written, the neutral factor 1.0 (`k == 256`) maps a black channel to 255 |
| VectorUtils.ContrastIntendedNeutral | src/main/java/util/VectorUtils.java:147 | with the arithmetic shift, the neutral factor leaves every channel unchanged |
| VectorUtils.ContrastIntendedMonotone | src/main/java/util/VectorUtils.java:147 | with the arithmetic shift and a factor in [0, 2^23], a brighter channel never comes out darker |
| VectorUtils.GrayLevelLane | src/main/java/util/VectorUtils.java:195-198 | the gray level is `(77r + 150g + 29b) / 256`, and it fits in a channel because the weights sum to 256 |
| VectorUtils.GrayLevelOfGray | src/main/java/util/VectorUtils.java:46-48 | a channel triple that is already gray keeps its level |
| VectorUtils.GrayChannels | src/main/java/util/VectorUtils.java:195-203 | a vector grayscale pixel has equal red, green and blue at the weighted level, and keeps alpha |
| VectorUtils.GrayScalarChannels | src/main/java/util/VectorUtils.java:213-220 | a scalar grayscale pixel has equal red, green and blue, and keeps alpha |
| VectorUtils.GrayLaneIdempotent | src/main/java/util/VectorUtils.java:195-203 | converting a vector-grayscale pixel to grayscale again leaves it unchanged |
| VectorUtils.LoopBound | src/main/java/util/VectorUtils.java:95 | `loopBound(length)` leaves fewer than `L` elements over: `bound <= length < bound + L` |
| VectorUtils.LoopBoundAligned | src/main/java/util/VectorUtils.java:95 | the bound is a multiple of `L`, and no multiple of `L` up to `length` exceeds it: it is the largest such multiple |
| VectorUtils.NextChunkFits | src/main/java/util/VectorUtils.java:95-96 | a vector read that starts at a multiple of `L` below the loop bound ends within it |
| VectorUtils.KernelSpec | src/main/java/util/VectorUtils.java:90-124 | a kernel's output has one entry per source entry |
| VectorUtils.LaneWiseThenScalar | src/main/java/util/VectorUtils.java:90-124 | every `dst` entry is written: below the loop bound by the lane formula when no vector step threw, and otherwise by the scalar formula, including the rewrite from 0 after a throw |
| VectorUtils.VectorLoop | src/main/java/util/VectorUtils.java:94-112 | the vector loop stops at the loop bound when no step threw, and never past it; every entry before where it stopped holds the lane formula |
| VectorUtils.CheckArguments | src/main/java/util/VectorUtils.java:83-88 | the kernel throws `IllegalArgumentException` for a null array or for a length mismatch (iff in both cases); otherwise it proceeds |
| VectorUtils.AdjustBrightness | src/main/java/util/VectorUtils.java:82-125 | it throws exactly as the argument checks say, leaving `dst` untouched; otherwise `dst` holds the kernel's output with the brightness lane and scalar formulas |
| VectorUtils.AdjustContrast | src/main/java/util/VectorUtils.java:130-173 | the same for contrast, with the fixed-point factor on the vector path and the `float` formula on the scalar path |
| VectorUtils.ConvertToGrayscale | src/main/java/util/VectorUtils.java:178-222 | the same for grayscale, with the fixed-point weights on the vector path and the `double` luma on the scalar path |
| VectorUtils.BrightnessKernelDeterministic | src/main/java/util/VectorUtils.java:95-123 | the brightness output is the same for every lane width, whether or not a vector step threw |
| VectorUtils.KernelKeepsAlpha | src/main/java/util/VectorUtils.java:95-221 | every entry that any of the three kernels writes keeps the alpha of its source entry, on either path |
| VectorUtils.PixelKeepsAlpha | src/main/java/util/VectorUtils.java:103-123 | each lane and scalar formula of the three kernels keeps the alpha of its pixel |
| VectorUtils.GrayKernelIsGray | src/main/java/util/VectorUtils.java:190-221 | every entry of a grayscale output has equal red, green and blue, on either path |
| VectorUtils.GrayPixelIsGray | src/main/java/util/VectorUtils.java:195-220 | both grayscale formulas give a pixel with equal red, green and blue |
| VectorUtils.ConvolutionVectorSpec | src/main/java/util/VectorUtils.java:232-276 | the convolution result has the source's width and height |
| VectorUtils.ReadNeighbour | src/main/java/util/VectorUtils.java:252-255 | `srcPixels[py * width + px]` with clamped coordinates is neighbour `ky * 3 + kx` of the output pixel |
| VectorUtils.ReadKernelEntry | src/main/java/util/VectorUtils.java:252-264 | one `kx` step appends the next neighbour, and takes alpha exactly at the centre entry |
| VectorUtils.ReadKernelRow | src/main/java/util/VectorUtils.java:251-265 | the `kx` loop appends the three neighbours of kernel row `ky`, and takes alpha only in the centre row |
| VectorUtils.AccumulateKernel | src/main/java/util/VectorUtils.java:246-266 | the `ky`/`kx` loops take alpha from the centre pixel, and give the weighted sums of the nine neighbours' red, green and blue |
| VectorUtils.ConvolvePixel | src/main/java/util/VectorUtils.java:246-272 | one output pixel is the centre alpha with each colour sum clamped to [0, 255] |
| VectorUtils.ConvolveRowVector | src/main/java/util/VectorUtils.java:245-273 | the `x` loop produces output row `y` of the convolution |
| VectorUtils.ApplyConvolutionVector | src/main/java/util/VectorUtils.java:227-276 | the destination buffer, stored back with `setRGB`, is the convolution of the source |
| VectorUtils.OptimalChunkSize | src/main/java/util/VectorUtils.java:308-316 | with `chunks = totalPixels / L`: fewer than 64 chunks give `max(4L, totalPixels)`, fewer than 256 give `16L`, and more give `64L`; a chunk always holds at least four vectors and a large image is never smaller than its chunk |
| VectorUtils.ManyVectors | src/main/java/util/VectorUtils.java:310-313 | an image that holds at least 64 whole vectors has at least `64 * L` pixels |
| ImageUtils.FilterSpec | src/main/java/util/ImageUtils.java:41-103 | `applyFilter` returns an image of the same width and height |
| ImageUtils.GrayscalePixel | src/main/java/util/ImageUtils.java:50-56 | a grayscale pixel has red, green and blue all equal to the luma of the source pixel, and alpha 0 |
| ImageUtils.BrightenPixel | src/main/java/util/ImageUtils.java:76-80 | each colour channel becomes `min(255, c + 30)`, never smaller than `c`, and alpha is 0 |
| ImageUtils.ContrastPixel | src/main/java/util/ImageUtils.java:89-93 | each colour channel becomes the 1.5-times level capped at 255, never smaller than `c`, and alpha is 0 |
| ImageUtils.ApplyFilter | src/main/java/util/ImageUtils.java:41-103 | the nested loops write every pixel of the result: the point filter of the same source pixel, or the convolution for blur and sharpen |
| ImageUtils.FilterRow | src/main/java/util/ImageUtils.java:74-82 | the inner `x` loop fills row `y` with the filter of each source pixel in that row |
| ImageUtils.ConvolutionSpec | src/main/java/util/ImageUtils.java:108-141 | `applyConvolution` returns an image of the same width and height |
| ImageUtils.ApplyConvolution | src/main/java/util/ImageUtils.java:108-141 | every pixel of the result is the clamped convolution at that place |
| ImageUtils.ConvolveRow | src/main/java/util/ImageUtils.java:115-137 | the `x` loop fills row `y` with the convolved pixels |
| ImageUtils.ConvolvePixel | src/main/java/util/ImageUtils.java:116-136 | one output pixel is the clamped weighted sums packed without alpha |
| ImageUtils.KernelSums | src/main/java/util/ImageUtils.java:118-130 | the `ky`/`kx` loops give the weighted sums of the nine clamped neighbours' red, green and blue |
| ImageUtils.BrightenChannels | src/main/java/util/ImageUtils.java:73-83 | brightness sets each colour channel to `min(255, c + 30)`, which is never smaller than `c`, and writes no alpha |
| ImageUtils.BrightnessNeverDarkens | src/main/java/util/ImageUtils.java:73-83 | no channel of any pixel of a brightened image is darker than in the source |
| ImageUtils.GrayscaleIsGray | src/main/java/util/ImageUtils.java:47-59 | every pixel of a grayscale result has equal red, green and blue |
| ImageUtils.ContrastLevelGrows | src/main/java/util/ImageUtils.java:85-96 | the 1.5 factor never darkens a channel, keeps brighter channels brighter, and saturates from 170 up |
| ImageUtils.ConvolutionChannels | src/main/java/util/ImageUtils.java:132-136 | each output channel is the weighted sum clamped to [0, 255], and alpha is not written |
| ImageUtils.SharpenUniform | src/main/java/util/ImageUtils.java:67-71 | sharpening a single-colour image gives that colour back everywhere, apart from the alpha it does not write |
| ImageUtils.FileExtension | src/main/java/util/ImageUtils.java:169-173 | the extension is the text after the last `.` when that dot is past index 0, and `"jpg"` otherwise |
| ImageUtils.FileExtensionOfName | src/main/java/util/ImageUtils.java:169-173 | `stem.ext` with a non-empty stem and no dot in `ext` has extension `ext` |
| ImageUtils.FileExtensionWithoutStem | src/main/java/util/ImageUtils.java:172 | a name with no dot after index 0 gets `"jpg"` |
| ImageUtils.SaveFormat | src/main/java/util/ImageUtils.java:30-33 | the chosen format is always one of jpg, jpeg, png or bmp: the lower-cased extension when it is supported, and `"jpg"` otherwise |
| ImageUtils.SaveFormatOfPng | src/main/java/util/ImageUtils.java:30-33 | an upper-case `.PNG` is saved as `"png"` |
| ImageUtils.GetSupportedFormats | src/main/java/util/ImageUtils.java:178-180 | the result is a fresh array equal to the table, so writing to it cannot change the table |
| TileProcessingTask.SplitPartitions | src/main/java/task/TileProcessingTask.java:38-44 | every point of the rectangle lies in exactly one quadrant, and no quadrant reaches outside the rectangle |
| TileProcessingTask.SplitShape | src/main/java/task/TileProcessingTask.java:38-44 | the quadrants line up; their widths and heights add up to the parent's; the right and bottom quadrants take the odd pixel |
| TileProcessingTask.SplitShrinks | src/main/java/task/TileProcessingTask.java:32-44 | a task that splits has quadrants with positive width and height, each strictly smaller than the parent's, so the recursion ends |
| TileProcessingTask.ProcessTile | src/main/java/task/TileProcessingTask.java:61-65 | a leaf result has exactly the rectangle's size |
| TileProcessingTask.CombineSpec | src/main/java/task/TileProcessingTask.java:67-72 | the combined image is `(tl.width + tr.width)` by `(tl.height + bl.height)` |
| TileProcessingTask.CombinePlacement | src/main/java/task/TileProcessingTask.java:75-78 | for quadrants that line up, each combined pixel comes from the one part whose area holds it, at that part's offset; there are no gaps and no overlaps |
| TileProcessingTask.DrawImage | src/main/java/task/TileProcessingTask.java:75-78 | `drawImage` copies the part of the source that fits at the offset, and leaves every other buffer entry unchanged |
| TileProcessingTask.CombineResults | src/main/java/task/TileProcessingTask.java:67-82 | the blitted buffer equals the combined image |
| TileProcessingTask.Compute | src/main/java/task/TileProcessingTask.java:30-59 | `compute` returns an image of exactly the task's width and height |
| TileProcessingTask.LeafMapsRect | src/main/java/task/TileProcessingTask.java:32-35 | a leaf task filters each pixel of its rectangle |
| TileProcessingTask.CombineMapsRect | src/main/java/task/TileProcessingTask.java:38-58 | combining four quadrant results that each filter their quadrant gives the filtered parent rectangle |
| TileProcessingTask.TiledPointwise | src/main/java/task/TileProcessingTask.java:30-59 | pixel `(px, py)` of a tiled point-wise result is the filter of source pixel `(x + px, y + py)` |
| TileProcessingTask.MapsRectIsMapPixels | src/main/java/task/TileProcessingTask.java:61-65 | an image that filters a rectangle pixel by pixel is the filter mapped over that sub-image |
| TileProcessingTask.TiledEqualsUntiled | src/main/java/task/TileProcessingTask.java:30-59 | for a point-wise filter, the tiled result equals the filter applied to every pixel of the rectangle |
| ImageProcessor.BatchSizeIsSixteen | src/main/java/processor/ImageProcessor.java:95 | `Math.max(1, MAX_THREAD_POOL_SIZE * 2)` is 16 |
| ImageProcessor.CreateBatches | src/main/java/processor/ImageProcessor.java:375-382 | concatenating the batches gives back the input in order; every batch is non-empty and at most `batchSize` long; only the last may be shorter; there are `ceil(n / batchSize)` of them |
| ImageProcessor.SuccessesCountsSaved | src/main/java/processor/ImageProcessor.java:150-166 | the success count is the number of jobs that ended with the image saved |
| ImageProcessor.Successes | src/main/java/processor/ImageProcessor.java:150-166 | the number of jobs counted as processed is never more than the number of jobs |
| ImageProcessor.SuccessesAppend | src/main/java/processor/ImageProcessor.java:150-166 | counting batch by batch adds up to counting all jobs at once |
| ImageProcessor.Record | src/main/java/processor/ImageProcessor.java:152-165 | one finished job adds one to exactly one counter (a saved image to `imagesProcessed`, any other outcome to `failedImages`) and changes nothing else |
| ImageProcessor.RecordAll | src/main/java/processor/ImageProcessor.java:150-166 | the collection loop adds the saved jobs to `imagesProcessed` and all other jobs to `failedImages` |
| ImageProcessor.ProcessImagesSequential | src/main/java/processor/ImageProcessor.java:35-77 | `imagesProcessed` counts the saved images, `imagesProcessed + failedImages` is the number of images, and `totalTime` is the elapsed time |
| ImageProcessor.ProcessImagesParallel | src/main/java/processor/ImageProcessor.java:82-193 | the same counts when the images go in batches of 16 |
| ImageProcessor.ProcessImagesVector | src/main/java/processor/ImageProcessor.java:198-254 | the same counts, with or without the sequential fallback |
| ImageProcessor.ProcessImagesVectorParallel | src/main/java/processor/ImageProcessor.java:259-370 | the same counts, with or without the parallel fallback |
| ImageProcessor.SequentialSpec | src/main/java/processor/ImageProcessor.java:387-395 | the filter pipeline keeps the image's width and height |
| ImageProcessor.SequentialSpecAppend | src/main/java/processor/ImageProcessor.java:387-395 | running two filter lists one after the other is running their concatenation, so filters apply in list order |
| ImageProcessor.ApplyFiltersSequential | src/main/java/processor/ImageProcessor.java:387-395 | the loop applies `applyFilter` for each filter, first to last |
| ImageProcessor.GetRGBArray | src/main/java/util/ImageUtils.java:185-187 | the image goes row by row into the front of the array, and the rest of the array is left as it was |
| ImageProcessor.VectorFilterSpec | src/main/java/processor/ImageProcessor.java:451-483 | `applyFilterVector` keeps the image's width and height |
| ImageProcessor.ApplyFilterVector | src/main/java/processor/ImageProcessor.java:451-483 | point-wise filters run their kernel over a buffer of exactly the image's size and store it back; blur and sharpen go through the vector convolution |
| ImageProcessor.VectorSpec | src/main/java/processor/ImageProcessor.java:400-408 | the vector pipeline keeps the image's width and height |
| ImageProcessor.ApplyFiltersVector | src/main/java/processor/ImageProcessor.java:400-408 | the loop applies `applyFilterVector` for each filter, first to last |
| ImageProcessor.FrontOfKernelSpec | src/main/java/processor/ImageProcessor.java:493-527 | when a kernel runs over a longer scratch buffer, the front of its output depends only on the front of its input |
| ImageProcessor.BufferedKernelImageExact | src/main/java/processor/ImageProcessor.java:493-527 | a scratch buffer of exactly the image's size gives what `applyFilterVector` gives |
| ImageProcessor.TiledSpec | src/main/java/processor/ImageProcessor.java:435-442 | running each filter as one tile task over the previous result keeps the image's size |
| ImageProcessor.ParallelTilesSpec | src/main/java/processor/ImageProcessor.java:426-446 | the tile pipeline keeps the image's size |
| ImageProcessor.ApplyFiltersParallelTiles | src/main/java/processor/ImageProcessor.java:426-446 | images narrower or shorter than 512 go through `applyFiltersSequential`; larger ones go through one tile task per filter |
| ImageProcessor.TilesMatchSequential | src/main/java/processor/ImageProcessor.java:426-446 | for point-wise filter lists, the tile pipeline gives the same image as the sequential one, whatever the image size |
| ImageProcessor.TiledSpecIsSequential | src/main/java/processor/ImageProcessor.java:437-441 | the tiled filter loop equals the sequential filter loop for point-wise filters |
| ImageProcessor.ScratchBuffers.constructor | src/main/java/processor/ImageProcessor.java:26-27 | both thread-local buffers start as fresh arrays of 1024 * 1024 entries |
| ImageProcessor.ScratchBuffers.GetSrcBuffer | src/main/java/processor/ImageProcessor.java:540-547 | the source buffer returned is at least `requiredSize` long: the same array when it was long enough, otherwise a new one of length `max(required, 2 * old)`, which is stored; the destination buffer is untouched |
| ImageProcessor.ScratchBuffers.GetDstBuffer | src/main/java/processor/ImageProcessor.java:552-559 | the same for the destination buffer |
| ImageProcessor.ScratchBuffers.GetBuffers | src/main/java/processor/ImageProcessor.java:493-494 | both getters on one request leave the two buffers distinct, of equal length and at least `requiredSize` long |
| ImageProcessor.ScratchBuffers.Remove | src/main/java/processor/ImageProcessor.java:564-571 | `ThreadLocal.remove` on both slots resets the calling thread's pair: its next request starts again from fresh initial buffers |
| ImageProcessor.GrownLengthBounds | src/main/java/processor/ImageProcessor.java:543 | a grown buffer is long enough and fits in an `int`, and it is at least twice the old length when that fits |
| ImageProcessor.GrownLength | src/main/java/processor/ImageProcessor.java:543 | `Math.max(requiredSize, buffer.length * 2)` with the 32-bit product is at least the requested size, at most `Integer.MAX_VALUE`, and at least double the old length when that fits |
| ImageProcessor.Grow | src/main/java/processor/ImageProcessor.java:541-546 | the same array when it is long enough; otherwise a fresh one of the grown length |
| ImageProcessor.ApplyFilterVectorThreadSafe | src/main/java/processor/ImageProcessor.java:488-535 | the scratch buffers stay valid: they are kept when already large enough, and otherwise are fresh arrays of the grown length; point-wise filters give the front of the kernel output over the whole source buffer, whose length is stated; blur and sharpen give the vector convolution |
| ImageProcessor.UnflattenMapRow | src/main/java/processor/ImageProcessor.java:457-481 | a buffer mapped entry by entry and stored back is the image mapped pixel by pixel |
| ImageProcessor.PathsThatAgree | src/main/java/util/VectorUtils.java:95-123 | when the lane and scalar formulas agree, the kernel output is the scalar formula on every entry, whichever path each entry took |
| ImageProcessor.VectorBrightnessIsPointwise | src/main/java/processor/ImageProcessor.java:460-462 | vector brightness gives the scalar brightness of each pixel, whatever the lane width, the vector outcome or the scratch-buffer length |
| ImageProcessor.BrightnessPathsAgreeOnColour | src/main/java/processor/ImageProcessor.java:460-462 | `applyFilter(BRIGHTNESS)` and the vector brightness give every pixel the same red, green and blue |
| ImageProcessor.VectorGrayscaleIsGray | src/main/java/processor/ImageProcessor.java:507-508 | every pixel of the thread-safe vector grayscale has equal red, green and blue |
| ConcurrentImageProcessor.ClassifyBlank | src/main/java/ConcurrentImageProcessor.java:177-178 | a piece is skipped exactly when every character in it is at most U+0020 |
| ConcurrentImageProcessor.Classify | src/main/java/ConcurrentImageProcessor.java:177-179 | a piece is skipped exactly when it trims to nothing; a piece that parses gives an index within the `int` range (the parsed value minus one, wrapped) |
| ConcurrentImageProcessor.ClassifyPrinted | src/main/java/ConcurrentImageProcessor.java:177-179 | a piece that trims to a printed number `n` selects index `n - 1`, wrapped to 32 bits |
| ConcurrentImageProcessor.ClassifyLetter | src/main/java/ConcurrentImageProcessor.java:179 | a piece whose first visible character is a letter is a parse failure |
| ConcurrentImageProcessor.SelectedIndicesSnoc | src/main/java/ConcurrentImageProcessor.java:176-186 | one more piece is one more turn of the parse loop |
| ConcurrentImageProcessor.SelectedIndicesFails | src/main/java/ConcurrentImageProcessor.java:172-194 | the parse loop fails exactly when some piece is neither blank nor a number |
| ConcurrentImageProcessor.SelectedIndicesMembers | src/main/java/ConcurrentImageProcessor.java:176-186 | when the loop does not fail, it collects exactly the in-range indices `n - 1` of the numeric pieces, and skips out-of-range ones |
| ConcurrentImageProcessor.SelectedIndicesFailureSticks | src/main/java/ConcurrentImageProcessor.java:176-194 | once a piece fails to parse, no later piece can rescue the selection |
| ConcurrentImageProcessor.CollectIndices | src/main/java/ConcurrentImageProcessor.java:173-186 | the loop computes the collected index set or the failure, and every collected index is in range |
| ConcurrentImageProcessor.AddPiece | src/main/java/ConcurrentImageProcessor.java:176-185 | one turn of the loop: it fails exactly when the pieces so far contain one that is not a number, and otherwise yields the index set of the pieces so far |
| ConcurrentImageProcessor.SelectedIndicesInRange | src/main/java/ConcurrentImageProcessor.java:180-182 | only indices in `[0, count)` are ever collected |
| ConcurrentImageProcessor.ReadOutDistinct | src/main/java/ConcurrentImageProcessor.java:188-190 | filters read out at distinct indices of a list of distinct filters are distinct, so no filter is selected twice |
| ConcurrentImageProcessor.ReadOut | src/main/java/ConcurrentImageProcessor.java:188-190 | each collected index becomes `availableFilters[index]` once, in some order, and the result is empty only for an empty set |
| ConcurrentImageProcessor.EmptyInputSelectsNothing | src/main/java/ConcurrentImageProcessor.java:173-178 | the empty string splits into one blank piece, which selects nothing |
| ConcurrentImageProcessor.ParseFilterSelection | src/main/java/ConcurrentImageProcessor.java:163-202 | empty, malformed or empty-selecting input gives `[GRAYSCALE, BLUR]`; otherwise the result is exactly the selected filters, each once; it is never empty, and it has no duplicates when the table has none |
| ConcurrentImageProcessor.BooleanDecision | src/main/java/ConcurrentImageProcessor.java:260-269 | after trimming and lower-casing, a line that starts with "y" or equals "true" means yes; one that starts with "n" or equals "false" means no; any other line is asked again |
| ConcurrentImageProcessor.TrimToLower | src/main/java/ConcurrentImageProcessor.java:262 | lower-casing commutes with trimming |
| ConcurrentImageProcessor.BooleanDecisionIgnoresCase | src/main/java/ConcurrentImageProcessor.java:262-267 | the yes/no decision does not depend on letter case |
| ConcurrentImageProcessor.IntDecision | src/main/java/ConcurrentImageProcessor.java:214-232 | a line is accepted exactly when its trimmed text parses to a value in `[min, max]`, and that value is returned |
| ConcurrentImageProcessor.IntDecisionAcceptsPrinted | src/main/java/ConcurrentImageProcessor.java:217-226 | every in-range number, typed as Java prints it, is accepted as itself |
| ConcurrentImageProcessor.MenuDecision | src/main/java/ConcurrentImageProcessor.java:632-650 | an accepted menu choice lies in [0, 7] |
| ConcurrentImageProcessor.MenuDecisionAcceptsEntries | src/main/java/ConcurrentImageProcessor.java:641-644 | each menu entry from 0 to 7, typed as its number, is accepted |
| ConcurrentImageProcessor.MethodName | src/main/java/ConcurrentImageProcessor.java:520-528 | choices 1 to 4 have their own names, and every other choice is "Unknown" |
| ConcurrentImageProcessor.MethodNamesDistinct | src/main/java/ConcurrentImageProcessor.java:521-525 | the four strategies have four different names |

## Left out

- **Threads and scheduling are not modelled.** Executors, `ForkJoinPool`, futures and their timeouts, `cancel`, shutdown, `VECTOR_LOCK` and `synchronized` are absent. The batch loops run one job after another, and each job's outcome (saved, failed, timed out, threw) is an input. Tile subtasks are plain recursion.
- **GC and memory probes are not modelled.** `System.gc`, `Thread.yield` and the out-of-memory handlers are advisory and depend on the environment.
- **Codecs and Java2D are not modelled.**
  - They are foreign library calls: ImageIO reading and writing, `resizeImage`, `deepCopy`, `ensureARGB` and `createCompatibleImage`.
  - `deepCopy` is the identity on image values.
  - The file name is given as a string, because `Path.getFileName` is not modelled.
- **Image-type alpha is not modelled.** `applyFilter` and `applyConvolution` write into `TYPE_INT_RGB` images. Java2D then reports alpha 255 for them. The model keeps the packed value the code writes, whose alpha byte is 0.
- **Floating point is not computed.** This covers the `double` luma, the `float` scalar contrast, the blur sum and `(int)(contrast * 256)`. They are supplied functions or constants: the factor `1.2f` becomes `k == 307`. The quality is a real, so a NaN quality is not modelled.
- **Vector platform probing is a parameter.** `isVectorAPISupported` is a boolean parameter, and the species' lane count is `L`, between 1 and 64.
- **Console I/O is not modelled.** This covers the `Scanner` retry loops, `getFloatInput` (it parses a `float`), the menus and reports, `displaySystemInfo`, `displayPerformanceComparison`, `ProcessingStats.toString` and `main`. Each prompt is modelled by its decision on one line.
- **File-system access is not modelled.** `findImageFiles` and `validateDirectory` depend on the file system and on `Path` normalisation.
- **Java text is modelled on ASCII only.** `Integer.parseInt` is modelled on ASCII digits, and `toLowerCase` on ASCII letters. Java also accepts other Unicode decimal digits and folds other Unicode letters.
- **Null arguments are modelled only for the kernels.** Only the point-wise kernels model `null` (`array?`). Elsewhere, Java's null checks and `NullPointerException`s have no counterpart, because Dafny values are never null.
- **The `default` branches of the filter switches are left out.** They are unreachable, because `FilterType` has exactly five constants.
- **Convolution under tiling is not modelled.** With blur or sharpen, each tile clamps at its own edges, so results differ along tile seams. The tiling theorems are stated for point-wise filters only.
- ImageProcessor.ApplyFilterVectorThreadSafe: does not model the `catch` fallback to `applyFilter`. Its kernels are proved never to throw on the equal-length, distinct scratch buffers.
- `applyFiltersVectorThreadSafe` is not modelled as its own loop. It is the same fold as `applyFiltersVector`, with `applyFilterVectorThreadSafe` as the step.
- ImageProcessor.RecordAll: the counters are unbounded. A Java `int` counter would wrap after 2^31 images.
- **`image.getWidth() * image.getHeight()` wrap-around is excluded.** ImageProcessor.ApplyFilterVectorThreadSafe requires that the product fits in an `int`, so the wrap-around is not modelled.
- ImageProcessor.ScratchBuffers.Remove: models `ThreadLocal.remove` on the thread that calls it. The program calls `cleanupThreadLocalResources` only once, in the `finally` of `processImagesVectorParallel` (processor/ImageProcessor.java:364), on the thread that started the hybrid run, after the pool is shut down. The jobs ran on pool worker threads, so this call resets none of the buffers the jobs used; a worker's arrays go away only when its thread ends. The model has one `ScratchBuffers` per thread and does not model which thread runs which job, so it does not show this.
- ImageProcessor.ScratchBuffers.GetSrcBuffer: requires the stored buffer to be at most `Integer.MAX_VALUE` long, as every Java array is. The same holds for GetDstBuffer and Grow.
- ImageProcessor.ProcessImagesSequential: the counting contract covers runs in which every job ends normally or with an `Exception`. Java's loop catches only `Exception`, so an `Error` such as `OutOfMemoryError` leaves the method without returning any statistics, while the model counts it as a failure.
- ImageProcessor.ProcessImagesVector: the same holds. Its loop also catches only `Exception`, and an `Error` in a job ends the run without statistics.
- VectorUtils.AdjustBrightness, VectorUtils.AdjustContrast and VectorUtils.ConvertToGrayscale require `src` and `dst` to be different arrays. Java accepts one array as both. Every caller in the program passes two distinct arrays, so the in-place use is not modelled.
- **Row-wise output, not pixel-wise.** `ImageUtils.applyFilter` and `applyConvolution` compute each output row as a sequence and then write it into the raster buffer. The Java code calls `setRGB` pixel by pixel, but nothing reads the result before the loop ends.
- **The destination buffer of `applyConvolutionVector` is a sequence.** Its `int[]` is written in index order only, so it is modelled as the sequence of the entries written so far. Its `catch` fallback (drawing the source) is left out, because the reads are proved in bounds.
- **The parse loop is split into helper methods.** The loop of `parseFilterSelection` is split into `CollectIndices` (with its loop body `AddPiece`) and `ReadOut` so that each can be proved on its own. The order in which `ReadOut` lists a `HashSet` is any order.

## Findings

| source | as written | input that shows it | evidently intended | confidence | as-written member | corrected member |
|---|---|---|---|---|---|---|
| src/main/java/util/VectorUtils.java:148-150 | the vector contrast shifts `(c - 128) * k` with `LSHR` (`>>>`), so a negative product becomes a value of at least 2^23, and the channel clamps to 255 | a black channel `c = 0` with `contrastInt = 256` (contrast 1.0): `(0 - 128) * 256` is -32768, `-32768 >>> 8` is 16777088, and adding 128 and clamping gives 255 | an arithmetic shift (`>> 8`, floor division by 256), which leaves every channel unchanged at factor 1.0 and keeps brighter channels brighter | high, not executed | VectorUtils.ContrastOfBlackAtNeutralFactor | VectorUtils.ContrastIntendedNeutral |

The kernels of the model keep the logical shift, as the program does:
`AdjustContrast` and every lemma about the vector contrast use
`ContrastLevelLane`. `ContrastLevelIntended` is the definition with the
arithmetic shift. `ContrastIntendedNeutral` and `ContrastIntendedMonotone`
prove the intended properties about it.
