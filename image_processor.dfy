/**
 * `ImageProcessor`: the four processing strategies and the filter pipelines
 * they run. Thread pools, futures and timeouts are not modelled: how each
 * image's job ended is an input, and the result-collection loops are run
 * one job after another. The clock reading that becomes `totalTime` is an
 * input too.
 */
module ImageProcessor {

  import opened Argb
  import opened Int32
  import opened Images
  import opened FloatModel
  import opened Convolution
  import opened Model
  import opened ImageUtils
  import opened VectorUtils
  import TileProcessingTask

  const MAX_THREAD_POOL_SIZE: int := 8
  const TILE_SIZE: int := 256

  /** The length both thread-local scratch buffers start with. */
  const INITIAL_BUFFER_SIZE: nat := 1024 * 1024

  /** The batch size of both batched strategies: `Math.max(1, MAX_THREAD_POOL_SIZE * 2)`. */
  const BATCH_SIZE: int := Max(1, MAX_THREAD_POOL_SIZE * 2)

  lemma BatchSizeIsSixteen()
    ensures BATCH_SIZE == 16
  {
  }

  // ---------------------------------------------------------------- batches

  /** The lists of `ss` one after another. */
  function Concat<T>(ss: seq<seq<T>>): seq<T>
  {
    if ss == [] then [] else Concat(ss[..|ss| - 1]) + ss[|ss| - 1]
  }

  lemma ConcatSnoc<T>(ss: seq<seq<T>>, s: seq<T>)
    ensures Concat(ss + [s]) == Concat(ss) + s
  {
    assert (ss + [s])[..|ss|] == ss;
  }

  /** Euclidean division is determined by the bounds of the quotient. */
  lemma DivUnique(x: nat, d: nat, q: nat)
    requires 0 < d && q * d <= x < q * d + d
    ensures x / d == q
  {
    var r := x / d;
    assert r * d <= x < r * d + d;
    if r < q {
      MulLeft(r + 1, q, d);
      MulSucc(r, d);
    } else if q < r {
      MulLeft(q + 1, r, d);
      MulSucc(q, d);
    }
  }

  lemma MulSucc(k: nat, d: nat)
    ensures (k + 1) * d == k * d + d
  {
  }

  /**
   * `createBatches`: consecutive slices `[i, min(i + batchSize, n))` for
   * `i = 0, batchSize, 2 * batchSize, ...`. Read back in order they give the
   * input; each is non-empty and at most `batchSize` long, only the last may
   * be shorter, and there are `ceil(n / batchSize)` of them.
   */
  method CreateBatches<T>(items: seq<T>, batchSize: int) returns (batches: seq<seq<T>>)
    requires 0 < batchSize
    ensures Concat(batches) == items
    ensures forall k :: 0 <= k < |batches| ==> 0 < |batches[k]| <= batchSize
    ensures forall k :: 0 <= k < |batches| - 1 ==> |batches[k]| == batchSize
    ensures |batches| == (|items| + batchSize - 1) / batchSize
  {
    batches := [];
    var i := 0;
    while i < |items|
      invariant 0 <= i && i == |batches| * batchSize
      invariant Concat(batches) == items[..Min(i, |items|)]
      invariant forall k :: 0 <= k < |batches| ==> 0 < |batches[k]| <= batchSize
      invariant forall k :: 0 <= k < |batches| - 1 ==> |batches[k]| == batchSize
      invariant batches != [] ==> |batches[|batches| - 1]| == batchSize || |items| <= i
      invariant batches != [] ==> i - batchSize < |items|
    {
      var end := Min(i + batchSize, |items|);
      var batch := items[i..end];
      ConcatSnoc(batches, batch);
      assert items[..i] + batch == items[..end];
      MulSucc(|batches|, batchSize);
      batches := batches + [batch];
      i := i + batchSize;
    }
    if batches != [] {
      MulSucc(|batches| - 1, batchSize);
    }
    DivUnique(|items| + batchSize - 1, batchSize, |batches|);
  }

  // ------------------------------------------------------------ job outcomes

  /** How the job for one image ended, as the strategy's result loop sees it. */
  datatype JobOutcome =
    | Saved      // the image was loaded, filtered and saved: the job returned true
    | NotLoaded  // `loadImage` returned null
    | Threw      // an `Exception` in the job; in the pooled strategies also an `OutOfMemoryError` or a failed `future.get`
    | TimedOut   // `future.get` timed out and the future was cancelled

  /** The number of jobs that ended with the image saved. */
  function Successes(outcomes: seq<JobOutcome>): (n: nat)
    ensures n <= |outcomes|
  {
    if outcomes == [] then 0
    else Successes(outcomes[..|outcomes| - 1]) + (if outcomes[|outcomes| - 1] == Saved then 1 else 0)
  }

  /** `Successes` counts the occurrences of `Saved`. */
  lemma {:induction false} SuccessesCountsSaved(outcomes: seq<JobOutcome>)
    ensures Successes(outcomes) == multiset(outcomes)[Saved]
  {
    if outcomes != [] {
      var n := |outcomes|;
      SuccessesCountsSaved(outcomes[..n - 1]);
      assert outcomes == outcomes[..n - 1] + [outcomes[n - 1]];
    }
  }

  lemma {:induction false} SuccessesAppend(a: seq<JobOutcome>, b: seq<JobOutcome>)
    ensures Successes(a + b) == Successes(a) + Successes(b)
  {
    if b != [] {
      SuccessesAppend(a, b[..|b| - 1]);
      assert (a + b)[..|a + b| - 1] == a + b[..|b| - 1];
    } else {
      assert a + b == a;
    }
  }

  /**
   * The bookkeeping for one finished job: a saved image adds one to
   * `imagesProcessed`, every other outcome adds one to `failedImages`.
   */
  method Record(stats: ProcessingStats, outcome: JobOutcome)
    modifies stats
    ensures stats.imagesProcessed == old(stats.imagesProcessed) + (if outcome == Saved then 1 else 0)
    ensures stats.failedImages == old(stats.failedImages) + (if outcome == Saved then 0 else 1)
    ensures stats.totalTime == old(stats.totalTime)
  {
    if outcome == Saved {
      stats.imagesProcessed := stats.imagesProcessed + 1;
    } else {
      stats.failedImages := stats.failedImages + 1;
    }
  }

  /** The result loop over a list of jobs: each adds to exactly one counter, and neither counter decreases. */
  method RecordAll(stats: ProcessingStats, outcomes: seq<JobOutcome>)
    modifies stats
    ensures stats.imagesProcessed == old(stats.imagesProcessed) + Successes(outcomes)
    ensures stats.failedImages == old(stats.failedImages) + |outcomes| - Successes(outcomes)
    ensures stats.totalTime == old(stats.totalTime)
  {
    var i := 0;
    while i < |outcomes|
      invariant 0 <= i <= |outcomes|
      invariant stats.imagesProcessed == old(stats.imagesProcessed) + Successes(outcomes[..i])
      invariant stats.failedImages == old(stats.failedImages) + i - Successes(outcomes[..i])
      invariant stats.totalTime == old(stats.totalTime)
    {
      Record(stats, outcomes[i]);
      assert outcomes[..i + 1][..i] == outcomes[..i];
      i := i + 1;
    }
    assert outcomes[..i] == outcomes;
  }

  /** `processImagesSequential`: one image after another; `outcomes[i]` is how image `i` ended. */
  method ProcessImagesSequential(outcomes: seq<JobOutcome>, elapsed: int) returns (stats: ProcessingStats)
    ensures fresh(stats)
    ensures stats.imagesProcessed == Successes(outcomes)
    ensures stats.imagesProcessed + stats.failedImages == |outcomes|
    ensures stats.totalTime == elapsed
  {
    stats := new ProcessingStats();
    RecordAll(stats, outcomes);
    stats.totalTime := elapsed;
  }

  /**
   * `processImagesParallel`: the images in batches of `BATCH_SIZE`, all jobs
   * of a batch submitted, then their results collected in submission order.
   */
  method ProcessImagesParallel(outcomes: seq<JobOutcome>, elapsed: int) returns (stats: ProcessingStats)
    ensures fresh(stats)
    ensures stats.imagesProcessed == Successes(outcomes)
    ensures stats.imagesProcessed + stats.failedImages == |outcomes|
    ensures stats.totalTime == elapsed
  {
    stats := new ProcessingStats();
    var batches := CreateBatches(outcomes, BATCH_SIZE);
    var b := 0;
    while b < |batches|
      invariant 0 <= b <= |batches|
      invariant stats.imagesProcessed == Successes(Concat(batches[..b]))
      invariant stats.imagesProcessed + stats.failedImages == |Concat(batches[..b])|
      invariant stats.totalTime == 0
    {
      RecordAll(stats, batches[b]);
      assert batches[..b + 1] == batches[..b] + [batches[b]];
      ConcatSnoc(batches[..b], batches[b]);
      SuccessesAppend(Concat(batches[..b]), batches[b]);
      b := b + 1;
    }
    assert batches[..b] == batches;
    stats.totalTime := elapsed;
  }

  /**
   * `processImagesVector`: without vector support it returns what
   * `processImagesSequential` returns; otherwise one image after another.
   */
  method ProcessImagesVector(outcomes: seq<JobOutcome>, vectorSupported: bool, elapsed: int) returns (stats: ProcessingStats)
    ensures fresh(stats)
    ensures stats.imagesProcessed == Successes(outcomes)
    ensures stats.imagesProcessed + stats.failedImages == |outcomes|
    ensures stats.totalTime == elapsed
  {
    if !vectorSupported {
      stats := ProcessImagesSequential(outcomes, elapsed);
      return;
    }
    stats := new ProcessingStats();
    RecordAll(stats, outcomes);
    stats.totalTime := elapsed;
  }

  /**
   * `processImagesVectorParallel`: without vector support it returns what
   * `processImagesParallel` returns; otherwise the same batched collection.
   */
  method ProcessImagesVectorParallel(outcomes: seq<JobOutcome>, vectorSupported: bool, elapsed: int) returns (stats: ProcessingStats)
    ensures fresh(stats)
    ensures stats.imagesProcessed == Successes(outcomes)
    ensures stats.imagesProcessed + stats.failedImages == |outcomes|
    ensures stats.totalTime == elapsed
  {
    if !vectorSupported {
      stats := ProcessImagesParallel(outcomes, elapsed);
      return;
    }
    stats := new ProcessingStats();
    var batches := CreateBatches(outcomes, BATCH_SIZE);
    var b := 0;
    while b < |batches|
      invariant 0 <= b <= |batches|
      invariant stats.imagesProcessed == Successes(Concat(batches[..b]))
      invariant stats.imagesProcessed + stats.failedImages == |Concat(batches[..b])|
      invariant stats.totalTime == 0
    {
      RecordAll(stats, batches[b]);
      assert batches[..b + 1] == batches[..b] + [batches[b]];
      ConcatSnoc(batches[..b], batches[b]);
      SuccessesAppend(Concat(batches[..b]), batches[b]);
      b := b + 1;
    }
    assert batches[..b] == batches;
    stats.totalTime := elapsed;
  }

  // ------------------------------------------------------- filter pipelines

  /** `applyFiltersSequential`: each filter of the list applied by `applyFilter`, first to last. */
  function SequentialSpec(img: Image, filters: seq<FilterType>, fm: FloatFns): (out: Image)
    requires img.Valid()
    ensures out.Valid() && out.width == img.width && out.height == img.height
  {
    if filters == [] then img
    else FilterSpec(SequentialSpec(img, filters[..|filters| - 1], fm), filters[|filters| - 1], fm)
  }

  /** Running two filter lists one after the other is running their concatenation. */
  lemma {:induction false} SequentialSpecAppend(img: Image, first: seq<FilterType>, second: seq<FilterType>, fm: FloatFns)
    requires img.Valid()
    ensures SequentialSpec(img, first + second, fm) == SequentialSpec(SequentialSpec(img, first, fm), second, fm)
  {
    if second == [] {
      assert first + second == first;
    } else {
      var n := |second|;
      SequentialSpecAppend(img, first, second[..n - 1], fm);
      assert (first + second)[..|first + second| - 1] == first + second[..n - 1];
    }
  }

  method ApplyFiltersSequential(image: Image, filters: seq<FilterType>, fm: FloatFns) returns (result: Image)
    requires image.Valid()
    ensures result == SequentialSpec(image, filters, fm)
  {
    result := image;
    var i := 0;
    while i < |filters|
      invariant 0 <= i <= |filters|
      invariant result == SequentialSpec(image, filters[..i], fm)
    {
      assert filters[..i + 1][..i] == filters[..i];
      result := ApplyFilter(result, filters[i], fm);
      i := i + 1;
    }
    assert filters[..i] == filters;
  }

  // --------------------------------------------------------- vector dispatch

  /** The brightness step `applyFilterVector` passes to `adjustBrightness`. */
  const VECTOR_BRIGHTNESS: JInt := 30

  /** `(int)(1.2f * 256)`: the fixed-point factor `adjustContrast(src, dst, 1.2f)` computes. */
  const VECTOR_CONTRAST_FACTOR: JInt := 307

  /** The lane formula of a point-wise filter's vector kernel. */
  function LaneOf(filter: FilterType): Pixel -> Pixel
    requires IsPointwise(filter)
  {
    match filter
    case Brightness => BrightnessLaneFn(VECTOR_BRIGHTNESS)
    case Contrast => ContrastLaneFn(VECTOR_CONTRAST_FACTOR)
    case Grayscale => GrayLaneFn()
  }

  /** The scalar formula of a point-wise filter's vector kernel. */
  function ScalarOf(filter: FilterType, fm: FloatFns): Pixel -> Pixel
    requires IsPointwise(filter)
  {
    match filter
    case Brightness => BrightnessScalarFn(VECTOR_BRIGHTNESS)
    case Contrast => ContrastScalarFn(fm)
    case Grayscale => GrayScalarFn(fm)
  }

  /**
   * The front `width * height` entries of a kernel's `dst` when the kernel
   * ran over a buffer of `bufferLength` entries whose front holds `flat`:
   * entry `j` took the lane formula when the lane loop completed and `j`
   * lies below the loop bound of the whole buffer.
   */
  function BufferedPixels(flat: seq<Pixel>, L: LaneWidth, lane: Pixel -> Pixel, scalar: Pixel -> Pixel,
                          lanesUsed: bool, bufferLength: nat): (d: seq<Pixel>)
    ensures |d| == |flat|
  {
    seq(|flat|, j requires 0 <= j < |flat| =>
      if lanesUsed && j < LoopBound(bufferLength, L) then lane(flat[j]) else scalar(flat[j]))
  }

  /** The front of a kernel's output over a longer buffer depends only on the front of its input. */
  lemma FrontOfKernelSpec(buf: seq<Pixel>, front: seq<Pixel>, L: LaneWidth, lane: Pixel -> Pixel, scalar: Pixel -> Pixel, lanesUsed: bool)
    requires |front| <= |buf| && front == buf[..|front|]
    ensures KernelSpec(buf, L, lane, scalar, lanesUsed)[..|front|] == BufferedPixels(front, L, lane, scalar, lanesUsed, |buf|)
  {
  }

  /** The image `setRGBArray` builds from the front of such a `dst`. */
  function BufferedKernelImage(img: Image, filter: FilterType, L: LaneWidth, fm: FloatFns,
                               lanesUsed: bool, bufferLength: nat): (out: Image)
    requires img.Valid() && IsPointwise(filter)
    ensures out.Valid() && out.width == img.width && out.height == img.height
  {
    FlattenLength(img.rows, img.width);
    var pixels := BufferedPixels(Flatten(img.rows), L, LaneOf(filter), ScalarOf(filter, fm), lanesUsed, bufferLength);
    Image(img.width, img.height, Unflatten(pixels, img.width, img.height))
  }

  /** `applyFilterVector(image, filter)` for the lane outcome `lanesUsed` of its kernel. */
  function VectorFilterSpec(img: Image, filter: FilterType, L: LaneWidth, fm: FloatFns, lanesUsed: bool): (out: Image)
    requires img.Valid()
    ensures out.Valid() && out.width == img.width && out.height == img.height
  {
    if IsPointwise(filter) then
      FlattenLength(img.rows, img.width);
      Image(img.width, img.height,
            Unflatten(KernelSpec(Flatten(img.rows), L, LaneOf(filter), ScalarOf(filter, fm), lanesUsed), img.width, img.height))
    else ConvolutionVectorSpec(img, KernelOf(filter), fm)
  }

  /** A buffer of exactly the image's size gives what `applyFilterVector` gives. */
  lemma BufferedKernelImageExact(img: Image, filter: FilterType, L: LaneWidth, fm: FloatFns, lanesUsed: bool)
    requires img.Valid() && IsPointwise(filter)
    ensures BufferedKernelImage(img, filter, L, fm, lanesUsed, img.width * img.height)
         == VectorFilterSpec(img, filter, L, fm, lanesUsed)
  {
    FlattenLength(img.rows, img.width);
    var flat := Flatten(img.rows);
    assert BufferedPixels(flat, L, LaneOf(filter), ScalarOf(filter, fm), lanesUsed, |flat|)
        == KernelSpec(flat, L, LaneOf(filter), ScalarOf(filter, fm), lanesUsed);
  }

  /** `getRGBArray(image, pixels)`: the image row by row into the front of `pixels`; the rest is left as it was. */
  method GetRGBArray(image: Image, pixels: array<Pixel>)
    requires image.Valid() && image.width * image.height <= pixels.Length
    modifies pixels
    ensures pixels[..image.width * image.height] == Flatten(image.rows)
    ensures pixels[image.width * image.height..] == old(pixels[image.width * image.height..])
  {
    FlattenLength(image.rows, image.width);
    var flat := Flatten(image.rows);
    forall j | 0 <= j < |flat| {
      pixels[j] := flat[j];
    }
  }

  /**
   * `applyFilterVector`: the image into a fresh `int[]`, the kernel of the
   * filter into a second one, and that back into a new image; blur and
   * sharpen go through `applyConvolutionVector` instead.
   */
  method ApplyFilterVector(image: Image, filter: FilterType, L: LaneWidth, fm: FloatFns)
    returns (result: Image, ghost lanesUsed: bool)
    requires image.Valid()
    ensures result == VectorFilterSpec(image, filter, L, fm, lanesUsed)
  {
    lanesUsed := true;
    if !IsPointwise(filter) {
      result := ApplyConvolutionVector(image, KernelOf(filter), fm);
      return;
    }
    var totalPixels := image.width * image.height;
    var srcPixels := new Pixel[totalPixels];
    var dstPixels := new Pixel[totalPixels];
    GetRGBArray(image, srcPixels);
    assert srcPixels[..] == Flatten(image.rows);
    var r: KernelResult;
    match filter {
      case Brightness =>
        r := AdjustBrightness(srcPixels, dstPixels, VECTOR_BRIGHTNESS, L);
      case Contrast =>
        r := AdjustContrast(srcPixels, dstPixels, VECTOR_CONTRAST_FACTOR, L, fm);
      case Grayscale =>
        r := ConvertToGrayscale(srcPixels, dstPixels, L, fm);
    }
    lanesUsed := r.lanesUsed;
    result := Image(image.width, image.height, Unflatten(dstPixels[..], image.width, image.height));
  }

  /** `applyFiltersVector` when the `k`-th kernel's lanes completed exactly when `trace[k]` holds. */
  function VectorSpec(img: Image, filters: seq<FilterType>, L: LaneWidth, fm: FloatFns, trace: seq<bool>): (out: Image)
    requires img.Valid() && |trace| == |filters|
    ensures out.Valid() && out.width == img.width && out.height == img.height
  {
    if filters == [] then img
    else
      var n := |filters|;
      VectorFilterSpec(VectorSpec(img, filters[..n - 1], L, fm, trace[..n - 1]), filters[n - 1], L, fm, trace[n - 1])
  }

  /** `applyFiltersVector`: `applyFilterVector` for each filter of the list, first to last. */
  method ApplyFiltersVector(image: Image, filters: seq<FilterType>, L: LaneWidth, fm: FloatFns)
    returns (result: Image, ghost trace: seq<bool>)
    requires image.Valid()
    ensures |trace| == |filters| && result == VectorSpec(image, filters, L, fm, trace)
  {
    result := image;
    trace := [];
    var i := 0;
    while i < |filters|
      invariant 0 <= i <= |filters| && |trace| == i
      invariant result == VectorSpec(image, filters[..i], L, fm, trace)
    {
      ghost var lanesUsed;
      result, lanesUsed := ApplyFilterVector(result, filters[i], L, fm);
      assert filters[..i + 1][..i] == filters[..i];
      assert (trace + [lanesUsed])[..i] == trace;
      trace := trace + [lanesUsed];
      i := i + 1;
    }
    assert filters[..i] == filters;
  }

  // ----------------------------------------------------------- tile pipeline

  /** `applyFiltersParallelTiles` tiles only images at least `2 * TILE_SIZE` wide and high. */
  predicate UsesTiles(img: Image)
  {
    img.width >= TILE_SIZE * 2 && img.height >= TILE_SIZE * 2
  }

  /** Each filter of the list run as one `TileProcessingTask` over the whole of the previous result. */
  function TiledSpec(img: Image, filters: seq<FilterType>, fm: FloatFns): (out: Image)
    requires img.Valid() && 0 < img.width && 0 < img.height
    ensures out.Valid() && out.width == img.width && out.height == img.height
  {
    if filters == [] then img
    else
      var prev := TiledSpec(img, filters[..|filters| - 1], fm);
      TileProcessingTask.Compute(prev, filters[|filters| - 1], fm, TileProcessingTask.Rect(0, 0, prev.width, prev.height))
  }

  function ParallelTilesSpec(img: Image, filters: seq<FilterType>, fm: FloatFns): (out: Image)
    requires img.Valid()
    ensures out.Valid() && out.width == img.width && out.height == img.height
  {
    if UsesTiles(img) then TiledSpec(img, filters, fm) else SequentialSpec(img, filters, fm)
  }

  /** `applyFiltersParallelTiles`: small images go to `applyFiltersSequential`, larger ones through the tile tasks. */
  method ApplyFiltersParallelTiles(image: Image, filters: seq<FilterType>, fm: FloatFns) returns (result: Image)
    requires image.Valid()
    ensures result == ParallelTilesSpec(image, filters, fm)
  {
    if image.width < TILE_SIZE * 2 || image.height < TILE_SIZE * 2 {
      result := ApplyFiltersSequential(image, filters, fm);
      return;
    }
    result := image;
    var i := 0;
    while i < |filters|
      invariant 0 <= i <= |filters|
      invariant result == TiledSpec(image, filters[..i], fm)
    {
      assert filters[..i + 1][..i] == filters[..i];
      result := TileProcessingTask.Compute(result, filters[i], fm, TileProcessingTask.Rect(0, 0, result.width, result.height));
      i := i + 1;
    }
    assert filters[..i] == filters;
  }

  /**
   * For lists of point-wise filters the tile pipeline gives the same image
   * as the sequential one, whatever the image size.
   */
  lemma TilesMatchSequential(img: Image, filters: seq<FilterType>, fm: FloatFns)
    requires img.Valid()
    requires forall k :: 0 <= k < |filters| ==> IsPointwise(filters[k])
    ensures ParallelTilesSpec(img, filters, fm) == SequentialSpec(img, filters, fm)
  {
    if UsesTiles(img) {
      TiledSpecIsSequential(img, filters, fm);
    }
  }

  lemma {:induction false} TiledSpecIsSequential(img: Image, filters: seq<FilterType>, fm: FloatFns)
    requires img.Valid() && 0 < img.width && 0 < img.height
    requires forall k :: 0 <= k < |filters| ==> IsPointwise(filters[k])
    ensures TiledSpec(img, filters, fm) == SequentialSpec(img, filters, fm)
  {
    if filters != [] {
      var n := |filters|;
      TiledSpecIsSequential(img, filters[..n - 1], fm);
      var prev := SequentialSpec(img, filters[..n - 1], fm);
      TileProcessingTask.TiledEqualsUntiled(prev, filters[n - 1], fm, TileProcessingTask.Rect(0, 0, prev.width, prev.height));
      SubImageWhole(prev);
    }
  }

  // -------------------------------------------------- thread-local buffers

  /**
   * The slots of the two thread-local scratch buffers as one thread sees
   * them. Both start at `INITIAL_BUFFER_SIZE` and are grown by the same rule
   * on the same request, so they stay equally long and distinct, which is
   * what the kernels' argument checks ask for. Each worker thread of the
   * hybrid run has its own pair; the model follows one thread's pair.
   */
  class ScratchBuffers {
    var src: array<Pixel>
    var dst: array<Pixel>

    ghost predicate Valid()
      reads this
    {
      src != dst && src.Length == dst.Length && INITIAL_BUFFER_SIZE <= src.Length <= Int32.MAX
    }

    /** The `ThreadLocal.withInitial` arrays. */
    constructor ()
      ensures Valid() && fresh(src) && fresh(dst) && src.Length == INITIAL_BUFFER_SIZE
    {
      src := new Pixel[INITIAL_BUFFER_SIZE];
      dst := new Pixel[INITIAL_BUFFER_SIZE];
    }

    /** `getThreadLocalSrcBuffer(requiredSize)` */
    method GetSrcBuffer(requiredSize: JInt) returns (buffer: array<Pixel>)
      requires src.Length <= Int32.MAX
      modifies this
      ensures buffer == src && dst == old(dst) && requiredSize <= buffer.Length <= Int32.MAX
      ensures old(src.Length) >= requiredSize ==> src == old(src)
      ensures old(src.Length) < requiredSize ==> fresh(src) && src.Length == GrownLength(old(src.Length), requiredSize)
    {
      src := Grow(src, requiredSize);
      buffer := src;
    }

    /** `getThreadLocalDstBuffer(requiredSize)` */
    method GetDstBuffer(requiredSize: JInt) returns (buffer: array<Pixel>)
      requires dst.Length <= Int32.MAX
      modifies this
      ensures buffer == dst && src == old(src) && requiredSize <= buffer.Length <= Int32.MAX
      ensures old(dst.Length) >= requiredSize ==> dst == old(dst)
      ensures old(dst.Length) < requiredSize ==> fresh(dst) && dst.Length == GrownLength(old(dst.Length), requiredSize)
    {
      dst := Grow(dst, requiredSize);
      buffer := dst;
    }

    /** The two getter calls that open `applyFilterVectorThreadSafe`: both buffers for one request. */
    method GetBuffers(requiredSize: JInt) returns (s: array<Pixel>, d: array<Pixel>)
      requires Valid()
      modifies this
      ensures Valid() && s == src && d == dst && requiredSize <= s.Length
      ensures old(src.Length) >= requiredSize ==> src == old(src) && dst == old(dst)
      ensures old(src.Length) < requiredSize ==> fresh(src) && fresh(dst) && src.Length == GrownLength(old(src.Length), requiredSize)
    {
      s := GetSrcBuffer(requiredSize);
      d := GetDstBuffer(requiredSize);
    }

    /**
     * `ThreadLocal.remove` on both slots, as `cleanupThreadLocalResources`
     * does: it resets only the pair of the thread that calls it, whose next
     * request starts again from fresh initial buffers. The program calls it
     * once, on the thread that started the hybrid run, so the pairs of the
     * pool's worker threads are never reset by it.
     */
    method Remove()
      modifies this
      ensures Valid() && fresh(src) && fresh(dst) && src.Length == INITIAL_BUFFER_SIZE
    {
      src := new Pixel[INITIAL_BUFFER_SIZE];
      dst := new Pixel[INITIAL_BUFFER_SIZE];
    }
  }

  /** `Math.max(requiredSize, buffer.length * 2)` with the 32-bit product of Java. */
  function GrownLength(length: nat, requiredSize: JInt): (grown: int)
    ensures requiredSize <= grown <= Int32.MAX
    ensures length * 2 <= Int32.MAX ==> length * 2 <= grown
  {
    Max(requiredSize, Wrap(length * 2))
  }

  /** A grown buffer is long enough, no longer than an array can be, and at least twice as long when that fits. */
  lemma GrownLengthBounds(length: nat, requiredSize: JInt)
    requires length < requiredSize
    ensures length < requiredSize <= GrownLength(length, requiredSize) <= Int32.MAX
    ensures length * 2 <= Int32.MAX ==> length * 2 <= GrownLength(length, requiredSize)
  {
  }

  /** The shared body of the two getters: the same array when long enough, otherwise a new one. */
  method Grow(buffer: array<Pixel>, requiredSize: JInt) returns (b: array<Pixel>)
    requires buffer.Length <= Int32.MAX
    ensures requiredSize <= b.Length <= Int32.MAX
    ensures buffer.Length >= requiredSize ==> b == buffer
    ensures buffer.Length < requiredSize ==> fresh(b) && b.Length == GrownLength(buffer.Length, requiredSize)
  {
    b := buffer;
    if buffer.Length < requiredSize {
      GrownLengthBounds(buffer.Length, requiredSize);
      b := new Pixel[GrownLength(buffer.Length, requiredSize)];
    }
  }

  /**
   * `applyFilterVectorThreadSafe` on one worker's buffers: the pixels go to
   * the front of the (possibly longer) source buffer, the kernel runs over
   * the whole of both buffers, and the front of the destination buffer
   * becomes the result. The buffers are equally long and distinct, so the
   * kernel's argument check passes and its fallback is never taken.
   */
  method ApplyFilterVectorThreadSafe(buffers: ScratchBuffers, image: Image, filter: FilterType, L: LaneWidth, fm: FloatFns)
    returns (result: Image, ghost lanesUsed: bool, ghost bufferLength: nat)
    requires buffers.Valid() && image.Valid() && image.width * image.height <= Int32.MAX
    modifies buffers, buffers.src, buffers.dst
    ensures buffers.Valid() && image.width * image.height <= bufferLength
    ensures bufferLength == buffers.src.Length
    ensures old(buffers.src.Length) >= image.width * image.height ==>
              buffers.src == old(buffers.src) && buffers.dst == old(buffers.dst)
    ensures old(buffers.src.Length) < image.width * image.height ==>
              fresh(buffers.src) && fresh(buffers.dst) &&
              buffers.src.Length == GrownLength(old(buffers.src.Length), image.width * image.height)
    ensures !IsPointwise(filter) ==> result == ConvolutionVectorSpec(image, KernelOf(filter), fm)
    ensures IsPointwise(filter) ==> result == BufferedKernelImage(image, filter, L, fm, lanesUsed, bufferLength)
  {
    var totalPixels := image.width * image.height;
    var srcPixels, dstPixels := buffers.GetBuffers(totalPixels);
    bufferLength := srcPixels.Length;
    lanesUsed := true;
    GetRGBArray(image, srcPixels);
    if !IsPointwise(filter) {
      result := ApplyConvolutionVector(image, KernelOf(filter), fm);
      return;
    }
    ghost var front := srcPixels[..totalPixels];
    var r: KernelResult;
    match filter {
      case Brightness =>
        r := AdjustBrightness(srcPixels, dstPixels, VECTOR_BRIGHTNESS, L);
      case Contrast =>
        r := AdjustContrast(srcPixels, dstPixels, VECTOR_CONTRAST_FACTOR, L, fm);
      case Grayscale =>
        r := ConvertToGrayscale(srcPixels, dstPixels, L, fm);
    }
    lanesUsed := r.lanesUsed;
    FrontOfKernelSpec(srcPixels[..], front, L, LaneOf(filter), ScalarOf(filter, fm), lanesUsed);
    assert dstPixels[..totalPixels] == dstPixels[..][..totalPixels];
    result := Image(image.width, image.height, Unflatten(dstPixels[..totalPixels], image.width, image.height));
  }

  // ---------------------------------------------- agreement between paths

  /** Entry `y * w + x` of a buffer is pixel `(x, y)` of the image `setRGBArray` makes of it. */
  lemma UnflattenAt(s: seq<Pixel>, w: nat, h: nat, x: nat, y: nat)
    requires |s| == w * h && x < w && y < h
    ensures y * w + x < |s| && Unflatten(s, w, h)[y][x] == s[y * w + x]
  {
    FlattenUnflatten(s, w, h);
    FlattenAt(Unflatten(s, w, h), w, x, y);
  }

  /** A buffer mapped entry by entry becomes the image mapped pixel by pixel. */
  lemma UnflattenMapRow(img: Image, f: Pixel -> Pixel)
    requires img.Valid()
    ensures |MapSeq(Flatten(img.rows), f)| == img.width * img.height
    ensures Image(img.width, img.height, Unflatten(MapSeq(Flatten(img.rows), f), img.width, img.height)) == MapPixels(img, f)
  {
    var m := MapPixels(img, f);
    FlattenMapRows(img.rows, f);
    UnflattenFlatten(m.rows, img.width);
  }

  /**
   * Vector brightness does not depend on the lane width, on whether the lane
   * loop completed, or on how long the scratch buffer is: every path gives
   * the scalar brightness of each pixel.
   */
  lemma VectorBrightnessIsPointwise(img: Image, L: LaneWidth, fm: FloatFns, lanesUsed: bool, bufferLength: nat)
    requires img.Valid()
    ensures VectorFilterSpec(img, Brightness, L, fm, lanesUsed) == MapPixels(img, BrightnessScalarFn(VECTOR_BRIGHTNESS))
    ensures BufferedKernelImage(img, Brightness, L, fm, lanesUsed, bufferLength) == MapPixels(img, BrightnessScalarFn(VECTOR_BRIGHTNESS))
  {
    var flat := Flatten(img.rows);
    var lane, scalar := BrightnessLaneFn(VECTOR_BRIGHTNESS), BrightnessScalarFn(VECTOR_BRIGHTNESS);
    forall j | 0 <= j < |flat|
      ensures lane(flat[j]) == scalar(flat[j])
    {
      BrightnessPathsAgree(flat[j], VECTOR_BRIGHTNESS);
    }
    PathsThatAgree(flat, L, lane, scalar, lanesUsed, bufferLength);
    UnflattenMapRow(img, scalar);
  }

  /** When the lane and scalar formulas agree on every entry, which entries took which path does not matter. */
  lemma PathsThatAgree(flat: seq<Pixel>, L: LaneWidth, lane: Pixel -> Pixel, scalar: Pixel -> Pixel, lanesUsed: bool, bufferLength: nat)
    requires forall j :: 0 <= j < |flat| ==> lane(flat[j]) == scalar(flat[j])
    ensures KernelSpec(flat, L, lane, scalar, lanesUsed) == MapSeq(flat, scalar)
    ensures BufferedPixels(flat, L, lane, scalar, lanesUsed, bufferLength) == MapSeq(flat, scalar)
  {
  }

  /**
   * `applyFilter(BRIGHTNESS)` and the vector brightness give every pixel the
   * same red, green and blue, `min(255, c + 30)`; they differ only in alpha,
   * which the vector path keeps and `applyFilter` leaves at 0.
   */
  lemma BrightnessPathsAgreeOnColour(img: Image, L: LaneWidth, fm: FloatFns, lanesUsed: bool, x: nat, y: nat)
    requires img.Valid() && x < img.width && y < img.height
    ensures var p, q := FilterSpec(img, Brightness, fm).At(x, y), VectorFilterSpec(img, Brightness, L, fm, lanesUsed).At(x, y);
            Red(p) == Red(q) == Min(255, Red(img.At(x, y)) + 30) &&
            Green(p) == Green(q) == Min(255, Green(img.At(x, y)) + 30) &&
            Blue(p) == Blue(q) == Min(255, Blue(img.At(x, y)) + 30) &&
            Alpha(p) == 0 && Alpha(q) == Alpha(img.At(x, y))
  {
    var o := img.At(x, y);
    FilterBrightnessAt(img, fm, x, y);
    VectorBrightnessAt(img, L, fm, lanesUsed, x, y);
    BrightnessScalarColour(o);
  }

  /** Pixel `(x, y)` of `applyFilter(BRIGHTNESS)` is the brightened source pixel. */
  lemma FilterBrightnessAt(img: Image, fm: FloatFns, x: nat, y: nat)
    requires img.Valid() && x < img.width && y < img.height
    ensures FilterSpec(img, Brightness, fm).At(x, y) == BrightenPixel(img.At(x, y))
  {
  }

  /** Pixel `(x, y)` of the vector brightness is the scalar formula of the source pixel, whichever path ran. */
  lemma VectorBrightnessAt(img: Image, L: LaneWidth, fm: FloatFns, lanesUsed: bool, x: nat, y: nat)
    requires img.Valid() && x < img.width && y < img.height
    ensures VectorFilterSpec(img, Brightness, L, fm, lanesUsed).At(x, y) == BrightnessScalar(img.At(x, y), VECTOR_BRIGHTNESS)
  {
    VectorBrightnessIsPointwise(img, L, fm, lanesUsed, 0);
  }

  /** The scalar formula of the vector brightness at `+30` has the colour of `applyFilter`'s brightness and keeps alpha. */
  lemma BrightnessScalarColour(o: Pixel)
    ensures var q := BrightnessScalar(o, VECTOR_BRIGHTNESS);
            Red(q) == Min(255, Red(o) + 30) && Green(q) == Min(255, Green(o) + 30) &&
            Blue(q) == Min(255, Blue(o) + 30) && Alpha(q) == Alpha(o)
  {
    BrightnessPathsAgree(o, VECTOR_BRIGHTNESS);
    BrightnessChannels(o, VECTOR_BRIGHTNESS);
    BrightnessWithoutOverflow(o, VECTOR_BRIGHTNESS);
  }

  /** Every pixel the vector grayscale produces, on any path and any buffer, has equal red, green and blue. */
  lemma VectorGrayscaleIsGray(img: Image, L: LaneWidth, fm: FloatFns, lanesUsed: bool, bufferLength: nat, x: nat, y: nat)
    requires img.Valid() && x < img.width && y < img.height
    ensures var q := BufferedKernelImage(img, Grayscale, L, fm, lanesUsed, bufferLength).At(x, y);
            Red(q) == Green(q) == Blue(q) && Alpha(q) == Alpha(img.At(x, y))
  {
    FlattenLength(img.rows, img.width);
    var flat := Flatten(img.rows);
    var pixels := BufferedPixels(flat, L, GrayLaneFn(), GrayScalarFn(fm), lanesUsed, bufferLength);
    UnflattenAt(pixels, img.width, img.height, x, y);
    FlattenAt(img.rows, img.width, x, y);
    GrayChannels(flat[y * img.width + x]);
    GrayScalarChannels(flat[y * img.width + x], fm);
  }
}
