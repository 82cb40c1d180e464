/** The filter enumeration and the per-run statistics record. */
module Model {

  /** `FilterType`, with its constants in declaration order. */
  datatype FilterType = Grayscale | Blur | Sharpen | Brightness | Contrast

  /** `FilterType.values()` */
  const ALL_FILTERS: seq<FilterType> := [Grayscale, Blur, Sharpen, Brightness, Contrast]

  /** Grayscale, brightness and contrast map each pixel on its own; blur and sharpen read neighbours. */
  predicate IsPointwise(f: FilterType)
  {
    f == Grayscale || f == Brightness || f == Contrast
  }

  /** `ProcessingStats`: three public counters, zero when created, updated by the strategy that owns them. */
  class ProcessingStats {
    var totalTime: int
    var imagesProcessed: int
    var failedImages: int

    constructor ()
      ensures totalTime == 0 && imagesProcessed == 0 && failedImages == 0
    {
      totalTime := 0;
      imagesProcessed := 0;
      failedImages := 0;
    }
  }
}
