/**
 * `ProcessingConfig`: the immutable settings of one processing run. The
 * `float` compression quality is modelled as a real number.
 */
module ProcessingConfig {

  import opened Model

  const MIN_QUALITY: real := 0.1
  const MAX_QUALITY: real := 1.0

  datatype Config = Config(filters: seq<FilterType>, targetWidth: int, targetHeight: int,
                           compressionQuality: real, useTileParallelism: bool)

  /** `Math.max(0.1f, Math.min(1.0f, quality))` */
  function ClampQuality(quality: real): (q: real)
    ensures MIN_QUALITY <= q <= MAX_QUALITY
    ensures MIN_QUALITY <= quality <= MAX_QUALITY ==> q == quality
  {
    if quality > MAX_QUALITY then MAX_QUALITY
    else if quality < MIN_QUALITY then MIN_QUALITY
    else quality
  }

  /**
   * The stored quality lies in [0.1, 1.0], a quality already there is kept,
   * and one outside is moved to the nearer end.
   */
  lemma ClampQualityRange(quality: real)
    ensures MIN_QUALITY <= ClampQuality(quality) <= MAX_QUALITY
    ensures MIN_QUALITY <= quality <= MAX_QUALITY ==> ClampQuality(quality) == quality
    ensures quality < MIN_QUALITY ==> ClampQuality(quality) == MIN_QUALITY
    ensures quality > MAX_QUALITY ==> ClampQuality(quality) == MAX_QUALITY
  {
  }

  /** Clamping a stored quality again changes nothing. */
  lemma ClampQualityIdempotent(quality: real)
    ensures ClampQuality(ClampQuality(quality)) == ClampQuality(quality)
  {
    ClampQualityRange(quality);
  }

  /** A larger requested quality never gives a smaller stored one. */
  lemma ClampQualityMonotone(p: real, q: real)
    requires p <= q
    ensures ClampQuality(p) <= ClampQuality(q)
  {
  }

  /**
   * The constructor: the caller's filter list is copied element by element
   * (`new ArrayList<>(filters)`) into the value, so later changes to the
   * caller's list do not reach it. Sizes and the tile flag are kept as given.
   */
  method Create(filters: array<FilterType>, targetWidth: int, targetHeight: int,
                compressionQuality: real, useTileParallelism: bool) returns (config: Config)
    ensures config.filters == filters[..]
    ensures config.targetWidth == targetWidth && config.targetHeight == targetHeight
    ensures config.useTileParallelism == useTileParallelism
    ensures MIN_QUALITY <= config.compressionQuality <= MAX_QUALITY
    ensures MIN_QUALITY <= compressionQuality <= MAX_QUALITY ==> config.compressionQuality == compressionQuality
    ensures config.compressionQuality == ClampQuality(compressionQuality)
  {
    var copy: seq<FilterType> := [];
    var i := 0;
    while i < filters.Length
      invariant 0 <= i <= filters.Length && copy == filters[..i]
    {
      copy := copy + [filters[i]];
      i := i + 1;
    }
    ClampQualityRange(compressionQuality);
    config := Config(copy, targetWidth, targetHeight, ClampQuality(compressionQuality), useTileParallelism);
  }

  /** Changing the caller's list after construction leaves the configuration's filters as they were. */
  method CreateThenChangeCallerList(filters: array<FilterType>, k: nat, f: FilterType) returns (config: Config)
    requires k < filters.Length
    modifies filters
    ensures config.filters == old(filters[..]) && filters[k] == f
  {
    config := Create(filters, 0, 0, MAX_QUALITY, false);
    filters[k] := f;
  }

  /** `getFilters()`: a new list with the stored filters in order. */
  method GetFilters(config: Config) returns (list: array<FilterType>)
    ensures fresh(list)
    ensures list[..] == config.filters
  {
    list := new FilterType[|config.filters|](i requires 0 <= i < |config.filters| => config.filters[i]);
  }
}
