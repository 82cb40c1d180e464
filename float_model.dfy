/**
 * The few places where the image filters compute in `float` or `double`
 * and the rounding decides the result. Those computations are not modelled
 * bit for bit: each is a function supplied by the caller, typed by what the
 * surrounding integer code guarantees about it.
 */
module FloatModel {

  import opened Argb

  datatype FloatFns = FloatFns(
    /** `(int)(0.299 * r + 0.587 * g + 0.114 * b)` in `double`. */
    luma: (Channel, Channel, Channel) -> Channel,
    /**
     * `(int)Math.max(0, Math.min(255, ((c - 128) * contrast) + 128))` in
     * `float`, the scalar tail of the lane-wise contrast kernel. The
     * max/min before the cast keep it in [0, 255].
     */
    contrastLevel: Channel -> Channel,
    /**
     * `(int)` of the `float` sum of the nine neighbour channels each weighted
     * by `1/9f`, in kernel order: the 3x3 box blur before clamping.
     */
    boxBlurSum: seq<Channel> -> int
  )
}
