/**
 * `TileProcessingTask`: filter a rectangle of an image by splitting it into
 * four quadrants until one side is at most `TILE_SIZE`, filtering each leaf
 * tile on its own and drawing the four results into a fresh image. The
 * fork/join scheduling is modelled as plain recursion: `compute` returns the
 * same image whichever order the subtasks run in.
 */
module TileProcessingTask {

  import opened Argb
  import opened Images
  import opened FloatModel
  import opened Model
  import opened ImageUtils

  const TILE_SIZE: nat := 256

  /** The rectangle `(x, y, width, height)` a task covers. */
  datatype Rect = Rect(x: nat, y: nat, width: nat, height: nat)
  {
    predicate Holds(px: int, py: int)
    {
      x <= px < x + width && y <= py < y + height
    }
  }

  /** `compute()` filters directly when either side is at most `TILE_SIZE`. */
  predicate IsLeaf(r: Rect)
  {
    r.width <= TILE_SIZE || r.height <= TILE_SIZE
  }

  datatype Quadrants = Quadrants(topLeft: Rect, topRight: Rect, bottomLeft: Rect, bottomRight: Rect)

  /** The four subtasks, split at `width / 2` and `height / 2`. */
  function Split(r: Rect): Quadrants
  {
    var midX, midY := r.width / 2, r.height / 2;
    Quadrants(Rect(r.x, r.y, midX, midY),
              Rect(r.x + midX, r.y, r.width - midX, midY),
              Rect(r.x, r.y + midY, midX, r.height - midY),
              Rect(r.x + midX, r.y + midY, r.width - midX, r.height - midY))
  }

  /**
   * The quadrants of a rectangle tile it: every point of the rectangle lies
   * in exactly one quadrant, and no quadrant reaches outside it.
   */
  lemma SplitPartitions(r: Rect, px: int, py: int)
    ensures var q := Split(r);
            r.Holds(px, py) <==>
              (q.topLeft.Holds(px, py) || q.topRight.Holds(px, py) ||
               q.bottomLeft.Holds(px, py) || q.bottomRight.Holds(px, py))
    ensures var q := Split(r);
            var n := (if q.topLeft.Holds(px, py) then 1 else 0) + (if q.topRight.Holds(px, py) then 1 else 0)
                   + (if q.bottomLeft.Holds(px, py) then 1 else 0) + (if q.bottomRight.Holds(px, py) then 1 else 0);
            n <= 1
  {
  }

  /**
   * The quadrants line up: left ones share `x` and width, top ones share `y`
   * and height, widths and heights add up to the parent's, and the right and
   * bottom quadrants take the odd pixel.
   */
  lemma SplitShape(r: Rect)
    ensures var q := Split(r);
            q.topLeft.x == q.bottomLeft.x == r.x && q.topLeft.y == q.topRight.y == r.y &&
            q.topLeft.width == q.bottomLeft.width && q.topRight.width == q.bottomRight.width &&
            q.topLeft.height == q.topRight.height && q.bottomLeft.height == q.bottomRight.height &&
            q.topLeft.width + q.topRight.width == r.width && q.topLeft.height + q.bottomLeft.height == r.height &&
            q.topRight.x == r.x + q.topLeft.width && q.bottomLeft.y == r.y + q.topLeft.height &&
            q.bottomRight.x == q.topRight.x && q.bottomRight.y == q.bottomLeft.y &&
            q.topLeft.width <= q.topRight.width <= q.topLeft.width + 1 &&
            q.topLeft.height <= q.bottomLeft.height <= q.topLeft.height + 1
  {
  }

  /** A task that splits has quadrants of positive, strictly smaller width and height. */
  lemma SplitShrinks(r: Rect)
    requires !IsLeaf(r)
    ensures var q := Split(r);
            forall s :: s in [q.topLeft, q.topRight, q.bottomLeft, q.bottomRight] ==>
              0 < s.width < r.width && 0 < s.height < r.height
  {
  }

  /** `processTile`: `applyFilter` on `getSubimage(x, y, width, height)`. */
  function ProcessTile(img: Image, filter: FilterType, fm: FloatFns, r: Rect): (out: Image)
    requires img.Valid() && img.Contains(r.x, r.y, r.width, r.height)
    ensures out.Valid() && out.width == r.width && out.height == r.height
  {
    FilterSpec(SubImage(img, r.x, r.y, r.width, r.height), filter, fm)
  }

  // ---------------------------------------------------------------- combine

  /** `(dx, dy)` is a pixel position of `img`. */
  predicate Covers(img: Image, dx: int, dy: int)
  {
    0 <= dx < img.width && 0 <= dy < img.height
  }

  /**
   * The pixel at `(px, py)` of the combined image: the last of the four
   * drawings that covers it (top-left at (0, 0), top-right at (tl.width, 0),
   * bottom-left at (0, tl.height), bottom-right at (tl.width, tl.height)),
   * or the 0 a new image starts with.
   */
  function CombinedPixel(tl: Image, tr: Image, bl: Image, br: Image, px: nat, py: nat): Pixel
    requires tl.Valid() && tr.Valid() && bl.Valid() && br.Valid()
  {
    if Covers(br, px - tl.width, py - tl.height) then br.At(px - tl.width, py - tl.height)
    else if Covers(bl, px, py - tl.height) then bl.At(px, py - tl.height)
    else if Covers(tr, px - tl.width, py) then tr.At(px - tl.width, py)
    else if Covers(tl, px, py) then tl.At(px, py)
    else 0
  }

  /** The image `combineResults` returns: `(tl.width + tr.width) x (tl.height + bl.height)`. */
  function CombineSpec(tl: Image, tr: Image, bl: Image, br: Image): (c: Image)
    requires tl.Valid() && tr.Valid() && bl.Valid() && br.Valid()
    ensures c.Valid() && c.width == tl.width + tr.width && c.height == tl.height + bl.height
  {
    var w, h := tl.width + tr.width, tl.height + bl.height;
    Image(w, h, seq(h, py requires 0 <= py < h => seq(w, px requires 0 <= px < w => CombinedPixel(tl, tr, bl, br, px, py))))
  }

  /**
   * When the four parts line up as the quadrants of a split do, the combined
   * image has no gap and no overlap: each pixel comes from exactly the part
   * whose area holds it, at that part's offset.
   */
  lemma CombinePlacement(tl: Image, tr: Image, bl: Image, br: Image, px: nat, py: nat)
    requires tl.Valid() && tr.Valid() && bl.Valid() && br.Valid()
    requires tl.height == tr.height && bl.height == br.height && tl.width == bl.width && tr.width == br.width
    requires px < tl.width + tr.width && py < tl.height + bl.height
    ensures CombineSpec(tl, tr, bl, br).At(px, py) ==
              if px < tl.width && py < tl.height then tl.At(px, py)
              else if py < tl.height then tr.At(px - tl.width, py)
              else if px < tl.width then bl.At(px, py - tl.height)
              else br.At(px - tl.width, py - tl.height)
  {
  }

  /** `g.drawImage(src, ox, oy, null)` onto a raster buffer: the part of `src` that fits is copied in. */
  method DrawImage(dst: array2<Pixel>, src: Image, ox: nat, oy: nat)
    requires src.Valid()
    modifies dst
    ensures forall py, px :: 0 <= py < dst.Length0 && 0 <= px < dst.Length1 ==>
              dst[py, px] == if Covers(src, px - ox, py - oy) then src.At(px - ox, py - oy) else old(dst[py, px])
  {
    var sy := 0;
    while sy < src.height
      invariant 0 <= sy <= src.height
      invariant forall py, px :: 0 <= py < dst.Length0 && 0 <= px < dst.Length1 ==>
                  dst[py, px] == if Covers(src, px - ox, py - oy) && py - oy < sy then src.At(px - ox, py - oy) else old(dst[py, px])
    {
      var sx := 0;
      while sx < src.width
        invariant 0 <= sx <= src.width
        invariant forall py, px :: 0 <= py < dst.Length0 && 0 <= px < dst.Length1 ==>
                    dst[py, px] == if Covers(src, px - ox, py - oy) && (py - oy < sy || (py - oy == sy && px - ox < sx))
                                   then src.At(px - ox, py - oy) else old(dst[py, px])
      {
        if oy + sy < dst.Length0 && ox + sx < dst.Length1 {
          dst[oy + sy, ox + sx] := src.At(sx, sy);
        }
        sx := sx + 1;
      }
      sy := sy + 1;
    }
  }

  /** `combineResults(tl, tr, bl, br)`: a new image of the total size, then the four drawings in order. */
  method CombineResults(tl: Image, tr: Image, bl: Image, br: Image) returns (combined: Image)
    requires tl.Valid() && tr.Valid() && bl.Valid() && br.Valid()
    ensures combined == CombineSpec(tl, tr, bl, br)
  {
    var totalWidth := tl.width + tr.width;
    var totalHeight := tl.height + bl.height;
    var buf := new Pixel[totalHeight, totalWidth]((py, px) => 0);
    DrawImage(buf, tl, 0, 0);
    DrawImage(buf, tr, tl.width, 0);
    DrawImage(buf, bl, 0, tl.height);
    DrawImage(buf, br, tl.width, tl.height);
    combined := Snapshot(buf);
    ImageExtensionality(combined, CombineSpec(tl, tr, bl, br));
  }

  // ---------------------------------------------------------------- compute

  /** `compute()` on the task for rectangle `r` of `img`: an image of exactly the rectangle's size. */
  function Compute(img: Image, filter: FilterType, fm: FloatFns, r: Rect): (out: Image)
    requires img.Valid() && img.Contains(r.x, r.y, r.width, r.height) && 0 < r.width && 0 < r.height
    ensures out.Valid() && out.width == r.width && out.height == r.height
    decreases r.width + r.height
  {
    if IsLeaf(r) then ProcessTile(img, filter, fm, r)
    else
      var q := Split(r);
      SplitShrinks(r);
      var tl := Compute(img, filter, fm, q.topLeft);
      var tr := Compute(img, filter, fm, q.topRight);
      var bl := Compute(img, filter, fm, q.bottomLeft);
      var br := Compute(img, filter, fm, q.bottomRight);
      CombineSpec(tl, tr, bl, br)
  }

  /**
   * For a filter that maps each pixel on its own, tiling changes nothing:
   * the assembled result is the filter applied to the whole rectangle.
   */
  lemma TiledEqualsUntiled(img: Image, filter: FilterType, fm: FloatFns, r: Rect)
    requires img.Valid() && img.Contains(r.x, r.y, r.width, r.height) && 0 < r.width && 0 < r.height
    requires IsPointwise(filter)
    ensures Compute(img, filter, fm, r) == MapPixels(SubImage(img, r.x, r.y, r.width, r.height), PointFilter(filter, fm))
  {
    TiledPointwise(img, filter, fm, r);
    MapsRectIsMapPixels(Compute(img, filter, fm, r), img, PointFilter(filter, fm), r);
  }

  /** An image that maps rectangle `r` of `img` pixel by pixel is `f` applied to that sub-image. */
  lemma MapsRectIsMapPixels(out: Image, img: Image, f: Pixel -> Pixel, r: Rect)
    requires img.Valid() && img.Contains(r.x, r.y, r.width, r.height)
    requires MapsRect(out, img, f, r)
    ensures out == MapPixels(SubImage(img, r.x, r.y, r.width, r.height), f)
  {
    var sub := SubImage(img, r.x, r.y, r.width, r.height);
    var whole := MapPixels(sub, f);
    forall y, x | 0 <= y < r.height && 0 <= x < r.width
      ensures out.At(x, y) == whole.At(x, y)
    {
      assert whole.At(x, y) == f(sub.At(x, y));
    }
    ImageExtensionality(out, whole);
  }

  /** `out` is `f` applied to rectangle `r` of `img`, pixel by pixel. */
  predicate MapsRect(out: Image, img: Image, f: Pixel -> Pixel, r: Rect)
    requires img.Valid() && img.Contains(r.x, r.y, r.width, r.height)
  {
    out.Valid() && out.width == r.width && out.height == r.height &&
    forall py, px :: 0 <= py < r.height && 0 <= px < r.width ==> out.At(px, py) == f(img.At(r.x + px, r.y + py))
  }

  /** Combining the four quadrants' mapped images gives the mapped parent rectangle. */
  lemma CombineMapsRect(img: Image, f: Pixel -> Pixel, r: Rect, tl: Image, tr: Image, bl: Image, br: Image)
    requires img.Valid() && img.Contains(r.x, r.y, r.width, r.height) && !IsLeaf(r)
    requires (SplitShape(r); SplitShrinks(r);
              var q := Split(r);
              MapsRect(tl, img, f, q.topLeft) && MapsRect(tr, img, f, q.topRight) &&
              MapsRect(bl, img, f, q.bottomLeft) && MapsRect(br, img, f, q.bottomRight))
    ensures MapsRect(CombineSpec(tl, tr, bl, br), img, f, r)
  {
    forall py, px | 0 <= py < r.height && 0 <= px < r.width
      ensures CombineSpec(tl, tr, bl, br).At(px, py) == f(img.At(r.x + px, r.y + py))
    {
      CombinePlacement(tl, tr, bl, br, px, py);
    }
  }

  /** Pixel `(px, py)` of a tiled point-wise result is the filter of pixel `(r.x + px, r.y + py)` of the image. */
  lemma {:induction false} TiledPointwise(img: Image, filter: FilterType, fm: FloatFns, r: Rect)
    requires img.Valid() && img.Contains(r.x, r.y, r.width, r.height) && 0 < r.width && 0 < r.height
    requires IsPointwise(filter)
    ensures MapsRect(Compute(img, filter, fm, r), img, PointFilter(filter, fm), r)
    decreases r.width + r.height
  {
    if IsLeaf(r) {
      LeafMapsRect(img, filter, fm, r);
    } else {
      var q := Split(r);
      SplitShrinks(r);
      SplitShape(r);
      var tl, tr := Compute(img, filter, fm, q.topLeft), Compute(img, filter, fm, q.topRight);
      var bl, br := Compute(img, filter, fm, q.bottomLeft), Compute(img, filter, fm, q.bottomRight);
      TiledPointwise(img, filter, fm, q.topLeft);
      TiledPointwise(img, filter, fm, q.topRight);
      TiledPointwise(img, filter, fm, q.bottomLeft);
      TiledPointwise(img, filter, fm, q.bottomRight);
      CombineMapsRect(img, PointFilter(filter, fm), r, tl, tr, bl, br);
      assert Compute(img, filter, fm, r) == CombineSpec(tl, tr, bl, br);
    }
  }

  /** A leaf task maps its rectangle pixel by pixel. */
  lemma LeafMapsRect(img: Image, filter: FilterType, fm: FloatFns, r: Rect)
    requires img.Valid() && img.Contains(r.x, r.y, r.width, r.height) && 0 < r.width && 0 < r.height
    requires IsPointwise(filter) && IsLeaf(r)
    ensures MapsRect(Compute(img, filter, fm, r), img, PointFilter(filter, fm), r)
  {
    var out := ProcessTile(img, filter, fm, r);
    var sub := SubImage(img, r.x, r.y, r.width, r.height);
    assert out == MapPixels(sub, PointFilter(filter, fm));
    forall py, px | 0 <= py < r.height && 0 <= px < r.width
      ensures out.At(px, py) == PointFilter(filter, fm)(img.At(r.x + px, r.y + py))
    {
      assert sub.At(px, py) == img.At(r.x + px, r.y + py);
    }
  }
}
