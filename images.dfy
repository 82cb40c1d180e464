/**
 * A raster image as the filters see it: a width, a height and the packed
 * pixels row by row. This stands for `java.awt.image.BufferedImage` as far
 * as `getRGB`, `setRGB`, `getSubimage` and the `int[]` copies of
 * `getRGBArray`/`setRGBArray` use it.
 */
module Images {

  import opened Argb

  datatype Image = Image(width: nat, height: nat, rows: seq<seq<Pixel>>)
  {
    predicate Valid()
    {
      |rows| == height && forall y :: 0 <= y < |rows| ==> |rows[y]| == width
    }

    /** `getRGB(x, y)` */
    function At(x: nat, y: nat): Pixel
      requires Valid() && x < width && y < height
    {
      rows[y][x]
    }

    /** The rectangle `(x, y, w, h)` lies inside the image. */
    predicate Contains(x: nat, y: nat, w: nat, h: nat)
    {
      x + w <= width && y + h <= height
    }
  }

  /** `getSubimage(x, y, w, h)` read as a value. */
  function SubImage(img: Image, x: nat, y: nat, w: nat, h: nat): (s: Image)
    requires img.Valid() && img.Contains(x, y, w, h)
    ensures s.Valid() && s.width == w && s.height == h
    ensures forall yy, xx :: 0 <= yy < h && 0 <= xx < w ==> s.At(xx, yy) == img.At(x + xx, y + yy)
  {
    Image(w, h, seq(h, i requires 0 <= i < h => img.rows[y + i][x .. x + w]))
  }

  /** Two well-formed images of the same size with the same pixel everywhere are the same image. */
  lemma ImageExtensionality(a: Image, b: Image)
    requires a.Valid() && b.Valid() && a.width == b.width && a.height == b.height
    requires forall y, x :: 0 <= y < a.height && 0 <= x < a.width ==> a.At(x, y) == b.At(x, y)
    ensures a == b
  {
    forall y | 0 <= y < a.height
      ensures a.rows[y] == b.rows[y]
    {
      assert forall x :: 0 <= x < a.width ==> a.rows[y][x] == a.At(x, y);
    }
  }

  /** The sub-image covering the whole image is the image itself. */
  lemma SubImageWhole(img: Image)
    requires img.Valid()
    ensures SubImage(img, 0, 0, img.width, img.height) == img
  {
    ImageExtensionality(SubImage(img, 0, 0, img.width, img.height), img);
  }

  /**
   * The image a raster buffer holds, `buf[y, x]` being `getRGB(x, y)`: the
   * value of a `BufferedImage` once its pixels have been set.
   */
  method Snapshot(buf: array2<Pixel>) returns (img: Image)
    ensures img.Valid() && img.width == buf.Length1 && img.height == buf.Length0
    ensures forall y, x :: 0 <= y < buf.Length0 && 0 <= x < buf.Length1 ==> img.At(x, y) == buf[y, x]
  {
    var rows: seq<seq<Pixel>> := [];
    var y := 0;
    while y < buf.Length0
      invariant 0 <= y <= buf.Length0 && |rows| == y
      invariant forall yy :: 0 <= yy < y ==> |rows[yy]| == buf.Length1
      invariant forall yy, xx :: 0 <= yy < y && 0 <= xx < buf.Length1 ==> rows[yy][xx] == buf[yy, xx]
    {
      var row: seq<Pixel> := [];
      var x := 0;
      while x < buf.Length1
        invariant 0 <= x <= buf.Length1 && |row| == x
        invariant forall xx :: 0 <= xx < x ==> row[xx] == buf[y, xx]
      {
        row := row + [buf[y, x]];
        x := x + 1;
      }
      rows := rows + [row];
      y := y + 1;
    }
    img := Image(buf.Length1, buf.Length0, rows);
  }

  /** `f` applied to every entry of `s`, in place: a row of pixels, or the channels of a neighbourhood. */
  function MapSeq<A, B>(s: seq<A>, f: A -> B): (r: seq<B>)
    ensures |r| == |s| && forall i :: 0 <= i < |s| ==> r[i] == f(s[i])
  {
    seq(|s|, i requires 0 <= i < |s| => f(s[i]))
  }

  /** The image whose every pixel is `f` of the pixel at the same place. */
  function MapPixels(img: Image, f: Pixel -> Pixel): (m: Image)
    requires img.Valid()
    ensures m.Valid() && m.width == img.width && m.height == img.height
    ensures forall y, x :: 0 <= y < img.height && 0 <= x < img.width ==> m.At(x, y) == f(img.At(x, y))
  {
    Image(img.width, img.height, MapRows(img.rows, f))
  }

  function MapRows(rows: seq<seq<Pixel>>, f: Pixel -> Pixel): (m: seq<seq<Pixel>>)
    ensures |m| == |rows| && forall y :: 0 <= y < |rows| ==> m[y] == MapSeq(rows[y], f)
  {
    seq(|rows|, y requires 0 <= y < |rows| => MapSeq(rows[y], f))
  }

  /** All rows have length `w`. */
  ghost predicate RowsOfWidth(rows: seq<seq<Pixel>>, w: nat)
  {
    forall y :: 0 <= y < |rows| ==> |rows[y]| == w
  }

  /** The row-major `int[]` that `getRGB(0, 0, w, h, pixels, 0, w)` fills. */
  function Flatten(rows: seq<seq<Pixel>>): seq<Pixel>
  {
    if rows == [] then [] else Flatten(rows[..|rows| - 1]) + rows[|rows| - 1]
  }

  /** The rows that `setRGB(0, 0, w, h, pixels, 0, w)` stores from a row-major `int[]`. */
  function Unflatten(s: seq<Pixel>, w: nat, h: nat): (rows: seq<seq<Pixel>>)
    requires |s| == w * h
    ensures |rows| == h && RowsOfWidth(rows, w)
  {
    if h == 0 then [] else Unflatten(s[..w * (h - 1)], w, h - 1) + [s[w * (h - 1)..]]
  }

  lemma {:induction false} FlattenLength(rows: seq<seq<Pixel>>, w: nat)
    requires RowsOfWidth(rows, w)
    ensures |Flatten(rows)| == |rows| * w
  {
    if rows != [] {
      var n := |rows|;
      var init := rows[..n - 1];
      FlattenLength(init, w);
      assert |Flatten(rows)| == (n - 1) * w + w;
      MulPred(n, w);
    }
  }

  lemma MulPred(n: nat, w: nat)
    requires n >= 1
    ensures (n - 1) * w + w == n * w
  {
  }

  lemma FlattenSnoc(rows: seq<seq<Pixel>>, row: seq<Pixel>)
    ensures Flatten(rows + [row]) == Flatten(rows) + row
  {
    assert (rows + [row])[..|rows|] == rows;
  }

  /** Row-major index arithmetic: `y * w + x` lies inside a `w * h` buffer. */
  lemma RowMajorBound(x: nat, y: nat, w: nat, h: nat)
    requires x < w && y < h
    ensures y * w + x < w * h
  {
    calc {
      y * w + x;
    <
      y * w + w;
    ==
      (y + 1) * w;
    <=  { MulLeft(y + 1, h, w); }
      h * w;
    }
  }

  lemma MulLeft(a: nat, b: nat, c: nat)
    requires a <= b
    ensures a * c <= b * c
  {
  }

  /** Entry `y * w + x` of the flattened buffer is the pixel at `(x, y)`. */
  lemma {:induction false} FlattenAt(rows: seq<seq<Pixel>>, w: nat, x: nat, y: nat)
    requires RowsOfWidth(rows, w) && x < w && y < |rows|
    ensures y * w + x < |Flatten(rows)| && Flatten(rows)[y * w + x] == rows[y][x]
  {
    var n := |rows|;
    var init := rows[..n - 1];
    FlattenLength(rows, w);
    FlattenLength(init, w);
    RowMajorBound(x, y, w, n);
    if y < n - 1 {
      FlattenAt(init, w, x, y);
      RowMajorBound(x, y, w, n - 1);
    } else {
      assert y * w == (n - 1) * w;
    }
  }

  /** Filling a buffer with `getRGB` and storing it back with `setRGB` leaves the image as it was. */
  lemma {:induction false} UnflattenFlatten(rows: seq<seq<Pixel>>, w: nat)
    requires RowsOfWidth(rows, w)
    ensures |Flatten(rows)| == w * |rows| && Unflatten(Flatten(rows), w, |rows|) == rows
  {
    FlattenLength(rows, w);
    if rows != [] {
      var n := |rows|;
      var init := rows[..n - 1];
      var s := Flatten(rows);
      var m := w * (n - 1);
      FlattenLength(init, w);
      assert s == Flatten(init) + rows[n - 1];
      assert |Flatten(init)| == m;
      assert s[..m] == Flatten(init);
      assert s[m..] == rows[n - 1];
      UnflattenFlatten(init, w);
      assert Unflatten(s, w, n) == Unflatten(s[..m], w, n - 1) + [s[m..]];
      assert rows == init + [rows[n - 1]];
    }
  }

  /** Storing a buffer with `setRGB` and reading it back with `getRGB` gives the same buffer. */
  lemma {:induction false} FlattenUnflatten(s: seq<Pixel>, w: nat, h: nat)
    requires |s| == w * h
    ensures Flatten(Unflatten(s, w, h)) == s
  {
    if h > 0 {
      var rows := Unflatten(s, w, h);
      assert rows[..h - 1] == Unflatten(s[..w * (h - 1)], w, h - 1);
      FlattenUnflatten(s[..w * (h - 1)], w, h - 1);
      assert s == s[..w * (h - 1)] + s[w * (h - 1)..];
    }
  }

  /** Mapping every pixel commutes with flattening. */
  lemma {:induction false} FlattenMapRows(rows: seq<seq<Pixel>>, f: Pixel -> Pixel)
    ensures Flatten(MapRows(rows, f)) == MapSeq(Flatten(rows), f)
  {
    if rows != [] {
      var n := |rows|;
      var init := rows[..n - 1];
      FlattenMapRows(init, f);
      assert MapRows(rows, f)[..n - 1] == MapRows(init, f);
      assert MapRows(rows, f) == MapRows(init, f) + [MapSeq(rows[n - 1], f)];
      assert Flatten(rows) == Flatten(init) + rows[n - 1];
      assert MapSeq(Flatten(rows), f) == MapSeq(Flatten(init), f) + MapSeq(rows[n - 1], f);
    }
  }
}
