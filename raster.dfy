/**
 * Decoded images as rectangular grids of RGB pixels, and PIL's `crop` on them.
 * `Pixel(im, x, y)` is PIL's `array[x, y]`: column `x`, row `y`.
 */
module Raster {

  /** The exceptions the image operations raise. */
  datatype ImageError = ZeroDivisionError | IndexError | KeyError | ValueError

  datatype RGB = RGB(r: int, g: int, b: int)

  const White := RGB(255, 255, 255)

  datatype Grid = Grid(width: nat, height: nat, rows: seq<seq<RGB>>)

  /** A grid whose `height` rows all hold `width` pixels. */
  type Image = g: Grid | |g.rows| == g.height && forall y | 0 <= y < |g.rows| :: |g.rows[y]| == g.width
    witness Grid(0, 0, [])

  function Pixel(im: Image, x: nat, y: nat): RGB
    requires x < im.width && y < im.height
  {
    im.rows[y][x]
  }

  /** A crop box `(left, upper, right, lower)`, right and lower exclusive. */
  datatype Box = Box(left: nat, upper: nat, right: nat, lower: nat)

  predicate Within(b: Box, width: nat, height: nat)
  {
    b.left <= b.right <= width && b.upper <= b.lower <= height
  }

  /** `im.crop(box)` for a box inside the image. */
  function Crop(im: Image, b: Box): (r: Image)
    requires Within(b, im.width, im.height)
    ensures r.width == b.right - b.left && r.height == b.lower - b.upper
  {
    Grid(b.right - b.left, b.lower - b.upper,
         seq(b.lower - b.upper, i requires 0 <= i < b.lower - b.upper => im.rows[b.upper + i][b.left..b.right]))
  }

  /** Pixel `(x, y)` of a crop is pixel `(left + x, upper + y)` of the image. */
  lemma CropPixel(im: Image, b: Box, x: int, y: int)
    requires Within(b, im.width, im.height) && 0 <= x < b.right - b.left && 0 <= y < b.lower - b.upper
    ensures Pixel(Crop(im, b), x, y) == Pixel(im, b.left + x, b.upper + y)
  {
  }

  /** The box `inner`, given relative to the top-left corner of `outer`, in the
      coordinates of the image `outer` was cut from. */
  function Shift(outer: Box, inner: Box): Box
  {
    Box(outer.left + inner.left, outer.upper + inner.upper, outer.left + inner.right, outer.upper + inner.lower)
  }

  /** Shifting by two boxes in turn is shifting by their composition. */
  lemma ShiftAssociative(a: Box, b: Box, c: Box)
    ensures Shift(Shift(a, b), c) == Shift(a, Shift(b, c))
  {
  }

  /** Images are equal when their sizes and all their pixels are. */
  lemma ImagesEqual(a: Image, b: Image)
    requires a.width == b.width && a.height == b.height
    requires forall x, y :: 0 <= x < a.width && 0 <= y < a.height ==> Pixel(a, x, y) == Pixel(b, x, y)
    ensures a == b
  {
    forall y | 0 <= y < a.height ensures a.rows[y] == b.rows[y] {
      forall x | 0 <= x < a.width ensures a.rows[y][x] == b.rows[y][x] {
        assert Pixel(a, x, y) == Pixel(b, x, y);
      }
    }
  }

  /** A slice of a slice is one slice. */
  lemma SliceOfSlice<T>(s: seq<T>, i: nat, j: nat, k: nat, l: nat)
    requires i <= j <= |s| && k <= l <= j - i
    ensures s[i..j][k..l] == s[i + k..i + l]
  {
    var t, u := s[i..j][k..l], s[i + k..i + l];
    forall n | 0 <= n < l - k ensures t[n] == u[n] {
      assert t[n] == s[i + k + n];
    }
  }

  /** Row `y` of a crop is a slice of row `upper + y` of the image. */
  lemma CropRow(im: Image, b: Box, y: int)
    requires Within(b, im.width, im.height) && 0 <= y < b.lower - b.upper
    ensures Crop(im, b).rows[y] == im.rows[b.upper + y][b.left..b.right]
  {
  }

  /** Cropping a crop is one crop of the original. */
  lemma CropOfCrop(im: Image, outer: Box, inner: Box)
    requires Within(outer, im.width, im.height)
    requires Within(inner, outer.right - outer.left, outer.lower - outer.upper)
    ensures Within(Shift(outer, inner), im.width, im.height)
    ensures Crop(Crop(im, outer), inner) == Crop(im, Shift(outer, inner))
  {
    var mid, whole := Crop(im, outer), Shift(outer, inner);
    var a, b := Crop(mid, inner), Crop(im, whole);
    forall y | 0 <= y < a.height ensures a.rows[y] == b.rows[y] {
      CropOfCropRow(im, outer, inner, y);
    }
    assert a.rows == b.rows;
  }

  lemma CropOfCropRow(im: Image, outer: Box, inner: Box, y: nat)
    requires Within(outer, im.width, im.height)
    requires Within(inner, outer.right - outer.left, outer.lower - outer.upper)
    requires y < inner.lower - inner.upper
    ensures Within(Shift(outer, inner), im.width, im.height)
    ensures Crop(Crop(im, outer), inner).rows[y] == Crop(im, Shift(outer, inner)).rows[y]
  {
    var row := im.rows[outer.upper + inner.upper + y];
    CropRow(Crop(im, outer), inner, y);
    CropRow(im, outer, inner.upper + y);
    CropRow(im, Shift(outer, inner), y);
    SliceOfSlice(row, outer.left, outer.right, inner.left, inner.right);
  }

  /** Cropping to the whole image changes nothing. */
  lemma CropWhole(im: Image)
    ensures Crop(im, Box(0, 0, im.width, im.height)) == im
  {
    var whole := Box(0, 0, im.width, im.height);
    forall x, y | 0 <= x < im.width && 0 <= y < im.height ensures Pixel(Crop(im, whole), x, y) == Pixel(im, x, y) {
      CropPixel(im, whole, x, y);
    }
    ImagesEqual(Crop(im, whole), im);
  }
}
