/**
 * `colors_differ` and `is_white_background`: whether every pixel on the edge
 * of an image is close enough to white, measured by Manhattan distance over
 * the three channels.
 */
module Borders {
  import opened Wrappers
  import opened Raster

  function Abs(n: int): nat { if n < 0 then -n else n }

  /** The sum of the per-channel absolute differences. */
  function Manhattan(a: RGB, b: RGB): nat
  {
    Abs(a.r - b.r) + Abs(a.g - b.g) + Abs(a.b - b.b)
  }

  /** The tolerance `is_white_background` uses when none is given. */
  const DefaultTolerance := 180

  /** `colors_differ(a, b, tolerance)`: strictly farther apart than the tolerance. */
  predicate ColorsDiffer(a: RGB, b: RGB, tolerance: int)
  {
    Manhattan(a, b) > tolerance
  }

  /** The distance is symmetric and zero exactly on equal colours. */
  lemma ManhattanMetric(a: RGB, b: RGB)
    ensures Manhattan(a, b) == Manhattan(b, a)
    ensures Manhattan(a, b) == 0 <==> a == b
  {
  }

  /** A colour differs from itself only under a negative tolerance, and
      differing does not depend on the order of the two colours. */
  lemma ColorsDifferFacts(a: RGB, b: RGB, tolerance: int)
    ensures ColorsDiffer(a, a, tolerance) <==> tolerance < 0
    ensures ColorsDiffer(a, b, tolerance) <==> ColorsDiffer(b, a, tolerance)
  {
    ManhattanMetric(a, b);
  }

  /** Colours within the tolerance of white stay so under a larger tolerance. */
  lemma ColorsDifferMonotone(a: RGB, t1: int, t2: int)
    requires t1 <= t2 && !ColorsDiffer(a, White, t1)
    ensures !ColorsDiffer(a, White, t2)
  {
  }

  /** The top and bottom pixels of column `x` are close enough to white. */
  predicate ColumnEndsWhite(im: Image, tolerance: int, x: nat)
    requires x < im.width && im.height > 0
  {
    !ColorsDiffer(Pixel(im, x, 0), White, tolerance) && !ColorsDiffer(Pixel(im, x, im.height - 1), White, tolerance)
  }

  /** The leftmost and rightmost pixels of row `y` are close enough to white. */
  predicate RowEndsWhite(im: Image, tolerance: int, y: nat)
    requires y < im.height && im.width > 0
  {
    !ColorsDiffer(Pixel(im, 0, y), White, tolerance) && !ColorsDiffer(Pixel(im, im.width - 1, y), White, tolerance)
  }

  /** The scan's criterion, as the two loops check it: the top and bottom rows,
      then the left and right columns. */
  predicate WhiteBorder(im: Image, tolerance: int)
    requires im.width > 0 && im.height > 0
  {
    (forall x :: 0 <= x < im.width ==> ColumnEndsWhite(im, tolerance, x)) &&
    (forall y :: 0 <= y < im.height ==> RowEndsWhite(im, tolerance, y))
  }

  predicate OnBorder(im: Image, x: nat, y: nat)
  {
    x < im.width && y < im.height && (x == 0 || y == 0 || x == im.width - 1 || y == im.height - 1)
  }

  /** The criterion is exactly "every border pixel is within the tolerance of white". */
  lemma WhiteBorderIsEveryBorderPixel(im: Image, tolerance: int)
    requires im.width > 0 && im.height > 0
    ensures WhiteBorder(im, tolerance) <==>
              forall x: nat, y: nat :: OnBorder(im, x, y) ==> Manhattan(Pixel(im, x, y), White) <= tolerance
  {
    if WhiteBorder(im, tolerance) {
      forall x: nat, y: nat | OnBorder(im, x, y) ensures Manhattan(Pixel(im, x, y), White) <= tolerance {
        assert ColumnEndsWhite(im, tolerance, x) && RowEndsWhite(im, tolerance, y);
      }
    }
    if forall x: nat, y: nat :: OnBorder(im, x, y) ==> Manhattan(Pixel(im, x, y), White) <= tolerance {
      forall x | 0 <= x < im.width ensures ColumnEndsWhite(im, tolerance, x) {
        assert OnBorder(im, x, 0) && OnBorder(im, x, im.height - 1);
      }
      forall y | 0 <= y < im.height ensures RowEndsWhite(im, tolerance, y) {
        assert OnBorder(im, 0, y) && OnBorder(im, im.width - 1, y);
      }
    }
  }

  /** `is_white_background(im, tolerance)`. An image with no columns but some rows
      (or the reverse) makes the pixel access raise `IndexError`; an empty image
      has no border and is white. */
  method IsWhiteBackground(im: Image, tolerance: int) returns (r: Result<bool, ImageError>)
    ensures (im.width == 0) != (im.height == 0) ==> r == Err(IndexError)
    ensures im.width == 0 && im.height == 0 ==> r == Ok(true)
    ensures im.width > 0 && im.height > 0 ==> r == Ok(WhiteBorder(im, tolerance))
  {
    var w, h := im.width, im.height;
    for x := 0 to w
      invariant x > 0 ==> h > 0
      invariant forall i :: 0 <= i < x ==> ColumnEndsWhite(im, tolerance, i)
    {
      if h == 0 {
        return Err(IndexError);
      }
      // row 0, column x
      if ColorsDiffer(Pixel(im, x, 0), White, tolerance) {
        assert !ColumnEndsWhite(im, tolerance, x);
        return Ok(false);
      }
      // last row, column x
      if ColorsDiffer(Pixel(im, x, h - 1), White, tolerance) {
        assert !ColumnEndsWhite(im, tolerance, x);
        return Ok(false);
      }
    }
    for y := 0 to h
      invariant y > 0 ==> w > 0
      invariant forall j :: 0 <= j < y ==> RowEndsWhite(im, tolerance, j)
    {
      if w == 0 {
        return Err(IndexError);
      }
      // column 0, row y
      if ColorsDiffer(Pixel(im, 0, y), White, tolerance) {
        assert !RowEndsWhite(im, tolerance, y);
        return Ok(false);
      }
      // last column, row y
      if ColorsDiffer(Pixel(im, w - 1, y), White, tolerance) {
        assert !RowEndsWhite(im, tolerance, y);
        return Ok(false);
      }
    }
    return Ok(true);
  }
}
