/**
 * Size changes that do not look at pixel values: `pad_image`, `crop_to_ratio`
 * and `is_larger`. Aspect ratios are exact rationals (`real`).
 */
module Geometry {
  import opened Wrappers
  import opened Raster

  /** The canvas `pad_image` draws on: the larger of the current and the requested
      size on each axis, so it never shrinks. */
  function PadCanvas(im: Image, desiredW: int, desiredH: int): (r: (nat, nat))
    ensures r.0 >= im.width && r.0 >= desiredW && (r.0 == im.width || r.0 == desiredW)
    ensures r.1 >= im.height && r.1 >= desiredH && (r.1 == im.height || r.1 == desiredH)
  {
    (Max(im.width, desiredW) as nat, Max(im.height, desiredH) as nat)
  }

  /** Where `pad_image` pastes the image: `int((desired - current) / 2)` on each
      axis, the image filling the box from there. */
  function PasteBox(im: Image, desiredW: int, desiredH: int): (b: Box)
    ensures var (cw, ch) := PadCanvas(im, desiredW, desiredH);
            Within(b, cw, ch) && b.right - b.left == im.width && b.lower - b.upper == im.height
  {
    var (cw, ch) := PadCanvas(im, desiredW, desiredH);
    var woff, hoff := (cw - im.width) / 2, (ch - im.height) / 2;
    Box(woff, hoff, woff + im.width, hoff + im.height)
  }

  /** `pad_image(im, dimensions, color=color)`: a canvas filled with `color`
      (white when none is given) with `im` pasted at the centring offsets. */
  function PadImage(im: Image, desiredW: int, desiredH: int, color: Option<RGB>): (r: Image)
    ensures (r.width, r.height) == PadCanvas(im, desiredW, desiredH)
  {
    var (cw, ch) := PadCanvas(im, desiredW, desiredH);
    var b := PasteBox(im, desiredW, desiredH);
    var fill := if color.Some? then color.value else White;
    Grid(cw, ch, seq(ch, y requires 0 <= y < ch =>
      seq(cw, x requires 0 <= x < cw =>
        if b.left <= x < b.right && b.upper <= y < b.lower then im.rows[y - b.upper][x - b.left] else fill)))
  }

  /** The pasted image is intact inside the padding: cropping the paste box
      gives the original back. */
  lemma PadThenCrop(im: Image, desiredW: int, desiredH: int, color: Option<RGB>)
    ensures Crop(PadImage(im, desiredW, desiredH, color), PasteBox(im, desiredW, desiredH)) == im
  {
    var pad, b := PadImage(im, desiredW, desiredH, color), PasteBox(im, desiredW, desiredH);
    var c := Crop(pad, b);
    forall x, y | 0 <= x < c.width && 0 <= y < c.height ensures Pixel(c, x, y) == Pixel(im, x, y) {
      CropPixel(pad, b, x, y);
    }
    ImagesEqual(c, im);
  }

  /** Every canvas pixel outside the paste box has the fill colour. */
  lemma PadMargins(im: Image, desiredW: int, desiredH: int, color: Option<RGB>, x: nat, y: nat)
    requires var (cw, ch) := PadCanvas(im, desiredW, desiredH); x < cw && y < ch
    requires var b := PasteBox(im, desiredW, desiredH); !(b.left <= x < b.right && b.upper <= y < b.lower)
    ensures Pixel(PadImage(im, desiredW, desiredH, color), x, y) == if color.Some? then color.value else White
  {
  }

  /** The image is centred: the margins on opposite sides differ by at most one
      pixel, the extra one going right and down. */
  lemma PadCentred(im: Image, desiredW: int, desiredH: int)
    ensures var (cw, ch) := PadCanvas(im, desiredW, desiredH);
            var b := PasteBox(im, desiredW, desiredH);
            b.left <= cw - b.right <= b.left + 1 && b.upper <= ch - b.lower <= b.upper + 1
  {
  }

  /** `is_larger(im, dimensions)` */
  predicate IsLarger(im: Image, desiredW: int, desiredH: int)
  {
    im.width > desiredW || im.height > desiredH
  }

  /** Padding to a size lands on exactly that size precisely when the image is not
      larger than it; otherwise the canvas is the image's own size on the larger axis. */
  lemma PadReachesSizeUnlessLarger(im: Image, desiredW: nat, desiredH: nat)
    ensures !IsLarger(im, desiredW, desiredH) <==> PadCanvas(im, desiredW, desiredH) == (desiredW, desiredH)
    ensures im.width > desiredW ==> PadCanvas(im, desiredW, desiredH).0 == im.width
    ensures im.height > desiredH ==> PadCanvas(im, desiredW, desiredH).1 == im.height
  {
  }

  /** `int(math.ceil(x))` */
  function Ceil(x: real): (n: int)
    ensures x <= n as real < x + 1.0
  {
    -((-x).Floor)
  }

  /** The box `crop_to_ratio` cuts: from the top-left corner, the width becomes
      `ceil(h * ar)` when the image is wider than `ar`, otherwise the height
      becomes `ceil(w / ar)`. A zero height raises when the image ratio is
      computed, and a zero width at ratio zero when dividing by the ratio. */
  function CropToRatioBox(w: nat, h: nat, ar: real): Result<Box, ImageError>
    requires ar >= 0.0
  {
    if h == 0 then Err(ZeroDivisionError)
    else
      var imAr := w as real / h as real;
      if imAr > ar then Ok(Box(0, 0, Ceil(h as real * ar) as nat, h))
      else if ar == 0.0 then Err(ZeroDivisionError)
      else Ok(Box(0, 0, w, Ceil(w as real / ar) as nat))
  }

  /** `crop_to_ratio(im, ar)` */
  function CropToRatio(im: Image, ar: real): (r: Result<Image, ImageError>)
    requires ar >= 0.0
    ensures r.Ok? <==> CropToRatioBox(im.width, im.height, ar).Ok?
    ensures r.Ok? ==> var b := CropToRatioBox(im.width, im.height, ar).value;
                      Within(b, im.width, im.height) && r.value == Crop(im, b)
  {
    CropToRatioBoxFits(im.width, im.height, ar);
    match CropToRatioBox(im.width, im.height, ar)
    case Err(e) => Err(e)
    case Ok(b) => Ok(Crop(im, b))
  }

  /** The crop starts at the corner and never exceeds the image. A wider image keeps
      its height and gets the smallest whole width reaching `h * ar`; any other
      keeps its width and gets the smallest whole height reaching `w / ar`. It fails
      only on a zero height, or a zero width at ratio zero. */
  lemma {:induction false} CropToRatioBoxFits(w: nat, h: nat, ar: real)
    requires ar >= 0.0
    ensures var r := CropToRatioBox(w, h, ar);
            && (r.Err? <==> h == 0 || (w == 0 && ar == 0.0))
            && (r.Ok? ==> r.value.left == 0 && r.value.upper == 0 && Within(r.value, w, h))
            && (r.Ok? && w as real > h as real * ar ==>
                  r.value.lower == h && h as real * ar <= r.value.right as real < h as real * ar + 1.0)
            && (r.Ok? && w as real <= h as real * ar ==>
                  r.value.right == w && w as real <= r.value.lower as real * ar &&
                  (r.value.lower as real - 1.0) * ar < w as real)
  {
    if h > 0 {
      RatioTest(w, h, ar);
      if w as real > h as real * ar {
        WiderBox(w, h, ar);
      } else if ar > 0.0 {
        NarrowerBox(w, h, ar);
      }
    }
  }

  lemma RatioTest(w: nat, h: nat, ar: real)
    requires h > 0
    ensures w as real / h as real > ar <==> w as real > h as real * ar
  {
    var imAr := w as real / h as real;
    assert imAr * h as real == w as real;
    if imAr > ar {
      assert (imAr - ar) * h as real > 0.0;
    } else {
      assert (ar - imAr) * h as real >= 0.0;
    }
  }

  lemma WiderBox(w: nat, h: nat, ar: real)
    requires ar >= 0.0 && w as real > h as real * ar
    ensures 0 <= Ceil(h as real * ar) <= w
  {
  }

  lemma NarrowerBox(w: nat, h: nat, ar: real)
    requires ar > 0.0 && w as real <= h as real * ar
    ensures var c := Ceil(w as real / ar);
            0 <= c <= h && w as real <= c as real * ar && (c as real - 1.0) * ar < w as real
  {
    var q := w as real / ar;
    var c := Ceil(q);
    ScaledBelow(q, ar, w as real, c as real - 1.0);
    ScaledBelow(q, ar, w as real, c as real);
    ScaledBelow(q, ar, w as real, h as real);
  }

  /** For positive `k`, `x` versus `q = p / k` is `x * k` versus `p`. */
  lemma ScaledBelow(q: real, k: real, p: real, x: real)
    requires k > 0.0 && q == p / k
    ensures x < q <==> x * k < p
    ensures x <= q <==> x * k <= p
  {
    assert q * k == p;
    MulOrder(x, q, k);
  }

  /** Multiplying by a positive number keeps the order of two numbers. */
  lemma MulOrder(a: real, b: real, k: real)
    requires k > 0.0
    ensures a < b <==> a * k < b * k
    ensures a <= b <==> a * k <= b * k
  {
    if a < b {
      assert (b - a) * k > 0.0;
    } else {
      assert (a - b) * k >= 0.0;
    }
  }
}
