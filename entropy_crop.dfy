/**
 * Entropy-based smart cropping (`crop_entropy_width`, `crop_entropy_height`,
 * `crop_entropy` in `pyramid_frontend/images/utils.py`).
 *
 * The histogram entropy of an image with pixels is an uninterpreted parameter
 * `entropy: Image -> real`; on an image without pixels `image_entropy` divides
 * by a zero histogram total and raises. PIL's in-place `thumbnail` is a
 * parameter `thumbnail: (Image, int, int) -> Image`. Floating-point arithmetic
 * is exact: `floor(w * 0.1)` is `w / 10` and the aspect ratios are exact reals.
 */
module EntropyCrop {
  import opened Wrappers
  import opened Raster

  /** `min(w - desired, floor(w * 0.1))`: at most a tenth of the current size,
      and never more than the excess. */
  function SliceSize(current: nat, desired: nat): (s: nat)
    requires current > desired
    ensures s <= current - desired && s <= current / 10
    ensures current >= 10 ==> s >= 1
  {
    Min(current - desired, current / 10)
  }

  /** `image_entropy(im)`: the histogram is normalised by its total, the number
      of samples, which is zero for an image without pixels. */
  function ImageEntropy(im: Image, entropy: Image -> real): Result<real, ImageError>
  {
    if im.width == 0 || im.height == 0 then Err(ZeroDivisionError) else Ok(entropy(im))
  }

  /** A box result placed inside `outer`; an error stays as it is. */
  function ShiftOk(outer: Box, r: Result<Box, ImageError>): Result<Box, ImageError>
  {
    if r.Ok? then Ok(Shift(outer, r.value)) else r
  }

  lemma ShiftOkAssociative(a: Box, b: Box, r: Result<Box, ImageError>)
    ensures ShiftOk(a, ShiftOk(b, r)) == ShiftOk(Shift(a, b), r)
  {
    if r.Ok? {
      ShiftAssociative(a, b, r.value);
    }
  }

  // ---------------------------------------------------------------- width

  /** One pass of the loop in `crop_entropy_width`: it measures the leftmost and
      rightmost slices and keeps the columns without the one of lower entropy
      (the right one on a tie). Below ten columns the slices are empty, as they
      are on an image without rows, and measuring them raises. */
  function WidthStep(im: Image, desired: nat, entropy: Image -> real): (r: Result<Box, ImageError>)
    requires im.width > desired
    ensures r.Err? <==> im.width < 10 || im.height == 0
    ensures r.Err? ==> r.error == ZeroDivisionError
    ensures r.Ok? ==>
              var b, s, w, h := r.value, SliceSize(im.width, desired), im.width, im.height;
              && Within(b, w, h) && b.upper == 0 && b.lower == h
              && b.right - b.left == w - s && s >= 1
              && (b.left == 0 || b.right == w)
              && (b.left == s <==> entropy(Crop(im, Box(0, 0, s, h))) < entropy(Crop(im, Box(w - s, 0, w, h))))
  {
    var w, h := im.width, im.height;
    var s := SliceSize(w, desired);
    var left := ImageEntropy(Crop(im, Box(0, 0, s, h)), entropy);
    var right := ImageEntropy(Crop(im, Box(w - s, 0, w, h)), entropy);
    if left.Err? || right.Err? then Err(ZeroDivisionError)
    else if left.value < right.value then Ok(Box(s, 0, w, h))
    else Ok(Box(0, 0, w - s, h))
  }

  /** A step narrows the image but never below the target, and with a target
      under nine it never reaches the target: a width of at least ten loses at
      most a tenth, leaving at least nine columns. */
  lemma WidthStepShrinks(im: Image, desired: nat, entropy: Image -> real)
    requires im.width > desired && WidthStep(im, desired, entropy).Ok?
    ensures var r := Crop(im, WidthStep(im, desired, entropy).value);
            r.height == im.height && desired <= r.width < im.width && (desired < 9 ==> r.width > desired)
  {
  }

  /** The columns of `im` that survive `crop_entropy_width`, in the coordinates
      of `im`: a full-height band exactly `desired` wide (the whole image when it
      is not wider than that). Trimming raises exactly when the image is wider
      than the target and either has no rows or the target is under nine, for
      then the width falls below ten before it reaches the target. */
  function EntropyWidthBox(im: Image, desired: nat, entropy: Image -> real): (r: Result<Box, ImageError>)
    ensures r.Err? <==> im.width > desired && (im.height == 0 || desired < 9)
    ensures r.Err? ==> r.error == ZeroDivisionError
    ensures r.Ok? ==> Within(r.value, im.width, im.height) && r.value.upper == 0 && r.value.lower == im.height
                      && r.value.right - r.value.left == Min(im.width, desired)
    decreases im.width
  {
    if im.width <= desired then Ok(Box(0, 0, im.width, im.height))
    else
      var step := WidthStep(im, desired, entropy);
      if step.Err? then Err(step.error)
      else
        WidthStepShrinks(im, desired, entropy);
        ShiftOk(step.value, EntropyWidthBox(Crop(im, step.value), desired, entropy))
  }

  /** What the loop of `crop_entropy_width` keeps true: the current image is
      the crop of the original to `kept`, and what is still to be cut from it,
      shifted back, is what was to be cut from the original. */
  ghost predicate WidthTrimming(im: Image, desired: nat, entropy: Image -> real, kept: Box, r: Image)
  {
    && Within(kept, im.width, im.height) && r == Crop(im, kept)
    && r.height == im.height && Min(im.width, desired) <= r.width
    && EntropyWidthBox(im, desired, entropy) == ShiftOk(kept, EntropyWidthBox(r, desired, entropy))
  }

  lemma WidthTrimStarts(im: Image, desired: nat, entropy: Image -> real)
    ensures WidthTrimming(im, desired, entropy, Box(0, 0, im.width, im.height), im)
  {
    CropWhole(im);
    var b := EntropyWidthBox(im, desired, entropy);
    if b.Ok? {
      assert Shift(Box(0, 0, im.width, im.height), b.value) == b.value;
    }
  }

  /** One step of the loop keeps the remaining plan. */
  lemma WidthStepKeepsPlan(im: Image, desired: nat, entropy: Image -> real, kept: Box, r: Image)
    requires WidthTrimming(im, desired, entropy, kept, r) && r.width > desired
    requires WidthStep(r, desired, entropy).Ok?
    ensures var step := WidthStep(r, desired, entropy).value;
            WidthTrimming(im, desired, entropy, Shift(kept, step), Crop(r, step))
  {
    var step := WidthStep(r, desired, entropy).value;
    CropOfCrop(im, kept, step);
    WidthStepShrinks(r, desired, entropy);
    ShiftOkAssociative(kept, step, EntropyWidthBox(Crop(r, step), desired, entropy));
  }

  /** A step that raises makes the whole trim raise. */
  lemma WidthTrimFails(im: Image, desired: nat, entropy: Image -> real, kept: Box, r: Image)
    requires WidthTrimming(im, desired, entropy, kept, r) && r.width > desired
    requires WidthStep(r, desired, entropy).Err?
    ensures EntropyWidthBox(im, desired, entropy) == Err(ZeroDivisionError)
  {
  }

  /** Once the image is no larger than the target, it is the planned crop. */
  lemma WidthTrimEnds(im: Image, desired: nat, entropy: Image -> real, kept: Box, r: Image)
    requires WidthTrimming(im, desired, entropy, kept, r) && r.width <= desired
    ensures var b := EntropyWidthBox(im, desired, entropy);
            b.Ok? && r == Crop(im, b.value) && r.width == Min(im.width, desired) && r.height == im.height
  {
    assert EntropyWidthBox(r, desired, entropy) == Ok(Box(0, 0, r.width, r.height));
    assert Shift(kept, Box(0, 0, r.width, r.height)) == kept;
  }

  /** `crop_entropy_width(im, desired_w)` */
  method CropEntropyWidth(im: Image, desired: nat, entropy: Image -> real) returns (r: Result<Image, ImageError>)
    ensures r.Err? <==> im.width > desired && (im.height == 0 || desired < 9)
    ensures r.Err? ==> r.error == ZeroDivisionError
    ensures r.Ok? ==> var b := EntropyWidthBox(im, desired, entropy);
                      b.Ok? && r.value == Crop(im, b.value) &&
                      r.value.width == Min(im.width, desired) && r.value.height == im.height
  {
    var cur := im;
    var w, h := cur.width, cur.height;
    ghost var kept := Box(0, 0, w, h);
    WidthTrimStarts(im, desired, entropy);
    while w > desired
      invariant w == cur.width && h == cur.height
      invariant WidthTrimming(im, desired, entropy, kept, cur)
      decreases w
    {
      var step := WidthStep(cur, desired, entropy);
      if step.Err? {
        WidthTrimFails(im, desired, entropy, kept, cur);
        return Err(step.error);
      }
      WidthStepKeepsPlan(im, desired, entropy, kept, cur);
      cur := Crop(cur, step.value);
      kept := Shift(kept, step.value);
      w, h := cur.width, cur.height;
    }
    WidthTrimEnds(im, desired, entropy, kept, cur);
    return Ok(cur);
  }

  // ---------------------------------------------------------------- height

  /** One pass of the loop in `crop_entropy_height`: it measures the top and
      bottom slices and keeps the rows without the bottom one when that has
      strictly lower entropy, otherwise without the top one. Below ten rows the
      slices are empty, as they are on an image without columns, and measuring
      them raises. */
  function HeightStep(im: Image, desired: nat, entropy: Image -> real): (r: Result<Box, ImageError>)
    requires im.height > desired
    ensures r.Err? <==> im.height < 10 || im.width == 0
    ensures r.Err? ==> r.error == ZeroDivisionError
    ensures r.Ok? ==>
              var b, s, w, h := r.value, SliceSize(im.height, desired), im.width, im.height;
              && Within(b, w, h) && b.left == 0 && b.right == w
              && b.lower - b.upper == h - s && s >= 1
              && (b.upper == 0 || b.lower == h)
              && (b.upper == 0 <==> entropy(Crop(im, Box(0, h - s, w, h))) < entropy(Crop(im, Box(0, 0, w, s))))
  {
    var w, h := im.width, im.height;
    var s := SliceSize(h, desired);
    var top := ImageEntropy(Crop(im, Box(0, 0, w, s)), entropy);
    var bottom := ImageEntropy(Crop(im, Box(0, h - s, w, h)), entropy);
    if bottom.Err? || top.Err? then Err(ZeroDivisionError)
    else if bottom.value < top.value then Ok(Box(0, 0, w, h - s))
    else Ok(Box(0, s, w, h))
  }

  /** A step lowers the image but never below the target, and with a target
      under nine it never reaches the target. */
  lemma HeightStepShrinks(im: Image, desired: nat, entropy: Image -> real)
    requires im.height > desired && HeightStep(im, desired, entropy).Ok?
    ensures var r := Crop(im, HeightStep(im, desired, entropy).value);
            r.width == im.width && desired <= r.height < im.height && (desired < 9 ==> r.height > desired)
  {
  }

  /** The rows of `im` that survive `crop_entropy_height`: a full-width band
      exactly `desired` high (the whole image when it is not taller). Trimming
      raises exactly when the image is taller than the target and either has no
      columns or the target is under nine. */
  function EntropyHeightBox(im: Image, desired: nat, entropy: Image -> real): (r: Result<Box, ImageError>)
    ensures r.Err? <==> im.height > desired && (im.width == 0 || desired < 9)
    ensures r.Err? ==> r.error == ZeroDivisionError
    ensures r.Ok? ==> Within(r.value, im.width, im.height) && r.value.left == 0 && r.value.right == im.width
                      && r.value.lower - r.value.upper == Min(im.height, desired)
    decreases im.height
  {
    if im.height <= desired then Ok(Box(0, 0, im.width, im.height))
    else
      var step := HeightStep(im, desired, entropy);
      if step.Err? then Err(step.error)
      else
        HeightStepShrinks(im, desired, entropy);
        ShiftOk(step.value, EntropyHeightBox(Crop(im, step.value), desired, entropy))
  }

  /** What the loop of `crop_entropy_height` keeps true: the current image is
      the crop of the original to `kept`, and what is still to be cut from it,
      shifted back, is what was to be cut from the original. */
  ghost predicate HeightTrimming(im: Image, desired: nat, entropy: Image -> real, kept: Box, r: Image)
  {
    && Within(kept, im.width, im.height) && r == Crop(im, kept)
    && r.width == im.width && Min(im.height, desired) <= r.height
    && EntropyHeightBox(im, desired, entropy) == ShiftOk(kept, EntropyHeightBox(r, desired, entropy))
  }

  lemma HeightTrimStarts(im: Image, desired: nat, entropy: Image -> real)
    ensures HeightTrimming(im, desired, entropy, Box(0, 0, im.width, im.height), im)
  {
    CropWhole(im);
    var b := EntropyHeightBox(im, desired, entropy);
    if b.Ok? {
      assert Shift(Box(0, 0, im.width, im.height), b.value) == b.value;
    }
  }

  /** One step of the loop keeps the remaining plan. */
  lemma HeightStepKeepsPlan(im: Image, desired: nat, entropy: Image -> real, kept: Box, r: Image)
    requires HeightTrimming(im, desired, entropy, kept, r) && r.height > desired
    requires HeightStep(r, desired, entropy).Ok?
    ensures var step := HeightStep(r, desired, entropy).value;
            HeightTrimming(im, desired, entropy, Shift(kept, step), Crop(r, step))
  {
    var step := HeightStep(r, desired, entropy).value;
    CropOfCrop(im, kept, step);
    HeightStepShrinks(r, desired, entropy);
    ShiftOkAssociative(kept, step, EntropyHeightBox(Crop(r, step), desired, entropy));
  }

  /** A step that raises makes the whole trim raise. */
  lemma HeightTrimFails(im: Image, desired: nat, entropy: Image -> real, kept: Box, r: Image)
    requires HeightTrimming(im, desired, entropy, kept, r) && r.height > desired
    requires HeightStep(r, desired, entropy).Err?
    ensures EntropyHeightBox(im, desired, entropy) == Err(ZeroDivisionError)
  {
  }

  /** Once the image is no larger than the target, it is the planned crop. */
  lemma HeightTrimEnds(im: Image, desired: nat, entropy: Image -> real, kept: Box, r: Image)
    requires HeightTrimming(im, desired, entropy, kept, r) && r.height <= desired
    ensures var b := EntropyHeightBox(im, desired, entropy);
            b.Ok? && r == Crop(im, b.value) && r.height == Min(im.height, desired) && r.width == im.width
  {
    assert EntropyHeightBox(r, desired, entropy) == Ok(Box(0, 0, r.width, r.height));
    assert Shift(kept, Box(0, 0, r.width, r.height)) == kept;
  }

  /** `crop_entropy_height(im, desired_h)` */
  method CropEntropyHeight(im: Image, desired: nat, entropy: Image -> real) returns (r: Result<Image, ImageError>)
    ensures r.Err? <==> im.height > desired && (im.width == 0 || desired < 9)
    ensures r.Err? ==> r.error == ZeroDivisionError
    ensures r.Ok? ==> var b := EntropyHeightBox(im, desired, entropy);
                      b.Ok? && r.value == Crop(im, b.value) &&
                      r.value.height == Min(im.height, desired) && r.value.width == im.width
  {
    var cur := im;
    var w, h := cur.width, cur.height;
    ghost var kept := Box(0, 0, w, h);
    HeightTrimStarts(im, desired, entropy);
    while h > desired
      invariant w == cur.width && h == cur.height
      invariant HeightTrimming(im, desired, entropy, kept, cur)
      decreases h
    {
      var step := HeightStep(cur, desired, entropy);
      if step.Err? {
        HeightTrimFails(im, desired, entropy, kept, cur);
        return Err(step.error);
      }
      HeightStepKeepsPlan(im, desired, entropy, kept, cur);
      cur := Crop(cur, step.value);
      kept := Shift(kept, step.value);
      w, h := cur.width, cur.height;
    }
    HeightTrimEnds(im, desired, entropy, kept, cur);
    return Ok(cur);
  }

  // ---------------------------------------------------------------- crop_entropy

  /** Which branch `crop_entropy` takes and the box it passes to `thumbnail`. */
  datatype Plan =
    | CropWidth(scaleW: int, scaleH: int)    // wider than the target: shrink, then trim columns
    | CropHeight(scaleW: int, scaleH: int)   // narrower than the target: shrink, then trim rows
    | ResizeOnly(scaleW: int, scaleH: int)   // same ratio: shrink only

  /** The branch selection of `crop_entropy`, with the source's arithmetic on exact
      reals. Dividing by a zero height, or by a zero input ratio in the
      narrower branch, raises. */
  function CropEntropyPlan(inputW: nat, inputH: nat, desiredW: nat, desiredH: nat): Result<Plan, ImageError>
  {
    if inputH == 0 || desiredH == 0 then Err(ZeroDivisionError)
    else
      var inputAr := inputW as real / inputH as real;
      var desiredAr := desiredW as real / desiredH as real;
      if inputAr > desiredAr then
        Ok(CropWidth((inputH as real * inputAr).Floor + 1, desiredH))
      else if inputAr < desiredAr then
        if inputAr == 0.0 then Err(ZeroDivisionError)
        else Ok(CropHeight(desiredW, (inputW as real / inputAr).Floor + 1))
      else
        Ok(ResizeOnly(desiredW, desiredH))
  }

  /** Comparing the two aspect ratios is comparing the cross products. */
  lemma RatioOrder(a: nat, b: nat, c: nat, d: nat)
    requires b > 0 && d > 0
    ensures (a as real / b as real > c as real / d as real) <==> a * d > c * b
    ensures (a as real / b as real < c as real / d as real) <==> a * d < c * b
  {
    var x, y := a as real / b as real, c as real / d as real;
    assert x * b as real == a as real;
    assert y * d as real == c as real;
    var bd := (b * d) as real;
    assert bd > 0.0;
    assert x * bd == (a * d) as real;
    assert y * bd == (c * b) as real;
  }

  /** `crop_entropy` trims columns exactly when the input is wider than the target
      (by cross-multiplication), trims rows exactly when it is narrower, and only
      resizes when the ratios are equal; the thumbnail box is one pixel wider
      (taller) than the input on the axis that is trimmed, so the other axis
      decides the scale. */
  lemma {:induction false} CropEntropyPlanBranches(inputW: nat, inputH: nat, desiredW: nat, desiredH: nat)
    ensures var p := CropEntropyPlan(inputW, inputH, desiredW, desiredH);
            && (p.Err? <==> inputH == 0 || desiredH == 0 || (inputW == 0 && desiredW > 0))
            && (p == Ok(CropWidth(inputW + 1, desiredH)) <==> inputH > 0 && desiredH > 0 && inputW * desiredH > desiredW * inputH)
            && (p == Ok(CropHeight(desiredW, inputH + 1)) <==> inputW > 0 && desiredH > 0 && inputW * desiredH < desiredW * inputH)
            && (p == Ok(ResizeOnly(desiredW, desiredH)) <==> inputH > 0 && desiredH > 0 && inputW * desiredH == desiredW * inputH)
  {
    if inputH > 0 && desiredH > 0 {
      RatioOrder(inputW, inputH, desiredW, desiredH);
      var inputAr := inputW as real / inputH as real;
      assert inputH as real * inputAr == inputW as real;
      assert (inputW as real).Floor == inputW;
      if inputW > 0 {
        assert inputAr > 0.0;
        assert inputW as real / inputAr == inputH as real;
        assert (inputH as real).Floor == inputH;
      } else {
        assert inputAr == 0.0;
        if desiredW > 0 {
          assert desiredW as real / desiredH as real > 0.0;
        }
      }
    }
  }

  /** `crop_entropy(im, dimensions)`: resize, then entropy-trim the excess axis.
      Every exception it raises is a `ZeroDivisionError`. */
  method CropEntropy(im: Image, desiredW: nat, desiredH: nat, thumbnail: (Image, int, int) -> Image,
                     entropy: Image -> real) returns (r: Result<Image, ImageError>)
    ensures r.Err? ==> r.error == ZeroDivisionError
    ensures var plan := CropEntropyPlan(im.width, im.height, desiredW, desiredH);
            plan.Err? ==> r.Err?
    ensures var plan := CropEntropyPlan(im.width, im.height, desiredW, desiredH);
            plan.Ok? ==>
              var t := thumbnail(im, plan.value.scaleW, plan.value.scaleH);
              && (plan.value.CropWidth? ==>
                    (r.Err? <==> t.width > desiredW && (t.height == 0 || desiredW < 9)) &&
                    (r.Ok? ==> EntropyWidthBox(t, desiredW, entropy).Ok? &&
                               r.value == Crop(t, EntropyWidthBox(t, desiredW, entropy).value) &&
                               r.value.width == Min(t.width, desiredW) && r.value.height == t.height))
              && (plan.value.CropHeight? ==>
                    (r.Err? <==> t.height > desiredH && (t.width == 0 || desiredH < 9)) &&
                    (r.Ok? ==> EntropyHeightBox(t, desiredH, entropy).Ok? &&
                               r.value == Crop(t, EntropyHeightBox(t, desiredH, entropy).value) &&
                               r.value.height == Min(t.height, desiredH) && r.value.width == t.width))
              && (plan.value.ResizeOnly? ==> r == Ok(t))
  {
    var plan := CropEntropyPlan(im.width, im.height, desiredW, desiredH);
    match plan {
      case Err(e) =>
        r := Err(e);
      case Ok(CropWidth(sw, sh)) =>
        var t := thumbnail(im, sw, sh);
        r := CropEntropyWidth(t, desiredW, entropy);
      case Ok(CropHeight(sw, sh)) =>
        var t := thumbnail(im, sw, sh);
        r := CropEntropyHeight(t, desiredH, entropy);
      case Ok(ResizeOnly(sw, sh)) =>
        r := Ok(thumbnail(im, sw, sh));
    }
  }
}
