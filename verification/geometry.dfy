/** The coordinate geometry of the detection pipeline: centre-form
    detections and corner-form boxes, intersection-over-union, the
    letterbox layout that fits a camera frame into the model's input, and
    the rescale that maps a detection back onto the camera frame.
    Float and Double arithmetic is modelled by `real`. */
module Geometry {
  import opened Base

  /** One candidate from the detector, in centre form. */
  datatype DetectionResult = DetectionResult(
    xCenter: real, yCenter: real,
    width: real, height: real,
    confidence: real)

  /** A box in corner form; `classId` is always 0. */
  datatype BoundingBox = BoundingBox(
    x1: real, y1: real,
    x2: real, y2: real,
    confidence: real, classId: int)

  datatype Point = Point(x: real, y: real)

  predicate WellFormed(b: BoundingBox) {
    b.x1 <= b.x2 && b.y1 <= b.y2
  }

  /** Centre form to corner form: the box keeps the detection's centre and
      extent, so it is well formed exactly when the extents are not negative. */
  function DetectionToBox(d: DetectionResult): (b: BoundingBox)
    ensures (b.x1 + b.x2) / 2.0 == d.xCenter && (b.y1 + b.y2) / 2.0 == d.yCenter
    ensures b.x2 - b.x1 == d.width && b.y2 - b.y1 == d.height
    ensures b.confidence == d.confidence && b.classId == 0
    ensures WellFormed(b) <==> d.width >= 0.0 && d.height >= 0.0
  {
    BoundingBox(
      d.xCenter - d.width / 2.0, d.yCenter - d.height / 2.0,
      d.xCenter + d.width / 2.0, d.yCenter + d.height / 2.0,
      d.confidence, 0)
  }

  // ---------------------------------------------------------------------
  // Intersection over union
  // ---------------------------------------------------------------------

  function Area(b: BoundingBox): real {
    (b.x2 - b.x1) * (b.y2 - b.y1)
  }

  /** Width and height of the overlap of two boxes, never negative. */
  function OverlapWidth(a: BoundingBox, b: BoundingBox): (w: real)
    ensures w >= 0.0
  {
    MaxReal(0.0, MinReal(a.x2, b.x2) - MaxReal(a.x1, b.x1))
  }

  function OverlapHeight(a: BoundingBox, b: BoundingBox): (h: real)
    ensures h >= 0.0
  {
    MaxReal(0.0, MinReal(a.y2, b.y2) - MaxReal(a.y1, b.y1))
  }

  function Intersection(a: BoundingBox, b: BoundingBox): (i: real)
    ensures i >= 0.0
  {
    NonNegativeProduct(OverlapWidth(a, b), OverlapHeight(a, b));
    OverlapWidth(a, b) * OverlapHeight(a, b)
  }

  function Union(a: BoundingBox, b: BoundingBox): real {
    Area(a) + Area(b) - Intersection(a, b)
  }

  /** Intersection over union; 0 when the union is not positive. */
  function ComputeIoU(a: BoundingBox, b: BoundingBox): (r: real)
    ensures r >= 0.0
    ensures Union(a, b) <= 0.0 ==> r == 0.0
    ensures Union(a, b) > 0.0 ==> r * Union(a, b) == Intersection(a, b)
  {
    var u := Union(a, b);
    if u > 0.0 then Intersection(a, b) / u else 0.0
  }

  lemma NonNegativeProduct(x: real, y: real)
    requires x >= 0.0 && y >= 0.0
    ensures x * y >= 0.0
  {
  }

  lemma MonotoneProduct(x: real, y: real, x': real, y': real)
    requires 0.0 <= x <= x' && 0.0 <= y <= y'
    ensures x * y <= x' * y'
  {
    assert x * y <= x' * y;
    assert x' * y <= x' * y';
  }

  /** IoU does not depend on the order of its arguments. */
  lemma IoUSymmetric(a: BoundingBox, b: BoundingBox)
    ensures ComputeIoU(a, b) == ComputeIoU(b, a)
  {
    assert OverlapWidth(a, b) == OverlapWidth(b, a);
    assert OverlapHeight(a, b) == OverlapHeight(b, a);
  }

  /** For well-formed boxes the overlap is no larger than either box, so
      IoU is at most 1. */
  lemma IoUAtMostOne(a: BoundingBox, b: BoundingBox)
    requires WellFormed(a) && WellFormed(b)
    ensures ComputeIoU(a, b) <= 1.0
  {
    IntersectionWithinBoth(a, b);
    var u := Union(a, b);
    if u > 0.0 {
      RatioAtMostOne(Intersection(a, b), u);
    }
  }

  lemma IntersectionWithinBoth(a: BoundingBox, b: BoundingBox)
    requires WellFormed(a) && WellFormed(b)
    ensures Intersection(a, b) <= Area(a) && Intersection(a, b) <= Area(b)
  {
    IntersectionWithinFirst(a, b);
    IntersectionWithinSecond(a, b);
  }

  lemma IntersectionWithinFirst(a: BoundingBox, b: BoundingBox)
    requires WellFormed(a)
    ensures Intersection(a, b) <= Area(a)
  {
    var w, h := OverlapWidth(a, b), OverlapHeight(a, b);
    assert w <= a.x2 - a.x1 && h <= a.y2 - a.y1;
    MonotoneProduct(w, h, a.x2 - a.x1, a.y2 - a.y1);
  }

  lemma IntersectionWithinSecond(a: BoundingBox, b: BoundingBox)
    requires WellFormed(b)
    ensures Intersection(a, b) <= Area(b)
  {
    var w, h := OverlapWidth(a, b), OverlapHeight(a, b);
    assert w <= b.x2 - b.x1 && h <= b.y2 - b.y1;
    MonotoneProduct(w, h, b.x2 - b.x1, b.y2 - b.y1);
  }

  lemma RatioAtMostOne(i: real, u: real)
    requires 0.0 <= i <= u && u > 0.0
    ensures i / u <= 1.0
  {
    DivTimes(i, u);
  }

  /** A box with positive area overlaps itself completely. */
  lemma IoUOfItself(a: BoundingBox)
    requires WellFormed(a) && Area(a) > 0.0
    ensures ComputeIoU(a, a) == 1.0
  {
    assert OverlapWidth(a, a) == a.x2 - a.x1;
    assert OverlapHeight(a, a) == a.y2 - a.y1;
    assert Intersection(a, a) == Area(a);
    assert Union(a, a) == Area(a);
    var u := Union(a, a);
    assert u > 0.0 && Intersection(a, a) == u;
    assert ComputeIoU(a, a) == u / u;
    SelfRatio(u);
  }

  lemma SelfRatio(u: real)
    requires u > 0.0
    ensures u / u == 1.0
  {
  }

  // ---------------------------------------------------------------------
  // Letterbox layout
  // ---------------------------------------------------------------------

  /** The factor that fits a src-sized image into a dst-sized one without
      distortion: the smaller of the two axis ratios. */
  function Scale(srcW: int, srcH: int, dstW: int, dstH: int): real
    requires srcW > 0 && srcH > 0
  {
    MinReal(dstW as real / srcW as real, dstH as real / srcH as real)
  }

  /** How a source image is resized and padded to the model's input size:
      the resized image sits `left` pixels from the left and `top` from the
      top, with `right` and `bottom` pixels of padding after it. */
  datatype Letterbox = Letterbox(
    scale: real,
    newW: int, newH: int,
    left: int, right: int,
    top: int, bottom: int)

  /** The layout fills the target exactly: a positive scale, a resized
      image that fits and touches the target on at least one axis, and
      padding split evenly with the odd pixel after the image. */
  predicate FillsTarget(l: Letterbox, targetW: int, targetH: int) {
    && l.scale > 0.0 && targetW > 0 && targetH > 0
    && 0 < l.newW <= targetW && 0 < l.newH <= targetH
    && (l.newW == targetW || l.newH == targetH)
    && 0 <= l.left <= l.right <= l.left + 1
    && 0 <= l.top <= l.bottom <= l.top + 1
    && l.left + l.newW + l.right == targetW
    && l.top + l.newH + l.bottom == targetH
  }

  /** The resized extents are the source extents times the scale,
      truncated toward zero. */
  predicate ResizedFrom(l: Letterbox, srcW: int, srcH: int) {
    l.newW == Trunc(srcW as real * l.scale) && l.newH == Trunc(srcH as real * l.scale)
  }

  /** Both resized extents are at least one pixel before truncation. */
  predicate ResizeNonEmpty(srcW: int, srcH: int, scale: real) {
    srcW as real * scale >= 1.0 && srcH as real * scale >= 1.0
  }

  /** The size and padding arithmetic of the letterbox. The resized extent is
      truncated, not rounded; the odd pixel of padding goes to the right and
      bottom. OpenCV's resize refuses an empty target, so a source so thin
      that one resized extent truncates to 0 makes the call throw. */
  function CreateLetterbox(srcW: int, srcH: int, targetW: int, targetH: int): (r: Result<Letterbox>)
    requires srcW > 0 && srcH > 0
    ensures r.Success? <==> ResizeNonEmpty(srcW, srcH, Scale(srcW, srcH, targetW, targetH))
    ensures r.Failure? ==> r.fault == EmptyResize
    ensures r.Success? ==>
      var l := r.value;
      && l.scale == Scale(srcW, srcH, targetW, targetH)
      && ResizedFrom(l, srcW, srcH)
      && FillsTarget(l, targetW, targetH)
  {
    var scale := Scale(srcW, srcH, targetW, targetH);
    ScaledFits(srcW, srcH, targetW, targetH, targetW as real / srcW as real, targetH as real / srcH as real, scale);
    LetterboxAtScale(srcW, srcH, targetW, targetH, scale)
  }

  /** The letterbox for a scale that fits the source inside the target and
      touches it on at least one axis. */
  function LetterboxAtScale(srcW: int, srcH: int, targetW: int, targetH: int, scale: real): (r: Result<Letterbox>)
    requires srcW as real * scale <= targetW as real && srcH as real * scale <= targetH as real
    requires srcW as real * scale == targetW as real || srcH as real * scale == targetH as real
    requires srcW as real * scale > 0.0 ==> scale > 0.0
    ensures r.Success? <==> ResizeNonEmpty(srcW, srcH, scale)
    ensures r.Failure? ==> r.fault == EmptyResize
    ensures r.Success? ==>
      && r.value.scale == scale
      && ResizedFrom(r.value, srcW, srcH)
      && FillsTarget(r.value, targetW, targetH)
  {
    LetterboxOf(scale, srcW as real * scale, srcH as real * scale, targetW, targetH)
  }

  /** The letterbox of an image whose exact resized extents are xw x xh. */
  function LetterboxOf(scale: real, xw: real, xh: real, targetW: int, targetH: int): (r: Result<Letterbox>)
    requires xw <= targetW as real && xh <= targetH as real
    requires xw == targetW as real || xh == targetH as real
    requires xw > 0.0 ==> scale > 0.0
    ensures r.Success? <==> xw >= 1.0 && xh >= 1.0
    ensures r.Failure? ==> r.fault == EmptyResize
    ensures r.Success? ==>
      var l := r.value;
      && l.scale == scale
      && l.newW == Trunc(xw) && l.newH == Trunc(xh)
      && FillsTarget(l, targetW, targetH)
  {
    var newW := Trunc(xw);
    var newH := Trunc(xh);
    if newW <= 0 || newH <= 0 then
      Failure(EmptyResize)
    else
      TruncMonotone(xw, targetW);
      TruncMonotone(xh, targetH);
      Success(Pad(scale, newW, newH, targetW, targetH))
  }

  /** Truncating a value no larger than an integer stays below it, and
      reaches it exactly when the value is that integer. */
  lemma TruncMonotone(x: real, k: int)
    requires x <= k as real
    ensures Trunc(x) <= k
    ensures x == k as real ==> Trunc(x) == k
  {
  }

  /** Splits the padding around a resized image of newW x newH pixels; the
      odd pixel goes to the right and bottom. */
  function Pad(scale: real, newW: int, newH: int, targetW: int, targetH: int): (l: Letterbox)
    requires newW <= targetW && newH <= targetH
    ensures l.scale == scale && l.newW == newW && l.newH == newH
    ensures 0 <= l.left <= l.right <= l.left + 1 && 0 <= l.top <= l.bottom <= l.top + 1
    ensures l.left + newW + l.right == targetW && l.top + newH + l.bottom == targetH
  {
    var padW := targetW - newW;
    var padH := targetH - newH;
    Letterbox(scale, newW, newH, Half(padW), padW - Half(padW), Half(padH), padH - Half(padH))
  }

  /** At a scale that is the smaller of the two axis ratios, the exactly
      resized image is no larger than the target and fills it along the
      axis whose ratio was the smaller one. */
  lemma ScaledFits(srcW: int, srcH: int, targetW: int, targetH: int, rw: real, rh: real, s: real)
    requires srcW > 0 && srcH > 0
    requires rw == targetW as real / srcW as real && rh == targetH as real / srcH as real
    requires s <= rw && s <= rh && (s == rw || s == rh)
    ensures srcW as real * s <= targetW as real && srcH as real * s <= targetH as real
    ensures srcW as real * s == targetW as real || srcH as real * s == targetH as real
    ensures srcW as real * s > 0.0 ==> s > 0.0
  {
    var n, m := srcW as real, srcH as real;
    RatioTimes(targetW as real, n);
    RatioTimes(targetH as real, m);
    ScaleBelow(n, s, rw);
    ScaleBelow(m, s, rh);
    if n * s > 0.0 {
      PositiveFactor(n, s);
    }
  }

  lemma PositiveFactor(n: real, s: real)
    requires n > 0.0 && n * s > 0.0
    ensures s > 0.0
  {
  }

  lemma RatioTimes(t: real, n: real)
    requires n > 0.0
    ensures n * (t / n) == t
  {
  }

  lemma ScaleBelow(n: real, s: real, r: real)
    requires n > 0.0 && s <= r
    ensures n * s <= n * r
  {
  }

  // ---------------------------------------------------------------------
  // Rescale to the source image
  // ---------------------------------------------------------------------

  /** One source-pixel coordinate recovered from a model-input fraction:
      scale up to the input size, remove the padding, undo the scale. */
  function FromInput(c: real, size: int, pad: int, scale: real): (p: real)
    requires scale > 0.0
    ensures p * scale == c * size as real - pad as real
  {
    DivTimes(c * size as real - pad as real, scale);
    (c * size as real - pad as real) / scale
  }

  /** One source-pixel extent recovered from a model-input fraction. */
  function ExtentFromInput(e: real, size: int, scale: real): (p: real)
    requires scale > 0.0
    ensures p * scale == e * size as real
  {
    DivTimes(e * size as real, scale);
    e * size as real / scale
  }

  /** The rescale arithmetic for a given letterbox scale. The second
      component is the box centre in source pixels. */
  function RescaleBy(det: DetectionResult, scale: real, padL: int, padT: int, inW: int, inH: int)
    : (BoundingBox, Point)
    requires scale > 0.0
  {
    var cxO := FromInput(det.xCenter, inW, padL, scale);
    var cyO := FromInput(det.yCenter, inH, padT, scale);
    var wO := ExtentFromInput(det.width, inW, scale);
    var hO := ExtentFromInput(det.height, inH, scale);
    (BoundingBox(cxO - wO / 2.0, cyO - hO / 2.0, cxO + wO / 2.0, cyO + hO / 2.0, det.confidence, 0),
     Point(cxO, cyO))
  }

  /** Maps a detection, normalised to the model input, back to pixels of the
      origW x origH source image letterboxed with the given left and top
      padding. The scale is recomputed from the sizes the same way the
      letterbox computed it. Times the scale, the centre is the model-space
      centre minus the padding and the extents are the model-space extents;
      the box is centred on the returned point. */
  function Rescale(det: DetectionResult, origW: int, origH: int, padL: int, padT: int, inW: int, inH: int)
    : (r: (BoundingBox, Point))
    requires origW > 0 && origH > 0 && inW > 0 && inH > 0
    ensures var s := Scale(origW, origH, inW, inH);
      && s > 0.0
      && r.1.x * s == det.xCenter * inW as real - padL as real
      && r.1.y * s == det.yCenter * inH as real - padT as real
      && (r.0.x2 - r.0.x1) * s == det.width * inW as real
      && (r.0.y2 - r.0.y1) * s == det.height * inH as real
      && (r.0.x1 + r.0.x2) / 2.0 == r.1.x && (r.0.y1 + r.0.y2) / 2.0 == r.1.y
      && r.0.confidence == det.confidence && r.0.classId == 0
  {
    PositiveScale(origW, origH, inW, inH);
    RescaleBy(det, Scale(origW, origH, inW, inH), padL, padT, inW, inH)
  }

  lemma DivTimes(x: real, s: real)
    requires s != 0.0
    ensures x / s * s == x
  {
  }

  lemma PositiveScale(srcW: int, srcH: int, dstW: int, dstH: int)
    requires srcW > 0 && srcH > 0 && dstW > 0 && dstH > 0
    ensures Scale(srcW, srcH, dstW, dstH) > 0.0
  {
    assert dstW as real / srcW as real > 0.0;
    assert dstH as real / srcH as real > 0.0;
  }

  /** One source-pixel coordinate taken forward to a model-input fraction. */
  function ToInput(p: real, size: int, pad: int, scale: real): real
    requires size > 0
  {
    (p * scale + pad as real) / size as real
  }

  /** One source-pixel extent taken forward to a model-input fraction. */
  function ExtentToInput(e: real, size: int, scale: real): real
    requires size > 0
  {
    e * scale / size as real
  }

  /** The forward letterbox transform for a given scale: a box in source
      pixels as the detector reports it, normalised to the model input. */
  function ToModelSpaceBy(b: BoundingBox, scale: real, padL: int, padT: int, inW: int, inH: int): DetectionResult
    requires inW > 0 && inH > 0
  {
    DetectionResult(
      ToInput((b.x1 + b.x2) / 2.0, inW, padL, scale),
      ToInput((b.y1 + b.y2) / 2.0, inH, padT, scale),
      ExtentToInput(b.x2 - b.x1, inW, scale),
      ExtentToInput(b.y2 - b.y1, inH, scale),
      b.confidence)
  }

  /** The forward letterbox transform with the scale the letterbox uses. */
  function ToModelSpace(b: BoundingBox, origW: int, origH: int, padL: int, padT: int, inW: int, inH: int)
    : DetectionResult
    requires origW > 0 && origH > 0 && inW > 0 && inH > 0
  {
    ToModelSpaceBy(b, Scale(origW, origH, inW, inH), padL, padT, inW, inH)
  }

  /** One coordinate taken forward into the model input and back. */
  lemma CoordinateRoundTrip(c: real, size: int, pad: int, s: real)
    requires s > 0.0 && size > 0
    ensures FromInput(ToInput(c, size, pad, s), size, pad, s) == c
  {
    var t := ToInput(c, size, pad, s);
    DivTimes(c * s + pad as real, size as real);
    assert t * size as real - pad as real == c * s;
    assert (c * s) / s == c;
  }

  /** One extent taken forward into the model input and back. */
  lemma ExtentRoundTrip(e: real, size: int, s: real)
    requires s > 0.0 && size > 0
    ensures ExtentFromInput(ExtentToInput(e, size, s), size, s) == e
  {
    DivTimes(e * s, size as real);
    assert (e * s) / s == e;
  }

  /** For any positive scale, the rescale undoes the forward transform. */
  lemma RescaleByRoundTrip(b: BoundingBox, s: real, padL: int, padT: int, inW: int, inH: int)
    requires s > 0.0 && inW > 0 && inH > 0
    requires b.classId == 0
    ensures RescaleBy(ToModelSpaceBy(b, s, padL, padT, inW, inH), s, padL, padT, inW, inH)
         == (b, Point((b.x1 + b.x2) / 2.0, (b.y1 + b.y2) / 2.0))
  {
    CoordinateRoundTrip((b.x1 + b.x2) / 2.0, inW, padL, s);
    CoordinateRoundTrip((b.y1 + b.y2) / 2.0, inH, padT, s);
    ExtentRoundTrip(b.x2 - b.x1, inW, s);
    ExtentRoundTrip(b.y2 - b.y1, inH, s);
  }

  /** Rescale is the exact inverse of the forward letterbox transform. */
  lemma RescaleRoundTrip(b: BoundingBox, origW: int, origH: int, padL: int, padT: int, inW: int, inH: int)
    requires origW > 0 && origH > 0 && inW > 0 && inH > 0
    requires b.classId == 0
    ensures Rescale(ToModelSpace(b, origW, origH, padL, padT, inW, inH), origW, origH, padL, padT, inW, inH)
         == (b, Point((b.x1 + b.x2) / 2.0, (b.y1 + b.y2) / 2.0))
  {
    PositiveScale(origW, origH, inW, inH);
    RescaleByRoundTrip(b, Scale(origW, origH, inW, inH), padL, padT, inW, inH);
  }
}
