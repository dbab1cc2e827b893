/** One camera frame through the detector: letterbox it to the model's
    input size, run the interpreter when inference is enabled and a model
    is loaded, keep the best detection, map it back onto the frame and draw
    it. Any exception along the way turns the whole frame into no result. */
module Processor {
  import opened Base
  import opened Geometry
  import opened PostProcess

  /** The user-adjustable settings the processor reads. */
  datatype Settings = Settings(
    enableInference: bool,
    confidenceThreshold: real,
    iouThreshold: real,
    enableBoundingBox: bool,
    videoData: bool,
    takePhoto: bool)

  /** The values the settings start with. */
  const DefaultSettings := Settings(true, 0.5, 0.5, true, false, true)

  /** What a loaded model reports about its first input and output tensors. */
  datatype Interpreter = Interpreter(inputShape: seq<int>, outputShape: seq<int>)

  const DefaultInputSize := 416
  const DefaultOutputShape := [1, 5, 3549]

  datatype ModelDimensions = ModelDimensions(inputW: int, inputH: int, outputShape: seq<int>)

  /** `shape.getOrNull(i) ?: fallback`. */
  function DimOr(shape: seq<int>, i: nat, fallback: int): (d: int)
    ensures i < |shape| ==> d == shape[i]
    ensures i >= |shape| ==> d == fallback
  {
    if i < |shape| then shape[i] else fallback
  }

  /** The input size is read as [batch, height, width, ...]; whatever the
      model does not report falls back to 416, and with no model loaded the
      output shape falls back to [1, 5, 3549]. */
  function GetModelDimensions(interp: Option<Interpreter>): (d: ModelDimensions)
    ensures interp.None? ==> d == ModelDimensions(DefaultInputSize, DefaultInputSize, DefaultOutputShape)
    ensures interp.Some? ==>
      && d.outputShape == interp.value.outputShape
      && d.inputH == DimOr(interp.value.inputShape, 1, DefaultInputSize)
      && d.inputW == DimOr(interp.value.inputShape, 2, DefaultInputSize)
  {
    match interp
    case None => ModelDimensions(DefaultInputSize, DefaultInputSize, DefaultOutputShape)
    case Some(m) =>
      ModelDimensions(DimOr(m.inputShape, 2, DefaultInputSize), DimOr(m.inputShape, 1, DefaultInputSize), m.outputShape)
  }

  /** The output shape can be allocated: each dimension the nested array
      constructors read exists and is not negative. A dimension is read
      only when the one before it is positive. */
  predicate Allocatable(shape: seq<int>) {
    && |shape| >= 1 && shape[0] >= 0
    && (shape[0] > 0 ==>
          && |shape| >= 2 && shape[1] >= 0
          && (shape[1] > 0 ==> |shape| >= 3 && shape[2] >= 0))
  }

  /** The output buffer `Array(s[0]) { Array(s[1]) { FloatArray(s[2]) } }`,
      zero-filled. */
  function AllocateOutput(shape: seq<int>): (r: Result<Tensor>)
    ensures r.Success? <==> Allocatable(shape)
    ensures r.Failure? ==> r.fault == IndexOutOfBounds || r.fault == NegativeArraySize
    ensures r.Success? ==>
      && |r.value| == shape[0]
      && (forall i :: 0 <= i < |r.value| ==> |r.value[i]| == shape[1])
      && (forall i, j :: 0 <= i < |r.value| && 0 <= j < |r.value[i]| ==> |r.value[i][j]| == shape[2])
  {
    if |shape| == 0 then Failure(IndexOutOfBounds)
    else if shape[0] < 0 then Failure(NegativeArraySize)
    else if shape[0] == 0 then Success([])
    else if |shape| == 1 then Failure(IndexOutOfBounds)
    else if shape[1] < 0 then Failure(NegativeArraySize)
    else if shape[1] == 0 then Success(seq(shape[0], _ => []))
    else if |shape| == 2 then Failure(IndexOutOfBounds)
    else if shape[2] < 0 then Failure(NegativeArraySize)
    else Success(seq(shape[0], _ => seq(shape[1], _ => seq(shape[2], _ => 0.0))))
  }

  /** A camera frame; a bitmap always has at least one pixel each way. */
  datatype Frame = Frame(id: nat, width: int, height: int)

  predicate ValidFrame(f: Frame) {
    f.width > 0 && f.height > 0
  }

  /** The processed bitmap: a copy of the frame with at most one box drawn. */
  datatype Picture = Picture(frame: Frame, box: Option<BoundingBox>)

  /** Both bitmaps the processor hands back: the processed frame and the
      letterboxed model input, described by its layout. */
  datatype FrameOutput = FrameOutput(processed: Picture, letterboxed: Letterbox)

  /** Inference runs only when it is enabled and a model is loaded. */
  predicate RunsInference(s: Settings, interp: Option<Interpreter>) {
    s.enableInference && interp.Some?
  }

  /** Two tensors with the same dimensions at every level. */
  predicate SameShape(a: Tensor, b: Tensor) {
    && |a| == |b|
    && (forall i :: 0 <= i < |a| ==> |a[i]| == |b[i]|)
    && (forall i, j :: 0 <= i < |a| && 0 <= j < |a[i]| ==> |a[i][j]| == |b[i][j]|)
  }

  /** Running the interpreter into the buffer `out` and parsing the result.
      `inference` is what the model computes, or its failure; the
      interpreter also rejects an output that does not fit the buffer. */
  function Detect(out: Tensor, s: Settings, inference: Result<Tensor>): Result<Option<DetectionResult>> {
    if inference.Failure? || !SameShape(inference.value, out) then Failure(InferenceFailed)
    else ParseTFLite(inference.value, s.confidenceThreshold, s.iouThreshold)
  }

  /** The inference branch: allocate the output buffer, run, parse. */
  function Infer(outputShape: seq<int>, s: Settings, inference: Result<Tensor>): Result<Option<DetectionResult>> {
    var out := AllocateOutput(outputShape);
    if out.Failure? then Failure(out.fault) else Detect(out.value, s, inference)
  }

  /** `processFrameInternalYOLO`. `inference` stands for what the
      interpreter computes from the letterboxed frame, or its failure. */
  function ProcessFrameInternal(src: Frame, s: Settings, interp: Option<Interpreter>, inference: Result<Tensor>)
    : (r: Result<FrameOutput>)
    requires ValidFrame(src)
    ensures var dims := GetModelDimensions(interp);
      var lb := CreateLetterbox(src.width, src.height, dims.inputW, dims.inputH);
      var det := Infer(dims.outputShape, s, inference);
      && (r.Success? <==> lb.Success? && (RunsInference(s, interp) ==> det.Success?))
      && (r.Failure? && lb.Success? ==> r.fault == det.fault)
      && (r.Success? ==> r.value.letterboxed == lb.value && r.value.processed.frame == src)
      && (r.Success? ==>
            (r.value.processed.box.Some? <==>
               RunsInference(s, interp) && s.enableBoundingBox && det.value.Some?))
      && (r.Success? && r.value.processed.box.Some? ==>
            r.value.processed.box.value
            == Rescale(det.value.value, src.width, src.height, lb.value.left, lb.value.top, dims.inputW, dims.inputH).0)
  {
    var dims := GetModelDimensions(interp);
    var lb := CreateLetterbox(src.width, src.height, dims.inputW, dims.inputH);
    if lb.Failure? then Failure(lb.fault)
    else if !RunsInference(s, interp) then Success(FrameOutput(Picture(src, None), lb.value))
    else
      var det := Infer(dims.outputShape, s, inference);
      if det.Failure? then Failure(det.fault)
      else if det.value.None? || !s.enableBoundingBox then Success(FrameOutput(Picture(src, None), lb.value))
      else
        var box := Rescale(det.value.value, src.width, src.height, lb.value.left, lb.value.top, dims.inputW, dims.inputH).0;
        Success(FrameOutput(Picture(src, Some(box)), lb.value))
  }

  /** `processFrame`: an exception inside becomes a null result for the
      callback. */
  function ProcessFrame(src: Frame, s: Settings, interp: Option<Interpreter>, inference: Result<Tensor>)
    : (r: Option<FrameOutput>)
    requires ValidFrame(src)
    ensures r.None? <==> ProcessFrameInternal(src, s, interp, inference).Failure?
    ensures r.Some? ==> r.value.processed.frame == src
  {
    ProcessFrameInternal(src, s, interp, inference).ToOption()
  }

  /** Without inference the interpreter's output is never looked at. */
  lemma InferenceIgnoredWhenOff(src: Frame, s: Settings, interp: Option<Interpreter>, a: Result<Tensor>, b: Result<Tensor>)
    requires ValidFrame(src) && !RunsInference(s, interp)
    ensures ProcessFrame(src, s, interp, a) == ProcessFrame(src, s, interp, b)
    ensures ProcessFrame(src, s, interp, a).Some? ==> ProcessFrame(src, s, interp, a).value.processed.box.None?
  {
  }

  /** The bounding-box switch changes only whether the box is drawn. */
  lemma BoxSwitchOnlyDraws(src: Frame, s: Settings, interp: Option<Interpreter>, inference: Result<Tensor>)
    requires ValidFrame(src)
    ensures var on := ProcessFrame(src, s.(enableBoundingBox := true), interp, inference);
      var off := ProcessFrame(src, s.(enableBoundingBox := false), interp, inference);
      && on.Some? == off.Some?
      && (off.Some? ==> off.value.processed.box.None? && on.value.letterboxed == off.value.letterboxed)
  {
  }

  /** With no model loaded the frame is letterboxed to 416 x 416. */
  lemma DefaultInputWithoutModel(src: Frame, s: Settings, inference: Result<Tensor>)
    requires ValidFrame(src)
    ensures var r := ProcessFrame(src, s, None, inference);
      r.Some? ==>
        && r.value.letterboxed.left + r.value.letterboxed.newW + r.value.letterboxed.right == 416
        && r.value.letterboxed.top + r.value.letterboxed.newH + r.value.letterboxed.bottom == 416
  {
  }

  /** A drawn box is the best raw column of the interpreter's output,
      mapped back onto the frame with the letterbox's offsets. */
  lemma DrawnBoxIsBestColumn(src: Frame, s: Settings, interp: Option<Interpreter>, inference: Result<Tensor>)
    requires ValidFrame(src)
    ensures var r := ProcessFrame(src, s, interp, inference);
      r.Some? && r.value.processed.box.Some? ==>
        var dims := GetModelDimensions(interp);
        var lb := r.value.letterboxed;
        && inference.Success?
        && exists i :: IsBestColumn(inference.value[0], s.confidenceThreshold, |inference.value[0][0]|, i)
             && r.value.processed.box.value
                == Rescale(Column(inference.value[0], s.confidenceThreshold, i),
                           src.width, src.height, lb.left, lb.top, dims.inputW, dims.inputH).0
  {
  }
}
