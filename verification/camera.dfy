/** The decision logic of the camera helper: which camera and which stream
    size it picks, how the zoom buttons step the zoom level, the crop
    rectangle a zoom level asks the sensor for, the exposure of a still
    capture, and the helper's life cycle over its nullable device, session,
    request builder and image reader. Camera-framework calls appear as
    events in a request log. */
module Camera {
  import opened Base

  // ---------------------------------------------------------------------
  // Stream sizes
  // ---------------------------------------------------------------------

  datatype Size = Size(width: int, height: int)

  /** The size the helper prefers for preview and recording. */
  const PreferredSize := Size(1280, 720)

  function Area(s: Size): int {
    s.width * s.height
  }

  /** `k` is the first position holding a size of least area. */
  predicate IsFirstMinAreaAt(choices: seq<Size>, k: int) {
    && 0 <= k < |choices|
    && (forall j :: 0 <= j < |choices| ==> Area(choices[k]) <= Area(choices[j]))
    && (forall j :: 0 <= j < k ==> Area(choices[k]) < Area(choices[j]))
  }

  /** `minByOrNull` over the areas: a later size replaces the running
      minimum only when it is strictly smaller. */
  function MinAreaIndex(choices: seq<Size>): (k: int)
    requires |choices| > 0
    ensures IsFirstMinAreaAt(choices, k)
  {
    if |choices| == 1 then 0
    else
      var prefix := choices[..|choices| - 1];
      var k := MinAreaIndex(prefix);
      assert forall j :: 0 <= j < |prefix| ==> prefix[j] == choices[j];
      if Area(choices[|choices| - 1]) < Area(choices[k]) then |choices| - 1 else k
  }

  /** `chooseOptimalSize`: 1280 x 720 when it is offered, otherwise the
      first size of least area; an empty array fails on `choices[0]`. */
  function ChooseOptimalSize(choices: seq<Size>): (r: Result<Size>)
    ensures r.Failure? <==> |choices| == 0
    ensures r.Failure? ==> r.fault == IndexOutOfBounds
    ensures r.Success? ==> r.value in choices
    ensures PreferredSize in choices ==> r == Success(PreferredSize)
    ensures r.Success? && PreferredSize !in choices ==>
      exists k :: IsFirstMinAreaAt(choices, k) && choices[k] == r.value
  {
    if PreferredSize in choices then Success(PreferredSize)
    else if |choices| == 0 then Failure(IndexOutOfBounds)
    else Success(choices[MinAreaIndex(choices)])
  }

  // ---------------------------------------------------------------------
  // Camera selection
  // ---------------------------------------------------------------------

  datatype Facing = Front | Back | External

  /** An exposure-time or sensitivity range reported by the camera. */
  datatype Range = Range(lower: int, upper: int)

  /** The stream sizes a camera offers to a preview texture and to a
      media recorder. */
  datatype StreamMap = StreamMap(textureSizes: seq<Size>, recorderSizes: seq<Size>)

  /** The characteristics the helper reads from one camera. */
  datatype CameraInfo = CameraInfo(
    id: string,
    facing: Option<Facing>,
    activeArray: Option<Rect>,
    streamMap: Option<StreamMap>,
    manualSensor: bool,
    exposureRange: Option<Range>,
    isoRange: Option<Range>)

  /** The lens facing the helper looks for. */
  predicate Wanted(c: CameraInfo, isFront: bool) {
    c.facing == Some(if isFront then Front else Back)
  }

  /** Position of the first camera with the wanted facing. */
  function WantedIndex(cams: seq<CameraInfo>, isFront: bool): (r: Option<nat>)
    ensures r.Some? ==> r.value < |cams| && Wanted(cams[r.value], isFront)
    ensures r.Some? ==> forall j :: 0 <= j < r.value ==> !Wanted(cams[j], isFront)
    ensures r.None? ==> forall j :: 0 <= j < |cams| ==> !Wanted(cams[j], isFront)
  {
    if |cams| == 0 then None
    else if Wanted(cams[0], isFront) then Some(0)
    else
      var rest := WantedIndex(cams[1..], isFront);
      if rest.None? then None else Some(rest.value + 1)
  }

  /** The camera `getCameraId` settles on: the first one facing the wanted
      way, otherwise the first camera of all; `first()` fails on an empty
      list. */
  function SelectCamera(cams: seq<CameraInfo>, isFront: bool): (r: Result<CameraInfo>)
    ensures r.Failure? <==> |cams| == 0
    ensures r.Failure? ==> r.fault == NoSuchElement
    ensures r.Success? ==> r.value in cams
    ensures r.Success? && (exists k :: 0 <= k < |cams| && Wanted(cams[k], isFront)) ==>
      exists k :: 0 <= k < |cams| && cams[k] == r.value && Wanted(cams[k], isFront)
                  && forall j :: 0 <= j < k ==> !Wanted(cams[j], isFront)
    ensures r.Success? && (forall k :: 0 <= k < |cams| ==> !Wanted(cams[k], isFront)) ==>
      r.value == cams[0]
  {
    var w := WantedIndex(cams, isFront);
    if w.Some? then Success(cams[w.value])
    else if |cams| == 0 then Failure(NoSuchElement)
    else Success(cams[0])
  }

  /** `getCameraId`. */
  function GetCameraId(cams: seq<CameraInfo>, isFront: bool): (r: Result<string>)
    ensures r.Failure? <==> |cams| == 0
    ensures r.Success? ==> r.value == SelectCamera(cams, isFront).value.id
    ensures r.Success? ==> exists k :: 0 <= k < |cams| && cams[k].id == r.value
  {
    var c := SelectCamera(cams, isFront);
    if c.Failure? then Failure(c.fault) else Success(c.value.id)
  }

  // ---------------------------------------------------------------------
  // Zoom
  // ---------------------------------------------------------------------

  const MinZoom := 1.0
  const MaxZoom := 10.0
  const ZoomStep := 0.1

  predicate ZoomInRange(z: real) {
    MinZoom <= z <= MaxZoom
  }

  /** One tick of the zoom-in button: one step up, capped at the maximum. */
  function ZoomInLevel(z: real): (r: real)
    ensures r <= MaxZoom
    ensures z + ZoomStep <= MaxZoom ==> r == z + ZoomStep
    ensures z + ZoomStep > MaxZoom ==> r == MaxZoom
    ensures z <= MaxZoom ==> z <= r
  {
    MinReal(z + ZoomStep, MaxZoom)
  }

  /** One tick of the zoom-out button: one step down, floored at 1. */
  function ZoomOutLevel(z: real): (r: real)
    ensures MinZoom <= r
    ensures MinZoom <= z - ZoomStep ==> r == z - ZoomStep
    ensures z - ZoomStep < MinZoom ==> r == MinZoom
    ensures MinZoom <= z ==> r <= z
  {
    MaxReal(z - ZoomStep, MinZoom)
  }

  datatype ZoomButton = ZoomInButton | ZoomOutButton

  function ZoomAfter(z: real, ticks: seq<ZoomButton>): real
    decreases |ticks|
  {
    if |ticks| == 0 then z
    else
      var next := if ticks[0] == ZoomInButton then ZoomInLevel(z) else ZoomOutLevel(z);
      ZoomAfter(next, ticks[1..])
  }

  /** Whatever the buttons do, the zoom level stays within [1, 10]. */
  lemma {:induction false} ZoomStaysInRange(z: real, ticks: seq<ZoomButton>)
    requires ZoomInRange(z)
    ensures ZoomInRange(ZoomAfter(z, ticks))
    decreases |ticks|
  {
    if |ticks| > 0 {
      var next := if ticks[0] == ZoomInButton then ZoomInLevel(z) else ZoomOutLevel(z);
      ZoomStaysInRange(next, ticks[1..]);
    }
  }

  /** Away from the bounds, a zoom-out tick undoes a zoom-in tick (exactly
      so over the reals). */
  lemma ZoomOutUndoesZoomIn(z: real)
    requires MinZoom <= z && z + ZoomStep <= MaxZoom
    ensures ZoomOutLevel(ZoomInLevel(z)) == z
  {
  }

  // ---------------------------------------------------------------------
  // Crop region
  // ---------------------------------------------------------------------

  datatype Rect = Rect(left: int, top: int, right: int, bottom: int)
  {
    function Width(): int { right - left }
    function Height(): int { bottom - top }
  }

  /** A non-negative length shrunk by a zoom factor of at least 1. */
  lemma Shrunk(a: real, zoom: real)
    requires 0.0 <= a && 1.0 <= zoom
    ensures 0.0 <= a * (1.0 / zoom) <= a
    ensures a * (1.0 / zoom) * zoom == a
  {
    assert (1.0 / zoom) * zoom == 1.0;
    assert 1.0 / zoom <= 1.0;
  }

  lemma ScaleMonotone(a: real, b: real, c: real)
    requires a <= b && 0.0 < c
    ensures a * c <= b * c
  {
  }

  lemma ScaleStrict(a: real, b: real, c: real)
    requires a < b && 0.0 < c
    ensures a * c < b * c
  {
  }

  /** A length `x = size / zoom` and its floor `k`, scaled back by `zoom`. */
  lemma FloorScaled(size: real, zoom: real, x: real, k: int)
    requires 1.0 <= zoom && x * zoom == size && 0.0 <= x <= size
    requires k as real <= x < (k + 1) as real && 0 <= k
    ensures k <= size.Floor
    ensures k as real * zoom <= size < (k + 1) as real * zoom
  {
    ScaleMonotone(k as real, x, zoom);
    ScaleStrict(x, (k + 1) as real, zoom);
  }

  /** `(size * (1 / zoom)).toInt()`: the length the crop keeps, which is
      `floor(size / zoom)` for a zoom of at least 1. */
  function KeptLength(size: int, zoom: real): (k: int)
    requires zoom > 0.0
    ensures 1.0 <= zoom && 0 <= size ==>
      && 0 <= k <= size
      && k as real * zoom <= size as real < (k + 1) as real * zoom
  {
    var x := size as real * (1.0 / zoom);
    var k := Trunc(x);
    if 1.0 <= zoom && 0 <= size then
      Shrunk(size as real, zoom);
      FloorScaled(size as real, zoom, x, k);
      k
    else k
  }

  /** One side of a crop of `size` at `zoom`: the kept length is
      `floor(size / zoom)`, and the offset centres it, leaving gaps on the
      two sides that differ by at most one. */
  predicate CentredSpan(size: int, zoom: real, offset: int, kept: int) {
    && 0 <= offset && 0 <= kept && offset + kept <= size
    && 0 <= (size - (offset + kept)) - offset <= 1
    && kept as real * zoom <= size as real < (kept + 1) as real * zoom
  }

  /** One side of the crop: the offset that centres the kept length, and
      the kept length. */
  function CropSpan(size: int, zoom: real): (r: (int, int))
    requires zoom > 0.0
    ensures 1.0 <= zoom && 0 <= size ==> CentredSpan(size, zoom, r.0, r.1)
  {
    var kept := KeptLength(size, zoom);
    (Half(size - kept), kept)
  }

  /** `applyZoom`'s crop rectangle for a sensor rectangle and zoom level,
      with its origin at 0 rather than at the sensor rectangle's corner. */
  function CropRegion(sensor: Rect, zoom: real): (c: Rect)
    requires zoom > 0.0
    ensures 1.0 <= zoom && 0 <= sensor.Width() ==> CentredSpan(sensor.Width(), zoom, c.left, c.Width())
    ensures 1.0 <= zoom && 0 <= sensor.Height() ==> CentredSpan(sensor.Height(), zoom, c.top, c.Height())
  {
    var x := CropSpan(sensor.Width(), zoom);
    var y := CropSpan(sensor.Height(), zoom);
    var c := Rect(x.0, y.0, x.0 + x.1, y.0 + y.1);
    assert c.Width() == x.1 && c.Height() == y.1;
    c
  }

  /** At zoom level 1 the crop is the whole sensor rectangle, moved to 0. */
  lemma NoCropAtUnitZoom(sensor: Rect)
    requires 0 <= sensor.Width() && 0 <= sensor.Height()
    ensures CropRegion(sensor, 1.0) == Rect(0, 0, sensor.Width(), sensor.Height())
  {
  }

  // ---------------------------------------------------------------------
  // Still-capture exposure
  // ---------------------------------------------------------------------

  /** One fifteenth of a second, in nanoseconds (Long division). */
  const TargetExposureNs := 1_000_000_000 / 15
  const MinStillIso := 100

  datatype Exposure = AutoExposure | ManualExposure(exposureNs: int, iso: int)

  /** The exposure of the still request: manual only when the camera has
      the manual-sensor capability and reports both ranges; the exposure
      time is 1/15 s clamped into the camera's range and the sensitivity
      is at least 100. */
  function StillExposure(cam: CameraInfo): (r: Result<Exposure>)
    ensures var manual := cam.manualSensor && cam.exposureRange.Some? && cam.isoRange.Some?;
      && (r.Failure? <==> manual && cam.exposureRange.value.lower > cam.exposureRange.value.upper)
      && (r.Failure? ==> r.fault == IllegalArgument)
      && (r.Success? ==> (r.value.ManualExposure? <==> manual))
      && (r.Success? && manual ==>
            && cam.exposureRange.value.lower <= r.value.exposureNs <= cam.exposureRange.value.upper
            && (cam.exposureRange.value.lower <= TargetExposureNs <= cam.exposureRange.value.upper ==>
                  r.value.exposureNs == TargetExposureNs)
            && (TargetExposureNs < cam.exposureRange.value.lower ==> r.value.exposureNs == cam.exposureRange.value.lower)
            && (cam.exposureRange.value.upper < TargetExposureNs ==> r.value.exposureNs == cam.exposureRange.value.upper)
            && MinStillIso <= r.value.iso && cam.isoRange.value.lower <= r.value.iso
            && (r.value.iso == MinStillIso || r.value.iso == cam.isoRange.value.lower))
  {
    if cam.manualSensor && cam.exposureRange.Some? && cam.isoRange.Some? then
      var ns := CoerceIn(TargetExposureNs, cam.exposureRange.value.lower, cam.exposureRange.value.upper);
      if ns.Failure? then Failure(ns.fault)
      else
        var iso := if cam.isoRange.value.lower >= MinStillIso then cam.isoRange.value.lower else MinStillIso;
        Success(ManualExposure(ns.value, iso))
    else Success(AutoExposure)
  }

  // ---------------------------------------------------------------------
  // The helper's life cycle
  // ---------------------------------------------------------------------

  /** The preview request under construction; only its crop is modelled. */
  datatype Builder = Builder(crop: Option<Rect>)

  datatype StillRequest = StillRequest(crop: Option<Rect>, exposure: Exposure)

  /** The requests the helper issues to the camera framework. */
  datatype Event =
    | OpenRequested(cameraId: string)
    | SessionRequested
    | RepeatingRequest(crop: Option<Rect>)
    | StopRepeating
    | Capture(request: StillRequest)
    | SessionClosed
    | DeviceClosed
    | ActivityFinished

  /** The helper's fields. `device` and `session` are handles the
      framework hands over; `repeating` says whether a repeating preview
      request is active on the session. */
  datatype Helper = Helper(
    device: Option<nat>,
    session: Option<nat>,
    builder: Option<Builder>,
    reader: bool,
    activeArray: Option<Rect>,
    previewSize: Option<Size>,
    videoSize: Option<Size>,
    zoom: real,
    isFront: bool,
    repeating: bool,
    log: seq<Event>)

  const InitialHelper := Helper(None, None, None, false, None, None, None, 1.0, false, false, [])

  /** What holds of the helper's fields in every reachable state. */
  predicate Valid(h: Helper) {
    ZoomInRange(h.zoom) && (h.repeating ==> h.session.Some?)
  }

  /** The crop a preview request should carry at the helper's zoom level. */
  function PreviewCrop(h: Helper): Option<Rect>
    requires Valid(h)
  {
    if h.activeArray.Some? then Some(CropRegion(h.activeArray.value, h.zoom)) else None
  }

  /** `openCamera`: pick a camera, read its sensor rectangle and stream
      sizes, and ask the framework to open it. A camera without a stream
      map stops after the sensor rectangle is read. */
  function OpenCamera(h: Helper, cams: seq<CameraInfo>): (r: Result<Helper>)
    requires Valid(h)
    ensures r.Failure? <==>
      || |cams| == 0
      || (var c := SelectCamera(cams, h.isFront).value;
          c.streamMap.Some? && (|c.streamMap.value.textureSizes| == 0 || |c.streamMap.value.recorderSizes| == 0))
    ensures r.Success? ==>
      var c := SelectCamera(cams, h.isFront).value;
      && Valid(r.value)
      && r.value.activeArray == c.activeArray
      && r.value.device == h.device && r.value.session == h.session && r.value.zoom == h.zoom
      && (c.streamMap.None? ==> r.value.log == h.log)
      && (c.streamMap.Some? ==>
            && r.value.log == h.log + [OpenRequested(c.id)]
            && r.value.previewSize == ChooseOptimalSize(c.streamMap.value.textureSizes).ToOption()
            && r.value.videoSize == ChooseOptimalSize(c.streamMap.value.recorderSizes).ToOption())
  {
    var cam := SelectCamera(cams, h.isFront);
    if cam.Failure? then Failure(cam.fault)
    else
      var c := cam.value;
      var h1 := h.(activeArray := c.activeArray);
      if c.streamMap.None? then Success(h1)
      else
        var preview := ChooseOptimalSize(c.streamMap.value.textureSizes);
        if preview.Failure? then Failure(preview.fault)
        else
          var video := ChooseOptimalSize(c.streamMap.value.recorderSizes);
          if video.Failure? then Failure(video.fault)
          else Success(h1.(previewSize := Some(preview.value), videoSize := Some(video.value),
                           log := h.log + [OpenRequested(c.id)]))
  }

  /** `closeCamera`: close and forget the session, then the device. */
  function CloseCamera(h: Helper): (r: Helper)
    requires Valid(h)
    ensures Valid(r)
    ensures r.session.None? && r.device.None? && !r.repeating
    ensures r.zoom == h.zoom && r.builder == h.builder && r.isFront == h.isFront
    ensures r.log == h.log + (if h.session.Some? then [SessionClosed] else [])
                           + (if h.device.Some? then [DeviceClosed] else [])
  {
    var closedSession := if h.session.Some? then [SessionClosed] else [];
    var closedDevice := if h.device.Some? then [DeviceClosed] else [];
    h.(session := None, device := None, repeating := false, log := h.log + closedSession + closedDevice)
  }

  /** `applyZoom`: put the crop for the current zoom level on the preview
      builder and, when a session exists, make it the repeating request.
      Without a builder or a sensor rectangle nothing happens. */
  function ApplyZoom(h: Helper): (r: Helper)
    requires Valid(h)
    ensures Valid(r)
    ensures h.builder.None? || h.activeArray.None? ==> r == h
    ensures h.builder.Some? && h.activeArray.Some? ==>
      && r.builder == Some(Builder(PreviewCrop(h)))
      && r.zoom == h.zoom && r.session == h.session && r.device == h.device
      && (h.session.Some? ==> r.repeating && r.log == h.log + [RepeatingRequest(PreviewCrop(h))])
      && (h.session.None? ==> r.repeating == h.repeating && r.log == h.log)
  {
    if h.builder.None? || h.activeArray.None? then h
    else
      var b := Builder(Some(CropRegion(h.activeArray.value, h.zoom)));
      if h.session.Some? then h.(builder := Some(b), repeating := true, log := h.log + [RepeatingRequest(b.crop)])
      else h.(builder := Some(b))
  }

  function ZoomIn(h: Helper): (r: Helper)
    requires Valid(h)
    ensures Valid(r) && r.zoom == ZoomInLevel(h.zoom)
  {
    ApplyZoom(h.(zoom := ZoomInLevel(h.zoom)))
  }

  function ZoomOut(h: Helper): (r: Helper)
    requires Valid(h)
    ensures Valid(r) && r.zoom == ZoomOutLevel(h.zoom)
  {
    ApplyZoom(h.(zoom := ZoomOutLevel(h.zoom)))
  }

  /** The part of `createCameraPreview` that needs a device, a surface
      texture and a preview size: a new image reader, a new preview
      builder carrying `crop`, and a session request. */
  function BuildPreview(h: Helper, textureReady: bool, crop: Option<Rect>): (r: Helper)
    requires Valid(h)
    ensures Valid(r)
  {
    if h.device.None? || !textureReady || h.previewSize.None? then h
    else h.(reader := true, builder := Some(Builder(crop)), log := h.log + [SessionRequested])
  }

  /** `createCameraPreview` as written: `applyZoom()` runs inside the new
      builder's `apply` block, before the builder is stored, so it works on
      the previous builder and the new one never gets a crop. */
  function CreateCameraPreviewAsWritten(h: Helper, textureReady: bool): (r: Helper)
    requires Valid(h)
    ensures Valid(r)
    ensures h.device.Some? && textureReady && h.previewSize.Some? ==>
      r.builder == Some(Builder(None)) && r.reader
  {
    if h.device.None? || !textureReady || h.previewSize.None? then h
    else BuildPreview(ApplyZoom(h), textureReady, None)
  }

  /** `createCameraPreview` as evidently intended: the new builder carries
      the crop for the current zoom level. */
  function CreateCameraPreview(h: Helper, textureReady: bool): (r: Helper)
    requires Valid(h)
    ensures Valid(r)
    ensures h.device.None? || !textureReady || h.previewSize.None? ==> r == h
    ensures h.device.Some? && textureReady && h.previewSize.Some? ==>
      && r.builder == Some(Builder(PreviewCrop(h))) && r.reader
      && r.zoom == h.zoom && r.activeArray == h.activeArray
      && r.log == h.log + [SessionRequested]
  {
    BuildPreview(h, textureReady, PreviewCrop(h))
  }

  /** The crop at zoom 2 on a 4000 x 3000 sensor is its central quarter. */
  lemma CropAtZoomTwo()
    ensures CropRegion(Rect(0, 0, 4000, 3000), 2.0) == Rect(1000, 750, 3000, 2250)
  {
    assert 4000.0 * (1.0 / 2.0) == 2000.0;
    assert 3000.0 * (1.0 / 2.0) == 1500.0;
    assert Trunc(2000.0) == 2000 && Trunc(1500.0) == 1500;
  }

  /** A helper that reopens a 4000 x 3000 sensor at zoom 2. */
  const ReopenedAtZoomTwo := InitialHelper.(device := Some(7), activeArray := Some(Rect(0, 0, 4000, 3000)),
                                            previewSize := Some(PreferredSize), zoom := 2.0)

  /** Reopening at zoom 2, the preview built as written carries no crop,
      where the intended one crops to the central 2000 x 1500. */
  lemma PreviewLosesZoomAsWritten()
    ensures CreateCameraPreviewAsWritten(ReopenedAtZoomTwo, true).builder == Some(Builder(None))
    ensures CreateCameraPreview(ReopenedAtZoomTwo, true).builder == Some(Builder(Some(Rect(1000, 750, 3000, 2250))))
  {
    CropAtZoomTwo();
  }

  /** `updatePreview`: make the builder the session's repeating request. */
  function UpdatePreview(h: Helper): (r: Helper)
    requires Valid(h)
    ensures Valid(r)
    ensures h.session.Some? && h.builder.Some? ==>
      r.repeating && r.log == h.log + [RepeatingRequest(h.builder.value.crop)]
    ensures h.session.None? || h.builder.None? ==> r == h
  {
    if h.session.None? || h.builder.None? then h
    else h.(repeating := true, log := h.log + [RepeatingRequest(h.builder.value.crop)])
  }

  /** `resumePreview`: the same request again, after a still capture. */
  function ResumePreview(h: Helper): (r: Helper)
    requires Valid(h)
    ensures Valid(r)
    ensures h.session.None? || h.builder.None? ==> r == h
    ensures h.session.Some? && h.builder.Some? ==>
      r == h.(repeating := true, log := h.log + [RepeatingRequest(h.builder.value.crop)])
  {
    UpdatePreview(h)
  }

  /** The crop of the still request: only when zoomed in past 1. */
  function StillCrop(h: Helper): (c: Option<Rect>)
    requires Valid(h)
    ensures c.Some? <==> h.activeArray.Some? && h.zoom > 1.0
    ensures c.Some? ==> c == PreviewCrop(h)
  {
    if h.activeArray.Some? && h.zoom > 1.0 then Some(CropRegion(h.activeArray.value, h.zoom)) else None
  }

  /** `takePhoto`: without a device, a session and a reader it does
      nothing; otherwise it builds the still request, stops the repeating
      preview and captures. */
  function TakePhoto(h: Helper, cams: seq<CameraInfo>): (r: Result<Helper>)
    requires Valid(h)
    ensures h.device.None? || h.session.None? || !h.reader ==> r == Success(h)
    ensures h.device.Some? && h.session.Some? && h.reader ==>
      && (r.Failure? <==> |cams| == 0 || StillExposure(SelectCamera(cams, h.isFront).value).Failure?)
      && (r.Success? ==>
            var exposure := StillExposure(SelectCamera(cams, h.isFront).value).value;
            r.value == h.(repeating := false,
                          log := h.log + [StopRepeating, Capture(StillRequest(StillCrop(h), exposure))]))
  {
    if h.device.None? || h.session.None? || !h.reader then Success(h)
    else
      var cam := SelectCamera(cams, h.isFront);
      if cam.Failure? then Failure(cam.fault)
      else
        var exposure := StillExposure(cam.value);
        if exposure.Failure? then Failure(exposure.fault)
        else
          var request := StillRequest(StillCrop(h), exposure.value);
          Success(h.(repeating := false, log := h.log + [StopRepeating, Capture(request)]))
  }

  datatype CaptureOutcome = CaptureCompleted | CaptureFailed

  /** The capture callback: both outcomes resume the preview. */
  function OnCaptureDone(h: Helper, outcome: CaptureOutcome): (r: Helper)
    requires Valid(h)
    ensures Valid(r)
    ensures r == ResumePreview(h)
  {
    match outcome
    case CaptureCompleted => ResumePreview(h)
    case CaptureFailed => ResumePreview(h)
  }

  /** A photo never leaves the preview stopped: whichever way the capture
      ends, the stored preview request is repeating again, and the log
      shows stop, capture, resume in that order. */
  lemma PhotoResumesPreview(h: Helper, cams: seq<CameraInfo>, outcome: CaptureOutcome)
    requires Valid(h) && h.device.Some? && h.session.Some? && h.reader && h.builder.Some?
    requires TakePhoto(h, cams).Success?
    ensures var r := OnCaptureDone(TakePhoto(h, cams).value, outcome);
      && r.repeating
      && |r.log| == |h.log| + 3
      && r.log[..|h.log|] == h.log
      && r.log[|h.log|] == StopRepeating
      && r.log[|h.log| + 1].Capture?
      && r.log[|h.log| + 2] == RepeatingRequest(h.builder.value.crop)
  {
  }

  /** `onOpened` with the as-written preview construction. */
  function OnOpenedAsWritten(h: Helper, device: nat, textureReady: bool): (r: Helper)
    requires Valid(h)
    ensures Valid(r) && r.device == Some(device) && r.zoom == h.zoom
    ensures textureReady && h.previewSize.Some? ==> r.builder == Some(Builder(None))
  {
    CreateCameraPreviewAsWritten(h.(device := Some(device)), textureReady)
  }

  /** `onOpened` with the corrected preview construction: remember the
      device and build a preview whose request carries the current crop. */
  function OnOpened(h: Helper, device: nat, textureReady: bool): (r: Helper)
    requires Valid(h)
    ensures Valid(r) && r.device == Some(device) && r.zoom == h.zoom
    ensures textureReady && h.previewSize.Some? ==> r.builder == Some(Builder(PreviewCrop(h)))
  {
    CreateCameraPreview(h.(device := Some(device)), textureReady)
  }

  /** The session callback `onConfigured`: keep the session and start the
      preview. */
  function OnConfigured(h: Helper, session: nat): (r: Helper)
    requires Valid(h)
    ensures Valid(r) && r.session == Some(session)
    ensures h.builder.Some? ==> r.repeating
  {
    UpdatePreview(h.(session := Some(session)))
  }

  /** `onDisconnected`: close the device and forget it. */
  function OnDisconnected(h: Helper): (r: Helper)
    requires Valid(h)
    ensures Valid(r) && r.device.None? && r.log == h.log + [DeviceClosed]
    ensures r.session == h.session && r.zoom == h.zoom
  {
    h.(device := None, log := h.log + [DeviceClosed])
  }

  /** `onError`: as `onDisconnected`, and the activity finishes. */
  function OnError(h: Helper): (r: Helper)
    requires Valid(h)
    ensures Valid(r) && r.device.None? && r.log == h.log + [DeviceClosed, ActivityFinished]
    ensures r.session == h.session && r.zoom == h.zoom
  {
    h.(device := None, log := h.log + [DeviceClosed, ActivityFinished])
  }

  // ---------------------------------------------------------------------
  // Event sequences
  // ---------------------------------------------------------------------

  /** What can happen to the helper, from the activity or the framework. */
  datatype HelperEvent =
    | Open(cams: seq<CameraInfo>)
    | Close
    | Opened(device: nat, textureReady: bool)
    | Configured(session: nat)
    | Disconnected
    | Errored
    | ZoomTick(button: ZoomButton)
    | Photo(cams: seq<CameraInfo>)
    | CaptureDone(outcome: CaptureOutcome)

  /** One event, as the code is written: `onOpened` builds the preview with
      the as-written construction, so a reopened preview has no crop. An
      exception leaves the helper as it was before the event (the app does
      not catch it). */
  function Step(h: Helper, e: HelperEvent): (r: Helper)
    requires Valid(h)
    ensures Valid(r)
    ensures r.isFront == h.isFront
  {
    match e
    case Open(cams) => var o := OpenCamera(h, cams); if o.Success? then o.value else h
    case Close => CloseCamera(h)
    case Opened(d, t) => OnOpenedAsWritten(h, d, t)
    case Configured(s) => OnConfigured(h, s)
    case Disconnected => OnDisconnected(h)
    case Errored => OnError(h)
    case ZoomTick(b) => if b == ZoomInButton then ZoomIn(h) else ZoomOut(h)
    case Photo(cams) => var p := TakePhoto(h, cams); if p.Success? then p.value else h
    case CaptureDone(o) => OnCaptureDone(h, o)
  }

  function Run(h: Helper, events: seq<HelperEvent>): (r: Helper)
    requires Valid(h)
    ensures Valid(r)
    decreases |events|
  {
    if |events| == 0 then h else Run(Step(h, events[0]), events[1..])
  }

  /** Only zoom ticks move the zoom level: closing, reopening, errors and
      photos keep it. */
  lemma ZoomOnlyMovesOnTicks(h: Helper, e: HelperEvent)
    requires Valid(h) && !e.ZoomTick?
    ensures Step(h, e).zoom == h.zoom
  {
  }

  /** The builder carries the crop for the current zoom level. */
  predicate PreviewMatchesZoom(h: Helper)
    requires Valid(h)
  {
    h.builder == Some(Builder(PreviewCrop(h)))
  }

  /** The events of a run of zoom button ticks. */
  function Ticks(ticks: seq<ZoomButton>): (es: seq<HelperEvent>)
    ensures |es| == |ticks|
    ensures forall k :: 0 <= k < |es| ==> es[k] == ZoomTick(ticks[k])
  {
    if |ticks| == 0 then [] else [ZoomTick(ticks[0])] + Ticks(ticks[1..])
  }

  lemma TickKeepsPreviewInStep(h: Helper, b: ZoomButton)
    requires Valid(h) && PreviewMatchesZoom(h)
    ensures PreviewMatchesZoom(Step(h, ZoomTick(b)))
    ensures Step(h, ZoomTick(b)).zoom == (if b == ZoomInButton then ZoomInLevel(h.zoom) else ZoomOutLevel(h.zoom))
  {
  }

  /** Once the preview is built, zoom ticks keep its request in step with
      the zoom level. */
  lemma {:induction false} ZoomTicksKeepPreviewInStep(h: Helper, ticks: seq<ZoomButton>)
    requires Valid(h) && PreviewMatchesZoom(h)
    ensures PreviewMatchesZoom(Run(h, Ticks(ticks)))
    ensures Run(h, Ticks(ticks)).zoom == ZoomAfter(h.zoom, ticks)
    decreases |ticks|
  {
    if |ticks| > 0 {
      var es := Ticks(ticks);
      assert es[0] == ZoomTick(ticks[0]) && es[1..] == Ticks(ticks[1..]);
      TickKeepsPreviewInStep(h, ticks[0]);
      ZoomTicksKeepPreviewInStep(Step(h, es[0]), ticks[1..]);
    }
  }

  /** After the camera opens, the preview request carries the crop for the
      zoom level kept from before. */
  lemma ReopenKeepsZoom(h: Helper, device: nat)
    requires Valid(h) && h.previewSize.Some?
    ensures PreviewMatchesZoom(OnOpened(CloseCamera(h), device, true))
    ensures OnOpened(CloseCamera(h), device, true).zoom == h.zoom
  {
  }
}
