/** The main screen's bookkeeping: the single-flight gate in front of the
    frame processor, the processing and recording flags driven by the
    start/stop button, camera switching and the pause/resume life cycle. */
module Activity {
  import opened Base
  import opened Geometry
  import opened PostProcess
  import opened Processor
  import opened Camera

  /** A letterboxed frame handed to the recorder. */
  datatype RecordedFrame = RecordedFrame(sourceId: nat, letterboxed: Letterbox)

  /** An open processed-video recorder: its frame size and what it has
      received so far. */
  datatype Recording = Recording(width: int, height: int, frames: seq<RecordedFrame>)

  datatype Screen = Screen(
    isRecording: bool,
    isProcessing: bool,
    isProcessingFrame: bool,
    inFlight: Option<Frame>,      // the frame handed to the processor, if any
    isFrontCamera: bool,
    recorder: Option<Recording>,
    finished: seq<Recording>,     // recordings stopped so far
    shown: Option<Picture>,       // the processed-frame view
    camera: Helper)

  const InitialScreen := Screen(false, false, false, None, false, None, [], None, InitialHelper)

  /** What every event keeps: the two flags in lockstep, no recorder while
      stopped, the gate set exactly while a frame is in flight, and the
      helper facing the same way as the screen. */
  predicate Consistent(a: Screen) {
    && a.isRecording == a.isProcessing
    && (!a.isRecording ==> a.recorder.None?)
    && (a.isProcessingFrame <==> a.inFlight.Some?)
    && (a.inFlight.Some? ==> ValidFrame(a.inFlight.value))
    && a.isFrontCamera == a.camera.isFront
    && Valid(a.camera)
  }

  // ---------------------------------------------------------------------
  // The frame gate
  // ---------------------------------------------------------------------

  /** `processFrameWithVideoProcessor` up to the hand-over: a busy gate
      drops the frame, a missing bitmap does nothing, otherwise the gate
      closes and the bitmap goes to the processor. */
  function RequestFrame(a: Screen, bitmap: Option<Frame>): (r: Screen)
    ensures a.isProcessingFrame ==> r == a
    ensures bitmap.None? ==> r == a
    ensures !a.isProcessingFrame && bitmap.Some? ==>
      r == a.(isProcessingFrame := true, inFlight := bitmap)
  {
    if a.isProcessingFrame then a
    else if bitmap.None? then a
    else a.(isProcessingFrame := true, inFlight := bitmap)
  }

  /** `onSurfaceTextureUpdated`: frames are requested only while
      processing. */
  function SurfaceUpdated(a: Screen, bitmap: Option<Frame>): (r: Screen)
    ensures !a.isProcessing ==> r == a
    ensures a.isProcessing ==> r == RequestFrame(a, bitmap)
  {
    if a.isProcessing then RequestFrame(a, bitmap) else a
  }

  /** The recorder after one processed frame: it gets the letterboxed
      bitmap only when video export is on. */
  function Record(recorder: Option<Recording>, source: Frame, out: FrameOutput, videoData: bool): Option<Recording> {
    if videoData && recorder.Some? then
      Some(recorder.value.(frames := recorder.value.frames + [RecordedFrame(source.id, out.letterboxed)]))
    else recorder
  }

  /** The processor's callback on the UI thread. If processing stopped in
      the meantime only the gate opens; otherwise a result is shown and,
      with video export on, recorded; every path opens the gate. */
  function FrameCallback(a: Screen, result: Option<FrameOutput>, videoData: bool): (r: Screen)
    requires a.inFlight.Some?
    ensures !r.isProcessingFrame && r.inFlight.None?
    ensures r.isRecording == a.isRecording && r.isProcessing == a.isProcessing && r.camera == a.camera
    ensures r.recorder.Some? <==> a.recorder.Some?
    ensures (a.isProcessing && result.Some? && videoData && a.recorder.Some?) ==>
      r.recorder.value.frames == a.recorder.value.frames + [RecordedFrame(a.inFlight.value.id, result.value.letterboxed)]
    ensures !(a.isProcessing && result.Some? && videoData) ==> r.recorder == a.recorder
    ensures a.isProcessing && result.Some? ==> r.shown == Some(result.value.processed)
    ensures !(a.isProcessing && result.Some?) ==> r.shown == a.shown
  {
    var released := a.(isProcessingFrame := false, inFlight := None);
    if !a.isProcessing then released
    else if result.None? then released
    else
      released.(shown := Some(result.value.processed),
                recorder := Record(a.recorder, a.inFlight.value, result.value, videoData))
  }

  /** The frame in flight comes back from the processor. */
  function FrameDone(a: Screen, s: Settings, interp: Option<Interpreter>, inference: Result<Tensor>): (r: Screen)
    requires Consistent(a) && a.inFlight.Some?
    ensures Consistent(r) && !r.isProcessingFrame && r.inFlight.None?
    ensures r.isRecording == a.isRecording && r.isProcessing == a.isProcessing
    ensures r.camera == a.camera && r.finished == a.finished
    ensures r.recorder.Some? <==> a.recorder.Some?
  {
    FrameCallback(a, ProcessFrame(a.inFlight.value, s, interp, inference), s.videoData)
  }

  // ---------------------------------------------------------------------
  // Start, stop, switch, pause, resume
  // ---------------------------------------------------------------------

  /** `startProcessingAndRecording`: both flags on; with video export on, a
      recorder sized to the model's input (416 x 416 without a model). */
  function Start(a: Screen, s: Settings, interp: Option<Interpreter>): (r: Screen)
    requires Consistent(a)
    ensures Consistent(r) && r.isRecording && r.isProcessing
    ensures s.videoData ==>
      var dims := GetModelDimensions(interp);
      r.recorder == Some(Recording(dims.inputW, dims.inputH, []))
    ensures !s.videoData ==> r.recorder == a.recorder
    ensures r.camera == a.camera && r.inFlight == a.inFlight
  {
    var dims := GetModelDimensions(interp);
    var started := a.(isRecording := true, isProcessing := true);
    if s.videoData then started.(recorder := Some(Recording(dims.inputW, dims.inputH, []))) else started
  }

  /** `stopProcessingAndRecording`: both flags off, the view cleared, the
      recorder stopped and dropped. */
  function Stop(a: Screen): (r: Screen)
    requires Consistent(a)
    ensures Consistent(r) && !r.isRecording && !r.isProcessing
    ensures r.recorder.None? && r.shown.None?
    ensures r.finished == a.finished + (if a.recorder.Some? then [a.recorder.value] else [])
    ensures r.camera == a.camera && r.inFlight == a.inFlight
  {
    var finished := a.finished + (if a.recorder.Some? then [a.recorder.value] else []);
    a.(isRecording := false, isProcessing := false, shown := None, recorder := None, finished := finished)
  }

  /** The start/stop button. */
  function Toggle(a: Screen, s: Settings, interp: Option<Interpreter>): (r: Screen)
    requires Consistent(a)
    ensures Consistent(r) && r.isRecording == !a.isRecording
  {
    if a.isRecording then Stop(a) else Start(a, s, interp)
  }

  /** Stop recording first, if it is on. */
  function StopIfRecording(a: Screen): (r: Screen)
    requires Consistent(a)
    ensures Consistent(r) && !r.isRecording && r.camera == a.camera
    ensures !a.isRecording ==> r == a
  {
    if a.isRecording then Stop(a) else a
  }

  /** `switchCamera`: stop recording, flip the facing on the screen and on
      the helper, close the camera and open the other one. */
  function SwitchCamera(a: Screen, cams: seq<CameraInfo>): (r: Result<Screen>)
    requires Consistent(a)
    ensures var flipped := CloseCamera(a.camera.(isFront := !a.isFrontCamera));
      && (r.Failure? <==> OpenCamera(flipped, cams).Failure?)
      && (r.Success? ==>
            && Consistent(r.value)
            && !r.value.isRecording
            && r.value.isFrontCamera == !a.isFrontCamera
            && r.value.camera == OpenCamera(flipped, cams).value)
  {
    var stopped := StopIfRecording(a);
    var front := !stopped.isFrontCamera;
    var closed := CloseCamera(stopped.camera.(isFront := front));
    var reopened := OpenCamera(closed, cams);
    if reopened.Failure? then Failure(reopened.fault)
    else Success(stopped.(isFrontCamera := front, camera := reopened.value))
  }

  /** Switching closes the old camera before asking for the new one: the
      log gains the close requests and then, at most, the open request. */
  lemma SwitchClosesBeforeOpening(a: Screen, cams: seq<CameraInfo>)
    requires Consistent(a) && a.camera.device.Some?
    requires SwitchCamera(a, cams).Success?
    ensures var log := SwitchCamera(a, cams).value.camera.log;
      var closes := (if a.camera.session.Some? then [SessionClosed] else []) + [DeviceClosed];
      || log == a.camera.log + closes
      || exists id :: log == a.camera.log + closes + [OpenRequested(id)]
  {
  }

  /** `onPause`: stop recording, then close the camera. */
  function Pause(a: Screen): (r: Screen)
    requires Consistent(a)
    ensures Consistent(r) && !r.isRecording && !r.isProcessing && r.recorder.None?
    ensures r.camera == CloseCamera(a.camera)
    ensures r.camera.device.None? && r.camera.session.None? && r.camera.zoom == a.camera.zoom
  {
    var stopped := StopIfRecording(a);
    stopped.(camera := CloseCamera(stopped.camera))
  }

  /** `onResume`: open the camera when the view finder is ready and the
      permissions are granted. */
  function Resume(a: Screen, cams: seq<CameraInfo>, viewReady: bool): (r: Result<Screen>)
    requires Consistent(a)
    ensures !viewReady ==> r == Success(a)
    ensures viewReady ==> (r.Failure? <==> OpenCamera(a.camera, cams).Failure?)
    ensures r.Success? ==> Consistent(r.value) && r.value.isRecording == a.isRecording
  {
    if !viewReady then Success(a)
    else
      var reopened := OpenCamera(a.camera, cams);
      if reopened.Failure? then Failure(reopened.fault) else Success(a.(camera := reopened.value))
  }

  // ---------------------------------------------------------------------
  // Event sequences
  // ---------------------------------------------------------------------

  datatype ScreenEvent =
    | SurfaceUpdate(bitmap: Option<Frame>)
    | Processed(settings: Settings, interp: Option<Interpreter>, inference: Result<Tensor>)
    | StartStopButton(settings: Settings, interp: Option<Interpreter>)
    | SwitchButton(cams: seq<CameraInfo>)
    | Paused
    | Resumed(cams: seq<CameraInfo>, viewReady: bool)
    | CameraEvent(event: HelperEvent)

  /** The view finder's bitmaps have at least one pixel. */
  predicate WellFormedEvent(e: ScreenEvent) {
    e.SurfaceUpdate? && e.bitmap.Some? ==> ValidFrame(e.bitmap.value)
  }

  /** One event. A processor callback only follows a frame in flight;
      an exception leaves the screen as it was. */
  function Step(a: Screen, e: ScreenEvent): (r: Screen)
    requires Consistent(a)
    requires WellFormedEvent(e)
    ensures Consistent(r)
  {
    match e
    case SurfaceUpdate(b) => SurfaceUpdated(a, b)
    case Processed(s, m, inf) => if a.inFlight.Some? then FrameDone(a, s, m, inf) else a
    case StartStopButton(s, m) => Toggle(a, s, m)
    case SwitchButton(cams) => var o := SwitchCamera(a, cams); if o.Success? then o.value else a
    case Paused => Pause(a)
    case Resumed(cams, ready) => var o := Resume(a, cams, ready); if o.Success? then o.value else a
    case CameraEvent(he) => a.(camera := Camera.Step(a.camera, he))
  }

  function Run(a: Screen, events: seq<ScreenEvent>): (r: Screen)
    requires Consistent(a)
    requires forall i :: 0 <= i < |events| ==> WellFormedEvent(events[i])
    ensures Consistent(r)
    decreases |events|
  {
    if |events| == 0 then a else Run(Step(a, events[0]), events[1..])
  }

  /** The recorder only ever grows while processing, with a result, and
      with video export on; then by exactly the letterboxed frame. */
  lemma RecorderGrowsOnlyWhenExporting(a: Screen, s: Settings, interp: Option<Interpreter>, inference: Result<Tensor>)
    requires Consistent(a) && a.inFlight.Some?
    ensures var r := FrameDone(a, s, interp, inference);
      var result := ProcessFrame(a.inFlight.value, s, interp, inference);
      && (r.recorder != a.recorder <==> a.isProcessing && result.Some? && s.videoData && a.recorder.Some?)
      && (r.recorder != a.recorder ==>
            r.recorder.value.frames == a.recorder.value.frames + [RecordedFrame(a.inFlight.value.id, result.value.letterboxed)])
  {
    var result := ProcessFrame(a.inFlight.value, s, interp, inference);
    var r := FrameDone(a, s, interp, inference);
    if a.isProcessing && result.Some? && s.videoData && a.recorder.Some? {
      assert |r.recorder.value.frames| == |a.recorder.value.frames| + 1;
    }
  }

  /** A frame handed over while processing is dropped, not queued, when
      another is in flight; the next frame after the callback is taken. */
  lemma BusyGateDropsFrames(a: Screen, f: Frame, g: Frame, s: Settings, interp: Option<Interpreter>, inference: Result<Tensor>)
    requires Consistent(a) && a.isProcessing && !a.isProcessingFrame && ValidFrame(f) && ValidFrame(g)
    ensures var busy := SurfaceUpdated(a, Some(f));
      && busy.inFlight == Some(f)
      && SurfaceUpdated(busy, Some(g)) == busy
      && SurfaceUpdated(FrameDone(busy, s, interp, inference), Some(g)).inFlight == Some(g)
  {
  }
}
