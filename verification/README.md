# UStar detection and camera core, modelled in Dafny

UStar is an Android app. It shows a camera preview and runs a YOLO
detector over the frames. It draws the best detection on the frame and can
export processed video and still photos. This project models the app's
sequential decision logic and proves properties of it. The model is
written as pure Dafny functions over immutable datatypes:

- `base.dfy` (`Base`) holds the shared vocabulary:
  - nullable values (`Option`);
  - the exceptions the code can raise (`Fault`, `Result`);
  - the Kotlin conversions whose rounding differs from Dafny's operators: `toInt` (`Trunc`), `Int / 2` (`Half`) and `coerceIn` (`CoerceIn`).
- `geometry.dfy` (`Geometry`) covers `YOLOHelper`'s geometry:
  - centre-form to corner-form boxes;
  - intersection over union;
  - the letterbox scale and padding arithmetic;
  - the mapping of a detection back to frame coordinates, with its inverse.
- `postprocess.dfy` (`PostProcess`) covers `parseTFLite`:
  - the confidence filter;
  - the stable descending sort;
  - greedy non-max suppression, both as a function and as the `while` loop;
  - `maxByOrNull`;
  - a reference "first column of highest confidence" that the whole pipeline is proved equal to.
- `processor.dfy` (`Processor`) covers the rest of the frame pipeline:
  - `getModelDimensions` and the allocation of the output buffer;
  - the branch structure of `processFrameInternalYOLO`;
  - `processFrame`, which turns any exception into a `null` result.
- `camera.dfy` (`Camera`) covers `CameraHelper`:
  - camera and stream-size selection;
  - zoom stepping and the crop rectangle;
  - the still-capture exposure;
  - a state machine over the helper's nullable fields, with an event log of the requests it issues.
- `activity.dfy` (`Activity`) covers `MainActivity`:
  - the single-flight frame gate;
  - the recording and processing flags;
  - camera switching, pause and resume.

Floating-point values are modelled as Dafny `real`. An exception is a
`Result.Failure`; a Kotlin `null` is `Option.None`. The interpreter's output
is a parameter of the model, and so are the settings, the camera
characteristics and the view finder's bitmaps.

Three facts about the code shape the model:

- The letterbox truncates the resized size with `toInt()`.
- A frame that fails to process reaches the callback as `null`.
- The zoom crop rectangle starts at 0, not at the sensor rectangle's left and top.

## Model

P = `UStar/app/src/main/java/com/developer27/ustar/videoprocessing/VideoProcessor.kt`,
C = `UStar/app/src/main/java/com/developer27/ustar/camera/CameraHelper.kt`,
M = `UStar/app/src/main/java/com/developer27/ustar/MainActivity.kt` (the table spells them out).

| member | source | states |
|---|---|---|
| Base.Trunc | UStar/app/src/main/java/com/developer27/ustar/videoprocessing/VideoProcessor.kt:239-240 | `toInt()` rounds toward zero. For x ≥ 0 the result n satisfies n ≤ x < n + 1; for x ≤ 0 it satisfies n − 1 < x ≤ n. |
| Base.Half | UStar/app/src/main/java/com/developer27/ustar/videoprocessing/VideoProcessor.kt:245-248 | Kotlin `Int / 2` truncates. The remainder is 0 or 1 for a non-negative value and 0 or −1 for a negative one. |
| Base.CoerceIn | UStar/app/src/main/java/com/developer27/ustar/camera/CameraHelper.kt:206 | `coerceIn` throws exactly when lower > upper. Otherwise the result lies in the range, equals the value when it is already inside, and is the nearer bound when it is not. |
| Geometry.DetectionToBox | UStar/app/src/main/java/com/developer27/ustar/videoprocessing/VideoProcessor.kt:169-173 | The corner box keeps the centre, (x1+x2)/2 = xCenter, and its extent equals the width (same vertically). It is well-formed (x1 ≤ x2, y1 ≤ y2) iff width and height are non-negative. The confidence is kept and the class is 0. |
| Geometry.Intersection | UStar/app/src/main/java/com/developer27/ustar/videoprocessing/VideoProcessor.kt:177-181 | The overlap area is never negative, because both overlap extents are clamped at 0. |
| Geometry.ComputeIoU | UStar/app/src/main/java/com/developer27/ustar/videoprocessing/VideoProcessor.kt:176-184 | IoU is never negative and is 0 when the union is ≤ 0. Otherwise IoU × union = intersection. |
| Geometry.IoUSymmetric | UStar/app/src/main/java/com/developer27/ustar/videoprocessing/VideoProcessor.kt:176-184 | IoU(a, b) = IoU(b, a). |
| Geometry.IntersectionWithinBoth | UStar/app/src/main/java/com/developer27/ustar/videoprocessing/VideoProcessor.kt:177-182 | For well-formed boxes the intersection is at most each box's area. |
| Geometry.IoUAtMostOne | UStar/app/src/main/java/com/developer27/ustar/videoprocessing/VideoProcessor.kt:176-184 | For well-formed boxes IoU ≤ 1. |
| Geometry.IoUOfItself | UStar/app/src/main/java/com/developer27/ustar/videoprocessing/VideoProcessor.kt:176-184 | A well-formed box with positive area has IoU 1 with itself. |
| Geometry.CreateLetterbox | UStar/app/src/main/java/com/developer27/ustar/videoprocessing/VideoProcessor.kt:230-258 | The letterbox succeeds iff the resized image has at least one pixel each way; otherwise the resize to an empty size fails. On success: the scale is min(targetW/sW, targetH/sH); newW = trunc(sW·scale) and newH = trunc(sH·scale); left + newW + right = targetW with 0 ≤ left ≤ right ≤ left + 1 (same vertically); one side fills the target exactly. |
| Geometry.LetterboxAtScale | UStar/app/src/main/java/com/developer27/ustar/videoprocessing/VideoProcessor.kt:237-248 | At a scale that fits the source inside the target and fills one side, the same success condition holds. On success the letterbox keeps that scale, newW = trunc(sW·scale), newH = trunc(sH·scale), and the padding facts hold. |
| Geometry.LetterboxOf | UStar/app/src/main/java/com/developer27/ustar/videoprocessing/VideoProcessor.kt:239-248 | newW = trunc(sW·scale) and newH = trunc(sH·scale). The resize fails iff either is 0. The paddings fill the rest of the target. |
| Geometry.Pad | UStar/app/src/main/java/com/developer27/ustar/videoprocessing/VideoProcessor.kt:245-248 | left = padW/2 and right = padW − left, so right − left ∈ {0, 1} and left + newW + right = targetW (same for top and bottom). |
| Geometry.PositiveScale | UStar/app/src/main/java/com/developer27/ustar/videoprocessing/VideoProcessor.kt:193 | min(inW/origW, inH/origH) is positive for positive sizes. |
| Geometry.FromInput | UStar/app/src/main/java/com/developer27/ustar/videoprocessing/VideoProcessor.kt:196-201 | A model-space coordinate c maps to p with p·scale = c·size − pad. |
| Geometry.ExtentFromInput | UStar/app/src/main/java/com/developer27/ustar/videoprocessing/VideoProcessor.kt:198-203 | A model-space extent e maps to p with p·scale = e·size. |
| Geometry.Rescale | UStar/app/src/main/java/com/developer27/ustar/videoprocessing/VideoProcessor.kt:187-209 | The returned point satisfies x·scale = xCenter·inW − padL (same for y), with scale = min(inW/origW, inH/origH). The box has extent·scale = width·inW (same for height), is centred on the point, keeps the confidence and has class 0. |
| Geometry.CoordinateRoundTrip | UStar/app/src/main/java/com/developer27/ustar/videoprocessing/VideoProcessor.kt:196-201 | Mapping a frame coordinate forward as (x·scale + pad)/size and then back gives x. |
| Geometry.ExtentRoundTrip | UStar/app/src/main/java/com/developer27/ustar/videoprocessing/VideoProcessor.kt:198-203 | Mapping an extent forward as e·scale/size and then back gives e. |
| Geometry.RescaleByRoundTrip | UStar/app/src/main/java/com/developer27/ustar/videoprocessing/VideoProcessor.kt:194-207 | At any positive scale, a frame box mapped into model space and rescaled gives back the same box and its centre. |
| Geometry.RescaleRoundTrip | UStar/app/src/main/java/com/developer27/ustar/videoprocessing/VideoProcessor.kt:187-209 | `rescaleInferencedCoordinates` inverts the letterbox mapping at the exact scale min(inW/origW, inH/origH): a frame box mapped into model space and rescaled gives back the same box and its centre. The resize itself truncates to whole pixels, so the picture's content differs from that exact mapping by less than one pixel each way. |
| PostProcess.Candidates | UStar/app/src/main/java/com/developer27/ustar/videoprocessing/VideoProcessor.kt:143-154 | Every detection that passes the filter has confidence ≥ the threshold; the comparison is inclusive. There are at most as many as the columns scanned. |
| PostProcess.CandidatesInColumnOrder | UStar/app/src/main/java/com/developer27/ustar/videoprocessing/VideoProcessor.kt:143-154 | The candidates are exactly the passing columns, in increasing column order. The k-th candidate is read from the k-th passing column, every passing column gives one, and no column is read twice. |
| PostProcess.BestIndex | UStar/app/src/main/java/com/developer27/ustar/videoprocessing/VideoProcessor.kt:143-154 | The reference scan returns, when it returns anything, a column that passes the filter. |
| PostProcess.BestIndexIsBest | UStar/app/src/main/java/com/developer27/ustar/videoprocessing/VideoProcessor.kt:143-165 | The reference finds nothing iff no column reaches the threshold. Otherwise it finds the first column of highest confidence among those that pass. |
| PostProcess.InsertByConfidence | UStar/app/src/main/java/com/developer27/ustar/videoprocessing/VideoProcessor.kt:158 | Insertion adds exactly the one element; the result is a permutation of input plus element. |
| PostProcess.InsertKeepsSorted | UStar/app/src/main/java/com/developer27/ustar/videoprocessing/VideoProcessor.kt:158 | Inserting into a sequence sorted by descending confidence keeps it sorted. |
| PostProcess.SortByConfidence | UStar/app/src/main/java/com/developer27/ustar/videoprocessing/VideoProcessor.kt:158 | `sortByDescending` yields a permutation of its input, in descending confidence. |
| PostProcess.RunningMaxIndex | UStar/app/src/main/java/com/developer27/ustar/videoprocessing/VideoProcessor.kt:165 | The strict-`<` running maximum ends at the first position of highest confidence. |
| PostProcess.MaxByConfidence | UStar/app/src/main/java/com/developer27/ustar/videoprocessing/VideoProcessor.kt:165 | `maxByOrNull` is null iff the list is empty. Otherwise it returns the element at the first position of highest confidence. |
| PostProcess.MaxByAppend | UStar/app/src/main/java/com/developer27/ustar/videoprocessing/VideoProcessor.kt:165 | Appending an element replaces the maximum only when the new element is strictly more confident. |
| PostProcess.FirstMaxUnique | UStar/app/src/main/java/com/developer27/ustar/videoprocessing/VideoProcessor.kt:165 | There is only one first position of highest confidence. |
| PostProcess.SortHeadIsFirstMax | UStar/app/src/main/java/com/developer27/ustar/videoprocessing/VideoProcessor.kt:158-165 | The stable sort's head is the earliest element of highest confidence. |
| PostProcess.MaxByIsHead | UStar/app/src/main/java/com/developer27/ustar/videoprocessing/VideoProcessor.kt:165 | When the head is the first maximum, `maxByOrNull` returns the head. |
| PostProcess.Suppress | UStar/app/src/main/java/com/developer27/ustar/videoprocessing/VideoProcessor.kt:163 | `removeAll` keeps a detection iff the kept box does not suppress it. It never grows the list. |
| PostProcess.Nms | UStar/app/src/main/java/com/developer27/ustar/videoprocessing/VideoProcessor.kt:159-164 | Greedy suppression keeps only input detections and never more than it was given. The most confident input, at the head, is always kept first. |
| PostProcess.NmsKeepsNoneSuppressed | UStar/app/src/main/java/com/developer27/ustar/videoprocessing/VideoProcessor.kt:159-164 | No kept detection is suppressed by one kept before it. |
| PostProcess.NmsCoversInput | UStar/app/src/main/java/com/developer27/ustar/videoprocessing/VideoProcessor.kt:159-164 | Every input detection is either kept or suppressed by a kept one. |
| PostProcess.NmsKeepsNoOverlap | UStar/app/src/main/java/com/developer27/ustar/videoprocessing/VideoProcessor.kt:159-164 | Any two distinct positions of the IoU suppression's result have IoU ≤ the threshold. |
| PostProcess.NmsThresholdBoundary | UStar/app/src/main/java/com/developer27/ustar/videoprocessing/VideoProcessor.kt:163 | Because the comparison is strict, two boxes with IoU exactly at the threshold both survive; above the threshold the second is removed. |
| PostProcess.NonMaxSuppression | UStar/app/src/main/java/com/developer27/ustar/videoprocessing/VideoProcessor.kt:157-164 | The `while` loop ends, because each round removes at least the head. It computes the same kept list as the greedy definition. Its result is a subset of its input in which no detection is suppressed by an earlier one. |
| PostProcess.ParseTFLite | UStar/app/src/main/java/com/developer27/ustar/videoprocessing/VideoProcessor.kt:141-166 | A missing row or column that the loop reads raises the out-of-bounds failure, and nothing else fails. An empty tensor gives none. Otherwise none is returned iff no column's confidence reaches the threshold. A returned detection is the first raw column of highest confidence among those that pass. |
| PostProcess.ParseSelectsBestColumn | UStar/app/src/main/java/com/developer27/ustar/videoprocessing/VideoProcessor.kt:143-165 | For any suppression test, sort, suppression and `maxByOrNull` together select the same detection as the reference scan. |
| PostProcess.SurvivorsPeakAtHead | UStar/app/src/main/java/com/developer27/ustar/videoprocessing/VideoProcessor.kt:158-165 | After suppression of a descending list, `maxByOrNull` returns the list's head. |
| PostProcess.MaxByOfCandidates | UStar/app/src/main/java/com/developer27/ustar/videoprocessing/VideoProcessor.kt:143-165 | `maxByOrNull` over the filtered detections equals the reference scan. |
| Processor.GetModelDimensions | UStar/app/src/main/java/com/developer27/ustar/videoprocessing/VideoProcessor.kt:126-134 | The width comes from input-shape index 2 and the height from index 1, each 416 when absent. The output shape is the model's, or [1, 5, 3549] with no model. |
| Processor.AllocateOutput | UStar/app/src/main/java/com/developer27/ustar/videoprocessing/VideoProcessor.kt:105 | The nested array allocation fails iff a dimension it reads is missing or negative; a dimension is read only when the one before it is positive. On success the buffer has exactly the shape's dimensions. |
| Processor.ProcessFrameInternal | UStar/app/src/main/java/com/developer27/ustar/videoprocessing/VideoProcessor.kt:96-123 | The frame succeeds iff the letterbox does and, when inference runs, allocation, the run and the parse do. The letterbox is always at the model's input size. A box is drawn iff inference runs, a detection is found and the bounding-box setting is on. The box is the detection mapped back with the letterbox offsets. |
| Processor.ProcessFrame | UStar/app/src/main/java/com/developer27/ustar/videoprocessing/VideoProcessor.kt:84-93 | The callback receives null iff processing threw. Otherwise it receives the processed copy of the same frame. |
| Processor.InferenceIgnoredWhenOff | UStar/app/src/main/java/com/developer27/ustar/videoprocessing/VideoProcessor.kt:104 | When inference is disabled or no model is loaded, the interpreter's output does not matter and no box is drawn. |
| Processor.BoxSwitchOnlyDraws | UStar/app/src/main/java/com/developer27/ustar/videoprocessing/VideoProcessor.kt:108-115 | The bounding-box setting changes only whether the box is drawn. Success and the letterbox are the same. |
| Processor.DefaultInputWithoutModel | UStar/app/src/main/java/com/developer27/ustar/videoprocessing/VideoProcessor.kt:126-134 | With no model the frame is letterboxed to 416 × 416. |
| Processor.DrawnBoxIsBestColumn | UStar/app/src/main/java/com/developer27/ustar/videoprocessing/VideoProcessor.kt:104-116 | A drawn box is the best raw column of the interpreter's output, rescaled with the letterbox's left and top offsets. |
| Camera.MinAreaIndex | UStar/app/src/main/java/com/developer27/ustar/camera/CameraHelper.kt:376 | `minByOrNull` over width·height picks the first size of least area. |
| Camera.ChooseOptimalSize | UStar/app/src/main/java/com/developer27/ustar/camera/CameraHelper.kt:372-377 | It fails iff no size is offered. Otherwise the result is one of the choices: 1280 × 720 when offered, else the first size of least area. |
| Camera.WantedIndex | UStar/app/src/main/java/com/developer27/ustar/camera/CameraHelper.kt:362-368 | It finds the first camera whose lens faces the wanted way, or reports that none does. |
| Camera.SelectCamera | UStar/app/src/main/java/com/developer27/ustar/camera/CameraHelper.kt:361-370 | It fails (`first()` on an empty list) iff there is no camera. It returns the first camera facing the wanted way, or the first camera of all when none does. |
| Camera.GetCameraId | UStar/app/src/main/java/com/developer27/ustar/camera/CameraHelper.kt:361-370 | It fails iff there is no camera. Otherwise it returns the id of the camera that `SelectCamera` picks: the first facing the wanted way, else the first of all. |
| Camera.ZoomInLevel | UStar/app/src/main/java/com/developer27/ustar/camera/CameraHelper.kt:308 | A zoom-in tick raises the level by exactly 0.1 when that stays ≤ 10, and otherwise sets it to 10. It never lowers a level that is within range. |
| Camera.ZoomOutLevel | UStar/app/src/main/java/com/developer27/ustar/camera/CameraHelper.kt:329 | A zoom-out tick lowers the level by exactly 0.1 when that stays ≥ 1, and otherwise sets it to 1. It never raises a level that is within range. |
| Camera.ZoomStaysInRange | UStar/app/src/main/java/com/developer27/ustar/camera/CameraHelper.kt:298-344 | Starting in [1, 10], any sequence of ticks leaves the level in [1, 10]. |
| Camera.ZoomOutUndoesZoomIn | UStar/app/src/main/java/com/developer27/ustar/camera/CameraHelper.kt:308-329 | Away from the bounds, a zoom-out tick undoes a zoom-in tick. |
| Camera.KeptLength | UStar/app/src/main/java/com/developer27/ustar/camera/CameraHelper.kt:349-351 | For zoom ≥ 1, (W·(1/zoom)).toInt() is floor(W/zoom), between 0 and W. |
| Camera.CropSpan | UStar/app/src/main/java/com/developer27/ustar/camera/CameraHelper.kt:349-353 | One side of the crop: the kept length is floor(W/zoom), the offset is (W − w)/2, and the two gaps differ by at most 1. |
| Camera.CropRegion | UStar/app/src/main/java/com/developer27/ustar/camera/CameraHelper.kt:346-354 | For zoom ≥ 1 the crop lies inside [0, W] × [0, H]. Each side keeps floor(size/zoom) and is centred, with gaps that differ by at most 1. |
| Camera.NoCropAtUnitZoom | UStar/app/src/main/java/com/developer27/ustar/camera/CameraHelper.kt:349-354 | At zoom 1 the crop is the whole sensor rectangle, placed at the origin. |
| Camera.CropAtZoomTwo | UStar/app/src/main/java/com/developer27/ustar/camera/CameraHelper.kt:349-354 | At zoom 2 a 4000 × 3000 sensor crops to (1000, 750)–(3000, 2250). |
| Camera.StillExposure | UStar/app/src/main/java/com/developer27/ustar/camera/CameraHelper.kt:197-218 | Exposure is manual iff the camera has the manual-sensor capability and reports both ranges. Then the exposure time is 1e9/15 ns when that lies in the exposure range, the lower bound when it is below, and the upper bound when it is above; ISO is max(isoRange.lower, 100). The clamp fails only on an empty range. |
| Camera.OpenCamera | UStar/app/src/main/java/com/developer27/ustar/camera/CameraHelper.kt:104-114 | Opening reads the chosen camera's sensor rectangle. Without a stream map it stops there. Otherwise it picks the preview and video sizes and requests the open. It fails iff there is no camera or an offered size list is empty. It keeps device, session and zoom. |
| Camera.CloseCamera | UStar/app/src/main/java/com/developer27/ustar/camera/CameraHelper.kt:116-121 | Closing leaves session and device null and stops the preview. It closes the session before the device, and keeps the zoom level and the builder. |
| Camera.ApplyZoom | UStar/app/src/main/java/com/developer27/ustar/camera/CameraHelper.kt:346-356 | With no builder or no sensor rectangle nothing changes. Otherwise the builder carries the crop for the current zoom, and with a session that request becomes the repeating one. |
| Camera.ZoomIn | UStar/app/src/main/java/com/developer27/ustar/camera/CameraHelper.kt:306-311 | A zoom-in tick moves the level as `ZoomInLevel` does and keeps the helper valid. |
| Camera.ZoomOut | UStar/app/src/main/java/com/developer27/ustar/camera/CameraHelper.kt:327-332 | A zoom-out tick moves the level as `ZoomOutLevel` does and keeps the helper valid. |
| Camera.CreateCameraPreviewAsWritten | UStar/app/src/main/java/com/developer27/ustar/camera/CameraHelper.kt:127-160 | As written, the preview built with a device, a texture and a size has a fresh reader and a builder without a crop. |
| Camera.CreateCameraPreview | UStar/app/src/main/java/com/developer27/ustar/camera/CameraHelper.kt:127-160 | Without device, texture or preview size nothing changes. Otherwise there is a new reader and a builder carrying the crop for the current zoom, and a session request is logged. |
| Camera.PreviewLosesZoomAsWritten | UStar/app/src/main/java/com/developer27/ustar/camera/CameraHelper.kt:139-145 | Reopened at zoom 2 on a 4000 × 3000 sensor, the as-written preview has no crop where the intended one has the central 2000 × 1500. |
| Camera.UpdatePreview | UStar/app/src/main/java/com/developer27/ustar/camera/CameraHelper.kt:162-168 | With a session and a builder the builder's request becomes the repeating one. Otherwise nothing changes. |
| Camera.ResumePreview | UStar/app/src/main/java/com/developer27/ustar/camera/CameraHelper.kt:269-277 | Resuming does nothing without a session or builder. Otherwise it makes the stored request repeating again. |
| Camera.StillCrop | UStar/app/src/main/java/com/developer27/ustar/camera/CameraHelper.kt:186-195 | The still request has a crop iff a sensor rectangle is known and zoom > 1, and then it is the preview's crop. |
| Camera.TakePhoto | UStar/app/src/main/java/com/developer27/ustar/camera/CameraHelper.kt:176-266 | Without device, session or reader it is a no-op. Otherwise it fails iff there is no camera or the exposure clamp fails. On success it logs stop-repeating and then the capture with the still crop and exposure, and the preview is stopped. |
| Camera.OnCaptureDone | UStar/app/src/main/java/com/developer27/ustar/camera/CameraHelper.kt:252-263 | A completed capture and a failed capture both resume the preview. |
| Camera.PhotoResumesPreview | UStar/app/src/main/java/com/developer27/ustar/camera/CameraHelper.kt:249-265 | After a photo, whichever way it ends, the preview repeats again. The log gains exactly stop, capture, resume (with the stored crop), in that order. |
| Camera.OnOpenedAsWritten | UStar/app/src/main/java/com/developer27/ustar/camera/CameraHelper.kt:69-72 | `onOpened` as written stores the device, keeps the zoom and keeps the helper valid. With a texture and a preview size the new builder has no crop. |
| Camera.OnOpened | UStar/app/src/main/java/com/developer27/ustar/camera/CameraHelper.kt:139-145 | The intended `onOpened`, not lines 69-72 as written: it stores the device and keeps the zoom, and with a texture and a preview size the new builder carries the crop for the current zoom. |
| Camera.OnConfigured | UStar/app/src/main/java/com/developer27/ustar/camera/CameraHelper.kt:150-153 | A configured session is stored and, when a builder exists, starts the repeating preview. |
| Camera.OnDisconnected | UStar/app/src/main/java/com/developer27/ustar/camera/CameraHelper.kt:73-76 | On disconnect the device is closed and set to null. The session and zoom are kept. |
| Camera.OnError | UStar/app/src/main/java/com/developer27/ustar/camera/CameraHelper.kt:77-81 | On error the device is closed and set to null, and the activity finishes. |
| Camera.Step | UStar/app/src/main/java/com/developer27/ustar/camera/CameraHelper.kt:68-356 | One event as the code is written, including the crop-less preview that `onOpened` builds. Every event keeps the zoom level in [1, 10] and a repeating preview only on a session. No event changes the facing. |
| Camera.Run | UStar/app/src/main/java/com/developer27/ustar/camera/CameraHelper.kt:68-356 | The helper, run event by event as the code is written, stays valid over any sequence of events. |
| Camera.ZoomOnlyMovesOnTicks | UStar/app/src/main/java/com/developer27/ustar/camera/CameraHelper.kt:104-121 | Only zoom ticks change the zoom level. Opening, closing, callbacks and photos keep it. |
| Camera.TickKeepsPreviewInStep | UStar/app/src/main/java/com/developer27/ustar/camera/CameraHelper.kt:306-311 | One zoom tick keeps the preview request's crop in step with the zoom level. |
| Camera.ZoomTicksKeepPreviewInStep | UStar/app/src/main/java/com/developer27/ustar/camera/CameraHelper.kt:298-356 | Once the preview matches the zoom, any sequence of ticks keeps it matching. The level is then the ticks' result. |
| Camera.ReopenKeepsZoom | UStar/app/src/main/java/com/developer27/ustar/camera/CameraHelper.kt:116-145 | With the corrected preview construction, closing and reopening keeps the zoom level and the preview request carries its crop. |
| Activity.RequestFrame | UStar/app/src/main/java/com/developer27/ustar/MainActivity.kt:236-239 | A frame request while one is in flight is dropped, not queued. A missing bitmap leaves the gate as it was. Otherwise the gate closes and that bitmap goes to the processor. |
| Activity.SurfaceUpdated | UStar/app/src/main/java/com/developer27/ustar/MainActivity.kt:82-84 | Surface updates request frames only while processing. |
| Activity.FrameCallback | UStar/app/src/main/java/com/developer27/ustar/MainActivity.kt:241-257 | Every callback path opens the gate. Flags and camera are untouched. A result is shown only while processing. The recorder gains exactly the letterboxed frame iff processing, a result exists, video export is on and a recorder exists; otherwise it is unchanged. |
| Activity.FrameDone | UStar/app/src/main/java/com/developer27/ustar/MainActivity.kt:241-257 | The frame in flight comes back through the processor. The gate opens and no frame is in flight. The flags, the camera, the finished recordings and the presence of a recorder are unchanged, and the screen stays consistent. |
| Activity.Start | UStar/app/src/main/java/com/developer27/ustar/MainActivity.kt:201-217 | Start turns both flags on. With video export on it creates an empty recorder sized to the model's input (416 × 416 without a model); otherwise the recorder is untouched. |
| Activity.Stop | UStar/app/src/main/java/com/developer27/ustar/MainActivity.kt:219-231 | Stop turns both flags off and clears the view. It stops the recorder, adding it to the finished recordings, and leaves it null. |
| Activity.Toggle | UStar/app/src/main/java/com/developer27/ustar/MainActivity.kt:135-137 | The start/stop button flips the recording state and keeps the screen consistent. |
| Activity.StopIfRecording | UStar/app/src/main/java/com/developer27/ustar/MainActivity.kt:174-175 | Recording is stopped if it was on, and nothing changes if it was off. |
| Activity.SwitchCamera | UStar/app/src/main/java/com/developer27/ustar/MainActivity.kt:184-191 | Switching stops recording and flips the facing on both the screen and the helper. It then closes and reopens the camera, and fails exactly when the reopening does. |
| Activity.SwitchClosesBeforeOpening | UStar/app/src/main/java/com/developer27/ustar/MainActivity.kt:189-190 | Switching logs the session and device closes before any open request. |
| Activity.Pause | UStar/app/src/main/java/com/developer27/ustar/MainActivity.kt:174-179 | Pausing stops recording and processing, drops the recorder and closes the camera, keeping the zoom. |
| Activity.Resume | UStar/app/src/main/java/com/developer27/ustar/MainActivity.kt:163-172 | Resuming opens the camera only when the view finder is ready, and fails exactly when opening does. The flags are kept. |
| Activity.Step | UStar/app/src/main/java/com/developer27/ustar/MainActivity.kt:71-258 | One event, with the camera helper's events as the code is written. Every event keeps the screen consistent: recording and processing equal, no recorder while stopped, the gate closed exactly while a frame is in flight, and the helper facing the same way. |
| Activity.Run | UStar/app/src/main/java/com/developer27/ustar/MainActivity.kt:51-258 | The screen stays consistent over any sequence of events, the camera's included. |
| Activity.RecorderGrowsOnlyWhenExporting | UStar/app/src/main/java/com/developer27/ustar/MainActivity.kt:243-252 | The recorder changes on a callback iff processing, with a result, with export on and a recorder present. It then gains exactly the letterboxed frame. |
| Activity.BusyGateDropsFrames | UStar/app/src/main/java/com/developer27/ustar/MainActivity.kt:236-256 | While a frame is in flight, later frames are dropped. After its callback the next frame is taken. |

## Left out

- Concurrency: the coroutines, dispatchers, `runOnUiThread`, the camera's background thread and the 50 ms repetition of a held zoom button. Events are applied one at a time, and a held button is a sequence of ticks. `processFrame` calls its callback once per frame; in the model that call is one `Activity.FrameDone` event.
- Pixel work and inference: the OpenCV calls, bitmap conversion, `TensorImage`, the interpreter's run, and drawing the rectangle and label. The interpreter's output is a parameter; a drawn box is the box attached to the processed picture.
- IEEE floating point: every Float and Double is a `real`, so rounding, NaN and infinity are not modelled. `Camera.ZoomOutUndoesZoomIn` holds exactly only over the reals.
- Base.Trunc: the saturation of `toInt()` at the 32-bit bounds is not modelled, because the converted values are pixel counts.
- Camera.ChooseOptimalSize: width·height is an unbounded product. The 32-bit product would need a size of more than 2^31 pixels to wrap.
- Geometry.Rescale: requires positive frame and model sizes. With a zero size the source divides by zero in floating point, which reals cannot express. Its only caller passes a bitmap's size and a model size the letterbox already needed positive.
- Geometry.CreateLetterbox: requires a positive source size, which every bitmap has.
- Camera.CropRegion: requires a positive zoom. The helper's zoom is always in [1, 10] (`Camera.Run`), so 1/0 never arises.
- Camera.Valid: the helper's operations require the zoom to be in [1, 10], which every reachable state satisfies (`Camera.Run`).
- Camera.SelectCamera: camera ids are taken as distinct, so the chosen camera's characteristics are read from its own entry.
- Opaque request settings: AWB, colour correction, the 15 fps target range and `applyRollingShutter15Hz` are not modelled.
- Camera framework failures: a `CameraAccessException` in `resumePreview` (caught), calls on a closed session, and `getOutputSizes` returning null are not modelled. Framework calls always succeed.
- Camera.OpenCamera: an exception discards the whole event, including the sensor rectangle the source assigns before the throw; the app does not catch it.
- Camera.OnConfigured: `onConfigureFailed` only shows a toast, so it is not an event.
- The JPEG listener, file paths, storage directories and toasts; `ProcessedVideoRecorder` is not part of this model beyond receiving frames.
- MainActivity's permissions, splash screen, web link, about and settings buttons, take-photo button visibility and the model-loading thread. A loaded model is the `interp` parameter.
- SettingsActivity: settings are parameters (`Processor.Settings`, defaults in `Processor.DefaultSettings`).
- Activity.Step: a processor callback with no frame in flight cannot occur and is ignored.
- Activity.Step: an uncaught exception from switching or resuming (`openCamera` throwing) is modelled as undoing the whole event. In the source, switching has already stopped recording, flipped the facing and closed the camera before the throw, and the app then crashes; the model has no crashed state.
- Camera.Step: an exception from opening the camera or taking a photo is modelled as undoing the whole event, since the app does not catch it and has no state after it.
- Camera.StillExposure: the `coerceIn` failure on an empty exposure range is kept, but `android.util.Range` rejects lower > upper when it is built, so real camera characteristics never reach it. The same holds for `Camera.TakePhoto`'s failure on the clamp.
- Camera.OnOpened: it is the corrected `onOpened`, used only by `Camera.ReopenKeepsZoom`; the event machines (`Camera.Step`, `Activity.Step`) use `Camera.OnOpenedAsWritten`.

## Findings

| source | as written | input that shows it | evidently intended | confidence | as-written member | corrected member |
|---|---|---|---|---|---|---|
| UStar/app/src/main/java/com/developer27/ustar/camera/CameraHelper.kt:139-145 | `applyZoom()` runs inside the `apply` block that builds the new preview request, before the builder is stored. It therefore sets the crop on the previous builder, or on none at first open, and the new repeating request has no crop. | Zoom 2.0 on a 4000 × 3000 sensor, then switch camera or pause and resume: the rebuilt preview request has no crop (`Camera.PreviewLosesZoomAsWritten`). | The new preview request carries the crop for the current zoom level, which survives closing the camera (`Camera.ReopenKeepsZoom`). The event machines follow the code as written; the corrected construction is used only in that lemma. | not executed; high | Camera.CreateCameraPreviewAsWritten | Camera.CreateCameraPreview |
