# Fire-detection webcam loop

A Dafny model of the capture/detect/alert core of `application_code.py`, a small
program that watches a camera, runs a fire detector on every tenth frame and raises a
one-shot alert the first time a box is classified "fire": an alert sound played on a
detached thread, and a warning image stamped into the four corners of every frame shown
from then on.

The model has five modules:

- `Wrappers` (`wrappers.dfy`): the `Option` type.
- `Alert` (`alert.dfy`): `play_alert`, at most `ALERT_REPEATS` = 5 playbacks, stopping at
  the first one that fails.
- `Detection` (`detection.dfy`): `detect_fire_and_alert`. It walks every box of every
  result, looks up each class index in the detector's `names` table, and starts the alert
  the first time a "fire" box is met while the latch is clear. A class index missing from
  the table raises a `KeyError`, and that is modelled as an outcome.
- `Overlay` (`overlay.dfy`): `flash_alert_image` on `array2` frames. It copies the frame,
  then writes the resized alert image into the top-left, top-right, bottom-left and
  bottom-right corner blocks of the copy, in that order.
- `Webcam` (`webcam.dfy`): `display_webcam`. It counts frames, detects on every frame
  whose number is a multiple of 10, keeps the `alert_played` latch, overlays the warning
  once the latch is set, shows the frame and polls the quit key. A session is a loop over
  `Step`, and `Step` hands the overlay-and-show half of each pass to `ShowStep`. The
  predicates `Running` and `Ended` state what holds between passes and when the session
  stops.

Everything outside the program is an input:

- whether the camera opened;
- the frames read;
- the quit key after each frame;
- the detector's answer for each frame;
- the class-name table;
- the alert image resized to each frame's quarter size;
- the outcome of each sound playback.

Ghost counters record detector runs and alert threads started.

A frame less than 4 pixels high or wide has no guard in the code. `flash_alert_image`
calls `cv2.resize` (application_code.py:55) with a zero dimension, which raises, and the
exception ends `display_webcam`. So `FlashAlertImage` requires a frame of at least 4 by 4,
and the session ends with `ResizeRaised` when the latch is set on a smaller frame. A class
index missing from the detector's `names` table raises a `KeyError` (application_code.py:90),
and the session ends with `DetectorRaised`.

## Model

| member | source | states |
|---|---|---|
| Alert.PlayAlert | application_code.py:42-49 | Makes 1 to 5 playback attempts in order. Every attempt before the last one succeeded. It stopped early exactly when the last attempt failed; otherwise it made all 5. |
| Detection.LookedUp | application_code.py:84-85 | No class index is looked up when the detector failed (`predict_fire` returned `None`) or returned no results. |
| Detection.FireAmongAppend | application_code.py:86-93 | Lookups over two runs of boxes find "fire" exactly when either run does. |
| Detection.AllKnownAppend | application_code.py:86-90 | Lookups over two runs of boxes are all named exactly when each run's are. |
| Detection.FirstUnknownExtend | application_code.py:86-90 | The first unnamed class index of one run stays the first one when named lookups come before it and any lookups after it. |
| Detection.LookedAppend | application_code.py:86-88 | The nested loops over two runs of results visit the first run's boxes, then the second's. |
| Detection.LookedSnoc | application_code.py:86-88 | One more result adds its boxes' class indices at the end of the visit order. |
| Detection.LookedSplit | application_code.py:86-88 | The visit order is: the results before result i, then result i's boxes, then the results after it. |
| Detection.ScanBoxes | application_code.py:88-98 | The inner box loop either finishes, exactly when every class index is named, or stops at the first unnamed one. The latch afterwards is the old latch or "fire seen among the boxes looked up". An alert thread is started exactly when the latch goes from clear to set. |
| Detection.DetectFireAndAlert | application_code.py:82-101 | When every looked-up class index is named, it returns the old latch or "some box is fire". Otherwise it raises on the first unnamed index, found in visit order. It starts at most one alert thread, only when the latch was clear, and exactly when it sets the latch. |
| Overlay.StampedFrom | application_code.py:55-61 | Which alert-image pixel the four stamps leave at each frame pixel, applying later stamps over earlier ones. There is one exactly when the pixel lies in a corner block, and it lies inside the image. |
| Overlay.CornersShowAlert | application_code.py:55-61 | The four corner blocks do not overlap, so each corner block shows the whole alert image. |
| Overlay.OverlayCorners | application_code.py:51-63 | In an overlaid frame, each of the four corner blocks equals the alert image, and every pixel outside them equals the frame's. |
| Overlay.Stamp | application_code.py:58-61 | One slice assignment: the block at (top, left) becomes the image, and every other pixel keeps its old value. |
| Overlay.FlashAlertImage | application_code.py:51-63 | Returns a new array, with the frame's size, that is the frame with the image stamped into its corners. The caller's frame is not modified. |
| Webcam.IsPredictionFrame | application_code.py:123 | A frame passes the cadence test exactly when its number is a whole multiple of 10. |
| Webcam.PredictionFramesCount | application_code.py:110-124 | Among the first n frames, exactly n / 10 pass the cadence test. |
| Webcam.CadenceOver25 | application_code.py:119-124 | Over 25 frames the detector runs on frames 10 and 20 only. |
| Webcam.CadenceStep | application_code.py:119-124 | Counting one more frame adds one detector run exactly when the new count is a multiple of 10. |
| Webcam.FireSeenWitness | application_code.py:109-124 | The latch after k frames is set exactly when one of the first k frames is a prediction frame whose answer has a "fire" box. |
| Webcam.FireSeenMonotone | application_code.py:109-124 | The latch never clears: once set it stays set for every later frame. |
| Webcam.FireOnFrameTen | application_code.py:119-128 | With fire answered only on frame 10, the latch is clear on frames 1-9 and set from frame 10 on. |
| Webcam.RenderedLatchPrefix | application_code.py:127-131 | Whether the shown frames are rendered depends only on the latch values of those frames. |
| Webcam.RenderedAt | application_code.py:127-131 | Each shown frame is its camera frame, untouched if that frame's latch was clear. If it was set, the frame is at least 4 by 4 and overlaid. |
| Webcam.NamesKnownStep | application_code.py:123-124 | A prediction frame whose class indices are all named adds one more frame on which no lookup raised. |
| Webcam.LatchTraceSnoc | application_code.py:123-124 | Recording the latch after one more frame keeps the latch record exact. |
| Webcam.RenderedLatchSnoc | application_code.py:127-131 | Recording the latch of a frame that was never shown keeps the shown frames rendered. |
| Webcam.RenderedSnoc | application_code.py:127-131 | Showing a correctly rendered frame extends the rendered record. |
| Webcam.DetectionStep | application_code.py:123-124 | It calls the detector once on a prediction frame and not at all on any other frame; otherwise it leaves the latch alone. Entered with the latch of the first n-1 frames, it returns the latch of the first n frames. It raises exactly on a prediction frame with an unnamed class index. |
| Webcam.RenderFrame | application_code.py:127-128 | With the latch set, the frame is overlaid, or the call raises exactly when the frame is under 4 pixels high or wide. With the latch clear, the frame is shown as read. |
| Webcam.ExhaustedEnds | application_code.py:114-117 | A failed read ends the session after the frames read so far. |
| Webcam.DetectorRaisedEnds | application_code.py:89-90 | A raising lookup ends the session. That frame is counted, but it is neither latched nor shown. |
| Webcam.ResizeRaisedEnds | application_code.py:127-128 | A raising resize ends the session. That frame is counted and latched, but not shown. |
| Webcam.FrameShown | application_code.py:131-134 | After a frame is shown, the session keeps running, or ends with QuitKey when the quit key is seen. |
| Webcam.ShowStep | application_code.py:126-134 | The overlay-and-show half of a pass keeps the session state of the pass's frame, or ends it with ResizeRaised or QuitKey. |
| Webcam.Step | application_code.py:114-134 | One pass after a successful read counts the frame. It keeps every session invariant, or ends with the state the end requires. |
| Webcam.DisplayWebcam | application_code.py:103-137 | The session ends NotOpened exactly when the camera did not open. Otherwise it stops at the first failed read, raise or quit key. At that point it holds: frames are counted; the detector ran frameCount / 10 times; the latch after each frame equals "fire seen by then"; at most one alert thread was started, and one exactly when the latch is set unless a lookup raised; every frame shown is rendered as its latch dictates, and a latched frame is shown only if it is at least 4 by 4 and overlaid. |
| Webcam.ShownFrame | application_code.py:127-131 | In a finished session, frame k+1 is shown overlaid, and is at least 4 by 4, exactly when fire was seen by then. Otherwise it is shown exactly as read. |
| Webcam.OverlayPersists | application_code.py:109-131 | Once a frame is latched, it and every frame shown after it are at least 4 by 4 and carry the warning overlay. |
| Webcam.DetectorRunFrames | application_code.py:110-124 | In a finished session the detector ran exactly as many times as there are frames, among those counted, that pass the cadence test. |

## Left out

- `train_model`, `validate_model` and `main` (application_code.py:16-30, 139-144) only train, validate or start the program. They are not part of this model.
- `predict_fire`'s call to `model.predict` and its confidence threshold are not modelled; the detector's answer for each frame is an input. The only thing kept from `predict_fire` is that a raised exception yields `None`.
- `plot_bboxes` (application_code.py:65-80, called at 100) draws rectangles and labels onto the frame. The drawing is not modelled: the frame shown is the frame as read, before annotation.
- `cv2.VideoCapture`, `cap.read`, `cv2.imshow`, `cv2.waitKey`, `cap.release` and `cv2.destroyAllWindows` are not modelled. Camera opening, the frames, and the quit key are inputs. Releasing the device and closing the window are not modelled.
- `cv2.imread` of the warning image and `cv2.resize`'s resampling are not modelled. The resized image for each frame is an input with the quarter size that `cv2.resize` produces. The model only captures that the resize raises when a target dimension is zero.
- The alert thread's concurrency is not modelled. The session counts thread starts. `PlayAlert` models what one thread does, but not its interleaving with the loop.
- `playsound`'s audio is not modelled. Each playback's success or failure is an input.
- `print` logging is not modelled.
- A box's coordinates and confidence are not modelled. Only its class index affects the latch.

