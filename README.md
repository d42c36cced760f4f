# Hand detector: crop-window geometry and session state

This project models the core of the `HandDetector` component of a browser
hand-tracking viewer. For every video frame an external inference engine
reports up to two hands, each an ordered list of landmarks with normalised
`x`, `y` and a depth `z`. The component draws all hands on a full-frame
overlay canvas and gives each of the first two hands a "monitor" canvas.
A monitor shows a square, padded, mirrored crop of the video around the hand,
with the hand's landmarks remapped into it.

The model has three modules:

- `HandGeometry` (`hand_geometry.dfy`) holds the per-hand geometry of
  `predictWebcam`:
  - the bounding-box loop, kept as an imperative method and proved against
    the fold `BoxOf`;
  - the square crop window `CropOf`, with a fixed padding of 50 pixels, the
    window centred on the box and its origin clamped to be non-negative;
  - the landmark remap `Remap` / `RemapHand` and its inverse `Unremap`.

  All coordinates are `real`. The video width and height are parameters.
- `HandDetector` (`hand_detector.dfy`) holds two things:
  - the assignment of hands to the two monitor slots;
  - a `Session` class with the component's mutable state and one method per
    event. The state is the loading flag, engine readiness, the webcam flag,
    the error message, the detected-hand count, the overlay canvas, both
    monitor canvases and the pending frame callback. The events are model
    loaded or failed, the start/stop toggle, camera failure, the stop reset,
    the video-loaded event and one run of the frame callback.
- `SessionScenarios` (`scenarios.dfy`) holds client runs of `Session` for
  three event sequences: a failed model load, a refused camera followed by a
  retry, and a stop after two hands were shown.

The hands of one frame are an input to `Session.Frame`. The model requires
every hand to be non-empty, because the engine never reports an empty hand.
For an empty hand the loop would leave `maxX < minX`, and the window side
could be zero or negative.

Two details of the code are modelled as written:

- Stopping the webcam clears only the two monitor canvases
  (components/HandDetector.tsx:201-204). The overlay canvas keeps its last
  drawing, so `Session.Disable` leaves `overlayHands` unchanged.
- The overlay canvas is resized only when its width differs from the
  video's (line 60). A change of height alone is not applied, and
  `Session.Frame` states exactly that.

## Model

| member | source | states |
|---|---|---|
| `HandGeometry.Max` | components/HandDetector.tsx:117-122 | `Math.max` of two numbers: the result is at least both arguments and equals one of them. |
| `HandGeometry.Pixels` | components/HandDetector.tsx:106-107 | The hand's landmarks scaled to pixels, in order and of the same length: point `i` is `(x_i*W, y_i*H)`. |
| `HandGeometry.InitialBox` | components/HandDetector.tsx:104 | The loop's starting values: `minX` and `minY` at the video's width and height, `maxX` and `maxY` at 0. |
| `HandGeometry.Widen` | components/HandDetector.tsx:108-111 | One loop step. Each bound moves outward only, the new box contains the point, and each new bound is the old bound or the point's coordinate. |
| `HandGeometry.Sweep` | components/HandDetector.tsx:104-112 | The loop as a left fold of `Widen` over the pixel points from a starting box. Its properties are stated by `SweepContains` and `SweepAttained`. |
| `HandGeometry.BoxOf` | components/HandDetector.tsx:104-112 | The loop's result for a hand: `Sweep` from `(W, H, 0, 0)` over the hand's pixel points. `BoundingBox` is proved equal to it, and `BoxOfContains`, `BoxOfAttained`, `BoxOfOrdered` and `BoxOfInFrame` state its properties. |
| `HandGeometry.BoundingBox` | components/HandDetector.tsx:104-112 | The loop's four bounds equal the fold `BoxOf` over the hand. Every landmark, scaled to pixels, lies within `[minX, maxX] x [minY, maxY]`. A non-empty hand gives `minX <= maxX` and `minY <= maxY`. |
| `HandGeometry.SweepContains` | components/HandDetector.tsx:105-112 | After the loop body has run over a sequence of pixel points, every point is inside the box, and no bound has moved inward from its starting value. |
| `HandGeometry.SweepAttained` | components/HandDetector.tsx:105-112 | Each bound the loop leaves is either its starting value or a coordinate of one of the points. |
| `HandGeometry.BoxOfContains` | components/HandDetector.tsx:104-112 | Every landmark's pixel coordinates lie inside the box. Also `minX <= W`, `minY <= H`, `maxX >= 0` and `maxY >= 0`, which are the loop's starting values. |
| `HandGeometry.BoxOfAttained` | components/HandDetector.tsx:104-112 | Each bound is its starting value (`W`, `H`, `0`, `0`) or the scaled coordinate of some landmark. Together with `BoxOfContains`, the box is exactly the extent of the landmarks joined with the starting values. |
| `HandGeometry.BoxOfOrdered` | components/HandDetector.tsx:104-112 | A non-empty hand gives `minX <= maxX` and `minY <= maxY`. |
| `HandGeometry.BoxOfInFrame` | components/HandDetector.tsx:104-112 | If every landmark has `x, y` in `[0, 1]`, the box lies inside the frame: `0 <= minX`, `maxX <= W`, `0 <= minY`, `maxY <= H`. |
| `HandGeometry.CropOf` | components/HandDetector.tsx:114-122 | The side is the larger padded side, `max(maxX-minX, maxY-minY) + 2*50`. It is at least 100 for an ordered box. The origin is non-negative. The window is centred on the box whenever `center - size/2 >= 0`, and its origin is 0 otherwise. The window reaches `Padding` past `maxX`/`maxY`, and starts `Padding` before `minX`/`minY` unless its origin is 0. |
| `HandGeometry.MonitorCrop` | components/HandDetector.tsx:104-122 | The window is exactly `CropOf(BoxOf(hand))`: the padded square centred on the hand's bounding box, with its origin clamped at 0. For a non-empty hand its side is at least 100, so the remap's divisions are safe. Every landmark lies at least `Padding` inside the window, except towards an edge where the origin is clamped to 0 (`Covers`). |
| `HandGeometry.Remap` | components/HandDetector.tsx:133-139 | `z` is passed through unchanged. The remapped landmark inverts to the original pixel position: `x*W = sx + (1 - x')*size` and `y*H = sy + y'*size`. |
| `HandGeometry.RemapRoundTrip` | components/HandDetector.tsx:132-140 | For a non-zero side and frame, `Unremap` after `Remap` is the identity, and so is `Remap` after `Unremap`. |
| `HandGeometry.RemapHand` | components/HandDetector.tsx:132-140 | The remap of a hand keeps its length and order. Element `i` keeps `z` and inverts to landmark `i`'s pixel position. |
| `HandGeometry.RemapHandRoundTrip` | components/HandDetector.tsx:132-140 | `Unremap` of each remapped landmark gives back the original landmark. |
| `HandGeometry.RemapWithinCrop` | components/HandDetector.tsx:132-140 | For any positive window that covers the hand, the remapped `x'` is `>= 0` and `y'` is `<= 1`. Also `x' <= 1` when `x >= 0`, and `y' >= 0` when `y >= 0`. |
| `HandGeometry.RemapWithinMonitor` | components/HandDetector.tsx:114-140 | With the hand's own crop window, its remapped landmarks lie in `[0, 1]` on both axes whenever `x, y >= 0`. The far sides are bounded for all landmarks. |
| `HandDetector.HandView` | components/HandDetector.tsx:103-143 | A monitor showing a hand is drawn with exactly the window `CropOf(BoxOf(hand))`. So `CropOf`'s side, centring and coverage apply to what the monitor shows: its side is at least 100, its origin is non-negative and it covers the hand. Its landmarks are exactly `RemapHand` of the hand in that window, so they keep the hand's length and each `z` and invert to the landmarks' pixel positions. |
| `HandDetector.SlotView` | components/HandDetector.tsx:103-146 | The per-slot branch: the slot is drawn exactly when a hand with its index exists, and cleared otherwise. |
| `HandDetector.MonitorsAfter` | components/HandDetector.tsx:89-146 | There are exactly two monitor slots, and slot `i` is drawn exactly when `i` is less than the number of hands. |
| `HandDetector.SlotAssignment` | components/HandDetector.tsx:89-146 | Slot `i` shows hand `i` when it exists and is cleared otherwise. Hands past the second are on no monitor. |
| `HandDetector.FewHands` | components/HandDetector.tsx:85-146 | Zero hands clear both monitors. One hand is drawn on monitor 0, and monitor 1 is cleared. |
| `HandDetector.IdenticalHands` | components/HandDetector.tsx:89-143 | Two hands with the same landmarks put the same drawn view on both monitors. |
| `HandDetector.Session.constructor` | components/HandDetector.tsx:5-18 | On mount the component is loading with no engine, the webcam is off, there is no error, the count is 0, both monitors are clear and no frame is pending. |
| `HandDetector.Session.LoadSucceeded` | components/HandDetector.tsx:33-34 | The engine is ready and loading has ended. Nothing else changes. |
| `HandDetector.Session.LoadFailed` | components/HandDetector.tsx:35-38 | The model-load error message is shown and loading has ended. The engine stays not ready. |
| `HandDetector.Session.Toggle` | components/HandDetector.tsx:153-163 | An active webcam always becomes inactive. An inactive one becomes active exactly when the engine is ready, and otherwise nothing changes. The method keeps the invariant that the webcam is on only with a ready engine. |
| `HandDetector.Session.CameraFailed` | components/HandDetector.tsx:182-186 | The camera error replaces any earlier message, and the webcam flag reverts to off. |
| `HandDetector.Session.Disable` | components/HandDetector.tsx:190-206 | The pending frame is cancelled, both monitors are cleared and the count is 0. The overlay and all flags are untouched. |
| `HandDetector.Session.CaptureChanged` | components/HandDetector.tsx:165-217 | After the webcam flag changes, capture is torn down (`Disable`). If the flag is on and the camera is refused, the camera error is set and the flag reverts. |
| `HandDetector.Session.VideoLoaded` | components/HandDetector.tsx:169-174 | A frame callback is pending afterwards. Nothing else changes. |
| `HandDetector.Session.Frame` | components/HandDetector.tsx:46-150 | Without a ready engine and an active webcam the callback changes nothing and schedules no next frame. Otherwise the following all hold. The overlay takes the video's width, and takes its height only when the width changed. The overlay shows all hands. The count equals the number of hands. The monitors are `MonitorsAfter(hands)`. The next frame is scheduled. Monitor `i` is drawn exactly when the count exceeds `i` (`Valid`). |
| `SessionScenarios.LoadFailureKeepsCameraOff` | components/HandDetector.tsx:153-163 | After a failed load, the toggle cannot switch the webcam on, and the load error stays shown. |
| `SessionScenarios.CameraFailureAllowsRetry` | components/HandDetector.tsx:176-188 | A refused camera reverts the flag and shows the camera error. A later toggle switches the webcam on again. |
| `SessionScenarios.StopClearsMonitors` | components/HandDetector.tsx:190-206 | After two hands were drawn, stopping leaves both monitors clear, the count 0 and no frame pending. |

## Left out

- The inference engine is not modelled: its loading from remote assets, backend selection, `detectForVideo` and the landmark connector topology. The hands of a frame are an input of `Session.Frame`, and load success or failure are two methods.
- Session.Frame: always schedules the next frame. In the component an exception thrown by the engine's detection call (line 66) ends the frame loop silently: line 150 is never reached and no error is shown. The model has no such failure path, because the engine's behaviour is not modelled.
- Only what each canvas shows is modelled, not the drawing calls themselves:
  - the drawing helpers' connector and point drawing, with their colours and line widths;
  - the canvas `save`/`scale`/`translate`/`drawImage`/`clearRect` calls.

  The horizontal flip of the video crop is part of what a monitor shows.
  It is not modelled separately from the mirrored `x'` of the landmarks.
- Browser media and scheduling are only abstracted:
  - the camera request at 1280x720, stopping the stream's tracks and `srcObject`;
  - the `loadeddata` listener, `requestAnimationFrame`/`cancelAnimationFrame`;
  - `performance.now()` timestamps.

  The camera's answer is the `cameraGranted` parameter of `CaptureChanged`, and the pending callback is the `frameScheduled` flag.
- The asynchronous race in which the webcam is switched off before the camera request resolves is not modelled, because the model treats each effect run as atomic. What the model loses: in the component, a stream that resolves after the teardown is still set as the video's source (line 180) and is never stopped. A quick start, stop, start can therefore leave two camera streams open, and the model cannot show that.
- The branches for a missing canvas element or a missing 2-D context (`if (!handCanvas) continue`, `if (!canvasCtx) return`) are not modelled. The view renders all three canvases unconditionally, so after mount these never fire.
- The stale-closure detail of the frame callback is not modelled. The callback reads the webcam flag captured when it was created, and the model reads the current flag. The model loses nothing by this: each flag change cancels the pending callback.
- IEEE floating-point rounding, NaN and infinities are not modelled; all arithmetic is exact `real` arithmetic.
- The React rendering of the page (header, footer, button label, monitor opacity) is not modelled, apart from the monitor visibility rule `count > i`, which `Session.Valid` ties to the monitors' content.
- A landmark exactly on the box boundary does not map to exactly 0 or 1. The padding is the constant 50 in the source, so there is no zero-padding case, and `CropOf` states the padded relation instead.
- `App.tsx` only renders the component and is not part of this model.
