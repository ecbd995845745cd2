# Dual-camera preview with per-frame object detection: a Dafny model

This project models the decision logic of `MainActivity` in the `mycamera`
Android app. The app opens one or two cameras, shows each on a texture view,
samples frames every 100 ms, runs an object detector on each frame, and draws
the boxes on an overlay. The model covers these parts:

- **Preview size selection** (`StreamSizer`). `chooseOptimalSize` partitions
  the camera's output sizes into "big enough" and the rest. The model keeps the
  source's loop, its 32-bit `int` aspect test `height == width * h / w`, and
  the tie-breaking of `Collections.min`/`max`, which keep the first extreme.
- **Rotation compensation** (`Rotation`). `getRotationCompensation` turns a
  `Surface.ROTATION_*` constant into degrees and combines it with the sensor
  orientation using Java `int` `+`, `-` and `%`.
- **Camera admission** (`Admission`). This is the branch of `setupCameras`
  that decides which enumerated ids are opened, and on which view. The loop over
  `getConcurrentCameraIds()` and its `break` are kept.
- **The per-camera registry** (`CameraRegistry.Registry`). It has one field per
  `HashMap` of the activity, plus the bitmaps' recycled state. A ghost multiset
  logs every `close()`, `quitSafely()` and `recycle()` call, so "released
  exactly once" is a multiplicity in that log. The registry's methods are
  `openCamera`/`startBackgroundThread`, the device callbacks, `onConfigured`,
  one run of the detection loop, `initObjectDetector`, `processImage`,
  `closeCameras`, `stopBackgroundThreads` and `onPause`. The
  `RegistryScenario` module holds two client methods. They show what a caller
  can conclude from these contracts: a frame of the second camera reaches
  overlay 2; after `onPause` the loop stops rescheduling; and a second
  teardown releases nothing.

`JavaInt` gives Java `int` semantics on Dafny's unbounded integers.
`Wrappers` holds the `Option` type, which stands for Java's nullable
references.

Source behaviour the model keeps:

- `onDisconnected`/`onError` (`MainActivity.java:303-313`) remove only the
  device. The capture session stays in `mCaptureSessions`, so the detection
  loop keeps rescheduling after a disconnect.
- The detection loop reschedules exactly when `mCaptureSessions` holds the id
  (`MainActivity.java:441`). An unavailable texture view skips the frame but
  does not end the loop.
- The busy flag is read (`getOrDefault`, `MainActivity.java:450`) and then set
  with a separate `put` (`:455`). It is not an atomic test-and-set.
- A bitmap grabbed when no background handler is registered is neither
  processed nor recycled.
- The overlay update carries the bitmap's height and width in the order
  `setResults(detections, imageHeight, imageWidth)` expects. The source reads
  these from a bitmap that the `finally` block may already have recycled. The
  model takes the values captured at grab time.

In the model, one handler serves each camera id and runs its `processImage`
calls one after another. Every non-drop path clears the flag, so a registry
with no busy camera never takes the drop path (`ProcessImage` ensures
`old(Idle()) ==> Idle()`). This is a fact about that sequential model only.
Under "## Left out", the pause/resume overlap shows how the program itself can
reach the drop path.

## Model

| member | source | states |
|---|---|---|
| `JavaInt.Wrap` | app/src/main/java/com/ubiqconn/mycamera/MainActivity.java:576 | the 32-bit result agrees with the exact one modulo 2^32, and equals it when the exact one fits in an `int` |
| `JavaInt.Rem` | app/src/main/java/com/ubiqconn/mycamera/MainActivity.java:535-537 | Java `%`: the magnitude is the Euclidean remainder of the magnitudes, and the sign follows the dividend |
| `JavaInt.RemMagnitude` | app/src/main/java/com/ubiqconn/mycamera/MainActivity.java:535-537 | `a - (a / b) * b`, with truncating `/`, is the signed remainder of the magnitudes |
| `StreamSizer.Keep` | app/src/main/java/com/ubiqconn/mycamera/MainActivity.java:575-579 | the `bigEnough` list holds exactly the candidates that pass the test |
| `StreamSizer.Reject` | app/src/main/java/com/ubiqconn/mycamera/MainActivity.java:579-581 | the `notBigEnough` list holds exactly the candidates that fail the test |
| `StreamSizer.FirstMin` | app/src/main/java/com/ubiqconn/mycamera/MainActivity.java:585-591 | `Collections.min` by area returns an element of least area, and no earlier element has that area |
| `StreamSizer.FirstMax` | app/src/main/java/com/ubiqconn/mycamera/MainActivity.java:593-601 | `Collections.max` by area returns an element of greatest area, and no earlier element has that area |
| `StreamSizer.PartitionLength` | app/src/main/java/com/ubiqconn/mycamera/MainActivity.java:575-582 | every candidate lands in exactly one of the two lists, so one of them is non-empty and the final `return choices[0]` is unreachable |
| `StreamSizer.BigEnoughMeaning` | app/src/main/java/com/ubiqconn/mycamera/MainActivity.java:576-577 | `BigEnough` is the source's per-candidate test. For a positive reference width and a product `width * h` that fits in an `int`, it holds iff `height * w <= width * h < (height + 1) * w` (the height is the truncated quotient) and the candidate covers the target on both axes |
| `StreamSizer.SameAspectIsBigEnoughIffCovers` | app/src/main/java/com/ubiqconn/mycamera/MainActivity.java:576-577 | a candidate with exactly the first candidate's aspect ratio passes the test iff it is at least as wide and as tall as the target |
| `StreamSizer.AspectQuotient` | app/src/main/java/com/ubiqconn/mycamera/MainActivity.java:576 | when `width * h` fits in an `int` and `w` is positive, the source's wrapping `width * h / w` (`Mul` then `Div`) equals the exact quotient |
| `StreamSizer.QuotientBounds` | app/src/main/java/com/ubiqconn/mycamera/MainActivity.java:576 | for a non-negative dividend and a positive divisor, `q` is the quotient of `/` iff `q * d <= p < q * d + d` |
| `StreamSizer.OptimalSize` | app/src/main/java/com/ubiqconn/mycamera/MainActivity.java:570-605 | the chosen size is always one of the candidates |
| `StreamSizer.ChooseOptimalSize` | app/src/main/java/com/ubiqconn/mycamera/MainActivity.java:570-605 | the partitioning loop and the min/max selection compute `OptimalSize`; the `return choices[0]` branch is proved dead |
| `StreamSizer.FirstMinOfKept` | app/src/main/java/com/ubiqconn/mycamera/MainActivity.java:575-591 | the minimum of the `bigEnough` list sits at the first position in the input that holds a least-area passing candidate |
| `StreamSizer.OptimalSizeWhenBigEnough` | app/src/main/java/com/ubiqconn/mycamera/MainActivity.java:570-591 | if some candidate passes the aspect-and-cover test, the result passes it, has the least area among those that pass, and every passing candidate before it is strictly larger |
| `StreamSizer.OptimalSizeWhenNoneBigEnough` | app/src/main/java/com/ubiqconn/mycamera/MainActivity.java:575-604 | if no candidate passes, `notBigEnough` is the whole input, and the result is the first candidate of greatest area |
| `Rotation.RotationCompensation` | app/src/main/java/com/ubiqconn/mycamera/MainActivity.java:506-544 | `getRotationCompensation`: 0 when the characteristics cannot be read (the `CameraAccessException` path). For any sensor value the result lies strictly between -360 and 360. It is non-negative for a sensor orientation in [0, 360) |
| `Rotation.SurfaceDegrees` | app/src/main/java/com/ubiqconn/mycamera/MainActivity.java:518-532 | `ROTATION_0/90/180/270` map to 0/90/180/270 degrees; any other value maps to 0 |
| `Rotation.CompensationIsModular` | app/src/main/java/com/ubiqconn/mycamera/MainActivity.java:506-539 | for a sensor orientation in [0, 360), a front camera gives (s + r) mod 360 and any other camera gives (s - r) mod 360; the result is in [0, 360) |
| `Rotation.MissingSensorOrientationIsZero` | app/src/main/java/com/ubiqconn/mycamera/MainActivity.java:511-513 | a null sensor orientation is treated as 0 |
| `Rotation.MissingLensFacingIsNotFront` | app/src/main/java/com/ubiqconn/mycamera/MainActivity.java:515-516 | a null lens facing takes the back-camera formula |
| `Rotation.FrontExample` | app/src/main/java/com/ubiqconn/mycamera/MainActivity.java:534-535 | front camera, sensor 90, display rotation 0: compensation 90 |
| `Rotation.BackExample` | app/src/main/java/com/ubiqconn/mycamera/MainActivity.java:536-537 | back camera, sensor 90, display rotation 0: compensation 90 |
| `Rotation.BackRotatedExample` | app/src/main/java/com/ubiqconn/mycamera/MainActivity.java:536-537 | back camera, sensor 90, display rotation 90: compensation 0 |
| `Admission.ConcurrentSupportIgnoresOrder` | app/src/main/java/com/ubiqconn/mycamera/MainActivity.java:174-189 | the `concurrentSupport` flag is the same for every iteration order of the `Set` of combinations |
| `Admission.ConcurrentSupportSymmetric` | app/src/main/java/com/ubiqconn/mycamera/MainActivity.java:180 | the flag does not change when the first two ids are swapped |
| `Admission.ProbeConcurrentSupport` | app/src/main/java/com/ubiqconn/mycamera/MainActivity.java:174-189 | the flag is set iff the API level is at least R, the query does not throw, and some reported combination contains both `ids[0]` and `ids[1]` |
| `Admission.AdmissionPlan` | app/src/main/java/com/ubiqconn/mycamera/MainActivity.java:159-213 | no ids: nothing opens. One id: only `ids[0]` opens, on view 1. Two or more: `ids[0]` opens on view 1, and `ids[1]` opens on view 2 iff concurrent support holds. No other id ever opens. View 2 is hidden iff only one camera opens. An opening is deferred iff its view is not yet available |
| `Admission.SetupCameras` | app/src/main/java/com/ubiqconn/mycamera/MainActivity.java:159-213 | the early return below two ids, the probe and the two branches compute `AdmissionPlan` |
| `Admission.SlotOf` | app/src/main/java/com/ubiqconn/mycamera/MainActivity.java:401-406 | position 1 iff the id equals `ids[0]`; position 2 iff it equals `ids[1]` but not `ids[0]`; no position iff it equals neither of the first two ids |
| `CameraRegistry.Registry.constructor` | app/src/main/java/com/ubiqconn/mycamera/MainActivity.java:59-64 | all maps start empty, nothing is released, and no camera is busy |
| `CameraRegistry.Registry.StartBackgroundThread` | app/src/main/java/com/ubiqconn/mycamera/MainActivity.java:607-612 | the new handler is stored for the id, replacing any earlier one |
| `CameraRegistry.Registry.OpenCamera` | app/src/main/java/com/ubiqconn/mycamera/MainActivity.java:281-293 | without the permission nothing changes; with it, the handler is started and the open request is issued |
| `CameraRegistry.Registry.OnOpened` | app/src/main/java/com/ubiqconn/mycamera/MainActivity.java:298-338 | the device is registered, and the preview buffer size is `OptimalSize` of the output sizes for the view size |
| `CameraRegistry.Registry.OnDisconnected` | app/src/main/java/com/ubiqconn/mycamera/MainActivity.java:303-307 | the device is closed once and removed; nothing else changes |
| `CameraRegistry.Registry.OnError` | app/src/main/java/com/ubiqconn/mycamera/MainActivity.java:309-313 | the device is closed once and removed; nothing else changes |
| `CameraRegistry.Registry.OnConfigured` | app/src/main/java/com/ubiqconn/mycamera/MainActivity.java:363-380 | the session is stored only if the device is still registered; the loop starts iff the session was stored and `setRepeatingRequest` did not throw |
| `CameraRegistry.Registry.DetectionTick` | app/src/main/java/com/ubiqconn/mycamera/MainActivity.java:394-446 | a frame is taken iff the id's position maps to a texture view that is available. A non-null bitmap is posted iff a background handler exists. The tick reschedules iff a session is stored for the id. The registry does not change |
| `CameraRegistry.Registry.Recycle` | app/src/main/java/com/ubiqconn/mycamera/MainActivity.java:499-501 | `bitmap.recycle()`: the bitmap is marked recycled (what `isRecycled()` then reports), and exactly one recycle call is added to the release log |
| `CameraRegistry.Registry.InitObjectDetector` | app/src/main/java/com/ubiqconn/mycamera/MainActivity.java:66-82 | the detector is built with `efficientdet_lite0.tflite`, IMAGE mode and threshold 0.5. On success it is cached for the id; on failure the map is unchanged |
| `CameraRegistry.Registry.DetectAndPost` | app/src/main/java/com/ubiqconn/mycamera/MainActivity.java:457-494 | a detector is created only when none is cached. A result is posted only when a detector exists and detection succeeds. It goes to the overlay at the id's position with the frame's height and width; at any other position nothing is posted |
| `CameraRegistry.Registry.ProcessImage` | app/src/main/java/com/ubiqconn/mycamera/MainActivity.java:449-504 | if the busy flag is set, the bitmap is recycled and nothing else changes. Otherwise the flag ends false on every exit, the bitmap is recycled exactly once unless it was recycled already, and cache and result follow `DetectAndPost`. An idle registry stays idle |
| `CameraRegistry.Registry.ReleaseEach` | app/src/main/java/com/ubiqconn/mycamera/MainActivity.java:615-644 | one loop of `closeCameras`/`stopBackgroundThreads`: whatever order the keys are visited in, each entry of the map is released exactly once and nothing else is logged |
| `CameraRegistry.Registry.CloseCameras` | app/src/main/java/com/ubiqconn/mycamera/MainActivity.java:624-650 | every stored session, device and detector is closed exactly once (one log entry per key), and the three maps end empty |
| `CameraRegistry.Registry.StopBackgroundThreads` | app/src/main/java/com/ubiqconn/mycamera/MainActivity.java:614-622 | every handler's looper is quit exactly once, and the handler map ends empty |
| `CameraRegistry.Registry.OnPause` | app/src/main/java/com/ubiqconn/mycamera/MainActivity.java:652-657 | closes all sessions, devices and detectors, and quits all loopers, each once. All four maps end empty, so no loop tick reschedules afterwards |
| `CameraRegistry.NoReleasesWhenEmpty` | app/src/main/java/com/ubiqconn/mycamera/MainActivity.java:624-644 | an empty map yields no release calls, so a second `closeCameras` closes nothing |

## Left out

- Camera2 hardware calls: the `openCamera` request, `createCaptureSession`,
  capture-request and autofocus building, and `setRepeatingRequest`. These are
  asynchronous foreign APIs. Only their callbacks are modelled, as methods, and
  their outcomes are parameters.
- `onConfigureFailed`: it only shows a Toast and changes no state.
- The permission flow (`onCreate`, `onRequestPermissionsResult`, `onResume`),
  Toasts and logging: these are Android lifecycle and UI. In `OpenCamera` the
  permission check is a parameter.
- `createSurfaceTextureListener`: a deferred open is recorded as the
  `deferred` flag of an `Opening`, not as a listener object.
- The `CameraAccessException` from `getCameraIdList`/`getCameraCharacteristics`,
  which aborts `setupCameras` before admission: the model starts from the
  enumerated id list.
- `capabilityToString` and the log-only loop over the cameras
  (`MainActivity.java:127-157`).
- `mImageReaders`: it is never populated, so the loop that closes it in
  `closeCameras` is omitted.
- MediaPipe `ObjectDetector.createFromOptions` and `detect`: this is an opaque
  inference engine. They are the function parameters `create` and `detect`
  (None stands for a thrown exception). Detections are passed along, not
  computed.
- `configureTransform` (`MainActivity.java:546-568`): float `Matrix`/`RectF`
  geometry for a view.
- `OverlayView.java`: `Canvas` drawing and float box scaling.
- Threads, loopers, `runOnUiThread`, `postDelayed` and the 100 ms cadence.
  Posts are returned to the caller instead of being run. The tick returns the
  bitmap it would post. `processImage` returns the overlay update it would
  post. Interleavings between threads are not modelled, so the model does not
  prove that two detections never overlap under concurrency. It models the
  busy-flag guard as written, in two steps.
- The pause/resume overlap. `stopBackgroundThreads` calls `quitSafely()`
  (`MainActivity.java:618`), which does not wait for a `processImage` that is
  already running. A later `onResume` reaches `startBackgroundThread`
  (`MainActivity.java:607-611`) and starts a second thread for the same id.
  That thread can read the old call's `true` flag at line 450 and drop the
  frame. The model has one handler per id and runs each call to completion, so
  it cannot reach this state.
- `Registry.OnOpened`: does not model the `CameraAccessException` from
  `getCameraCharacteristics` (`MainActivity.java:332`, caught at 389). On that
  path the device stays registered, but no buffer size is set and no session
  is requested. The model always returns the chosen buffer size.
- `Registry.OnOpened`: requires a non-empty size list whose first width is
  non-zero. For any other list the source's `chooseOptimalSize` throws an
  exception that nothing catches.
- `Registry.DetectionTick`: the `catch (Exception)` around the tick body is
  not modelled. The only work that could throw, `getBitmap()`, runs in a
  separate UI post, and its result is the `grabbed` parameter.
