/**
 * The per-camera registry of `MainActivity`: the maps keyed by camera id
 * (`mCameraDevices`, `mCaptureSessions`, `mBackgroundHandlers`,
 * `mObjectDetectors`, `mIsProcessingFrames`) and the operations that change
 * them: opening a camera, the device and session callbacks, the detection
 * loop tick, `processImage` with its busy flag, and the teardown of
 * `onPause`.
 *
 * Platform objects (devices, sessions, handlers, detectors) are opaque
 * handles. Hardware outcomes and detector behaviour are parameters. Posts to
 * another thread are returned to the caller instead of being run.
 */
module CameraRegistry {
  import opened Wrappers
  import opened JavaInt
  import opened StreamSizer
  import opened Admission

  /** An opaque platform object: a `CameraDevice`, `CameraCaptureSession`, `Handler` or `ObjectDetector`. */
  type Handle = nat

  /** A frame copied out of a texture view by `getBitmap()`; `id` names the object. */
  datatype Bitmap = Bitmap(id: nat, width: Int32, height: Int32)

  /** One detection as the detector reports it; the model only passes these along. */
  datatype Detection = Detection(category: string, score: real, left: real, top: real, right: real, bottom: real)

  /** What `targetOverlay.setResults(detections, displayHeight, displayWidth)` receives. */
  datatype OverlayUpdate = OverlayUpdate(overlay: Slot, detections: seq<Detection>, imageHeight: Int32, imageWidth: Int32)

  datatype RunningMode = Image | Video | LiveStream

  /** The options `initObjectDetector` builds. */
  datatype DetectorOptions = DetectorOptions(modelAssetPath: string, runningMode: RunningMode, scoreThreshold: real)

  /** Model asset `efficientdet_lite0.tflite`, single-image mode, score threshold 0.5. */
  const DetectorSettings := DetectorOptions("efficientdet_lite0.tflite", Image, 0.5)

  datatype ReleaseKind = SessionClose | DeviceClose | DetectorClose | LooperQuit

  /**
   * One release call: `close()` on a session, device or detector held for a
   * camera id, `getLooper().quitSafely()` on its handler, or `recycle()` on a
   * bitmap. The registry logs every such call in a multiset, so how often an
   * object was released is its multiplicity.
   */
  datatype Release = Closed(kind: ReleaseKind, cameraId: CameraId, handle: Handle) | Recycled(bitmap: nat)

  /** The release calls for the entries of `m` whose key is in `ids`, one per key. */
  ghost function Releases(m: map<CameraId, Handle>, kind: ReleaseKind, ids: set<CameraId>): set<Release> {
    set id | id in ids && id in m :: Closed(kind, id, m[id])
  }

  /** The release calls for every entry of `m`. */
  ghost function AllReleases(m: map<CameraId, Handle>, kind: ReleaseKind): set<Release> {
    Releases(m, kind, m.Keys)
  }

  /** What one run of the detection loop's runnable does. */
  datatype TickOutcome = TickOutcome(frameTaken: bool, posted: Option<Bitmap>, reschedule: bool)

  class Registry {
    /** `mCameraIds`, as enumerated. */
    var cameraIds: seq<CameraId>
    var devices: map<CameraId, Handle>
    var sessions: map<CameraId, Handle>
    var handlers: map<CameraId, Handle>
    var detectors: map<CameraId, Handle>
    /** `mIsProcessingFrames`: the busy flag per camera. */
    var processing: map<CameraId, bool>
    /** The bitmaps whose `isRecycled()` is true. */
    var recycled: set<nat>
    /** Every release call made so far. */
    ghost var released: multiset<Release>

    constructor (ids: seq<CameraId>)
      ensures cameraIds == ids
      ensures devices == map[] && sessions == map[] && handlers == map[] && detectors == map[]
      ensures processing == map[] && recycled == {} && released == multiset{}
      ensures Idle()
    {
      cameraIds := ids;
      devices, sessions, handlers, detectors := map[], map[], map[], map[];
      processing := map[];
      recycled := {};
      released := multiset{};
    }

    /** `mIsProcessingFrames.getOrDefault(id, false)`. */
    predicate Busy(id: CameraId)
      reads this
    {
      id in processing && processing[id]
    }

    /** No camera has a detection in progress. */
    predicate Idle()
      reads this
    {
      forall id :: id in processing ==> !processing[id]
    }

    /** `startBackgroundThread`: a new handler replaces any earlier one for the id. */
    method StartBackgroundThread(id: CameraId, handler: Handle)
      modifies this`handlers
      ensures handlers == old(handlers)[id := handler]
    {
      handlers := handlers[id := handler];
    }

    /**
     * `openCamera`: without the camera permission nothing happens; otherwise
     * the handler is started and the open request is issued (its outcome
     * arrives later as `OnOpened`, `OnDisconnected` or `OnError`).
     */
    method OpenCamera(id: CameraId, permissionGranted: bool, handler: Handle) returns (requested: bool)
      modifies this`handlers
      ensures requested == permissionGranted
      ensures handlers == if permissionGranted then old(handlers)[id := handler] else old(handlers)
    {
      if !permissionGranted {
        return false;
      }
      StartBackgroundThread(id, handler);
      requested := true;
    }

    /**
     * `onOpened` and the part of `createCameraPreviewSession` before the
     * session request: the device is registered and the preview buffer size
     * is chosen from the camera's output sizes for the view's size.
     */
    method OnOpened(id: CameraId, camera: Handle, outputSizes: seq<Size>, viewWidth: Int32, viewHeight: Int32)
      returns (bufferSize: Size)
      requires |outputSizes| > 0 && outputSizes[0].width != 0
      modifies this`devices
      ensures devices == old(devices)[id := camera]
      ensures bufferSize == OptimalSize(outputSizes, viewWidth, viewHeight)
    {
      devices := devices[id := camera];
      bufferSize := ChooseOptimalSize(outputSizes, viewWidth, viewHeight);
    }

    /** Shared body of `onDisconnected` and `onError`: close the device and forget it. */
    method DropDevice(id: CameraId, camera: Handle)
      modifies this`devices, this`released
      ensures devices == old(devices) - {id}
      ensures released == old(released) + multiset{Closed(DeviceClose, id, camera)}
    {
      released := released + multiset{Closed(DeviceClose, id, camera)};
      devices := devices - {id};
    }

    /** `onDisconnected`. */
    method OnDisconnected(id: CameraId, camera: Handle)
      modifies this`devices, this`released
      ensures devices == old(devices) - {id}
      ensures released == old(released) + multiset{Closed(DeviceClose, id, camera)}
    {
      DropDevice(id, camera);
    }

    /** `onError`; the error code is not examined. */
    method OnError(id: CameraId, camera: Handle, error: Int32)
      modifies this`devices, this`released
      ensures devices == old(devices) - {id}
      ensures released == old(released) + multiset{Closed(DeviceClose, id, camera)}
    {
      DropDevice(id, camera);
    }

    /**
     * `onConfigured`: ignored when the device is no longer registered;
     * otherwise the session is stored, and the detection loop starts unless
     * `setRepeatingRequest` throws (`repeatingOk` false).
     */
    method OnConfigured(id: CameraId, session: Handle, repeatingOk: bool) returns (loopStarted: bool)
      modifies this`sessions
      ensures id in old(devices) ==> sessions == old(sessions)[id := session] && loopStarted == repeatingOk
      ensures id !in old(devices) ==> sessions == old(sessions) && !loopStarted
    {
      if id !in devices {
        return false;
      }
      sessions := sessions[id := session];
      loopStarted := repeatingOk;
    }

    /**
     * One run of the detection loop for `id`. The frame is taken from the
     * texture view at the id's position, if that view is available; `grabbed`
     * is what `getBitmap()` then returns. A non-null bitmap is posted to the
     * camera's background handler if there is one, and dropped otherwise.
     * The loop reschedules itself exactly when a session is stored for `id`.
     */
    method DetectionTick(id: CameraId, view1Available: bool, view2Available: bool, grabbed: Option<Bitmap>)
      returns (out: TickOutcome)
      ensures out.frameTaken <==>
        || (SlotOf(cameraIds, id) == Some(Slot1) && view1Available)
        || (SlotOf(cameraIds, id) == Some(Slot2) && view2Available)
      ensures out.posted.Some? <==> out.frameTaken && grabbed.Some? && id in handlers
      ensures out.posted.Some? ==> out.posted == grabbed
      ensures out.reschedule <==> id in sessions
    {
      var target := SlotOf(cameraIds, id);
      var taken := false;
      var posted := None;
      if target.Some? && (if target.value == Slot1 then view1Available else view2Available) {
        taken := true;
        if grabbed.Some? && id in handlers {
          posted := grabbed;
        }
      }
      out := TickOutcome(taken, posted, id in sessions);
    }

    /** `bitmap.recycle()`. */
    method Recycle(b: Bitmap)
      modifies this`recycled, this`released
      ensures recycled == old(recycled) + {b.id}
      ensures released == old(released) + multiset{Recycled(b.id)}
    {
      recycled := recycled + {b.id};
      released := released + multiset{Recycled(b.id)};
    }

    /**
     * `initObjectDetector`: `create` stands for `ObjectDetector.createFromOptions`,
     * None when it throws; a failure is only logged.
     */
    method InitObjectDetector(id: CameraId, create: DetectorOptions -> Option<Handle>)
      modifies this`detectors
      ensures detectors == if create(DetectorSettings).Some? then old(detectors)[id := create(DetectorSettings).value] else old(detectors)
    {
      var detector := create(DetectorSettings);
      if detector.Some? {
        detectors := detectors[id := detector.value];
      }
    }

    /**
     * The `try` block of `processImage`: create the detector if none is
     * cached, run it, and post the result to the overlay at the id's
     * position. `detect` stands for `detector.detect`, None when it throws.
     */
    method DetectAndPost(bitmap: Bitmap, id: CameraId, create: DetectorOptions -> Option<Handle>,
                         detect: (Handle, Bitmap) -> Option<seq<Detection>>)
      returns (update: Option<OverlayUpdate>)
      modifies this`detectors
      // the detector cache: created only when absent, kept only on success
      ensures detectors == if id in old(detectors) || create(DetectorSettings).None? then old(detectors)
                           else old(detectors)[id := create(DetectorSettings).value]
      // the result reaches the overlay at the id's position when detection succeeded
      ensures update == if id in detectors && detect(detectors[id], bitmap).Some? && SlotOf(cameraIds, id).Some?
                        then Some(OverlayUpdate(SlotOf(cameraIds, id).value, detect(detectors[id], bitmap).value, bitmap.height, bitmap.width))
                        else None
    {
      update := None;
      if id !in detectors {
        InitObjectDetector(id, create);
      }
      if id in detectors {
        var result := detect(detectors[id], bitmap);
        var target := SlotOf(cameraIds, id);
        if result.Some? && target.Some? {
          update := Some(OverlayUpdate(target.value, result.value, bitmap.height, bitmap.width));
        }
      }
    }

    /**
     * `processImage` on the camera's background handler: the busy-flag test
     * and set, the detection, and the `finally` block that recycles the
     * frame and clears the flag.
     */
    method ProcessImage(bitmap: Bitmap, id: CameraId, create: DetectorOptions -> Option<Handle>,
                        detect: (Handle, Bitmap) -> Option<seq<Detection>>)
      returns (update: Option<OverlayUpdate>)
      modifies this`processing, this`detectors, this`recycled, this`released
      // drop path: the frame is recycled and nothing else changes
      ensures old(Busy(id)) ==>
        && update == None
        && processing == old(processing) && detectors == old(detectors)
        && recycled == old(recycled) + {bitmap.id}
        && released == old(released) + multiset{Recycled(bitmap.id)}
      // normal path: the flag ends false and the frame is recycled once
      ensures !old(Busy(id)) ==>
        && processing == old(processing)[id := false]
        && recycled == old(recycled) + {bitmap.id}
        && released == old(released) + (if bitmap.id in old(recycled) then multiset{} else multiset{Recycled(bitmap.id)})
      ensures !old(Busy(id)) ==>
        detectors == if id in old(detectors) || create(DetectorSettings).None? then old(detectors)
                     else old(detectors)[id := create(DetectorSettings).value]
      ensures !old(Busy(id)) ==>
        update == if id in detectors && detect(detectors[id], bitmap).Some? && SlotOf(cameraIds, id).Some?
                  then Some(OverlayUpdate(SlotOf(cameraIds, id).value, detect(detectors[id], bitmap).value, bitmap.height, bitmap.width))
                  else None
      ensures old(Idle()) ==> Idle()
    {
      if Busy(id) {
        Recycle(bitmap);
        return None;
      }
      processing := processing[id := true];
      update := DetectAndPost(bitmap, id, create, detect);
      // finally
      if bitmap.id !in recycled {
        Recycle(bitmap);
      }
      processing := processing[id := false];
      assert processing == old(processing)[id := false];
    }

    /** Releases every entry of `m` once, in the map's (unspecified) iteration order. */
    method ReleaseEach(m: map<CameraId, Handle>, kind: ReleaseKind)
      modifies this`released
      ensures released == old(released) + multiset(AllReleases(m, kind))
    {
      var pending := m.Keys;
      ghost var done: set<CameraId> := {};
      while pending != {}
        invariant pending !! done && pending + done == m.Keys
        invariant released == old(released) + multiset(Releases(m, kind, done))
        decreases pending
      {
        var id :| id in pending;
        var event := Closed(kind, id, m[id]);
        released := released + multiset{event};
        ReleasesGrow(m, kind, done, id);
        pending, done := pending - {id}, done + {id};
      }
      assert done == m.Keys;
    }

    /** `closeCameras`: close every session, device and detector once, then clear the three maps. */
    method CloseCameras()
      modifies this`sessions, this`devices, this`detectors, this`released
      ensures sessions == map[] && devices == map[] && detectors == map[]
      ensures released == old(released) + multiset(AllReleases(old(sessions), SessionClose))
                          + multiset(AllReleases(old(devices), DeviceClose))
                          + multiset(AllReleases(old(detectors), DetectorClose))
    {
      ReleaseEach(sessions, SessionClose);
      sessions := map[];
      ReleaseEach(devices, DeviceClose);
      devices := map[];
      ReleaseEach(detectors, DetectorClose);
      detectors := map[];
    }

    /** `stopBackgroundThreads`: quit every handler's looper once, then clear the map. */
    method StopBackgroundThreads()
      modifies this`handlers, this`released
      ensures handlers == map[]
      ensures released == old(released) + multiset(AllReleases(old(handlers), LooperQuit))
    {
      ReleaseEach(handlers, LooperQuit);
      handlers := map[];
    }

    /** `onPause`: `closeCameras` then `stopBackgroundThreads`. */
    method OnPause()
      modifies this`sessions, this`devices, this`detectors, this`handlers, this`released
      ensures sessions == map[] && devices == map[] && detectors == map[] && handlers == map[]
      ensures released == old(released) + multiset(AllReleases(old(sessions), SessionClose))
                          + multiset(AllReleases(old(devices), DeviceClose))
                          + multiset(AllReleases(old(detectors), DetectorClose))
                          + multiset(AllReleases(old(handlers), LooperQuit))
    {
      CloseCameras();
      StopBackgroundThreads();
    }
  }

  /** Adding one key to the released set adds exactly one new release call. */
  lemma ReleasesGrow(m: map<CameraId, Handle>, kind: ReleaseKind, done: set<CameraId>, id: CameraId)
    requires id in m && id !in done
    ensures multiset(Releases(m, kind, done + {id})) == multiset(Releases(m, kind, done)) + multiset{Closed(kind, id, m[id])}
  {
    var before, event := Releases(m, kind, done), Closed(kind, id, m[id]);
    assert Releases(m, kind, done + {id}) == before + {event};
    assert event !in before;
  }

  /** Nothing is left to release in an empty map: a second teardown releases nothing. */
  lemma NoReleasesWhenEmpty(kind: ReleaseKind)
    ensures AllReleases(map[], kind) == {}
  {
  }
}

/** Clients of the registry: what a caller can conclude from the contracts alone. */
module RegistryScenario {
  import opened Wrappers
  import opened Admission
  import StreamSizer
  import opened CameraRegistry

  /** A frame of the second camera is posted to its handler, detected, and routed to overlay 2. */
  method SecondCameraFrame() {
    var r := new Registry(["0", "1"]);
    var requested := r.OpenCamera("1", true, 11);
    var size := r.OnOpened("1", 21, [StreamSizer.Size(640, 480)], 640, 480);
    var started := r.OnConfigured("1", 31, true);
    assert started && r.sessions == map["1" := 31];

    var tick := r.DetectionTick("1", true, true, Some(Bitmap(1, 640, 480)));
    assert tick.reschedule && tick.posted == Some(Bitmap(1, 640, 480));
    assert r.processing == map[] && r.detectors == map[] && r.recycled == {} && r.released == multiset{};
    assert "1" != "0" && SlotOf(r.cameraIds, "1") == Some(Slot2);
    var update := r.ProcessImage(Bitmap(1, 640, 480), "1", _ => Some(40), (_, _) => Some([]));
    assert update == Some(OverlayUpdate(Slot2, [], 480, 640));
    assert r.detectors == map["1" := 40] && !r.Busy("1");
    assert r.released == multiset{Recycled(1)};
  }

  /** After `onPause` the loop stops rescheduling, and a second teardown releases nothing. */
  method PauseStopsLoop() {
    var r := new Registry(["0"]);
    var requested := r.OpenCamera("0", true, 10);
    var size := r.OnOpened("0", 20, [StreamSizer.Size(640, 480)], 640, 480);
    var started := r.OnConfigured("0", 30, true);
    r.OnPause();
    var tick := r.DetectionTick("0", true, false, Some(Bitmap(2, 640, 480)));
    assert !tick.reschedule && tick.posted == None;

    ghost var before := r.released;
    NoReleasesWhenEmpty(SessionClose);
    NoReleasesWhenEmpty(DeviceClose);
    NoReleasesWhenEmpty(DetectorClose);
    r.CloseCameras();
    assert r.released == before;
  }
}
