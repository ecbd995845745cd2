/**
 * Camera admission (`setupCameras`): which of the enumerated camera ids are
 * opened, and on which of the two texture views. The second enumerated id is
 * opened only when the platform (API level R or later) reports a concurrent
 * combination that holds both of the first two ids; no later id is opened.
 */
module Admission {
  import opened Wrappers

  type CameraId = string

  /** The two preview positions: `mTextureView1`/`mOverlayView1` and `mTextureView2`/`mOverlayView2`. */
  datatype Slot = Slot1 | Slot2

  /**
   * One `openCamera(id, view)` decision. `deferred` holds when the view was
   * not yet available, so the source installs a SurfaceTextureListener that
   * opens the camera once the surface appears.
   */
  datatype Opening = Opening(cameraId: CameraId, slot: Slot, deferred: bool)

  /** The openings, in order, and whether the second view is hidden (`View.GONE`). */
  datatype Plan = Plan(openings: seq<Opening>, secondViewHidden: bool)

  /** Some reported combination contains both of the first two ids. */
  predicate ReportsPair(ids: seq<CameraId>, combinations: seq<set<CameraId>>)
    requires |ids| >= 2
  {
    exists i :: 0 <= i < |combinations| && ids[0] in combinations[i] && ids[1] in combinations[i]
  }

  /**
   * The `concurrentSupport` flag as the source computes it. `combinations`
   * is the iteration order of `getConcurrentCameraIds()`, or None when that
   * call throws `CameraAccessException`.
   */
  predicate ConcurrentSupport(ids: seq<CameraId>, combinations: Option<seq<set<CameraId>>>, apiAtLeastR: bool)
    requires |ids| >= 2
  {
    apiAtLeastR && combinations.Some? && ReportsPair(ids, combinations.value)
  }

  /**
   * `getConcurrentCameraIds()` is a `Set`, whose iteration order is not
   * specified: the flag is the same for every ordering of the combinations.
   */
  lemma ConcurrentSupportIgnoresOrder(ids: seq<CameraId>, a: seq<set<CameraId>>, b: seq<set<CameraId>>, apiAtLeastR: bool)
    requires |ids| >= 2 && multiset(a) == multiset(b)
    ensures ConcurrentSupport(ids, Some(a), apiAtLeastR) <==> ConcurrentSupport(ids, Some(b), apiAtLeastR)
  {
    if ReportsPair(ids, a) {
      var i :| 0 <= i < |a| && ids[0] in a[i] && ids[1] in a[i];
      assert a[i] in multiset(b);
      var j :| 0 <= j < |b| && b[j] == a[i];
    }
    if ReportsPair(ids, b) {
      var j :| 0 <= j < |b| && ids[0] in b[j] && ids[1] in b[j];
      assert b[j] in multiset(a);
      var i :| 0 <= i < |a| && a[i] == b[j];
    }
  }

  /** The test `contains(ids[0]) && contains(ids[1])` does not depend on which of the two ids comes first. */
  lemma ConcurrentSupportSymmetric(ids: seq<CameraId>, combinations: Option<seq<set<CameraId>>>, apiAtLeastR: bool)
    requires |ids| >= 2
    ensures ConcurrentSupport(ids, combinations, apiAtLeastR)
        <==> ConcurrentSupport([ids[1], ids[0]] + ids[2..], combinations, apiAtLeastR)
  {
  }

  /** The source's loop over the combinations, with its early `break`. */
  method ProbeConcurrentSupport(ids: seq<CameraId>, combinations: Option<seq<set<CameraId>>>, apiAtLeastR: bool)
    returns (concurrentSupport: bool)
    requires |ids| >= 2
    ensures concurrentSupport == ConcurrentSupport(ids, combinations, apiAtLeastR)
  {
    concurrentSupport := false;
    if apiAtLeastR && combinations.Some? {
      var all := combinations.value;
      var i := 0;
      while i < |all|
        invariant 0 <= i <= |all|
        invariant !concurrentSupport
        invariant forall j :: 0 <= j < i ==> !(ids[0] in all[j] && ids[1] in all[j])
      {
        if ids[0] in all[i] && ids[1] in all[i] {
          concurrentSupport := true;
          break;
        }
        i := i + 1;
      }
    }
  }

  /** One opening on a view, deferred when the view is not yet available. */
  function OpenOn(id: CameraId, slot: Slot, viewAvailable: bool): Opening {
    Opening(id, slot, !viewAvailable)
  }

  /** The admission branch of `setupCameras`, on the enumerated ids. */
  function AdmissionPlan(ids: seq<CameraId>, combinations: Option<seq<set<CameraId>>>, apiAtLeastR: bool,
                         view1Available: bool, view2Available: bool): (p: Plan)
    ensures |ids| == 0 ==> p.openings == []
    ensures |ids| == 1 ==> p.openings == [Opening(ids[0], Slot1, !view1Available)]
    ensures |ids| >= 1 ==> |p.openings| >= 1 && p.openings[0] == Opening(ids[0], Slot1, !view1Available)
    ensures |ids| >= 2 ==> (|p.openings| == 2 <==> ConcurrentSupport(ids, combinations, apiAtLeastR))
    ensures |p.openings| == 2 ==> p.openings[1] == Opening(ids[1], Slot2, !view2Available)
    ensures |p.openings| <= 2
    ensures forall o :: o in p.openings ==> (o.cameraId == ids[0] && o.slot == Slot1) || (o.cameraId == ids[1] && o.slot == Slot2)
    ensures p.secondViewHidden <==> |p.openings| < 2
  {
    if |ids| < 2 then
      Plan(if |ids| > 0 then [OpenOn(ids[0], Slot1, view1Available)] else [], true)
    else if ConcurrentSupport(ids, combinations, apiAtLeastR) then
      Plan([OpenOn(ids[0], Slot1, view1Available), OpenOn(ids[1], Slot2, view2Available)], false)
    else
      Plan([OpenOn(ids[0], Slot1, view1Available)], true)
  }

  /** `setupCameras` after enumeration: below two ids return early, else probe and decide. */
  method SetupCameras(ids: seq<CameraId>, combinations: Option<seq<set<CameraId>>>, apiAtLeastR: bool,
                      view1Available: bool, view2Available: bool) returns (p: Plan)
    ensures p == AdmissionPlan(ids, combinations, apiAtLeastR, view1Available, view2Available)
  {
    if |ids| < 2 {
      var openings := [];
      if |ids| > 0 {
        openings := [OpenOn(ids[0], Slot1, view1Available)];
      }
      return Plan(openings, true);
    }
    var concurrentSupport := ProbeConcurrentSupport(ids, combinations, apiAtLeastR);
    if concurrentSupport {
      p := Plan([OpenOn(ids[0], Slot1, view1Available), OpenOn(ids[1], Slot2, view2Available)], false);
    } else {
      p := Plan([OpenOn(ids[0], Slot1, view1Available)], true);
    }
  }

  /**
   * The position of `id` in the enumerated list, as the detection loop and
   * the result routing test it: equal to the first id, else equal to the
   * second, else no position.
   */
  function SlotOf(ids: seq<CameraId>, id: CameraId): (r: Option<Slot>)
    ensures r == Some(Slot1) <==> |ids| > 0 && id == ids[0]
    ensures r == Some(Slot2) <==> |ids| > 1 && id == ids[1] && id != ids[0]
    ensures r == None <==> forall i :: 0 <= i < |ids| && i < 2 ==> ids[i] != id
  {
    if |ids| > 0 && id == ids[0] then Some(Slot1)
    else if |ids| > 1 && id == ids[1] then Some(Slot2)
    else None
  }
}
