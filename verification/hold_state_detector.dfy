/** The streaming hold-state detector: it is fed the gripper error of each
    teleoperation frame in order and remembers when the gripper started
    holding the ball (pick) and when it let go (place). */
module HoldStateDetector {
  import opened Wrappers

  const DiffThreshold: int := 10
  const SustainedFrames: nat := 4

  predicate Above(error: int) {
    error > DiffThreshold
  }

  datatype Detector = Detector(count: nat, pick: Option<int>, place: Option<int>)

  /** `HoldStateDetector.__init__`. */
  const Fresh: Detector := Detector(0, None, None)

  /** `HoldStateDetector._add_frame_error`. */
  function AddFrameError(d: Detector, frameId: int, error: int): Detector {
    if Above(error) then
      var count := d.count + 1;
      var pick := if count == SustainedFrames && d.pick.None? then Some(frameId - SustainedFrames + 1) else d.pick;
      Detector(count, pick, d.place)
    else
      var place := if d.count > SustainedFrames && d.place.None? then Some(frameId) else d.place;
      Detector(0, d.pick, place)
  }

  /** The detector after the errors of frames 0 .. |errors|-1, fed in frame order. */
  function Detect(errors: seq<int>): Detector
    decreases |errors|
  {
    if |errors| == 0 then Fresh
    else AddFrameError(Detect(errors[..|errors| - 1]), |errors| - 1, errors[|errors| - 1])
  }

  /** The tensor error of `follower - leader`, with broadcasting of a length-1
      side; `None` is the size-mismatch error. */
  function GripperDiff(leader: seq<int>, follower: seq<int>): (r: Option<seq<int>>)
    ensures r.None? <==> |leader| != |follower| && |leader| != 1 && |follower| != 1
    ensures r.Some? ==> |r.value| == (if |follower| == 1 then |leader| else |follower|)
    ensures r.Some? ==> forall i :: 0 <= i < |r.value| ==>
              r.value[i] == follower[if |follower| == 1 then 0 else i] - leader[if |leader| == 1 then 0 else i]
  {
    if |leader| == |follower| then Some(seq(|leader|, i requires 0 <= i < |leader| => follower[i] - leader[i]))
    else if |leader| == 1 then Some(seq(|follower|, i requires 0 <= i < |follower| => follower[i] - leader[0]))
    else if |follower| == 1 then Some(seq(|leader|, i requires 0 <= i < |leader| => follower[0] - leader[i]))
    else None
  }

  /** `HoldStateDetector.replay_teleop` on a fresh detector, then `get_hold_state`. */
  function ReplayTeleop(leader: seq<int>, follower: seq<int>): (r: Option<Detector>)
    ensures r.None? <==> GripperDiff(leader, follower).None?
    ensures r.Some? ==> r.value == Detect(GripperDiff(leader, follower).value)
  {
    match GripperDiff(leader, follower)
    case None => None
    case Some(errors) => Some(Detect(errors))
  }

  // ---------------------------------------------------------------------------
  // What the detector finds, stated over the whole error trace

  /** Frames p .. p+len-1 all exist and are above the threshold. */
  ghost predicate Window(e: seq<int>, p: int, len: nat) {
    0 <= p && p + len <= |e| && forall j :: p <= j < p + len ==> Above(e[j])
  }

  /** A hold starts at p: SustainedFrames frames above the threshold from p. */
  ghost predicate PickAt(e: seq<int>, p: int) {
    Window(e, p, SustainedFrames)
  }

  /** A hold ends at q: frame q is not above the threshold, and the
      SustainedFrames + 1 frames before it are. */
  ghost predicate PlaceAt(e: seq<int>, q: int) {
    0 <= q < |e| && !Above(e[q]) && Window(e, q - SustainedFrames - 1, SustainedFrames + 1)
  }

  /** `pick` is the first frame where a hold starts, or `None` if there is none. */
  ghost predicate FirstPick(e: seq<int>, pick: Option<int>) {
    match pick
    case None => forall p :: !PickAt(e, p)
    case Some(p) => PickAt(e, p) && forall p' :: p' < p ==> !PickAt(e, p')
  }

  /** `place` is the first frame where a hold ends, or `None` if there is none. */
  ghost predicate FirstPlace(e: seq<int>, place: Option<int>) {
    match place
    case None => forall q :: !PlaceAt(e, q)
    case Some(q) => PlaceAt(e, q) && forall q' :: q' < q ==> !PlaceAt(e, q')
  }

  /** The number of frames at the end of the trace that are above the threshold. */
  function TrailingRun(e: seq<int>): (n: nat)
    ensures n <= |e|
    decreases |e|
  {
    if |e| == 0 || !Above(e[|e| - 1]) then 0 else 1 + TrailingRun(e[..|e| - 1])
  }

  lemma {:induction false} TrailingWindow(e: seq<int>, len: nat)
    ensures len <= TrailingRun(e) <==> Window(e, |e| - len, len)
    decreases |e|
  {
    if len > 0 && |e| > 0 {
      var init := e[..|e| - 1];
      TrailingWindow(init, len - 1);
      if Window(e, |e| - len, len) {
        assert Above(e[|e| - 1]);
        assert Window(init, |init| - (len - 1), len - 1) by {
          forall j | |init| - (len - 1) <= j < |init| ensures Above(init[j]) {
            assert init[j] == e[j];
          }
        }
      }
      if len <= TrailingRun(e) {
        assert Window(init, |init| - (len - 1), len - 1);
        forall j | |e| - len <= j < |e| ensures Above(e[j]) {
          if j < |e| - 1 {
            assert init[j] == e[j];
          }
        }
      }
    }
  }

  /** Appending a frame does not change the windows that end before it. */
  lemma WindowPrefix(e: seq<int>, x: int, p: int, len: nat)
    requires p + len <= |e|
    ensures Window(e + [x], p, len) <==> Window(e, p, len)
  {
    if 0 <= p {
      assert forall j :: p <= j < p + len ==> (e + [x])[j] == e[j];
    }
  }

  /** The state the detector keeps after each frame, in terms of the trace so far. */
  ghost predicate Summarises(d: Detector, e: seq<int>) {
    && d.count == TrailingRun(e)
    && FirstPick(e, d.pick)
    && FirstPlace(e, d.place)
  }

  /** The counter follows the trailing run. */
  lemma CountStep(e: seq<int>, x: int, d: Detector)
    requires d.count == TrailingRun(e)
    ensures AddFrameError(d, |e|, x).count == TrailingRun(e + [x])
  {
    assert (e + [x])[..|e|] == e;
  }

  /** The pick stays the first frame where a hold starts. */
  lemma PickStep(e: seq<int>, x: int, d: Detector)
    requires d.count == TrailingRun(e) && FirstPick(e, d.pick)
    ensures FirstPick(e + [x], AddFrameError(d, |e|, x).pick)
  {
    var k := |e|;
    var e' := e + [x];
    var d' := AddFrameError(d, k, x);
    CountStep(e, x, d);
    // A window that ends before the new frame is a window of the old trace.
    forall p | p + SustainedFrames <= k ensures PickAt(e', p) <==> PickAt(e, p) {
      WindowPrefix(e, x, p, SustainedFrames);
    }
    TrailingWindow(e', SustainedFrames);
    TrailingWindow(e, SustainedFrames);
    if d.pick.None? {
      forall p ensures !PickAt(e, p) { }
      if Above(x) {
        if d'.count == SustainedFrames {
          assert PickAt(e', k - SustainedFrames + 1);
        } else if d'.count > SustainedFrames {
          assert PickAt(e, k - SustainedFrames);
          assert false;
        } else {
          assert !PickAt(e', k - SustainedFrames + 1);
        }
      } else {
        assert !PickAt(e', k - SustainedFrames + 1);
      }
    }
  }

  /** The place stays the first frame where a hold ends. */
  lemma PlaceStep(e: seq<int>, x: int, d: Detector)
    requires d.count == TrailingRun(e) && FirstPlace(e, d.place)
    ensures FirstPlace(e + [x], AddFrameError(d, |e|, x).place)
  {
    var k := |e|;
    var e' := e + [x];
    forall q | q < k ensures PlaceAt(e', q) <==> PlaceAt(e, q) {
      WindowPrefix(e, x, q - SustainedFrames - 1, SustainedFrames + 1);
      if 0 <= q { assert e'[q] == e[q]; }
    }
    TrailingWindow(e, SustainedFrames + 1);
    if Above(x) {
      assert !PlaceAt(e', k);
    } else if d.place.None? {
      forall q ensures !PlaceAt(e, q) { }
      WindowPrefix(e, x, k - SustainedFrames - 1, SustainedFrames + 1);
      assert e'[k] == x;
      assert PlaceAt(e', k) <==> d.count > SustainedFrames;
    }
  }

  lemma {:induction false} DetectSummarises(e: seq<int>)
    ensures Summarises(Detect(e), e)
    decreases |e|
  {
    if |e| == 0 {
      return;
    }
    var init := e[..|e| - 1];
    var x := e[|e| - 1];
    assert e == init + [x];
    DetectSummarises(init);
    var d := Detect(init);
    assert Detect(e) == AddFrameError(d, |init|, x);
    CountStep(init, x, d);
    PickStep(init, x, d);
    PlaceStep(init, x, d);
  }

  /** What `get_hold_state` reports after a whole trace: pick is the first frame
      that starts SustainedFrames frames above the threshold, place the first
      frame that ends a run longer than that; both `None` if there is none. */
  lemma DetectorFinds(e: seq<int>)
    ensures FirstPick(e, Detect(e).pick)
    ensures FirstPlace(e, Detect(e).place)
  {
    DetectSummarises(e);
  }

  /** A place is only ever reported after a pick, and strictly after it. */
  lemma PlaceAfterPick(e: seq<int>)
    requires Detect(e).place.Some?
    ensures Detect(e).pick.Some? && Detect(e).pick.value < Detect(e).place.value
  {
    DetectSummarises(e);
    var q := Detect(e).place.value;
    assert PlaceAt(e, q);
    assert PickAt(e, q - SustainedFrames - 1);
  }

  /** A run of exactly SustainedFrames frames sets the pick but no place. */
  lemma ExactRunPicksOnly()
    ensures Detect([11, 11, 11, 11, 0]) == Detector(0, Some(0), None)
  {
    var e := [11, 11, 11, 11, 0];
    assert e[..1] == [11] && e[..2] == [11, 11] && e[..3] == [11, 11, 11] && e[..4] == [11, 11, 11, 11];
    assert Detect(e[..1]) == Detector(1, None, None);
    assert e[..2][..1] == e[..1];
    assert Detect(e[..2]) == Detector(2, None, None);
    assert e[..3][..2] == e[..2];
    assert Detect(e[..3]) == Detector(3, None, None);
    assert e[..4][..3] == e[..3];
    assert Detect(e[..4]) == Detector(4, Some(0), None);
    assert e[..5][..4] == e[..4] && e[..5] == e;
  }

  /** One frame longer, and the frame that releases it is the place. */
  lemma LongerRunPlaces()
    ensures Detect([0, 11, 11, 11, 11, 11, 3]) == Detector(0, Some(1), Some(6))
  {
    var e := [0, 11, 11, 11, 11, 11, 3];
    assert Detect(e[..1]) == Detector(0, None, None);
    assert e[..2][..1] == e[..1];
    assert Detect(e[..2]) == Detector(1, None, None);
    assert e[..3][..2] == e[..2];
    assert Detect(e[..3]) == Detector(2, None, None);
    assert e[..4][..3] == e[..3];
    assert Detect(e[..4]) == Detector(3, None, None);
    assert e[..5][..4] == e[..4];
    assert Detect(e[..5]) == Detector(4, Some(1), None);
    assert e[..6][..5] == e[..5];
    assert Detect(e[..6]) == Detector(5, Some(1), None);
    assert e[..7][..6] == e[..6] && e[..7] == e;
  }
}
