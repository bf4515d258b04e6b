/** The holding period of a recorded episode: the one stretch of at least
    `fps` consecutive frames (one second) during which the follower gripper
    lagged the leader by more than the threshold, i.e. held the ball.

    `EpisodeLoader` and `EpisodeReplayer` carry identical copies of this
    computation; it is modelled once here. */
module HoldPeriod {
  import opened Wrappers

  const DelayFrames: nat := 4
  const DiffThreshold: int := 10

  /** One recorded frame, reduced to the gripper joint: the commanded (leader)
      position and the observed (follower) position. */
  datatype GripperFrame = GripperFrame(action: int, state: int)

  /** `get_hold_state` up to the scan: the follower position `DelayFrames`
      frames later minus the command, marked 1 when above the threshold. */
  function HoldTrace(frames: seq<GripperFrame>): (t: seq<int>)
    ensures |t| == if |frames| > DelayFrames then |frames| - DelayFrames else 0
    ensures forall i :: 0 <= i < |t| ==>
              && (t[i] == 1 <==> frames[i + DelayFrames].state - frames[i].action > DiffThreshold)
              && (t[i] == 0 || t[i] == 1)
  {
    var n := if |frames| > DelayFrames then |frames| - DelayFrames else 0;
    var delayed := frames[|frames| - n..];   // leader_gripper[DELAY_FRAMES:]
    var commanded := frames[..n];            // follower_gripper[:-DELAY_FRAMES]
    seq(n, i requires 0 <= i < n => if delayed[i].state - commanded[i].action > DiffThreshold then 1 else 0)
  }

  datatype HoldState = HoldState(pick: int, place: int)

  datatype HoldError =
    | EmptyTrace        // the IndexError of `counter[-1]` on an empty trace
    | DetectionFailed   // "Holding period detection failed"

  // ---------------------------------------------------------------------------
  // Reference definition

  /** The number of consecutive 1s starting at frame i. */
  function RunLength(a: seq<int>, i: nat): (n: nat)
    requires i <= |a|
    ensures i + n <= |a|
    ensures i + n == |a| || a[i + n] != 1
    decreases |a| - i
  {
    if i == |a| || a[i] != 1 then 0 else 1 + RunLength(a, i + 1)
  }

  /** Every frame of the run is a 1. */
  lemma {:induction false} RunLengthOnes(a: seq<int>, i: nat)
    requires i <= |a|
    ensures forall j :: i <= j < i + RunLength(a, i) ==> a[j] == 1
    decreases |a| - i
  {
    if i < |a| && a[i] == 1 {
      RunLengthOnes(a, i + 1);
    }
  }

  /** A hold starts at s: s begins a maximal run of 1s that lasts at least `fps` frames. */
  predicate Qualifies(a: seq<int>, fps: int, s: int) {
    0 <= s < |a| && (s == 0 || a[s - 1] != 1) && RunLength(a, s) >= fps
  }

  /** The qualifying starts in [lo, |a|), latest first. */
  function Starts(a: seq<int>, fps: int, lo: nat): (r: seq<nat>)
    requires lo <= |a|
    ensures forall i :: 0 <= i < |r| ==> lo <= r[i] < |a|
    decreases |a| - lo
  {
    if lo == |a| then [] else Starts(a, fps, lo + 1) + (if Qualifies(a, fps, lo) then [lo] else [])
  }

  /** The unique hold, or why there is none. */
  function HoldRange(a: seq<int>, fps: int): Result<HoldState, HoldError> {
    if |a| == 0 then Err(EmptyTrace)
    else
      var starts := Starts(a, fps, 0);
      if |starts| != 1 then Err(DetectionFailed)
      else Ok(HoldState(starts[0], starts[0] + RunLength(a, starts[0]) - 1))
  }

  // ---------------------------------------------------------------------------
  // The scan as written

  /** The ends that go with the starts: each run's last frame. */
  ghost predicate EndsMatch(a: seq<int>, starts: seq<int>, ends: seq<int>) {
    && |ends| == |starts|
    && forall j :: 0 <= j < |starts| ==> 0 <= starts[j] < |a| && ends[j] == starts[j] + RunLength(a, starts[j]) - 1
  }

  /** One step of the scan keeps `counter` equal to the run lengths. */
  lemma CounterStep(a: seq<int>, counter: seq<int>, frame: int, counter': seq<int>)
    requires 0 <= frame < |a| - 1 && |counter| == |a|
    requires forall i :: frame < i < |a| ==> counter[i] == RunLength(a, i)
    requires counter' == counter[frame := if a[frame] == 1 then counter[frame + 1] + 1 else 0]
    ensures |counter'| == |a| && forall i :: frame <= i < |a| ==> counter'[i] == RunLength(a, i)
  {
  }

  /** One step of the scan collects frame + 1 exactly when a hold starts there. */
  lemma StartsStep(a: seq<int>, fps: int, frame: int, starts: seq<int>, ends: seq<int>, run: int,
                   starts': seq<int>, ends': seq<int>)
    requires 0 <= frame < |a| - 1
    requires starts == Starts(a, fps, frame + 2) && EndsMatch(a, starts, ends)
    requires run == RunLength(a, frame + 1)
    requires var found := a[frame] != 1 && run >= fps;
             && starts' == (if found then starts + [frame + 1] else starts)
             && ends' == (if found then ends + [frame + run] else ends)
    ensures starts' == Starts(a, fps, frame + 1) && EndsMatch(a, starts', ends')
  {
  }

  /** What the scan knows once it has reached `frame`: the counters after it
      are the run lengths, and the starts after frame + 1 are collected. */
  ghost predicate ScanInv(a: seq<int>, fps: int, frame: int, counter: seq<int>, starts: seq<int>, ends: seq<int>) {
    && -1 <= frame < |a| - 1
    && |counter| == |a|
    && (forall i :: frame < i < |a| ==> counter[i] == RunLength(a, i))
    && starts == Starts(a, fps, frame + 2)
    && EndsMatch(a, starts, ends)
  }

  /** The scan starts at the last frame, whose counter is 1 exactly when it is a 1. */
  lemma ScanStart(a: seq<int>, fps: int, counter: seq<int>)
    requires |a| > 0 && |counter| == |a|
    requires counter[|a| - 1] == if a[|a| - 1] == 1 then 1 else 0
    ensures ScanInv(a, fps, |a| - 2, counter, [], [])
  {
    assert RunLength(a, |a|) == 0;
  }

  /** Once past frame 0, the scan has every counter and every start after frame 0. */
  lemma ScanEnd(a: seq<int>, fps: int, counter: seq<int>, starts: seq<int>, ends: seq<int>)
    requires ScanInv(a, fps, -1, counter, starts, ends)
    ensures |counter| == |a| && forall i :: 0 <= i < |a| ==> counter[i] == RunLength(a, i)
    ensures starts == Starts(a, fps, 1)
    ensures EndsMatch(a, starts, ends)
  {
  }

  /** One step of the scan, at `frame`, keeps what it knows. */
  lemma ScanStep(a: seq<int>, fps: int, frame: int, counter: seq<int>, starts: seq<int>, ends: seq<int>,
                 counter': seq<int>, starts': seq<int>, ends': seq<int>)
    requires ScanInv(a, fps, frame, counter, starts, ends) && frame >= 0
    requires counter' == counter[frame := if a[frame] == 1 then counter[frame + 1] + 1 else 0]
    requires var found := a[frame] != 1 && counter[frame + 1] >= fps;
             && starts' == (if found then starts + [frame + 1] else starts)
             && ends' == (if found then ends + [frame + counter[frame + 1]] else ends)
    ensures ScanInv(a, fps, frame - 1, counter', starts', ends')
  {
    var run := counter[frame + 1];
    assert run == RunLength(a, frame + 1);
    CounterStep(a, counter, frame, counter');
    StartsStep(a, fps, frame, starts, ends, run, starts', ends');
  }

  /** The loop of `sustained_frame_range`, from the last frame back to frame 0:
      fills `counter` and collects the starts and ends of the runs that begin
      after frame 0. */
  method BackwardScan(a: seq<int>, fps: int) returns (counter: seq<int>, starts: seq<int>, ends: seq<int>)
    requires |a| > 0
    ensures |counter| == |a| && forall i :: 0 <= i < |a| ==> counter[i] == RunLength(a, i)
    ensures starts == Starts(a, fps, 1)
    ensures EndsMatch(a, starts, ends)
  {
    counter := seq(|a|, _ => 0);
    var last := |a| - 1;
    counter := counter[last := if a[last] == 1 then 1 else 0];
    starts := [];
    ends := [];
    var frame := last - 1;
    ScanStart(a, fps, counter);
    while frame >= 0
      invariant ScanInv(a, fps, frame, counter, starts, ends)
    {
      var counter', starts', ends' := counter, starts, ends;
      if a[frame] == 1 {
        counter' := counter[frame := counter[frame + 1] + 1];
      } else {
        if counter[frame + 1] >= fps {
          starts' := starts + [frame + 1];
          ends' := ends + [frame + counter[frame + 1]];
        }
        counter' := counter'[frame := 0];
      }
      ScanStep(a, fps, frame, counter, starts, ends, counter', starts', ends');
      counter, starts, ends := counter', starts', ends';
      frame := frame - 1;
    }
    ScanEnd(a, fps, counter, starts, ends);
  }

  /** `sustained_frame_range`: the backward scan, the check of frame 0, and
      the demand for exactly one run. */
  method SustainedFrameRange(a: seq<int>, fps: int) returns (r: Result<HoldState, HoldError>, counter: seq<int>)
    ensures r == HoldRange(a, fps)
    ensures |a| > 0 ==> |counter| == |a| && forall i :: 0 <= i < |a| ==> counter[i] == RunLength(a, i)
  {
    if |a| == 0 {
      return Err(EmptyTrace), [];
    }
    var starts, ends;
    counter, starts, ends := BackwardScan(a, fps);
    if counter[0] >= fps {
      starts := starts + [0];
      ends := ends + [0 + counter[0] - 1];
    }
    assert starts == Starts(a, fps, 0);
    if |starts| != 1 {
      return Err(DetectionFailed), counter;
    }
    return Ok(HoldState(starts[0], ends[0])), counter;
  }

  // ---------------------------------------------------------------------------
  // Properties of the reference definition

  /** Every qualifying start is listed, and only those. */
  lemma {:induction false} StartsMembers(a: seq<int>, fps: int, lo: nat, s: int)
    requires lo <= |a|
    ensures s in Starts(a, fps, lo) <==> lo <= s && Qualifies(a, fps, s)
    decreases |a| - lo
  {
    if lo < |a| {
      StartsMembers(a, fps, lo + 1, s);
    }
  }

  /** The starts are listed latest first, so each run is reported exactly once. */
  lemma {:induction false} StartsDescending(a: seq<int>, fps: int, lo: nat)
    requires lo <= |a|
    ensures forall i, j :: 0 <= i < j < |Starts(a, fps, lo)| ==> Starts(a, fps, lo)[i] > Starts(a, fps, lo)[j]
    ensures forall i :: 0 <= i < |Starts(a, fps, lo)| ==> Starts(a, fps, lo)[i] >= lo
    decreases |a| - lo
  {
    if lo < |a| {
      StartsDescending(a, fps, lo + 1);
    }
  }

  /** The scan succeeds exactly when the trace has one qualifying run. */
  lemma HoldRangeOkIffUnique(a: seq<int>, fps: int)
    ensures HoldRange(a, fps).Ok? <==>
              (exists s :: Qualifies(a, fps, s)) && (forall s, t :: Qualifies(a, fps, s) && Qualifies(a, fps, t) ==> s == t)
  {
    var starts := Starts(a, fps, 0);
    StartsDescending(a, fps, 0);
    forall s ensures s in starts <==> Qualifies(a, fps, s) {
      StartsMembers(a, fps, 0, s);
    }
    if |a| == 0 {
      assert forall s :: !Qualifies(a, fps, s);
    } else if |starts| == 0 {
      assert forall s :: !Qualifies(a, fps, s);
    } else if |starts| > 1 {
      assert Qualifies(a, fps, starts[0]) && Qualifies(a, fps, starts[1]) && starts[0] != starts[1];
    } else {
      assert Qualifies(a, fps, starts[0]);
    }
  }

  /** A reported hold is a maximal run of 1s of at least `fps` frames, from pick to place. */
  lemma HoldRangeIsMaximalRun(a: seq<int>, fps: int)
    requires HoldRange(a, fps).Ok?
    ensures var h := HoldRange(a, fps).value;
            && Qualifies(a, fps, h.pick)
            && h.place - h.pick + 1 >= fps
            && h.place < |a|
            && (forall j :: h.pick <= j <= h.place ==> a[j] == 1)
            && (h.pick == 0 || a[h.pick - 1] != 1)
            && (h.place == |a| - 1 || a[h.place + 1] != 1)
            && (fps >= 1 ==> h.pick <= h.place)
  {
    var starts := Starts(a, fps, 0);
    StartsMembers(a, fps, 0, starts[0]);
    RunLengthOnes(a, starts[0]);
  }

  // ---------------------------------------------------------------------------
  // Several episodes

  /** The first episode whose holding period was not found, and why. */
  datatype HoldFailure = HoldFailure(slot: nat, reason: HoldError)

  /** The holding periods of several episodes, in order, from their detection
      results; the first failure stops the search. */
  function CollectHolds(results: seq<Result<HoldState, HoldError>>, from: nat): (r: Result<seq<HoldState>, HoldFailure>)
    requires from <= |results|
    ensures r.Ok? <==> forall k :: from <= k < |results| ==> results[k].Ok?
    ensures r.Ok? ==> |r.value| == |results| - from
                      && forall k :: from <= k < |results| ==> results[k] == Ok(r.value[k - from])
    ensures r.Err? ==> && from <= r.error.slot < |results|
                       && results[r.error.slot] == Err(r.error.reason)
                       && forall k :: from <= k < r.error.slot ==> results[k].Ok?
    decreases |results| - from
  {
    if from == |results| then Ok([])
    else if results[from].Err? then Err(HoldFailure(from, results[from].error))
    else
      var rest := CollectHolds(results, from + 1);
      if rest.Err? then rest
      else
        var holds := [results[from].value] + rest.value;
        assert forall k :: 0 < k < |holds| ==> holds[k] == rest.value[k - 1];
        Ok(holds)
  }

  /** Two separate holds of a second each make the detection fail. */
  lemma TwoHoldsFail()
    ensures HoldRange([1, 1, 0, 1, 1], 2) == Err(DetectionFailed)
  {
    var a := [1, 1, 0, 1, 1];
    assert Qualifies(a, 2, 0) && Qualifies(a, 2, 3);
    HoldRangeOkIffUnique(a, 2);
  }
}
