/** Replaying recorded episodes in simulation and tuning the calibration
    offsets by grid search.

    The simulation itself is a parameter: which episodes a replay got right
    (`success`) and the score a set of offsets earns (`score`) are inputs. */
module EpisodeReplayer {
  import opened Wrappers
  import opened HoldPeriod
  import opened Numeric

  // ---------------------------------------------------------------------------
  // Loading

  datatype ReplayerError =
    | EmptyEpisode(id: int)                      // a data loader with a batch size of zero rows
    | HoldNotFound(slot: nat, reason: HoldError) // `get_hold_state` raised for this episode
    | NoEpisodes                                 // `min` of no episode lengths

  datatype Replayable = Replayable(ids: seq<int>, holds: seq<HoldState>, frameCount: nat)

  /** The requested ids: all episodes when none are given. */
  function RequestedIds(request: Option<seq<int>>, total: nat): (ids: seq<int>)
    ensures request.Some? ==> ids == request.value
    ensures request.None? ==> |ids| == total && forall i :: 0 <= i < total ==> ids[i] == i
  {
    if request.None? then seq(total, i => i) else request.value
  }

  /** The episode of each requested id, read on its own. */
  function Episodes(ids: seq<int>, dataset: int -> seq<GripperFrame>): (e: seq<seq<GripperFrame>>)
    ensures |e| == |ids| && forall i :: 0 <= i < |ids| ==> e[i] == dataset(ids[i])
  {
    seq(|ids|, i requires 0 <= i < |ids| => dataset(ids[i]))
  }

  /** The first episode without rows, if any. */
  function FirstEmpty(episodes: seq<seq<GripperFrame>>): (r: Option<nat>)
    ensures r.None? <==> forall k :: 0 <= k < |episodes| ==> |episodes[k]| > 0
    ensures r.Some? ==> r.value < |episodes| && |episodes[r.value]| == 0
                        && forall k :: 0 <= k < r.value ==> |episodes[k]| > 0
    decreases |episodes|
  {
    if |episodes| == 0 then None
    else if |episodes[0]| == 0 then Some(0)
    else
      var rest := FirstEmpty(episodes[1..]);
      assert forall k :: 1 <= k < |episodes| ==> episodes[k] == episodes[1..][k - 1];
      if rest.None? then None else Some(rest.value + 1)
  }

  /** The detection result of each episode, in order. */
  function HoldResults(episodes: seq<seq<GripperFrame>>, fps: int): (r: seq<Result<HoldState, HoldError>>)
    ensures |r| == |episodes| && forall k :: 0 <= k < |episodes| ==> r[k] == HoldRange(HoldTrace(episodes[k]), fps)
  {
    seq(|episodes|, k requires 0 <= k < |episodes| => HoldRange(HoldTrace(episodes[k]), fps))
  }

  /** The holding period of each episode in turn; the first failure stops it. */
  function HoldsOf(episodes: seq<seq<GripperFrame>>, fps: int): (r: Result<seq<HoldState>, ReplayerError>)
    ensures r.Ok? <==> forall k :: 0 <= k < |episodes| ==> HoldRange(HoldTrace(episodes[k]), fps).Ok?
    ensures r.Ok? ==> |r.value| == |episodes|
                      && forall k :: 0 <= k < |episodes| ==> HoldRange(HoldTrace(episodes[k]), fps) == Ok(r.value[k])
    ensures r.Err? ==> && r.error.HoldNotFound? && r.error.slot < |episodes|
                       && HoldRange(HoldTrace(episodes[r.error.slot]), fps) == Err(r.error.reason)
  {
    match CollectHolds(HoldResults(episodes, fps), 0)
    case Ok(holds) => Ok(holds)
    case Err(f) => Err(HoldNotFound(f.slot, f.reason))
  }

  /** `EpisodeReplayer.load_episodes`: each requested id's episode is read on its
      own (`dataset(id)`, the gripper column of that episode's file) and given
      a data loader whose batch is the whole episode; then the holding periods
      and the shortest length are computed. */
  function LoadEpisodes(request: Option<seq<int>>, total: nat, dataset: int -> seq<GripperFrame>, fps: int)
    : Result<Replayable, ReplayerError>
  {
    var ids := RequestedIds(request, total);
    var empty := FirstEmpty(Episodes(ids, dataset));
    var holds := HoldsOf(Episodes(ids, dataset), fps);
    if empty.Some? then Err(EmptyEpisode(ids[empty.value]))
    else if holds.Err? then Err(holds.error)
    else if |ids| == 0 then Err(NoEpisodes)
    else Ok(Replayable(ids, holds.value, ShortestLength(Episodes(ids, dataset))))
  }

  /** The load succeeds exactly when some episode is requested and every
      requested episode has a unique holding period. */
  lemma LoadSucceeds(request: Option<seq<int>>, total: nat, dataset: int -> seq<GripperFrame>, fps: int)
    ensures var ids := RequestedIds(request, total);
            var ok := LoadEpisodes(request, total, dataset, fps).Ok?;
            ok <==> |ids| > 0 && forall k :: 0 <= k < |ids| ==> HoldRange(HoldTrace(dataset(ids[k])), fps).Ok?
  {
    var ids := RequestedIds(request, total);
    var episodes := Episodes(ids, dataset);
    var empty := FirstEmpty(episodes);
    if empty.Some? {
      var k := empty.value;
      assert HoldTrace(episodes[k]) == [];
      assert !HoldRange(HoldTrace(dataset(ids[k])), fps).Ok?;
    } else if HoldsOf(episodes, fps).Err? {
      var k := HoldsOf(episodes, fps).error.slot;
      assert !HoldRange(HoldTrace(dataset(ids[k])), fps).Ok?;
    }
  }

  /** A successful load passed every stage and is built from their results. */
  lemma LoadStages(request: Option<seq<int>>, total: nat, dataset: int -> seq<GripperFrame>, fps: int)
    requires LoadEpisodes(request, total, dataset, fps).Ok?
    ensures var ids := RequestedIds(request, total);
            var episodes := Episodes(ids, dataset);
            && |episodes| > 0 && HoldsOf(episodes, fps).Ok?
            && LoadEpisodes(request, total, dataset, fps).value
               == Replayable(ids, HoldsOf(episodes, fps).value, ShortestLength(episodes))
  {
  }

  /** The holds and the length computed over the requested episodes, stated
      per requested id. */
  lemma StagesPerId(ids: seq<int>, dataset: int -> seq<GripperFrame>, fps: int)
    requires |ids| > 0 && HoldsOf(Episodes(ids, dataset), fps).Ok?
    ensures var episodes := Episodes(ids, dataset);
            var holds := HoldsOf(episodes, fps).value;
            var n := ShortestLength(episodes);
            && |holds| == |ids|
            && (forall k :: 0 <= k < |ids| ==> HoldRange(HoldTrace(dataset(ids[k])), fps) == Ok(holds[k]))
            && (forall k :: 0 <= k < |ids| ==> n <= |dataset(ids[k])|)
            && (exists k :: 0 <= k < |ids| && n == |dataset(ids[k])|)
  {
    var episodes := Episodes(ids, dataset);
    var n := ShortestLength(episodes);
    var k :| 0 <= k < |episodes| && n == |episodes[k]|;
    assert n == |dataset(ids[k])|;
  }

  /** A successful load holds the requested episodes' holding periods in
      request order and the shortest episode's length. */
  lemma LoadResult(request: Option<seq<int>>, total: nat, dataset: int -> seq<GripperFrame>, fps: int)
    requires LoadEpisodes(request, total, dataset, fps).Ok?
    ensures var ids := RequestedIds(request, total);
            var r := LoadEpisodes(request, total, dataset, fps).value;
            && r.ids == ids && |r.holds| == |ids|
            && (forall k :: 0 <= k < |ids| ==> HoldRange(HoldTrace(dataset(ids[k])), fps) == Ok(r.holds[k]))
            && (forall k :: 0 <= k < |ids| ==> r.frameCount <= |dataset(ids[k])|)
            && (exists k :: 0 <= k < |ids| && r.frameCount == |dataset(ids[k])|)
  {
    LoadStages(request, total, dataset, fps);
    StagesPerId(RequestedIds(request, total), dataset, fps);
  }

  /** Both together: when the load succeeds, and what it then holds. */
  lemma LoadedEpisodes(request: Option<seq<int>>, total: nat, dataset: int -> seq<GripperFrame>, fps: int)
    ensures var ids := RequestedIds(request, total);
            var r := LoadEpisodes(request, total, dataset, fps);
            && (r.Ok? <==> |ids| > 0 && forall k :: 0 <= k < |ids| ==> HoldRange(HoldTrace(dataset(ids[k])), fps).Ok?)
            && (r.Ok? ==> r.value.ids == ids && |r.value.holds| == |ids|
                          && (forall k :: 0 <= k < |ids| ==> HoldRange(HoldTrace(dataset(ids[k])), fps) == Ok(r.value.holds[k]))
                          && (forall k :: 0 <= k < |ids| ==> r.value.frameCount <= |dataset(ids[k])|)
                          && (exists k :: 0 <= k < |ids| && r.value.frameCount == |dataset(ids[k])|))
  {
    LoadSucceeds(request, total, dataset, fps);
    if LoadEpisodes(request, total, dataset, fps).Ok? {
      LoadResult(request, total, dataset, fps);
    }
  }

  /** An episode without rows stops the load before any holding period is
      searched, naming the first such id. */
  lemma EmptyEpisodeFirst(request: Option<seq<int>>, total: nat, dataset: int -> seq<GripperFrame>, fps: int)
    requires exists k :: 0 <= k < |RequestedIds(request, total)| && |dataset(RequestedIds(request, total)[k])| == 0
    ensures var ids := RequestedIds(request, total);
            var r := LoadEpisodes(request, total, dataset, fps);
            && r.Err? && r.error.EmptyEpisode?
            && exists k :: 0 <= k < |ids| && r.error.id == ids[k] && |dataset(ids[k])| == 0
                           && forall j :: 0 <= j < k ==> |dataset(ids[j])| > 0
  {
    var ids := RequestedIds(request, total);
    var episodes := Episodes(ids, dataset);
    var k :| 0 <= k < |ids| && |dataset(ids[k])| == 0;
    assert |episodes[k]| == 0;
  }

  // ---------------------------------------------------------------------------
  // Scoring a replay

  datatype ScoreError =
    | IndexError       // a failed result beyond the requested ids: `episode_ids[i]` out of range
    | ZeroDivision     // no results and no episodes: `sum([]) / 0` on Python ints
    | NonFiniteScore   // results but no episodes: a tensor sum divided by zero is inf or nan

  datatype Replay = Replay(failedIds: seq<int>, score: real)

  /** Some result beyond the requested ids is a failure. The failed-id list
      reads `episode_ids[i]` only for failures, so only these are out of range. */
  predicate FailureBeyondIds(ids: seq<int>, success: seq<bool>) {
    exists i :: |ids| <= i < |success| && !success[i]
  }

  /** The ids of the episodes the replay got wrong, in order. */
  function FailedIds(ids: seq<int>, success: seq<bool>): seq<int>
    requires !FailureBeyondIds(ids, success)
    decreases |success|
  {
    if |success| == 0 then []
    else
      var n := |success| - 1;
      assert !FailureBeyondIds(ids, success[..n]) by {
        forall i | |ids| <= i < n ensures success[..n][i] {
          assert success[..n][i] == success[i];
        }
      }
      FailedIds(ids, success[..n]) + (if success[n] then [] else [ids[n]])
  }

  /** `sum(success)`: the number of episodes the replay got right. */
  function Successes(success: seq<bool>): (n: nat)
    ensures n <= |success|
    decreases |success|
  {
    if |success| == 0 then 0
    else Successes(success[..|success| - 1]) + (if success[|success| - 1] then 1 else 0)
  }

  /** `EpisodeReplayer.replay_episodes` after the batch replay: the failed ids
      are listed, then the score is the number of successes over the episode
      count, which `load_episodes` sets to the number of requested ids. */
  function ReplayScore(ids: seq<int>, success: seq<bool>): (r: Result<Replay, ScoreError>)
    ensures r == Err(IndexError) <==> exists i :: |ids| <= i < |success| && !success[i]
    ensures r == Err(ZeroDivision) <==> |ids| == 0 && |success| == 0
    ensures r == Err(NonFiniteScore) <==> |ids| == 0 && |success| > 0 && forall i :: 0 <= i < |success| ==> success[i]
    ensures r.Ok? <==> |ids| > 0 && forall i :: |ids| <= i < |success| ==> success[i]
    ensures r.Ok? ==> && r.value.failedIds == FailedIds(ids, success)
                      && r.value.score * |ids| as real == Successes(success) as real
  {
    if FailureBeyondIds(ids, success) then Err(IndexError)
    else if |ids| == 0 then (if |success| == 0 then Err(ZeroDivision) else Err(NonFiniteScore))
    else Ok(Replay(FailedIds(ids, success), Successes(success) as real / |ids| as real))
  }

  /** More results than ids is no error while the extra ones are successes:
      one requested id and two successes score 2. */
  lemma ExtraSuccessesCount()
    ensures ReplayScore([7], [true, true]) == Ok(Replay([], 2.0))
  {
    var success := [true, true];
    assert !FailureBeyondIds([7], success) by {
      forall i | 1 <= i < 2 ensures success[i] { }
    }
    assert success[..1] == [true] && [true][..0] == [];
    assert Successes(success) == 2;
    assert FailedIds([7], success) == [];
  }

  /** An id is listed as failed exactly when some episode with that id failed,
      and every episode is either counted a success or listed as failed. */
  lemma {:induction false} FailedIdsExact(ids: seq<int>, success: seq<bool>)
    requires !FailureBeyondIds(ids, success)
    ensures forall id :: id in FailedIds(ids, success) <==>
              exists i :: 0 <= i < |success| && i < |ids| && !success[i] && ids[i] == id
    ensures |FailedIds(ids, success)| + Successes(success) == |success|
    decreases |success|
  {
    if |success| > 0 {
      var n := |success| - 1;
      var init := success[..n];
      assert !FailureBeyondIds(ids, init) by {
        forall i | |ids| <= i < n ensures init[i] {
          assert init[i] == success[i];
        }
      }
      FailedIdsExact(ids, init);
      forall id ensures id in FailedIds(ids, success) <==>
                          exists i :: 0 <= i < |success| && i < |ids| && !success[i] && ids[i] == id {
        if exists i :: 0 <= i < |success| && i < |ids| && !success[i] && ids[i] == id {
          var i :| 0 <= i < |success| && i < |ids| && !success[i] && ids[i] == id;
          if i < n {
            assert init[i] == success[i];
          }
        }
        if id in FailedIds(ids, init) {
          var i :| 0 <= i < |init| && i < |ids| && !init[i] && ids[i] == id;
          assert success[i] == init[i];
        }
      }
    }
  }

  /** When every requested episode was replayed, the score is the pass rate:
      one minus the share of failed ids, between 0 and 1. */
  lemma ScoreIsPassRate(ids: seq<int>, success: seq<bool>)
    requires |success| == |ids| > 0
    ensures ReplayScore(ids, success).Ok?
    ensures var r := ReplayScore(ids, success).value;
            && r.score == 1.0 - |r.failedIds| as real / |ids| as real
            && 0.0 <= r.score <= 1.0
  {
    FailedIdsExact(ids, success);
    var r := ReplayScore(ids, success).value;
    assert r.score == Successes(success) as real / |ids| as real && r.failedIds == FailedIds(ids, success);
    PassRate(|ids| as real, Successes(success) as real, |FailedIds(ids, success)| as real);
  }

  /** With s + f == n > 0 and both parts nonnegative, s / n == 1 - f / n, a fraction. */
  lemma PassRate(n: real, s: real, f: real)
    requires n > 0.0 && s >= 0.0 && f >= 0.0 && s + f == n
    ensures s / n == 1.0 - f / n
    ensures 0.0 <= s / n <= 1.0
  {
    var q := f / n;
    Quotient(q, n, f);
    Quotient(1.0 - q, n, s);
    assert 0.0 <= q <= 1.0 by {
      assert q * n <= 1.0 * n;
    }
  }

  /** Real division undoes multiplication by a positive number. */
  lemma Quotient(q: real, n: real, a: real)
    requires n > 0.0 && a == q * n
    ensures a / n == q
  {
  }

  // ---------------------------------------------------------------------------
  // Grid search

  /** The values tried for one motor. */
  datatype MotorValues = MotorValues(motorId: int, values: seq<real>)

  function MotorIds(motors: seq<MotorValues>): (r: seq<int>)
    ensures |r| == |motors| && forall i :: 0 <= i < |motors| ==> r[i] == motors[i].motorId
  {
    seq(|motors|, i requires 0 <= i < |motors| => motors[i].motorId)
  }

  function ValueRanges(motors: seq<MotorValues>): (r: seq<seq<real>>)
    ensures |r| == |motors| && forall i :: 0 <= i < |motors| ==> r[i] == motors[i].values
  {
    seq(|motors|, i requires 0 <= i < |motors| => motors[i].values)
  }

  /** Each tail with x in front. */
  function Prepend(x: real, tails: seq<seq<real>>): (r: seq<seq<real>>)
    ensures |r| == |tails| && forall j :: 0 <= j < |tails| ==> r[j] == [x] + tails[j]
  {
    seq(|tails|, j requires 0 <= j < |tails| => [x] + tails[j])
  }

  /** Every head in `xs`, in order, combined with every tail. */
  function Combine(xs: seq<real>, tails: seq<seq<real>>): (r: seq<seq<real>>)
    ensures |r| == |xs| * |tails|
    decreases |xs|
  {
    if |xs| == 0 then [] else Prepend(xs[0], tails) + Combine(xs[1..], tails)
  }

  /** `itertools.product(*ranges)`: all combinations, the last range varying fastest. */
  function Product(ranges: seq<seq<real>>): seq<seq<real>>
    decreases |ranges|
  {
    if |ranges| == 0 then [[]] else Combine(ranges[0], Product(ranges[1..]))
  }

  /** The number of combinations. */
  function Size(ranges: seq<seq<real>>): nat
    decreases |ranges|
  {
    if |ranges| == 0 then 1 else |ranges[0]| * Size(ranges[1..])
  }

  /** The combinations are ordered lexicographically: the i-th head with the
      j-th tail sits at position i * |tails| + j. */
  lemma {:induction false} CombineAt(xs: seq<real>, tails: seq<seq<real>>, i: nat, j: nat)
    requires i < |xs| && j < |tails|
    ensures i * |tails| + j < |Combine(xs, tails)|
    ensures Combine(xs, tails)[i * |tails| + j] == [xs[i]] + tails[j]
    decreases i
  {
    var t := |tails|;
    var front := Prepend(xs[0], tails);
    var rest := Combine(xs[1..], tails);
    assert Combine(xs, tails) == front + rest;
    if i > 0 {
      var k := (i - 1) * t + j;
      CombineAt(xs[1..], tails, i - 1, j);
      assert i * t + j == t + k;
      assert (front + rest)[t + k] == rest[k];
    } else {
      assert (front + rest)[j] == front[j];
    }
  }

  /** A combination is a head from `xs` in front of a tail, and every such one is listed. */
  lemma {:induction false} CombineMembers(xs: seq<real>, tails: seq<seq<real>>, c: seq<real>)
    ensures c in Combine(xs, tails) <==> |c| > 0 && c[0] in xs && c[1..] in tails
    decreases |xs|
  {
    if |xs| > 0 {
      CombineMembers(xs[1..], tails, c);
      if |c| > 0 && c[1..] in tails {
        assert c == [c[0]] + c[1..];
      }
      if |c| > 0 && c[0] in xs && c[0] != xs[0] {
        assert c[0] in xs[1..];
      }
    }
  }

  lemma {:induction false} ProductLength(ranges: seq<seq<real>>)
    ensures |Product(ranges)| == Size(ranges)
    decreases |ranges|
  {
    if |ranges| > 0 {
      ProductLength(ranges[1..]);
    }
  }

  /** A combination takes one value from each range, and all are listed. */
  lemma {:induction false} ProductMembers(ranges: seq<seq<real>>, c: seq<real>)
    ensures c in Product(ranges) <==> |c| == |ranges| && forall i :: 0 <= i < |c| ==> c[i] in ranges[i]
    decreases |ranges|
  {
    if |ranges| > 0 {
      CombineMembers(ranges[0], Product(ranges[1..]), c);
      if |c| > 0 {
        ProductMembers(ranges[1..], c[1..]);
        if |c| == |ranges| && forall i :: 0 <= i < |c| ==> c[i] in ranges[i] {
          forall i | 0 <= i < |c| - 1 ensures c[1..][i] in ranges[1..][i] {
            assert c[1..][i] == c[i + 1];
          }
        }
        if c[1..] in Product(ranges[1..]) && c[0] in ranges[0] {
          forall i | 0 <= i < |c| ensures c[i] in ranges[i] {
            if i > 0 {
              assert c[i] == c[1..][i - 1];
            }
          }
        }
      }
    } else {
      assert c in [[]] <==> |c| == 0;
    }
  }

  /** There is nothing to search exactly when some motor has no values. */
  lemma {:induction false} ProductEmpty(ranges: seq<seq<real>>)
    ensures |Product(ranges)| == 0 <==> exists i :: 0 <= i < |ranges| && |ranges[i]| == 0
    decreases |ranges|
  {
    ProductLength(ranges);
    if |ranges| > 0 {
      ProductEmpty(ranges[1..]);
      ProductLength(ranges[1..]);
      if exists i :: 0 <= i < |ranges[1..]| && |ranges[1..][i]| == 0 {
        var i :| 0 <= i < |ranges[1..]| && |ranges[1..][i]| == 0;
        assert |ranges[i + 1]| == 0;
      }
      if exists i :: 0 <= i < |ranges| && |ranges[i]| == 0 {
        var i :| 0 <= i < |ranges| && |ranges[i]| == 0;
        if i > 0 {
          assert |ranges[1..][i - 1]| == 0;
        }
      }
    }
  }

  /** The motors' offsets written one after the other: for a motor listed twice
      the later value stays. */
  function Assign(ids: seq<int>, c: seq<real>): (m: map<int, real>)
    requires |c| == |ids|
    ensures m.Keys == set i | 0 <= i < |ids| :: ids[i]
    decreases |ids|
  {
    if |ids| == 0 then map[]
    else
      var n := |ids| - 1;
      var m := Assign(ids[..n], c[..n]);
      assert forall i :: 0 <= i < n ==> ids[..n][i] == ids[i];
      m[ids[n] := c[n]]
  }

  /** The offset table once a combination is written into it. */
  function Offsets(table: map<int, real>, motors: seq<MotorValues>, c: seq<real>): map<int, real>
    requires |c| == |motors|
  {
    table + Assign(MotorIds(motors), c)
  }

  /** Writing a combination overwrites every entry the previous one wrote. */
  lemma Overwrite(table: map<int, real>, motors: seq<MotorValues>, c1: seq<real>, c2: seq<real>)
    requires |c1| == |motors| && |c2| == |motors|
    ensures Offsets(Offsets(table, motors, c1), motors, c2) == Offsets(table, motors, c2)
  {
    var a1 := Assign(MotorIds(motors), c1);
    var a2 := Assign(MotorIds(motors), c2);
    assert a1.Keys == a2.Keys;
  }

  /** Position k of the combinations is the first one with the highest score. */
  ghost predicate FirstBest(scores: seq<real>, k: int) {
    && 0 <= k < |scores|
    && (forall j :: 0 <= j < |scores| ==> scores[j] <= scores[k])
    && (forall j :: 0 <= j < k ==> scores[j] < scores[k])
  }

  /** At most one position is the first best. */
  lemma FirstBestUnique(scores: seq<real>, k1: int, k2: int)
    requires FirstBest(scores, k1) && FirstBest(scores, k2)
    ensures k1 == k2
  {
    assert scores[k1] <= scores[k2] && scores[k2] <= scores[k1];
  }

  /** Among the first k scores, position b is the first best. */
  ghost predicate BestOf(scores: seq<real>, k: int, b: int) {
    && 0 <= b < k <= |scores|
    && (forall j :: 0 <= j < k ==> scores[j] <= scores[b])
    && (forall j :: 0 <= j < b ==> scores[j] < scores[b])
  }

  /** Looking at one more score: a strictly better one takes over, any other leaves the best. */
  lemma BestStep(scores: seq<real>, k: int, b: int)
    requires 0 <= k < |scores| && (k == 0 || BestOf(scores, k, b))
    ensures k == 0 || scores[k] > scores[b] ==> BestOf(scores, k + 1, k)
    ensures k > 0 && scores[k] <= scores[b] ==> BestOf(scores, k + 1, b)
  {
  }

  /** The score of every combination, each tried on the table it leaves behind. */
  function Scores(table: map<int, real>, motors: seq<MotorValues>, score: map<int, real> -> real): (s: seq<real>)
    ensures |s| == |Product(ValueRanges(motors))|
  {
    var combos := Product(ValueRanges(motors));
    seq(|combos|, k requires 0 <= k < |combos| =>
      if |combos[k]| == |motors| then score(Offsets(table, motors, combos[k])) else 0.0)
  }

  lemma CombinationWidth(motors: seq<MotorValues>, k: int)
    requires 0 <= k < |Product(ValueRanges(motors))|
    ensures |Product(ValueRanges(motors))[k]| == |motors|
  {
    ProductMembers(ValueRanges(motors), Product(ValueRanges(motors))[k]);
  }

  /** `EpisodeReplayer.grid_search`: every combination of offsets is written
      into the offset table and replayed, and the first strictly better score
      is kept. The table is left holding the last combination. */
  method GridSearch(motors: seq<MotorValues>, table: map<int, real>, score: map<int, real> -> real)
    returns (best: Option<seq<real>>, finalTable: map<int, real>)
    ensures var combos := Product(ValueRanges(motors));
            && (best.None? <==> |combos| == 0)
            && (best.Some? ==> exists k :: FirstBest(Scores(table, motors, score), k) && best.value == combos[k])
            && (|combos| > 0 ==> |combos[|combos| - 1]| == |motors|
                                  && finalTable == Offsets(table, motors, combos[|combos| - 1]))
            && (|combos| == 0 ==> finalTable == table)
  {
    var combos := Product(ValueRanges(motors));
    ghost var scores := Scores(table, motors, score);
    best := None;
    var bestScore: real := 0.0;
    ghost var bestIndex := 0;
    finalTable := table;
    for k := 0 to |combos|
      invariant best.None? <==> k == 0
      invariant k == 0 ==> finalTable == table
      invariant k > 0 ==> |combos[k - 1]| == |motors| && finalTable == Offsets(table, motors, combos[k - 1])
      invariant k > 0 ==> BestOf(scores, k, bestIndex) && best == Some(combos[bestIndex]) && bestScore == scores[bestIndex]
    {
      CombinationWidth(motors, k);
      if k > 0 {
        Overwrite(table, motors, combos[k - 1], combos[k]);
      }
      finalTable := finalTable + Assign(MotorIds(motors), combos[k]);
      assert finalTable == Offsets(table, motors, combos[k]);
      var s := score(finalTable);
      assert s == scores[k];
      BestStep(scores, k, bestIndex);
      if best.None? || s > bestScore {
        best := Some(combos[k]);
        bestScore := s;
        bestIndex := k;
      }
    }
    if best.Some? {
      assert FirstBest(scores, bestIndex);
    }
  }
}
