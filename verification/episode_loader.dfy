/** Loading recorded episodes: the dataset's rows are grouped by the requested
    episode ids, each episode's holding period is found, and the shortest
    episode length is kept as the common replay length. */
module EpisodeLoader {
  import opened Wrappers
  import opened HoldPeriod
  import opened Numeric

  /** One dataset row, reduced to what the loader uses. */
  datatype Row = Row(episodeIndex: int, frameIndex: int, frame: GripperFrame)

  datatype LoadError =
    | DuplicateId(id: int)                       // an id requested twice: its slot is stacked twice
    | EmptyEpisode(id: int)                      // no rows for a requested id: `vstack` of nothing
    | HoldNotFound(slot: nat, reason: HoldError) // the holding period of an episode is not unique
    | NoEpisodes                                 // `min` of no episode lengths

  datatype Loaded = Loaded(ids: seq<int>, episodes: seq<seq<Row>>, holds: seq<HoldState>, frameCount: nat)

  /** 0, 1, ..., n-1. */
  function Range(n: nat): (r: seq<int>)
    ensures |r| == n && forall i :: 0 <= i < n ==> r[i] == i
  {
    seq(n, i => i)
  }

  /** The requested ids: all episodes when none are given. */
  function RequestedIds(request: Option<seq<int>>, total: nat): (ids: seq<int>)
    ensures request.Some? ==> ids == request.value
    ensures request.None? ==> ids == Range(total)
  {
    if request.None? then Range(total) else request.value
  }

  /** `{ids[i]: i for i in range(len(ids))}`: a later position overwrites an earlier one. */
  function IndexMap(ids: seq<int>): (m: map<int, nat>)
    ensures m.Keys == set i | 0 <= i < |ids| :: ids[i]
    ensures forall id :: id in m ==> m[id] < |ids| && ids[m[id]] == id
    ensures forall id :: id in m ==> forall j :: m[id] < j < |ids| ==> ids[j] != id
    decreases |ids|
  {
    if |ids| == 0 then map[]
    else
      var m := IndexMap(ids[..|ids| - 1]);
      assert forall i :: 0 <= i < |ids| - 1 ==> ids[..|ids| - 1][i] == ids[i];
      m[ids[|ids| - 1] := |ids| - 1]
  }

  /** The slot of each requested id, as `load_episodes` builds it. */
  function SlotOf(request: Option<seq<int>>, total: nat): map<int, nat> {
    if request.None? then map id | id in Range(total) :: id as nat
    else IndexMap(request.value)
  }

  /** Both branches agree: without a request the slots are those of all ids in order. */
  lemma SlotOfAll(total: nat)
    ensures SlotOf(None, total) == IndexMap(Range(total))
  {
    var m := IndexMap(Range(total));
    forall id | id in m ensures m[id] == id {
      assert Range(total)[m[id]] == id;
    }
    assert m.Keys == set id | id in Range(total);
  }

  /** With distinct ids, each id gets its own position. */
  lemma SlotsOfDistinctIds(ids: seq<int>)
    requires forall i, j :: 0 <= i < j < |ids| ==> ids[i] != ids[j]
    ensures forall i :: 0 <= i < |ids| ==> ids[i] in IndexMap(ids) && IndexMap(ids)[ids[i]] == i
  {
    var m := IndexMap(ids);
    forall i | 0 <= i < |ids| ensures ids[i] in m && m[ids[i]] == i {
      assert ids[i] in m.Keys;
    }
  }

  /** The row loop of `load_episodes`: each row whose id has a slot is appended
      to that slot, in dataset order; other rows are skipped. */
  function Group(rows: seq<Row>, slots: map<int, nat>, count: nat): (g: seq<seq<Row>>)
    requires forall id :: id in slots ==> slots[id] < count
    ensures |g| == count
    decreases |rows|
  {
    if |rows| == 0 then seq(count, _ => [])
    else
      var g := Group(rows[..|rows| - 1], slots, count);
      var row := rows[|rows| - 1];
      if row.episodeIndex in slots then g[slots[row.episodeIndex] := g[slots[row.episodeIndex]] + [row]]
      else g
  }

  /** The rows of one slot, in dataset order. */
  function RowsOf(rows: seq<Row>, slots: map<int, nat>, slot: nat): (r: seq<Row>)
    ensures forall x :: x in r <==> x in rows && x.episodeIndex in slots && slots[x.episodeIndex] == slot
    decreases |rows|
  {
    if |rows| == 0 then []
    else
      var row := rows[|rows| - 1];
      RowsOf(rows[..|rows| - 1], slots, slot)
        + (if row.episodeIndex in slots && slots[row.episodeIndex] == slot then [row] else [])
  }

  /** Grouping is filtering: every slot holds exactly the rows of its id, in
      dataset order. */
  lemma {:induction false} GroupIsFilter(rows: seq<Row>, slots: map<int, nat>, count: nat)
    requires forall id :: id in slots ==> slots[id] < count
    ensures forall k :: 0 <= k < count ==> Group(rows, slots, count)[k] == RowsOf(rows, slots, k)
    decreases |rows|
  {
    if |rows| > 0 {
      GroupIsFilter(rows[..|rows| - 1], slots, count);
    }
  }

  /** The stacking loop: the first requested id that is repeated or has no rows. */
  function StackError(ids: seq<int>, slots: map<int, nat>, groups: seq<seq<Row>>, i: nat): (r: Option<LoadError>)
    requires i <= |ids|
    requires forall j :: 0 <= j < |ids| ==> ids[j] in slots && slots[ids[j]] < |groups|
    ensures r.None? <==> forall j :: i <= j < |ids| ==> ids[j] !in ids[..j] && |groups[slots[ids[j]]]| > 0
    decreases |ids| - i
  {
    if i == |ids| then None
    else if ids[i] in ids[..i] then Some(DuplicateId(ids[i]))
    else if |groups[slots[ids[i]]]| == 0 then Some(EmptyEpisode(ids[i]))
    else StackError(ids, slots, groups, i + 1)
  }

  /** The holding period of one episode. */
  function EpisodeHold(episode: seq<Row>, fps: int): Result<HoldState, HoldError> {
    HoldRange(HoldTrace(Frames(episode)), fps)
  }

  /** The detection result of every slot, in slot order. */
  function HoldResults(groups: seq<seq<Row>>, fps: int): (r: seq<Result<HoldState, HoldError>>)
    ensures |r| == |groups| && forall k :: 0 <= k < |groups| ==> r[k] == EpisodeHold(groups[k], fps)
  {
    seq(|groups|, k requires 0 <= k < |groups| => EpisodeHold(groups[k], fps))
  }

  /** The holding period of every slot, in slot order; the first failure stops it. */
  function Holds(groups: seq<seq<Row>>, fps: int): (r: Result<seq<HoldState>, LoadError>)
    ensures r.Ok? <==> forall k :: 0 <= k < |groups| ==> EpisodeHold(groups[k], fps).Ok?
    ensures r.Ok? ==> |r.value| == |groups| && forall k :: 0 <= k < |groups| ==> EpisodeHold(groups[k], fps) == Ok(r.value[k])
    ensures r.Err? ==> && r.error.HoldNotFound? && r.error.slot < |groups|
                       && EpisodeHold(groups[r.error.slot], fps) == Err(r.error.reason)
  {
    match CollectHolds(HoldResults(groups, fps), 0)
    case Ok(holds) => Ok(holds)
    case Err(f) => Err(HoldNotFound(f.slot, f.reason))
  }

  function Frames(rows: seq<Row>): (f: seq<GripperFrame>)
    ensures |f| == |rows| && forall i :: 0 <= i < |rows| ==> f[i] == rows[i].frame
  {
    seq(|rows|, i requires 0 <= i < |rows| => rows[i].frame)
  }

  /** `EpisodeLoader.load_episodes`, with the dataset's rows, its episode total
      and its frame rate as inputs. */
  function LoadEpisodes(request: Option<seq<int>>, total: nat, rows: seq<Row>, fps: int): Result<Loaded, LoadError> {
    var ids := RequestedIds(request, total);
    var slots := SlotOf(request, total);
    SlotsInRange(request, total);
    var groups := Group(rows, slots, |ids|);
    match StackError(ids, slots, groups, 0)
    case Some(e) => Err(e)
    case None =>
      var holds := Holds(groups, fps);
      if holds.Err? then Err(holds.error)
      else if |groups| == 0 then Err(NoEpisodes)
      else Ok(Loaded(ids, groups, holds.value, ShortestLength(groups)))
  }

  lemma SlotsInRange(request: Option<seq<int>>, total: nat)
    ensures forall id :: id in SlotOf(request, total) ==> SlotOf(request, total)[id] < |RequestedIds(request, total)|
    ensures forall id :: id in RequestedIds(request, total) ==> id in SlotOf(request, total)
  {
    if request.Some? {
      var ids := request.value;
      forall id | id in ids ensures id in IndexMap(ids) {
        var i :| 0 <= i < |ids| && ids[i] == id;
      }
    }
  }

  /** The slots of a load are those of the requested ids, and each one is in range. */
  lemma LoadSlots(request: Option<seq<int>>, total: nat)
    ensures var ids := RequestedIds(request, total);
            && SlotOf(request, total) == IndexMap(ids)
            && forall j :: 0 <= j < |ids| ==> ids[j] in IndexMap(ids) && IndexMap(ids)[ids[j]] < |ids|
  {
    SlotsInRange(request, total);
    if request.None? {
      SlotOfAll(total);
    }
  }

  /** The rows of the requested ids, grouped by their positions in the request. */
  function Grouped(ids: seq<int>, rows: seq<Row>): (g: seq<seq<Row>>)
    ensures |g| == |ids|
  {
    Group(rows, IndexMap(ids), |ids|)
  }

  /** The stacking loop over the requested ids and their groups. */
  function Stack(ids: seq<int>, rows: seq<Row>): Option<LoadError> {
    IdsSlotted(ids);
    StackError(ids, IndexMap(ids), Grouped(ids, rows), 0)
  }

  lemma IdsSlotted(ids: seq<int>)
    ensures forall j :: 0 <= j < |ids| ==> ids[j] in IndexMap(ids) && IndexMap(ids)[ids[j]] < |ids|
  {
    forall j | 0 <= j < |ids| ensures ids[j] in IndexMap(ids) {
      assert ids[j] in IndexMap(ids).Keys;
    }
  }

  /** A successful load passed the stacking loop and found every hold. */
  lemma LoadStages(request: Option<seq<int>>, total: nat, rows: seq<Row>, fps: int)
    requires LoadEpisodes(request, total, rows, fps).Ok?
    ensures var ids := RequestedIds(request, total);
            var groups := Grouped(ids, rows);
            && Stack(ids, rows).None?
            && Holds(groups, fps).Ok?
            && |ids| > 0
            && LoadEpisodes(request, total, rows, fps).value
               == Loaded(ids, groups, Holds(groups, fps).value, ShortestLength(groups))
  {
    LoadSlots(request, total);
    var ids := RequestedIds(request, total);
    var slots := SlotOf(request, total);
    assert slots == IndexMap(ids);
    var groups := Group(rows, slots, |ids|);
    assert groups == Grouped(ids, rows);
    var l := LoadEpisodes(request, total, rows, fps);
    assert StackError(ids, slots, groups, 0).None?;
    var holds := Holds(groups, fps);
    assert holds.Ok? && |groups| > 0;
    assert l == Ok(Loaded(ids, groups, holds.value, ShortestLength(groups)));
  }

  /** The stacking loop only lets distinct ids with rows through. */
  lemma StackedIdsDistinct(ids: seq<int>, rows: seq<Row>)
    requires Stack(ids, rows).None?
    ensures forall i, j :: 0 <= i < j < |ids| ==> ids[i] != ids[j]
    ensures forall i :: 0 <= i < |ids| ==> |Grouped(ids, rows)[i]| > 0
  {
    var slots := IndexMap(ids);
    var groups := Grouped(ids, rows);
    IdsSlotted(ids);
    assert StackError(ids, slots, groups, 0).None?;
    forall i, j | 0 <= i < j < |ids| ensures ids[i] != ids[j] {
      assert ids[i] in ids[..j];
    }
    SlotsOfDistinctIds(ids);
    forall i | 0 <= i < |ids| ensures |groups[i]| > 0 {
      assert |groups[slots[ids[i]]]| > 0;
    }
  }

  /** With distinct ids, slot i of the index map holds exactly the rows of ids[i]. */
  lemma SlotRows(ids: seq<int>, rows: seq<Row>, i: nat)
    requires forall i, j :: 0 <= i < j < |ids| ==> ids[i] != ids[j]
    requires i < |ids|
    ensures forall x :: x in RowsOf(rows, IndexMap(ids), i) <==> x in rows && x.episodeIndex == ids[i]
  {
    var slots := IndexMap(ids);
    SlotsOfDistinctIds(ids);
    forall x | x in rows && x.episodeIndex in slots && slots[x.episodeIndex] == i
      ensures x.episodeIndex == ids[i]
    {
      assert ids[slots[x.episodeIndex]] == x.episodeIndex;
    }
  }

  /** Once the stacking loop has passed, every slot holds exactly its id's rows. */
  lemma StackedGroups(ids: seq<int>, rows: seq<Row>)
    requires Stack(ids, rows).None?
    ensures var groups := Grouped(ids, rows);
            forall i :: 0 <= i < |ids| ==>
              && groups[i] == RowsOf(rows, IndexMap(ids), i)
              && |groups[i]| > 0
              && (forall x :: x in groups[i] <==> x in rows && x.episodeIndex == ids[i])
  {
    var groups := Grouped(ids, rows);
    GroupIsFilter(rows, IndexMap(ids), |ids|);
    StackedIdsDistinct(ids, rows);
    forall i | 0 <= i < |ids|
      ensures forall x :: x in groups[i] <==> x in rows && x.episodeIndex == ids[i]
    {
      SlotRows(ids, rows, i);
    }
  }

  /** What a successful load holds: one slot per requested id with exactly
      that id's rows in dataset order. */
  lemma LoadedEpisodes(request: Option<seq<int>>, total: nat, rows: seq<Row>, fps: int)
    requires LoadEpisodes(request, total, rows, fps).Ok?
    ensures var l := LoadEpisodes(request, total, rows, fps).value;
            && l.ids == RequestedIds(request, total)
            && |l.episodes| == |l.ids| > 0
            && (forall i :: 0 <= i < |l.ids| ==>
                  && l.episodes[i] == RowsOf(rows, IndexMap(l.ids), i)
                  && |l.episodes[i]| > 0
                  && (forall x :: x in l.episodes[i] <==> x in rows && x.episodeIndex == l.ids[i]))
  {
    LoadStages(request, total, rows, fps);
    var ids := RequestedIds(request, total);
    StackedGroups(ids, rows);
    var l := LoadEpisodes(request, total, rows, fps).value;
    assert l.ids == ids && l.episodes == Grouped(ids, rows);
  }

  /** Each loaded episode comes with its unique holding period, and the common
      frame count is the shortest episode's length. */
  lemma LoadedHolds(request: Option<seq<int>>, total: nat, rows: seq<Row>, fps: int)
    requires LoadEpisodes(request, total, rows, fps).Ok?
    ensures var l := LoadEpisodes(request, total, rows, fps).value;
            && |l.holds| == |l.episodes|
            && (forall i :: 0 <= i < |l.episodes| ==> EpisodeHold(l.episodes[i], fps) == Ok(l.holds[i]))
            && (forall i :: 0 <= i < |l.episodes| ==> l.frameCount <= |l.episodes[i]|)
            && (exists i :: 0 <= i < |l.episodes| && l.frameCount == |l.episodes[i]|)
  {
    LoadStages(request, total, rows, fps);
  }

  /** Without a request every episode of the dataset is loaded, in order. */
  lemma AllEpisodesByDefault(total: nat, rows: seq<Row>, fps: int)
    requires LoadEpisodes(None, total, rows, fps).Ok?
    ensures LoadEpisodes(None, total, rows, fps).value.ids == Range(total)
    ensures forall i, x :: 0 <= i < total ==>
              (x in LoadEpisodes(None, total, rows, fps).value.episodes[i] <==> x in rows && x.episodeIndex == i)
  {
    LoadedEpisodes(None, total, rows, fps);
  }

  /** Requesting an id twice is an error, whatever the rows. */
  lemma DuplicateRequestFails(id: int, total: nat, rows: seq<Row>, fps: int)
    ensures LoadEpisodes(Some([id, id]), total, rows, fps).Err?
  {
    var ids := [id, id];
    LoadSlots(Some(ids), total);
    var slots := IndexMap(ids);
    var groups := Group(rows, slots, 2);
    assert ids[..1] == [id];
    assert StackError(ids, slots, groups, 0).Some?;
  }
}
