# slobot asynchronous teleoperation core, in Dafny

This project models the sequential core of slobot's teleoperation pipeline
and of its episode tooling, and proves properties of that model. In the
pipeline, a leader arm drives a follower arm, cameras and a simulation
through worker processes that pass deadline-stamped messages to each other.

- **Shared-memory frame block** (`shared_memory_block.dfy`). This is the named
  byte region a camera producer uses to hand one image at a time to a
  detection consumer.
  - It has a one-byte state tag, FREE → WRITING → READY → READING → FREE.
  - A 9-byte header follows, holding the width and the height as unsigned
    32-bit integers.
  - The pixel data follows the header, always with 3 channels.
  - The module covers naming, creating, attaching, unlinking, `write_frame`
    and `read_frame`. It proves the header round trip, the frame round trip,
    that a busy block drops writes, and that a block at rest behaves as a
    one-slot mailbox.
- **Worker message loop** (`messages.dfy`, `worker_base.dfy`). This is
  `WorkerBase.run` over a sequence of poll results and an abstract `process`.
  - Its result is the trace of queue events and the way the loop exited.
  - Poison pills and recording ids are forwarded.
  - Input and output types are validated, resolved by worker name and then
    by name prefix.
  - Deadlines and steps are copied onto every output, and overruns are only
    logged.
  - Teardown runs whenever the loop stops, on a poison pill or an exception.
- **Concrete workers**:
  - the cron tick source (`cron_worker.dfy`);
  - the follower arm worker and its fan-out to the webcams and the simulation
    (`follower_control_worker.dfy`);
  - the object-detection consumer of a camera's block
    (`detect_objects_worker.dfy`).
- **Hold detection over gripper traces**:
  - the streaming `HoldStateDetector` (`hold_state_detector.dfy`);
  - the backward run-length scan `sustained_frame_range` with its trace
    (`hold_period.dfy`). `EpisodeLoader` and `EpisodeReplayer` carry identical
    copies of this scan, and it is modelled once;
  - the loader's grouping of dataset rows by requested episode
    (`episode_loader.dfy`);
  - the replayer's episode loading, replay score and grid search over
    calibration offsets (`episode_replayer.dfy`).

`wrappers.dfy` (`Option`, `Result`), `decimal.dfy` (the decimal rendering of
an integer, used in names and paths) and `numeric.dfy` (truncation of a real
toward zero, Python's `int(x)`, and the minimum over episode lengths that
both episode modules take) are support modules.

Devices, clocks, inference and the simulation are parameters:
- what the arm reads back is `arm(n)`;
- the clock after the n-th processed message is `finishedAt(n)`;
- the cron's clock readings are a sequence;
- the detector's results are `infer(frame)`;
- the replay's per-episode success and the grid search's score are inputs.

Where the system's documentation and its code differ, the model follows the
code:
- The follower and detection workers release their own resource before they
  close their queues. They disconnect the arm, or close the block handle,
  then call the base teardown.
- The detection worker's validation overrides accept every message type.

## Model

Source paths are relative to the repository root.

| member | source | states |
|---|---|---|
| SharedMemory.DecodeEncodeU32 | src/slobot/teleop/asyncprocessing/shared_memory_block.py:125-126 | reading back the four header bytes written for a width or height below 2^32 gives that value |
| SharedMemory.EncodeDecodeU32 | src/slobot/teleop/asyncprocessing/shared_memory_block.py:149-150 | any four header bytes are the encoding of the value read from them |
| SharedMemory.BlockName | src/slobot/teleop/asyncprocessing/shared_memory_block.py:32-41 | a camera's block name is "shm_webcam" followed by the camera id |
| SharedMemory.BlockNameInjective | src/slobot/teleop/asyncprocessing/shared_memory_block.py:32-41 | two camera ids give the same block name exactly when they are equal |
| SharedMemory.Create | src/slobot/teleop/asyncprocessing/shared_memory_block.py:44-63 | a size ≤ 0 fails first, as Python's `SharedMemory` checks it before it opens the name; a taken name fails; otherwise the name is added with a region of exactly that size whose state byte is FREE, and every other region is unchanged |
| SharedMemory.Attach | src/slobot/teleop/asyncprocessing/shared_memory_block.py:65-89 | an existing name is attached at its region's size and nothing changes; a missing name without a size is the ValueError; a missing name with a size is created |
| SharedMemory.Unlink | src/slobot/teleop/asyncprocessing/shared_memory_block.py:169-172 | the name disappears and every other region is unchanged; unlinking a missing name fails |
| SharedMemory.UnlinkUndoesCreate | src/slobot/teleop/asyncprocessing/shared_memory_block.py:169-172 | unlinking the block just created gives back the original namespace |
| SharedMemory.WriteFrame | src/slobot/teleop/asyncprocessing/shared_memory_block.py:91-133 | not FREE: False, region unchanged; wrong channel count or too large: False, region unchanged; True exactly when FREE and storable, leaving READY, width and height in the header, the pixels at offset 9 and the rest untouched; a FREE frame that passes both checks but has a dimension of 2^32 or more raises and leaves WRITING with the data untouched |
| SharedMemory.WriteArray | src/slobot/teleop/asyncprocessing/shared_memory_block.py:100-107 | a busy block drops an array of any shape; on a FREE block, an array that is not three-dimensional raises at the shape unpacking and leaves WRITING; a three-dimensional array is written as a frame of that shape |
| SharedMemory.RaisedWriteBlocks | src/slobot/teleop/asyncprocessing/shared_memory_block.py:100-105 | after a write raised, every later write is dropped and every read finds nothing ready |
| SharedMemory.ReadFrame | src/slobot/teleop/asyncprocessing/shared_memory_block.py:135-162 | not READY: None, region unchanged; READY with a header that fits: the width×height×3 bytes at offset 9, shaped by the header, and the state back to FREE; READY with a header that does not fit raises and leaves READING |
| SharedMemory.WriteReadRoundTrip | src/slobot/teleop/asyncprocessing/shared_memory_block.py:125-161 | from FREE, a successful write then a read returns the frame written and restores FREE, with all other bytes as the write left them |
| SharedMemory.SecondWriteDropped | src/slobot/teleop/asyncprocessing/shared_memory_block.py:101-102 | a second write without a read in between is dropped, and a reader still gets the first frame |
| SharedMemory.CreatedRegionCoherent | src/slobot/teleop/asyncprocessing/shared_memory_block.py:55-57 | a newly created region is coherent: READY always comes with a header that fits |
| SharedMemory.WritePreservesCoherent | src/slobot/teleop/asyncprocessing/shared_memory_block.py:124-133 | a write keeps a region coherent |
| SharedMemory.ReadPreservesCoherent | src/slobot/teleop/asyncprocessing/shared_memory_block.py:146-161 | a read keeps a region coherent |
| SharedMemory.CoherentReadNeverRaises | src/slobot/teleop/asyncprocessing/shared_memory_block.py:149-158 | on a coherent region a read never raises |
| SharedMemory.WriteIsSlotPut | src/slobot/teleop/asyncprocessing/shared_memory_block.py:91-133 | on a region at rest, a write succeeds exactly when no frame is pending and the frame is storable; the pending frame is then the one written, and otherwise it is unchanged |
| SharedMemory.ReadIsSlotTake | src/slobot/teleop/asyncprocessing/shared_memory_block.py:135-162 | on a region at rest, a read returns the pending frame, or None if there is none, and leaves nothing pending |
| WorkerBase.FirstPrefix | src/slobot/teleop/asyncprocessing/workers/worker_base.py:244-246 | returns no prefix exactly when none matches the name, and otherwise the first prefix in list order that matches |
| WorkerBase.ResolutionOrder | src/slobot/teleop/asyncprocessing/workers/worker_base.py:237-261 | expected types are resolved by the exact name, then by "webcam", then by "detect_objects", and otherwise are unknown, which fails validation |
| WorkerBase.DynamicWorkerTypes | src/slobot/teleop/asyncprocessing/workers/worker_base.py:44-65 | "webcam2" expects EMPTY in and BGR out; "detect_objects4" expects OBJECT_DETECTION in and EMPTY out; "teleop" is unknown |
| WorkerBase.Present | src/slobot/teleop/asyncprocessing/workers/worker_base.py:82 | a queue is kept exactly when it is present in the list |
| WorkerBase.NewWorker | src/slobot/teleop/asyncprocessing/workers/worker_base.py:67-90 | the worker keeps its name and input, and its outputs are exactly the present queues |
| WorkerBase.BaseHooks | src/slobot/teleop/asyncprocessing/workers/worker_base.py:192-204 | the default publishing writes only data messages stamped with the given deadline and step; validation accepts exactly the expected type |
| WorkerBase.Run | src/slobot/teleop/asyncprocessing/workers/worker_base.py:92-149 | the events start with the setup; once the loop has exited they end with the teardown, whatever the exit |
| WorkerBase.EmptyPollSkipped | src/slobot/teleop/asyncprocessing/workers/worker_base.py:102-103 | an empty poll result changes nothing |
| WorkerBase.PoisonPillStops | src/slobot/teleop/asyncprocessing/workers/worker_base.py:110-112 | a poison pill writes one pill to every output in order and stops the loop without processing |
| WorkerBase.RecordingIdForwarded | src/slobot/teleop/asyncprocessing/workers/worker_base.py:113-116 | a recording id goes to every output and the loop goes on, with no validation, processing or publishing |
| WorkerBase.InputMismatchFails | src/slobot/teleop/asyncprocessing/workers/worker_base.py:119 | a rejected input type fails the loop before anything is processed or written |
| WorkerBase.OutputMismatchFails | src/slobot/teleop/asyncprocessing/workers/worker_base.py:125 | a rejected result type fails the loop before anything is written |
| WorkerBase.BaseDataPublished | src/slobot/teleop/asyncprocessing/workers/worker_base.py:131-136 | a valid data message's result goes once to every output in order with the input's deadline and step; a late finish only adds the overrun log line first |
| WorkerBase.WritesTraceBackToPolls | src/slobot/teleop/asyncprocessing/workers/worker_base.py:136 | every data message written carries the deadline and step of some polled data message; every recording id written was polled; a pill is written only when a pill stopped the loop |
| WorkerBase.OverrunOnlyLogged | src/slobot/teleop/asyncprocessing/workers/worker_base.py:131-133 | whatever the clock reads, the loop writes the same messages and exits the same way |
| WorkerBase.ShutdownForwarded | src/slobot/teleop/asyncprocessing/workers/worker_base.py:206-210 | a loop stopped by a pill ends with exactly one pill per output, in order, and has written no pill before |
| WorkerBase.BaseTeardownLast | src/slobot/teleop/asyncprocessing/workers/worker_base.py:168-173 | after any exit, the base teardown closes the input queue and then every output queue, in order, as the last events |
| CronWorker.NewCron | src/slobot/teleop/asyncprocessing/workers/cron_worker.py:22-41 | a zero rate is the division error; otherwise period × fps = 1 |
| CronWorker.Iteration | src/slobot/teleop/asyncprocessing/workers/cron_worker.py:57-76 | one tick, with the step and the deadline start + period; a sleep follows exactly when the write took less than the period, for the rest of it, and is always positive |
| CronWorker.IterationTicks | src/slobot/teleop/asyncprocessing/workers/cron_worker.py:55-78 | one tick per iteration, with steps consecutive from the first |
| CronWorker.IterationEvents | src/slobot/teleop/asyncprocessing/workers/cron_worker.py:64-76 | the iterations only write data to the leader queue and sleep for positive times |
| CronWorker.RunTicks | src/slobot/teleop/asyncprocessing/workers/cron_worker.py:43-78 | the queue is opened and the recording id sent before any tick; tick k carries step k and deadline start_k + period |
| CronWorker.RunEvents | src/slobot/teleop/asyncprocessing/workers/cron_worker.py:83-96 | nothing is opened for reading and sleeps are positive; only the leader queue is closed, as the last event, exactly when an exception ended the loop |
| FollowerControlWorker.OutputQueues | src/slobot/teleop/asyncprocessing/workers/follower_control_worker.py:41-44 | the outputs are the webcam queues followed by the simulation queue, which is there only if given |
| FollowerControlWorker.Base | src/slobot/teleop/asyncprocessing/workers/follower_control_worker.py:46-50 | the worker is named "follower", and a queue is an output exactly when it is a webcam queue or the simulation queue |
| FollowerControlWorker.FanOut | src/slobot/teleop/asyncprocessing/workers/follower_control_worker.py:98-106 | every webcam gets an empty trigger, then the simulation gets the positions without the forces, all with the input's deadline and step |
| FollowerControlWorker.FollowerHooks | src/slobot/teleop/asyncprocessing/workers/follower_control_worker.py:54-70 | accepts POS in and POS_FORCE out; stamps what it publishes; connects the arm after the base setup; disconnects it before the base teardown |
| FollowerControlWorker.FollowerProcess | src/slobot/teleop/asyncprocessing/workers/follower_control_worker.py:72-91 | the result is always POS_FORCE, with the positions read back and the forces read back, each truncated toward zero |
| FollowerControlWorker.PositionsFannedOut | src/slobot/teleop/asyncprocessing/workers/follower_control_worker.py:98-106 | in the loop, a POS message triggers every webcam in order and then sends the read-back positions to the simulation, with the input's deadline and step |
| FollowerControlWorker.NonPositionsRejected | src/slobot/teleop/asyncprocessing/workers/worker_base.py:119-122 | any non-control message other than POS stops the follower before the arm is commanded |
| FollowerControlWorker.ArmConnectedAfterOpen | src/slobot/teleop/asyncprocessing/workers/follower_control_worker.py:54-64 | the arm is connected only after the input and all outputs are open |
| FollowerControlWorker.ArmDisconnectedBeforeClose | src/slobot/teleop/asyncprocessing/workers/follower_control_worker.py:66-70 | after any exit, the arm is disconnected, then the input is closed, then every output |
| DetectObjectsWorker.TaskByName | src/slobot/teleop/asyncprocessing/workers/detect_objects_workers.py:13-19 | only "DETECT" and "POSE" name a task; any other name is the KeyError |
| DetectObjectsWorker.NewDetectWorker | src/slobot/teleop/asyncprocessing/workers/detect_objects_workers.py:31-60 | construction fails exactly for an unknown task name |
| DetectObjectsWorker.AttachCameraBlock | src/slobot/teleop/asyncprocessing/workers/detect_objects_workers.py:69-75 | attaches to the camera's block at its existing size, or creates it with 9 + width·height·3 bytes |
| DetectObjectsWorker.ConsumerSharesProducerBlock | src/slobot/teleop/asyncprocessing/workers/detect_objects_workers.py:73-75 | after the producer created the block, the consumer attaches to it at the producer's size, whatever shape it was configured with |
| DetectObjectsWorker.CamerasUseDistinctBlocks | src/slobot/teleop/asyncprocessing/workers/detect_objects_workers.py:74-75 | workers of different cameras use different blocks |
| DetectObjectsWorker.DetectHooks | src/slobot/teleop/asyncprocessing/workers/detect_objects_workers.py:62-81 | accepts every type (the validation overrides at lines 153-161); publishes nothing; attaches the block after opening the input; closes the block, never unlinking it, before closing the input |
| DetectObjectsWorker.FirstResult | src/slobot/teleop/asyncprocessing/workers/detect_objects_workers.py:98-102 | the first result is kept, or none when the model returned none |
| DetectObjectsWorker.DetectStep | src/slobot/teleop/asyncprocessing/workers/detect_objects_workers.py:93-102 | reads the block; inference sees the frame read, or None; the step raises exactly when the read does |
| DetectObjectsWorker.DetectConsumesPending | src/slobot/teleop/asyncprocessing/workers/detect_objects_workers.py:93-102 | on a block at rest, inference sees exactly the pending frame, and the block is left at rest with nothing pending |
| DetectObjectsWorker.DetectProcess | src/slobot/teleop/asyncprocessing/workers/detect_objects_workers.py:83-102 | the result type is always EMPTY; processing raises exactly when the block read raises |
| DetectObjectsWorker.DetectLoopNeverRejects | src/slobot/teleop/asyncprocessing/workers/detect_objects_workers.py:153-161 | the loop writes nothing but overrun logs and never fails validation; leaving `publish_data` aside, it fails only on a read of an incoherent block |
| DetectObjectsWorker.ClassLabels | src/slobot/teleop/asyncprocessing/workers/detect_objects_workers.py:122-124 | the labels are the names of the boxes' truncated class ids, in order; it fails exactly when some id has no name, and reports the first such id |
| DetectObjectsWorker.KeptOf | src/slobot/teleop/asyncprocessing/workers/detect_objects_workers.py:141-144 | a point is kept exactly when it is in the list and both of its coordinates are nonzero |
| DetectObjectsWorker.KeptOfAppend | src/slobot/teleop/asyncprocessing/workers/detect_objects_workers.py:141-144 | the filter keeps the original order within a person |
| DetectObjectsWorker.KeptPoints | src/slobot/teleop/asyncprocessing/workers/detect_objects_workers.py:140-144 | only kept points are logged |
| DetectObjectsWorker.KeptPointsMembership | src/slobot/teleop/asyncprocessing/workers/detect_objects_workers.py:140-144 | a point is logged exactly when some person has it and it is kept |
| DetectObjectsWorker.KeptPointsAppend | src/slobot/teleop/asyncprocessing/workers/detect_objects_workers.py:140-144 | people are filtered in order, one after another |
| DetectObjectsWorker.DetectLog | src/slobot/teleop/asyncprocessing/workers/detect_objects_workers.py:104-151 | a missing or empty result logs nothing; detect logs the boxes with their labels, or fails on an unknown class; pose logs at most one record, the kept keypoints, and only when there are any |
| DetectObjectsWorker.PoseLogged | src/slobot/teleop/asyncprocessing/workers/detect_objects_workers.py:133-151 | a pose worker logs a record exactly when the result has boxes and keypoints, and some keypoint has both coordinates nonzero |
| HoldStateDetector.GripperDiff | src/slobot/lerobot/hold_state_detector.py:19 | the error of each frame is follower − leader, broadcasting a single value; unequal lengths where neither side is 1 are the size error |
| HoldStateDetector.ReplayTeleop | src/slobot/lerobot/hold_state_detector.py:18-21 | a fresh detector is fed the errors in frame order; it fails exactly when the subtraction does |
| HoldStateDetector.DetectSummarises | src/slobot/lerobot/hold_state_detector.py:23-35 | after any prefix of frames, the count is the length of the trailing run above the threshold, pick is the first start of 4 frames above it, and place is the first frame ending a longer run |
| HoldStateDetector.DetectorFinds | src/slobot/lerobot/hold_state_detector.py:23-38 | the reported pick is the first frame that starts 4 frames above the threshold, and place is the first frame not above it after more than 4 that are; each is None if there is none |
| HoldStateDetector.PlaceAfterPick | src/slobot/lerobot/hold_state_detector.py:24-33 | when a place is reported, a pick is too, and it comes strictly before |
| HoldStateDetector.ExactRunPicksOnly | src/slobot/lerobot/hold_state_detector.py:27-33 | a run of exactly 4 frames sets the pick at its start and no place |
| HoldStateDetector.LongerRunPlaces | src/slobot/lerobot/hold_state_detector.py:23-35 | a run of 5 frames sets the pick at its start and the place at the frame that ends it |
| HoldPeriod.HoldTrace | src/slobot/lerobot/episode_loader.py:78-86 | the trace has max(0, n − 4) entries, and entry i is 1 exactly when state[i+4] − action[i] > 10, otherwise 0; the replayer's copy is at episode_replayer.py lines 278-286 |
| HoldPeriod.RunLength | src/slobot/lerobot/episode_loader.py:99-109 | the reference count of consecutive 1s from frame i: all of them are 1 and the next is not |
| HoldPeriod.RunLengthOnes | src/slobot/lerobot/episode_loader.py:99-109 | every frame of the counted run is a 1 |
| HoldPeriod.BackwardScan | src/slobot/lerobot/episode_loader.py:91-109 | after the scan, counter[i] is the run length from i, and the collected starts are the qualifying run starts after frame 0, each with its run's last frame |
| HoldPeriod.SustainedFrameRange | src/slobot/lerobot/episode_loader.py:88-121 | the scan as written returns the reference result: an empty trace fails, more or fewer than one qualifying run fails, and otherwise it returns that run's first and last frames |
| HoldPeriod.StartsMembers | src/slobot/lerobot/episode_loader.py:103-116 | a frame is reported as a start exactly when a maximal run of at least fps 1s begins there, including at frame 0 |
| HoldPeriod.StartsDescending | src/slobot/lerobot/episode_loader.py:103-116 | starts are reported latest first and strictly decreasing, so each run is reported once |
| HoldPeriod.HoldRangeOkIffUnique | src/slobot/lerobot/episode_replayer.py:319-320 | detection succeeds exactly when there is one qualifying run |
| HoldPeriod.HoldRangeIsMaximalRun | src/slobot/lerobot/episode_replayer.py:288-322 | a reported hold is a maximal run of at least fps 1s from pick to place, with pick ≤ place when fps ≥ 1 |
| HoldPeriod.TwoHoldsFail | src/slobot/lerobot/episode_loader.py:118-119 | two separate one-second holds make the detection fail |
| HoldPeriod.CollectHolds | src/slobot/lerobot/episode_loader.py:68-71 | the holds are collected in order and the search stops at the first episode whose detection fails: the result is Ok exactly when every detection succeeded, and a failure names the first failing slot and its reason |
| EpisodeLoader.RequestedIds | src/slobot/lerobot/episode_loader.py:30-36 | the requested ids are 0 .. total−1 when none are given |
| EpisodeLoader.IndexMap | src/slobot/lerobot/episode_loader.py:38-43 | the map's keys are the requested ids, and each is mapped to its last position in the request |
| EpisodeLoader.SlotOfAll | src/slobot/lerobot/episode_loader.py:31-37 | without a request, the identity map equals the index map of all ids |
| EpisodeLoader.SlotsOfDistinctIds | src/slobot/lerobot/episode_loader.py:38-43 | with distinct ids, ids[i] is mapped to i |
| EpisodeLoader.RowsOf | src/slobot/lerobot/episode_loader.py:53-60 | the reference filter: a row belongs to a slot exactly when its episode id maps to that slot |
| EpisodeLoader.GroupIsFilter | src/slobot/lerobot/episode_loader.py:53-60 | the row loop puts exactly the filtered rows in each slot, in dataset order |
| EpisodeLoader.StackError | src/slobot/lerobot/episode_loader.py:62-66 | stacking succeeds exactly when no requested id repeats an earlier one and every requested episode has rows |
| EpisodeLoader.Holds | src/slobot/lerobot/episode_loader.py:68-71 | on success, each slot's hold is its episode's unique holding period; on failure, some episode has none |
| Numeric.ShortestLength | src/slobot/lerobot/episode_loader.py:73-76 | the frame count is no longer than any episode and equal to one of them; the replayer takes the same minimum at episode_replayer.py lines 120-123 |
| EpisodeLoader.LoadSlots | src/slobot/lerobot/episode_loader.py:30-43 | the slot map is the index map of the requested ids, and every slot is in range |
| EpisodeLoader.LoadStages | src/slobot/lerobot/episode_loader.py:29-76 | a successful load got through stacking and found every hold, and its result is built from these |
| EpisodeLoader.StackedIdsDistinct | src/slobot/lerobot/episode_loader.py:62-66 | after stacking, the ids are distinct and every episode has rows |
| EpisodeLoader.StackedGroups | src/slobot/lerobot/episode_loader.py:53-66 | after stacking, each slot holds the filtered rows of its id, which are not empty, and a row is in the slot exactly when it belongs to that id |
| EpisodeLoader.LoadedEpisodes | src/slobot/lerobot/episode_loader.py:29-66 | after a load, there is one episode per requested id, holding exactly that id's rows in dataset order, and none is empty |
| EpisodeLoader.LoadedHolds | src/slobot/lerobot/episode_loader.py:68-76 | after a load, each episode's hold is its unique holding period, and the frame count is the shortest episode's length |
| EpisodeLoader.AllEpisodesByDefault | src/slobot/lerobot/episode_loader.py:31-37 | without a request, episode i holds exactly the rows of episode i |
| EpisodeLoader.DuplicateRequestFails | src/slobot/lerobot/episode_loader.py:62-66 | requesting the same id twice fails, whatever the rows |
| EpisodeReplayer.RequestedIds | src/slobot/lerobot/episode_replayer.py:93-98 | the requested ids are 0 .. total−1 when none are given |
| EpisodeReplayer.FirstEmpty | src/slobot/lerobot/episode_replayer.py:105-108 | finds the first episode without rows, or none when every episode has rows |
| EpisodeReplayer.HoldsOf | src/slobot/lerobot/episode_replayer.py:115-118 | each episode's hold is its unique holding period; a failure names an episode whose detection failed, and why |
| EpisodeReplayer.LoadedEpisodes | src/slobot/lerobot/episode_replayer.py:92-123 | the load succeeds exactly when some id is requested and every requested episode has a unique holding period; it then holds those periods in request order and the shortest length |
| EpisodeReplayer.LoadSucceeds | src/slobot/lerobot/episode_replayer.py:92-118 | the load succeeds exactly when some id is requested and every requested episode has a unique holding period |
| EpisodeReplayer.LoadResult | src/slobot/lerobot/episode_replayer.py:110-123 | a successful load holds the requested ids, each one's holding period in request order, and the length of the shortest requested episode |
| EpisodeReplayer.EmptyEpisodeFirst | src/slobot/lerobot/episode_replayer.py:105-108 | an episode without rows fails the load before any hold is searched, naming the first such id |
| EpisodeReplayer.ReplayScore | src/slobot/lerobot/episode_replayer.py:125-134 | a failed result beyond the requested ids is the index error, since only failures read an id; no results and no ids is the division error; results but no ids divide a tensor by zero; otherwise the failed ids are listed and score × id count = the number of successes |
| EpisodeReplayer.ExtraSuccessesCount | src/slobot/lerobot/episode_replayer.py:128-132 | one id with two successes lists no failures and scores 2 |
| EpisodeReplayer.FailedIdsExact | src/slobot/lerobot/episode_replayer.py:129 | an id is listed as failed exactly when some result at a requested position with that id failed, and every episode counts either as a success or as a failed id |
| EpisodeReplayer.ScoreIsPassRate | src/slobot/lerobot/episode_replayer.py:132 | with one result per episode, the score is 1 − failed/count, between 0 and 1 |
| EpisodeReplayer.CombineAt | src/slobot/lerobot/episode_replayer.py:386 | combinations come in lexicographic order: the i-th head with the j-th tail is at position i·|tails| + j |
| EpisodeReplayer.ProductLength | src/slobot/lerobot/episode_replayer.py:386 | the number of combinations is the product of the range lengths |
| EpisodeReplayer.ProductMembers | src/slobot/lerobot/episode_replayer.py:386 | a sequence is a combination exactly when it takes one value from each range, in motor order |
| EpisodeReplayer.ProductEmpty | src/slobot/lerobot/episode_replayer.py:386 | there is no combination exactly when some motor has no values |
| EpisodeReplayer.Overwrite | src/slobot/lerobot/episode_replayer.py:387-389 | writing a combination overwrites every offset the previous one wrote |
| EpisodeReplayer.FirstBestUnique | src/slobot/lerobot/episode_replayer.py:392-394 | the first best position is unique |
| EpisodeReplayer.GridSearch | src/slobot/lerobot/episode_replayer.py:370-395 | None exactly when there is no combination; otherwise the first combination with the highest score; the offset table is left holding the last combination |

## Left out

- The queue implementation (`FifoQueue`) is not part of this model. Its
  framing, its "latest wins" draining and its pipe rendezvous are left out. A
  worker's input is the sequence of poll results, and its outputs are the
  events it emits. Message types are a datatype with no numeric codes.
- Telemetry is left out: `publish_data`'s logging inside the loop,
  `publish_metrics`, `setup_metrics` and `init_rerun`. The detection worker's
  logging is modelled separately, as `DetectLog`.
- DetectObjectsWorker.DetectLoopNeverRejects: the modelled loop does not call
  `publish_data`. In the source it runs inside the loop's `try`, so the
  detection worker's `KeyError` on an unknown class id would end the loop,
  followed by the teardown. `DetectLog` models that failure on its own, and
  the lemma says nothing about it.
- Frames are `uint8` arrays. For another dtype, `tobytes()` yields itemsize
  bytes per element, and `read_frame` would read them back as `uint8`; this
  is not modelled. `WriteArray` does model arrays of other ranks.
- Wall-clock time and `sleep` are inputs. A run whose polls run out stops
  in the `Waiting` exit, where the real loop would block, so no teardown is
  emitted for it.
- Exceptions raised by a worker's setup are not modelled. They happen outside
  the `try`, so no teardown follows them.
- The motor bus, the YOLO model and the simulation are parameters. The
  follower's `control_position` command is not traced.
- The rigid-body physics, the conversion of positions to radians with
  clamping, and the replay's success test are left out. The replay's success
  list and the grid search's score function are inputs.
- The replayer's dataset and data-loader I/O is an input function. The
  grid's `torch.arange` generation is left out because it is floating-point
  stepping; each motor's values are an input sequence.
- The offset tensor is modelled as a map from motor id to offset. Its
  six-entry bounds and Python's negative indexing are not modelled.
- Gripper positions are integers in the hold-detection models. The source
  compares floating-point tensors with the same thresholds.
- Only the gripper joint is used. The other joints and columns a loaded
  episode carries are left out.
- An ultralytics result's truthiness is modelled as having at least one box.
- NaN scores are not modelled: a score is a real number, and every real
  number beats the initial −∞. A replay score divided by zero episodes is
  inf or nan, and the model reports it as `NonFiniteScore`.
- `SharedMemoryBlock.close` only releases the local handle and changes no
  named region. The model records it as the detection worker's `CloseBlock`
  device event.
- FollowerControlWorker.ResultPositions: when a follower result is not a
  (positions, forces) pair, the model passes no payload on. The source would
  fail to unpack it. `FollowerProcess` always returns a pair.
- EpisodeLoader.StackError: a repeated id is reported as `DuplicateId` when
  it is stacked the second time. The source fails there too, either in
  `vstack` or when the slot left unfilled is used. The exact exception is
  not modelled.
