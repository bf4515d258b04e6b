/** The object-detection worker: a consumer of one camera's shared-memory
    block. Each signal on its input queue makes it take the pending frame (if
    any) out of the block, run inference on it and log what was found. It has
    no output queues and accepts every message type.

    Inference is a parameter: `infer(frame)` is the list of results the model
    returns for a frame, or for `None` when no frame was pending. */
module DetectObjectsWorker {
  import opened Wrappers
  import opened Decimal
  import opened Numeric
  import opened Messages
  import opened WorkerBase
  import opened SharedMemory

  // ---------------------------------------------------------------------------
  // Configuration

  datatype Task = Detect | Pose

  /** `DetectionTask[name]`: lookup by member name; `None` is the KeyError. */
  function TaskByName(name: string): (t: Option<Task>)
    ensures t.Some? <==> name == "DETECT" || name == "POSE"
    ensures t == Some(Detect) <==> name == "DETECT"
  {
    if name == "DETECT" then Some(Detect) else if name == "POSE" then Some(Pose) else None
  }

  /** The task's value and the model weights it loads. */
  function TaskValue(t: Task): string {
    match t
    case Detect => "detect"
    case Pose => "pose"
  }

  function ModelFile(t: Task): string {
    match t
    case Detect => "yolo26n.pt"
    case Pose => "yolo26n-pose.pt"
  }

  datatype DetectWorker = DetectWorker(name: string, input: Queue, cameraId: int, task: Task, width: int, height: int)

  /** `DetectObjectsWorker.__init__`; `None` is the KeyError of an unknown task name. */
  function NewDetectWorker(name: string, input: Queue, cameraId: int, taskName: string,
                           width: int, height: int): (r: Option<DetectWorker>)
    ensures r.None? <==> TaskByName(taskName).None?
    ensures r.Some? ==> r.value == DetectWorker(name, input, cameraId, TaskByName(taskName).value, width, height)
  {
    match TaskByName(taskName)
    case None => None
    case Some(t) => Some(DetectWorker(name, input, cameraId, t, width, height))
  }

  /** The base worker: no output queues at all. */
  function Base(d: DetectWorker): Worker {
    Worker(d.name, d.input, [])
  }

  /** The block size the consumer asks for: the header plus one frame of its configured shape. */
  function ExpectedBlockSize(d: DetectWorker): int {
    HeaderSize + d.width * d.height * Channels
  }

  /** `DetectObjectsWorker.setup` on the shared-memory namespace: attach to the
      camera's block, creating it with the expected size if it is missing. */
  function AttachCameraBlock(d: DetectWorker, ns: Namespace): (r: Result<Opened, OpenError>)
    ensures BlockName(d.cameraId) in ns ==>
              r == Ok(Opened(ns, Block(BlockName(d.cameraId), |ns[BlockName(d.cameraId)]|)))
    ensures BlockName(d.cameraId) !in ns ==> r == Create(ns, BlockName(d.cameraId), ExpectedBlockSize(d))
  {
    Attach(ns, BlockName(d.cameraId), Some(ExpectedBlockSize(d)))
  }

  /** A consumer that starts after the producer created the block of the same
      camera shares that block, at the producer's size, whatever shape the
      consumer was configured with; the namespace is not changed. */
  lemma ConsumerSharesProducerBlock(d: DetectWorker, ns: Namespace, producerSize: int)
    requires Create(ns, BlockName(d.cameraId), producerSize).Ok?
    ensures var shared := Create(ns, BlockName(d.cameraId), producerSize).value.namespace;
            AttachCameraBlock(d, shared) == Ok(Opened(shared, Block(BlockName(d.cameraId), producerSize)))
  {
  }

  /** Blocks of different cameras never collide. */
  lemma CamerasUseDistinctBlocks(d1: DetectWorker, d2: DetectWorker)
    requires d1.cameraId != d2.cameraId
    ensures BlockName(d1.cameraId) != BlockName(d2.cameraId)
  {
    BlockNameInjective(d1.cameraId, d2.cameraId);
  }

  /** Accept every input and output type; publish nothing (there are no outputs);
      attach the block after opening the queues, close it (never unlink it)
      before closing the input queue. */
  function DetectHooks(d: DetectWorker): (h: Hooks)
    ensures PublishesStamped(h)
    ensures forall t :: h.acceptsInput(t) && h.acceptsOutput(t)
    ensures forall t, p, dl, s :: h.publishOutputs(t, p, dl, s) == []
    ensures h.setup == [OpenRead(d.input), Device(AttachBlock(BlockName(d.cameraId), ExpectedBlockSize(d)))]
    ensures h.teardown == [Device(CloseBlock(BlockName(d.cameraId))), Close(d.input)]
  {
    Hooks(
      t => true,
      t => true,
      (t, p, dl, s) => BasePublish([], t, p, dl, s),
      BaseSetup(Base(d)) + [Device(AttachBlock(BlockName(d.cameraId), ExpectedBlockSize(d)))],
      [Device(CloseBlock(BlockName(d.cameraId)))] + BaseTeardown(Base(d)))
  }

  // ---------------------------------------------------------------------------
  // Processing one signal

  datatype Box = Box(x1: real, y1: real, x2: real, y2: real, cls: real)
  datatype Point = Point(x: real, y: real)

  /** One inference result: boxes with class ids, the class-name table, and
      per-person keypoints (present for pose models). */
  datatype Detections = Detections(boxes: seq<Box>, names: map<int, string>, keypoints: Option<seq<seq<Point>>>)

  /** The first result, if the model returned any. */
  function FirstResult(results: seq<Detections>): (r: Option<Detections>)
    ensures r.None? <==> |results| == 0
    ensures r.Some? ==> r.value == results[0]
  {
    if |results| == 0 then None else Some(results[0])
  }

  datatype StepOutcome = Detected(result: Option<Detections>) | StepRaised
  datatype StepResult = StepResult(outcome: StepOutcome, region: Region)

  /** `DetectObjectsWorker.process` on the block's region: read the frame, run
      inference on it (on `None` if none was pending), keep the first result. */
  function DetectStep(region: Region, infer: Option<Image> -> seq<Detections>): (r: StepResult)
    ensures r.region == ReadFrame(region).region
    ensures r.outcome.StepRaised? <==> ReadFrame(region).outcome.ReadRaised?
    ensures ReadFrame(region).outcome.Read? ==>
              r.outcome == Detected(FirstResult(infer(Some(ReadFrame(region).outcome.image))))
    ensures ReadFrame(region).outcome.NotReady? ==> r.outcome == Detected(FirstResult(infer(None)))
  {
    var read := ReadFrame(region);
    match read.outcome
    case ReadRaised => StepResult(StepRaised, read.region)
    case NotReady => StepResult(Detected(FirstResult(infer(None))), read.region)
    case Read(image) => StepResult(Detected(FirstResult(infer(Some(image)))), read.region)
  }

  /** On a block at rest, a signal consumes the pending frame: inference sees
      exactly that frame (or `None`), and the block is left at rest and empty. */
  lemma DetectConsumesPending(region: Region, infer: Option<Image> -> seq<Detections>)
    requires AtRest(region)
    ensures DetectStep(region, infer).outcome == Detected(FirstResult(infer(Pending(region))))
    ensures AtRest(DetectStep(region, infer).region)
    ensures Pending(DetectStep(region, infer).region).None?
  {
    ReadIsSlotTake(region);
  }

  /** The message loop's view of `process`: `regions(n)` is the block's region
      when the n-th signal is processed. The result type is always EMPTY; the
      detections themselves only go to `publish_data`, which `DetectLog` models. */
  function DetectProcess(regions: nat -> Region, infer: Option<Image> -> seq<Detections>): (process: (nat, Payload) -> Outcome)
    ensures forall n, p :: process(n, p).ProcessRaised? <==> ReadFrame(regions(n)).outcome.ReadRaised?
    ensures forall n, p :: process(n, p).Processed? ==> process(n, p).msgType == Empty
  {
    (n: nat, p: Payload) =>
      match DetectStep(regions(n), infer).outcome
      case StepRaised => ProcessRaised
      case Detected(_) => Processed(Empty, NoPayload)
  }

  /** Whatever it polls, the detector's loop writes nothing to any queue (it
      only logs overruns), forwards nothing, and never fails validation. In
      this loop, which does not run `publish_data`, the only way it fails is a
      read of an incoherent block; `DetectLog` has the other way the worker
      can fail, on a class id the model's names do not know. */
  lemma {:induction false} DetectLoopNeverRejects(d: DetectWorker, polls: seq<Option<Envelope>>,
                                                  regions: nat -> Region, infer: Option<Image> -> seq<Detections>,
                                                  finishedAt: nat -> real, n: nat)
    ensures var r := Loop(Base(d), DetectHooks(d), polls, DetectProcess(regions, infer), finishedAt, n);
            && (forall ev :: ev in r.events ==> ev.Overrun?)
            && (r.exit.Failed? ==> r.exit.f == ProcessFailed)
            && (r.exit.Failed? ==> exists k :: n <= k && !Coherent(regions(k)))
    decreases |polls|
  {
    if |polls| == 0 {
      return;
    }
    var h := DetectHooks(d);
    var process := DetectProcess(regions, infer);
    match polls[0]
    case None =>
      DetectLoopNeverRejects(d, polls[1..], regions, infer, finishedAt, n);
    case Some(e) =>
      if e.msgType == PoisonPill {
      } else if e.msgType == RecordingId {
        DetectLoopNeverRejects(d, polls[1..], regions, infer, finishedAt, n);
      } else {
        if process(n, e.payload).ProcessRaised? {
          if Coherent(regions(n)) {
            CoherentReadNeverRaises(regions(n));
            assert false;
          }
        } else {
          DetectLoopNeverRejects(d, polls[1..], regions, infer, finishedAt, n + 1);
          var r := Loop(Base(d), h, polls, process, finishedAt, n);
          var next := Loop(Base(d), h, polls[1..], process, finishedAt, n + 1);
          assert r.events == OverrunLog(e, finishedAt(n)) + next.events;
        }
      }
  }

  // ---------------------------------------------------------------------------
  // What is logged

  datatype LogRecord =
    | Boxes2D(step: int, path: string, boxes: seq<Box>, labels: seq<string>)
    | Points2D(step: int, path: string, points: seq<Point>)

  /** The class id of a box that is missing from the name table: the KeyError. */
  datatype LogError = UnknownClass(cls: int)

  function VideoPath(cameraId: int): string {
    "/webcam" + IntToString(cameraId) + "/video"
  }

  /** The class name of every box, in order. */
  function ClassLabels(boxes: seq<Box>, names: map<int, string>): (r: Result<seq<string>, LogError>)
    ensures r.Ok? <==> forall i :: 0 <= i < |boxes| ==> Truncate(boxes[i].cls) in names
    ensures r.Ok? ==> |r.value| == |boxes| && forall i :: 0 <= i < |boxes| ==> r.value[i] == names[Truncate(boxes[i].cls)]
    ensures r.Err? ==> exists i :: 0 <= i < |boxes| && r.error == UnknownClass(Truncate(boxes[i].cls))
                                   && Truncate(boxes[i].cls) !in names
                                   && forall j :: 0 <= j < i ==> Truncate(boxes[j].cls) in names
  {
    if |boxes| == 0 then Ok([])
    else
      var c := Truncate(boxes[0].cls);
      if c !in names then Err(UnknownClass(c))
      else
        var rest := ClassLabels(boxes[1..], names);
        if rest.Err? then
          assert exists i :: 1 <= i < |boxes| && rest.error == UnknownClass(Truncate(boxes[i].cls))
                             && Truncate(boxes[i].cls) !in names
                             && forall j :: 0 <= j < i ==> Truncate(boxes[j].cls) in names by {
            var i :| 0 <= i < |boxes[1..]| && rest.error == UnknownClass(Truncate(boxes[1..][i].cls))
                     && Truncate(boxes[1..][i].cls) !in names
                     && forall j :: 0 <= j < i ==> Truncate(boxes[1..][j].cls) in names;
            assert boxes[i + 1] == boxes[1..][i];
            forall j | 0 <= j < i + 1 ensures Truncate(boxes[j].cls) in names {
              if j > 0 { assert boxes[j] == boxes[1..][j - 1]; }
            }
          }
          Err(rest.error)
        else
          Ok([names[c]] + rest.value)
  }

  /** A keypoint is kept when neither coordinate is zero. */
  predicate Kept(p: Point) {
    p.x != 0.0 && p.y != 0.0
  }

  /** The kept keypoints of every person, person by person, in order. */
  function KeptPoints(people: seq<seq<Point>>): (r: seq<Point>)
    ensures forall p :: p in r ==> Kept(p)
  {
    if |people| == 0 then []
    else KeptOf(people[0]) + KeptPoints(people[1..])
  }

  function KeptOf(points: seq<Point>): (r: seq<Point>)
    ensures |r| <= |points|
    ensures forall p :: p in r <==> p in points && Kept(p)
  {
    if |points| == 0 then []
    else (if Kept(points[0]) then [points[0]] else []) + KeptOf(points[1..])
  }

  /** Within one person the filter keeps the original order: filtering two
      stretches together is filtering one after the other. */
  lemma {:induction false} KeptOfAppend(a: seq<Point>, b: seq<Point>)
    ensures KeptOf(a + b) == KeptOf(a) + KeptOf(b)
    decreases |a|
  {
    if |a| == 0 {
      assert a + b == b;
    } else {
      assert (a + b)[1..] == a[1..] + b;
      KeptOfAppend(a[1..], b);
    }
  }

  /** Some person has keypoint `p`. */
  ghost predicate SomeoneHas(people: seq<seq<Point>>, p: Point) {
    exists i :: 0 <= i < |people| && p in people[i]
  }

  /** Someone has `p` when the first person has it or someone after them does. */
  lemma SomeoneHasSplit(people: seq<seq<Point>>, p: Point)
    requires |people| > 0
    ensures SomeoneHas(people, p) <==> p in people[0] || SomeoneHas(people[1..], p)
  {
    if SomeoneHas(people, p) && p !in people[0] {
      var i :| 0 <= i < |people| && p in people[i];
      assert p in people[1..][i - 1];
    }
    if SomeoneHas(people[1..], p) {
      var i :| 0 <= i < |people[1..]| && p in people[1..][i];
      assert p in people[i + 1];
    }
  }

  /** A point is logged exactly when some person has it and it is kept. */
  lemma {:induction false} KeptPointsMembership(people: seq<seq<Point>>, p: Point)
    ensures p in KeptPoints(people) <==> Kept(p) && exists i :: 0 <= i < |people| && p in people[i]
    decreases |people|
  {
    if |people| > 0 {
      KeptPointsMembership(people[1..], p);
      SomeoneHasSplit(people, p);
      assert KeptPoints(people) == KeptOf(people[0]) + KeptPoints(people[1..]);
    }
  }

  /** The filter keeps order across people: logging two groups together is
      logging one after the other. */
  lemma {:induction false} KeptPointsAppend(a: seq<seq<Point>>, b: seq<seq<Point>>)
    ensures KeptPoints(a + b) == KeptPoints(a) + KeptPoints(b)
    decreases |a|
  {
    if |a| == 0 {
      assert a + b == b;
    } else {
      assert (a + b)[1..] == a[1..] + b;
      KeptPointsAppend(a[1..], b);
    }
  }

  /** `DetectObjectsWorker.publish_data`: nothing for a missing or empty result;
      otherwise the boxes with their class names (detect) or the kept
      keypoints, when there are any (pose). */
  function DetectLog(d: DetectWorker, step: int, result: Option<Detections>): (r: Result<seq<LogRecord>, LogError>)
    ensures result.None? || |result.value.boxes| == 0 ==> r == Ok([])
    ensures d.task == Pose ==> r.Ok? && |r.value| <= 1
    ensures d.task == Pose && r.Ok? && |r.value| == 1 ==>
              && result.Some? && result.value.keypoints.Some?
              && r.value[0] == Points2D(step, VideoPath(d.cameraId) + "/pose", KeptPoints(result.value.keypoints.value))
              && |KeptPoints(result.value.keypoints.value)| > 0
    ensures d.task == Detect && result.Some? && |result.value.boxes| > 0 ==>
              match ClassLabels(result.value.boxes, result.value.names)
              case Err(e) => r == Err(e)
              case Ok(labels) => r == Ok([Boxes2D(step, VideoPath(d.cameraId) + "/detections", result.value.boxes, labels)])
  {
    if result.None? || |result.value.boxes| == 0 then Ok([])
    else
      var det := result.value;
      match d.task
      case Detect =>
        var labels :- ClassLabels(det.boxes, det.names);
        Ok([Boxes2D(step, VideoPath(d.cameraId) + "/detections", det.boxes, labels)])
      case Pose =>
        if det.keypoints.None? then Ok([])
        else
          var points := KeptPoints(det.keypoints.value);
          if |points| == 0 then Ok([]) else Ok([Points2D(step, VideoPath(d.cameraId) + "/pose", points)])
  }

  /** A pose worker logs a record exactly when the result has keypoints and at
      least one of them is kept. */
  lemma PoseLogged(d: DetectWorker, step: int, result: Option<Detections>)
    requires d.task == Pose
    ensures |DetectLog(d, step, result).value| == 1 <==>
              && result.Some? && |result.value.boxes| > 0 && result.value.keypoints.Some?
              && exists i, j :: 0 <= i < |result.value.keypoints.value| && 0 <= j < |result.value.keypoints.value[i]|
                                && Kept(result.value.keypoints.value[i][j])
  {
    if result.Some? && result.value.keypoints.Some? {
      var people := result.value.keypoints.value;
      if |KeptPoints(people)| > 0 {
        var p := KeptPoints(people)[0];
        KeptPointsMembership(people, p);
        var i :| 0 <= i < |people| && p in people[i];
        var j :| 0 <= j < |people[i]| && people[i][j] == p;
      } else if exists i, j :: 0 <= i < |people| && 0 <= j < |people[i]| && Kept(people[i][j]) {
        var i, j :| 0 <= i < |people| && 0 <= j < |people[i]| && Kept(people[i][j]);
        KeptPointsMembership(people, people[i][j]);
      }
    }
  }
}
