/** The message loop every worker process runs: poll the input queue, forward
    control messages, validate, process, publish to the output queues with the
    input's deadline and step, and tear down on every exit.

    A concrete worker changes the loop only through its `Hooks`: input and
    output validation, how a result is published, and what setup and teardown
    do. `process` is a parameter; its `ordinal` argument counts the data
    messages processed before, so any stateful device behind it can be
    described. */
module WorkerBase {
  import opened Wrappers
  import opened Messages

  // ---------------------------------------------------------------------------
  // Worker names and the message types they expect

  const CronName: string := "cron"
  const LeaderName: string := "leader"
  const FollowerName: string := "follower"
  const SimName: string := "sim"
  const KinematicsName: string := "kinematics"
  const WebcamName: string := "webcam"
  const DetectObjectsName: string := "detect_objects"

  const InputTypes: map<string, MsgType> := map[
    CronName := Empty,
    LeaderName := Empty,
    FollowerName := Pos,
    SimName := Pos,
    KinematicsName := Pos,
    WebcamName := Empty,
    DetectObjectsName := ObjectDetection
  ]

  const OutputTypes: map<string, MsgType> := map[
    CronName := Empty,
    LeaderName := Pos,
    FollowerName := PosForce,
    SimName := QposRenderForce,
    KinematicsName := QposQposRgb,
    WebcamName := Bgr,
    DetectObjectsName := Empty
  ]

  /** Name stems of workers that run once per camera ("webcam2", "detect_objects4"). */
  const Prefixes: seq<string> := [WebcamName, DetectObjectsName]

  /** The first entry of `prefixes` that `name` starts with. */
  function FirstPrefix(name: string, prefixes: seq<string>): (r: Option<string>)
    ensures r.None? <==> forall i :: 0 <= i < |prefixes| ==> !(prefixes[i] <= name)
    ensures r.Some? ==> exists i :: 0 <= i < |prefixes| && prefixes[i] == r.value && prefixes[i] <= name
                                    && forall j :: 0 <= j < i ==> !(prefixes[j] <= name)
  {
    if |prefixes| == 0 then None
    else if prefixes[0] <= name then Some(prefixes[0])
    else
      var r := FirstPrefix(name, prefixes[1..]);
      assert r.Some? ==> exists i :: 1 <= i < |prefixes| && prefixes[i] == r.value && prefixes[i] <= name
                                     && forall j :: 0 <= j < i ==> !(prefixes[j] <= name) by {
        if r.Some? {
          var i :| 0 <= i < |prefixes[1..]| && prefixes[1..][i] == r.value && prefixes[1..][i] <= name
                   && forall j :: 0 <= j < i ==> !(prefixes[1..][j] <= name);
          assert prefixes[i + 1] == r.value;
          forall j | 0 <= j < i + 1 ensures !(prefixes[j] <= name) {
            if j > 0 { assert prefixes[j] == prefixes[1..][j - 1]; }
          }
        }
      }
      r
  }

  /** Exact worker name first, then the first matching name stem; `None` is
      the ValueError for an unknown worker. */
  function ExpectedType(table: map<string, MsgType>, name: string): Option<MsgType>
    requires WebcamName in table && DetectObjectsName in table
  {
    if name in table then Some(table[name])
    else match FirstPrefix(name, Prefixes)
      case Some(p) => Some(table[p])
      case None => None
  }

  function ExpectedInput(name: string): Option<MsgType> {
    ExpectedType(InputTypes, name)
  }

  function ExpectedOutput(name: string): Option<MsgType> {
    ExpectedType(OutputTypes, name)
  }

  /** The lookup order: exact name, then "webcam", then "detect_objects". */
  lemma ResolutionOrder(table: map<string, MsgType>, name: string)
    requires WebcamName in table && DetectObjectsName in table
    ensures name in table ==> ExpectedType(table, name) == Some(table[name])
    ensures name !in table && WebcamName <= name ==> ExpectedType(table, name) == Some(table[WebcamName])
    ensures name !in table && !(WebcamName <= name) && DetectObjectsName <= name ==>
              ExpectedType(table, name) == Some(table[DetectObjectsName])
    ensures name !in table && !(WebcamName <= name) && !(DetectObjectsName <= name) ==>
              ExpectedType(table, name).None?
  {
    assert |Prefixes| == 2 && Prefixes[0] == WebcamName && Prefixes[1] == DetectObjectsName;
    if name !in table {
      var r := FirstPrefix(name, Prefixes);
      if r.Some? {
        var i :| 0 <= i < |Prefixes| && Prefixes[i] == r.value && Prefixes[i] <= name
                 && forall j :: 0 <= j < i ==> !(Prefixes[j] <= name);
        assert i == 0 || !(WebcamName <= name);
      }
    }
  }

  /** Per-camera workers resolve through their name stem. */
  lemma DynamicWorkerTypes()
    ensures ExpectedInput("webcam2") == Some(Empty) && ExpectedOutput("webcam2") == Some(Bgr)
    ensures ExpectedInput("detect_objects4") == Some(ObjectDetection)
    ensures ExpectedOutput("detect_objects4") == Some(Empty)
    ensures ExpectedInput("teleop").None? && ExpectedOutput("teleop").None?
  {
    assert "webcam2" !in InputTypes && "webcam2" !in OutputTypes;
    assert "detect_objects4" !in InputTypes && "detect_objects4" !in OutputTypes;
    assert "teleop" !in InputTypes && "teleop" !in OutputTypes;
    assert "webcam"[0] != "detect_objects4"[0] && "webcam"[0] != "teleop"[0];
    assert "detect_objects"[0] != "teleop"[0];
    ResolutionOrder(InputTypes, "webcam2");
    ResolutionOrder(OutputTypes, "webcam2");
    ResolutionOrder(InputTypes, "detect_objects4");
    ResolutionOrder(OutputTypes, "detect_objects4");
    ResolutionOrder(InputTypes, "teleop");
    ResolutionOrder(OutputTypes, "teleop");
  }

  // ---------------------------------------------------------------------------
  // Workers and their hooks

  datatype Worker = Worker(name: string, input: Queue, outputs: seq<Queue>)

  /** The queues that are present, in order; absent (`None`) queues are dropped. */
  function Present(queues: seq<Option<Queue>>): (r: seq<Queue>)
    ensures |r| <= |queues|
    ensures forall q :: q in r <==> Some(q) in queues
  {
    if |queues| == 0 then []
    else if queues[0].None? then Present(queues[1..])
    else [queues[0].value] + Present(queues[1..])
  }

  lemma {:induction false} PresentAppend(a: seq<Option<Queue>>, b: seq<Option<Queue>>)
    ensures Present(a + b) == Present(a) + Present(b)
  {
    if |a| == 0 {
      assert a + b == b;
    } else {
      assert (a + b)[1..] == a[1..] + b;
      PresentAppend(a[1..], b);
    }
  }

  /** `WorkerBase.__init__`. */
  function NewWorker(name: string, input: Queue, outputs: seq<Option<Queue>>): (w: Worker)
    ensures w.name == name && w.input == input
    ensures forall q :: q in w.outputs <==> Some(q) in outputs
  {
    Worker(name, input, Present(outputs))
  }

  /** The result `process` returns, or the exception it raises. */
  datatype Outcome = Processed(msgType: MsgType, payload: Payload) | ProcessRaised

  datatype Hooks = Hooks(
    acceptsInput: MsgType -> bool,     // `validate_input` does not raise
    acceptsOutput: MsgType -> bool,    // `validate_output` does not raise
    publishOutputs: (MsgType, Payload, real, int) -> seq<Event>,
    setup: seq<Event>,
    teardown: seq<Event>)

  /** Publishing a result writes data messages only, each carrying the
      deadline and step it was given. */
  ghost predicate PublishesStamped(h: Hooks) {
    forall t, p, d, s, i :: 0 <= i < |h.publishOutputs(t, p, d, s)| ==>
      && h.publishOutputs(t, p, d, s)[i].Put?
      && h.publishOutputs(t, p, d, s)[i].write.Data?
      && h.publishOutputs(t, p, d, s)[i].write.envelope.deadline == d
      && h.publishOutputs(t, p, d, s)[i].write.envelope.step == s
  }

  function BasePublish(outputs: seq<Queue>, t: MsgType, p: Payload, deadline: real, step: int): seq<Event> {
    Broadcast(outputs, Data(Envelope(t, deadline, step, p)))
  }

  function BaseSetup(w: Worker): seq<Event> {
    [OpenRead(w.input)] + OpenAllForWrite(w.outputs)
  }

  function BaseTeardown(w: Worker): seq<Event> {
    [Close(w.input)] + CloseAll(w.outputs)
  }

  /** The behaviour `WorkerBase` gives a worker that overrides nothing. */
  function BaseHooks(w: Worker): (h: Hooks)
    ensures PublishesStamped(h)
    ensures forall t :: h.acceptsInput(t) <==> ExpectedInput(w.name) == Some(t)
    ensures forall t :: h.acceptsOutput(t) <==> ExpectedOutput(w.name) == Some(t)
  {
    Hooks(
      t => ExpectedInput(w.name) == Some(t),
      t => ExpectedOutput(w.name) == Some(t),
      (t, p, d, s) => BasePublish(w.outputs, t, p, d, s),
      BaseSetup(w),
      BaseTeardown(w))
  }

  // ---------------------------------------------------------------------------
  // The loop

  datatype Failure = InvalidInput | InvalidOutput | ProcessFailed

  datatype Exit =
    | Waiting            // every poll so far has been handled; the loop still runs
    | Stopped            // a poison pill ended the loop
    | Failed(f: Failure) // an exception ended the loop

  datatype LoopResult = LoopResult(events: seq<Event>, exit: Exit)

  /** `WorkerBase.run` between setup and teardown, over the results of
      successive polls; `ordinal` is the number of data messages already
      processed, `finishedAt(n)` the clock reading after the n-th. */
  function Loop(w: Worker, h: Hooks, polls: seq<Option<Envelope>>,
                   process: (nat, Payload) -> Outcome, finishedAt: nat -> real, ordinal: nat): LoopResult
    decreases |polls|
  {
    if |polls| == 0 then LoopResult([], Waiting)
    else match polls[0]
      case None => Loop(w, h, polls[1..], process, finishedAt, ordinal)
      case Some(e) =>
        if e.msgType == PoisonPill then LoopResult(Broadcast(w.outputs, Pill), Stopped)
        else if e.msgType == RecordingId then
          var rest := Loop(w, h, polls[1..], process, finishedAt, ordinal);
          LoopResult(Broadcast(w.outputs, Recording(e.payload)) + rest.events, rest.exit)
        else if !h.acceptsInput(e.msgType) then LoopResult([], Failed(InvalidInput))
        else match process(ordinal, e.payload)
          case ProcessRaised => LoopResult([], Failed(ProcessFailed))
          case Processed(t, p) =>
            if !h.acceptsOutput(t) then LoopResult([], Failed(InvalidOutput))
            else
              var rest := Loop(w, h, polls[1..], process, finishedAt, ordinal + 1);
              LoopResult(OverrunLog(e, finishedAt(ordinal)) + h.publishOutputs(t, p, e.deadline, e.step) + rest.events,
                         rest.exit)
  }

  /** The debug line logged when processing ended after the deadline. */
  function OverrunLog(e: Envelope, end: real): seq<Event> {
    if end > e.deadline then [Overrun(e.step, end - e.deadline)] else []
  }

  datatype RunResult = RunResult(events: seq<Event>, exit: Exit)

  /** `WorkerBase.run`: setup, the loop, and teardown in the `finally` block
      once the loop has exited. */
  function Run(w: Worker, h: Hooks, polls: seq<Option<Envelope>>,
                  process: (nat, Payload) -> Outcome, finishedAt: nat -> real): (r: RunResult)
    ensures r.exit == Loop(w, h, polls, process, finishedAt, 0).exit
    ensures |r.events| >= |h.setup| && r.events[..|h.setup|] == h.setup
    ensures !r.exit.Waiting? ==>
              |r.events| >= |h.setup| + |h.teardown| && r.events[|r.events| - |h.teardown|..] == h.teardown
  {
    var l := Loop(w, h, polls, process, finishedAt, 0);
    RunResult(h.setup + l.events + (if l.exit.Waiting? then [] else h.teardown), l.exit)
  }

  // ---------------------------------------------------------------------------
  // One message at a time

  lemma EmptyPollSkipped(w: Worker, h: Hooks, rest: seq<Option<Envelope>>,
                            process: (nat, Payload) -> Outcome, finishedAt: nat -> real, n: nat)
    ensures Loop(w, h, [None] + rest, process, finishedAt, n) == Loop(w, h, rest, process, finishedAt, n)
  {
    assert ([None] + rest)[1..] == rest;
  }

  /** A poison pill goes once to every output, in order, and ends the loop
      without calling `process`. */
  lemma PoisonPillStops(w: Worker, h: Hooks, e: Envelope, rest: seq<Option<Envelope>>,
                           process: (nat, Payload) -> Outcome, finishedAt: nat -> real, n: nat)
    requires e.msgType == PoisonPill
    ensures Loop(w, h, [Some(e)] + rest, process, finishedAt, n) == LoopResult(Broadcast(w.outputs, Pill), Stopped)
  {
  }

  /** A recording id goes to every output and the loop goes on with the same
      process ordinal: no validation, no `process`, no data published. */
  lemma RecordingIdForwarded(w: Worker, h: Hooks, e: Envelope, rest: seq<Option<Envelope>>,
                                process: (nat, Payload) -> Outcome, finishedAt: nat -> real, n: nat)
    requires e.msgType == RecordingId
    ensures var r := Loop(w, h, [Some(e)] + rest, process, finishedAt, n);
            var next := Loop(w, h, rest, process, finishedAt, n);
            r == LoopResult(Broadcast(w.outputs, Recording(e.payload)) + next.events, next.exit)
  {
    assert ([Some(e)] + rest)[1..] == rest;
  }

  /** A rejected input type ends the loop before `process` runs and writes nothing. */
  lemma InputMismatchFails(w: Worker, h: Hooks, e: Envelope, rest: seq<Option<Envelope>>,
                              process: (nat, Payload) -> Outcome, finishedAt: nat -> real, n: nat)
    requires !IsControl(e.msgType) && !h.acceptsInput(e.msgType)
    ensures Loop(w, h, [Some(e)] + rest, process, finishedAt, n) == LoopResult([], Failed(InvalidInput))
  {
  }

  /** A rejected output type ends the loop before anything is written. */
  lemma OutputMismatchFails(w: Worker, h: Hooks, e: Envelope, rest: seq<Option<Envelope>>,
                               process: (nat, Payload) -> Outcome, finishedAt: nat -> real, n: nat)
    requires !IsControl(e.msgType) && h.acceptsInput(e.msgType)
    requires process(n, e.payload).Processed? && !h.acceptsOutput(process(n, e.payload).msgType)
    ensures Loop(w, h, [Some(e)] + rest, process, finishedAt, n) == LoopResult([], Failed(InvalidOutput))
  {
  }

  /** With the base hooks, a data message of the expected type whose result
      has the expected type goes once to every output in list order, carrying
      the input's deadline and step; an overrun only adds a log line. */
  lemma BaseDataPublished(w: Worker, e: Envelope, rest: seq<Option<Envelope>>,
                             process: (nat, Payload) -> Outcome, finishedAt: nat -> real, n: nat)
    requires !IsControl(e.msgType) && ExpectedInput(w.name) == Some(e.msgType)
    requires process(n, e.payload).Processed?
    requires ExpectedOutput(w.name) == Some(process(n, e.payload).msgType)
    ensures var out := process(n, e.payload);
            var r := Loop(w, BaseHooks(w), [Some(e)] + rest, process, finishedAt, n);
            var next := Loop(w, BaseHooks(w), rest, process, finishedAt, n + 1);
            var sent := Envelope(out.msgType, e.deadline, e.step, out.payload);
            && r.exit == next.exit
            && r.events == OverrunLog(e, finishedAt(n)) + Broadcast(w.outputs, Data(sent)) + next.events
            && (finishedAt(n) > e.deadline ==> r.events[0] == Overrun(e.step, finishedAt(n) - e.deadline))
  {
    assert ([Some(e)] + rest)[1..] == rest;
  }

  // ---------------------------------------------------------------------------
  // Whole-loop properties

  /** Some polled data message carried this deadline and step. */
  ghost predicate StampedByPoll(env: Envelope, polls: seq<Option<Envelope>>) {
    exists j :: 0 <= j < |polls| && polls[j].Some? && !IsControl(polls[j].value.msgType)
                && polls[j].value.deadline == env.deadline && polls[j].value.step == env.step
  }

  /** Some polled recording-id message carried this id. */
  ghost predicate RecordingPolled(id: Payload, polls: seq<Option<Envelope>>) {
    exists j :: 0 <= j < |polls| && polls[j].Some? && polls[j].value.msgType == RecordingId
                && polls[j].value.payload == id
  }

  lemma ShiftPolls(env: Envelope, id: Payload, polls: seq<Option<Envelope>>)
    requires |polls| > 0
    ensures StampedByPoll(env, polls[1..]) ==> StampedByPoll(env, polls)
    ensures RecordingPolled(id, polls[1..]) ==> RecordingPolled(id, polls)
  {
    if StampedByPoll(env, polls[1..]) {
      var j :| 0 <= j < |polls[1..]| && polls[1..][j].Some? && !IsControl(polls[1..][j].value.msgType)
               && polls[1..][j].value.deadline == env.deadline && polls[1..][j].value.step == env.step;
      assert polls[j + 1] == polls[1..][j];
    }
    if RecordingPolled(id, polls[1..]) {
      var j :| 0 <= j < |polls[1..]| && polls[1..][j].Some? && polls[1..][j].value.msgType == RecordingId
               && polls[1..][j].value.payload == id;
      assert polls[j + 1] == polls[1..][j];
    }
  }

  /** Deadline propagation: every data message a worker writes carries the
      deadline and step of a data message it polled, every recording id it
      writes was polled, and a poison pill is written only by a loop that a
      poison pill stopped. */
  lemma {:induction false} WritesTraceBackToPolls(w: Worker, h: Hooks, polls: seq<Option<Envelope>>,
                                                    process: (nat, Payload) -> Outcome, finishedAt: nat -> real, n: nat)
    requires PublishesStamped(h)
    ensures var r := Loop(w, h, polls, process, finishedAt, n);
            forall ev :: ev in r.events && ev.Put? ==>
              && (ev.write.Data? ==> StampedByPoll(ev.write.envelope, polls))
              && (ev.write.Recording? ==> RecordingPolled(ev.write.id, polls))
              && (ev.write.Pill? ==> r.exit == Stopped)
    decreases |polls|
  {
    if |polls| == 0 {
      return;
    }
    var r := Loop(w, h, polls, process, finishedAt, n);
    match polls[0]
    case None =>
      WritesTraceBackToPolls(w, h, polls[1..], process, finishedAt, n);
      forall ev | ev in r.events && ev.Put?
        ensures ev.write.Data? ==> StampedByPoll(ev.write.envelope, polls)
        ensures ev.write.Recording? ==> RecordingPolled(ev.write.id, polls)
      {
        ShiftPolls(if ev.write.Data? then ev.write.envelope else Envelope(Empty, 0.0, 0, NoPayload),
                   if ev.write.Recording? then ev.write.id else NoPayload, polls);
      }
    case Some(e) =>
      if e.msgType == PoisonPill {
      } else if e.msgType == RecordingId {
        var next := Loop(w, h, polls[1..], process, finishedAt, n);
        WritesTraceBackToPolls(w, h, polls[1..], process, finishedAt, n);
        forall ev | ev in r.events && ev.Put?
          ensures ev.write.Data? ==> StampedByPoll(ev.write.envelope, polls)
          ensures ev.write.Recording? ==> RecordingPolled(ev.write.id, polls)
          ensures ev.write.Pill? ==> r.exit == Stopped
        {
          if ev in Broadcast(w.outputs, Recording(e.payload)) {
            assert ev.write == Recording(e.payload);
          } else {
            assert ev in next.events;
            ShiftPolls(if ev.write.Data? then ev.write.envelope else Envelope(Empty, 0.0, 0, NoPayload),
                       if ev.write.Recording? then ev.write.id else NoPayload, polls);
          }
        }
      } else if !h.acceptsInput(e.msgType) {
      } else {
        match process(n, e.payload)
        case ProcessRaised =>
        case Processed(t, p) =>
          if h.acceptsOutput(t) {
            var next := Loop(w, h, polls[1..], process, finishedAt, n + 1);
            var published := h.publishOutputs(t, p, e.deadline, e.step);
            WritesTraceBackToPolls(w, h, polls[1..], process, finishedAt, n + 1);
            assert r.events == OverrunLog(e, finishedAt(n)) + published + next.events;
            forall ev | ev in r.events && ev.Put?
              ensures ev.write.Data? ==> StampedByPoll(ev.write.envelope, polls)
              ensures ev.write.Recording? ==> RecordingPolled(ev.write.id, polls)
              ensures ev.write.Pill? ==> r.exit == Stopped
            {
              if ev in published {
                var i :| 0 <= i < |published| && published[i] == ev;
                assert ev.write.Data? && ev.write.envelope.deadline == e.deadline && ev.write.envelope.step == e.step;
              } else if ev in next.events {
                ShiftPolls(if ev.write.Data? then ev.write.envelope else Envelope(Empty, 0.0, 0, NoPayload),
                           if ev.write.Recording? then ev.write.id else NoPayload, polls);
              }
            }
          }
      }
  }

  /** A deadline overrun is only logged: whatever the clock says, the loop
      writes the same messages and exits the same way. */
  lemma {:induction false} OverrunOnlyLogged(w: Worker, h: Hooks, polls: seq<Option<Envelope>>,
                                               process: (nat, Payload) -> Outcome,
                                               clock1: nat -> real, clock2: nat -> real, n: nat)
    ensures Loop(w, h, polls, process, clock1, n).exit == Loop(w, h, polls, process, clock2, n).exit
    ensures WithoutOverruns(Loop(w, h, polls, process, clock1, n).events)
         == WithoutOverruns(Loop(w, h, polls, process, clock2, n).events)
    decreases |polls|
  {
    if |polls| == 0 {
      return;
    }
    match polls[0]
    case None =>
      OverrunOnlyLogged(w, h, polls[1..], process, clock1, clock2, n);
    case Some(e) =>
      if e.msgType == PoisonPill {
      } else if e.msgType == RecordingId {
        OverrunOnlyLogged(w, h, polls[1..], process, clock1, clock2, n);
        var b := Broadcast(w.outputs, Recording(e.payload));
        WithoutOverrunsAppend(b, Loop(w, h, polls[1..], process, clock1, n).events);
        WithoutOverrunsAppend(b, Loop(w, h, polls[1..], process, clock2, n).events);
      } else if !h.acceptsInput(e.msgType) {
      } else {
        match process(n, e.payload)
        case ProcessRaised =>
        case Processed(t, p) =>
          if h.acceptsOutput(t) {
            OverrunOnlyLogged(w, h, polls[1..], process, clock1, clock2, n + 1);
            var published := h.publishOutputs(t, p, e.deadline, e.step);
            var next1 := Loop(w, h, polls[1..], process, clock1, n + 1).events;
            var next2 := Loop(w, h, polls[1..], process, clock2, n + 1).events;
            var log1: seq<Event> := OverrunLog(e, clock1(n));
            var log2: seq<Event> := OverrunLog(e, clock2(n));
            assert WithoutOverruns(log1) == [] && WithoutOverruns(log2) == [];
            WithoutOverrunsAppend(log1 + published, next1);
            WithoutOverrunsAppend(log1, published);
            WithoutOverrunsAppend(log2 + published, next2);
            WithoutOverrunsAppend(log2, published);
          }
      }
  }

  predicate IsPillPut(ev: Event) {
    ev.Put? && ev.write.Pill?
  }

  /** The events end with one pill per output, in order, and hold no pill before. */
  predicate EndsWithShutdown(events: seq<Event>, outputs: seq<Queue>) {
    && |events| >= |outputs|
    && events[|events| - |outputs|..] == Broadcast(outputs, Pill)
    && forall i :: 0 <= i < |events| - |outputs| ==> !IsPillPut(events[i])
  }

  lemma PillFreePrefix(pre: seq<Event>, next: seq<Event>, outputs: seq<Queue>)
    requires forall i :: 0 <= i < |pre| ==> !IsPillPut(pre[i])
    requires EndsWithShutdown(next, outputs)
    ensures EndsWithShutdown(pre + next, outputs)
  {
    var all := pre + next;
    assert all[|all| - |outputs|..] == next[|next| - |outputs|..];
    forall i | 0 <= i < |all| - |outputs| ensures !IsPillPut(all[i]) {
      if i >= |pre| {
        assert all[i] == next[i - |pre|];
      }
    }
  }

  /** Shutdown: a loop that a poison pill stopped ends by writing exactly one
      pill to every output, in order, and writes no pill before that. */
  lemma {:induction false} ShutdownForwarded(w: Worker, h: Hooks, polls: seq<Option<Envelope>>,
                                            process: (nat, Payload) -> Outcome, finishedAt: nat -> real, n: nat)
    requires PublishesStamped(h)
    ensures Loop(w, h, polls, process, finishedAt, n).exit == Stopped ==>
              EndsWithShutdown(Loop(w, h, polls, process, finishedAt, n).events, w.outputs)
    decreases |polls|
  {
    if |polls| == 0 || Loop(w, h, polls, process, finishedAt, n).exit != Stopped {
      return;
    }
    match polls[0]
    case None =>
      ShutdownForwarded(w, h, polls[1..], process, finishedAt, n);
    case Some(e) =>
      if e.msgType == PoisonPill {
        assert Loop(w, h, polls, process, finishedAt, n).events == Broadcast(w.outputs, Pill);
      } else if e.msgType == RecordingId {
        ShutdownForwarded(w, h, polls[1..], process, finishedAt, n);
        PillFreePrefix(Broadcast(w.outputs, Recording(e.payload)),
                       Loop(w, h, polls[1..], process, finishedAt, n).events, w.outputs);
      } else if h.acceptsInput(e.msgType) && process(n, e.payload).Processed?
                && h.acceptsOutput(process(n, e.payload).msgType) {
        var out := process(n, e.payload);
        var pre := OverrunLog(e, finishedAt(n)) + h.publishOutputs(out.msgType, out.payload, e.deadline, e.step);
        ShutdownForwarded(w, h, polls[1..], process, finishedAt, n + 1);
        forall i | 0 <= i < |pre| ensures !IsPillPut(pre[i]) {
          var log := OverrunLog(e, finishedAt(n));
          if i >= |log| {
            assert pre[i] == h.publishOutputs(out.msgType, out.payload, e.deadline, e.step)[i - |log|];
          }
        }
        PillFreePrefix(pre, Loop(w, h, polls[1..], process, finishedAt, n + 1).events, w.outputs);
      }
  }

  /** Teardown on every exit: with the base hooks, a loop that has exited
      leaves the input queue closed first, then every output queue in order. */
  lemma BaseTeardownLast(w: Worker, polls: seq<Option<Envelope>>,
                            process: (nat, Payload) -> Outcome, finishedAt: nat -> real)
    requires !Run(w, BaseHooks(w), polls, process, finishedAt).exit.Waiting?
    ensures var ev := Run(w, BaseHooks(w), polls, process, finishedAt).events;
            && |ev| >= 2 + 2 * |w.outputs|
            && ev[0] == OpenRead(w.input)
            && ev[|ev| - |w.outputs| - 1] == Close(w.input)
            && forall i :: 0 <= i < |w.outputs| ==> ev[|ev| - |w.outputs| + i] == Close(w.outputs[i])
  {
  }

  /** A run starts with its setup, split here into three consecutive parts. */
  lemma SetupParts(w: Worker, h: Hooks, polls: seq<Option<Envelope>>, process: (nat, Payload) -> Outcome,
                   finishedAt: nat -> real, a: seq<Event>, b: seq<Event>, c: seq<Event>)
    requires h.setup == a + b + c
    ensures var ev := Run(w, h, polls, process, finishedAt).events;
            && |ev| >= |a| + |b| + |c|
            && (forall i :: 0 <= i < |a| ==> ev[i] == a[i])
            && (forall i :: 0 <= i < |b| ==> ev[|a| + i] == b[i])
            && (forall i :: 0 <= i < |c| ==> ev[|a| + |b| + i] == c[i])
  {
    var ev := Run(w, h, polls, process, finishedAt).events;
    HeadParts(ev, a + b, c);
    HeadParts(ev, a, b);
    forall i | 0 <= i < |a| ensures ev[i] == a[i] {
      assert ev[i] == ev[..|a|][i];
    }
  }

  /** Setup that opens every queue and then acquires a device: the queues are
      open, input first, before the device is touched. */
  lemma DeviceAfterBaseSetup(w: Worker, h: Hooks, polls: seq<Option<Envelope>>, process: (nat, Payload) -> Outcome,
                             finishedAt: nat -> real, op: DeviceOp)
    requires h.setup == BaseSetup(w) + [Device(op)]
    ensures var ev := Run(w, h, polls, process, finishedAt).events;
            && |ev| > 1 + |w.outputs|
            && ev[0] == OpenRead(w.input)
            && (forall i :: 0 <= i < |w.outputs| ==> ev[1 + i] == OpenWrite(w.outputs[i]))
            && ev[1 + |w.outputs|] == Device(op)
  {
    var opens := OpenAllForWrite(w.outputs);
    var a, c := [OpenRead(w.input)], [Device(op)];
    SetupParts(w, h, polls, process, finishedAt, a, opens, c);
    assert a[0] == OpenRead(w.input) && c[0] == Device(op);
  }

  /** Events that end with a device release followed by the base teardown. */
  lemma EndsWithDeviceTeardown(ev: seq<Event>, w: Worker, op: DeviceOp)
    requires |ev| >= 2 + |w.outputs| && ev[|ev| - 2 - |w.outputs|..] == [Device(op)] + BaseTeardown(w)
    ensures ev[|ev| - 2 - |w.outputs|] == Device(op)
    ensures ev[|ev| - 1 - |w.outputs|] == Close(w.input)
    ensures ev[|ev| - |w.outputs|..] == CloseAll(w.outputs)
  {
    var a, b := [Device(op)], [Close(w.input)];
    TailParts3(ev, a, b, CloseAll(w.outputs));
    assert a[0] == Device(op) && b[0] == Close(w.input);
  }

  /** Teardown that releases a device and then closes every queue: after the
      loop has exited, the device goes first, then the input queue, then every
      output queue in order. */
  lemma DeviceBeforeBaseTeardown(w: Worker, h: Hooks, polls: seq<Option<Envelope>>, process: (nat, Payload) -> Outcome,
                                 finishedAt: nat -> real, op: DeviceOp)
    requires !Run(w, h, polls, process, finishedAt).exit.Waiting?
    requires h.teardown == [Device(op)] + BaseTeardown(w)
    ensures var ev := Run(w, h, polls, process, finishedAt).events;
            && |ev| >= 2 + |w.outputs|
            && ev[|ev| - 2 - |w.outputs|] == Device(op)
            && ev[|ev| - 1 - |w.outputs|] == Close(w.input)
            && ev[|ev| - |w.outputs|..] == CloseAll(w.outputs)
  {
    EndsWithDeviceTeardown(Run(w, h, polls, process, finishedAt).events, w, op);
  }
}
