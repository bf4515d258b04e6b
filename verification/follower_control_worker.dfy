/** The follower worker: it drives the follower arm with the leader's motor
    positions, reads back the arm's positions and control forces, triggers
    every webcam and hands the positions to the simulation.

    The arm is a parameter: `arm(n)` is what the n-th processing reads back
    from it (positions, and control forces as floats). */
module FollowerControlWorker {
  import opened Wrappers
  import opened Messages
  import opened WorkerBase
  import opened Numeric

  /** The follower's queues: the leader's positions come in on `input`. */
  datatype Follower = Follower(input: Queue, webcams: seq<Queue>, sim: Option<Queue>)

  /** The queues that are present, in the order the worker writes them:
      webcams first, then the simulation queue if there is one. */
  function OutputQueues(webcams: seq<Queue>, sim: Option<Queue>): (r: seq<Queue>)
    ensures |r| == |webcams| + (if sim.Some? then 1 else 0)
    ensures r[..|webcams|] == webcams
    ensures sim.Some? ==> r[|webcams|] == sim.value
  {
    if sim.Some? then webcams + [sim.value] else webcams
  }

  /** `FollowerControlWorker.__init__`: the base worker it configures. */
  function Base(f: Follower): (w: Worker)
    ensures w.name == FollowerName && w.input == f.input
    ensures w.outputs == OutputQueues(f.webcams, f.sim)
    ensures forall q :: q in w.outputs <==> q in f.webcams || Some(q) == f.sim
  {
    Worker(FollowerName, f.input, OutputQueues(f.webcams, f.sim))
  }

  /** The positions of a follower result (the first half of the pair). */
  function ResultPositions(p: Payload): Payload {
    if p.StepsWithForce? then Steps(p.pos) else NoPayload
  }

  /** `FollowerControlWorker.publish_outputs`: an empty trigger to every webcam,
      then the positions to the simulation, all carrying the input's deadline
      and step. */
  function FanOut(f: Follower, p: Payload, deadline: real, step: int): (r: seq<Event>)
    ensures |r| == |f.webcams| + (if f.sim.Some? then 1 else 0)
    ensures forall i :: 0 <= i < |f.webcams| ==>
              r[i] == Put(f.webcams[i], Data(Envelope(Empty, deadline, step, NoPayload)))
    ensures f.sim.Some? ==> r[|r| - 1] == Put(f.sim.value, Data(Envelope(Pos, deadline, step, ResultPositions(p))))
  {
    Broadcast(f.webcams, Data(Envelope(Empty, deadline, step, NoPayload)))
    + (if f.sim.Some? then [Put(f.sim.value, Data(Envelope(Pos, deadline, step, ResultPositions(p))))] else [])
  }

  function FollowerHooks(f: Follower): (h: Hooks)
    ensures PublishesStamped(h)
    ensures forall t :: h.acceptsInput(t) <==> t == Pos
    ensures forall t :: h.acceptsOutput(t) <==> t == PosForce
    ensures h.setup == BaseSetup(Base(f)) + [Device(ConnectFollower)]
    ensures h.teardown == [Device(DisconnectFollower)] + BaseTeardown(Base(f))
  {
    var base := BaseHooks(Base(f));
    assert ExpectedInput(FollowerName) == Some(Pos) && ExpectedOutput(FollowerName) == Some(PosForce);
    Hooks(
      base.acceptsInput,
      base.acceptsOutput,
      (t, p, d, s) => FanOut(f, p, d, s),
      base.setup + [Device(ConnectFollower)],
      [Device(DisconnectFollower)] + base.teardown)
  }

  /** What the arm reports after a command. */
  datatype ArmReading = ArmReading(pos: seq<int>, force: seq<real>)

  /** `FollowerControlWorker.process`: command the arm, then read its positions
      and its control forces truncated to integers. */
  function FollowerProcess(arm: nat -> ArmReading): (process: (nat, Payload) -> Outcome)
    ensures forall n, p :: process(n, p).Processed? && process(n, p).msgType == PosForce
    ensures forall n, p :: process(n, p).payload.StepsWithForce?
                           && process(n, p).payload.pos == arm(n).pos
                           && process(n, p).payload.force == TruncateAll(arm(n).force)
  {
    (n: nat, p: Payload) => Processed(PosForce, StepsWithForce(arm(n).pos, TruncateAll(arm(n).force)))
  }

  /** A position message makes the follower trigger every webcam in order and
      then send the positions it read back to the simulation, with the input's
      deadline and step; the loop then continues with the next ordinal. */
  lemma PositionsFannedOut(f: Follower, e: Envelope, rest: seq<Option<Envelope>>,
                           arm: nat -> ArmReading, finishedAt: nat -> real, n: nat)
    requires e.msgType == Pos
    ensures var h := FollowerHooks(f);
            var r := Loop(Base(f), h, [Some(e)] + rest, FollowerProcess(arm), finishedAt, n);
            var next := Loop(Base(f), h, rest, FollowerProcess(arm), finishedAt, n + 1);
            var log := OverrunLog(e, finishedAt(n));
            var sent := r.events[|log|..|log| + |Base(f).outputs|];
            && r.exit == next.exit
            && r.events == log + sent + next.events
            && (forall i :: 0 <= i < |f.webcams| ==>
                  sent[i] == Put(f.webcams[i], Data(Envelope(Empty, e.deadline, e.step, NoPayload))))
            && (f.sim.Some? ==> sent[|sent| - 1] == Put(f.sim.value, Data(Envelope(Pos, e.deadline, e.step, Steps(arm(n).pos)))))
  {
    var h := FollowerHooks(f);
    var out := FollowerProcess(arm)(n, e.payload);
    assert ([Some(e)] + rest)[1..] == rest;
    var log := OverrunLog(e, finishedAt(n));
    var published := FanOut(f, out.payload, e.deadline, e.step);
    var next := Loop(Base(f), h, rest, FollowerProcess(arm), finishedAt, n + 1);
    var r := Loop(Base(f), h, [Some(e)] + rest, FollowerProcess(arm), finishedAt, n);
    assert r.events == log + published + next.events;
    assert r.events[|log|..|log| + |Base(f).outputs|] == published;
  }

  /** Any message other than positions or a control message stops the follower
      before the arm is commanded. */
  lemma NonPositionsRejected(f: Follower, e: Envelope, rest: seq<Option<Envelope>>,
                             arm: nat -> ArmReading, finishedAt: nat -> real, n: nat)
    requires !IsControl(e.msgType) && e.msgType != Pos
    ensures Loop(Base(f), FollowerHooks(f), [Some(e)] + rest, FollowerProcess(arm), finishedAt, n)
         == LoopResult([], Failed(InvalidInput))
  {
    InputMismatchFails(Base(f), FollowerHooks(f), e, rest, FollowerProcess(arm), finishedAt, n);
  }

  /** The arm is connected after every queue is open. */
  lemma ArmConnectedAfterOpen(f: Follower, polls: seq<Option<Envelope>>, arm: nat -> ArmReading, finishedAt: nat -> real)
    ensures var ev := Run(Base(f), FollowerHooks(f), polls, FollowerProcess(arm), finishedAt).events;
            var w := Base(f);
            && |ev| > 1 + |w.outputs|
            && ev[0] == OpenRead(f.input)
            && (forall i :: 0 <= i < |w.outputs| ==> ev[1 + i] == OpenWrite(w.outputs[i]))
            && ev[1 + |w.outputs|] == Device(ConnectFollower)
  {
    DeviceAfterBaseSetup(Base(f), FollowerHooks(f), polls, FollowerProcess(arm), finishedAt, ConnectFollower);
  }

  /** Once the loop has exited, the arm is disconnected before any queue is
      closed; then the input queue and every output queue are closed in order. */
  lemma ArmDisconnectedBeforeClose(f: Follower, polls: seq<Option<Envelope>>, arm: nat -> ArmReading, finishedAt: nat -> real)
    requires !Run(Base(f), FollowerHooks(f), polls, FollowerProcess(arm), finishedAt).exit.Waiting?
    ensures var ev := Run(Base(f), FollowerHooks(f), polls, FollowerProcess(arm), finishedAt).events;
            var w := Base(f);
            && |ev| >= 2 + |w.outputs|
            && ev[|ev| - 2 - |w.outputs|] == Device(DisconnectFollower)
            && ev[|ev| - 1 - |w.outputs|] == Close(f.input)
            && ev[|ev| - |w.outputs|..] == CloseAll(w.outputs)
  {
    DeviceBeforeBaseTeardown(Base(f), FollowerHooks(f), polls, FollowerProcess(arm), finishedAt, DisconnectFollower);
  }
}
