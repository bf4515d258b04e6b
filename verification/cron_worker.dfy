/** The cron worker: the only tick source. It has no input queue; it announces
    the recording id, then writes one empty message per period to the leader
    queue, stamped with step 0, 1, 2, ... and the deadline start + period.

    Clock readings are inputs: for each iteration, the time at its start and
    the time after its write. */
module CronWorker {
  import opened Wrappers
  import opened Messages

  datatype Cron = Cron(leader: Queue, recordingId: string, period: real)

  /** `CronWorker.__init__`; a zero rate is the ZeroDivisionError of `1.0 / fps`. */
  function NewCron(leader: Queue, recordingId: string, fps: int): (r: Option<Cron>)
    ensures r.None? <==> fps == 0
    ensures r.Some? ==> r.value.leader == leader && r.value.recordingId == recordingId
                        && r.value.period * (fps as real) == 1.0
  {
    if fps == 0 then None else Some(Cron(leader, recordingId, 1.0 / (fps as real)))
  }

  /** `CronWorker.setup`: open the one output queue, then announce the recording. */
  function Setup(c: Cron): seq<Event> {
    [OpenWrite(c.leader), Put(c.leader, Recording(RecordingName(c.recordingId)))]
  }

  /** Clock readings of one iteration: at its top and after its write. */
  datatype Reading = Reading(start: real, end: real)

  /** The tick of step `step` started at `start`. */
  function TickMessage(c: Cron, step: nat, start: real): Envelope {
    Envelope(Empty, start + c.period, step, NoPayload)
  }

  /** One iteration: write the tick, then sleep for what is left of the period, if anything. */
  function Iteration(c: Cron, step: nat, r: Reading): (ev: seq<Event>)
    ensures 1 <= |ev| <= 2
    ensures ev[0] == Put(c.leader, Data(TickMessage(c, step, r.start)))
    ensures |ev| == 2 <==> r.end - r.start < c.period
    ensures |ev| == 2 ==> ev[1] == Sleep(c.period - (r.end - r.start)) && ev[1].seconds > 0.0
  {
    var remaining := c.period - (r.end - r.start);
    [Put(c.leader, Data(TickMessage(c, step, r.start)))] + (if remaining > 0.0 then [Sleep(remaining)] else [])
  }

  function Iterations(c: Cron, readings: seq<Reading>, step: nat): seq<Event>
    decreases |readings|
  {
    if |readings| == 0 then [] else Iteration(c, step, readings[0]) + Iterations(c, readings[1..], step + 1)
  }

  /** `CronWorker.run` over the given clock readings; `interrupted` says whether
      an exception then ended the loop, which runs the teardown. */
  function Run(c: Cron, readings: seq<Reading>, interrupted: bool): seq<Event> {
    Setup(c) + Iterations(c, readings, 0) + (if interrupted then [Close(c.leader)] else [])
  }

  /** The ticks carry consecutive steps from `step` and the deadline start + period. */
  lemma {:induction false} IterationTicks(c: Cron, readings: seq<Reading>, step: nat)
    ensures |DataWrites(Iterations(c, readings, step))| == |readings|
    ensures forall k :: 0 <= k < |readings| ==>
              DataWrites(Iterations(c, readings, step))[k] == TickMessage(c, step + k, readings[k].start)
    decreases |readings|
  {
    if |readings| > 0 {
      var first := Iteration(c, step, readings[0]);
      var rest := Iterations(c, readings[1..], step + 1);
      IterationTicks(c, readings[1..], step + 1);
      DataWritesAppend(first, rest);
      assert DataWrites(first) == [TickMessage(c, step, readings[0].start)] by {
        assert first[1..] == [] || (first[1..] == [first[1]] && first[1].Sleep?);
      }
      forall k | 0 <= k < |readings|
        ensures DataWrites(Iterations(c, readings, step))[k] == TickMessage(c, step + k, readings[k].start)
      {
        if k > 0 {
          assert readings[1..][k - 1] == readings[k];
        }
      }
    }
  }

  /** The iterations write only ticks to the leader queue, sleep only for
      positive durations, and never open or close anything. */
  lemma {:induction false} IterationEvents(c: Cron, readings: seq<Reading>, step: nat)
    ensures forall ev :: ev in Iterations(c, readings, step) ==>
              (ev.Put? && ev.queue == c.leader && ev.write.Data?) || (ev.Sleep? && ev.seconds > 0.0)
    decreases |readings|
  {
    if |readings| > 0 {
      IterationEvents(c, readings[1..], step + 1);
    }
  }

  /** Only the iterations of a run write data messages. */
  lemma SetupAndTailCarryNoData(c: Cron, iters: seq<Event>, tail: seq<Event>)
    requires tail == [] || tail == [Close(c.leader)]
    ensures DataWrites(Setup(c) + iters + tail) == DataWrites(iters)
  {
    DataWritesAppend(Setup(c), iters);
    DataWritesAppend(Setup(c) + iters, tail);
    assert DataWrites(Setup(c)) == [];
    assert DataWrites(tail) == [];
  }

  /** The whole run: the recording id is announced before the first tick, and
      tick k carries step k and deadline start_k + period, one tick per iteration. */
  lemma RunTicks(c: Cron, readings: seq<Reading>, interrupted: bool)
    ensures Run(c, readings, interrupted)[0] == OpenWrite(c.leader)
    ensures Run(c, readings, interrupted)[1] == Put(c.leader, Recording(RecordingName(c.recordingId)))
    ensures |DataWrites(Run(c, readings, interrupted))| == |readings|
    ensures forall k :: 0 <= k < |readings| ==>
              DataWrites(Run(c, readings, interrupted))[k] == TickMessage(c, k, readings[k].start)
  {
    var iters := Iterations(c, readings, 0);
    var tail: seq<Event> := if interrupted then [Close(c.leader)] else [];
    var ev := Run(c, readings, interrupted);
    assert ev == Setup(c) + iters + tail;
    assert ev[0] == Setup(c)[0] && ev[1] == Setup(c)[1];
    IterationTicks(c, readings, 0);
    SetupAndTailCarryNoData(c, iters, tail);
  }

  /** Sleeps are positive, nothing is opened for reading, and only the leader
      queue is ever closed: last, and exactly when the loop was ended by an exception. */
  lemma RunEvents(c: Cron, readings: seq<Reading>, interrupted: bool)
    ensures forall e :: e in Run(c, readings, interrupted) ==> !e.OpenRead?
    ensures forall e :: e in Run(c, readings, interrupted) && e.Sleep? ==> e.seconds > 0.0
    ensures forall i :: 0 <= i < |Run(c, readings, interrupted)| && Run(c, readings, interrupted)[i].Close? ==>
              interrupted && i == |Run(c, readings, interrupted)| - 1 && Run(c, readings, interrupted)[i].queue == c.leader
    ensures interrupted ==> Run(c, readings, interrupted)[|Run(c, readings, interrupted)| - 1] == Close(c.leader)
  {
    var iters := Iterations(c, readings, 0);
    var front := Setup(c) + iters;
    IterationEvents(c, readings, 0);
    assert forall e :: e in front ==> !e.OpenRead? && !e.Close? && (e.Sleep? ==> e.seconds > 0.0);
    var ev := Run(c, readings, interrupted);
    assert ev == front + (if interrupted then [Close(c.leader)] else []);
  }
}
