/** What travels between worker processes, and the observable events a worker
    produces: queue opens, writes and closes, logged deadline overruns, sleeps
    and operations on devices and shared-memory blocks.

    The queue implementation itself (its framing and its "latest wins" drain)
    is not part of this model: a worker's input is the sequence of results its
    polls returned, and its outputs are the events it emits. */
module Messages {

  /** The message kinds that appear on the queues. */
  datatype MsgType =
    | Empty            // a tick or a trigger
    | Pos              // motor positions in steps
    | PosForce         // positions and control forces
    | QposRenderForce  // simulation state, renders and forces
    | QposQposRgb      // two joint states and a render
    | Bgr              // a camera image
    | ObjectDetection  // "a frame is waiting in shared memory"
    | PoisonPill       // shut down
    | RecordingId      // a telemetry session starts

  /** The payload shapes the core inspects; images, renders and detections are
      transported without being interpreted. */
  datatype Payload =
    | NoPayload
    | Steps(pos: seq<int>)
    | StepsWithForce(pos: seq<int>, force: seq<int>)
    | RecordingName(id: string)
    | Opaque(content: seq<int>)

  /** One message: its kind, the cycle's deadline and step, and the payload. */
  datatype Envelope = Envelope(msgType: MsgType, deadline: real, step: int, payload: Payload)

  predicate IsControl(t: MsgType) {
    t == PoisonPill || t == RecordingId
  }

  /** One write on an output queue. */
  datatype Write =
    | Data(envelope: Envelope)   // `write`
    | Pill                       // `send_poison_pill`
    | Recording(id: Payload)     // `send_recording_id`

  datatype DeviceOp =
    | ConnectFollower
    | DisconnectFollower
    | AttachBlock(name: string, size: int)
    | CloseBlock(name: string)

  /** A queue, identified by its name. */
  type Queue = string

  datatype Event =
    | OpenRead(queue: Queue)
    | OpenWrite(queue: Queue)
    | Put(queue: Queue, write: Write)
    | Close(queue: Queue)
    | Overrun(step: int, late: real)   // a logged deadline overrun, by `late` seconds
    | Sleep(seconds: real)
    | Device(op: DeviceOp)

  /** The same write on every queue, in list order. */
  function Broadcast(queues: seq<Queue>, w: Write): (r: seq<Event>)
    ensures |r| == |queues|
    ensures forall i :: 0 <= i < |r| ==> r[i] == Put(queues[i], w)
  {
    if |queues| == 0 then [] else [Put(queues[0], w)] + Broadcast(queues[1..], w)
  }

  function OpenAllForWrite(queues: seq<Queue>): (r: seq<Event>)
    ensures |r| == |queues|
    ensures forall i :: 0 <= i < |r| ==> r[i] == OpenWrite(queues[i])
  {
    if |queues| == 0 then [] else [OpenWrite(queues[0])] + OpenAllForWrite(queues[1..])
  }

  function CloseAll(queues: seq<Queue>): (r: seq<Event>)
    ensures |r| == |queues|
    ensures forall i :: 0 <= i < |r| ==> r[i] == Close(queues[i])
  {
    if |queues| == 0 then [] else [Close(queues[0])] + CloseAll(queues[1..])
  }

  /** The events with logged overruns removed. */
  function WithoutOverruns(events: seq<Event>): (r: seq<Event>)
    ensures |r| <= |events|
    ensures forall i :: 0 <= i < |r| ==> !r[i].Overrun?
    ensures forall e :: e in events && !e.Overrun? ==> e in r
  {
    if |events| == 0 then []
    else if events[0].Overrun? then WithoutOverruns(events[1..])
    else [events[0]] + WithoutOverruns(events[1..])
  }

  lemma {:induction false} WithoutOverrunsAppend(a: seq<Event>, b: seq<Event>)
    ensures WithoutOverruns(a + b) == WithoutOverruns(a) + WithoutOverruns(b)
  {
    if |a| == 0 {
      assert a + b == b;
    } else {
      assert (a + b)[1..] == a[1..] + b;
      WithoutOverrunsAppend(a[1..], b);
    }
  }

  /** The data messages among the events, in order. */
  function DataWrites(events: seq<Event>): (r: seq<Envelope>)
    ensures |r| <= |events|
  {
    if |events| == 0 then []
    else if events[0].Put? && events[0].write.Data? then [events[0].write.envelope] + DataWrites(events[1..])
    else DataWrites(events[1..])
  }

  lemma {:induction false} DataWritesAppend(a: seq<Event>, b: seq<Event>)
    ensures DataWrites(a + b) == DataWrites(a) + DataWrites(b)
  {
    if |a| == 0 {
      assert a + b == b;
    } else {
      assert (a + b)[1..] == a[1..] + b;
      DataWritesAppend(a[1..], b);
    }
  }

  /** A sequence that starts with `a + b` starts with `a`, and `b` follows it. */
  lemma HeadParts<T>(s: seq<T>, a: seq<T>, b: seq<T>)
    requires |s| >= |a| + |b| && s[..|a| + |b|] == a + b
    ensures s[..|a|] == a
    ensures forall i :: 0 <= i < |b| ==> s[|a| + i] == b[i]
  {
    assert s[..|a|] == (a + b)[..|a|];
    forall i | 0 <= i < |b| ensures s[|a| + i] == b[i] {
      assert s[|a| + i] == (a + b)[|a| + i];
    }
  }

  /** A sequence that ends with `a + b` ends with `b`, and `a` precedes it. */
  lemma TailParts<T>(s: seq<T>, a: seq<T>, b: seq<T>)
    requires |s| >= |a| + |b| && s[|s| - |a| - |b|..] == a + b
    ensures s[|s| - |b|..] == b
    ensures forall i :: 0 <= i < |a| ==> s[|s| - |a| - |b| + i] == a[i]
  {
    var start := |s| - |a| - |b|;
    assert s[|s| - |b|..] == s[start..][|a|..] == (a + b)[|a|..];
    forall i | 0 <= i < |a| ensures s[start + i] == a[i] {
      assert s[start + i] == s[start..][i] == (a + b)[i];
    }
  }

  /** A sequence that ends with `a + (b + c)` ends with `c`, preceded by `b`, preceded by `a`. */
  lemma TailParts3<T>(s: seq<T>, a: seq<T>, b: seq<T>, c: seq<T>)
    requires |s| >= |a| + |b| + |c| && s[|s| - |a| - |b| - |c|..] == a + (b + c)
    ensures s[|s| - |c|..] == c
    ensures forall i :: 0 <= i < |a| ==> s[|s| - |a| - |b| - |c| + i] == a[i]
    ensures forall i :: 0 <= i < |b| ==> s[|s| - |b| - |c| + i] == b[i]
  {
    TailParts(s, a, b + c);
    TailParts(s, b, c);
  }
}
