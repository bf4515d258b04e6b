/** The shared-memory frame block: one named byte region that hands a single
    image at a time from a producer process to a consumer process.

    Byte 0 is a state tag cycling FREE -> WRITING -> READY -> READING -> FREE;
    bytes 1-4 and 5-8 hold the width and the height as unsigned 32-bit integers
    (little-endian, the native order of the targets the program runs on); the
    row-major pixel data follows, always with three channels. Neither
    `WriteFrame` nor `ReadFrame` waits: each either performs its transition or
    refuses and leaves the region as it was. */
module SharedMemory {
  import opened Wrappers
  import Decimal

  type Byte = b: int | 0 <= b < 256

  /** The bytes of one shared-memory region. The operating system never hands
      out a region of size zero, so there is always a state byte. */
  type Region = r: seq<Byte> | |r| > 0 witness [0]

  const StateFree: Byte := 0
  const StateWriting: Byte := 1
  const StateReady: Byte := 2
  const StateReading: Byte := 3

  const HeaderSize: nat := 9
  const Channels: nat := 3
  const U32Limit: nat := 0x1_0000_0000

  /** A `uint8` image of shape (height, width, channels) and its bytes in
      row-major order. */
  datatype Frame = Frame(height: nat, width: nat, channels: nat, pixels: seq<Byte>)

  /** A frame whose byte count matches its shape, as every numpy array's does. */
  type Image = f: Frame | |f.pixels| == f.height * f.width * f.channels witness Frame(0, 0, 0, [])

  // ---------------------------------------------------------------------------
  // Header integers

  function EncodeU32(v: nat): (b: seq<Byte>)
    requires v < U32Limit
    ensures |b| == 4
  {
    [v % 256, (v / 256) % 256, (v / 256 / 256) % 256, v / 256 / 256 / 256]
  }

  function DecodeU32(b: seq<Byte>): (v: nat)
    requires |b| == 4
    ensures v < U32Limit
  {
    b[0] as int + 256 * (b[1] as int + 256 * (b[2] as int + 256 * b[3] as int))
  }

  lemma DecodeEncodeU32(v: nat)
    requires v < U32Limit
    ensures DecodeU32(EncodeU32(v)) == v
  {
  }

  lemma EncodeDecodeU32(b: seq<Byte>)
    requires |b| == 4
    ensures EncodeU32(DecodeU32(b)) == b
  {
    var x2 := b[2] as int + 256 * b[3] as int;
    var x1 := b[1] as int + 256 * x2;
    var v := b[0] as int + 256 * x1;
    DivMod256(b[0], x1);
    DivMod256(b[1], x2);
    DivMod256(b[2], b[3]);
  }

  lemma DivMod256(low: Byte, high: nat)
    ensures (low + 256 * high) % 256 == low
    ensures (low + 256 * high) / 256 == high
  {
  }

  // ---------------------------------------------------------------------------
  // Naming and the system's table of named regions

  /** The block name a camera's producer and consumer agree on. */
  function BlockName(cameraId: int): (name: string)
    ensures |name| > 10 && name[..10] == "shm_webcam"
  {
    "shm_webcam" + Decimal.IntToString(cameraId)
  }

  /** Two cameras never share a block. */
  lemma BlockNameInjective(a: int, b: int)
    ensures BlockName(a) == BlockName(b) <==> a == b
  {
    if BlockName(a) == BlockName(b) {
      assert Decimal.IntToString(a) == BlockName(a)[10..] == BlockName(b)[10..] == Decimal.IntToString(b);
      Decimal.IntToStringInjective(a, b);
    }
  }

  /** The named shared-memory regions that currently exist on the machine. */
  type Namespace = map<string, Region>

  datatype OpenError =
    | AlreadyExists   // FileExistsError: creating a name that is taken
    | BadSize         // ValueError: a new region needs a positive size
    | SizeRequired    // ValueError: the name does not exist and no size was given
    | NotFound        // FileNotFoundError: unlinking a name that no longer exists

  /** An attached block: its name and the size of its region. */
  datatype Block = Block(name: string, size: nat)

  datatype Opened = Opened(namespace: Namespace, block: Block)

  /** A fresh region as the operating system provides it: zero-filled. */
  function ZeroRegion(size: nat): (r: Region)
    requires size > 0
    ensures |r| == size
    ensures forall i :: 0 <= i < size ==> r[i] == 0
  {
    seq(size, i => 0)
  }

  /** `SharedMemoryBlock.create`: a new region whose state byte is FREE, then
      attached by name. Python's `SharedMemory` checks the size before it asks
      the operating system for the name, so a bad size wins over a taken name. */
  function Create(ns: Namespace, name: string, size: int): (r: Result<Opened, OpenError>)
    ensures size <= 0 ==> r == Err(BadSize)
    ensures size > 0 && name in ns ==> r == Err(AlreadyExists)
    ensures r.Ok? ==>
      && name !in ns && size > 0
      && r.value.block == Block(name, size)
      && r.value.namespace.Keys == ns.Keys + {name}
      && (forall n :: n in ns ==> r.value.namespace[n] == ns[n])
      && |r.value.namespace[name]| == size
      && r.value.namespace[name][0] == StateFree
  {
    if size <= 0 then Err(BadSize)
    else if name in ns then Err(AlreadyExists)
    else Ok(Opened(ns[name := ZeroRegion(size)], Block(name, size)))
  }

  /** `SharedMemoryBlock(name, size)`: attach to the region if it exists,
      otherwise create it, which needs a size. */
  function Attach(ns: Namespace, name: string, size: Option<int>): (r: Result<Opened, OpenError>)
    ensures name in ns ==> r == Ok(Opened(ns, Block(name, |ns[name]|)))
    ensures name !in ns && size.None? ==> r == Err(SizeRequired)
    ensures name !in ns && size.Some? ==> r == Create(ns, name, size.value)
  {
    if name in ns then Ok(Opened(ns, Block(name, |ns[name]|)))
    else if size.None? then Err(SizeRequired)
    else Create(ns, name, size.value)
  }

  /** `SharedMemoryBlock.unlink`: the name disappears from the system; the
      other regions are untouched. */
  function Unlink(ns: Namespace, b: Block): (r: Result<Namespace, OpenError>)
    ensures r.Err? <==> b.name !in ns
    ensures r.Err? ==> r.error == NotFound
    ensures r.Ok? ==> r.value.Keys == ns.Keys - {b.name} && forall n :: n in r.value ==> r.value[n] == ns[n]
  {
    if b.name !in ns then Err(NotFound) else Ok(ns - {b.name})
  }

  /** Unlinking a block just created restores the namespace it was created in. */
  lemma UnlinkUndoesCreate(ns: Namespace, name: string, size: int)
    requires Create(ns, name, size).Ok?
    ensures var o := Create(ns, name, size).value;
            Unlink(o.namespace, o.block) == Ok(ns)
  {
    var o := Create(ns, name, size).value;
    assert o.namespace - {name} == ns;
  }

  // ---------------------------------------------------------------------------
  // The header as stored in a region

  predicate HasHeader(region: Region) {
    |region| >= HeaderSize
  }

  function StoredWidth(region: Region): nat
    requires HasHeader(region)
  {
    DecodeU32(region[1..5])
  }

  function StoredHeight(region: Region): nat
    requires HasHeader(region)
  {
    DecodeU32(region[5..9])
  }

  /** The number of pixel bytes the header announces. */
  function StoredLength(region: Region): nat
    requires HasHeader(region)
  {
    var w := StoredWidth(region);
    var h := StoredHeight(region);
    PixelCount(w, h) * Channels
  }

  /** The number of pixels of a frame of the given width and height. */
  function PixelCount(w: nat, h: nat): (n: nat)
    ensures n == w * h
  {
    w * h
  }

  /** The header describes a frame that lies inside the region. */
  predicate HeaderFits(region: Region) {
    HasHeader(region) && HeaderSize + StoredLength(region) <= |region|
  }

  /** The frame the header and the data bytes describe. */
  function StoredFrame(region: Region): Image
    requires HeaderFits(region)
  {
    var w := StoredWidth(region);
    var h := StoredHeight(region);
    assert StoredLength(region) == h * w * Channels;
    Frame(h, w, Channels, region[HeaderSize..HeaderSize + StoredLength(region)])
  }

  // ---------------------------------------------------------------------------
  // write_frame

  datatype WriteOutcome =
    | Written   // returned True
    | Dropped   // returned False: busy, wrong channel count, or too large
    | Raised    // struct.pack_into raised: a dimension does not fit 32 bits

  datatype WriteResult = WriteResult(outcome: WriteOutcome, region: Region)

  /** The frame passes every check `write_frame` makes after the state check. */
  predicate Storable(size: nat, frame: Image) {
    && frame.channels == Channels
    && HeaderSize + |frame.pixels| <= size
    && frame.width < U32Limit
    && frame.height < U32Limit
  }

  /** `SharedMemoryBlock.write_frame`. */
  function WriteFrame(region: Region, frame: Image): (r: WriteResult)
    ensures |r.region| == |region|
    // busy: refused, nothing touched
    ensures region[0] != StateFree ==> r == WriteResult(Dropped, region)
    // wrong channel count or too large: refused, still FREE, nothing touched
    ensures region[0] == StateFree && (frame.channels != Channels || HeaderSize + |frame.pixels| > |region|) ==>
              r == WriteResult(Dropped, region)
    ensures r.outcome == Written <==> region[0] == StateFree && Storable(|region|, frame)
    ensures r.outcome == Written ==>
      && r.region[0] == StateReady
      && HasHeader(r.region)
      && StoredWidth(r.region) == frame.width
      && StoredHeight(r.region) == frame.height
      && r.region[HeaderSize..HeaderSize + |frame.pixels|] == frame.pixels
      && r.region[HeaderSize + |frame.pixels|..] == region[HeaderSize + |frame.pixels|..]
    // a frame that passes both checks but has a dimension of 2^32 or more raises
    ensures (region[0] == StateFree && frame.channels == Channels && HeaderSize + |frame.pixels| <= |region|
             && !Storable(|region|, frame)) ==> r.outcome == Raised
    // the exception leaves the block stuck in WRITING with the pixels untouched
    ensures r.outcome == Raised ==>
      && r.region[0] == StateWriting
      && r.region[HeaderSize..] == region[HeaderSize..]
  {
    if region[0] != StateFree then WriteResult(Dropped, region)
    else if frame.channels != Channels then WriteResult(Dropped, region)
    else if HeaderSize + |frame.pixels| > |region| then WriteResult(Dropped, region)
    else
      var writing := region[0 := StateWriting];
      if frame.width >= U32Limit then WriteResult(Raised, writing)
      else if frame.height >= U32Limit then
        WriteResult(Raised, writing[..1] + EncodeU32(frame.width) + writing[5..])
      else
        var n := |frame.pixels|;
        var written := [StateReady] + EncodeU32(frame.width) + EncodeU32(frame.height)
                       + frame.pixels + region[HeaderSize + n..];
        assert written[1..5] == EncodeU32(frame.width);
        assert written[5..9] == EncodeU32(frame.height);
        DecodeEncodeU32(frame.width);
        DecodeEncodeU32(frame.height);
        WriteResult(Written, written)
  }

  /** The number of elements of an array of the given shape. */
  function Product(shape: seq<nat>): nat {
    if |shape| == 0 then 1 else shape[0] * Product(shape[1..])
  }

  /** A `uint8` array of any shape, with its bytes in row-major order. */
  datatype Array = Array(shape: seq<nat>, bytes: seq<Byte>)

  type ByteArray = a: Array | |a.bytes| == Product(a.shape) witness Array([], [0])

  /** `write_frame` on an array of any rank: the state byte is set to WRITING
      before `frame.shape` is unpacked into three names, so an array that is
      not three-dimensional raises there and leaves the block in WRITING. */
  function WriteArray(region: Region, a: ByteArray): (r: WriteResult)
    ensures region[0] != StateFree ==> r == WriteResult(Dropped, region)
    ensures region[0] == StateFree && |a.shape| != 3 ==> r == WriteResult(Raised, region[0 := StateWriting])
    ensures |a.shape| == 3 ==>
              var h, w, c := a.shape[0], a.shape[1], a.shape[2];
              |a.bytes| == h * w * c && r == WriteFrame(region, Frame(h, w, c, a.bytes))
  {
    // a three-dimensional array goes through `WriteFrame`, which makes the busy check first
    if |a.shape| == 3 then
      Product3(a.shape);
      WriteFrame(region, Frame(a.shape[0], a.shape[1], a.shape[2], a.bytes))
    else if region[0] != StateFree then WriteResult(Dropped, region)
    else WriteResult(Raised, region[0 := StateWriting])
  }

  lemma Product3(shape: seq<nat>)
    requires |shape| == 3
    ensures Product(shape) == shape[0] * shape[1] * shape[2]
  {
    assert shape[1..][1..][1..] == [];
    assert Product(shape[1..][1..]) == shape[2];
    assert shape[0] * (shape[1] * shape[2]) == shape[0] * shape[1] * shape[2];
  }

  /** A write that raised leaves the block in WRITING for good: every later
      write is dropped and every read finds nothing ready. */
  lemma RaisedWriteBlocks(region: Region, a: ByteArray, later: Image)
    requires WriteArray(region, a).outcome == Raised
    ensures var stuck := WriteArray(region, a).region;
            && WriteFrame(stuck, later) == WriteResult(Dropped, stuck)
            && ReadFrame(stuck) == ReadResult(NotReady, stuck)
  {
  }

  // ---------------------------------------------------------------------------
  // read_frame

  datatype ReadOutcome =
    | NotReady            // returned None
    | Read(image: Image)  // returned the frame
    | ReadRaised          // the header is unreadable or announces more bytes than exist

  datatype ReadResult = ReadResult(outcome: ReadOutcome, region: Region)

  /** `SharedMemoryBlock.read_frame`. */
  function ReadFrame(region: Region): (r: ReadResult)
    ensures |r.region| == |region|
    ensures region[0] != StateReady ==> r == ReadResult(NotReady, region)
    ensures r.outcome.Read? <==> region[0] == StateReady && HeaderFits(region)
    ensures r.outcome.Read? ==>
      && r.outcome.image.height == StoredHeight(region)
      && r.outcome.image.width == StoredWidth(region)
      && r.outcome.image.channels == Channels
      && r.outcome.image.pixels == region[HeaderSize..HeaderSize + StoredLength(region)]
      && r.region == region[0 := StateFree]
    ensures region[0] == StateReady && !HeaderFits(region) ==> r == ReadResult(ReadRaised, region[0 := StateReading])
    ensures r.outcome == ReadRaised ==> r.region == region[0 := StateReading]
  {
    if region[0] != StateReady then ReadResult(NotReady, region)
    else if !HeaderFits(region) then ReadResult(ReadRaised, region[0 := StateReading])
    else ReadResult(Read(StoredFrame(region)), region[0 := StateFree])
  }

  // ---------------------------------------------------------------------------
  // Properties across calls

  /** Write then read from FREE returns the very frame written and frees the block. */
  lemma WriteReadRoundTrip(region: Region, frame: Image)
    requires region[0] == StateFree
    requires WriteFrame(region, frame).outcome == Written
    ensures ReadFrame(WriteFrame(region, frame).region).outcome == Read(frame)
    ensures ReadFrame(WriteFrame(region, frame).region).region[0] == StateFree
    ensures ReadFrame(WriteFrame(region, frame).region).region[1..] == WriteFrame(region, frame).region[1..]
  {
    var written := WriteFrame(region, frame).region;
    ShapeBytes(frame);
    assert StoredLength(written) == |frame.pixels|;
  }

  /** The byte count of an image, with the factors in header order. */
  lemma ShapeBytes(f: Image)
    ensures f.width * f.height * f.channels == |f.pixels|
  {
    assert f.width * f.height == f.height * f.width;
  }

  /** Two writes without a read in between: the second is dropped and the
      first frame is still the one a reader gets. */
  lemma SecondWriteDropped(region: Region, first: Image, second: Image)
    requires WriteFrame(region, first).outcome == Written
    ensures WriteFrame(WriteFrame(region, first).region, second) ==
            WriteResult(Dropped, WriteFrame(region, first).region)
    ensures ReadFrame(WriteFrame(WriteFrame(region, first).region, second).region).outcome == Read(first)
  {
    WriteReadRoundTrip(region, first);
  }

  /** A region is coherent when a READY tag always comes with a header that
      fits; every region reached from creation through completed calls is. */
  predicate Coherent(region: Region) {
    region[0] == StateReady ==> HeaderFits(region)
  }

  lemma CreatedRegionCoherent(ns: Namespace, name: string, size: int)
    requires Create(ns, name, size).Ok?
    ensures Coherent(Create(ns, name, size).value.namespace[name])
  {
  }

  lemma WritePreservesCoherent(region: Region, frame: Image)
    requires Coherent(region)
    ensures Coherent(WriteFrame(region, frame).region)
  {
    var r := WriteFrame(region, frame);
    if r.outcome == Written {
      ShapeBytes(frame);
    }
  }

  lemma ReadPreservesCoherent(region: Region)
    requires Coherent(region)
    ensures Coherent(ReadFrame(region).region)
  {
  }

  /** On a coherent region `read_frame` never fails. */
  lemma CoherentReadNeverRaises(region: Region)
    requires Coherent(region)
    ensures ReadFrame(region).outcome != ReadRaised
  {
  }

  // ---------------------------------------------------------------------------
  // The block as a one-slot mailbox

  /** At rest: no call is half-way (state FREE or READY) and the region is coherent. */
  predicate AtRest(region: Region) {
    (region[0] == StateFree || region[0] == StateReady) && Coherent(region)
  }

  /** The pending frame the region holds, if any. */
  function Pending(region: Region): Option<Image>
    requires AtRest(region)
  {
    if region[0] == StateReady then Some(StoredFrame(region)) else None
  }

  /** A write to a region at rest behaves like a put into a one-slot mailbox:
      accepted exactly when the slot is empty and the frame is storable, and
      then the slot holds that frame; otherwise the slot is unchanged. */
  lemma WriteIsSlotPut(region: Region, frame: Image)
    requires AtRest(region)
    requires WriteFrame(region, frame).outcome != Raised
    ensures AtRest(WriteFrame(region, frame).region)
    ensures WriteFrame(region, frame).outcome == Written <==>
              Pending(region).None? && Storable(|region|, frame)
    ensures Pending(WriteFrame(region, frame).region) ==
              if WriteFrame(region, frame).outcome == Written then Some(frame) else Pending(region)
  {
    WritePreservesCoherent(region, frame);
    if WriteFrame(region, frame).outcome == Written {
      WriteReadRoundTrip(region, frame);
    }
  }

  /** A read from a region at rest takes the pending frame out of the slot. */
  lemma ReadIsSlotTake(region: Region)
    requires AtRest(region)
    ensures AtRest(ReadFrame(region).region)
    ensures Pending(ReadFrame(region).region).None?
    ensures ReadFrame(region).outcome ==
              if Pending(region).Some? then Read(Pending(region).value) else NotReady
  {
  }
}
