/** What the receiving side computes: one chunk, one message, a whole input. */
module ChunkReader {
  import opened Bytes
  import opened Wire

  const MAX_POOL_SIZE := 1024 * 1024
  const EXTENDED := 0xFF_FFFF

  const SET_CHUNK_SIZE := 1
  const ACK := 3
  const WINDOW_ACK_SIZE := 5

  datatype Message = Message(csid: nat, timestamp: nat, typeID: nat, streamID: nat, payload: seq<byte>)

  /** What a receiver remembers of one chunk stream; body is the part of the message already received. */
  datatype Stream = Stream(
    format: nat, csid: nat, timestamp: nat, length: nat, typeID: nat, streamID: nat,
    timeDelta: nat, exted: bool, body: seq<byte>)
  {
    function Remain(): nat {
      if |body| <= length then length - |body| else 0
    }

    function Fresh(): Stream {
      this.(body := [])
    }

    function Delivered(): Message {
      Message(csid, timestamp, typeID, streamID, body)
    }
  }

  const Unused := Stream(0, 0, 0, 0, 0, 0, 0, false, [])

  function Add32(a: nat, b: nat): nat {
    (a + b) % 0x1_0000_0000
  }

  datatype HeadOut =
    | Head(st: Stream, c: Cursor)
    | NoHead(err: ReadError)
    | TooLong

  datatype ChunkOut =
    | Chunk(st: Stream, c: Cursor)
    | NoChunk(err: ReadError)
    | Panic

  /** Reading only consumes, and an error stays. */
  predicate Follows(c1: Cursor, c: Cursor) {
    c1.err.None? ==> c.err.None? && |c1.rest| <= |c.rest|
  }

  /** The chunk stream id: the 6-bit slot itself, or 64 plus one or two further bytes for slots 0 and 1. */
  function ReadId(slot: nat, c: Cursor): (r: (nat, Cursor))
    ensures Follows(r.1, c)
  {
    if slot == 0 then var (id, c1) := TakeLE(c, 1); (id + 64, c1)
    else if slot == 1 then var (id, c1) := TakeLE(c, 2); (id + 64, c1)
    else (slot, c)
  }

  /** A 24-bit time field whose value is in a further 32 bits when it is all ones. */
  function ReadExtended(field: nat, c: Cursor): (r: (nat, Cursor))
    ensures Follows(r.1, c)
  {
    if field == EXTENDED then TakeBE(c, 4) else (field, c)
  }

  function ReadFull(st: Stream, c: Cursor): (h: HeadOut)
    ensures h.Head? ==> Follows(h.c, c)
  {
    var (ts, c1) := TakeBE(c, 3);
    var (len, c2) := TakeBE(c1, 3);
    var (ty, c3) := TakeBE(c2, 1);
    var (sid, c4) := TakeLE(c3, 4);
    var (time, c5) := ReadExtended(ts, c4);
    Head(st.(format := 0, timestamp := time, length := len, typeID := ty, streamID := sid,
             exted := ts == EXTENDED, body := []), c5)
  }

  function ReadDelta(st: Stream, c: Cursor): (h: HeadOut)
    ensures h.Head? ==> Follows(h.c, c)
  {
    var (ts, c1) := TakeBE(c, 3);
    var (len, c2) := TakeBE(c1, 3);
    var (ty, c3) := TakeBE(c2, 1);
    var (delta, c4) := ReadExtended(ts, c3);
    Head(st.(format := 1, timestamp := Add32(st.timestamp, delta), timeDelta := delta, length := len,
             typeID := ty, exted := ts == EXTENDED, body := []), c4)
  }

  function ReadShort(st: Stream, c: Cursor): (h: HeadOut)
    ensures h.Head? ==> Follows(h.c, c)
  {
    var (ts, c1) := TakeBE(c, 3);
    var (delta, c2) := ReadExtended(ts, c1);
    Head(st.(format := 2, timestamp := Add32(st.timestamp, delta), timeDelta := delta,
             exted := ts == EXTENDED, body := []), c2)
  }

  /** A type 3 header that starts a message. */
  function ReadRepeat(st: Stream, c: Cursor): (h: HeadOut)
    ensures h.Head? ==> Follows(h.c, c)
  {
    if st.format == 0 then
      if st.exted then
        var (ts, c1) := TakeBE(c, 4);
        Head(st.(timestamp := ts, body := []), c1)
      else Head(st.Fresh(), c)
    else
      var (delta, c1) := if st.exted then TakeBE(c, 4) else (st.timeDelta, c);
      Head(st.(timestamp := Add32(st.timestamp, delta), body := []), c1)
  }

  /** A type 3 header inside a message: the extended timestamp is skipped only if it equals the timestamp. */
  function ReadMore(st: Stream, c: Cursor): (h: HeadOut)
    ensures h.Head? ==> Follows(h.c, c)
  {
    if !st.exted then Head(st, c)
    else if |c.rest| < 4 then NoHead(EOF)
    else if BEVal(c.rest[..4]) == st.timestamp then Head(st, Cursor(c.rest[4..], c.err))
    else Head(st, c)
  }

  /** The message header: unsent fields keep their values, and a new message gets a buffer from the pool. */
  function ReadHead(st: Stream, fmt: nat, c: Cursor): (h: HeadOut)
    ensures h.Head? ==> Follows(h.c, c)
  {
    if fmt == 3 && st.Remain() != 0 then ReadMore(st, c)
    else
      var h := if fmt == 0 then ReadFull(st, c)
               else if fmt == 1 then ReadDelta(st, c)
               else if fmt == 2 then ReadShort(st, c)
               else ReadRepeat(st, c);
      if h.Head? && h.st.length > MAX_POOL_SIZE then TooLong else h
  }

  function ReadBody(st: Stream, c: Cursor, size: nat): (o: ChunkOut)
    ensures o.Chunk? ==> Follows(o.c, c) && o.c.err.None?
  {
    var n := if st.Remain() > size then size else st.Remain();
    var (p, c1) := TakeBytes(c, n);
    if c1.err.Some? then NoChunk(c1.err.value) else Chunk(st.(body := st.body + p), c1)
  }

  function ReadHeaded(st: Stream, fmt: nat, c: Cursor, size: nat): (o: ChunkOut)
    ensures o.Chunk? ==> Follows(o.c, c) && o.c.err.None?
  {
    match ReadHead(st, fmt, c)
    case NoHead(e) => NoChunk(e)
    case TooLong => Panic
    case Head(st1, c1) => ReadBody(st1, c1, size)
  }

  function ReadChunk(st: Stream, fmt: nat, slot: nat, c: Cursor, size: nat): (o: ChunkOut)
    ensures o.Chunk? ==> Follows(o.c, c) && o.c.err.None?
  {
    if st.Remain() != 0 && fmt != 3 then NoChunk(InvalidRemain(st.Remain()))
    else
      var (id, c1) := ReadId(slot, c);
      ReadHeaded(st.(csid := id), fmt, c1, size)
  }

  /** The chunk stream id a chunk is read with comes from its basic header. */
  lemma IdComesFromHeader(st: Stream, id: nat, fmt: nat, slot: nat, c: Cursor, size: nat)
    ensures ReadChunk(st.(csid := id), fmt, slot, c, size) == ReadChunk(st, fmt, slot, c, size)
  {
    hide ReadHeaded;
    assert st.(csid := id).(csid := ReadId(slot, c).0) == st.(csid := ReadId(slot, c).0);
  }

  /** The receiving half of a connection. */
  datatype Receiver = Receiver(
    chunks: map<nat, Stream>, chunkSize: nat, window: nat, received: nat, ackReceived: nat)

  const NewReceiver := Receiver(map[], 128, 2500000, 0, 0)

  function Slot(chunks: map<nat, Stream>, slot: nat): Stream {
    if slot in chunks then chunks[slot] else Unused
  }

  /** One turn of the reading loop: a basic header, then the chunk it announces. */
  function ReadOne(r: Receiver, c: Cursor): (o: ChunkOut)
    ensures o.Chunk? ==> |o.c.rest| < |c.rest| && o.c.err.None? && c.err.None?
  {
    var (h, c1) := TakeBE(c, 1);
    ReadChunk(Slot(r.chunks, h % 64), h / 64, h % 64, c1, r.chunkSize)
  }

  /** The slot addressed by the next basic header. */
  function NextSlot(c: Cursor): nat {
    TakeBE(c, 1).0 % 64
  }

  function Control(r: Receiver, m: Message): Option<Receiver> {
    if m.typeID == SET_CHUNK_SIZE then
      if |m.payload| < 4 then None else Some(r.(chunkSize := BEVal(m.payload[..4])))
    else if m.typeID == WINDOW_ACK_SIZE then
      if |m.payload| < 4 then None else Some(r.(window := BEVal(m.payload[..4])))
    else Some(r)
  }

  /** The receiver after counting n further bytes, and the acknowledgement this makes it send. */
  function CountBytes(r: Receiver, n: nat): (Receiver, Option<nat>) {
    var total := Add32(r.received, n);
    var unacked := Add32(r.ackReceived, n);
    var r1 := r.(received := if total >= 0xF000_0000 then 0 else total, ackReceived := unacked);
    if unacked >= r.window then (r1.(ackReceived := 0), Some(unacked)) else (r1, None)
  }

  datatype MessageOut =
    | Received(m: Message, ack: Option<nat>, r: Receiver, c: Cursor)
    | Failed(err: ReadError)
    | Crashed

  function Deliver(r: Receiver, m: Message, c: Cursor): MessageOut {
    match Control(r, m)
    case None => Crashed
    case Some(r1) =>
      var (r2, ack) := CountBytes(r1, |m.payload|);
      Received(m, ack, r2, c)
  }

  /** Chunks are read until one of them completes a message. */
  function ReadMessage(r: Receiver, c: Cursor): (o: MessageOut)
    ensures o.Received? ==> |o.c.rest| < |c.rest| && o.c.err.None?
    decreases |c.rest|
  {
    match ReadOne(r, c)
    case NoChunk(e) => Failed(e)
    case Panic => Crashed
    case Chunk(st, c1) =>
      var r1 := r.(chunks := r.chunks[NextSlot(c) := st]);
      if st.Remain() == 0 then Deliver(r1, st.Delivered(), c1) else ReadMessage(r1, c1)
  }

  /** Everything an input yields: the messages, the acknowledgements sent, the counters and sizes at the end. */
  datatype Session = Session(
    messages: seq<Message>, acks: seq<nat>, chunkSize: nat, window: nat, received: nat, ackReceived: nat, crashed: bool)

  function Over(r: Receiver, crashed: bool): Session {
    Session([], [], r.chunkSize, r.window, r.received, r.ackReceived, crashed)
  }

  function ReadAll(r: Receiver, c: Cursor): Session
    decreases |c.rest|
  {
    match ReadMessage(r, c)
    case Failed(_) => Over(r, false)
    case Crashed => Over(r, true)
    case Received(m, ack, r1, c1) =>
      var s := ReadAll(r1, c1);
      s.(messages := [m] + s.messages, acks := (if ack.Some? then [ack.value] else []) + s.acks)
  }

  /** A chunk that does not complete a message changes nothing but the receiver's chunk streams. */
  lemma ReadAllOpen(r: Receiver, c: Cursor)
    requires ReadOne(r, c).Chunk? && ReadOne(r, c).st.Remain() != 0
    ensures ReadAll(r, c) == ReadAll(r.(chunks := r.chunks[NextSlot(c) := ReadOne(r, c).st]), ReadOne(r, c).c)
  {
  }

  /** A delivered message is the first of the session. */
  lemma ReadAllDelivers(r: Receiver, c: Cursor, m: Message, ack: Option<nat>, r1: Receiver, c1: Cursor)
    requires ReadMessage(r, c) == Received(m, ack, r1, c1)
    ensures ReadAll(r, c).messages == [m] + ReadAll(r1, c1).messages
    ensures ReadAll(r, c).acks == (if ack.Some? then [ack.value] else []) + ReadAll(r1, c1).acks
    ensures ReadAll(r, c).chunkSize == ReadAll(r1, c1).chunkSize
    ensures ReadAll(r, c).window == ReadAll(r1, c1).window && ReadAll(r, c).received == ReadAll(r1, c1).received
    ensures ReadAll(r, c).ackReceived == ReadAll(r1, c1).ackReceived
    ensures ReadAll(r, c).crashed == ReadAll(r1, c1).crashed
  {
    hide ReadOne, Deliver;
  }
}
