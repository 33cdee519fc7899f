/** The connection: it demultiplexes chunks, follows control messages, acknowledges, and writes messages. */
module Connections {
  import opened Bytes
  import opened Wire
  import opened ChunkReader
  import opened ChunkWriter
  import opened Pools
  import opened ChunkStreams

  /** A message handed to the caller, and the memory that holds its payload. */
  datatype Handed = Handed(memory: Slice, message: Message)

  const CONTROL_STREAM := 2
  const SET_PEER_BANDWIDTH := 6

  /** A protocol control message that carries one 32-bit value. */
  function ControlMessage(typeID: u32, value: u32): Message {
    Message(CONTROL_STREAM, 0, typeID, 0, BE(value, 4))
  }

  /** What an acknowledgement puts on the wire. */
  function AckBytes(ack: Option<nat>, chunkSize: nat): seq<byte>
    requires chunkSize > 0 && (ack.Some? ==> ack.value < 0x1_0000_0000)
  {
    if ack.Some? then WriteChunks(ControlMessage(ACK, ack.value), chunkSize) else []
  }

  /** No two chunk streams share memory. */
  ghost predicate Apart(chunks: map<nat, ChunkValue>) {
    forall j, k :: j in chunks && k in chunks && j != k ==> chunks[j].data.Disjoint(chunks[k].data)
  }

  /** No message in progress can reach the memory of a delivered one. */
  ghost predicate Shielded(chunks: map<nat, ChunkValue>, history: seq<Handed>) {
    forall k, h :: k in chunks && h in history && chunks[k].remain != 0 ==> h.memory.Disjoint(chunks[k].data)
  }

  lemma StaysApart(chunks: map<nat, ChunkValue>, history: seq<Handed>, slot: nat, v: ChunkValue)
    requires Apart(chunks) && Shielded(chunks, history)
    requires forall k :: k in chunks && k != slot ==> chunks[k].data.Disjoint(v.data)
    requires v.remain != 0 ==> forall h :: h in history ==> h.memory.Disjoint(v.data)
    ensures Apart(chunks[slot := v]) && Shielded(chunks[slot := v], history)
  {
  }

  class Conn {
    const rw: ReadWriter
    const pool: Pool
    var chunkSize: u32
    var remoteChunkSize: u32
    var windowAckSize: u32
    var remoteWindowAckSize: u32
    var received: u32
    var ackReceived: u32
    var chunks: map<nat, ChunkValue>
    // what the chunk streams hold, and every message delivered so far
    ghost var streams: map<nat, Stream>
    ghost var history: seq<Handed>

    constructor (rw: ReadWriter)
      requires rw.Valid()
      ensures Valid() && this.rw == rw && View() == NewReceiver && chunkSize == 128 && history == []
      ensures fresh(pool) && fresh(pool.bufs)
    {
      this.rw := rw;
      pool := new Pool();
      chunkSize, remoteChunkSize := 128, 128;
      windowAckSize, remoteWindowAckSize := 2500000, 2500000;
      received, ackReceived, chunks, streams, history := 0, 0, map[], map[], [];
    }

    /** A stored struct is consistent, owns pool memory, and holds what st says. */
    ghost predicate SlotHolds(k: nat, v: ChunkValue, st: Stream)
      reads pool, pool.bufs
    {
      k < 64 && v.Valid() && pool.Spent(v.data) && v.Abs() == st
    }

    ghost predicate SlotsHold()
      reads this`chunks, this`streams, pool, pool.bufs
    {
      chunks.Keys == streams.Keys && forall k :: k in chunks ==> SlotHolds(k, chunks[k], streams[k])
    }

    /** Every message ever delivered still has its payload. */
    ghost predicate HistoryKept()
      reads this`history, pool, pool.bufs
    {
      forall h :: h in history ==> pool.Spent(h.memory) && h.memory.Contents() == h.message.payload
    }

    ghost predicate Valid()
      reads this, rw, pool, pool.bufs
    {
      rw.Valid() && pool.Valid() && chunkSize > 0 && SlotsHold() && HistoryKept() &&
      Apart(chunks) && Shielded(chunks, history)
    }

    ghost function View(): Receiver
      reads this
    {
      Receiver(streams, remoteChunkSize, remoteWindowAckSize, received, ackReceived)
    }

    /** A chunk read into a slot owns its memory: alone, or as the slot did before. */
    ghost predicate Storable(v: ChunkValue, slot: nat)
      reads this, pool
    {
      v.Valid() && pool.Spent(v.data) && slot < 64 &&
      (forall k :: k in chunks && k != slot ==> chunks[k].data.Disjoint(v.data)) &&
      (v.remain != 0 ==> forall h :: h in history ==> h.memory.Disjoint(v.data))
    }

    lemma FitsSlot(v: ChunkValue, slot: nat)
      requires Storable(v, slot)
      ensures SlotHolds(slot, v, v.Abs())
    {
    }

    method Store(v: ChunkValue, slot: nat)
      requires Valid() && Storable(v, slot)
      modifies this`chunks, this`streams
      ensures Valid() && streams == old(streams)[slot := v.Abs()] && chunks == old(chunks)[slot := v]
    {
      hide Apart, Shielded, SlotHolds;
      StaysApart(chunks, history, slot, v);
      FitsSlot(v, slot);
      chunks := chunks[slot := v];
      streams := streams[slot := v.Abs()];
    }

    /** The chunk stream as the loop finds it: a copy of the stored struct, or a new one. */
    method Load(slot: u32, format: nat) returns (cs: ChunkStream)
      requires Valid() && slot < 64
      modifies this`chunks, this`streams
      ensures fresh(cs) && cs.tmpFormat == format && slot in chunks && cs.v == chunks[slot].(csid := slot)
      ensures Valid() && streams == old(streams)[slot := Slot(old(streams), slot)]
    {
      if slot !in chunks {
        assert ZeroChunk.Abs() == Unused;
        Store(ZeroChunk, slot);
      } else {
        assert streams == streams[slot := streams[slot]];
      }
      hide Valid;
      cs := new ChunkStream(chunks[slot].(csid := slot), format);
    }

    /** The memory that must survive a chunk read into a slot. */
    ghost function InUse(slot: u32): set<Slice>
      requires slot in chunks
      reads this
    {
      (set k | k in chunks :: chunks[k].Filled()) + (set k | k in chunks && k != slot :: chunks[k].data) +
      (set h | h in history :: h.memory)
    }

    lemma InUseIsKept(slot: u32)
      requires Valid() && slot in chunks
      ensures var v := chunks[slot];
              forall s :: s in InUse(slot) ==> pool.Spent(s) && (v.remain == 0 || s.Disjoint(v.data.From(v.index)))
    {
      var v := chunks[slot];
      forall s | s in InUse(slot)
        ensures pool.Spent(s) && (v.remain == 0 || s.Disjoint(v.data.From(v.index)))
      {
        if k :| k in chunks && s == chunks[k].Filled() {
          assert k != slot ==> chunks[k].data.Disjoint(v.data);
        } else if k :| k in chunks && k != slot && s == chunks[k].data {
          assert chunks[k].data.Disjoint(v.data);
        } else {
          var h :| h in history && s == h.memory;
          assert v.remain != 0 ==> h.memory.Disjoint(v.data);
        }
      }
    }

    /** Reads one chunk into a copy of its slot; the stored slots and the history keep their contents. */
    method ReadInto(cs: ChunkStream, slot: u32, ghost c: Cursor) returns (o: Outcome)
      requires Valid() && slot in chunks && cs.tmpFormat < 4 && rw.Cur() == c && cs.v == chunks[slot].(csid := slot)
      modifies cs`v, rw`pos, rw`readError, pool, pool.bufs
      ensures rw.Valid() && pool.Valid() && old(pool.bufs) <= pool.bufs && fresh(pool.bufs - old(pool.bufs))
      ensures o == OutcomeOf(ChunkReader.ReadChunk(streams[slot], cs.tmpFormat, slot, c, remoteChunkSize))
      ensures o.Done? ==> cs.Valid(pool) && cs.v.got == (cs.v.remain == 0)
      ensures o.Done? ==> ChunkReader.ReadChunk(streams[slot], cs.tmpFormat, slot, c, remoteChunkSize) == Chunk(cs.v.Abs(), rw.Cur())
      ensures !o.Panicked? ==> forall s :: s in InUse(slot) ==> pool.Spent(s) && s.Contents() == old(s.Contents())
      ensures o.Done? ==> if chunks[slot].remain == 0 then forall s :: s in InUse(slot) ==> s.Disjoint(cs.v.data)
                          else cs.v.data == chunks[slot].data
      ensures !o.Panicked? ==> pool.Spent(chunks[slot].data)
    {
      InUseIsKept(slot);
      IdComesFromHeader(streams[slot], slot, cs.tmpFormat, slot, c, remoteChunkSize);
      o := cs.ReadKeeping(rw, remoteChunkSize, pool, streams[slot].(csid := slot), c, InUse(slot));
    }

    /** The same, seen from the connection: it stays valid, and the chunk just read can be stored. */
    method ReadSlot(cs: ChunkStream, slot: u32, ghost c: Cursor) returns (o: Outcome)
      requires Valid() && slot in chunks && cs.tmpFormat < 4 && rw.Cur() == c && cs.v == chunks[slot].(csid := slot)
      modifies cs`v, rw`pos, rw`readError, pool, pool.bufs
      ensures old(pool.bufs) <= pool.bufs && fresh(pool.bufs - old(pool.bufs))
      ensures o == OutcomeOf(ChunkReader.ReadChunk(streams[slot], cs.tmpFormat, slot, c, remoteChunkSize))
      ensures !o.Panicked? ==> Valid()
      ensures o.Done? ==> Storable(cs.v, slot) && cs.v.got == (cs.v.remain == 0)
      ensures o.Done? ==> ChunkReader.ReadChunk(streams[slot], cs.tmpFormat, slot, c, remoteChunkSize) == Chunk(cs.v.Abs(), rw.Cur())
    {
      o := ReadInto(cs, slot, c);
      if !o.Panicked? {
        forall k | k in chunks
          ensures pool.Spent(chunks[k].data) && chunks[k].Body() == old(chunks[k].Body())
        {
          assert chunks[k].Filled() in InUse(slot);
          assert k != slot ==> chunks[k].data in InUse(slot);
        }
        forall h | h in history
          ensures pool.Spent(h.memory) && h.memory.Contents() == h.message.payload
        {
          assert h.memory in InUse(slot);
        }
      }
      if o.Done? {
        StorableAfter(cs.v, slot);
      }
    }

    lemma StorableAfter(v: ChunkValue, slot: nat)
      requires Valid() && slot in chunks && v.Valid() && pool.Spent(v.data) && v.got == (v.remain == 0)
      requires if chunks[slot].remain == 0 then forall s :: s in InUse(slot) ==> s.Disjoint(v.data)
               else v.data == chunks[slot].data
      ensures Storable(v, slot)
    {
      forall k | k in chunks && k != slot
        ensures chunks[k].data.Disjoint(v.data)
      {
        assert chunks[k].data in InUse(slot);
      }
      forall h | h in history
        ensures h.memory.Disjoint(v.data)
      {
        assert h.memory in InUse(slot);
      }
    }

    /** One chunk, once its basic header is read. */
    method ReadAt(slot: u32, format: nat, ghost c: Cursor) returns (o: Outcome)
      requires Valid() && slot < 64 && format < 4 && c == rw.Cur()
      modifies this`chunks, this`streams, rw`pos, rw`readError, pool, pool.bufs
      ensures old(pool.bufs) <= pool.bufs && fresh(pool.bufs - old(pool.bufs))
      ensures !o.Panicked? ==> Valid()
      ensures o == OutcomeOf(ChunkReader.ReadChunk(Slot(old(streams), slot), format, slot, c, remoteChunkSize))
      ensures o.Done? ==>
                slot in chunks && chunks[slot].got == (chunks[slot].remain == 0) &&
                streams == old(streams)[slot := streams[slot]] &&
                ChunkReader.ReadChunk(Slot(old(streams), slot), format, slot, c, remoteChunkSize) == Chunk(streams[slot], rw.Cur())
    {
      hide ChunkReader.ReadChunk, Storable, Valid, Slot;
      var cs := Load(slot, format);
      o := ReadSlot(cs, slot, c);
      if o.Done? {
        Store(cs.v, slot);
      }
    }

    /** One turn of the loop. */
    method ReadOne(ghost r: Receiver, ghost c: Cursor) returns (o: Outcome, slot: nat)
      requires Valid() && r == View() && c == rw.Cur()
      modifies this`chunks, this`streams, rw`pos, rw`readError, pool, pool.bufs
      ensures old(pool.bufs) <= pool.bufs && fresh(pool.bufs - old(pool.bufs))
      ensures o == OutcomeOf(ChunkReader.ReadOne(r, c)) && (!o.Panicked? ==> Valid())
      ensures o.Done? ==>
                slot == NextSlot(c) && slot in chunks && ChunkReader.ReadOne(r, c) == Chunk(streams[slot], rw.Cur()) &&
                chunks[slot].got == (chunks[slot].remain == 0) && View() == r.(chunks := r.chunks[slot := streams[slot]])
    {
      Pow256Values();
      var h := rw.ReadUintBE(1);
      slot := h % 64;
      assert Valid();
      hide ChunkReader.ReadChunk, Storable, TakeBE, Valid, Slot;
      o := ReadAt(slot, h / 64, rw.Cur());
    }

    /** Reads chunks until one completes a message. */
    method ReadUntilFull(ghost r: Receiver, ghost c: Cursor) returns (o: Outcome, slot: nat)
      requires Valid() && r == View() && c == rw.Cur()
      modifies this`chunks, this`streams, rw`pos, rw`readError, pool, pool.bufs
      ensures old(pool.bufs) <= pool.bufs && fresh(pool.bufs - old(pool.bufs))
      ensures !o.Panicked? ==> Valid()
      ensures o.Done? ==>
                slot in chunks && chunks[slot].remain == 0 &&
                ReadMessage(r, c) == Deliver(View(), streams[slot].Delivered(), rw.Cur())
      ensures o.Err? ==> ReadMessage(r, c) == Failed(o.e)
      ensures o.Panicked? ==> ReadMessage(r, c) == Crashed
    {
      while true
        invariant Valid() && old(pool.bufs) <= pool.bufs && fresh(pool.bufs - old(pool.bufs))
        invariant ReadMessage(r, c) == ReadMessage(View(), rw.Cur())
        decreases |rw.Cur().rest|
      {
        ghost var r0, c0 := View(), rw.Cur();
        o, slot := ReadOne(r0, c0);
        hide ChunkReader.ReadOne, Deliver, SlotHolds, HistoryKept, Apart, Shielded;
        if !o.Done? {
          return;
        }
        assert SlotHolds(slot, chunks[slot], streams[slot]);
        RemainAgrees(slot);
        if chunks[slot].got {
          return;
        }
      }
    }

    lemma RemainAgrees(slot: nat)
      requires Valid() && slot in chunks
      ensures streams[slot].Remain() == chunks[slot].remain
    {
      assert SlotHolds(slot, chunks[slot], streams[slot]);
    }

    lemma FullSlot(slot: nat)
      requires Valid() && slot in chunks && chunks[slot].remain == 0
      ensures var v, st := chunks[slot], streams[slot];
              v.Valid() && pool.Spent(v.data) && v.length == |st.body| && v.data.Contents() == st.body &&
              Message(v.csid, v.timestamp, v.typeID, v.streamID, v.data.Contents()) == st.Delivered()
    {
      assert SlotHolds(slot, chunks[slot], streams[slot]);
      assert chunks[slot].Filled() == chunks[slot].data;
    }

    /** Copies a completed chunk stream to the caller; from now on its memory is never written again. */
    method HandOver(c: ChunkStream, slot: nat)
      requires Valid() && slot in chunks && chunks[slot].remain == 0
      modifies c`v, this`history
      ensures Valid() && c.v == chunks[slot] && c.v.Valid() && c.Described() == streams[slot].Delivered()
      ensures c.v.length == |streams[slot].body|
      ensures history == old(history) + [Handed(c.v.data, streams[slot].Delivered())]
    {
      hide Apart, Shielded, SlotHolds;
      FullSlot(slot);
      c.v := chunks[slot];
      StaysShielded(chunks, history, slot);
      history := history + [Handed(c.v.data, streams[slot].Delivered())];
    }

    /** A control message of fewer than four bytes makes the 32-bit read panic. */
    method HandleControlMsg(c: ChunkStream, ghost m: Message) returns (ok: bool)
      requires Valid() && c.v.Valid() && c.v.typeID == m.typeID && c.v.data.Contents() == m.payload
      modifies this`remoteChunkSize, this`remoteWindowAckSize
      ensures Valid() && (ok <==> Control(old(View()), m).Some?)
      ensures ok ==> Control(old(View()), m) == Some(View())
    {
      hide SlotHolds, HistoryKept, Apart, Shielded;
      if c.v.typeID == SET_CHUNK_SIZE || c.v.typeID == WINDOW_ACK_SIZE {
        if c.v.length < 4 {
          return false;
        }
        var value := Word32(c.v.data);
        if c.v.typeID == SET_CHUNK_SIZE {
          remoteChunkSize := value;
        } else {
          remoteWindowAckSize := value;
        }
      }
      return true;
    }

    /** Counts the bytes of a message and acknowledges them once they fill the peer's window. */
    method Ack(size: u32)
      requires Valid()
      modifies this`received, this`ackReceived, rw`output
      ensures Valid()
      ensures (View(), rw.output) ==
              (CountBytes(old(View()), size).0, old(rw.output) + AckBytes(CountBytes(old(View()), size).1, chunkSize))
    {
      hide SlotHolds, HistoryKept, Apart, Shielded, WriteChunks;
      received := Add32(received, size);
      ackReceived := Add32(ackReceived, size);
      if received >= 0xF000_0000 {
        received := 0;
      }
      if ackReceived >= remoteWindowAckSize {
        var cs := InitControlMsg(ACK, 4, ackReceived);
        assert BE(ackReceived, 4) + Zeros(0) == BE(ackReceived, 4);
        var ok := cs.WriteChunk(rw, chunkSize, ControlMessage(ACK, ackReceived));
        ackReceived := 0;
      } else {
        assert rw.output + [] == rw.output;
      }
    }

    /** What follows a completed chunk stream. */
    method Finish(c: ChunkStream, slot: nat, ghost r: Receiver, ghost m: Message)
      returns (ok: bool)
      requires Valid() && slot in chunks && chunks[slot].remain == 0 && r == View() && m == streams[slot].Delivered()
      modifies this, rw`output, c`v
      ensures Valid() && chunkSize == old(chunkSize)
      ensures history == old(history) + [Handed(c.v.data, m)]
      ensures c.v.Valid() && c.v.remain == 0 && c.Described() == m
      ensures ok <==> Control(r, m).Some?
      ensures ok ==>
                (View(), rw.output) == (CountBytes(Control(r, m).value, |m.payload|).0,
                                        old(rw.output) + AckBytes(CountBytes(Control(r, m).value, |m.payload|).1, chunkSize))
    {
      HandOver(c, slot);
      hide Valid;
      ok := HandleControlMsg(c, m);
      if ok {
        Ack(c.v.length);
      }
    }

    /** Reads until a message is complete; the caller's struct then has its fields and its payload. */
    method Read(c: ChunkStream) returns (o: Outcome)
      requires Valid()
      modifies this, rw`pos, rw`readError, rw`output, pool, pool.bufs, c`v
      ensures old(pool.bufs) <= pool.bufs && fresh(pool.bufs - old(pool.bufs))
      ensures !o.Panicked? ==> Valid()
      ensures match ReadMessage(old(View()), old(rw.Cur()))
              case Received(m, ack, r1, c1) =>
                o == Done && View() == r1 && rw.Cur() == c1 && history == old(history) + [Handed(c.v.data, m)] &&
                c.v.Valid() && c.v.remain == 0 && c.Described() == m &&
                (ack.Some? ==> ack.value < 0x1_0000_0000) && rw.output == old(rw.output) + AckBytes(ack, chunkSize)
              case Failed(e) => o == Err(e) && history == old(history) && c.v == old(c.v)
              case Crashed => o == Panicked
      ensures chunkSize == old(chunkSize)
    {
      var slot;
      o, slot := ReadUntilFull(View(), rw.Cur());
      hide ReadMessage, SlotHolds, HistoryKept, Apart, Shielded;
      if o.Done? {
        var ok := Finish(c, slot, View(), streams[slot].Delivered());
        o := if ok then Done else Panicked;
      }
    }

    /**
     Reads messages until the input fails, as the loop that watches a player's connection does. At the
     end the history has grown by exactly the messages of the session, and all of them, old and new,
     still have their payload.
     */
    method Check(c: ChunkStream) returns (o: Outcome)
      requires Valid()
      modifies this, rw`pos, rw`readError, rw`output, pool, pool.bufs, c`v
      ensures !o.Done? && (o.Panicked? <==> ReadAll(old(View()), old(rw.Cur())).crashed)
      ensures o.Err? ==> MessagesOf(history) == MessagesOf(old(history)) + ReadAll(old(View()), old(rw.Cur())).messages
      ensures o.Err? ==> forall h :: h in history ==> h.memory.InBounds() && h.memory.Contents() == h.message.payload
    {
      ghost var s := ReadAll(View(), rw.Cur());
      ghost var goal := MessagesOf(history) + s.messages;
      hide StillToRead;
      assert StillToRead(history, View(), rw.Cur(), goal, s.crashed);
      while true
        invariant Valid() && old(pool.bufs) <= pool.bufs && fresh(pool.bufs - old(pool.bufs))
        invariant StillToRead(history, View(), rw.Cur(), goal, s.crashed)
        decreases |rw.Cur().rest|
      {
        ghost var r0, c0, h0 := View(), rw.Cur(), history;
        o := Read(c);
        if !o.Done? {
          ReadEnds(h0, r0, c0, goal, s.crashed);
          return;
        }
        ReadContinues(h0, r0, c0, goal, s.crashed, c.v.data);
      }
    }

    /** Sends a message; a Set Chunk Size message is already cut by the size it announces. */
    method Write(c: ChunkStream, ghost m: Message) returns (ok: bool)
      requires Valid() && c.v.data.InBounds() && c.v.data.len == c.v.length && m == c.Described()
      requires m.typeID == SET_CHUNK_SIZE ==> |m.payload| >= 4 && BEVal(m.payload[..4]) > 0
      modifies this`chunkSize, rw`output, c`v
      ensures Valid() && chunkSize == SizeFor(m, old(chunkSize))
      ensures ok <==> |m.payload| <= 0xFF_FFFF
      ensures ok ==> rw.output == old(rw.output) + WriteChunks(m, chunkSize)
    {
      hide SlotHolds, HistoryKept, Apart, Shielded, WriteChunks;
      if c.v.typeID == SET_CHUNK_SIZE {
        chunkSize := Word32(c.v.data);
      }
      ok := c.WriteChunk(rw, chunkSize, m);
    }
  }

  /** The history, followed by what the rest of the input yields, is the goal. */
  ghost predicate StillToRead(history: seq<Handed>, r: Receiver, c: Cursor, goal: seq<Message>, crashed: bool) {
    MessagesOf(history) + ReadAll(r, c).messages == goal && ReadAll(r, c).crashed == crashed
  }

  lemma ReadContinues(history: seq<Handed>, r: Receiver, c: Cursor, goal: seq<Message>, crashed: bool, memory: Slice)
    requires StillToRead(history, r, c, goal, crashed) && ReadMessage(r, c).Received?
    ensures var o := ReadMessage(r, c); StillToRead(history + [Handed(memory, o.m)], o.r, o.c, goal, crashed)
  {
    var o := ReadMessage(r, c);
    ReadAllDelivers(r, c, o.m, o.ack, o.r, o.c);
    hide ReadMessage, ReadAll;
    MessagesOfSnoc(history, Handed(memory, o.m));
    Associates(MessagesOf(history), [o.m], ReadAll(o.r, o.c).messages);
  }

  lemma ReadEnds(history: seq<Handed>, r: Receiver, c: Cursor, goal: seq<Message>, crashed: bool)
    requires StillToRead(history, r, c, goal, crashed) && !ReadMessage(r, c).Received?
    ensures MessagesOf(history) == goal && crashed == ReadMessage(r, c).Crashed?
  {
    hide ReadMessage;
  }

  function MessagesOf(history: seq<Handed>): seq<Message> {
    seq(|history|, i requires 0 <= i < |history| => history[i].message)
  }

  lemma MessagesOfSnoc(history: seq<Handed>, h: Handed)
    ensures MessagesOf(history + [h]) == MessagesOf(history) + [h.message]
  {
  }

  lemma StaysShielded(chunks: map<nat, ChunkValue>, history: seq<Handed>, slot: nat)
    requires Apart(chunks) && Shielded(chunks, history) && slot in chunks && chunks[slot].remain == 0
    ensures forall m :: Shielded(chunks, history + [Handed(chunks[slot].data, m)])
  {
  }

  method Word32(s: Slice) returns (v: u32)
    requires s.InBounds() && s.len >= 4
    ensures v == BEVal(s.Contents()[..4])
  {
    BEVal4(s.Contents()[..4]);
    return Word(s.buf[s.off] as int, s.buf[s.off + 1] as int, s.buf[s.off + 2] as int, s.buf[s.off + 3] as int);
  }

  /** A control message of at least four payload bytes, newly allocated: the value, then zeros. */
  method InitControlMsg(typeID: u32, size: u32, value: u32) returns (cs: ChunkStream)
    requires size >= 4
    ensures fresh(cs) && fresh(cs.v.data.buf) && cs.v.data.InBounds() && cs.v.data.len == cs.v.length == size
    ensures cs.v.data.off == 0 && cs.v.data.buf.Length == size
    ensures cs.Described() == Message(2, 0, typeID, 0, BE(value, 4) + Zeros(size - 4))
  {
    hide BE;
    var bytes := BE(value, 4);
    var a := new byte[size](i requires 0 <= i < size => if i < 4 then bytes[i] else 0);
    cs := new ChunkStream(ZeroChunk.(csid := CONTROL_STREAM, typeID := typeID, length := size, data := Slice(a, 0, size)), 0);
    assert a[0..size] == bytes + Zeros(size - 4);
  }

  /** Set Peer Bandwidth carries a limit type, always 2, behind its value. */
  method NewSetPeerBandwidth(value: u32) returns (cs: ChunkStream)
    ensures fresh(cs) && cs.v.data.InBounds() && cs.v.data.len == cs.v.length == 5
    ensures cs.Described() == Message(2, 0, 6, 0, BE(value, 4) + [2])
  {
    hide BE;
    cs := InitControlMsg(SET_PEER_BANDWIDTH, 5, value);
    ghost var before := cs.v.data.buf[0..5];
    cs.v.data.buf[4] := 2;
    assert before == BE(value, 4) + Zeros(1);
    assert cs.v.data.buf[0..5] == before[..4] + [2];
    assert before[..4] == BE(value, 4);
  }

  function Zeros(n: nat): (s: seq<byte>)
    ensures |s| == n
  {
    seq(n, _ => 0)
  }
}
