/** A peer that interleaves messages of many chunk streams, and the receiver that follows it. */
module Multiplex {
  import opened Bytes
  import opened Wire
  import opened ChunkReader
  import opened ChunkWriter

  /**
   The sender's view of one chunk stream. The message in progress has sent of its payload bytes on
   the wire; kind is the last header type other than 3.
   */
  datatype Line = Line(
    csid: nat, timestamp: nat, typeID: nat, streamID: nat, kind: nat, delta: nat, payload: seq<byte>, sent: nat)
  {
    /** What the time field of this message's headers holds: an absolute time or a difference. */
    function Field(): nat {
      if kind == 0 then timestamp else delta
    }

    predicate Idle() {
      sent == |payload|
    }

    function Sent(): Message {
      Message(csid, timestamp, typeID, streamID, payload)
    }

    predicate Valid() {
      2 <= csid < CHUNK_STREAM_IDS && timestamp < 0x1_0000_0000 && typeID < 256 && streamID < 0x1_0000_0000 &&
      kind <= 2 && delta < 0x1_0000_0000 && sent <= |payload| <= MAX_POOL_SIZE &&
      (typeID == SET_CHUNK_SIZE || typeID == WINDOW_ACK_SIZE ==> |payload| >= 4)
    }
  }

  /** The chunks a peer may send: a message start with a header of type 0 to 3, or a continuation. */
  datatype Step =
    | Full(csid: nat, timestamp: nat, typeID: nat, streamID: nat, payload: seq<byte>)
    | Delta(csid: nat, delta: nat, typeID: nat, payload: seq<byte>)
    | Short(csid: nat, delta: nat, payload: seq<byte>)
    | Repeat(csid: nat, payload: seq<byte>)
    | More(csid: nat)

  datatype Sender = Sender(lines: map<nat, Line>, size: nat)

  const NewSender := Sender(map[], 128)

  function Format(step: Step): nat {
    match step
    case Full(_, _, _, _, _) => 0
    case Delta(_, _, _, _) => 1
    case Short(_, _, _) => 2
    case Repeat(_, _) => 3
    case More(_) => 3
  }

  /** Every header but a full one refers to an earlier header of the same chunk stream. */
  predicate Refers(s: Sender, step: Step) {
    step.Full? || (SlotOf(step.csid) in s.lines && s.lines[SlotOf(step.csid)].csid == step.csid)
  }

  /** The chunk stream as the header of this step leaves it, before any payload of the step. */
  function Opened(s: Sender, step: Step): Line
    requires Refers(s, step)
  {
    if step.Full? then Line(step.csid, step.timestamp, step.typeID, step.streamID, 0, 0, step.payload, 0)
    else
      var l := s.lines[SlotOf(step.csid)];
      match step
      case Delta(_, delta, typeID, payload) =>
        l.(timestamp := Add32(l.timestamp, delta), kind := 1, delta := delta, typeID := typeID, payload := payload, sent := 0)
      case Short(_, delta, payload) =>
        l.(timestamp := Add32(l.timestamp, delta), kind := 2, delta := delta, payload := payload, sent := 0)
      case Repeat(_, payload) =>
        l.(timestamp := if l.kind == 0 then l.timestamp else Add32(l.timestamp, l.delta), payload := payload, sent := 0)
      case _ => l
  }

  /**
   Conforming steps: a message starts only when its slot is idle, a header that leaves the length out
   keeps it, and a difference too large for 24 bits is used only where the receiver's continuation test
   (which compares the field with the absolute time) does not matter.
   */
  predicate Conforms(s: Sender, step: Step) {
    Refers(s, step) &&
    var l := Opened(s, step);
    l.Valid() &&
    (step.More? ==> !l.Idle()) &&
    (!step.More? && SlotOf(step.csid) in s.lines ==> s.lines[SlotOf(step.csid)].Idle()) &&
    (step.Short? || step.Repeat? ==> |step.payload| == |s.lines[SlotOf(step.csid)].payload|) &&
    (!step.More? && l.Field() >= EXTENDED ==> l.Field() == l.timestamp || |l.payload| <= s.size)
  }

  function PieceLength(s: Sender, l: Line): nat
    requires l.sent <= |l.payload|
  {
    Min(s.size, |l.payload| - l.sent)
  }

  /** The bytes of one chunk. */
  function Emit(s: Sender, step: Step): seq<byte>
    requires Conforms(s, step)
  {
    var l := Opened(s, step);
    Header(Format(step), l.csid, l.Field(), |l.payload|, l.typeID, l.streamID) +
    l.payload[l.sent..l.sent + PieceLength(s, l)]
  }

  function Advanced(s: Sender, step: Step): Line
    requires Conforms(s, step)
  {
    var l := Opened(s, step);
    l.(sent := l.sent + PieceLength(s, l))
  }

  function Completed(s: Sender, step: Step): seq<Message>
    requires Conforms(s, step)
  {
    var l := Advanced(s, step);
    if l.Idle() then [l.Sent()] else []
  }

  /** A chunk size announced by a message is in force once the message is complete. */
  function After(s: Sender, step: Step): Sender
    requires Conforms(s, step)
  {
    var l := Advanced(s, step);
    Sender(s.lines[SlotOf(l.csid) := l], if l.Idle() then SizeFor(l.Sent(), s.size) else s.size)
  }

  // ---- the simulation relation ----

  predicate Matches(l: Line, st: Stream) {
    l.Valid() &&
    st.format == l.kind && st.csid == l.csid && st.timestamp == l.timestamp && st.length == |l.payload| &&
    st.typeID == l.typeID && st.streamID == l.streamID && st.body == l.payload[..l.sent] &&
    st.exted == (l.Field() >= EXTENDED) && (l.kind != 0 ==> st.timeDelta == l.delta)
  }

  predicate Agrees(s: Sender, chunks: map<nat, Stream>, slot: nat) {
    if slot in s.lines then
      slot in chunks && Matches(s.lines[slot], chunks[slot]) && SlotOf(s.lines[slot].csid) == slot &&
      (!s.lines[slot].Idle() && s.lines[slot].Field() >= EXTENDED ==> s.lines[slot].Field() == s.lines[slot].timestamp)
    else Slot(chunks, slot).Remain() == 0
  }

  ghost predicate Related(s: Sender, r: Receiver) {
    r.chunkSize == s.size && forall slot :: 0 <= slot < 64 ==> Agrees(s, r.chunks, slot)
  }

  lemma ReadBasicHeader(fmt: nat, csid: nat, rest: seq<byte>)
    requires fmt < 4 && 2 <= csid < CHUNK_STREAM_IDS
    ensures TakeBE(At(BasicHeader(fmt, csid) + rest), 1) == (64 * fmt + SlotOf(csid), At(IdBytes(csid) + rest))
    ensures ReadId(SlotOf(csid), At(IdBytes(csid) + rest)) == (csid, At(rest))
  {
    Pow256Values();
    var h := BE(64 * fmt + SlotOf(csid), 1);
    assert BasicHeader(fmt, csid) + rest == h + (IdBytes(csid) + rest);
    TakeBEOf(64 * fmt + SlotOf(csid), 1, IdBytes(csid) + rest);
    if csid < 64 {
      assert IdBytes(csid) + rest == rest;
    } else if csid < 320 {
      TakeLEOf(csid - 64, 1, rest);
    } else {
      TakeLEOf(csid - 64, 2, rest);
    }
  }

  /** A time field and its extension, with the fields between them already read. */
  lemma ReadTime(time: nat, rest: seq<byte>)
    requires time < 0x1_0000_0000
    ensures ReadExtended(Min(time, EXTENDED), At(ExtendedTime(time) + rest)) == (time, At(rest))
    ensures (Min(time, EXTENDED) == EXTENDED) == (time >= EXTENDED)
  {
    Pow256Values();
    if time >= EXTENDED {
      TakeBEOf(time, 4, rest);
    } else {
      assert ExtendedTime(time) + rest == rest;
    }
  }

  lemma ReadFullOf(st: Stream, l: Line, rest: seq<byte>)
    requires l.Valid() && l.kind == 0
    ensures ReadFull(st, At(Fields(0, l.timestamp, |l.payload|, l.typeID, l.streamID) + (ExtendedTime(l.timestamp) + rest)))
            == Head(st.(format := 0, timestamp := l.timestamp, length := |l.payload|, typeID := l.typeID,
                        streamID := l.streamID, exted := l.timestamp >= EXTENDED, body := []), At(rest))
  {
    Pow256Values();
    var e := ExtendedTime(l.timestamp) + rest;
    var w3 := LE(l.streamID, 4) + e;
    var w2 := BE(l.typeID, 1) + w3;
    var w1 := BE(|l.payload|, 3) + w2;
    assert Fields(0, l.timestamp, |l.payload|, l.typeID, l.streamID) + e == BE(Min(l.timestamp, EXTENDED), 3) + w1;
    TakeBEOf(Min(l.timestamp, EXTENDED), 3, w1);
    TakeBEOf(|l.payload|, 3, w2);
    TakeBEOf(l.typeID, 1, w3);
    TakeLEOf(l.streamID, 4, e);
    ReadTime(l.timestamp, rest);
  }

  lemma ReadDeltaOf(st: Stream, l: Line, rest: seq<byte>)
    requires l.Valid()
    ensures ReadDelta(st, At(Fields(1, l.delta, |l.payload|, l.typeID, l.streamID) + (ExtendedTime(l.delta) + rest)))
            == Head(st.(format := 1, timestamp := Add32(st.timestamp, l.delta), timeDelta := l.delta, length := |l.payload|,
                        typeID := l.typeID, exted := l.delta >= EXTENDED, body := []), At(rest))
  {
    Pow256Values();
    var e := ExtendedTime(l.delta) + rest;
    var w2 := BE(l.typeID, 1) + e;
    var w1 := BE(|l.payload|, 3) + w2;
    assert Fields(1, l.delta, |l.payload|, l.typeID, l.streamID) + e == BE(Min(l.delta, EXTENDED), 3) + w1;
    TakeBEOf(Min(l.delta, EXTENDED), 3, w1);
    TakeBEOf(|l.payload|, 3, w2);
    TakeBEOf(l.typeID, 1, e);
    ReadTime(l.delta, rest);
  }

  lemma ReadShortOf(st: Stream, l: Line, rest: seq<byte>)
    requires l.Valid()
    ensures ReadShort(st, At(Fields(2, l.delta, |l.payload|, l.typeID, l.streamID) + (ExtendedTime(l.delta) + rest)))
            == Head(st.(format := 2, timestamp := Add32(st.timestamp, l.delta), timeDelta := l.delta,
                        exted := l.delta >= EXTENDED, body := []), At(rest))
  {
    Pow256Values();
    TakeBEOf(Min(l.delta, EXTENDED), 3, ExtendedTime(l.delta) + rest);
    ReadTime(l.delta, rest);
  }

  /** A type 3 header consists of the extended time only. */
  lemma ReadTypeThreeTime(time: nat, rest: seq<byte>)
    requires time < 0x1_0000_0000
    ensures Fields(3, time, 0, 0, 0) + (ExtendedTime(time) + rest) == ExtendedTime(time) + rest
    ensures time >= EXTENDED ==>
              TakeBE(At(ExtendedTime(time) + rest), 4) == (time, At(rest)) &&
              BEVal((ExtendedTime(time) + rest)[..4]) == time && (ExtendedTime(time) + rest)[4..] == rest
    ensures time < EXTENDED ==> ExtendedTime(time) + rest == rest
  {
    Pow256Values();
    if time >= EXTENDED {
      TakeBEOf(time, 4, rest);
    }
  }

  /** Header decompression restores the sender's view, whatever part of it was left out. */
  lemma ReadHeadOf(s: Sender, r: Receiver, step: Step, rest: seq<byte>)
    requires Related(s, r) && Conforms(s, step)
    ensures var l := Opened(s, step);
            var w := Fields(Format(step), l.Field(), |l.payload|, l.typeID, l.streamID) + (ExtendedTime(l.Field()) + rest);
            var h := ReadHead(Slot(r.chunks, SlotOf(step.csid)).(csid := step.csid), Format(step), At(w));
            h.Head? && h.c == At(rest) && Matches(l, h.st)
  {
    hide ReadFull, ReadDelta, ReadShort, BE, LE, BEVal;
    var l := Opened(s, step);
    var st := Slot(r.chunks, SlotOf(step.csid)).(csid := step.csid);
    assert Agrees(s, r.chunks, SlotOf(step.csid));
    match step
    case Full(_, _, _, _, _) => ReadFullOf(st, l, rest);
    case Delta(_, _, _, _) => ReadDeltaOf(st, l, rest);
    case Short(_, _, _) => ReadShortOf(st, l, rest);
    case Repeat(_, _) => ReadTypeThreeTime(l.Field(), rest);
    case More(_) => ReadTypeThreeTime(l.Field(), rest);
  }

  /** The payload part of a chunk. */
  lemma ReadBodyOf(l: Line, st: Stream, size: nat, rest: seq<byte>)
    requires Matches(l, st)
    ensures var n := Min(size, |l.payload| - l.sent);
            var o := ReadBody(st, At(l.payload[l.sent..l.sent + n] + rest), size);
            o.Chunk? && o.c == At(rest) && Matches(l.(sent := l.sent + n), o.st)
  {
    var n := Min(size, |l.payload| - l.sent);
    var piece := l.payload[l.sent..l.sent + n];
    TakeBytesOf(piece, rest);
    assert l.payload[..l.sent] + piece == l.payload[..l.sent + n];
  }

  function Piece(s: Sender, step: Step): seq<byte>
    requires Conforms(s, step)
  {
    var l := Opened(s, step);
    l.payload[l.sent..l.sent + PieceLength(s, l)]
  }

  /** The header of a step after its basic header, followed by other bytes. */
  function Tail(s: Sender, step: Step, body: seq<byte>): seq<byte>
    requires Conforms(s, step)
  {
    var l := Opened(s, step);
    Fields(Format(step), l.Field(), |l.payload|, l.typeID, l.streamID) + (ExtendedTime(l.Field()) + body)
  }

  function Framed(s: Sender, step: Step, body: seq<byte>): seq<byte>
    requires Conforms(s, step)
  {
    BasicHeader(Format(step), Opened(s, step).csid) + Tail(s, step, body)
  }

  lemma EmitSplits(s: Sender, step: Step, rest: seq<byte>)
    requires Conforms(s, step)
    ensures Emit(s, step) + rest == Framed(s, step, Piece(s, step) + rest)
  {
  }

  lemma StartsIdle(s: Sender, r: Receiver, step: Step)
    requires Related(s, r) && Conforms(s, step)
    ensures Opened(s, step).csid == step.csid && SlotOf(step.csid) < 64
    ensures Format(step) == 3 || Slot(r.chunks, SlotOf(step.csid)).Remain() == 0
    ensures r.chunkSize == s.size && 2 <= step.csid < CHUNK_STREAM_IDS
  {
    assert Agrees(s, r.chunks, SlotOf(step.csid));
  }

  lemma ReadOneByParts(r: Receiver, fmt: nat, csid: nat, c: Cursor, c1: Cursor, c2: Cursor, h: HeadOut)
    requires fmt < 4 && SlotOf(csid) < 64 && TakeBE(c, 1) == (64 * fmt + SlotOf(csid), c1)
    requires ReadId(SlotOf(csid), c1) == (csid, c2)
    requires fmt == 3 || Slot(r.chunks, SlotOf(csid)).Remain() == 0
    requires ReadHead(Slot(r.chunks, SlotOf(csid)).(csid := csid), fmt, c2) == h && h.Head?
    ensures ReadOne(r, c) == ReadBody(h.st, h.c, r.chunkSize) && NextSlot(c) == SlotOf(csid)
  {
    hide ReadHead, ReadBody, ReadId, TakeBE;
  }

  lemma ReadHeaderOf(s: Sender, r: Receiver, step: Step, body: seq<byte>) returns (h: HeadOut)
    requires Related(s, r) && Conforms(s, step)
    ensures h.Head? && Matches(Opened(s, step), h.st)
    ensures ReadOne(r, At(Framed(s, step, body))) == ReadBody(h.st, At(body), s.size)
    ensures NextSlot(At(Framed(s, step, body))) == SlotOf(step.csid)
  {
    var fmt, csid, tail := Format(step), step.csid, Tail(s, step, body);
    h := ReadHead(Slot(r.chunks, SlotOf(csid)).(csid := csid), fmt, At(tail));
    ReadHeadOf(s, r, step, body);
    StartsIdle(s, r, step);
    ReadBasicHeader(fmt, csid, tail);
    hide ReadOne, NextSlot;
    ReadOneByParts(r, fmt, csid, At(Framed(s, step, body)), At(IdBytes(csid) + tail), At(tail), h);
  }

  /** A chunk is read back as one chunk: its whole content, and not a byte more. */
  lemma ReadChunkOf(s: Sender, r: Receiver, step: Step, rest: seq<byte>) returns (st: Stream)
    requires Related(s, r) && Conforms(s, step)
    ensures ReadOne(r, At(Emit(s, step) + rest)) == Chunk(st, At(rest))
    ensures NextSlot(At(Emit(s, step) + rest)) == SlotOf(step.csid)
    ensures Matches(Advanced(s, step), st)
  {
    hide ReadOne, NextSlot, Emit, Framed, Matches, ReadBody;
    var h := ReadHeaderOf(s, r, step, Piece(s, step) + rest);
    ReadBodyOf(Opened(s, step), h.st, s.size, rest);
    EmitSplits(s, step, rest);
    st := ReadBody(h.st, At(Piece(s, step) + rest), s.size).st;
  }

  /**
   The receiver after reading the chunk of a step: it has the sender's view again, and if the chunk
   completed a message, that message is the one delivered.
   */
  lemma FollowsStep(s: Sender, r: Receiver, step: Step, rest: seq<byte>) returns (r1: Receiver, ack: Option<nat>)
    requires Related(s, r) && Conforms(s, step)
    ensures Related(After(s, step), r1)
    ensures Completed(s, step) == [] ==> ReadAll(r, At(Emit(s, step) + rest)) == ReadAll(r1, At(rest))
    ensures Completed(s, step) != [] ==>
              ReadMessage(r, At(Emit(s, step) + rest)) == Received(Completed(s, step)[0], ack, r1, At(rest))
  {
    var st := ReadChunkOf(s, r, step, rest);
    var l := Advanced(s, step);
    var r0 := r.(chunks := r.chunks[SlotOf(step.csid) := st]);
    forall slot | 0 <= slot < 64
      ensures Agrees(After(s, step), r0.chunks, slot)
    {
      AgreesAfter(s, r, step, st, slot);
    }
    StartsIdle(s, r, step);
    hide ReadOne, Emit, Conforms, Agrees;
    if l.Idle() {
      assert l.payload[..l.sent] == l.payload;
      var o := Deliver(r0, st.Delivered(), At(rest));
      r1, ack := o.r, o.ack;
    } else {
      ReadAllOpen(r, At(Emit(s, step) + rest));
      r1, ack := r0, None;
    }
  }

  lemma AgreesAfter(s: Sender, r: Receiver, step: Step, st: Stream, slot: nat)
    requires Related(s, r) && Conforms(s, step) && Matches(Advanced(s, step), st) && slot < 64
    ensures Agrees(After(s, step), r.chunks[SlotOf(step.csid) := st], slot)
  {
    assert Agrees(s, r.chunks, SlotOf(step.csid));
    assert Agrees(s, r.chunks, slot);
  }

  lemma ReadAllFollows(s: Sender, r: Receiver, step: Step, rest: seq<byte>) returns (r1: Receiver)
    requires Related(s, r) && Conforms(s, step)
    ensures Related(After(s, step), r1)
    ensures ReadAll(r, At(Emit(s, step) + rest)).messages == Completed(s, step) + ReadAll(r1, At(rest)).messages
    ensures ReadAll(r, At(Emit(s, step) + rest)).crashed == ReadAll(r1, At(rest)).crashed
    ensures ReadAll(r, At(Emit(s, step) + rest)).chunkSize == ReadAll(r1, At(rest)).chunkSize
  {
    var ack;
    r1, ack := FollowsStep(s, r, step, rest);
    hide Related, Emit, Conforms, After, ReadMessage, ReadAll;
    if Completed(s, step) != [] {
      ReadAllDelivers(r, At(Emit(s, step) + rest), Completed(s, step)[0], ack, r1, At(rest));
    }
  }

  // ---- whole runs ----

  predicate ConformsAll(s: Sender, steps: seq<Step>)
    decreases |steps|
  {
    steps == [] || (Conforms(s, steps[0]) && ConformsAll(After(s, steps[0]), steps[1..]))
  }

  function EmitAll(s: Sender, steps: seq<Step>): seq<byte>
    requires ConformsAll(s, steps)
    decreases |steps|
  {
    if steps == [] then [] else Emit(s, steps[0]) + EmitAll(After(s, steps[0]), steps[1..])
  }

  /** The messages whose last chunk lies wholly within the first n bytes of a run. */
  function CompleteWithin(s: Sender, steps: seq<Step>, n: nat): seq<Message>
    requires ConformsAll(s, steps)
    decreases |steps|
  {
    if steps == [] || n < |Emit(s, steps[0])| then []
    else Completed(s, steps[0]) + CompleteWithin(After(s, steps[0]), steps[1..], n - |Emit(s, steps[0])|)
  }

  /** The messages of a run, in the order in which they are completed. */
  function CompletedBy(s: Sender, steps: seq<Step>): seq<Message>
    requires ConformsAll(s, steps)
    decreases |steps|
  {
    if steps == [] then [] else Completed(s, steps[0]) + CompletedBy(After(s, steps[0]), steps[1..])
  }

  /** The sender at the end of a run. */
  function AfterAll(s: Sender, steps: seq<Step>): Sender
    requires ConformsAll(s, steps)
    decreases |steps|
  {
    if steps == [] then s else AfterAll(After(s, steps[0]), steps[1..])
  }

  // ---- a successful read does not depend on what follows ----

  lemma ReadIdExtend(slot: nat, c: Cursor, x: seq<byte>)
    requires ReadId(slot, c).1.err.None?
    ensures ReadId(slot, Extend(c, x)) == (ReadId(slot, c).0, Extend(ReadId(slot, c).1, x))
  {
    TakeExtend(c, 1, x);
    TakeExtend(c, 2, x);
  }

  lemma ReadFullExtend(st: Stream, c: Cursor, x: seq<byte>)
    requires ReadFull(st, c).c.err.None?
    ensures ReadFull(st, Extend(c, x)) == Head(ReadFull(st, c).st, Extend(ReadFull(st, c).c, x))
  {
    var c1 := TakeBE(c, 3).1;
    var c2 := TakeBE(c1, 3).1;
    var c3 := TakeBE(c2, 1).1;
    var c4 := TakeLE(c3, 4).1;
    TakeExtend(c, 3, x);
    TakeExtend(c1, 3, x);
    TakeExtend(c2, 1, x);
    TakeExtend(c3, 4, x);
    TakeExtend(c4, 4, x);
  }

  lemma ReadDeltaExtend(st: Stream, c: Cursor, x: seq<byte>)
    requires ReadDelta(st, c).c.err.None?
    ensures ReadDelta(st, Extend(c, x)) == Head(ReadDelta(st, c).st, Extend(ReadDelta(st, c).c, x))
  {
    var c1 := TakeBE(c, 3).1;
    var c2 := TakeBE(c1, 3).1;
    var c3 := TakeBE(c2, 1).1;
    TakeExtend(c, 3, x);
    TakeExtend(c1, 3, x);
    TakeExtend(c2, 1, x);
    TakeExtend(c3, 4, x);
  }

  lemma ReadShortExtend(st: Stream, c: Cursor, x: seq<byte>)
    requires ReadShort(st, c).c.err.None?
    ensures ReadShort(st, Extend(c, x)) == Head(ReadShort(st, c).st, Extend(ReadShort(st, c).c, x))
  {
    TakeExtend(c, 3, x);
    TakeExtend(TakeBE(c, 3).1, 4, x);
  }

  lemma ReadHeadExtend(st: Stream, fmt: nat, c: Cursor, x: seq<byte>)
    requires ReadHead(st, fmt, c).Head? && ReadHead(st, fmt, c).c.err.None?
    ensures ReadHead(st, fmt, Extend(c, x)) == Head(ReadHead(st, fmt, c).st, Extend(ReadHead(st, fmt, c).c, x))
  {
    TakeExtend(c, 4, x);
    if fmt == 0 {
      ReadFullExtend(st, c, x);
    } else if fmt == 1 {
      ReadDeltaExtend(st, c, x);
    } else if fmt == 2 {
      ReadShortExtend(st, c, x);
    } else if st.Remain() != 0 && st.exted {
      assert (c.rest + x)[..4] == c.rest[..4] && (c.rest + x)[4..] == c.rest[4..] + x;
    }
  }

  lemma ReadOneExtend(r: Receiver, c: Cursor, x: seq<byte>)
    requires ReadOne(r, c).Chunk?
    ensures ReadOne(r, Extend(c, x)) == Chunk(ReadOne(r, c).st, Extend(ReadOne(r, c).c, x))
  {
    TakeExtend(c, 1, x);
    var (h, c1) := TakeBE(c, 1);
    var st := Slot(r.chunks, h % 64);
    ReadIdExtend(h % 64, c1, x);
    var (id, c2) := ReadId(h % 64, c1);
    var head := ReadHead(st.(csid := id), h / 64, c2);
    ReadHeadExtend(st.(csid := id), h / 64, c2, x);
    var n := if head.st.Remain() > r.chunkSize then r.chunkSize else head.st.Remain();
    TakeExtend(head.c, n, x);
  }

  /** A length that is refused was read completely, so it is refused whatever follows. */
  lemma TooLongExtend(st: Stream, id: nat, fmt: nat, c: Cursor, c2: Cursor, x: seq<byte>)
    requires ReadHead(st, fmt, c).TooLong? && (c.err.None? ==> c2 == Extend(c, x))
    ensures ReadHead(st.(csid := id), fmt, c2).TooLong?
  {
    if fmt <= 1 {
      TakeExtend(c, 3, x);
      TakeExtend(TakeBE(c, 3).1, 3, x);
    }
  }

  lemma PanicExtend(r: Receiver, c: Cursor, x: seq<byte>)
    requires ReadOne(r, c).Panic?
    ensures ReadOne(r, Extend(c, x)).Panic?
  {
    var (h, c1) := TakeBE(c, 1);
    var st := Slot(r.chunks, h % 64);
    var (id, c2) := ReadId(h % 64, c1);
    var head := ReadHead(st.(csid := id), h / 64, c2);
    assert head.TooLong?;
    if c1.err.Some? {
      TooLongNeedsInput(st.(csid := id), c2);
    } else {
      TakeExtend(c, 1, x);
      var (id', c2') := ReadId(h % 64, Extend(c1, x));
      if c2.err.None? {
        ReadIdExtend(h % 64, c1, x);
      }
      TooLongExtend(st.(csid := id), id', h / 64, c2, c2', x);
      assert ReadHead(st.(csid := id'), h / 64, c2').TooLong?;
    }
  }

  lemma TooLongNeedsInput(st: Stream, c: Cursor)
    requires c.err.Some?
    ensures !ReadHead(st, 0, c).TooLong?
  {
  }

  /** A chunk that is cut short fails, even where the failing reads are not checked one by one. */
  lemma TruncatedStep(s: Sender, r: Receiver, step: Step, n: nat)
    requires Related(s, r) && Conforms(s, step) && n < |Emit(s, step)|
    ensures ReadAll(r, At(Emit(s, step)[..n])) == Over(r, false)
  {
    var w, x := Emit(s, step)[..n], Emit(s, step)[n..];
    assert Extend(At(w), x) == At(Emit(s, step) + []) by { assert w + x == Emit(s, step) + []; }
    var st := ReadChunkOf(s, r, step, []);
    if ReadOne(r, At(w)).Chunk? {
      ReadOneExtend(r, At(w), x);
    } else if ReadOne(r, At(w)).Panic? {
      PanicExtend(r, At(w), x);
    }
  }

  /**
   Demultiplexing and truncation. For every run of a conforming peer and every prefix of its bytes, a
   receiver that was in step delivers exactly the messages whose last chunk lies in the prefix, each
   with its own chunk stream, time, type, message stream and payload, in the order of completion; then
   it fails without crashing.
   */
  lemma {:induction false} Demultiplex(s: Sender, r: Receiver, steps: seq<Step>, n: nat)
    requires Related(s, r) && ConformsAll(s, steps) && n <= |EmitAll(s, steps)|
    ensures ReadAll(r, At(EmitAll(s, steps)[..n])).messages == CompleteWithin(s, steps, n)
    ensures !ReadAll(r, At(EmitAll(s, steps)[..n])).crashed
    decreases |steps|
  {
    hide ReadAll, Emit, Conforms, After, Completed, Related;
    var w := EmitAll(s, steps)[..n];
    if steps == [] {
      EmptyInput(s, r);
    } else {
      var e := Emit(s, steps[0]);
      if n < |e| {
        assert w == e[..n];
        TruncatedStep(s, r, steps[0], n);
      } else {
        var s1, later := After(s, steps[0]), steps[1..];
        var rest := EmitAll(s1, later)[..n - |e|];
        assert w == e + rest;
        var r1 := ReadAllFollows(s, r, steps[0], rest);
        Demultiplex(s1, r1, later, n - |e|);
        assert CompleteWithin(s, steps, n) == Completed(s, steps[0]) + CompleteWithin(s1, later, n - |e|);
      }
    }
  }

  lemma EmptyInput(s: Sender, r: Receiver)
    requires Related(s, r)
    ensures ReadAll(r, At([])).messages == [] && !ReadAll(r, At([])).crashed && ReadAll(r, At([])).chunkSize == s.size
  {
    assert Agrees(s, r.chunks, 0);
  }

  lemma {:induction false} CompleteInFull(s: Sender, steps: seq<Step>)
    requires ConformsAll(s, steps)
    ensures CompleteWithin(s, steps, |EmitAll(s, steps)|) == CompletedBy(s, steps)
    decreases |steps|
  {
    if steps != [] {
      CompleteInFull(After(s, steps[0]), steps[1..]);
    }
  }

  /** From the whole byte stream of a run everything that was completed is delivered. */
  lemma WholeRun(s: Sender, r: Receiver, steps: seq<Step>)
    requires Related(s, r) && ConformsAll(s, steps)
    ensures ReadAll(r, At(EmitAll(s, steps))).messages == CompletedBy(s, steps)
    ensures !ReadAll(r, At(EmitAll(s, steps))).crashed
  {
    hide ReadAll, Related, ConformsAll;
    var w := EmitAll(s, steps);
    Demultiplex(s, r, steps, |w|);
    assert w[..|w|] == w;
    CompleteInFull(s, steps);
  }
}
