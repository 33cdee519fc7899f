/** Messages sent one after the other with Conn.Write, read back by a fresh connection. */
module Transfer {
  import opened Bytes
  import opened Wire
  import opened ChunkReader
  import opened ChunkWriter
  import opened Multiplex

  /** What Conn.Write requires of a message, apart from its chunk size. */
  predicate Sendable(m: Message) {
    2 <= m.csid < CHUNK_STREAM_IDS && m.timestamp < 0x1_0000_0000 && m.typeID < 256 && m.streamID < 0x1_0000_0000 &&
    |m.payload| <= MAX_POOL_SIZE && (m.typeID == SET_CHUNK_SIZE || m.typeID == WINDOW_ACK_SIZE ==> |m.payload| >= 4)
  }

  /**
   The writer cuts a message with the new size, the reader with the old one: they agree if the message
   does not change the size or is one chunk under both.
   */
  predicate CutAlike(m: Message, size: nat) {
    SizeFor(m, size) > 0 && (SizeFor(m, size) == size || |m.payload| <= Min(size, SizeFor(m, size)))
  }

  predicate SendableAll(ms: seq<Message>, size: nat) {
    ms == [] || (Sendable(ms[0]) && CutAlike(ms[0], size) && SendableAll(ms[1..], SizeFor(ms[0], size)))
  }

  function WriteAll(ms: seq<Message>, size: nat): seq<byte>
    requires SendableAll(ms, size)
  {
    if ms == [] then []
    else WriteChunks(ms[0], SizeFor(ms[0], size)) + WriteAll(ms[1..], SizeFor(ms[0], size))
  }

  /** The writer's chunk size after a sequence of messages. */
  function FinalSize(ms: seq<Message>, size: nat): nat {
    if ms == [] then size else FinalSize(ms[1..], SizeFor(ms[0], size))
  }

  /** The messages whose bytes lie within the first n bytes written; an empty message is never written. */
  function ArriveWithin(ms: seq<Message>, size: nat, n: nat): seq<Message>
    requires SendableAll(ms, size)
  {
    if ms == [] then []
    else
      var w := |WriteChunks(ms[0], SizeFor(ms[0], size))|;
      if n < w then []
      else (if ms[0].payload == [] then [] else [Routed(ms[0])]) + ArriveWithin(ms[1..], SizeFor(ms[0], size), n - w)
  }

  predicate AllIdle(s: Sender) {
    forall slot :: slot in s.lines ==> s.lines[slot].Idle()
  }

  /** The sender between two chunks of m: every other chunk stream is idle. */
  predicate Midway(s: Sender, m: Message, sent: nat) {
    s.size > 0 && 0 < sent <= |m.payload| && SlotOf(m.csid) in s.lines &&
    (var l := s.lines[SlotOf(m.csid)];
     l.Valid() && l.Sent() == m && l.kind == 0 && l.sent == sent) &&
    forall slot :: slot in s.lines && slot != SlotOf(m.csid) ==> s.lines[slot].Idle()
  }

  /** The chunks the writer has still to emit for m are one chunk, then the others. */
  lemma WriteFromIsChunk(s: Sender, m: Message, sent: nat)
    requires Midway(s, m, sent) && sent < |m.payload|
    ensures Conforms(s, More(m.csid))
    ensures var n := sent + Min(s.size, |m.payload| - sent);
            WriteFrom(m, s.size, sent) == Emit(s, More(m.csid)) + WriteFrom(m, s.size, n) &&
            var s1 := After(s, More(m.csid));
            if n == |m.payload| then AllIdle(s1) && s1.size == SizeFor(m, s.size) && Completed(s, More(m.csid)) == [m]
            else Midway(s1, m, n) && s1.size == s.size && Completed(s, More(m.csid)) == []
  {
  }

  function First(m: Message): Step {
    Full(m.csid, m.timestamp, m.typeID, m.streamID, m.payload)
  }

  lemma WriteStarts(s: Sender, m: Message)
    requires AllIdle(s) && s.size > 0 && Sendable(m) && m.payload != []
    ensures Conforms(s, First(m))
    ensures var n := Min(s.size, |m.payload|);
            WriteFrom(m, s.size, 0) == Emit(s, First(m)) + WriteFrom(m, s.size, n) &&
            var s1 := After(s, First(m));
            if n == |m.payload| then AllIdle(s1) && s1.size == SizeFor(m, s.size) && Completed(s, First(m)) == [m]
            else Midway(s1, m, n) && s1.size == s.size && Completed(s, First(m)) == []
  {
  }

  /** The rest of a message is read as that message, and the connections agree again. */
  lemma {:induction false} ReadsRest(s: Sender, r: Receiver, m: Message, sent: nat, rest: seq<byte>) returns (s1: Sender, r1: Receiver)
    requires Related(s, r) && Midway(s, m, sent) && sent < |m.payload|
    ensures Related(s1, r1) && AllIdle(s1) && s1.size == SizeFor(m, s.size)
    ensures ReadAll(r, At(WriteFrom(m, s.size, sent) + rest)) .messages == [m] + ReadAll(r1, At(rest)).messages
    ensures ReadAll(r, At(WriteFrom(m, s.size, sent) + rest)).crashed == ReadAll(r1, At(rest)).crashed
    ensures ReadAll(r, At(WriteFrom(m, s.size, sent) + rest)).chunkSize == ReadAll(r1, At(rest)).chunkSize
    decreases |m.payload| - sent
  {
    hide ReadAll, Emit, Conforms, After, Completed, Advanced, Opened, Related, MessageHeader, SizeFor;
    var step := More(m.csid);
    WriteFromIsChunk(s, m, sent);
    var n := sent + Min(s.size, |m.payload| - sent);
    var tail := WriteFrom(m, s.size, n) + rest;
    assert WriteFrom(m, s.size, sent) + rest == Emit(s, step) + tail;
    r1 := ReadAllFollows(s, r, step, tail);
    s1 := After(s, step);
    if n == |m.payload| {
      assert tail == rest;
    } else {
      s1, r1 := ReadsRest(s1, r1, m, n, rest);
    }
  }

  /** One message written at the agreed chunk size. */
  lemma ReadsMessage(s: Sender, r: Receiver, m: Message, rest: seq<byte>) returns (s1: Sender, r1: Receiver)
    requires Related(s, r) && AllIdle(s) && s.size > 0 && Sendable(m) && m.payload != []
    ensures Related(s1, r1) && AllIdle(s1) && s1.size == SizeFor(m, s.size)
    ensures ReadAll(r, At(WriteFrom(m, s.size, 0) + rest)).messages == [m] + ReadAll(r1, At(rest)).messages
    ensures ReadAll(r, At(WriteFrom(m, s.size, 0) + rest)).crashed == ReadAll(r1, At(rest)).crashed
    ensures ReadAll(r, At(WriteFrom(m, s.size, 0) + rest)).chunkSize == ReadAll(r1, At(rest)).chunkSize
  {
    hide ReadAll, Emit, Conforms, After, Completed, Advanced, Opened, Related, MessageHeader, SizeFor;
    WriteStarts(s, m);
    var n := Min(s.size, |m.payload|);
    var tail := WriteFrom(m, s.size, n) + rest;
    assert WriteFrom(m, s.size, 0) + rest == Emit(s, First(m)) + tail;
    r1 := ReadAllFollows(s, r, First(m), tail);
    s1 := After(s, First(m));
    if n == |m.payload| {
      assert tail == rest;
    } else {
      s1, r1 := ReadsRest(s1, r1, m, n, rest);
    }
  }

  /** A message that is cut short is not delivered. */
  lemma {:induction false} ReadsCut(s: Sender, r: Receiver, m: Message, sent: nat, cut: nat)
    requires Related(s, r) && s.size > 0 && Sendable(m) && m.payload != []
    requires if sent == 0 then AllIdle(s) else Midway(s, m, sent)
    requires sent < |m.payload| && cut < |WriteFrom(m, s.size, sent)|
    ensures ReadAll(r, At(WriteFrom(m, s.size, sent)[..cut])).messages == []
    ensures !ReadAll(r, At(WriteFrom(m, s.size, sent)[..cut])).crashed
    decreases |m.payload| - sent
  {
    hide ReadAll, Emit, Conforms, After, Completed, Advanced, Opened, Related, MessageHeader, SizeFor, WriteFrom;
    var step := if sent == 0 then First(m) else More(m.csid);
    if sent == 0 {
      WriteStarts(s, m);
    } else {
      WriteFromIsChunk(s, m, sent);
    }
    var n := sent + Min(s.size, |m.payload| - sent);
    var e, later := Emit(s, step), WriteFrom(m, s.size, n);
    if n == |m.payload| {
      NothingLeft(m, s.size);
    }
    if cut < |e| {
      assert (e + later)[..cut] == e[..cut];
      TruncatedStep(s, r, step, cut);
    } else {
      var rest := later[..cut - |e|];
      assert (e + later)[..cut] == e + rest;
      var r1 := ReadAllFollows(s, r, step, rest);
      ReadsCut(After(s, step), r1, m, n, cut - |e|);
    }
  }

  lemma NothingLeft(m: Message, size: nat)
    requires size > 0
    ensures WriteFrom(m, size, |m.payload|) == []
  {
  }

  lemma RoutedIsSendable(m: Message)
    requires Sendable(m)
    ensures Sendable(Routed(m)) && Routed(m).payload == m.payload && SizeFor(Routed(m), 0) == SizeFor(m, 0)
  {
  }

  /** A single chunk looks the same for every chunk size that holds it. */
  lemma OneChunk(m: Message, a: nat, b: nat)
    requires a > 0 && b > 0 && (a == b || |m.payload| <= Min(a, b))
    ensures WriteFrom(m, a, 0) == WriteFrom(m, b, 0)
  {
  }

  /** The bytes of a sequence begin with those of its first message, cut as the reader cuts them. */
  lemma WriteAllStarts(ms: seq<Message>, size: nat)
    requires ms != [] && size > 0 && SendableAll(ms, size)
    ensures var m, size1 := Routed(ms[0]), SizeFor(ms[0], size);
            Sendable(m) && size1 > 0 && SizeFor(m, size) == size1 && SendableAll(ms[1..], size1) &&
            (m.payload == [] ==> size1 == size) && WriteFrom(m, size1, 0) == WriteFrom(m, size, 0) &&
            WriteAll(ms, size) == WriteFrom(m, size, 0) + WriteAll(ms[1..], size1)
  {
    RoutedIsSendable(ms[0]);
    OneChunk(Routed(ms[0]), size, SizeFor(ms[0], size));
  }

  lemma ArriveWithinStarts(ms: seq<Message>, size: nat, n: nat)
    requires ms != [] && size > 0 && SendableAll(ms, size)
    ensures var m, size1, w := Routed(ms[0]), SizeFor(ms[0], size), |WriteFrom(Routed(ms[0]), size, 0)|;
            ArriveWithin(ms, size, n) ==
            if n < w then [] else (if m.payload == [] then [] else [m]) + ArriveWithin(ms[1..], size1, n - w)
  {
    hide WriteFrom, WriteAll, Sendable, CutAlike, SizeFor;
    WriteAllStarts(ms, size);
  }

  lemma NoMessages(size: nat)
    ensures WriteAll([], size) == [] && ArriveWithin([], size, 0) == []
  {
  }

  /**
   Round trip and truncation. The first n bytes of what Conn.Write emits for a sequence of messages are
   read as exactly the messages wholly inside them.
   */
  lemma {:induction false} ReadsAll(s: Sender, r: Receiver, ms: seq<Message>, n: nat)
    requires Related(s, r) && AllIdle(s) && s.size > 0
    requires SendableAll(ms, s.size) && n <= |WriteAll(ms, s.size)|
    ensures ReadAll(r, At(WriteAll(ms, s.size)[..n])).messages == ArriveWithin(ms, s.size, n)
    ensures !ReadAll(r, At(WriteAll(ms, s.size)[..n])).crashed
    ensures n == |WriteAll(ms, s.size)| ==> ReadAll(r, At(WriteAll(ms, s.size)[..n])).chunkSize == FinalSize(ms, s.size)
    decreases |ms|
  {
    hide ReadAll, Related, Sendable, CutAlike, SizeFor, AllIdle, WriteChunks, WriteFrom, WriteAll, ArriveWithin;
    var w := WriteAll(ms, s.size)[..n];
    if ms == [] {
      NoMessages(s.size);
      EmptyInput(s, r);
      assert w == [];
    } else {
      var m, size := Routed(ms[0]), SizeFor(ms[0], s.size);
      WriteAllStarts(ms, s.size);
      ArriveWithinStarts(ms, s.size, n);
      var e, later := WriteFrom(m, s.size, 0), WriteAll(ms[1..], size);
      if m.payload == [] {
        NothingLeft(m, s.size);
      }
      if n < |e| {
        assert w == e[..n];
        ReadsCut(s, r, m, 0, n);
      } else {
        var rest := later[..n - |e|];
        assert w == e + rest;
        var s1, r1 := s, r;
        if m.payload == [] {
          assert e + rest == rest;
        } else {
          s1, r1 := ReadsMessage(s, r, m, rest);
        }
        ReadsAll(s1, r1, ms[1..], n - |e|);
      }
    }
  }
}
