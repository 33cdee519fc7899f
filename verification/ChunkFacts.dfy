/** Exact conditions and closed forms of the chunk layer. */
module ChunkFacts {
  import opened Bytes
  import opened Wire
  import opened ChunkReader
  import opened ChunkWriter
  import opened Multiplex
  import opened Transfer

  /** Inside a message only a type 3 header is accepted, and elsewhere this error does not arise. */
  lemma PartialMessageNeedsTypeThree(st: Stream, fmt: nat, slot: nat, c: Cursor, size: nat)
    requires c.err.None? || !c.err.value.InvalidRemain?
    ensures (exists n :: ReadChunk(st, fmt, slot, c, size) == NoChunk(InvalidRemain(n))) <==> st.Remain() != 0 && fmt != 3
  {
    if st.Remain() != 0 && fmt != 3 {
      assert ReadChunk(st, fmt, slot, c, size) == NoChunk(InvalidRemain(st.Remain()));
    } else {
      var c1 := ReadId(slot, c).1;
      assert c1.err.None? || !c1.err.value.InvalidRemain?;
      var h := ReadHead(st.(csid := ReadId(slot, c).0), fmt, c1);
      HeadErrors(st.(csid := ReadId(slot, c).0), fmt, c1);
    }
  }

  lemma HeadErrors(st: Stream, fmt: nat, c: Cursor)
    requires c.err.None? || !c.err.value.InvalidRemain?
    ensures var h := ReadHead(st, fmt, c);
            (h.NoHead? ==> !h.err.InvalidRemain?) && (h.Head? && h.c.err.Some? ==> !h.c.err.value.InvalidRemain?)
  {
  }

  /**
   The extended time field of a continuation is taken for what it is exactly when it repeats the absolute
   timestamp; otherwise its four bytes are taken for payload.
   */
  lemma ContinuationFieldExact(st: Stream, slot: nat, field: nat, piece: seq<byte>, rest: seq<byte>, size: nat)
    requires 2 <= slot < 64 && st.csid == slot && st.exted && st.Remain() > 0 && field < 0x1_0000_0000
    requires |piece| == Min(size, st.Remain())
    ensures ReadChunk(st, 3, slot, At(BE(field, 4) + (piece + rest)), size) == Chunk(st.(body := st.body + piece), At(rest))
            <==> field == st.timestamp
  {
    Pow256Values();
    TakeBEOf(field, 4, piece + rest);
    TakeBytesOf(piece, rest);
    var w := BE(field, 4) + (piece + rest);
    assert w[4..] == piece + rest && BEVal(w[..4]) == field;
  }

  // ---- timestamps ----

  /** An absolute time, the differences announced since, and the difference that a type 3 header repeats. */
  datatype Clock = Clock(base: nat, elapsed: nat, again: nat)

  function Tick(k: Clock, step: Step, csid: nat): Clock {
    if step.csid != csid then k
    else
      match step
      case Full(_, timestamp, _, _, _) => Clock(timestamp, 0, 0)
      case Delta(_, delta, _, _) => Clock(k.base, k.elapsed + delta, delta)
      case Short(_, delta, _) => Clock(k.base, k.elapsed + delta, delta)
      case Repeat(_, _) => Clock(k.base, k.elapsed + k.again, k.again)
      case More(_) => k
  }

  function TickAll(k: Clock, steps: seq<Step>, csid: nat): Clock
    decreases |steps|
  {
    if steps == [] then k else TickAll(Tick(k, steps[0], csid), steps[1..], csid)
  }

  predicate Shows(s: Sender, k: Clock, csid: nat) {
    SlotOf(csid) in s.lines && s.lines[SlotOf(csid)].csid == csid &&
    var l := s.lines[SlotOf(csid)];
    l.timestamp == (k.base + k.elapsed) % 0x1_0000_0000 && k.again == if l.kind == 0 then 0 else l.delta
  }

  lemma AddModulo(a: nat, b: nat)
    ensures Add32(a % 0x1_0000_0000, b) == (a + b) % 0x1_0000_0000
  {
  }

  lemma TickStep(s: Sender, k: Clock, step: Step, csid: nat)
    requires Conforms(s, step) && 2 <= csid < 64
    requires Shows(s, k, csid) || (step.Full? && step.csid == csid)
    ensures Shows(After(s, step), Tick(k, step, csid), csid)
  {
    hide Emit;
    if step.csid == csid && SlotOf(csid) in s.lines {
      var l := s.lines[SlotOf(csid)];
      AddModulo(k.base + k.elapsed, if step.Delta? || step.Short? then step.delta else l.delta);
    }
  }

  lemma {:induction false} ClockGoesOn(s: Sender, k: Clock, steps: seq<Step>, csid: nat)
    requires ConformsAll(s, steps) && 2 <= csid < 64 && Shows(s, k, csid)
    ensures Shows(AfterAll(s, steps), TickAll(k, steps, csid), csid)
    decreases |steps|
  {
    hide Emit, Conforms, After, Shows, Tick;
    if steps != [] {
      TickStep(s, k, steps[0], csid);
      ClockGoesOn(After(s, steps[0]), Tick(k, steps[0], csid), steps[1..], csid);
    }
  }

  /** A chunk stream whose slot has never been used can only begin with a full header. */
  predicate Tracks(s: Sender, k: Clock, csid: nat) {
    SlotOf(csid) !in s.lines || Shows(s, k, csid)
  }

  lemma TrackStep(s: Sender, k: Clock, step: Step, csid: nat)
    requires Conforms(s, step) && 2 <= csid < 64 && Tracks(s, k, csid)
    ensures Tracks(After(s, step), Tick(k, step, csid), csid)
    ensures step.csid == csid ==> Shows(After(s, step), Tick(k, step, csid), csid)
  {
    hide Emit, Shows, Tick;
    if Shows(s, k, csid) || (step.Full? && step.csid == csid) {
      TickStep(s, k, step, csid);
    }
  }

  /** A message that a chunk completes is delivered with the time that the headers of its chunk stream add up to. */
  lemma DeliveredTime(s: Sender, r: Receiver, k: Clock, step: Step, rest: seq<byte>)
    requires Related(s, r) && Conforms(s, step) && 2 <= step.csid < 64 && Tracks(s, k, step.csid)
    requires Completed(s, step) != []
    ensures var o, now := ReadMessage(r, At(Emit(s, step) + rest)), Tick(k, step, step.csid);
            o.Received? && o.m.csid == step.csid && o.m.timestamp == (now.base + now.elapsed) % 0x1_0000_0000
  {
    hide Related, Emit, ReadMessage, Tracks, Tick, Conforms;
    TrackStep(s, k, step, step.csid);
    CompletedShows(s, Tick(k, step, step.csid), step);
    var r1, ack := FollowsStep(s, r, step, rest);
  }

  lemma CompletedShows(s: Sender, k: Clock, step: Step)
    requires Conforms(s, step) && Shows(After(s, step), k, step.csid)
    ensures forall m :: m in Completed(s, step) ==>
              m.csid == step.csid && m.timestamp == (k.base + k.elapsed) % 0x1_0000_0000
  {
    hide Emit;
  }

  /** The times of the messages of a chunk stream. */
  function TimesOn(ms: seq<Message>, csid: nat): seq<nat> {
    if ms == [] then [] else (if ms[0].csid == csid then [ms[0].timestamp] else []) + TimesOn(ms[1..], csid)
  }

  /** What the clock of a chunk stream shows at each completed message, as far as n bytes reach. */
  function ClockTimes(s: Sender, k: Clock, steps: seq<Step>, csid: nat, n: nat): seq<nat>
    requires ConformsAll(s, steps)
    decreases |steps|
  {
    if steps == [] || n < |Emit(s, steps[0])| then []
    else
      var now := Tick(k, steps[0], csid);
      (if steps[0].csid == csid && Completed(s, steps[0]) != [] then [(now.base + now.elapsed) % 0x1_0000_0000] else []) +
      ClockTimes(After(s, steps[0]), now, steps[1..], csid, n - |Emit(s, steps[0])|)
  }

  lemma {:induction false} CompletedTimes(s: Sender, k: Clock, steps: seq<Step>, csid: nat, n: nat)
    requires ConformsAll(s, steps) && 2 <= csid < 64 && Tracks(s, k, csid)
    ensures TimesOn(CompleteWithin(s, steps, n), csid) == ClockTimes(s, k, steps, csid, n)
    decreases |steps|
  {
    hide Emit, Conforms, Completed, After, Tick, Tracks, Shows;
    if steps != [] && n >= |Emit(s, steps[0])| {
      var step, later := steps[0], n - |Emit(s, steps[0])|;
      var s1, now := After(s, step), Tick(k, step, csid);
      TrackStep(s, k, step, csid);
      CompletedTimes(s1, now, steps[1..], csid, later);
      StepTimes(s, now, step, csid);
      TimesOnConcat(Completed(s, step), CompleteWithin(s1, steps[1..], later), csid);
    }
  }

  lemma StepTimes(s: Sender, k: Clock, step: Step, csid: nat)
    requires Conforms(s, step) && (step.csid == csid ==> Shows(After(s, step), k, csid))
    ensures TimesOn(Completed(s, step), csid) ==
            if step.csid == csid && Completed(s, step) != [] then [(k.base + k.elapsed) % 0x1_0000_0000] else []
  {
    hide Emit, Shows, After;
    if step.csid == csid {
      CompletedShows(s, k, step);
    }
  }

  lemma {:induction false} TimesOnConcat(a: seq<Message>, b: seq<Message>, csid: nat)
    ensures TimesOn(a + b, csid) == TimesOn(a, csid) + TimesOn(b, csid)
  {
    if a == [] {
      assert a + b == b;
    } else {
      TimesOnConcat(a[1..], b, csid);
      assert (a + b)[1..] == a[1..] + b;
      Associates(if a[0].csid == csid then [a[0].timestamp] else [], TimesOn(a[1..], csid), TimesOn(b, csid));
    }
  }

  /**
   However the chunk streams are interleaved and compressed, and wherever the bytes are cut, every message
   that is read has the time of its chunk stream's last full header plus all differences since, modulo 2^32.
   */
  lemma TimestampsAddUp(s: Sender, r: Receiver, k: Clock, steps: seq<Step>, csid: nat, n: nat)
    requires Related(s, r) && ConformsAll(s, steps) && n <= |EmitAll(s, steps)|
    requires 2 <= csid < 64 && Tracks(s, k, csid)
    ensures TimesOn(ReadAll(r, At(EmitAll(s, steps)[..n])).messages, csid) == ClockTimes(s, k, steps, csid, n)
  {
    hide ReadAll, Related, ConformsAll, EmitAll, Tracks, TimesOn, ClockTimes;
    Demultiplex(s, r, steps, n);
    CompletedTimes(s, k, steps, csid, n);
  }

  // ---- the other fields ----

  /**
   What a message that a chunk completes is read as: a full header gives every field, types 1 to 3 take what
   they do not carry from the message before on their chunk stream, and a continuation changes nothing.
   */
  lemma DeliveredFields(s: Sender, r: Receiver, step: Step, rest: seq<byte>)
    requires Related(s, r) && Conforms(s, step) && Completed(s, step) != []
    ensures var o := ReadMessage(r, At(Emit(s, step) + rest));
            o.Received? &&
            if step.Full? then
              o.m == Message(step.csid, step.timestamp, step.typeID, step.streamID, step.payload)
            else
              var last := s.lines[SlotOf(step.csid)];
              o.m.csid == last.csid == step.csid && o.m.streamID == last.streamID &&
              o.m.typeID == (if step.Delta? then step.typeID else last.typeID) &&
              o.m.payload == (if step.More? then last.payload else step.payload) &&
              (step.Delta? || step.Short? ==> o.m.timestamp == (last.timestamp + step.delta) % 0x1_0000_0000) &&
              (step.More? ==> o.m.timestamp == last.timestamp)
  {
    hide Related, Emit, ReadMessage;
    var r1, ack := FollowsStep(s, r, step, rest);
  }

  // ---- Set Chunk Size ----

  function SetChunkSize(csid: nat, time: nat, streamID: nat, n: nat): Message {
    Message(csid, time, SET_CHUNK_SIZE, streamID, BE(n, 4))
  }

  lemma SetChunkSizeBytes(n: nat)
    requires n < 4
    ensures BE(n, 4) == [0, 0, 0, n as byte]
  {
    assert BE(n, 4) == BE(n / 256, 3) + [(n % 256) as byte];
    assert BE(0, 3) == BE(0, 2) + [0] && BE(0, 2) == BE(0, 1) + [0] && BE(0, 1) == BE(0, 0) + [0];
  }

  /**
   A Set Chunk Size message reaches a reader whose chunk size is at least 4 exactly when the value it
   announces is at least 4: below that the writer already cuts the message itself into smaller chunks.
   */
  lemma SetChunkSizeExact(s: Sender, r: Receiver, csid: nat, time: nat, streamID: nat, n: nat, rest: seq<byte>)
    requires Related(s, r) && AllIdle(s) && r.chunkSize >= 4 && 1 <= n < 0x1_0000_0000
    requires 2 <= csid < 64 && time < 0x1_0000_0000 && streamID < 0x1_0000_0000
    ensures var m := SetChunkSize(csid, time, streamID, n);
            var o := ReadMessage(r, At(WriteChunks(m, n) + rest));
            (o.Received? && o.m == m) <==> n >= 4
  {
    Pow256Values();
    BERoundTrip(n, 4);
    var m := SetChunkSize(csid, time, streamID, n);
    var step := First(m);
    WriteStarts(s, m);
    if n >= 4 {
      OneChunk(m, n, s.size);
      assert WriteChunks(m, n) == Emit(s, step);
      var r1, ack := FollowsStep(s, r, step, rest);
    } else {
      SplitSetChunkSize(s, r, m, n, rest);
    }
  }

  lemma SplitSetChunkSize(s: Sender, r: Receiver, m: Message, n: nat, rest: seq<byte>)
    requires Related(s, r) && r.chunkSize >= 4 && 1 <= n < 4
    requires 2 <= m.csid < 64 && m == SetChunkSize(m.csid, m.timestamp, m.streamID, n) && Conforms(s, First(m))
    ensures var o := ReadMessage(r, At(WriteChunks(m, n) + rest)); o.Received? ==> o.m != m
  {
    var body := m.payload[..n] + (WriteFrom(m, n, n) + rest);
    SplitFrames(s, m, n, rest);
    SplitBody(m, n, rest);
    var h := ReadHeaderOf(s, r, First(m), body);
    hide ReadOne, WriteFrom, WriteChunks, Framed, Conforms;
    assert ReadBody(h.st, At(body), s.size).st.body[n] == body[n];
  }

  lemma SplitFrames(s: Sender, m: Message, n: nat, rest: seq<byte>)
    requires 1 <= n < 4 && m == SetChunkSize(m.csid, m.timestamp, m.streamID, n) && Conforms(s, First(m))
    ensures WriteChunks(m, n) + rest == Framed(s, First(m), m.payload[..n] + (WriteFrom(m, n, n) + rest))
  {
    hide Framed, Conforms, MessageHeader;
    var body := m.payload[..n] + (WriteFrom(m, n, n) + rest);
    assert WriteFrom(m, n, 0) == MessageHeader(0, m) + m.payload[..n] + WriteFrom(m, n, n);
    HeaderSplits(s, m, body);
    Regroup(MessageHeader(0, m), m.payload[..n], WriteFrom(m, n, n), rest);
  }

  lemma HeaderSplits(s: Sender, m: Message, body: seq<byte>)
    requires Conforms(s, First(m))
    ensures MessageHeader(0, m) + body == Framed(s, First(m), body)
  {
    hide Fields, BasicHeader, ExtendedTime;
  }

  /** Where the reader expects the rest of the payload it finds the header of the second chunk. */
  lemma SplitBody(m: Message, n: nat, rest: seq<byte>)
    requires 1 <= n < 4 && 2 <= m.csid < 64 && m.payload == BE(n, 4)
    ensures var body := m.payload[..n] + (WriteFrom(m, n, n) + rest);
            |body| >= 4 && body[n] != m.payload[n]
  {
    SetChunkSizeBytes(n);
    SecondChunkStarts(m, n);
    RestLength(m, n, n);
  }

  lemma SecondChunkStarts(m: Message, n: nat)
    requires 1 <= n < |m.payload| && 2 <= m.csid < 64
    ensures |WriteFrom(m, n, n)| > 0 && WriteFrom(m, n, n)[0] == (192 + m.csid) as byte
  {
    var h := BasicHeader(3, m.csid);
    assert BE(192 + m.csid, 1) == BE(0, 0) + [(192 + m.csid) as byte];
    assert h[0] == (192 + m.csid) as byte;
  }

  lemma {:induction false} RestLength(m: Message, size: nat, sent: nat)
    requires size > 0 && sent <= |m.payload| && 2 <= m.csid < 64
    ensures |WriteFrom(m, size, sent)| >= |m.payload| - sent + (if sent < |m.payload| then 1 else 0)
    decreases |m.payload| - sent
  {
    if sent < |m.payload| {
      RestLength(m, size, sent + Min(size, |m.payload| - sent));
    }
  }

  // ---- chunk count ----

  function Ceil(a: nat, b: nat): nat
    requires b > 0
  {
    if a == 0 then 0 else if a <= b then 1 else 1 + Ceil(a - b, b)
  }

  lemma {:induction false} CeilIsDivision(a: nat, b: nat)
    requires b > 0
    ensures b * Ceil(a, b) >= a && (a > 0 ==> b * (Ceil(a, b) - 1) < a)
  {
    if a > b {
      CeilIsDivision(a - b, b);
      assert b * (1 + Ceil(a - b, b)) == b + b * Ceil(a - b, b);
      assert b * Ceil(a - b, b) == b * (Ceil(a - b, b) - 1) + b;
    }
  }

  /** The number of bytes written: the payload, one full header and the bare ones. */
  lemma {:induction false} ChunkCount(m: Message, size: nat, sent: nat)
    requires size > 0 && sent <= |m.payload|
    ensures var left, full, bare := |m.payload| - sent, |MessageHeader(0, m)|, |MessageHeader(3, m)|;
            |WriteFrom(m, size, sent)| ==
            left + (if left == 0 then 0 else if sent == 0 then full - bare else 0) + bare * Ceil(left, size)
    decreases |m.payload| - sent
  {
    hide MessageHeader;
    var left, bare := |m.payload| - sent, |MessageHeader(3, m)|;
    if left > 0 {
      var n := Min(size, left);
      ChunkCount(m, size, sent + n);
      OneMoreTime(bare, Ceil(left - n, size));
      assert Ceil(left, size) == 1 + Ceil(left - n, size);
    } else {
      assert bare * 0 == 0;
    }
  }

  lemma OneMoreTime(a: nat, k: nat)
    ensures a * (1 + k) == a + a * k
  {
  }

  function Continuations(csid: nat, k: nat): seq<Step> {
    if k == 0 then [] else [More(csid)] + Continuations(csid, k - 1)
  }

  lemma {:induction false} ContinuationCount(csid: nat, k: nat)
    ensures |Continuations(csid, k)| == k && forall i :: 0 <= i < k ==> Continuations(csid, k)[i] == More(csid)
  {
    if k > 0 {
      ContinuationCount(csid, k - 1);
    }
  }

  lemma {:induction false} RestIsContinuations(s: Sender, m: Message, sent: nat)
    requires Midway(s, m, sent) && sent < |m.payload|
    ensures var steps := Continuations(m.csid, Ceil(|m.payload| - sent, s.size));
            ConformsAll(s, steps) && EmitAll(s, steps) == WriteFrom(m, s.size, sent) && CompletedBy(s, steps) == [m]
    decreases |m.payload| - sent
  {
    hide Emit, Conforms, After, Completed, MessageHeader, SizeFor;
    WriteFromIsChunk(s, m, sent);
    var left, step := |m.payload| - sent, More(m.csid);
    var k := Ceil(left, s.size);
    var s1 := After(s, step);
    assert Continuations(m.csid, k)[0] == step && Continuations(m.csid, k)[1..] == Continuations(m.csid, k - 1);
    if left > s.size {
      RestIsContinuations(s1, m, sent + s.size);
    } else {
      NoSteps(s1, Emit(s, step), [m]);
    }
  }

  lemma NoSteps(s: Sender, bytes: seq<byte>, ms: seq<Message>)
    ensures ConformsAll(s, []) && bytes + EmitAll(s, []) == bytes && ms + CompletedBy(s, []) == ms
  {
  }

  /** A message is written as exactly ceil(length / size) chunks: one with a full header, then bare continuations. */
  lemma ChunkSequence(s: Sender, m: Message)
    requires AllIdle(s) && s.size > 0 && Sendable(m) && m.payload != []
    ensures var n := Ceil(|m.payload|, s.size);
            var steps := [First(m)] + Continuations(m.csid, n - 1);
            |steps| == n && ConformsAll(s, steps) &&
            EmitAll(s, steps) == WriteFrom(m, s.size, 0) && CompletedBy(s, steps) == [m]
  {
    hide Emit, Conforms, After, Completed, MessageHeader, SizeFor, Sendable;
    WriteStarts(s, m);
    var n := Ceil(|m.payload|, s.size);
    var steps := [First(m)] + Continuations(m.csid, n - 1);
    ContinuationCount(m.csid, n - 1);
    assert steps[0] == First(m) && steps[1..] == Continuations(m.csid, n - 1);
    var s1 := After(s, First(m));
    if |m.payload| > s.size {
      RestIsContinuations(s1, m, s.size);
    } else {
      NoSteps(s1, Emit(s, First(m)), [m]);
    }
  }

  // ---- acknowledgements ----

  function Sum(xs: seq<nat>): nat {
    if xs == [] then 0 else xs[0] + Sum(xs[1..])
  }

  function TotalLength(ms: seq<Message>): nat {
    if ms == [] then 0 else |ms[0].payload| + TotalLength(ms[1..])
  }

  const WINDOW_LIMIT := 0x1_0000_0000 - 0x100_0000

  /** No counter is about to wrap, and less than a window is unacknowledged. */
  predicate Counting(r: Receiver) {
    r.received < 0xF000_0000 && r.window <= WINDOW_LIMIT && (r.ackReceived == 0 || r.ackReceived < r.window)
  }

  /** Counting n further bytes overflows neither counter. */
  predicate NoWrap(r: Receiver, n: nat) {
    r.received + n < 0x1_0000_0000 && r.ackReceived + n < 0x1_0000_0000
  }

  /** No message of a session makes a counter overflow. */
  predicate NeverWraps(r: Receiver, c: Cursor)
    decreases |c.rest|
  {
    var o := ReadMessage(r, c);
    o.Received? ==> NoWrap(r, |o.m.payload|) && NeverWraps(o.r, o.c)
  }

  predicate ModestWindow(m: Message) {
    m.typeID == WINDOW_ACK_SIZE && |m.payload| >= 4 ==> BEVal(m.payload[..4]) <= WINDOW_LIMIT
  }

  /** Counting a message conserves its bytes exactly when the unacknowledged total does not wrap. */
  lemma CountExact(r: Receiver, n: nat)
    requires r.ackReceived < 0x1_0000_0000 && n < 0x1_0000_0000
    ensures var (r1, ack) := CountBytes(r, n);
            r1.ackReceived + (if ack.Some? then ack.value else 0) == r.ackReceived + n
            <==> r.ackReceived + n < 0x1_0000_0000
  {
  }

  /** Messages that fit the pool and windows of at most 2^32 - 2^24 keep the counters in range. */
  lemma CountStays(r: Receiver, m: Message, c: Cursor)
    requires Counting(r) && ModestWindow(m) && |m.payload| <= MAX_POOL_SIZE
    ensures var o := Deliver(r, m, c);
            o.Received? ==>
              o.m == m && o.r.chunks == r.chunks && Counting(o.r) && NoWrap(r, |m.payload|) &&
              o.r.ackReceived + (if o.ack.Some? then o.ack.value else 0) == r.ackReceived + |m.payload|
  {
  }

  /** Every chunk stream holds at most the message it announced, and that fits the pool. */
  predicate Sane(r: Receiver) {
    forall slot :: slot in r.chunks ==> |r.chunks[slot].body| <= r.chunks[slot].length <= MAX_POOL_SIZE
  }

  lemma ReadOneSane(r: Receiver, c: Cursor)
    requires Sane(r) && ReadOne(r, c).Chunk?
    ensures |ReadOne(r, c).st.body| <= ReadOne(r, c).st.length <= MAX_POOL_SIZE
  {
    var slot := NextSlot(c);
    var st := Slot(r.chunks, slot);
    assert |st.body| <= st.length <= MAX_POOL_SIZE;
  }

  lemma {:induction false} CountedMessage(r: Receiver, c: Cursor)
    requires Sane(r) && Counting(r) && ReadMessage(r, c).Received? && ModestWindow(ReadMessage(r, c).m)
    ensures var o := ReadMessage(r, c);
            Sane(o.r) && Counting(o.r) && NoWrap(r, |o.m.payload|) &&
            o.r.ackReceived + (if o.ack.Some? then o.ack.value else 0) == r.ackReceived + |o.m.payload|
    decreases |c.rest|
  {
    hide ReadOne;
    ReadOneSane(r, c);
    var o := ReadOne(r, c);
    var r1 := r.(chunks := r.chunks[NextSlot(c) := o.st]);
    if o.st.Remain() == 0 {
      CountStays(r1, o.st.Delivered(), o.c);
    } else {
      CountedMessage(r1, o.c);
    }
  }

  /**
   Over a whole session the acknowledged bytes and the unacknowledged ones add up to the message bytes
   received, less than the window in force at the end stays unacknowledged, even when the window changes
   on the way, and no counter ever overflows.
   */
  lemma {:induction false} Acknowledged(r: Receiver, c: Cursor)
    requires Sane(r) && Counting(r) && forall m :: m in ReadAll(r, c).messages ==> ModestWindow(m)
    ensures var s := ReadAll(r, c);
            Sum(s.acks) + s.ackReceived == r.ackReceived + TotalLength(s.messages) &&
            (s.ackReceived == 0 || s.ackReceived < s.window) && s.received < 0xF000_0000
    ensures NeverWraps(r, c)
    decreases |c.rest|
  {
    var o := ReadMessage(r, c);
    if o.Received? {
      ReadAllDelivers(r, c, o.m, o.ack, o.r, o.c);
      var later := ReadAll(o.r, o.c);
      assert o.m in ReadAll(r, c).messages;
      assert forall m :: m in later.messages ==> m in ReadAll(r, c).messages;
      CountedMessage(r, c);
      Acknowledged(o.r, o.c);
      assert ([o.m] + later.messages)[1..] == later.messages;
      if o.ack.Some? {
        assert ([o.ack.value] + later.acks)[1..] == later.acks;
      } else {
        assert [] + later.acks == later.acks;
      }
    }
  }
}
