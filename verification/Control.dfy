/** What the control messages of a session do to the reader, told in plain numbers (section 5.4 of RTMP 1.0). */
module Control {
  import opened Bytes
  import opened Wire
  import opened ChunkReader

  /** The reader's chunk size and window, all bytes counted, and those not yet acknowledged. */
  datatype Counters = Counters(chunkSize: nat, window: nat, received: nat, unacked: nat)

  function CountersOf(r: Receiver): Counters {
    Counters(r.chunkSize, r.window, r.received, r.ackReceived)
  }

  /** The 32-bit number that a control message carries. */
  function Carried(m: Message): nat {
    if |m.payload| < 4 then 0
    else ((m.payload[0] as nat * 256 + m.payload[1] as nat) * 256 + m.payload[2] as nat) * 256 + m.payload[3] as nat
  }

  /** Type 1 sets the chunk size and type 5 the window; then the message itself is counted in 32 bits. */
  function Told(k: Counters, m: Message): Counters {
    var chunkSize := if m.typeID == 1 then Carried(m) else k.chunkSize;
    var window := if m.typeID == 5 then Carried(m) else k.window;
    var received, unacked := (k.received + |m.payload|) % 0x1_0000_0000, (k.unacked + |m.payload|) % 0x1_0000_0000;
    Counters(chunkSize, window, if received >= 0xF000_0000 then 0 else received, if unacked >= window then 0 else unacked)
  }

  /** The acknowledgement that a message calls forth: all bytes not yet acknowledged, once they fill the window. */
  function Answered(k: Counters, m: Message): seq<nat> {
    var window := if m.typeID == 5 then Carried(m) else k.window;
    var unacked := (k.unacked + |m.payload|) % 0x1_0000_0000;
    if unacked >= window then [unacked] else []
  }

  function ToldAll(k: Counters, ms: seq<Message>): Counters
    decreases |ms|
  {
    if ms == [] then k else ToldAll(Told(k, ms[0]), ms[1..])
  }

  function AnsweredAll(k: Counters, ms: seq<Message>): seq<nat>
    decreases |ms|
  {
    if ms == [] then [] else Answered(k, ms[0]) + AnsweredAll(Told(k, ms[0]), ms[1..])
  }

  lemma CarriedIs(m: Message)
    requires |m.payload| >= 4
    ensures Carried(m) == BEVal(m.payload[..4])
  {
    var p := m.payload;
    ByteOrder(p[0], p[1], p[2], p[3]);
    assert p[..4] == [p[0], p[1], p[2], p[3]];
  }

  lemma DeliverTells(r: Receiver, m: Message, c: Cursor)
    ensures (m.typeID == 1 || m.typeID == 5) && |m.payload| < 4 <==> Deliver(r, m, c).Crashed?
    ensures var o := Deliver(r, m, c);
            o.Received? ==>
              o.m == m && CountersOf(o.r) == Told(CountersOf(r), m) &&
              (if o.ack.Some? then [o.ack.value] else []) == Answered(CountersOf(r), m)
  {
    hide BEVal, Carried;
    if |m.payload| >= 4 {
      CarriedIs(m);
    }
  }

  /** What one message does. */
  lemma {:induction false} MessageTells(r: Receiver, c: Cursor)
    ensures var o := ReadMessage(r, c);
            o.Received? ==>
              CountersOf(o.r) == Told(CountersOf(r), o.m) && (o.m.typeID == 1 || o.m.typeID == 5 ==> |o.m.payload| >= 4) &&
              (if o.ack.Some? then [o.ack.value] else []) == Answered(CountersOf(r), o.m)
    decreases |c.rest|
  {
    hide ReadOne, Deliver, Told, Answered;
    var o := ReadOne(r, c);
    if o.Chunk? {
      var r1 := r.(chunks := r.chunks[NextSlot(c) := o.st]);
      if o.st.Remain() == 0 {
        DeliverTells(r1, o.st.Delivered(), o.c);
      } else {
        MessageTells(r1, o.c);
      }
    }
  }

  /** What a whole session does: sizes, counters and every acknowledgement follow from the messages alone. */
  lemma {:induction false} SessionTells(r: Receiver, c: Cursor)
    ensures var s := ReadAll(r, c);
            Counters(s.chunkSize, s.window, s.received, s.ackReceived) == ToldAll(CountersOf(r), s.messages) &&
            s.acks == AnsweredAll(CountersOf(r), s.messages)
    decreases |c.rest|
  {
    hide ReadMessage, Told, Answered;
    var o := ReadMessage(r, c);
    if o.Received? {
      MessageTells(r, c);
      SessionTells(o.r, o.c);
      var later := ReadAll(o.r, o.c);
      ReadAllDelivers(r, c, o.m, o.ack, o.r, o.c);
      assert ([o.m] + later.messages)[1..] == later.messages;
    }
  }
}
