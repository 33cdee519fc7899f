/** The chunk format of RTMP (sections 5.3 and 5.4 of RTMP 1.0), byte by byte and in plain numbers. */
module ChunkFormat {
  import opened Bytes
  import opened Wire
  import opened ChunkReader
  import opened ChunkWriter
  import opened Multiplex
  import opened Connections

  /** The basic header: six bits of id, or 0 and one byte, or 1 and two bytes, least significant first. */
  lemma BasicHeaderBytes(fmt: nat, csid: nat)
    requires fmt < 4 && 2 <= csid <= 65599
    ensures csid <= 63 ==> BasicHeader(fmt, csid) == [(64 * fmt + csid) as byte]
    ensures 64 <= csid <= 319 ==> BasicHeader(fmt, csid) == [(64 * fmt) as byte, (csid - 64) as byte]
    ensures 320 <= csid ==>
              BasicHeader(fmt, csid) == [(64 * fmt + 1) as byte, ((csid - 64) % 256) as byte, ((csid - 64) / 256) as byte]
  {
    hide BE, LE;
    var low, high := (csid - 64) % 256, (csid - 64) / 256;
    var first := 64 * fmt + SlotOf(csid);
    BytesWritten(first as byte, 0, 0, 0);
    if 64 <= csid <= 319 {
      BytesWritten((csid - 64) as byte, 0, 0, 0);
    } else if csid >= 320 {
      assert csid - 64 == low + high * 256 && high < 256;
      BytesWritten(low as byte, high as byte, 0, 0);
    }
  }

  lemma Places(first: seq<byte>, time: seq<byte>, length: seq<byte>, kind: seq<byte>, rest: seq<byte>)
    requires |first| == 1 && |time| == |length| == 3 && |kind| == 1
    ensures var h := first + (time + (length + kind) + rest);
            h[0] == first[0] && h[1..4] == time && h[4..7] == length && h[7..8] == kind && h[8..] == rest && |h| == 8 + |rest|
  {
  }

  /** The fields of type 0: time, length, type, and the message stream, which is the only little-endian one. */
  lemma FullHeaderBytes(m: Message)
    requires 2 <= m.csid <= 63 && m.timestamp < 0x1_0000_0000
    ensures var h := MessageHeader(0, m);
            h[0] as nat == m.csid && h[4..7] == BE(|m.payload|, 3) && h[7..8] == BE(m.typeID, 1) &&
            h[8..12] == LE(m.streamID, 4) &&
            if m.timestamp < 0xFF_FFFF then |h| == 12 && h[1..4] == BE(m.timestamp, 3)
            else |h| == 16 && h[1..4] == [0xFF, 0xFF, 0xFF] && h[12..16] == BE(m.timestamp, 4)
  {
    hide BE, LE, BasicHeader;
    BasicHeaderBytes(0, m.csid);
    BytesWritten(0xFF, 0xFF, 0xFF, 0);
    var t, n, y, s := BE(Min(m.timestamp, EXTENDED), 3), BE(|m.payload|, 3), BE(m.typeID, 1), LE(m.streamID, 4);
    var x := ExtendedTime(m.timestamp);
    assert MessageHeader(0, m) == [m.csid as byte] + (t + (n + y) + (s + x));
    Places([m.csid as byte], t, n, y, s + x);
    FromPlace(MessageHeader(0, m), s, x);
  }

  lemma FromPlace(h: seq<byte>, s: seq<byte>, x: seq<byte>)
    requires |h| >= 8 && h[8..] == s + x && |s| == 4
    ensures h[8..12] == s && h[12..] == x && |h| == 12 + |x| && (|x| == 4 ==> h[12..16] == x)
  {
    assert h[8..][..4] == s && h[8..][4..] == x;
  }

  /** Type 1 leaves the message stream out. */
  lemma DeltaHeaderBytes(csid: nat, delta: nat, length: nat, typeID: nat, streamID: nat)
    requires 2 <= csid <= 63 && delta < 0x1_0000_0000
    ensures var h := Header(1, csid, delta, length, typeID, streamID);
            h[0] as nat == 64 + csid && h[4..7] == BE(length, 3) && h[7..8] == BE(typeID, 1) &&
            if delta < 0xFF_FFFF then |h| == 8 && h[1..4] == BE(delta, 3)
            else |h| == 12 && h[1..4] == [0xFF, 0xFF, 0xFF] && h[8..12] == BE(delta, 4)
  {
    hide BE, LE, BasicHeader;
    BasicHeaderBytes(1, csid);
    BytesWritten(0xFF, 0xFF, 0xFF, 0);
    Places([(64 + csid) as byte], BE(Min(delta, EXTENDED), 3), BE(length, 3), BE(typeID, 1), ExtendedTime(delta));
  }

  /** Type 2 leaves length and type out too. */
  lemma ShortHeaderBytes(csid: nat, delta: nat, length: nat, typeID: nat, streamID: nat)
    requires 2 <= csid <= 63 && delta < 0x1_0000_0000
    ensures var h := Header(2, csid, delta, length, typeID, streamID);
            h[0] as nat == 128 + csid &&
            if delta < 0xFF_FFFF then |h| == 4 && h[1..4] == BE(delta, 3)
            else |h| == 8 && h[1..4] == [0xFF, 0xFF, 0xFF] && h[4..8] == BE(delta, 4)
  {
    hide BE, LE, BasicHeader;
    BasicHeaderBytes(2, csid);
    BytesWritten(0xFF, 0xFF, 0xFF, 0);
  }

  /** Type 3 is a basic header alone, and the time again if it did not fit 24 bits. */
  lemma BareHeaderBytes(csid: nat, time: nat, length: nat, typeID: nat, streamID: nat)
    requires 2 <= csid <= 63 && time < 0x1_0000_0000
    ensures Header(3, csid, time, length, typeID, streamID) ==
            [(192 + csid) as byte] + if time < 0xFF_FFFF then [] else BE(time, 4)
  {
    hide BE, LE;
    BasicHeaderBytes(3, csid);
  }

  /** Audio leaves on chunk stream 4, video and both kinds of script data on 6, everything else on its own. */
  lemma ChunkStreamOf(m: Message)
    ensures m.typeID == 8 ==> Routed(m) == m.(csid := 4)
    ensures m.typeID == 9 || m.typeID == 15 || m.typeID == 18 ==> Routed(m) == m.(csid := 6)
    ensures m.typeID !in {8, 9, 15, 18} ==> Routed(m) == m
  {
  }

  /** A message that fits one chunk is its full header and its payload; a longer one goes on behind a bare header. */
  lemma MessageBytes(m: Message, size: nat)
    requires size > 0 && m.payload != []
    ensures |m.payload| <= size ==> WriteFrom(m, size, 0) == MessageHeader(0, m) + m.payload
    ensures |m.payload| > size ==>
              WriteFrom(m, size, 0) == MessageHeader(0, m) + m.payload[..size] + WriteFrom(m, size, size)
    ensures forall sent :: 0 < sent < |m.payload| ==>
              MessageHeader(3, m) <= WriteFrom(m, size, sent)
  {
    hide MessageHeader;
    assert m.payload[0..|m.payload|] == m.payload;
    if |m.payload| <= size {
      assert WriteFrom(m, size, |m.payload|) == [];
      assert MessageHeader(0, m) + m.payload + [] == MessageHeader(0, m) + m.payload;
    }
  }

  /** An acknowledgement is a message of type 3 on chunk stream 2 whose four bytes are the count. */
  lemma AcknowledgementBytes(count: nat, size: nat)
    requires count < 0x1_0000_0000 && size >= 4
    ensures AckBytes(Some(count), size) == [2, 0, 0, 0, 0, 0, 4, 3, 0, 0, 0, 0] + BE(count, 4)
    ensures AckBytes(None, size) == []
  {
    hide BE, LE, MessageHeader, WriteFrom;
    var m := ControlMessage(ACK, count);
    ChunkStreamOf(m);
    MessageBytes(m, size);
    FullHeaderBytes(m);
    BytesWritten(0, 0, 0, 0);
    BytesWritten(0, 0, 4, 0);
    BytesWritten(3, 0, 0, 0);
    var h := MessageHeader(0, m);
    assert h == [h[0]] + h[1..4] + h[4..7] + h[7..8] + h[8..12];
    assert h == [2, 0, 0, 0, 0, 0, 4, 3, 0, 0, 0, 0];
  }

  /** What both ends start with, and the largest buffer. */
  lemma Beginning()
    ensures NewReceiver.chunkSize == 128 && NewReceiver.window == 2500000
    ensures NewReceiver.received == 0 && NewReceiver.ackReceived == 0 && NewReceiver.chunks == map[]
    ensures NewSender.size == 128 && MAX_POOL_SIZE == 1048576
  {
  }
}
