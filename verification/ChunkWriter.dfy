/** What the sending side emits for one message. */
module ChunkWriter {
  import opened Bytes
  import opened ChunkReader

  const CHUNK_STREAM_IDS := 65600

  function Min(a: nat, b: nat): nat {
    if a < b then a else b
  }

  /** The 6-bit field under which both sides file a chunk stream. */
  function SlotOf(csid: nat): nat {
    if csid < 64 then csid else if csid < 320 then 0 else 1
  }

  function IdBytes(csid: nat): seq<byte> {
    if csid < 64 then [] else if csid < 320 then LE(csid - 64, 1) else LE(csid - 64, 2)
  }

  /** Ids above 65599 get no basic header at all. */
  function BasicHeader(fmt: nat, csid: nat): seq<byte> {
    if csid < CHUNK_STREAM_IDS then BE(64 * fmt + SlotOf(csid), 1) + IdBytes(csid) else []
  }

  /** The fields of a message header: fewer for each higher format. */
  function Fields(fmt: nat, time: nat, length: nat, typeID: nat, streamID: nat): seq<byte> {
    if fmt == 3 then []
    else if fmt == 2 then BE(Min(time, EXTENDED), 3)
    else if fmt == 1 then BE(Min(time, EXTENDED), 3) + (BE(length, 3) + BE(typeID, 1))
    else BE(Min(time, EXTENDED), 3) + (BE(length, 3) + (BE(typeID, 1) + LE(streamID, 4)))
  }

  function ExtendedTime(time: nat): seq<byte> {
    if time >= EXTENDED then BE(time, 4) else []
  }

  function Header(fmt: nat, csid: nat, time: nat, length: nat, typeID: nat, streamID: nat): seq<byte> {
    BasicHeader(fmt, csid) + (Fields(fmt, time, length, typeID, streamID) + ExtendedTime(time))
  }

  /** Audio always travels on chunk stream 4, video and script data on 6. */
  function Routed(m: Message): Message {
    m.(csid := if m.typeID == 8 then 4
               else if m.typeID == 9 || m.typeID == 18 || m.typeID == 15 then 6
               else m.csid)
  }

  function MessageHeader(fmt: nat, m: Message): seq<byte> {
    Header(fmt, m.csid, m.timestamp, |m.payload|, m.typeID, m.streamID)
  }

  /** The chunks that carry the payload from position sent on. */
  function WriteFrom(m: Message, size: nat, sent: nat): seq<byte>
    requires size > 0 && sent <= |m.payload|
    decreases |m.payload| - sent
  {
    if sent == |m.payload| then []
    else
      var n := Min(size, |m.payload| - sent);
      MessageHeader(if sent == 0 then 0 else 3, m) + m.payload[sent..sent + n] + WriteFrom(m, size, sent + n)
  }

  function WriteChunks(m: Message, size: nat): seq<byte>
    requires size > 0
  {
    WriteFrom(Routed(m), size, 0)
  }

  /** The chunk size in force while m is written: a Set Chunk Size message already uses its own value. */
  function SizeFor(m: Message, size: nat): nat {
    if m.typeID == SET_CHUNK_SIZE && |m.payload| >= 4 then BEVal(m.payload[..4]) else size
  }
}
