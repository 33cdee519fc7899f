/** One chunk stream as the connection's code holds it: header fields, progress, and a slice of pool memory. */
module ChunkStreams {
  import opened Bytes
  import opened Wire
  import opened ChunkReader
  import opened ChunkWriter
  import opened Pools

  /** The fields of the struct; the connection stores and copies them as one value. */
  datatype ChunkValue = ChunkValue(
    format: u32, csid: u32, timestamp: u32, length: u32, typeID: u32, streamID: u32,
    timeDelta: u32, exted: bool, index: nat, remain: nat, got: bool, data: Slice)
  {
    ghost predicate Valid() {
      data.InBounds() && data.len == length == index + remain && length <= MAX_POOL_SIZE && (remain != 0 ==> !got)
    }

    /** The memory that holds what has been received. */
    ghost function Filled(): Slice {
      if data.buf == null then data else Slice(data.buf, data.off, index)
    }

    ghost function Body(): seq<byte>
      requires data.InBounds() && index <= data.len
      reads data.buf
    {
      Filled().Contents()
    }

    ghost function Abs(): Stream
      requires data.InBounds() && index <= data.len
      reads data.buf
    {
      Stream(format, csid, timestamp, length, typeID, streamID, timeDelta, exted, Body())
    }

    /** The header fields alone, as a stream that has received nothing. */
    ghost function Fields(): Stream {
      Stream(format, csid, timestamp, length, typeID, streamID, timeDelta, exted, [])
    }
  }

  const NoSlice := Slice(null, 0, 0)
  const ZeroChunk := ChunkValue(0, 0, 0, 0, 0, 0, 0, false, 0, 0, false, NoSlice)

  datatype Outcome = Done | Err(e: ReadError) | Panicked

  function HeadOutcome(h: HeadOut): Outcome {
    match h
    case Head(_, _) => Done
    case NoHead(e) => Err(e)
    case TooLong => Panicked
  }

  function OutcomeOf(o: ChunkOut): Outcome {
    match o
    case Chunk(_, _) => Done
    case NoChunk(e) => Err(e)
    case Panic => Panicked
  }

  /** Outside the part of s from position from on, the buffers are as they were. */
  twostate predicate Kept(bufs: set<array<byte>>, new s: Slice, from: nat)
    reads bufs
  {
    forall b: array<byte>, j: nat :: b in bufs && j < b.Length && !(b == s.buf && s.off + from <= j < s.off + s.len) ==>
      b[j] == old(b[j])
  }

  /** Filling the n positions after the first k of a window extends what was there. */
  lemma BodyGrows(was: seq<byte>, now: seq<byte>, off: nat, k: nat, n: nat)
    requires |was| == |now| && off + k + n <= |now|
    requires forall j :: 0 <= j < |now| && !(off + k <= j < off + k + n) ==> now[j] == was[j]
    ensures now[off..off + k + n] == was[off..off + k] + now[off + k..off + k + n]
  {
    assert now[off..off + k] == was[off..off + k];
  }

  /** Where the i-th chunk's payload begins. */
  function Offset(i: nat, size: nat): nat {
    i * size
  }

  class ChunkStream {
    var v: ChunkValue
    var tmpFormat: nat

    constructor (v: ChunkValue, format: nat)
      ensures this.v == v && tmpFormat == format
    {
      this.v, tmpFormat := v, format;
    }

    /** The struct is consistent and its payload memory comes from the pool. */
    ghost predicate Valid(pool: Pool)
      reads this, pool
    {
      v.Valid() && pool.Valid() && pool.Spent(v.data)
    }

    /** Data is what the pool has just handed out. */
    twostate predicate Renewed(pool: Pool)
      reads this, pool
    {
      v.data.buf == pool.buf && v.data.len == v.length && v.data.off + v.data.len == pool.pos &&
      pool.issued == old(pool.issued) + [v.data] &&
      if pool.buf == old(pool.buf) then v.data.off == old(pool.pos) else pool.buf !in old(pool.bufs)
    }

    /** Starts a message: a buffer for the announced length, none of it filled. */
    method New(pool: Pool) returns (ok: bool)
      requires pool.Valid()
      modifies this`v, pool
      ensures pool.Valid() && old(pool.bufs) <= pool.bufs && fresh(pool.bufs - old(pool.bufs))
      ensures ok <==> v.length <= 1048576
      ensures v.Fields() == old(v.Fields()) && (ok ==> Valid(pool) && Renewed(pool) && v.index == 0)
      ensures !ok ==> v.data == old(v.data)
    {
      v := v.(got := false, index := 0, remain := v.length);
      var s := pool.Get(v.length);
      if s.None? {
        return false;
      }
      v := v.(data := s.value);
      return true;
    }

    method ResolveId(rw: ReadWriter)
      requires rw.Valid()
      modifies this`v, rw`pos, rw`readError
      ensures rw.Valid() && v == old(v).(csid := v.csid) && (v.csid, rw.Cur()) == ReadId(old(v.csid), old(rw.Cur()))
    {
      Pow256Values();
      if v.csid == 0 {
        var id := rw.ReadUintLE(1);
        v := v.(csid := id + 64);
      } else if v.csid == 1 {
        var id := rw.ReadUintLE(2);
        v := v.(csid := id + 64);
      }
    }

    /** The 24-bit time field and its 32-bit extension. */
    method ReadTime(rw: ReadWriter, field: u32) returns (time: u32)
      requires rw.Valid()
      modifies this`v, rw`pos, rw`readError
      ensures rw.Valid() && (time, rw.Cur()) == ReadExtended(field, old(rw.Cur())) && v == old(v).(exted := field == EXTENDED)
    {
      time := field;
      if field == EXTENDED {
        time := rw.ReadUintBE(4);
        v := v.(exted := true);
      } else {
        v := v.(exted := false);
      }
    }

    method ReadFullHeader(rw: ReadWriter)
      requires rw.Valid() && v.Valid() && tmpFormat == 0
      modifies this`v, rw`pos, rw`readError
      ensures rw.Valid() && ReadFull(old(v.Abs()), old(rw.Cur())) == Head(v.Fields(), rw.Cur())
    {
      hide TakeBE, TakeLE, ReadExtended;
      var ts := rw.ReadUintBE(3);
      var length := rw.ReadUintBE(3);
      var typeID := rw.ReadUintBE(1);
      var streamID := rw.ReadUintLE(4);
      v := v.(format := tmpFormat, length := length, typeID := typeID, streamID := streamID);
      ts := ReadTime(rw, ts);
      v := v.(timestamp := ts);
    }

    method ReadDeltaHeader(rw: ReadWriter)
      requires rw.Valid() && v.Valid() && tmpFormat == 1
      modifies this`v, rw`pos, rw`readError
      ensures rw.Valid() && ReadDelta(old(v.Abs()), old(rw.Cur())) == Head(v.Fields(), rw.Cur())
    {
      hide TakeBE, TakeLE, ReadExtended;
      var ts := rw.ReadUintBE(3);
      var length := rw.ReadUintBE(3);
      var typeID := rw.ReadUintBE(1);
      v := v.(format := tmpFormat, length := length, typeID := typeID);
      ts := ReadTime(rw, ts);
      v := v.(timeDelta := ts, timestamp := Add32(v.timestamp, ts));
    }

    method ReadShortHeader(rw: ReadWriter)
      requires rw.Valid() && v.Valid() && tmpFormat == 2
      modifies this`v, rw`pos, rw`readError
      ensures rw.Valid() && ReadShort(old(v.Abs()), old(rw.Cur())) == Head(v.Fields(), rw.Cur())
    {
      hide TakeBE, TakeLE, ReadExtended;
      var ts := rw.ReadUintBE(3);
      v := v.(format := tmpFormat);
      ts := ReadTime(rw, ts);
      v := v.(timeDelta := ts, timestamp := Add32(v.timestamp, ts));
    }

    method ReadRepeatHeader(rw: ReadWriter)
      requires rw.Valid() && v.Valid()
      modifies this`v, rw`pos, rw`readError
      ensures rw.Valid() && ReadRepeat(old(v.Abs()), old(rw.Cur())) == Head(v.Fields(), rw.Cur())
    {
      hide TakeBE;
      if v.format == 0 {
        if v.exted {
          var ts := rw.ReadUintBE(4);
          v := v.(timestamp := ts);
        }
      } else {
        var delta := v.timeDelta;
        if v.exted {
          delta := rw.ReadUintBE(4);
        }
        v := v.(timestamp := Add32(v.timestamp, delta));
      }
    }

    /** Inside a message: skips an extended time field that repeats the timestamp. */
    method SkipRepeatedTime(rw: ReadWriter) returns (o: Outcome)
      requires rw.Valid() && v.Valid()
      modifies rw`pos
      ensures rw.Valid() && o == HeadOutcome(ReadMore(v.Abs(), old(rw.Cur())))
      ensures o.Done? ==> ReadMore(v.Abs(), old(rw.Cur())) == Head(v.Abs(), rw.Cur())
    {
      if v.exted {
        var b := rw.Peek4();
        if b.None? {
          return Err(EOF);
        }
        if b.value == v.timestamp {
          rw.Discard4();
        }
      }
      return Done;
    }

    /** The header that starts a message. */
    method ReadStartHeader(rw: ReadWriter)
      requires rw.Valid() && v.Valid() && tmpFormat < 4
      modifies this`v, rw`pos, rw`readError
      ensures rw.Valid()
      ensures (if tmpFormat == 0 then ReadFull(old(v.Abs()), old(rw.Cur()))
               else if tmpFormat == 1 then ReadDelta(old(v.Abs()), old(rw.Cur()))
               else if tmpFormat == 2 then ReadShort(old(v.Abs()), old(rw.Cur()))
               else ReadRepeat(old(v.Abs()), old(rw.Cur()))) == Head(v.Fields(), rw.Cur())
    {
      hide ReadFull, ReadDelta, ReadShort, ReadRepeat;
      if tmpFormat == 0 {
        ReadFullHeader(rw);
      } else if tmpFormat == 1 {
        ReadDeltaHeader(rw);
      } else if tmpFormat == 2 {
        ReadShortHeader(rw);
      } else {
        ReadRepeatHeader(rw);
      }
    }

    /**
     The message header; on a message start, also the buffer. No buffer contents change, and Data is
     either kept (inside a message) or new.
     */
    method ReadHeader(rw: ReadWriter, pool: Pool) returns (o: Outcome)
      requires rw.Valid() && Valid(pool) && tmpFormat < 4 && (v.remain == 0 || tmpFormat == 3)
      modifies this`v, rw`pos, rw`readError, pool
      ensures rw.Valid() && pool.Valid() && old(pool.bufs) <= pool.bufs && fresh(pool.bufs - old(pool.bufs))
      ensures o == HeadOutcome(ReadHead(old(v.Abs()), tmpFormat, old(rw.Cur())))
      ensures o.Done? ==> Valid(pool) && ReadHead(old(v.Abs()), tmpFormat, old(rw.Cur())) == Head(v.Abs(), rw.Cur())
      ensures o.Done? && old(v.remain) == 0 ==> v.index == 0 && Renewed(pool)
      ensures (o.Done? && old(v.remain) != 0) || o.Err? ==> v == old(v) && unchanged(pool)
    {
      hide ReadFull, ReadDelta, ReadShort, ReadRepeat, ReadMore;
      if v.remain != 0 {
        o := SkipRepeatedTime(rw);
        return;
      }
      ReadStartHeader(rw);
      var ok := New(pool);
      if !ok {
        return Panicked;
      }
      return Done;
    }

    /** Reads the next n payload bytes into place. */
    method Receive(rw: ReadWriter, n: nat, ghost bufs: set<array<byte>>) returns (err: Option<ReadError>)
      requires rw.Valid() && v.Valid() && n <= v.remain
      modifies rw`pos, rw`readError, v.data.buf
      ensures rw.Valid() && rw.Cur() == TakeBytes(old(rw.Cur()), n).1 && err == rw.readError
      ensures Kept(bufs, v.data, v.index)
      ensures err.None? ==> v.(index := v.index + n).Body() == old(v.Body()) + TakeBytes(old(rw.Cur()), n).0
    {
      hide TakeBytes;
      var buf, off, index := v.data.buf, v.data.off, v.index;
      ghost var was := if buf == null then [] else buf[..];
      err := rw.Read(buf, off + index, n);
      if err.None? && buf != null {
        ghost var now := buf[..];
        BodyGrows(was, now, off, index, n);
        assert buf[off..off + index + n] == now[off..off + index + n];
        assert old(buf[off..off + index]) == was[off..off + index];
      }
    }

    /** The bookkeeping after n received bytes. */
    method Progress(n: nat)
      requires v.Valid() && n <= v.remain
      modifies this`v
      ensures v == old(v).(index := old(v.index) + n, remain := old(v.remain) - n, got := v.got)
      ensures v.Valid() && v.got == (v.remain == 0)
    {
      v := v.(index := v.index + n, remain := v.remain - n);
      if v.remain == 0 {
        v := v.(got := true);
      }
    }

    /** Up to chunkSize payload bytes, appended to those already received. */
    method FillBody(rw: ReadWriter, chunkSize: u32, pool: Pool) returns (o: Outcome)
      requires rw.Valid() && Valid(pool)
      modifies this`v, rw`pos, rw`readError, v.data.buf
      ensures rw.Valid() && v.Valid() && v.data == old(v.data) && Kept(pool.bufs, v.data, old(v.index))
      ensures o == OutcomeOf(ReadBody(old(v.Abs()), old(rw.Cur()), chunkSize))
      ensures o.Done? ==> ReadBody(old(v.Abs()), old(rw.Cur()), chunkSize) == Chunk(v.Abs(), rw.Cur())
      ensures o.Done? ==> v.got == (v.remain == 0)
    {
      hide TakeBytes, Kept;
      var size := v.remain;
      if size > chunkSize {
        size := chunkSize;
      }
      var err := Receive(rw, size, pool.bufs);
      if err.Some? {
        return Err(err.value);
      }
      Progress(size);
      return Done;
    }

    /** A chunk continues the message in its buffer, or starts one in a new buffer. */
    twostate predicate SameOrNew(pool: Pool)
      reads this, pool, pool.bufs
    {
      old(pool.bufs) <= pool.bufs &&
      ((v.data == old(v.data) && unchanged(pool) && Kept(old(pool.bufs), v.data, old(v.index))) ||
       (Renewed(pool) && Kept(old(pool.bufs), v.data, 0)))
    }

    /** One chunk after its basic header and chunk stream id; st and c are the state it starts from. */
    method ReadHeadedChunk(rw: ReadWriter, chunkSize: u32, pool: Pool, ghost st: Stream, ghost c: Cursor) returns (o: Outcome)
      requires rw.Valid() && Valid(pool) && tmpFormat < 4 && (v.remain == 0 || tmpFormat == 3)
      requires v.Abs() == st && rw.Cur() == c
      modifies this`v, rw`pos, rw`readError, pool, pool.bufs
      ensures rw.Valid() && pool.Valid() && old(pool.bufs) <= pool.bufs && fresh(pool.bufs - old(pool.bufs))
      ensures o.Done? ==> Valid(pool) && v.got == (v.remain == 0)
      ensures o == OutcomeOf(ReadHeaded(st, tmpFormat, c, chunkSize))
      ensures o.Done? ==> ReadHeaded(st, tmpFormat, c, chunkSize) == Chunk(v.Abs(), rw.Cur())
      ensures o.Done? ==> if old(v.remain) == 0 then Renewed(pool) else v.data == old(v.data)
      ensures !o.Panicked? ==> SameOrNew(pool)
    {
      hide ReadHead, ReadBody;
      o := ReadHeader(rw, pool);
      if o.Done? {
        o := FillBody(rw, chunkSize, pool);
      }
    }

    /** One chunk after its basic header, in the slot and format that header named. */
    method ReadChunk(rw: ReadWriter, chunkSize: u32, pool: Pool, ghost st: Stream, ghost c: Cursor) returns (o: Outcome)
      requires rw.Valid() && Valid(pool) && tmpFormat < 4
      requires v.Abs() == st && rw.Cur() == c
      modifies this`v, rw`pos, rw`readError, pool, pool.bufs
      ensures rw.Valid() && pool.Valid() && old(pool.bufs) <= pool.bufs && fresh(pool.bufs - old(pool.bufs))
      ensures o.Done? ==> Valid(pool) && v.got == (v.remain == 0)
      ensures o == OutcomeOf(ChunkReader.ReadChunk(st, tmpFormat, old(v.csid), c, chunkSize))
      ensures o.Done? ==> ChunkReader.ReadChunk(st, tmpFormat, old(v.csid), c, chunkSize) == Chunk(v.Abs(), rw.Cur())
      ensures o.Done? ==> if old(v.remain) == 0 then Renewed(pool) else v.data == old(v.data)
      ensures !o.Panicked? ==> SameOrNew(pool)
    {
      hide ReadId, ReadHeaded;
      if v.remain != 0 && tmpFormat != 3 {
        return Err(InvalidRemain(v.remain));
      }
      ResolveId(rw);
      o := ReadHeadedChunk(rw, chunkSize, pool, st.(csid := v.csid), rw.Cur());
    }

    /** The same, for a caller that relies on other pool memory: none of it changes, none of it is handed out again. */
    method ReadKeeping(rw: ReadWriter, chunkSize: u32, pool: Pool, ghost st: Stream, ghost c: Cursor, ghost keep: set<Slice>)
      returns (o: Outcome)
      requires rw.Valid() && Valid(pool) && tmpFormat < 4
      requires v.Abs() == st && rw.Cur() == c
      requires forall s :: s in keep ==> pool.Spent(s) && (v.remain == 0 || s.Disjoint(v.data.From(v.index)))
      modifies this`v, rw`pos, rw`readError, pool, pool.bufs
      ensures rw.Valid() && pool.Valid() && old(pool.bufs) <= pool.bufs && fresh(pool.bufs - old(pool.bufs))
      ensures o.Done? ==> Valid(pool) && v.got == (v.remain == 0)
      ensures o == OutcomeOf(ChunkReader.ReadChunk(st, tmpFormat, old(v.csid), c, chunkSize))
      ensures o.Done? ==> ChunkReader.ReadChunk(st, tmpFormat, old(v.csid), c, chunkSize) == Chunk(v.Abs(), rw.Cur())
      ensures !o.Panicked? ==> forall s :: s in keep ==> pool.Spent(s) && s.Contents() == old(s.Contents())
      ensures o.Done? ==> if old(v.remain) == 0 then forall s :: s in keep ==> s.Disjoint(v.data) else v.data == old(v.data)
      ensures !o.Panicked? ==> pool.Spent(old(v.data))
    {
      hide ChunkReader.ReadChunk;
      o := ReadChunk(rw, chunkSize, pool, st, c);
    }

    method WriteBasicHeader(rw: ReadWriter)
      requires v.format <= 3
      modifies rw`output
      ensures rw.output == old(rw.output) + BasicHeader(v.format, v.csid)
    {
      hide BE, LE;
      ghost var was := rw.output;
      var h := v.format * 64;
      assert was + [] == was && BE(h + v.csid, 1) + [] == BE(h + v.csid, 1);
      if v.csid < 64 {
        rw.WriteUintBE(h + v.csid, 1);
      } else if v.csid - 64 < 256 {
        rw.WriteUintBE(h, 1);
        rw.WriteUintLE(v.csid - 64, 1);
        Associates(was, BE(h, 1), LE(v.csid - 64, 1));
      } else if v.csid - 64 < 65536 {
        rw.WriteUintBE(h + 1, 1);
        rw.WriteUintLE(v.csid - 64, 2);
        Associates(was, BE(h + 1, 1), LE(v.csid - 64, 2));
      }
    }

    /** A length of more than 24 bits is an error, discovered after the time field is written. */
    method WriteFields(rw: ReadWriter, ts: u32) returns (ok: bool)
      requires v.format <= 3
      modifies rw`output
      ensures ok <==> v.format >= 2 || v.length <= 0xFF_FFFF
      ensures ok && (v.format == 3 || ts == Min(v.timestamp, EXTENDED)) ==>
                rw.output == old(rw.output) + ChunkWriter.Fields(v.format, v.timestamp, v.length, v.typeID, v.streamID)
    {
      if v.format == 3 {
        return true;
      }
      rw.WriteUintBE(ts, 3);
      if v.format == 2 {
        return true;
      }
      if v.length > EXTENDED {
        return false;
      }
      rw.WriteUintBE(v.length, 3);
      rw.WriteUintBE(v.typeID, 1);
      if v.format == 1 {
        Regroup(old(rw.output), BE(ts, 3), BE(v.length, 3), BE(v.typeID, 1));
        return true;
      }
      rw.WriteUintLE(v.streamID, 4);
      Regroup5(old(rw.output), BE(ts, 3), BE(v.length, 3), BE(v.typeID, 1), LE(v.streamID, 4));
      return true;
    }

    method WriteHeader(rw: ReadWriter) returns (ok: bool)
      requires v.format <= 3
      modifies rw`output
      ensures ok <==> v.format >= 2 || v.length <= 0xFF_FFFF
      ensures ok ==> rw.output == old(rw.output) + Header(v.format, v.csid, v.timestamp, v.length, v.typeID, v.streamID)
    {
      hide BasicHeader, ChunkWriter.Fields;
      WriteBasicHeader(rw);
      var ts := v.timestamp;
      if v.format != 3 && v.timestamp > EXTENDED {
        ts := EXTENDED;
      }
      ok := WriteFields(rw, ts);
      if !ok {
        return;
      }
      if ts >= EXTENDED {
        rw.WriteUintBE(v.timestamp, 4);
      }
      Regroup(old(rw.output), BasicHeader(v.format, v.csid),
              ChunkWriter.Fields(v.format, v.timestamp, v.length, v.typeID, v.streamID), ExtendedTime(v.timestamp));
    }

    /** The struct as the message it describes. */
    ghost function Described(): Message
      requires v.data.InBounds()
      reads this, v.data.buf
    {
      Message(v.csid, v.timestamp, v.typeID, v.streamID, v.data.Contents())
    }

    lemma DescribedLength()
      requires v.data.InBounds() && v.data.len == v.length
      ensures |Described().payload| == v.length
    {
    }

    /** The i-th chunk of a routed message: n payload bytes from position start. */
    method WriteOne(rw: ReadWriter, i: nat, start: nat, n: nat, ghost m: Message) returns (ok: bool)
      requires v.data.InBounds() && v.data.len == v.length && start + n <= v.length && n > 0
      requires m == Described()
      modifies this`v, rw`output
      ensures ok <==> i > 0 || v.length <= 0xFF_FFFF
      ensures ok ==> WroteChunk(old(rw.output), rw.output, m, if i == 0 then 0 else 3, start, n)
      ensures v == old(v).(format := v.format) && m == Described()
    {
      hide Header;
      v := v.(format := if i == 0 then 0 else 3);
      ok := WriteHeader(rw);
      if ok {
        var p := v.data.buf[v.data.off + start..v.data.off + start + n];
        assert p == m.payload[start..start + n] by {
          v.data.Part(start, n);
        }
        assert MessageHeader(v.format, m) == Header(v.format, v.csid, v.timestamp, v.length, v.typeID, v.streamID);
        hide *;
        rw.Write(p);
        ChunkWritten(old(rw.output), m, v.format, start, n);
      }
    }

    /** Splits the message into chunks; an empty message produces none. */
    method WriteChunk(rw: ReadWriter, chunkSize: u32, ghost m: Message) returns (ok: bool)
      requires chunkSize > 0 && v.data.InBounds() && v.data.len == v.length && m == Described()
      modifies this`v, rw`output
      ensures ok <==> v.length <= 0xFF_FFFF
      ensures ok ==> rw.output == old(rw.output) + WriteChunks(m, chunkSize)
      ensures v == old(v).(csid := Routed(m).csid, format := v.format)
    {
      if v.typeID == 8 {
        v := v.(csid := 4);
      } else if v.typeID == 9 || v.typeID == 18 || v.typeID == 15 {
        v := v.(csid := 6);
      }
      ghost var routed := Routed(m);
      ok := WriteRouted(rw, chunkSize, routed);
    }

    method WriteRouted(rw: ReadWriter, chunkSize: u32, ghost m: Message) returns (ok: bool)
      requires chunkSize > 0 && v.data.InBounds() && v.data.len == v.length && m == Described()
      modifies this`v, rw`output
      ensures ok <==> v.length <= 0xFF_FFFF
      ensures ok ==> rw.output == old(rw.output) + WriteFrom(m, chunkSize, 0)
      ensures v == old(v).(format := v.format)
    {
      hide StillToWrite, WroteChunk, WriteFrom, Offset, Described, Quotient;
      DescribedLength();
      LastChunk(v.length, chunkSize);
      ghost var goal := rw.output + WriteFrom(m, chunkSize, 0);
      WriteFromStart(m, chunkSize, rw.output);
      var totalLen: nat := 0;
      var numChunks := Quotient(v.length, chunkSize);
      var i: nat := 0;
      while i <= numChunks
        invariant i <= numChunks + 1 && totalLen <= v.length && (totalLen == v.length || totalLen == Offset(i, chunkSize))
        invariant v == old(v).(format := v.format) && m == Described()
        invariant if i == 0 then totalLen == 0 else totalLen > 0 && v.length <= EXTENDED
        invariant StillToWrite(rw.output, m, chunkSize, totalLen, goal)
      {
        if totalLen == v.length {
          break;
        }
        var inc: nat := chunkSize;
        var start := Offset(i, chunkSize);
        if v.length - start <= inc {
          inc := v.length - start;
        }
        ghost var before := rw.output;
        ok := WriteOne(rw, i, start, inc, m);
        if !ok {
          return;
        }
        WriteFromStep(m, chunkSize, start, inc, before, rw.output, goal);
        NextChunk(i, chunkSize);
        totalLen := totalLen + inc;
        i := i + 1;
      }
      WriteFromEnd(m, chunkSize, rw.output, goal);
      return true;
    }
  }

  /** The output, followed by the chunks from position sent on, is the goal. */
  ghost predicate StillToWrite(output: seq<byte>, m: Message, size: nat, sent: nat, goal: seq<byte>)
    requires size > 0
  {
    sent <= |m.payload| && output + WriteFrom(m, size, sent) == goal
  }

  /** One chunk with n payload bytes from position start has been written. */
  ghost predicate WroteChunk(before: seq<byte>, after: seq<byte>, m: Message, fmt: nat, start: nat, n: nat) {
    start + n <= |m.payload| && after == before + MessageHeader(fmt, m) + m.payload[start..start + n]
  }

  lemma ChunkWritten(before: seq<byte>, m: Message, fmt: nat, start: nat, n: nat)
    requires start + n <= |m.payload|
    ensures WroteChunk(before, before + MessageHeader(fmt, m) + m.payload[start..start + n], m, fmt, start, n)
  {
  }

  lemma WriteFromStart(m: Message, size: nat, output: seq<byte>)
    requires size > 0
    ensures StillToWrite(output, m, size, 0, output + WriteFrom(m, size, 0))
  {
  }

  lemma WriteFromStep(m: Message, size: nat, sent: nat, n: nat, before: seq<byte>, after: seq<byte>, goal: seq<byte>)
    requires size > 0 && sent < |m.payload| && n == Min(size, |m.payload| - sent)
    requires StillToWrite(before, m, size, sent, goal) && WroteChunk(before, after, m, if sent == 0 then 0 else 3, sent, n)
    ensures StillToWrite(after, m, size, sent + n, goal)
  {
    Regroup(before, MessageHeader(if sent == 0 then 0 else 3, m), m.payload[sent..sent + n], WriteFrom(m, size, sent + n));
  }

  lemma WriteFromEnd(m: Message, size: nat, output: seq<byte>, goal: seq<byte>)
    requires size > 0 && StillToWrite(output, m, size, |m.payload|, goal)
    ensures output == goal
  {
  }

  lemma NextChunk(i: nat, size: nat)
    ensures Offset(i + 1, size) == Offset(i, size) + size
  {
  }

  function Quotient(length: nat, size: nat): nat
    requires size > 0
  {
    length / size
  }

  lemma LastChunk(length: nat, size: nat)
    requires size > 0
    ensures Offset(0, size) == 0 && Offset(Quotient(length, size) + 1, size) > length
  {
  }
}
