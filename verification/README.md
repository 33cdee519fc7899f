# The media path of the RTMP server

A Dafny model of the parts of the server that every media byte passes through, and proofs about them:

- **Chunk layer** (`ReadWriter`, `ChunkReader`, `ChunkWriter`, `Pool`, `ChunkStream`, `Conn`). `ChunkReader` and
  `ChunkWriter` say, as functions on bytes, what reading and writing chunks means; `ReadWriter`, `Pool`, `ChunkStream`
  and `Conn` are the classes of the server, with heap buffers, proved against those functions. `Multiplex` is the
  independent view of the sender: messages of many chunk streams, started with any header type and interleaved chunk by
  chunk. `Transfer` is the sequential view of `Conn.Write`. `Runs` joins two fresh ends, `ChunkFacts` holds exact
  conditions and closed forms. `ChunkFormat` gives the bytes of every header and `Control` the effect of the control
  messages in plain numbers.
- **AMF0 and AMF3** (`AmfFormat`, `AmfRoundTrip`, `AmfLengths`, `AmfLaws`, `AmfDecoder`, `AmfEncoder`, `AmfGrammar`,
  `AmfReading`). The format as mutually recursive functions, the imperative decoder and encoder proved against them, and
  the laws about values. A `Layout` is a value with the order in which its map entries are written, so that a map
  iteration order is explicit. `AmfGrammar` is the format as any peer may write it: every marker, references into the
  tables, and what the bytes mean; `AmfReading` proves that the decoder understands all of it.
- **Relay** (`Packets`, `GopCache`, `Cache`, `Stream`, `VirWriter`, `Snapshots`, `Shedding`). What a late writer is sent is
  a function of the whole history; the writer's bounded queue sheds load by rotating itself while the sender drains it.
  `Snapshots` and `Shedding` say what arrives and what is lost by the fields of the packets alone.
- **Rewriting** (`AnnexB`, `H264`, `PictureUnits`, `Aac`). Length-prefixed video to start codes, raw audio frames to ADTS.
- **Smaller protocols** (`Handshake`, `PublishLock`, `Subscriptions`).

What the classes leave to the outside is a parameter: the bytes a peer sends, a keyed hash of which only the size is
known, random bytes, how far a writer takes packets before it fails, how many packets the sender takes at each moment
of load shedding, the steps of other publishers, what the clock does.

## Where the code does not do what one would expect

Each of these is stated exactly, by a lemma with its condition or by a contract.

- A Set Chunk Size message below 4 does not survive, since the writer already cuts it with its own value.
- The extended time field of a continuation is recognised only if it repeats the absolute time, so a large difference
  on a message of several chunks goes wrong.
- AMF0 objects with an empty key do not decode, and those with a key above 65535 bytes are misread; AMF3 integers above
  28 bits arrive as negative numbers; a truncated AMF3 string is padded with zero bytes.
- A ring of three or more groups dereferences nil; the program uses one.
- The packet offered to a full queue is lost, whatever it is. With nothing to keep, the dropping loop waits for ever as
  soon as the sender takes more than 60 packets before the loop's last receive.
- An AVCC picture whose first unit is one byte long is taken for Annex B. The stored second parameter set runs to the
  end of the sequence header, whatever its length field says, and every further sequence header is appended.
- ADTS frames above 8184 bytes, object types outside 1 to 4 and more than three channels do not fit their fields.
- A lock holder that comes back after its lease removes the key of a publisher that came in meanwhile.

## Model

| member | source | states |
|---|---|---|
| Runs.Interleaved | src/protocol/rtmp/core/conn.go:48-74 | A fresh connection that reads what a conforming peer interleaves on any number of chunk streams delivers exactly the messages of the run, in order of completion, and does not crash |
| Runs.DeliveredAsStarted | src/protocol/rtmp/core/conn.go:48-74 | What a fresh connection delivers on a slot, followed by the message still in progress there, is exactly what the peer started there, in the same order: nothing is lost, repeated or mixed |
| Multiplex.Demultiplex | src/protocol/rtmp/core/conn.go:48-74 | The same for a connection in any state that agrees with the sender, and for every prefix of the bytes: delivered are exactly the messages whose last chunk lies in the prefix, then reading fails without a crash |
| Multiplex.ReadChunkOf | src/protocol/rtmp/core/chunk_stream.go:154-259 | One chunk of any header type, of any conforming sender, is read as the sender meant it, whatever bytes follow |
| Multiplex.ReadHeadOf | src/protocol/rtmp/core/chunk_stream.go:167-242 | Header decompression: types 0 to 3 restore time, length, type and message stream from what the chunk stream last carried |
| Multiplex.FollowsStep | src/protocol/rtmp/core/conn.go:48-74 | After each chunk receiver and sender agree again, slot by slot, including the chunk size that a completed message announces |
| Multiplex.ReadAllFollows | src/protocol/rtmp/core/conn.go:48-74 | Reading on from one chunk yields the messages it completes and then those of the rest |
| Multiplex.ReadOneExtend | src/protocol/rtmp/core/chunk_stream.go:154-259 | A chunk that was read successfully is read the same whatever bytes follow it |
| Multiplex.PanicExtend | src/protocol/rtmp/core/chunk_stream.go:31-36 | A length beyond the pool is refused whatever follows |
| Multiplex.TruncatedStep | src/protocol/rtmp/core/read_writer.go:20-63 | A chunk cut anywhere yields an error and no message, although the single header reads ignore their errors |
| Multiplex.WholeRun | src/protocol/rtmp/core/conn.go:48-74 | From the whole byte stream of a run, read by an agreeing receiver, every completed message is delivered, in order of completion |
| Runs.RoundTrip | src/protocol/rtmp/core/conn.go:48-81 | Any sequence of messages sent with Write is read back by a fresh connection as the same sequence (empty ones are never sent, media goes to fixed chunk streams), and both ends then have the same chunk size |
| Runs.OneMoreWrite | src/protocol/rtmp/core/conn.go:76-81 | The bytes of repeated Write calls are those of the sequence, each message cut with the chunk size in force after the one before |
| Transfer.ReadsAll | src/protocol/rtmp/core/conn.go:48-81 | The same for any agreeing pair and for every prefix of the bytes written: exactly the messages wholly inside it arrive |
| Transfer.ReadsMessage | src/protocol/rtmp/core/chunk_stream.go:114-152 | One written message is one read message, with the bytes that follow left for the next |
| Transfer.ReadsRest | src/protocol/rtmp/core/chunk_stream.go:123-148 | From the middle of a message the remaining chunks complete it |
| Transfer.ReadsCut | src/protocol/rtmp/core/chunk_stream.go:243-258 | A message cut short, in whatever chunk, is not delivered and does not crash the reader |
| Transfer.WriteStarts | src/protocol/rtmp/core/chunk_stream.go:114-148 | What the writer emits first is a full header chunk of a conforming sender |
| Transfer.WriteFromIsChunk | src/protocol/rtmp/core/chunk_stream.go:123-148 | What it emits next are continuation chunks of the same message |
| ChunkFacts.SetChunkSizeExact | src/protocol/rtmp/core/conn.go:76-81 | A Set Chunk Size message reaches a reader whose chunk size is at least 4 if and only if the value it announces is at least 4, because the writer already cuts the message itself with the new size |
| ChunkFacts.TimestampsAddUp | src/protocol/rtmp/core/chunk_stream.go:167-224 | Over every interleaved run and every prefix of its bytes, the messages that are read on a chunk stream carry, each in turn, the time of its last full header plus all differences since, modulo 2^32; a type 3 start repeats the difference after types 1 and 2 and keeps the time after type 0 |
| ChunkFacts.DeliveredTime | src/protocol/rtmp/core/chunk_stream.go:167-224 | The same for the message that one chunk completes |
| ChunkFacts.PartialMessageNeedsTypeThree | src/protocol/rtmp/core/chunk_stream.go:155-157 | A chunk is refused as an invalid remainder if and only if a message is in progress and the header type is not 3 |
| ChunkFacts.ContinuationFieldExact | src/protocol/rtmp/core/chunk_stream.go:225-239 | The extended time field of a continuation is recognised if and only if it repeats the absolute timestamp; otherwise it is taken for payload |
| ChunkFacts.ChunkSequence | src/protocol/rtmp/core/chunk_stream.go:123-148 | A message is written as exactly ceil(length / size) chunks: one with a full header, then bare continuations that complete it |
| ChunkFacts.ChunkCount | src/protocol/rtmp/core/chunk_stream.go:123-148 | The number of bytes written: the payload, one full header and the bare ones |
| ChunkFacts.CeilIsDivision | src/protocol/rtmp/core/chunk_stream.go:124-125 | The number of chunks is the least that holds the length |
| ChunkFacts.Acknowledged | src/protocol/rtmp/core/conn.go:122-145 | Over every session with windows up to 2^32 - 2^24: acknowledgements sent plus bytes unacknowledged equal the message bytes received plus what was unacknowledged before; what stays unacknowledged is nothing or less than the window in force at the end, even when the window changes; no message makes a counter overflow |
| ChunkFacts.CountedMessage | src/protocol/rtmp/core/conn.go:130-145 | The same for one Read |
| ChunkFacts.CountExact | src/protocol/rtmp/core/conn.go:130-145 | Counting one message conserves its bytes if and only if the unacknowledged total stays below 2^32 |
| ChunkFacts.CountStays | src/protocol/rtmp/core/conn.go:122-145 | Messages of at most 1 MiB and modest windows keep both counters in range |
| Control.SessionTells | src/protocol/rtmp/core/conn.go:48-74 | Over every session the reader's chunk size, window and counters and every acknowledgement follow from the messages alone: type 1 sets the chunk size, type 5 the window, all payload bytes are counted modulo 2^32, and an acknowledgement of all unacknowledged bytes goes out exactly when they reach the window |
| Control.MessageTells | src/protocol/rtmp/core/conn.go:122-145 | The same for one message; a message of type 1 or 5 that arrives has at least four bytes |
| ChunkFacts.DeliveredFields | src/protocol/rtmp/core/chunk_stream.go:167-224 | The type, message stream and payload with which a message arrives: those of its own header, and what the header leaves out as the chunk stream last had it |
| ChunkFormat.BasicHeaderBytes | src/protocol/rtmp/core/chunk_stream.go:41-69 | One, two or three bytes: the header type in the upper two bits, then the id itself, or 0 and the id less 64, or 1 and the id less 64 in two bytes, least significant first |
| ChunkFormat.FullHeaderBytes | src/protocol/rtmp/core/chunk_stream.go:70-111 | Where each field of a type 0 header stands: 12 bytes with a 24-bit time below 0xffffff, and from there on 16 bytes with ff ff ff and a 32-bit time at the end; only the message stream is little-endian |
| ChunkFormat.DeltaHeaderBytes | src/protocol/rtmp/core/chunk_stream.go:181-194 | The same for type 1, in 8 or 12 bytes, with the difference in the time field |
| ChunkFormat.ShortHeaderBytes | src/protocol/rtmp/core/chunk_stream.go:195-206 | The same for type 2, in 4 or 8 bytes |
| ChunkFormat.BareHeaderBytes | src/protocol/rtmp/core/chunk_stream.go:70-111 | A type 3 header is a basic header, and from 0xffffff on the 32-bit time again |
| ChunkFormat.ChunkStreamOf | src/protocol/rtmp/core/chunk_stream.go:115-121 | Type 8 leaves on chunk stream 4, types 9, 15 and 18 on 6, everything else on its own |
| ChunkFormat.MessageBytes | src/protocol/rtmp/core/chunk_stream.go:123-148 | A message that fits one chunk is its full header and its payload; a longer one goes on behind a type 3 header after each chunk size of payload |
| ChunkFormat.AcknowledgementBytes | src/protocol/rtmp/core/conn.go:137-158 | The 16 bytes of an acknowledgement, one by one |
| ChunkFormat.Beginning | src/protocol/rtmp/core/conn.go:21-46 | Both ends begin with a chunk size of 128, the reader with a window of 2500000; buffers come from 1 MiB |
| Connections.Conn.Read | src/protocol/rtmp/core/conn.go:48-74 | The caller's struct holds the message that the reading function prescribes, all its fields and its payload; acknowledgement bytes, new state, errors and slicing panics follow that function too; the history grows by this message and every earlier payload is still in its memory |
| Connections.Conn.Check | src/protocol/rtmp/vir.go:58-66 | Reading until the input fails delivers exactly the messages of the session, and at the end every message ever delivered still has its payload |
| Connections.Conn.Write | src/protocol/rtmp/core/conn.go:76-81 | Appends exactly the chunks of the message, cut with the chunk size that it itself announces; fails exactly above 2^24 - 1 bytes |
| Connections.Conn.HandleControlMsg | src/protocol/rtmp/core/conn.go:122-128 | Follows Set Chunk Size and Window Acknowledgement Size; a payload below four bytes is a slicing panic |
| Connections.Conn.Ack | src/protocol/rtmp/core/conn.go:130-145 | Updates both counters as 32-bit words and writes an acknowledgement exactly when the window is reached |
| Connections.Conn.InUseIsKept | src/protocol/rtmp/core/conn.go:48-74 | Memory of other chunk streams, of bytes already received and of delivered messages lies apart from what the next chunk may write |
| Connections.Conn.ReadSlot | src/protocol/rtmp/core/conn.go:53-64 | One chunk read into a copy of its slot leaves the connection valid and all payloads in place |
| Connections.Conn.ReadUntilFull | src/protocol/rtmp/core/conn.go:49-69 | The demultiplexing loop stops at the first completed message or error, as the reading function does |
| Connections.Conn.Store | src/protocol/rtmp/core/conn.go:64 | Storing the struct changes one slot and nothing else |
| Connections.InitControlMsg | src/protocol/rtmp/core/conn.go:147-158 | A control message of any size from four bytes carries its value big-endian, then zeros, on chunk stream 2 |
| Connections.NewSetPeerBandwidth | src/protocol/rtmp/core/conn.go:116-120 | Its fifth byte is the limit type 2 |
| ChunkStreams.ChunkStream.ReadChunk | src/protocol/rtmp/core/chunk_stream.go:154-259 | The struct's fields after one chunk are those of the reading function, its buffer is its own, and memory outside its unfilled part is unchanged |
| ChunkStreams.ChunkStream.ReadKeeping | src/protocol/rtmp/core/chunk_stream.go:154-259 | Any set of pool slices apart from the unfilled part keeps its contents and is never handed out again |
| ChunkStreams.ChunkStream.ReadHeader | src/protocol/rtmp/core/chunk_stream.go:167-242 | Reads one message header into the fields |
| ChunkStreams.ChunkStream.ReadFullHeader | src/protocol/rtmp/core/chunk_stream.go:168-180 | A type 0 header sets all fields, extended time included |
| ChunkStreams.ChunkStream.ReadDeltaHeader | src/protocol/rtmp/core/chunk_stream.go:181-194 | A type 1 header adds its difference modulo 2^32 and keeps the message stream |
| ChunkStreams.ChunkStream.ReadShortHeader | src/protocol/rtmp/core/chunk_stream.go:195-206 | A type 2 header adds its difference and keeps length, type and message stream |
| ChunkStreams.ChunkStream.ReadRepeatHeader | src/protocol/rtmp/core/chunk_stream.go:207-224 | A type 3 header that starts a message repeats the time rule of the last header |
| ChunkStreams.ChunkStream.SkipRepeatedTime | src/protocol/rtmp/core/chunk_stream.go:225-239 | A continuation skips four bytes exactly if they repeat the timestamp |
| ChunkStreams.ChunkStream.New | src/protocol/rtmp/core/chunk_stream.go:31-36 | A new message gets a new buffer, disjoint from all earlier ones; a length beyond the pool is a panic |
| ChunkStreams.ChunkStream.FillBody | src/protocol/rtmp/core/chunk_stream.go:243-258 | Appends at most one chunk size of payload to the bytes already received and nothing else |
| ChunkStreams.ChunkStream.WriteHeader | src/protocol/rtmp/core/chunk_stream.go:38-112 | Writes basic header, fields and extended time of a header type; fails exactly for a length above 24 bits in types 0 and 1 |
| ChunkStreams.ChunkStream.WriteBasicHeader | src/protocol/rtmp/core/chunk_stream.go:40-69 | One, two or three bytes by the size of the id |
| ChunkStreams.ChunkStream.WriteChunk | src/protocol/rtmp/core/chunk_stream.go:114-152 | Moves media to its fixed chunk stream and appends the chunks of the message |
| ChunkStreams.ChunkStream.WriteRouted | src/protocol/rtmp/core/chunk_stream.go:123-151 | The splitting loop writes the recursive chunk sequence, for lengths that the chunk size divides too |
| Pools.Pool.Get | src/utils/pool/pool.go:10-18 | Hands out slices that are pairwise disjoint over all calls, across buffer replacement; panics exactly above 1 MiB |
| Wire.ReadWriter.ReadUintBE | src/protocol/rtmp/core/read_writer.go:33-47 | Big-endian value of n bytes, or zero and a sticky error, and the position after it |
| Wire.ReadWriter.ReadUintLE | src/protocol/rtmp/core/read_writer.go:49-63 | The same, little-endian |
| Wire.ReadWriter.Read | src/protocol/rtmp/core/read_writer.go:20-27 | Fills the buffer part or leaves a sticky error |
| Wire.ReadWriter.WriteUintBE | src/protocol/rtmp/core/read_writer.go:87-99 | Appends the n low-order bytes, most significant first |
| Wire.ReadWriter.WriteUintLE | src/protocol/rtmp/core/read_writer.go:101-114 | Appends the n low-order bytes, least significant first |
| Wire.TakeExtend | src/protocol/rtmp/core/read_writer.go:20-63 | A successful read does not depend on what follows |
| AmfReading.Understood0 | src/protocol/amf/decoder_amf0.go:12-340 | Every value any peer may write in AMF0, with any of the fourteen markers and nested at will (ECMA arrays with whatever count, dates with a zone, XML, typed objects, AMF3 inside), decodes to what its bytes mean, exactly its own bytes are taken, and the reference tables are those it leaves |
| AmfReading.Understood3 | src/protocol/amf/decoder_amf3.go:13-462 | The same for AMF3: strings, classes, arrays, objects, dates, XML and byte arrays written out or as references into the tables built so far, classes with and without dynamic properties; numbers in their shortest form |
| AmfReading.BatchUnderstood0 | src/protocol/amf/amf.go:8-18 | A batch of any such AMF0 values is read value by value to its end |
| AmfReading.BatchUnderstood3 | src/protocol/amf/amf.go:8-18 | A batch of any such AMF3 values likewise, with references from one value to another |
| AmfReading.Refused0 | src/protocol/amf/decoder_amf0.go:12-94 | Markers 4, 7, 9, 14 and those above 17, a boolean other than 0 or 1, and the end of the input are errors |
| AmfReading.Refused3 | src/protocol/amf/decoder_amf3.go:13-49 | Of AMF3, markers above 12 and the end of the input |
| AmfReading.TextRefBeyond | src/protocol/amf/decoder_amf3.go:131-134 | A string reference beyond the table is an index out of range |
| AmfReading.RefBeyond | src/protocol/amf/decoder_amf3.go:166-400 | So is an object reference, with half the number for arrays and objects; a reference to a value of another kind is an error |
| AmfReading.Writes0 | src/protocol/amf/encoder_amf0.go:13-280 | Byte for byte what the AMF0 encoder writes: markers 0, 1, 2 up to 65535 bytes and 12 beyond, 3, 5 and 10 |
| AmfReading.Writes3 | src/protocol/amf/encoder_amf3.go:16-434 | And the AMF3 encoder: markers 1 to 6, 9 and 10, every string written out, every object with a class of its own that is not dynamic |
| AmfFormat.DecodeFour | src/protocol/amf/decoder_amf3.go:464-486 | Three bytes of seven bits and a last one of eight make a number of 29 bits |
| AmfLaws.KindsTaken0 | src/protocol/amf/encoder_amf0.go:13-61 | Kind by kind, the values the AMF0 law speaks of |
| AmfLaws.KindsTaken3 | src/protocol/amf/encoder_amf3.go:16-85 | Kind by kind, the values and lengths the AMF3 law speaks of |
| AmfEncoding.LessExact | src/protocol/amf/encoder_amf3.go:280-284 | Keys are ordered by the first byte in which they differ, a prefix before what it begins |
| AmfLaws.Amf0Law | src/protocol/amf/decoder_amf0.go:12-58 | AMF0: for every nested value and every order of its map entries, decoding the encoding followed by anything gives the value and leaves exactly the rest, if and only if no object has an empty key and no key, string or array is longer than its length field can say; an empty key is an error |
| AmfLengths.DecodesShort0 | src/protocol/amf/decoder_amf0.go:12-246 | No value decoded from AMF0 has a longer key, string or array, unless AMF3 inside it extends the table of objects |
| AmfLaws.Amf3Law | src/protocol/amf/decoder_amf3.go:13-51 | AMF3: whatever the reference tables hold, decoding leaves exactly the rest and gives the value without its class names at any depth, if and only if no integer needs more than 28 bits; the value itself comes back if and only if there are no class names either; decoding succeeds in any case |
| AmfLaws.TypedObjectLosesName | src/protocol/amf/decoder_amf3.go:241-375 | A typed object arrives as its property map, and so do those nested in it |
| AmfEncoding.ErasedIsSame | src/protocol/amf/decoder_amf3.go:333-375 | Dropping class names changes nothing exactly where there is no typed object |
| AmfLaws.BatchLaw0 | src/protocol/amf/amf.go:8-38 | DecodeBatch gives back exactly the values that EncodeBatch wrote in AMF0, stops at the end of input and leaves the reference tables alone, if and only if none has an empty key or a length beyond its field |
| AmfLaws.BatchLaw3 | src/protocol/amf/amf.go:8-38 | The same in AMF3, without class names, if and only if all integers have at most 28 bits |
| AmfRoundTrip.RoundTrip3 | src/protocol/amf/decoder_amf3.go:13-375 | The suffix-generalised AMF3 law: integers arrive modulo 2^29 in the signed range, all else unchanged |
| AmfRoundTrip.Preserved3 | src/protocol/amf/decoder_amf3.go:82-100 | A value survives AMF3 if and only if its integers have at most 28 bits |
| AmfRoundTrip.TruncatedString0 | src/protocol/amf/decoder_amf0.go:98-119 | A string cut short is an error in AMF0 |
| AmfRoundTrip.TruncatedString3 | src/protocol/amf/decoder_amf3.go:119-152 | A string cut short is accepted in AMF3 and padded with zero bytes, unless nothing of it is left |
| AmfEncoding.CanonicalIsUnique | src/protocol/amf/encoder_amf3.go:266-363 | Sorted properties make the AMF3 encoding a function of the value |
| AmfEncoding.LayoutMeansValue | src/protocol/amf/encoder_amf0.go:140-178 | Whatever order a map is iterated in, the entries written are the map; class names are not part of what they mean |
| AmfEncoding.SortedIsUnique | src/protocol/amf/encoder_amf3.go:280-284 | A set of keys has one sorted sequence |
| AmfFormat.U29RoundTrip | src/protocol/amf/encoder_amf3.go:417-434 | decodeU29 inverts encodeAmf3Uint29 up to 2^29 - 1, whatever follows |
| AmfFormat.U29Shortest | src/protocol/amf/decoder_amf3.go:464-486 | Any byte string that decodes to a number is at least as long as the encoder's output for it |
| AmfDecoding.Decoder.DecodeAmf3 | src/protocol/amf/decoder_amf3.go:13-51 | The consuming decoder returns what the recursive specification says, for all inputs: value or error or panic or a class left to a handler, bytes left, reference tables |
| AmfDecoding.Decoder.DecodeAmf3Array | src/protocol/amf/decoder_amf3.go:193-239 | The same for arrays, references included |
| AmfDecoding.Decoder.DecodeAmf3Object | src/protocol/amf/decoder_amf3.go:241-379 | The same for objects, trait references and dynamic properties included |
| AmfDecoding.Decoder.DecodeAmf3Trait | src/protocol/amf/decoder_amf3.go:258-293 | The same for trait headers |
| AmfDecoding.Decoder.DecodeAmf3String | src/protocol/amf/decoder_amf3.go:119-152 | The same for strings and string references |
| AmfDecoding.Decoder.DecodeU29 | src/protocol/amf/decoder_amf3.go:464-486 | The loop over at most four bytes returns the specified number |
| AmfDecoding.Decoder.DecodeAmf0 | src/protocol/amf/decoder_amf0.go:12-58 | The consuming AMF0 decoder returns what the recursive specification says, for all inputs |
| AmfDecoding.Decoder.DecodeAmf0Object | src/protocol/amf/decoder_amf0.go:121-155 | The same for objects: properties up to the empty key and end marker |
| AmfDecoding.Decoder.DecodeAmf0StrictArray | src/protocol/amf/decoder_amf0.go:224-250 | The same for strict arrays |
| AmfDecoding.Decoder.DecodeBatch | src/protocol/amf/amf.go:8-18 | Returns every value up to the first error |
| AmfDecoding.Reader.ReadBytes | src/protocol/amf/util.go:49-62 | One read of n bytes: all of them or an error, a zero-length read at the end included |
| AmfFormat.Decode0 | src/protocol/amf/decoder_amf0.go:12-58 | Every value consumes at least one byte, so decoding any input terminates |
| AmfFormat.Decode3 | src/protocol/amf/decoder_amf3.go:13-51 | The same for AMF3 |
| AmfEncoding.EncodeAmf0 | src/protocol/amf/encoder_amf0.go:13-61 | Writes an encoding of the value under some entry order, counts the bytes written, fails exactly on typed objects |
| AmfEncoding.EncodeAmf0Object | src/protocol/amf/encoder_amf0.go:140-178 | The same for objects, for every order of map iteration |
| AmfEncoding.EncodeAmf0StrictArray | src/protocol/amf/encoder_amf0.go:239-268 | The same for strict arrays |
| AmfEncoding.EncodeAmf3 | src/protocol/amf/encoder_amf3.go:16-85 | Writes the canonical encoding of the value, counts the bytes written, fails exactly when a length does not fit |
| AmfEncoding.EncodeAmf3Object | src/protocol/amf/encoder_amf3.go:266-363 | The same for objects: trait header, sorted properties |
| AmfEncoding.EncodeAmf3Array | src/protocol/amf/encoder_amf3.go:229-264 | The same for arrays |
| AmfEncoding.EncodeAmf3Uint29 | src/protocol/amf/encoder_amf3.go:417-434 | Writes the variable-length number, fails exactly above 2^29 - 1 |
| AmfEncoding.SortedKeys | src/protocol/amf/encoder_amf3.go:280-284 | Collects the property names, sorted, each once |
| AmfEncoding.EncodeBatch | src/protocol/amf/amf.go:31-49 | Writes all values one after the other, or fails at the first that cannot be encoded |
| Snapshots.OwedInFull | src/protocol/rtmp/stream.go:158-198 | What a late writer is owed, in full and by the fields of the packets: the last metadata, the last video packet with frame type 1 and packet type 0, the last audio packet with sound format 10 and packet type 0, the frames from the last key frame (frame type 1, another packet type) on, and then every later packet |
| Snapshots.FramesOwed | src/protocol/rtmp/stream.go:158-198 | Among them the frames, told by their fields, are the publisher's from the last key frame before the join, none missing or repeated |
| Snapshots.VideoHeaderHeld | src/protocol/rtmp/cache/cache.go:41-45 | A video sequence header is in what the next late writer is sent, until another one replaces it |
| Snapshots.AudioHeaderHeld | src/protocol/rtmp/cache/cache.go:28-34 | Likewise an audio sequence header |
| Snapshots.MetadataHeld | src/protocol/rtmp/cache/cache.go:24-26 | Likewise metadata |
| Snapshots.RefusedExact | src/protocol/rtmp/cache/gop.go:32-39 | A packet is refused if and only if it would be the 1025th frame from the last key frame on |
| Streams.LateJoiner | src/protocol/rtmp/stream.go:158-198 | A writer that joins after any packet is sent exactly the publisher's media from the last key frame before it joined, no gap and no repetition |
| Streams.SnapshotMedia | src/protocol/rtmp/cache/cache.go:56-74 | The media in a snapshot is the publisher's stream from its last key frame on |
| Streams.Stream.Turn | src/protocol/rtmp/stream.go:158-195 | One turn of the relay: every writer gets the snapshot if new, else the packet, and stays exactly if it took all; a read error or a packet beyond a full group closes all writers and stops the relay |
| Streams.Stream.FanOut | src/protocol/rtmp/stream.go:177-197 | Serving all writers in any order gives each what it is owed and removes exactly those that fail |
| Streams.Stream.Serve | src/protocol/rtmp/stream.go:177-196 | One writer's turn |
| Streams.Stream.CloseInter | src/protocol/rtmp/stream.go:238-254 | Closes every writer and removes exactly the internal ones; the cache is untouched |
| Streams.Stream.AddWriter | src/protocol/rtmp/stream.go:146-150 | A new writer is owed what follows from the present history; one of the same name is replaced |
| Streams.ServedSnoc | src/protocol/rtmp/stream.go:177-196 | What a writer is owed grows by the snapshot first and then by each packet |
| Caching.Cache.Write | src/protocol/rtmp/cache/cache.go:23-54 | The cache is a function of the whole history; the only packet refused is a non-key packet on a group of 1024 |
| Caching.Cache.Send | src/protocol/rtmp/cache/cache.go:56-74 | Sends latest metadata, video header, audio header and running group, in this order, as far as the writer takes them |
| Caching.SpecialCache.Send | src/protocol/rtmp/cache/special.go:35-43 | Sends the latest packet if there is one |
| Caching.HistorySnoc | src/protocol/rtmp/cache/cache.go:23-54 | A packet changes exactly the part of the snapshot of its own class |
| GopCaching.PutHolds | src/protocol/rtmp/cache/gop.go:70-102 | Rings of one or two slots hold the last groups of everything put in, never dereference nil, and refuse exactly what overflows a group |
| GopCaching.ReplayHolds | src/protocol/rtmp/cache/gop.go:104-119 | They replay the last groups, oldest first |
| GopCaching.LargerRingBreaks | src/protocol/rtmp/cache/gop.go:83 | A nil slot is dereferenced by the packet after the first key frame if and only if the ring has three slots or more |
| GopCaching.GopCache.WriteToArray | src/protocol/rtmp/cache/gop.go:70-87 | The slots, counters and group contents after a packet |
| GopCaching.GopCache.Write | src/protocol/rtmp/cache/gop.go:89-102 | A key frame starts a group; nothing is kept before the first one |
| GopCaching.GopCache.SendTo | src/protocol/rtmp/cache/gop.go:104-119 | Sends the replayed groups as far as the writer takes them |
| Packets.LastGroupIsSuffix | src/protocol/rtmp/cache/gop.go:70-87 | The running group is the end of the stream from its last key frame on |
| VirWriters.RunConserves | src/protocol/rtmp/vir.go:68-96 | Whatever the sender takes, at whatever moments, and even if the loop ends up waiting for ever: the queue never grows, and as a multiset nothing is lost but inter frames and metadata, each at most once |
| VirWriters.TurnConserves | src/protocol/rtmp/vir.go:70-95 | The same for one turn |
| Shedding.FullQueueAlone | src/protocol/rtmp/vir.go:68-96 | With no sender at work a full queue of 1000 keeps its last 60 packets, and behind them, in order, the audio packets and the video packets of frame type 1 among the first 940 |
| Shedding.ImportantSurvive | src/protocol/rtmp/vir.go:68-96 | Whatever the sender takes meanwhile, and even if the loop waits for ever, no audio packet and no video packet of frame type 1 is lost |
| Shedding.Overfull | src/protocol/rtmp/vir.go:73-93 | What a turn would do beyond its limits of 1022 packets for audio and 1014 for video |
| VirWriters.FullQueueSheds | src/protocol/rtmp/vir.go:68-96 | The exact contents of a full queue while the sender takes at most 60 packets: the part not reached, followed by the kept ones of those that were |
| VirWriters.TurnSheds | src/protocol/rtmp/vir.go:70-95 | One turn moves a packet to the back or drops it, the sender's packets coming off the front |
| VirWriters.SharedOut | src/protocol/rtmp/vir.go:70-71 | Loop and sender share out the front of the queue, each packet once |
| VirWriters.KeptOrLost | src/protocol/rtmp/vir.go:73-92 | Exactly audio, sequence headers and key frames are kept |
| VirWriters.NoSender | src/protocol/rtmp/vir.go:68-96 | Without a sender the first 940 packets are the ones that are rotated |
| VirWriters.NeverWaitsExact | src/protocol/rtmp/vir.go:70-71 | On queues of n packets the loop is sure never to wait if and only if its receives, counting what the sender takes before them, reach no further than n |
| VirWriters.ReachIs | src/protocol/rtmp/vir.go:70-71 | How far they reach: the number of turns and what the sender takes before the last receive, so 940 turns on 1000 packets allow 60 |
| VirWriters.VirWriter.DropPacket | src/protocol/rtmp/vir.go:68-96 | The loop over the channel is the specified run; where that has none it stops at the receive that waits, with the specified contents |
| VirWriters.VirWriter.Write | src/protocol/rtmp/vir.go:98-117 | The queue never exceeds 1000, whatever the sender does; at a full queue load is shed as specified and the packet itself is lost; a closed writer refuses |
| VirWriters.VirWriter.SendNext | src/protocol/rtmp/vir.go:122-140 | Takes the oldest packet and frames it with type, length and shifted timestamp |
| PictureUnits.PictureArrives | src/parser/h264/parser.go:143-215 | Of any picture a player finds, behind the delimiter 09 f0, exactly the units of types 1, 5 and 6, in order and once each |
| PictureUnits.SliceWritten | src/parser/h264/parser.go:184-194 | A unit of type 1 or 6, and one of type 5 after another of type 5, adds 00 00 00 01 and itself |
| PictureUnits.FirstIdrWritten | src/parser/h264/parser.go:170-194 | In front of the first unit of type 5 go the units of types 7 and 8 before it in the picture, or without any the stored ones |
| PictureUnits.OtherUnitDropped | src/parser/h264/parser.go:168-207 | Every other type adds nothing to the output |
| PictureUnits.DelimiterFirst | src/parser/h264/parser.go:148-152 | The output begins with 00 00 00 01 09 f0 |
| PictureUnits.SequenceHeaderRead | src/parser/h264/parser.go:75-119 | Six bytes, a 16-bit length and the first set, one byte, a 16-bit length and the second set: both sets are found, of any size |
| H264.PictureSurvives | src/parser/h264/parser.go:143-215 | A player that splits the output at start codes finds the delimiter, the parameter sets and every slice and SEI unit of the picture, in order and once |
| AnnexB.CutExact | src/parser/h264/parser.go:46 | A stream of units behind start codes splits back into them if and only if no unit contains a start code |
| AnnexB.SplitExact | src/parser/h264/parser.go:159-213 | Parsing succeeds if and only if the input consists of non-empty length-prefixed units, and finds them |
| AnnexB.KeptSurvive | src/parser/h264/parser.go:168-207 | Units of types 1, 5 and 6 are kept in order, once each, and nothing else of these types is added |
| AnnexB.RewrittenSnoc | src/parser/h264/parser.go:168-207 | Parameter sets are written once, just before the first IDR unit: those seen so far, or else the stored ones |
| H264.TakenForAnnexB | src/parser/h264/parser.go:121-129 | A picture with length prefixes is mistaken for Annex B if and only if its first unit is one byte long |
| H264.Parser.GetAnnexbH264 | src/parser/h264/parser.go:143-215 | Output and error for every input: the rewritten units up to the first defect, and the defect |
| H264.Parser.ParseSpecificInfo | src/parser/h264/parser.go:75-119 | Appends both parameter sets of a sequence header, or reports which part is malformed and appends nothing |
| H264.SecondSetExact | src/parser/h264/parser.go:102-113 | The second parameter set is stored with its announced length if and only if nothing follows it in the header |
| H264.Parser.Parse | src/parser/h264/parser.go:217-230 | Stores a sequence header, passes Annex B through, rewrites the rest |
| H264.Parser.NaluSize | src/parser/h264/parser.go:131-141 | The big-endian length |
| Aac.StreamSplits | src/parser/aac/parser.go:52-86 | The concatenated output splits back into the frames by its length fields if and only if every frame has at most 8184 bytes, even when the configuration changes on the way |
| Aac.LengthField | src/parser/aac/parser.go:57-77 | The 13-bit length field is the frame and header length modulo 2^13 |
| Aac.ProfileAndRate | src/parser/aac/parser.go:63-65 | The header carries the rate index always and the profile if and only if the object type is 1 to 4 |
| Aac.ChannelCount | src/parser/aac/parser.go:67-68 | It carries the channel count if and only if that is at most 3 |
| Aac.HeaderNumber | src/parser/aac/parser.go:52-94 | For object types 1 to 4, up to three channels and frames up to 8184 bytes the seven header bytes are one 56-bit number: ff f1, profile, rate index, channels, length and 7, and ones for the buffer fullness |
| Aac.FixedBits | src/parser/aac/parser.go:52-94 | For every configuration and length the sync word, MPEG-4 without a checksum, and the fullness bits |
| Aac.ConfigBits | src/parser/aac/parser.go:41-50 | The configuration is read back from its 13 bits |
| Aac.Parser.Adts | src/parser/aac/parser.go:52-86 | Writes the header built in place and the frame, or fails exactly when there is no frame or no configuration |
| Aac.Parser.SpecificInfo | src/parser/aac/parser.go:41-50 | Stores the configuration, or fails and changes nothing |
| Handshaking.Accepted | src/protocol/rtmp/core/handshake.go:84-97 | A block made with a key is accepted with that key, for any keyed hash of 32 bytes, any time, version and random fill |
| Handshaking.AnswerIs | src/protocol/rtmp/core/handshake.go:110-165 | What is sent for every first block, in numbers: its echo if its version is zero; nothing if neither at place 772 nor at place 8 it carries the hash of the rest under the peer's key; otherwise version 3, the peer's time, a zero version, a hash at place 8 under the server's key, and in the last 32 bytes the hash of the second block's first 1504 under the hash of the peer's hash |
| Handshaking.FirstBlock | src/protocol/rtmp/core/handshake.go:84-97 | Time, version, random bytes, and at 12 plus the sum of four of them modulo 728 the hash of all the rest |
| Handshaking.SecondBlock | src/protocol/rtmp/core/handshake.go:99-108 | Random bytes, and the hash of the first 1504 in the last 32 |
| Handshaking.WindowsApart | src/protocol/rtmp/core/handshake.go:67-73 | Both digest windows stay inside 1536 bytes and apart from each other and from the position bytes |
| Handshaking.OnlyOneSeal | src/protocol/rtmp/core/handshake.go:75-82 | Of all blocks that agree outside the window exactly one is accepted there |
| Handshaking.Create01 | src/protocol/rtmp/core/handshake.go:84-97 | Builds version byte and sealed block in place and touches nothing behind them |
| Handshaking.Create2 | src/protocol/rtmp/core/handshake.go:99-108 | Seals the second block at its end |
| Handshaking.CalcDigestPos | src/protocol/rtmp/core/handshake.go:67-73 | The position that four bytes name |
| Handshaking.HandshakeServer | src/protocol/rtmp/core/handshake.go:110-200 | What the server sends and how the exchange ends, for every input: short input, refused C1, or a C2 that must repeat time and random bytes of S1 |
| PublishLock.Exclusive | src/protocol/rtmp/rtmp.go:170-213 | In every run in which each holder refreshes within 30 seconds, at most one publisher is between SETNX and DEL, and every DEL removes the sender's own key |
| PublishLock.StepKeepsInv | src/protocol/rtmp/rtmp.go:176-212 | The same for one step of any publisher |
| PublishLock.SecondHolder | src/protocol/rtmp/rtmp.go:178-187 | A second publisher gets in if and only if the holder's lease has run out |
| PublishLock.NoneWhileTimely | src/protocol/rtmp/rtmp.go:176-212 | While every holder is timely, no steps of any publishers produce a second holder before time passes |
| PublishLock.OneOnceLate | src/protocol/rtmp/rtmp.go:178-199 | As soon as a holder is late, a newly arriving publisher becomes a second one |
| PublishLock.DeleteHitsAnother | src/protocol/rtmp/rtmp.go:178-199 | If another publisher tries before a holder's DEL, that DEL removes the other's key if and only if the holder's lease has run out, and otherwise the holder's own |
| PublishLock.LateHolderRemovesAnothersKey | src/protocol/rtmp/rtmp.go:189-212 | The run that shows it: a late holder's DEL removes another publisher's key |
| PublishLock.FailedNeverDeletes | src/protocol/rtmp/rtmp.go:171-177 | In every run, timely or not, a publisher that failed all eight attempts has sent no DEL |
| PublishLock.Acquire | src/protocol/rtmp/rtmp.go:170-187 | The retry loop takes the lock at the first free attempt of eight, and otherwise fails and leaves the key alone |
| Subscriptions.RedisInst.Subscribe | src/svc/redis/redis.go:95-106 | Every channel's list is, as a multiset, the live subscriptions, repeated names included; no list is empty; Redis is subscribed to exactly the listed channels |
| Subscriptions.RedisInst.Cancel | src/svc/redis/redis.go:108-127 | The same after a cancellation with its swap with the last entry; exactly this listener is gone |
| Subscriptions.SwapOutRemovesOne | src/svc/redis/redis.go:113-117 | Swapping with the last entry removes one entry and keeps all others |
| Subscriptions.Removed | src/svc/redis/redis.go:111-124 | Removing one entry keeps lists and live subscriptions in step |
| Subscriptions.Added | src/svc/redis/redis.go:100-105 | So does adding one |
| Subscriptions.ListedIfWanted | src/svc/redis/redis.go:100-124 | A channel is listed if and only if some live subscription names it |
| Subscriptions.NothingKept | src/svc/redis/redis.go:118-123 | When all are cancelled nothing is kept |
| Streams.Stream.Begin | src/protocol/rtmp/stream.go:152-153 | The loop of a stream begins, or begins again, with the history, the writers and all they have received as they were |
| Streams.Stream.Stop | src/protocol/rtmp/stream.go:201-209 | The loop is asked to end; history, writers and all they have received stay as they were |

## Left out

- Sockets, deadlines, buffering by bufio, goroutine scheduling, logging, databases, message queues, metrics, external
  processes, configuration: I/O without a local property.
- Write-side I/O failures: writes succeed. On the read side the end of input is the only failure.
- ChunkStreams.ChunkStream: the header fields of the struct are one field `v` that holds a struct value, as the server
  copies the struct in and out of its map; the payload buffer is a heap array.
- Chunk stream ids of 64 and above share the map slots 0 and 1, as in the server; `Multiplex.Demultiplex` covers them as
  long as a slot is idle when another id takes it over with a full header, which is what the conforming sender must do.
- Connections.Conn.Write: asks for a Set Chunk Size value above zero; the server divides by it.
- Connections.Conn.Read: after a crash (a slicing panic on a length above 1 MiB or a short control payload) nothing is
  said about the state; the recovery in the callers is not modelled.
- The other control messages, user control events and the command layer above `Conn`: they would only add easy members.
- AmfDecoding.Decoder.DecodeAmf3: externalizable classes are left to handlers outside the model, which marks such input as
  outside; a date stays eight raw bytes.
- AmfDecoding.Decoder.DecodeAmf3Object: the same for the externalizable branch.
- AmfReading.Understood3: lengths, integers and references in their shortest form, which is how U29 numbers are meant to
  be written; no externalizable classes.
- AmfReading.Understood0: the same for AMF3 inside AMF0.
- AmfReading.BatchUnderstood3: the same.
- AmfReading.BatchUnderstood0: the same for AMF3 inside AMF0.
- AMF numbers are opaque eight-byte values. The conversion of dates to a time, of integer types to doubles in AMF0, and
  of AMF3 integers outside 0..2^29-1 to doubles is not modelled; undefined, unsupported and XML values have no encoder case.
- AmfEncoding.EncodeAmf0: takes no integers, which the source converts to doubles first.
- AmfEncoding.EncodeAmf0Object: the same for property values.
- AmfEncoding.EncodeAmf0StrictArray: the same for elements.
- AmfEncoding.EncodeAmf3: takes no dates and no integers outside 0..2^29-1, which the source converts to doubles. Lengths do
  not wrap: the source doubles a length, and multiplies a property count by 16, in 32 bits, so that a string or array of
  2^31 or more entries, or 2^28 or more properties, can pass with a wrong header where the model refuses it.
- AmfEncoding.EncodeAmf3Object: the same for property values and property counts.
- AmfEncoding.EncodeAmf3Array: the same for elements and lengths.
- AmfEncoding.EncodeBatch: the same for every value of the batch.
- AmfLaws.Amf0Law: for lengths beyond their fields it asks that the reference tables hold nothing AMF0 could not carry;
  otherwise a reference inside an over-long key, read as AMF3, could yield the value after all.
- AmfLaws.BatchLaw0: for lengths beyond their fields the statement includes the tables, for the same reason.
- The AMF0 decoder's list of decoded objects is written and never read, so it is left out; a reference marker is an error.
- GopCaching.ReplayHolds: rings of one and two slots; for more, see `GopCaching.LargerRingBreaks`.
- A writer is modelled by how many packets it takes before it fails. Timestamps of writers moved to a new stream, the
  liveness timer and the map of streams are not modelled.
- Streams.Stream.Turn: writers are added between turns; one that is added while the writers are being served is served
  in this turn or the next, which are the same two cases.
- VirWriters.VirWriter.DropPacket: the sender takes packets at three points of each turn; closing the queue in the
  middle of load shedding is not modelled.
- Frames that are larger than 65535 bytes have their ADTS length taken modulo 2^16 first, as in the server; the sample
  rate table is left out, being a lookup.
- Bit fields that do not overlap are or-ed by adding them, and shifts are multiplications and divisions by powers of two.
- PublishLock: one user's key; SETNX, EXPIRE and DEL are atomic steps of the store. An error of EXPIRE ends a publisher like
  a release, one of SETNX is the step `Quit`, without a DEL. The 15-second ticker is replaced by the assumption that a
  refresh comes within the lease.
- Subscriptions: a listener's channel of messages is not modelled, only its identity; errors of Redis are ignored, as in
  the server.
- The FIFO in the utilities, the playlist ladder, string helpers and byte accessors: not used here, or easy.
