/** The AAC parser: keeps the stream's configuration and puts an ADTS header in front of each raw frame. */
module Aac {
  import opened Bytes
  import opened Outputs

  datatype AudioError = SpecificBufInvalid | AudioBufInvalid

  datatype Config = Config(objectType: byte, sampleRate: byte, channel: byte) {
    predicate Valid() {
      objectType < 32 && sampleRate < 16 && channel < 16
    }
  }

  /** The first 13 bits of an audio configuration (section 1.6.2.1 of ISO/IEC 14496-3). */
  function ConfigOf(a: byte, b: byte): (c: Config)
    ensures c.Valid()
  {
    Config(a / 8, (a % 8) * 2 + b / 128, (b / 8) % 16)
  }

  lemma ConfigBits(c: Config, low: byte)
    requires c.Valid() && low < 8
    ensures ConfigOf(c.objectType * 8 + c.sampleRate / 2, (c.sampleRate % 2) * 128 + c.channel * 8 + low) == c
  {
    var o, r, ch, l := c.objectType as nat, c.sampleRate as nat, c.channel as nat, low as nat;
    Divides(o * 8 + r / 2, o, r / 2, 8);
    Divides(r % 2 * 128 + ch * 8 + l, r % 2, ch * 8 + l, 128);
    Divides(r % 2 * 128 + ch * 8 + l, r % 2 * 16 + ch, l, 8);
    Divides(r % 2 * 16 + ch, r % 2, ch, 16);
  }

  // ---- the fields of an ADTS header (section 6.2 of ISO/IEC 13818-7) ----

  predicate HasSync(h: seq<byte>) {
    |h| >= 7 && h[0] == 0xff && h[1] / 16 == 0xf
  }

  function ProfileOf(h: seq<byte>): nat
    requires |h| >= 7
  {
    h[2] as nat / 64
  }

  function RateIndexOf(h: seq<byte>): nat
    requires |h| >= 7
  {
    h[2] as nat / 4 % 16
  }

  function ChannelsOf(h: seq<byte>): nat
    requires |h| >= 7
  {
    h[2] as nat % 2 * 4 + h[3] as nat / 64
  }

  /** The 13-bit length, which counts the header. */
  function FrameLengthOf(h: seq<byte>): nat
    requires |h| >= 7
  {
    h[3] as nat % 4 * 0x800 + h[4] as nat * 8 + h[5] as nat / 32
  }

  /** Splits a stream by its length fields. */
  function SplitFrames(bs: seq<byte>): Option<seq<seq<byte>>> {
    if bs == [] then Some([])
    else if !HasSync(bs) then None
    else
      var n := FrameLengthOf(bs);
      if n < 7 || n > |bs| then None
      else
        var rest := SplitFrames(bs[n..]);
        if rest.None? then None else Some([bs[7..n]] + rest.value)
  }

  // ---- the header that is written ----

  // shifts within a byte or a 16-bit word drop the bits that leave it

  /** The object type less one, shifted left by 6 bits. */
  function ProfileBits(objectType: byte): (b: byte)
    ensures b as nat == (objectType as nat + 255) % 256 % 4 * 64
  {
    var o := (objectType as nat + 255) % 256;
    Divides(o * 64, o / 4, o % 4 * 64, 256);
    (o * 64 % 256) as byte
  }

  /** The channel count, shifted left by 2 and then by 4 bits. */
  function ChannelBits(channel: byte): (b: byte)
    ensures b as nat == channel as nat % 4 * 64
  {
    var ch := channel as nat;
    Divides(ch * 4, ch / 64, ch % 64 * 4, 256);
    Divides(ch % 64 * 4 * 16, ch % 64 / 4, ch % 4 * 64, 256);
    (ch * 4 % 256 * 16 % 256) as byte
  }

  /** The length shifted left by 3 and right by 14 bits. */
  function LengthHigh(f: nat): (b: byte)
    ensures b as nat == f % 0x2000 / 0x800
  {
    var r := f % 0x2000;
    Divides(f * 8, f / 0x2000, r * 8, 0x1_0000);
    Divides(r * 8, r / 0x800, r % 0x800 * 8, 0x4000);
    (f * 8 % 0x1_0000 / 0x4000) as byte
  }

  /** The length shifted left by 5 and right by 8 bits. */
  function LengthMiddle(f: nat): (b: byte)
    ensures b as nat == f % 0x800 / 8
  {
    var r := f % 0x800;
    Divides(f * 32, f / 0x800, r * 32, 0x1_0000);
    Divides(r * 32, r / 8, r % 8 * 32, 0x100);
    (f * 32 % 0x1_0000 / 0x100) as byte
  }

  /** The length shifted left by 13, right by 13 and left by 5 bits. */
  function LengthLow(f: nat): (b: byte)
    ensures b as nat == f % 8 * 32
  {
    var r := f % 8;
    Divides(f * 0x2000, f / 8, r * 0x2000, 0x1_0000);
    Divides(r * 0x2000, r, 0, 0x2000);
    (f * 0x2000 % 0x1_0000 / 0x2000 * 32 % 256) as byte
  }

  /** For a frame of n bytes, whose length is kept in 16 bits. */
  function Header(c: Config, n: nat): (h: seq<byte>)
    requires c.Valid()
    ensures |h| == 7
  {
    var f := (n % 0x1_0000 + 7) % 0x1_0000;
    [0xff, 0xf1, ProfileBits(c.objectType) + c.sampleRate * 4, ChannelBits(c.channel) + LengthHigh(f),
     LengthMiddle(f), LengthLow(f) + 0x1f, 0xfc]
  }

  /** The bytes of a header as sums of their bit fields. */
  lemma HeaderParts(c: Config, n: nat)
    requires c.Valid()
    ensures var f, h := (n % 0x1_0000 + 7) % 0x1_0000, Header(c, n);
            h[2] as nat == (c.objectType as nat + 255) % 256 % 4 * 64 + c.sampleRate as nat * 4 &&
            h[3] as nat == c.channel as nat % 4 * 64 + f % 0x2000 / 0x800 &&
            h[4] as nat == f % 0x800 / 8 && h[5] as nat == f % 8 * 32 + 0x1f
  {
    hide ProfileBits, ChannelBits, LengthHigh, LengthMiddle, LengthLow;
  }

  lemma SumOfPieces(f: nat)
    ensures f % 0x2000 / 0x800 * 0x800 + f % 0x800 / 8 * 8 + f % 8 == f % 0x2000
  {
    var a, r := f / 0x2000, f % 0x2000;
    var b, s := r / 0x800, r % 0x800;
    var c, t := s / 8, s % 8;
    Divides(f, a * 4 + b, s, 0x800);
    Divides(f, (a * 4 + b) * 0x100 + c, t, 8);
  }

  lemma LowBits(n: nat)
    ensures (n % 0x1_0000 + 7) % 0x1_0000 % 0x2000 == (n + 7) % 0x2000
  {
    var a, m := n / 0x1_0000, n % 0x1_0000 + 7;
    var b, f := m / 0x1_0000, m % 0x1_0000;
    Divides(n + 7, (a + b) * 8 + f / 0x2000, f % 0x2000, 0x2000);
  }

  /** The length field is the frame's length and the header's, in 13 bits. */
  lemma LengthField(c: Config, n: nat)
    requires c.Valid()
    ensures FrameLengthOf(Header(c, n)) == (n + 7) % 0x2000 && HasSync(Header(c, n))
  {
    hide Header;
    var f, h := (n % 0x1_0000 + 7) % 0x1_0000, Header(c, n);
    HeaderParts(c, n);
    HeaderSync(c, n);
    SumOfPieces(f);
    LowBits(n);
    var hi, lo := f % 0x2000 / 0x800, f % 8;
    Divides(h[3] as nat, c.channel as nat % 4 * 16, hi, 4);
    Divides(h[5] as nat, lo, 0x1f, 32);
  }

  lemma HeaderSync(c: Config, n: nat)
    requires c.Valid()
    ensures HasSync(Header(c, n))
  {
  }

  /** The header carries the rate index always, and the profile of object types 1 to 4. */
  lemma ProfileAndRate(c: Config, n: nat)
    requires c.Valid()
    ensures RateIndexOf(Header(c, n)) == c.sampleRate as nat
    ensures ProfileOf(Header(c, n)) == c.objectType as nat - 1 <==> 1 <= c.objectType <= 4
  {
    hide Header;
    HeaderParts(c, n);
    var b, p, rate := Header(c, n)[2] as nat, (c.objectType as nat + 255) % 256 % 4, c.sampleRate as nat;
    Divides(b, p, rate * 4, 64);
    Divides(b, p * 16 + rate, 0, 4);
    Divides(p * 16 + rate, p, rate, 16);
  }

  /** The bits that never change: the sync word, MPEG-4, no CRC, and a buffer fullness of 0x7ff with one frame. */
  lemma FixedBits(c: Config, n: nat)
    requires c.Valid()
    ensures var h := Header(c, n);
            |h| == 7 && h[0] == 0xff && h[1] == 0xf1 && h[5] % 32 == 0x1f && h[6] == 0xfc && h[2] % 4 < 2 && h[3] % 64 < 4
  {
    hide Header;
    var f, h := (n % 0x1_0000 + 7) % 0x1_0000, Header(c, n);
    HeaderParts(c, n);
    HeaderEnds(c, n);
    Divides(h[5] as nat, f % 8, 0x1f, 32);
    Divides(h[3] as nat, c.channel as nat % 4, f % 0x2000 / 0x800, 64);
    Divides(h[2] as nat, (c.objectType as nat + 255) % 256 % 4 * 16 + c.sampleRate as nat, 0, 4);
  }

  lemma HeaderEnds(c: Config, n: nat)
    requires c.Valid()
    ensures var h := Header(c, n); h[0] == 0xff && h[1] == 0xf1 && h[6] == 0xfc
  {
  }

  /** The whole header as one number of 56 bits, for what it has room for. */
  lemma HeaderNumber(c: Config, n: nat)
    requires c.Valid() && 1 <= c.objectType <= 4 && c.channel <= 3 && n <= 8184
    ensures BEVal(Header(c, n)) ==
            0xfff1 * 0x100_0000_0000 + (c.objectType as nat - 1) * 0x40_0000_0000 + c.sampleRate as nat * 0x4_0000_0000 +
            c.channel as nat * 0x4000_0000 + (n + 7) * 0x2000 + 0x1ffc
  {
    hide Header, BEVal;
    var f, p := n + 7, c.objectType as nat - 1;
    SmallFields(c, n);
    HeaderEnds(c, n);
    SevenBytes(Header(c, n));
    FieldSum(p, c.sampleRate as nat, c.channel as nat, f / 0x800, f / 8 % 0x100, f % 8);
    ThreePieces(f);
  }

  lemma ThreePieces(f: nat)
    ensures f / 0x800 * 0x800 + f / 8 % 0x100 * 8 + f % 8 == f
  {
    Divides(f / 8, f / 0x800, f / 8 % 0x100, 0x100);
  }

  lemma SmallFields(c: Config, n: nat)
    requires c.Valid() && 1 <= c.objectType <= 4 && c.channel <= 3 && n <= 8184
    ensures var f, h := n + 7, Header(c, n);
            h[2] as nat == (c.objectType as nat - 1) * 64 + c.sampleRate as nat * 4 &&
            h[3] as nat == c.channel as nat * 64 + f / 0x800 && h[4] as nat == f / 8 % 0x100 &&
            h[5] as nat == f % 8 * 32 + 0x1f
  {
    hide Header;
    var f, p := n + 7, c.objectType as nat - 1;
    HeaderParts(c, n);
    Divides(p + 256, 1, p, 256);
    Divides(n, 0, n, 0x1_0000);
    Divides(f, 0, f, 0x1_0000);
    Divides(f, 0, f, 0x2000);
    Divides(f / 8, f / 0x800, f % 0x800 / 8, 0x100);
  }

  lemma FieldSum(p: nat, rate: nat, channels: nat, high: nat, middle: nat, low: nat)
    ensures 0xff * 0x1_0000_0000_0000 + 0xf1 * 0x100_0000_0000 + (p * 64 + rate * 4) * 0x1_0000_0000 +
            (channels * 64 + high) * 0x100_0000 + middle * 0x1_0000 + (low * 32 + 0x1f) * 0x100 + 0xfc ==
            0xfff1 * 0x100_0000_0000 + p * 0x40_0000_0000 + rate * 0x4_0000_0000 + channels * 0x4000_0000 +
            (high * 0x800 + middle * 8 + low) * 0x2000 + 0x1ffc
  {
  }

  lemma SevenBytes(h: seq<byte>)
    requires |h| == 7
    ensures BEVal(h) ==
            h[0] as nat * 0x1_0000_0000_0000 + h[1] as nat * 0x100_0000_0000 + h[2] as nat * 0x1_0000_0000 +
            h[3] as nat * 0x100_0000 + h[4] as nat * 0x1_0000 + h[5] as nat * 0x100 + h[6] as nat
  {
    hide BEVal;
    ByteOrder(h[0], h[1], h[2], h[3]);
    ThreeMore(h[..4], h[4], h[5], h[6]);
    FourAndThree(h);
  }

  lemma FourAndThree(h: seq<byte>)
    requires |h| == 7
    ensures h[..4] == [h[0], h[1], h[2], h[3]] && h == h[..4] + [h[4]] + [h[5]] + [h[6]]
  {
    assert h[..5] == h[..4] + [h[4]] && h[..6] == h[..5] + [h[5]] && h == h[..6] + [h[6]];
  }

  lemma ThreeMore(s: seq<byte>, a: byte, b: byte, c: byte)
    ensures BEVal(s + [a] + [b] + [c]) == BEVal(s) * 0x100_0000 + a as nat * 0x1_0000 + b as nat * 0x100 + c as nat
  {
    hide BEVal;
    BEValSnoc(s, a);
    BEValSnoc(s + [a], b);
    BEValSnoc(s + [a] + [b], c);
  }

  /** It carries up to three channels. */
  lemma ChannelCount(c: Config, n: nat)
    requires c.Valid()
    ensures ChannelsOf(Header(c, n)) == c.channel as nat <==> c.channel <= 3
  {
    hide Header;
    HeaderParts(c, n);
    var f, h, ch := (n % 0x1_0000 + 7) % 0x1_0000, Header(c, n), c.channel as nat;
    var p, rate := (c.objectType as nat + 255) % 256 % 4, c.sampleRate as nat;
    Divides(h[2] as nat, p * 32 + rate * 2, 0, 2);
    Divides(h[3] as nat, ch % 4, f % 0x2000 / 0x800, 64);
  }

  /** A stream of frames, each behind a header for the configuration in force. */
  datatype Frame = Frame(config: Config, data: seq<byte>)

  predicate WellFormed(fs: seq<Frame>) {
    forall i :: 0 <= i < |fs| ==> fs[i].config.Valid() && fs[i].data != []
  }

  function Stream(fs: seq<Frame>): seq<byte>
    requires WellFormed(fs)
  {
    if fs == [] then [] else Header(fs[0].config, |fs[0].data|) + fs[0].data + Stream(fs[1..])
  }

  function Data(fs: seq<Frame>): seq<seq<byte>> {
    if fs == [] then [] else [fs[0].data] + Data(fs[1..])
  }

  predicate Short(fs: seq<Frame>) {
    forall i :: 0 <= i < |fs| ==> |fs[i].data| <= 8184
  }

  lemma FieldsInFront(h: seq<byte>, rest: seq<byte>)
    requires |h| == 7
    ensures HasSync(h + rest) == HasSync(h) && FrameLengthOf(h + rest) == FrameLengthOf(h)
  {
  }

  lemma BehindHeader(h: seq<byte>, d: seq<byte>, rest: seq<byte>)
    requires |h| == 7
    ensures var bs := h + d + rest; bs == h + (d + rest) && bs[7..|d| + 7] == d && bs[|d| + 7..] == rest
  {
    Associates(h, d, rest);
  }

  lemma StreamFirst(fs: seq<Frame>)
    requires WellFormed(fs) && fs != []
    ensures var h, d, bs := Header(fs[0].config, |fs[0].data|), fs[0].data, Stream(fs);
            HasSync(bs) && FrameLengthOf(bs) == (|d| + 7) % 0x2000 && |bs| >= |d| + 7 &&
            bs[7..|d| + 7] == d && bs[|d| + 7..] == Stream(fs[1..])
  {
    hide Header, HasSync, FrameLengthOf;
    var h, d, rest := Header(fs[0].config, |fs[0].data|), fs[0].data, Stream(fs[1..]);
    LengthField(fs[0].config, |d|);
    BehindHeader(h, d, rest);
    FieldsInFront(h, d + rest);
  }

  /** The stream splits back into its frames exactly if every frame is at most 8184 bytes long. */
  lemma {:induction false} StreamSplits(fs: seq<Frame>)
    requires WellFormed(fs)
    ensures SplitFrames(Stream(fs)) == Some(Data(fs)) <==> Short(fs)
  {
    hide Stream, HasSync, FrameLengthOf;
    if fs == [] {
      EmptyStream();
    } else {
      var bs, n := Stream(fs), |fs[0].data| + 7;
      StreamFirst(fs);
      StreamSplits(fs[1..]);
      assert fs == [fs[0]] + fs[1..];
      if SplitFrames(bs) == Some(Data(fs)) {
        assert bs[7..FrameLengthOf(bs)] == Data(fs)[0] == fs[0].data;
        assert n == n % 0x2000;
        assert Data(fs)[1..] == Data(fs[1..]);
      } else if n < 0x2000 {
        assert SplitFrames(bs[n..]) != Some(Data(fs[1..]));
      }
    }
  }

  lemma EmptyStream()
    ensures Stream([]) == [] && SplitFrames([]) == Some([]) && Data([]) == []
  {
  }

  // ---- the parser ----

  class Parser {
    var gettedSpecific: bool
    const adtsHeader: array<byte>
    var cfgInfo: Config

    constructor ()
      ensures Valid() && !gettedSpecific && fresh(adtsHeader)
    {
      gettedSpecific := false;
      cfgInfo := Config(0, 0, 0);
      adtsHeader := new byte[7];
    }

    ghost predicate Valid()
      reads this
    {
      adtsHeader.Length == 7 && cfgInfo.Valid()
    }

    method SpecificInfo(src: seq<byte>) returns (err: Option<AudioError>)
      requires Valid()
      modifies this
      ensures Valid() && err == if |src| < 2 then Some(SpecificBufInvalid) else None
      ensures (gettedSpecific, cfgInfo) ==
              if |src| < 2 then (old(gettedSpecific), old(cfgInfo)) else (true, ConfigOf(src[0], src[1]))
    {
      if |src| < 2 {
        return Some(SpecificBufInvalid);
      }
      gettedSpecific := true;
      var objectType := src[0] / 8;
      var sampleRate := (src[0] % 8) * 2 + src[1] / 128;
      var channel := (src[1] / 8) % 16;
      cfgInfo := Config(objectType, sampleRate, channel);
      err := None;
    }

    /** Writes the header, built in place, and the frame; or-ing the separate bit fields of a byte is adding them. */
    method Adts(src: seq<byte>, w: Output) returns (err: Option<AudioError>)
      requires Valid()
      modifies adtsHeader, w
      ensures err == if src == [] || !gettedSpecific then Some(AudioBufInvalid) else None
      ensures w.bytes == old(w.bytes) + if err.Some? then [] else Header(cfgInfo, |src|) + src
    {
      hide ProfileBits, ChannelBits, LengthHigh, LengthMiddle, LengthLow;
      if |src| <= 0 || !gettedSpecific {
        assert w.bytes + [] == w.bytes;
        return Some(AudioBufInvalid);
      }
      var frameLen := (|src| % 0x1_0000 + 7) % 0x1_0000;
      adtsHeader[0] := 0xff;
      adtsHeader[1] := 0xf1;
      adtsHeader[2] := 0;
      adtsHeader[2] := adtsHeader[2] + ProfileBits(cfgInfo.objectType);
      adtsHeader[2] := adtsHeader[2] + cfgInfo.sampleRate * 4;
      adtsHeader[3] := 0;
      adtsHeader[3] := adtsHeader[3] + ChannelBits(cfgInfo.channel);
      adtsHeader[3] := adtsHeader[3] + LengthHigh(frameLen);
      adtsHeader[4] := 0;
      adtsHeader[4] := adtsHeader[4] + LengthMiddle(frameLen);
      adtsHeader[5] := 0;
      adtsHeader[5] := adtsHeader[5] + LengthLow(frameLen);
      adtsHeader[5] := adtsHeader[5] + 0x1f;
      adtsHeader[6] := 0xfc;
      assert adtsHeader[..] == Header(cfgInfo, |src|);
      Associates(w.bytes, adtsHeader[..], src);
      w.Write(adtsHeader[..]);
      w.Write(src);
      err := None;
    }
  }
}
