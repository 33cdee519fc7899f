/** The values the AMF codecs exchange, and the two wire formats as functions on byte sequences. */
module AmfFormat {
  import opened Bytes

  type Text = seq<byte>

  datatype Value =
    | Null
    | Bool(b: bool)
    | Number(bits: seq<byte>)
    | Int(n: int)
    | Str(s: Text)
    | Arr(items: seq<Value>)
    | Obj(props: map<Text, Value>)
    | Typed(typ: Text, props: map<Text, Value>)
    | Binary(data: seq<byte>)
    | Date(bits: seq<byte>)

  datatype Trait = Trait(typ: Text, externalizable: bool, isDynamic: bool, properties: seq<Text>)

  /** The reference tables of a decoder. */
  datatype Tables = Tables(strings: seq<Text>, objects: seq<Value>, traits: seq<Trait>)

  const NoTables := Tables([], [], [])

  /** Panic is an index out of range; Outside is left to a handler for externalizable classes. */
  datatype Result<+T> = Ok(v: T, rest: seq<byte>, t: Tables) | Error | Panic | Outside {
    predicate IsFailure() {
      !Ok?
    }

    function PropagateFailure<U>(): Result<U>
      requires !Ok?
    {
      match this
      case Error => Error
      case Panic => Panic
      case Outside => Outside
    }

    function Extract(): (T, seq<byte>, Tables)
      requires Ok?
    {
      (v, rest, t)
    }
  }

  // ---- U29 ----

  function EncodeU29(v: nat): seq<byte>
    requires v <= 0x1FFF_FFFF
  {
    if v <= 0x7F then [v as byte]
    else if v <= 0x3FFF then [(v / 0x80 + 128) as byte, (v % 0x80) as byte]
    else if v <= 0x1F_FFFF then [(v / 0x4000 + 128) as byte, (v / 0x80 % 0x80 + 128) as byte, (v % 0x80) as byte]
    else [(v / 0x40_0000 + 128) as byte, (v / 0x8000 % 0x80 + 128) as byte, (v / 0x100 % 0x80 + 128) as byte, (v % 0x100) as byte]
  }

  /** Up to three bytes of seven bits with a continuation flag, then one of eight bits. */
  function DecodeU29From(s: seq<byte>, acc: nat, i: nat): Option<(nat, seq<byte>)>
    requires i <= 3
    decreases 3 - i
  {
    if s == [] then None
    else if i == 3 then Some((acc * 256 + s[0] as nat, s[1..]))
    else
      var acc1 := acc * 128 + s[0] as nat % 128;
      if s[0] < 128 then Some((acc1, s[1..])) else DecodeU29From(s[1..], acc1, i + 1)
  }

  function DecodeU29(s: seq<byte>): (r: Option<(nat, seq<byte>)>)
    ensures r.Some? ==> |r.value.1| < |s| && r.value.0 <= 0x1FFF_FFFF
  {
    DecodeU29From(s, 0, 0)
  }

  lemma DecodeOne(a: byte, rest: seq<byte>)
    requires a < 128
    ensures DecodeU29([a] + rest) == Some((a as nat, rest))
  {
    assert ([a] + rest)[1..] == rest;
  }

  lemma DecodeTwo(a: byte, b: byte, rest: seq<byte>)
    requires a >= 128 > b
    ensures DecodeU29([a, b] + rest) == Some(((a as nat - 128) * 128 + b as nat, rest))
  {
    var w := [a, b] + rest;
    assert w[1..][1..] == rest;
    assert DecodeU29From(w, 0, 0) == DecodeU29From(w[1..], a as nat - 128, 1);
  }

  lemma DecodeThree(a: byte, b: byte, c: byte, rest: seq<byte>)
    requires a >= 128 && b >= 128 > c
    ensures DecodeU29([a, b, c] + rest) == Some((((a as nat - 128) * 128 + (b as nat - 128)) * 128 + c as nat, rest))
  {
    var w := [a, b, c] + rest;
    assert w[1..][1..][1..] == rest;
    assert DecodeU29From(w, 0, 0) == DecodeU29From(w[1..], a as nat - 128, 1);
    assert DecodeU29From(w[1..], a as nat - 128, 1) == DecodeU29From(w[1..][1..], (a as nat - 128) * 128 + (b as nat - 128), 2);
  }

  lemma DecodeFour(a: byte, b: byte, c: byte, d: byte, rest: seq<byte>)
    requires a >= 128 && b >= 128 && c >= 128
    ensures DecodeU29([a, b, c, d] + rest) ==
            Some(((((a as nat - 128) * 128 + (b as nat - 128)) * 128 + (c as nat - 128)) * 256 + d as nat, rest))
  {
    var w := [a, b, c, d] + rest;
    assert w[1..][1..][1..][1..] == rest;
    var ab := (a as nat - 128) * 128 + (b as nat - 128);
    assert DecodeU29From(w, 0, 0) == DecodeU29From(w[1..], a as nat - 128, 1);
    assert DecodeU29From(w[1..], a as nat - 128, 1) == DecodeU29From(w[1..][1..], ab, 2);
    assert DecodeU29From(w[1..][1..], ab, 2) == DecodeU29From(w[1..][1..][1..], ab * 128 + (c as nat - 128), 3);
  }

  lemma SevenBitDigits(v: nat)
    ensures v / 0x80 * 0x80 + v % 0x80 == v && v / 0x4000 * 0x80 + v / 0x80 % 0x80 == v / 0x80
    ensures v / 0x40_0000 * 0x80 + v / 0x8000 % 0x80 == v / 0x8000
    ensures v / 0x8000 * 0x80 + v / 0x100 % 0x80 == v / 0x100 && v / 0x100 * 0x100 + v % 0x100 == v
  {
    assert v / 0x4000 == v / 0x80 / 0x80 && v / 0x40_0000 == v / 0x8000 / 0x80 && v / 0x8000 == v / 0x100 / 0x80;
  }

  /** Decoding inverts encoding, whatever follows. */
  lemma U29RoundTrip(v: nat, rest: seq<byte>)
    requires v <= 0x1FFF_FFFF
    ensures DecodeU29(EncodeU29(v) + rest) == Some((v, rest))
  {
    SevenBitDigits(v);
    hide DecodeU29From;
    if v <= 0x7F {
      DecodeOne(v as byte, rest);
    } else if v <= 0x3FFF {
      DecodeTwo((v / 0x80 + 128) as byte, (v % 0x80) as byte, rest);
    } else if v <= 0x1F_FFFF {
      DecodeThree((v / 0x4000 + 128) as byte, (v / 0x80 % 0x80 + 128) as byte, (v % 0x80) as byte, rest);
    } else {
      DecodeFour((v / 0x40_0000 + 128) as byte, (v / 0x8000 % 0x80 + 128) as byte, (v / 0x100 % 0x80 + 128) as byte,
                 (v % 0x100) as byte, rest);
    }
  }

  /** No shorter encoding exists: whatever decodes to v takes at least as many bytes as the encoder. */
  lemma U29Shortest(s: seq<byte>)
    requires DecodeU29(s).Some?
    ensures |s| - |DecodeU29(s).value.1| >= |EncodeU29(DecodeU29(s).value.0)|
  {
  }

  /** A U29 whose low bit tells a value from a reference. */
  function DecodeRefInt(s: seq<byte>): (r: Option<(bool, nat, seq<byte>)>)
    ensures r.Some? ==> |r.value.2| < |s|
  {
    match DecodeU29(s)
    case None => None
    case Some((n, rest)) => Some((n % 2 == 0, n / 2, rest))
  }

  // ---- AMF3, decoding ----

  /**
   One read of n bytes, as the buffer serves it: at the end of input an error, and before that whatever
   is left, with the missing bytes left at zero.
   */
  function ReadOnce(s: seq<byte>, n: nat): (r: Option<(seq<byte>, seq<byte>)>)
    ensures r.Some? ==> |r.value.1| <= |s|
  {
    if n == 0 then Some(([], s))
    else if s == [] then None
    else if n <= |s| then Some((s[..n], s[n..]))
    else Some((s + seq(n - |s|, _ => 0), []))
  }

  function DecodeString3(s: seq<byte>, t: Tables): (r: Result<Text>)
    ensures r.Ok? ==> |r.rest| < |s|
  {
    match DecodeRefInt(s)
    case None => Error
    case Some((isRef, n, s1)) =>
      if isRef then
        if n < |t.strings| then Ok(t.strings[n], s1, t) else Panic
      else
        match ReadOnce(s1, n)
        case None => Error
        case Some((text, s2)) => Ok(text, s2, if text == [] then t else t.(strings := t.strings + [text]))
  }

  function DecodeStrings3(s: seq<byte>, t: Tables, n: nat): (r: Result<seq<Text>>)
    ensures r.Ok? ==> |r.rest| <= |s| && |r.v| == n
    decreases n
  {
    if n == 0 then Ok([], s, t)
    else
      var (x, s1, t1) :- DecodeString3(s, t);
      var (xs, s2, t2) :- DecodeStrings3(s1, t1, n - 1);
      Ok([x] + xs, s2, t2)
  }

  /** A double, kept as its eight bytes. */
  function Decode8(s: seq<byte>): (r: Option<(seq<byte>, seq<byte>)>)
    ensures r.Some? ==> |r.value.1| <= |s|
  {
    if |s| < 8 then None else Some((s[..8], s[8..]))
  }

  function DecodeXml3(s: seq<byte>, t: Tables): (r: Result<Value>)
    ensures r.Ok? ==> |r.rest| <= |s|
  {
    match DecodeRefInt(s)
    case None => Error
    case Some((isRef, n, s1)) =>
      if isRef then
        if n >= |t.objects| then Panic
        else if t.objects[n].Str? then Ok(t.objects[n], s1, t) else Error
      else
        match ReadOnce(s1, n)
        case None => Error
        case Some((text, s2)) => Ok(Str(text), s2, if text == [] then t else t.(objects := t.objects + [Str(text)]))
  }

  function DecodeDate3(s: seq<byte>, t: Tables): (r: Result<Value>)
    ensures r.Ok? ==> |r.rest| <= |s|
  {
    match DecodeRefInt(s)
    case None => Error
    case Some((isRef, n, s1)) =>
      if isRef then
        if n >= |t.objects| then Panic
        else if t.objects[n].Date? then Ok(t.objects[n], s1, t) else Error
      else
        match Decode8(s1)
        case None => Error
        case Some((bits, s2)) => Ok(Date(bits), s2, t.(objects := t.objects + [Date(bits)]))
  }

  function DecodeByteArray3(s: seq<byte>, t: Tables): (r: Result<Value>)
    ensures r.Ok? ==> |r.rest| <= |s|
  {
    match DecodeRefInt(s)
    case None => Error
    case Some((isRef, n, s1)) =>
      if isRef then
        if n >= |t.objects| then Panic
        else if t.objects[n].Binary? then Ok(t.objects[n], s1, t) else Error
      else
        match ReadOnce(s1, n)
        case None => Error
        case Some((data, s2)) => Ok(Binary(data), s2, t.(objects := t.objects + [Binary(data)]))
  }

  /** Integers beyond 28 bits are taken for negative ones. */
  function SignedInt(n: nat): int {
    if n > 0xFFF_FFFF then n - 0x2000_0000 else n
  }

  function Decode3(s: seq<byte>, t: Tables): (r: Result<Value>)
    ensures r.Ok? ==> |r.rest| < |s|
    decreases |s|, 0
  {
    if s == [] then Error
    else
      var marker, s1 := s[0], s[1..];
      if marker == 0 || marker == 1 then Ok(Null, s1, t)
      else if marker == 2 || marker == 3 then Ok(Bool(marker == 3), s1, t)
      else if marker == 4 then
        match DecodeU29(s1)
        case None => Error
        case Some((n, s2)) => Ok(Int(SignedInt(n)), s2, t)
      else if marker == 5 then
        match Decode8(s1)
        case None => Error
        case Some((bits, s2)) => Ok(Number(bits), s2, t)
      else if marker == 6 then
        var (text, s2, t2) :- DecodeString3(s1, t);
        Ok(Str(text), s2, t2)
      else if marker == 7 || marker == 11 then DecodeXml3(s1, t)
      else if marker == 8 then DecodeDate3(s1, t)
      else if marker == 9 then DecodeArray3(s1, t)
      else if marker == 10 then DecodeObject3(s1, t)
      else if marker == 12 then DecodeByteArray3(s1, t)
      else Error
  }

  function DecodeItems3(s: seq<byte>, t: Tables, n: nat): (r: Result<seq<Value>>)
    ensures r.Ok? ==> |r.rest| <= |s| && |r.v| == n
    decreases |s|, 1, n
  {
    if n == 0 then Ok([], s, t)
    else
      var (v, s1, t1) :- Decode3(s, t);
      var (vs, s2, t2) :- DecodeItems3(s1, t1, n - 1);
      Ok([v] + vs, s2, t2)
  }

  /** A reference index has been halved before it is used, and is halved again here. */
  function DecodeArray3(s: seq<byte>, t: Tables): (r: Result<Value>)
    ensures r.Ok? ==> |r.rest| < |s|
    decreases |s|, 2
  {
    match DecodeRefInt(s)
    case None => Error
    case Some((isRef, n, s1)) =>
      if isRef then
        if n / 2 >= |t.objects| then Panic
        else if t.objects[n / 2].Arr? then Ok(t.objects[n / 2], s1, t) else Error
      else
        var (key, s2, t2) :- DecodeString3(s1, t);
        if key != [] then Error
        else
          var (items, s3, t3) :- DecodeItems3(s2, t2, n);
          Ok(Arr(items), s3, t3.(objects := t3.objects + [Arr(items)]))
  }

  function DecodeTrait3(n: nat, s: seq<byte>, t: Tables): (r: Result<Trait>)
    ensures r.Ok? ==> |r.rest| <= |s|
  {
    if n % 2 == 0 then
      if n / 2 < |t.traits| then Ok(t.traits[n / 2], s, t) else Panic
    else
      var (typ, s1, t1) :- DecodeString3(s, t);
      var (keys, s2, t2) :- DecodeStrings3(s1, t1, n / 8);
      var trait_ := Trait(typ, n / 2 % 2 != 0, n / 4 % 2 != 0, keys);
      Ok(trait_, s2, t2.(traits := t2.traits + [trait_]))
  }

  /** The assignments obj[key] = value, in order. */
  function Assign(m: map<Text, Value>, keys: seq<Text>, vals: seq<Value>): map<Text, Value>
    requires |keys| == |vals|
    decreases |keys|
  {
    if keys == [] then m else Assign(m[keys[0] := vals[0]], keys[1..], vals[1..])
  }

  /** Key and value pairs up to an empty key. */
  function DecodeDynamic3(s: seq<byte>, t: Tables, m: map<Text, Value>): (r: Result<map<Text, Value>>)
    ensures r.Ok? ==> |r.rest| < |s|
    decreases |s|, 1
  {
    var (key, s1, t1) :- DecodeString3(s, t);
    if key == [] then Ok(m, s1, t1)
    else
      var (v, s2, t2) :- Decode3(s1, t1);
      DecodeDynamic3(s2, t2, m[key := v])
  }

  /** An object is entered in the table before it has any content, and stays empty there. */
  function DecodeObject3(s: seq<byte>, t: Tables): (r: Result<Value>)
    ensures r.Ok? ==> |r.rest| < |s|
    decreases |s|, 4
  {
    match DecodeRefInt(s)
    case None => Error
    case Some((isRef, n, s1)) =>
      if isRef then
        if n / 2 < |t.objects| then Ok(t.objects[n / 2], s1, t) else Panic
      else DecodeNew3(n, s1, t)
  }

  function DecodeNew3(n: nat, s: seq<byte>, t: Tables): (r: Result<Value>)
    ensures r.Ok? ==> |r.rest| <= |s|
    decreases |s|, 3
  {
    var (trait_, s1, t1) :- DecodeTrait3(n, s, t);
    if trait_.externalizable then Outside
    else DecodeFields3(trait_, s1, t1.(objects := t1.objects + [Null]))
  }

  /** The declared properties in order, then, for a dynamic class, further pairs. */
  function DecodeFields3(trait_: Trait, s: seq<byte>, t: Tables): (r: Result<Value>)
    ensures r.Ok? ==> |r.rest| <= |s|
    decreases |s|, 2
  {
    var (vals, s1, t1) :- DecodeItems3(s, t, |trait_.properties|);
    var m := Assign(map[], trait_.properties, vals);
    if !trait_.isDynamic then Ok(Obj(m), s1, t1)
    else
      var (m1, s2, t2) :- DecodeDynamic3(s1, t1, m);
      Ok(Obj(m1), s2, t2)
  }

  // ---- AMF0, decoding ----

  /** Exactly n bytes; a short read is an error. */
  function ReadExactly(s: seq<byte>, n: nat): (r: Option<(seq<byte>, seq<byte>)>)
    ensures r.Some? ==> |r.value.1| <= |s|
  {
    if n <= |s| then Some((s[..n], s[n..])) else None
  }

  /** A text whose length is in the first k bytes. */
  function DecodeText(s: seq<byte>, k: nat): (r: Option<(Text, seq<byte>)>)
    ensures r.Some? ==> |r.value.1| + k <= |s|
  {
    if |s| < k then None else ReadExactly(s[k..], BEVal(s[..k]))
  }

  function Decode0(s: seq<byte>, t: Tables): (r: Result<Value>)
    ensures r.Ok? ==> |r.rest| < |s|
    decreases |s|, 0
  {
    if s == [] then Error
    else
      var marker, s1 := s[0], s[1..];
      if marker == 0 then
        match Decode8(s1)
        case None => Error
        case Some((bits, s2)) => Ok(Number(bits), s2, t)
      else if marker == 1 then
        if s1 == [] || s1[0] > 1 then Error else Ok(Bool(s1[0] == 1), s1[1..], t)
      else if marker == 2 then
        match DecodeText(s1, 2)
        case None => Error
        case Some((text, s2)) => Ok(Str(text), s2, t)
      else if marker == 12 || marker == 15 then
        match DecodeText(s1, 4)
        case None => Error
        case Some((text, s2)) => Ok(Str(text), s2, t)
      else if marker == 3 then
        var (m, s2, t2) :- DecodeObject0(s1, t, map[]);
        Ok(Obj(m), s2, t2)
      else if marker == 5 || marker == 6 || marker == 13 then Ok(Null, s1, t)
      else if marker == 8 then
        if |s1| < 4 then Error
        else
          var (m, s2, t2) :- DecodeObject0(s1[4..], t, map[]);
          Ok(Obj(m), s2, t2)
      else if marker == 10 then
        if |s1| < 4 then Error
        else
          var (vs, s2, t2) :- DecodeItems0(s1[4..], t, BEVal(s1[..4]));
          Ok(Arr(vs), s2, t2)
      else if marker == 11 then
        if |s1| < 10 then Error else Ok(Number(s1[..8]), s1[10..], t)
      else if marker == 16 then
        match DecodeText(s1, 2)
        case None => Error
        case Some((typ, s2)) =>
          var (m, s3, t3) :- DecodeObject0(s2, t, map[]);
          Ok(Typed(typ, m), s3, t3)
      else if marker == 17 then Decode3(s1, t)
      else Error
  }

  /** Key and value pairs up to an empty key, which an end marker must follow. */
  function DecodeObject0(s: seq<byte>, t: Tables, m: map<Text, Value>): (r: Result<map<Text, Value>>)
    ensures r.Ok? ==> |r.rest| < |s|
    decreases |s|, 1
  {
    match DecodeText(s, 2)
    case None => Error
    case Some((key, s1)) =>
      if key == [] then
        if s1 == [] || s1[0] != 9 then Error else Ok(m, s1[1..], t)
      else
        var (v, s2, t2) :- Decode0(s1, t);
        DecodeObject0(s2, t2, m[key := v])
  }

  function DecodeItems0(s: seq<byte>, t: Tables, n: nat): (r: Result<seq<Value>>)
    ensures r.Ok? ==> |r.rest| <= |s| && |r.v| == n
    decreases |s|, 1, n
  {
    if n == 0 then Ok([], s, t)
    else
      var (v, s1, t1) :- Decode0(s, t);
      var (vs, s2, t2) :- DecodeItems0(s1, t1, n - 1);
      Ok([v] + vs, s2, t2)
  }

  // ---- batches ----

  datatype Version = Amf0 | Amf3

  function Decode(s: seq<byte>, t: Tables, version: Version): (r: Result<Value>)
    ensures r.Ok? ==> |r.rest| < |s|
  {
    match version
    case Amf0 => Decode0(s, t)
    case Amf3 => Decode3(s, t)
  }

  /** Every value up to the first error, which the end of the input always is. */
  function DecodeBatch(s: seq<byte>, t: Tables, version: Version): seq<Value>
    decreases |s|
  {
    var r := Decode(s, t, version);
    if r.Ok? then [r.v] + DecodeBatch(r.rest, r.t, version) else []
  }

  /** The reference tables after that. */
  function TablesAfter(s: seq<byte>, t: Tables, version: Version): Tables
    decreases |s|
  {
    var r := Decode(s, t, version);
    if r.Ok? then TablesAfter(r.rest, r.t, version) else t
  }

  // ---- encoding ----

  /**
   A value with its map entries in some order, as one iteration over the maps delivers them. A plain
   object is a typed one without a type name.
   */
  datatype Layout =
    | LNull
    | LBool(b: bool)
    | LNumber(bits: seq<byte>)
    | LInt(n: nat)
    | LStr(s: Text)
    | LArr(items: seq<Layout>)
    | LObj(typ: Text, keys: seq<Text>, vals: seq<Layout>)
  {
    function Size(): nat {
      match this
      case LArr(items) => 1 + SizeAll(items)
      case LObj(_, _, vals) => 1 + SizeAll(vals)
      case _ => 1
    }
  }

  function SizeAll(ls: seq<Layout>): nat {
    if ls == [] then 0 else 1 + ls[0].Size() + SizeAll(ls[1..])
  }

  function Encode0(l: Layout): seq<byte> {
    match l
    case LNull => [5]
    case LBool(b) => [1, if b then 1 else 0]
    case LNumber(bits) => [0] + bits
    case LInt(_) => []
    case LStr(s) => if |s| <= 65535 then [2] + EncodeText(s, 2) else [12] + EncodeText(s, 4)
    case LArr(items) => [10] + (BE(|items|, 4) + EncodeItems0(items))
    case LObj(_, keys, vals) => [3] + EncodePairs0(keys, vals)
  }

  function EncodeText(s: Text, k: nat): seq<byte> {
    BE(|s|, k) + s
  }

  function EncodeItems0(ls: seq<Layout>): seq<byte> {
    if ls == [] then [] else Encode0(ls[0]) + EncodeItems0(ls[1..])
  }

  function EncodePairs0(keys: seq<Text>, vals: seq<Layout>): seq<byte>
    decreases vals
  {
    if keys == [] || vals == [] then EncodeText([], 2) + [9]
    else EncodeText(keys[0], 2) + (Encode0(vals[0]) + EncodePairs0(keys[1..], vals[1..]))
  }

  function EncodeUtf8(s: Text): seq<byte>
    requires |s| < 0x1000_0000
  {
    EncodeU29(2 * |s| + 1) + s
  }

  predicate TextsFit(ss: seq<Text>, limit: nat) {
    forall i :: 0 <= i < |ss| ==> |ss[i]| < limit
  }

  function EncodeUtf8s(ss: seq<Text>): seq<byte>
    requires TextsFit(ss, 0x1000_0000)
  {
    if ss == [] then [] else EncodeUtf8(ss[0]) + EncodeUtf8s(ss[1..])
  }

  /** Lengths and integers that a U29 can announce. */
  predicate Fits3(l: Layout) {
    match l
    case LNumber(bits) => |bits| == 8
    case LInt(n) => n <= 0x1FFF_FFFF
    case LStr(s) => |s| < 0x1000_0000
    case LArr(items) => |items| < 0x1000_0000 && Fit3(items)
    case LObj(typ, keys, vals) =>
      |typ| < 0x1000_0000 && |keys| == |vals| < 0x200_0000 && TextsFit(keys, 0x1000_0000) && Fit3(vals)
    case _ => true
  }

  predicate Fit3(ls: seq<Layout>) {
    ls == [] || (Fits3(ls[0]) && Fit3(ls[1..]))
  }

  function Encode3(l: Layout): seq<byte>
    requires Fits3(l)
  {
    match l
    case LNull => [1]
    case LBool(b) => [if b then 3 else 2]
    case LNumber(bits) => [5] + bits
    case LInt(n) => [4] + EncodeU29(n)
    case LStr(s) => [6] + EncodeUtf8(s)
    case LArr(items) => [9] + (EncodeU29(2 * |items| + 1) + (EncodeUtf8([]) + EncodeItems3(items)))
    case LObj(typ, keys, vals) =>
      [10] + (EncodeU29(16 * |keys| + 3) + (EncodeUtf8(typ) + (EncodeUtf8s(keys) + EncodeItems3(vals))))
  }

  function EncodeItems3(ls: seq<Layout>): seq<byte>
    requires Fit3(ls)
  {
    if ls == [] then [] else Encode3(ls[0]) + EncodeItems3(ls[1..])
  }

  // ---- meaning ----

  /** The value a layout stands for; the type name of an object is not part of it. */
  function ValueOf(l: Layout): Value {
    match l
    case LNull => Null
    case LBool(b) => Bool(b)
    case LNumber(bits) => Number(bits)
    case LInt(n) => Int(n)
    case LStr(s) => Str(s)
    case LArr(items) => Arr(ValuesOf(items))
    case LObj(_, keys, vals) => Obj(if |keys| == |vals| then Assign(map[], keys, ValuesOf(vals)) else map[])
  }

  function ValuesOf(ls: seq<Layout>): (vs: seq<Value>)
    ensures |vs| == |ls|
  {
    if ls == [] then [] else [ValueOf(ls[0])] + ValuesOf(ls[1..])
  }

  /** The value that arrives through AMF3, where large integers have become negative. */
  function Arriving3(l: Layout): Value {
    match l
    case LInt(n) => Int(SignedInt(n))
    case LArr(items) => Arr(AllArriving3(items))
    case LObj(_, keys, vals) => Obj(if |keys| == |vals| then Assign(map[], keys, AllArriving3(vals)) else map[])
    case _ => ValueOf(l)
  }

  function AllArriving3(ls: seq<Layout>): (vs: seq<Value>)
    ensures |vs| == |ls|
  {
    if ls == [] then [] else [Arriving3(ls[0])] + AllArriving3(ls[1..])
  }
}
