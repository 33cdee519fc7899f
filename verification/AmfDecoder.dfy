/** The decoder as it runs: it consumes a reader and fills its reference tables as it goes. */
module AmfDecoding {
  import opened Bytes
  import opened AmfFormat

  datatype Outcome<+T> = Got(v: T) | Err | Panicked | Foreign

  /** A run agrees with the specification: same result, same rest of the input, same tables. */
  predicate Agrees<T(==)>(o: Outcome<T>, rest: seq<byte>, t: Tables, spec: Result<T>) {
    match spec
    case Ok(v, rest1, t1) => o == Got(v) && rest == rest1 && t == t1
    case Error => o.Err?
    case Panic => o.Panicked?
    case Outside => o.Foreign?
  }

  /** The whole of a repeated decoding, given its results so far and what the remainder of it gives. */
  function Prepend(done: seq<Value>, later: Result<seq<Value>>): Result<seq<Value>> {
    match later
    case Ok(vs, rest, t) => Ok(done + vs, rest, t)
    case _ => later
  }

  class Reader {
    const input: seq<byte>
    var pos: nat

    constructor (input: seq<byte>)
      ensures Valid() && Rest() == input
    {
      this.input, pos := input, 0;
    }

    ghost predicate Valid()
      reads this
    {
      pos <= |input|
    }

    function Rest(): seq<byte>
      requires Valid()
      reads this
    {
      input[pos..]
    }

    method ReadByte() returns (b: Option<byte>)
      requires Valid()
      modifies this
      ensures Valid()
      ensures old(Rest()) == [] ==> b == None && Rest() == []
      ensures old(Rest()) != [] ==> b == Some(old(Rest())[0]) && Rest() == old(Rest())[1..]
    {
      if pos == |input| {
        return None;
      }
      b := Some(input[pos]);
      pos := pos + 1;
    }

    /** One read into a buffer of n zeros. */
    method ReadBuffer(n: nat) returns (b: Option<seq<byte>>)
      requires Valid()
      modifies this
      ensures Valid()
      ensures match ReadOnce(old(Rest()), n)
              case None => b == None
              case Some((text, rest)) => b == Some(text) && Rest() == rest
    {
      if n == 0 {
        return Some([]);
      }
      if pos == |input| {
        return None;
      }
      if n <= |input| - pos {
        b := Some(input[pos..pos + n]);
        assert input[pos..][..n] == input[pos..pos + n];
        pos := pos + n;
      } else {
        b := Some(input[pos..] + seq(n - (|input| - pos), _ => 0));
        pos := |input|;
      }
    }

    /** n bytes, with a short read counted as an error. */
    method ReadBytes(n: nat) returns (b: Option<seq<byte>>)
      requires Valid()
      modifies this
      ensures Valid()
      ensures n <= |old(Rest())| ==> b == Some(old(Rest())[..n]) && Rest() == old(Rest())[n..]
      ensures n > |old(Rest())| ==> b == None
    {
      if n <= |input| - pos {
        b := Some(input[pos..pos + n]);
        assert input[pos..][..n] == input[pos..pos + n];
        pos := pos + n;
      } else {
        pos := |input|;
        b := None;
      }
    }

    /** A big-endian length of k bytes. */
    method ReadLength(k: nat) returns (n: Option<nat>)
      requires Valid()
      modifies this
      ensures Valid()
      ensures k <= |old(Rest())| ==> n == Some(BEVal(old(Rest())[..k])) && Rest() == old(Rest())[k..]
      ensures k > |old(Rest())| ==> n == None
    {
      var b := ReadBytes(k);
      n := if b.None? then None else Some(BEVal(b.value));
    }
  }

  class Decoder {
    var stringRefs: seq<Text>
    var objectRefs: seq<Value>
    var traitRefs: seq<Trait>

    constructor ()
      ensures Tables() == NoTables
    {
      stringRefs, objectRefs, traitRefs := [], [], [];
    }

    function Tables(): Tables
      reads this
    {
      AmfFormat.Tables(stringRefs, objectRefs, traitRefs)
    }

    method DecodeU29(r: Reader) returns (n: Option<nat>)
      requires r.Valid()
      modifies r
      ensures r.Valid()
      ensures match AmfFormat.DecodeU29(old(r.Rest()))
              case None => n == None
              case Some((v, rest)) => n == Some(v) && r.Rest() == rest
    {
      var result: nat := 0;
      for i := 0 to 3
        invariant r.Valid() && DecodeU29From(r.Rest(), result, i) == DecodeU29From(old(r.Rest()), 0, 0)
      {
        var b := r.ReadByte();
        if b.None? {
          return None;
        }
        result := result * 128 + b.value as nat % 128;
        if b.value < 128 {
          return Some(result);
        }
      }
      var b := r.ReadByte();
      if b.None? {
        return None;
      }
      return Some(result * 256 + b.value as nat);
    }

    method DecodeReferenceInt(r: Reader) returns (ref: Option<(bool, nat)>)
      requires r.Valid()
      modifies r
      ensures r.Valid()
      ensures match DecodeRefInt(old(r.Rest()))
              case None => ref == None
              case Some((isRef, v, rest)) => ref == Some((isRef, v)) && r.Rest() == rest
    {
      var u := DecodeU29(r);
      ref := if u.None? then None else Some((u.value % 2 == 0, u.value / 2));
    }

    method DecodeAmf3String(r: Reader) returns (o: Outcome<Text>)
      requires r.Valid()
      modifies r, this`stringRefs
      ensures r.Valid() && Agrees(o, r.Rest(), Tables(), DecodeString3(old(r.Rest()), old(Tables())))
    {
      var ref := DecodeReferenceInt(r);
      if ref.None? {
        return Err;
      }
      var (isRef, n) := ref.value;
      if isRef {
        if n < |stringRefs| {
          return Got(stringRefs[n]);
        }
        return Panicked;
      }
      var b := r.ReadBuffer(n);
      if b.None? {
        return Err;
      }
      if b.value != [] {
        stringRefs := stringRefs + [b.value];
      }
      return Got(b.value);
    }

    method DecodeAmf3Xml(r: Reader) returns (o: Outcome<Value>)
      requires r.Valid()
      modifies r, this`objectRefs
      ensures r.Valid() && Agrees(o, r.Rest(), Tables(), DecodeXml3(old(r.Rest()), old(Tables())))
    {
      var ref := DecodeReferenceInt(r);
      if ref.None? {
        return Err;
      }
      var (isRef, n) := ref.value;
      if isRef {
        if n >= |objectRefs| {
          return Panicked;
        }
        return if objectRefs[n].Str? then Got(objectRefs[n]) else Err;
      }
      var b := r.ReadBuffer(n);
      if b.None? {
        return Err;
      }
      if b.value != [] {
        objectRefs := objectRefs + [Str(b.value)];
      }
      return Got(Str(b.value));
    }

    method DecodeAmf3Date(r: Reader) returns (o: Outcome<Value>)
      requires r.Valid()
      modifies r, this`objectRefs
      ensures r.Valid() && Agrees(o, r.Rest(), Tables(), DecodeDate3(old(r.Rest()), old(Tables())))
    {
      var ref := DecodeReferenceInt(r);
      if ref.None? {
        return Err;
      }
      var (isRef, n) := ref.value;
      if isRef {
        if n >= |objectRefs| {
          return Panicked;
        }
        return if objectRefs[n].Date? then Got(objectRefs[n]) else Err;
      }
      var b := r.ReadBytes(8);
      if b.None? {
        return Err;
      }
      objectRefs := objectRefs + [Date(b.value)];
      return Got(Date(b.value));
    }

    method DecodeAmf3ByteArray(r: Reader) returns (o: Outcome<Value>)
      requires r.Valid()
      modifies r, this`objectRefs
      ensures r.Valid() && Agrees(o, r.Rest(), Tables(), DecodeByteArray3(old(r.Rest()), old(Tables())))
    {
      var ref := DecodeReferenceInt(r);
      if ref.None? {
        return Err;
      }
      var (isRef, n) := ref.value;
      if isRef {
        if n >= |objectRefs| {
          return Panicked;
        }
        return if objectRefs[n].Binary? then Got(objectRefs[n]) else Err;
      }
      var b := r.ReadBuffer(n);
      if b.None? {
        return Err;
      }
      objectRefs := objectRefs + [Binary(b.value)];
      return Got(Binary(b.value));
    }

    method DecodeAmf3(r: Reader) returns (o: Outcome<Value>)
      requires r.Valid()
      modifies r, this
      ensures r.Valid() && Agrees(o, r.Rest(), Tables(), Decode3(old(r.Rest()), old(Tables())))
      decreases |r.Rest()|, 0
    {
      hide DecodeString3, DecodeXml3, DecodeDate3, DecodeByteArray3, DecodeArray3, DecodeObject3, AmfFormat.DecodeU29;
      var marker := r.ReadByte();
      if marker.None? {
        return Err;
      }
      match marker.value
      case 0 => return Got(Null);
      case 1 => return Got(Null);
      case 2 => return Got(Bool(false));
      case 3 => return Got(Bool(true));
      case 4 =>
        var n := DecodeU29(r);
        return if n.None? then Err else Got(Int(SignedInt(n.value)));
      case 5 =>
        var b := r.ReadBytes(8);
        return if b.None? then Err else Got(Number(b.value));
      case 6 =>
        var text := DecodeAmf3String(r);
        return match text case Got(x) => Got(Str(x)) case Err => Err case Panicked => Panicked case Foreign => Foreign;
      case 7 => o := DecodeAmf3Xml(r);
      case 8 => o := DecodeAmf3Date(r);
      case 9 => o := DecodeAmf3Array(r);
      case 10 => o := DecodeAmf3Object(r);
      case 11 => o := DecodeAmf3Xml(r);
      case 12 => o := DecodeAmf3ByteArray(r);
      case _ => return Err;
    }

    method DecodeAmf3Array(r: Reader) returns (o: Outcome<Value>)
      requires r.Valid()
      modifies r, this
      ensures r.Valid() && Agrees(o, r.Rest(), Tables(), DecodeArray3(old(r.Rest()), old(Tables())))
      decreases |r.Rest()|, 2
    {
      hide DecodeString3, DecodeItems3, DecodeRefInt;
      var ref := DecodeReferenceInt(r);
      if ref.None? {
        return Err;
      }
      var (isRef, n) := ref.value;
      if isRef {
        if n / 2 >= |objectRefs| {
          return Panicked;
        }
        return if objectRefs[n / 2].Arr? then Got(objectRefs[n / 2]) else Err;
      }
      var key := DecodeAmf3String(r);
      match key {
        case Got(x) =>
          if x != [] {
            return Err;
          }
        case Err => return Err;
        case Panicked => return Panicked;
        case Foreign => return Foreign;
      }
      var items := DecodeAmf3Elements(r, n);
      match items
      case Got(result) =>
        objectRefs := objectRefs + [Arr(result)];
        return Got(Arr(result));
      case Err => return Err;
      case Panicked => return Panicked;
      case Foreign => return Foreign;
    }

    /** The element loop of an array. */
    method DecodeAmf3Elements(r: Reader, n: nat) returns (o: Outcome<seq<Value>>)
      requires r.Valid()
      modifies r, this
      ensures r.Valid() && Agrees(o, r.Rest(), Tables(), DecodeItems3(old(r.Rest()), old(Tables()), n))
      decreases |r.Rest()|, 1
    {
      var result: seq<Value> := [];
      ghost var spec := DecodeItems3(r.Rest(), Tables(), n);
      ItemsStart(spec);
      hide ItemsLeft, Decode3;
      for i := 0 to n
        invariant r.Valid() && |r.Rest()| <= |old(r.Rest())|
        invariant ItemsLeft(spec, result, DecodeItems3(r.Rest(), Tables(), n - i))
      {
        ghost var s, t := r.Rest(), Tables();
        var tmp := DecodeAmf3(r);
        ItemsStep(spec, result, Decode3(s, t), DecodeItems3(s, t, n - i), DecodeItems3(r.Rest(), Tables(), n - i - 1));
        match tmp
        case Got(v) => result := result + [v];
        case Err => return Err;
        case Panicked => return Panicked;
        case Foreign => return Foreign;
      }
      ItemsEnd(spec, result, r.Rest(), Tables());
      return Got(result);
    }

    /** The trait of an object: a known one, or one that is read and remembered. */
    method DecodeAmf3Trait(r: Reader, refVal: nat) returns (o: Outcome<Trait>)
      requires r.Valid()
      modifies r, this
      ensures r.Valid() && Agrees(o, r.Rest(), Tables(), DecodeTrait3(refVal, old(r.Rest()), old(Tables())))
      ensures o.Got? ==> |r.Rest()| <= |old(r.Rest())|
    {
      hide DecodeString3;
      if refVal % 2 == 0 {
        if refVal / 2 < |traitRefs| {
          return Got(traitRefs[refVal / 2]);
        }
        return Panicked;
      }
      var cls := DecodeAmf3String(r);
      match cls
      case Err => return Err;
      case Panicked => return Panicked;
      case Foreign => return Foreign;
      case Got(typ) =>
        var keys := DecodeAmf3Keys(r, refVal / 8);
        match keys
        case Err => return Err;
        case Panicked => return Panicked;
        case Foreign => return Foreign;
        case Got(properties) =>
          var t := Trait(typ, refVal / 2 % 2 != 0, refVal / 4 % 2 != 0, properties);
          traitRefs := traitRefs + [t];
          return Got(t);
    }

    method DecodeAmf3Keys(r: Reader, n: nat) returns (o: Outcome<seq<Text>>)
      requires r.Valid()
      modifies r, this`stringRefs
      ensures r.Valid() && Agrees(o, r.Rest(), Tables(), DecodeStrings3(old(r.Rest()), old(Tables()), n))
    {
      var properties: seq<Text> := [];
      ghost var spec := DecodeStrings3(r.Rest(), Tables(), n);
      KeysStart(r.Rest(), Tables(), n);
      hide KeysLeft, DecodeString3, DecodeStrings3;
      for i := 0 to n
        invariant r.Valid() && KeysLeft(spec, properties, r.Rest(), Tables(), n - i)
      {
        ghost var s, t := r.Rest(), Tables();
        var tmp := DecodeAmf3String(r);
        KeysStep(spec, s, t, n - i, properties);
        match tmp
        case Got(x) => properties := properties + [x];
        case Err => return Err;
        case Panicked => return Panicked;
        case Foreign => return Foreign;
      }
      KeysEnd(spec, properties, r.Rest(), Tables());
      return Got(properties);
    }

    method DecodeAmf3Object(r: Reader) returns (o: Outcome<Value>)
      requires r.Valid()
      modifies r, this
      ensures r.Valid() && Agrees(o, r.Rest(), Tables(), DecodeObject3(old(r.Rest()), old(Tables())))
      decreases |r.Rest()|, 4
    {
      hide DecodeTrait3, DecodeFields3;
      var ref := DecodeReferenceInt(r);
      if ref.None? {
        return Err;
      }
      var (isRef, n) := ref.value;
      if isRef {
        if n / 2 >= |objectRefs| {
          return Panicked;
        }
        return Got(objectRefs[n / 2]);
      }
      var tr := DecodeAmf3Trait(r, n);
      match tr
      case Err => return Err;
      case Panicked => return Panicked;
      case Foreign => return Foreign;
      case Got(properties) =>
        objectRefs := objectRefs + [Null];
        if properties.externalizable {
          return Foreign;
        }
        o := DecodeAmf3Fields(r, properties);
    }

    method DecodeAmf3Fields(r: Reader, properties: Trait) returns (o: Outcome<Value>)
      requires r.Valid()
      modifies r, this
      ensures r.Valid() && Agrees(o, r.Rest(), Tables(), DecodeFields3(properties, old(r.Rest()), old(Tables())))
      decreases |r.Rest()|, 2
    {
      var obj: map<Text, Value> := map[];
      var keys := properties.properties;
      ghost var spec := DecodeItems3(r.Rest(), Tables(), |keys|);
      ghost var all := AssignAll(obj, keys, spec);
      FieldsStart(r.Rest(), Tables(), obj, keys);
      hide FieldsLeft, Decode3, DecodeItems3;
      for i := 0 to |keys|
        invariant r.Valid() && |r.Rest()| <= |old(r.Rest())| && FieldsLeft(all, obj, keys, i, r.Rest(), Tables())
      {
        ghost var s, t := r.Rest(), Tables();
        var val := DecodeAmf3(r);
        FieldsStep(all, obj, keys, i, s, t);
        match val
        case Got(v) => obj := obj[keys[i] := v];
        case Err => return Err;
        case Panicked => return Panicked;
        case Foreign => return Foreign;
      }
      FieldsEnd(all, obj, keys, r.Rest(), Tables());
      if !properties.isDynamic {
        return Got(Obj(obj));
      }
      o := DecodeAmf3Dynamic(r, obj);
    }

    method DecodeAmf3Dynamic(r: Reader, obj0: map<Text, Value>) returns (o: Outcome<Value>)
      requires r.Valid()
      modifies r, this
      ensures r.Valid()
      ensures Agrees(o, r.Rest(), Tables(), AsObject(DecodeDynamic3(old(r.Rest()), old(Tables()), obj0)))
      decreases |r.Rest()|, 1
    {
      var obj := obj0;
      ghost var spec := DecodeDynamic3(r.Rest(), Tables(), obj);
      while true
        invariant r.Valid() && |r.Rest()| <= |old(r.Rest())|
        invariant spec == DecodeDynamic3(r.Rest(), Tables(), obj)
        decreases |r.Rest()|
      {
        var key := DecodeAmf3String(r);
        hide DecodeString3;
        match key
        case Err => return Err;
        case Panicked => return Panicked;
        case Foreign => return Foreign;
        case Got(k) =>
          if k == [] {
            return Got(Obj(obj));
          }
          var val := DecodeAmf3(r);
          hide Decode3;
          match val
          case Err => return Err;
          case Panicked => return Panicked;
          case Foreign => return Foreign;
          case Got(v) => obj := obj[k := v];
      }
    }

    // ---- AMF0 ----

    /** A text whose length takes k bytes. */
    method DecodeAmf0Text(r: Reader, k: nat) returns (text: Option<Text>)
      requires r.Valid()
      modifies r
      ensures r.Valid()
      ensures match DecodeText(old(r.Rest()), k)
              case None => text == None
              case Some((x, rest)) => text == Some(x) && r.Rest() == rest
    {
      var length := r.ReadLength(k);
      if length.None? {
        return None;
      }
      text := r.ReadBytes(length.value);
    }

    method DecodeAmf0(r: Reader) returns (o: Outcome<Value>)
      requires r.Valid()
      modifies r, this
      ensures r.Valid() && Agrees(o, r.Rest(), Tables(), Decode0(old(r.Rest()), old(Tables())))
      decreases |r.Rest()|, 0
    {
      hide DecodeText, Decode3, DecodeObject0, DecodeItems0, BEVal;
      var marker := r.ReadByte();
      if marker.None? {
        return Err;
      }
      match marker.value
      case 0 =>
        var b := r.ReadBytes(8);
        return if b.None? then Err else Got(Number(b.value));
      case 1 =>
        var b := r.ReadByte();
        return if b.None? || b.value > 1 then Err else Got(Bool(b.value == 1));
      case 2 =>
        var text := DecodeAmf0Text(r, 2);
        return if text.None? then Err else Got(Str(text.value));
      case 3 =>
        var obj := DecodeAmf0Object(r);
        return match obj case Got(m) => Got(Obj(m)) case Err => Err case Panicked => Panicked case Foreign => Foreign;
      case 5 => return Got(Null);
      case 6 => return Got(Null);
      case 8 => o := DecodeAmf0EcmaArray(r);
      case 10 => o := DecodeAmf0StrictArray(r);
      case 11 => o := DecodeAmf0Date(r);
      case 12 =>
        var text := DecodeAmf0Text(r, 4);
        return if text.None? then Err else Got(Str(text.value));
      case 13 => return Got(Null);
      case 15 =>
        var text := DecodeAmf0Text(r, 4);
        return if text.None? then Err else Got(Str(text.value));
      case 16 => o := DecodeAmf0TypedObject(r);
      case 17 => o := DecodeAmf3(r);
      case _ => return Err;
    }

    method DecodeAmf0Date(r: Reader) returns (o: Outcome<Value>)
      requires r.Valid()
      modifies r
      ensures r.Valid()
      ensures |old(r.Rest())| >= 10 ==> o == Got(Number(old(r.Rest())[..8])) && r.Rest() == old(r.Rest())[10..]
      ensures |old(r.Rest())| < 10 ==> o == Err
    {
      var b := r.ReadBytes(8);
      if b.None? {
        return Err;
      }
      var unused := r.ReadBytes(2);
      return if unused.None? then Err else Got(Number(b.value));
    }

    method DecodeAmf0EcmaArray(r: Reader) returns (o: Outcome<Value>)
      requires r.Valid()
      modifies r, this
      ensures r.Valid()
      ensures var s := old(r.Rest());
              Agrees(o, r.Rest(), Tables(), if |s| < 4 then Error else AsObject(DecodeObject0(s[4..], old(Tables()), map[])))
      decreases |r.Rest()|, 3
    {
      hide DecodeObject0;
      var length := r.ReadLength(4);
      if length.None? {
        return Err;
      }
      var obj := DecodeAmf0Object(r);
      return match obj case Got(m) => Got(Obj(m)) case Err => Err case Panicked => Panicked case Foreign => Foreign;
    }

    method DecodeAmf0TypedObject(r: Reader) returns (o: Outcome<Value>)
      requires r.Valid()
      modifies r, this
      ensures r.Valid()
      ensures Agrees(o, r.Rest(), Tables(),
                     match DecodeText(old(r.Rest()), 2)
                     case None => Error
                     case Some((typ, s)) => AsTyped(typ, DecodeObject0(s, old(Tables()), map[])))
      decreases |r.Rest()|, 3
    {
      hide DecodeText, DecodeObject0;
      var typ := DecodeAmf0Text(r, 2);
      if typ.None? {
        return Err;
      }
      var obj := DecodeAmf0Object(r);
      return match obj case Got(m) => Got(Typed(typ.value, m)) case Err => Err case Panicked => Panicked case Foreign => Foreign;
    }

    method DecodeAmf0Object(r: Reader) returns (o: Outcome<map<Text, Value>>)
      requires r.Valid()
      modifies r, this
      ensures r.Valid() && Agrees(o, r.Rest(), Tables(), DecodeObject0(old(r.Rest()), old(Tables()), map[]))
      decreases |r.Rest()|, 2
    {
      var result: map<Text, Value> := map[];
      ghost var spec := DecodeObject0(r.Rest(), Tables(), result);
      while true
        invariant r.Valid() && |r.Rest()| <= |old(r.Rest())|
        invariant spec == DecodeObject0(r.Rest(), Tables(), result)
        decreases |r.Rest()|
      {
        var key := DecodeAmf0Text(r, 2);
        hide DecodeText;
        if key.None? {
          return Err;
        }
        if key.value == [] {
          var end := r.ReadByte();
          return if end == Some(9) then Got(result) else Err;
        }
        var val := DecodeAmf0(r);
        hide Decode0;
        match val
        case Err => return Err;
        case Panicked => return Panicked;
        case Foreign => return Foreign;
        case Got(v) => result := result[key.value := v];
      }
    }

    method DecodeAmf0StrictArray(r: Reader) returns (o: Outcome<Value>)
      requires r.Valid()
      modifies r, this
      ensures r.Valid()
      ensures var s := old(r.Rest());
              Agrees(o, r.Rest(), Tables(),
                     if |s| < 4 then Error else AsArray(DecodeItems0(s[4..], old(Tables()), BEVal(s[..4]))))
      decreases |r.Rest()|, 3
    {
      hide ItemsLeft, Decode0, BEVal;
      var length := r.ReadLength(4);
      if length.None? {
        return Err;
      }
      var n := length.value;
      var result: seq<Value> := [];
      ghost var spec := DecodeItems0(r.Rest(), Tables(), n);
      ItemsStart(spec);
      for i := 0 to n
        invariant r.Valid() && |r.Rest()| < |old(r.Rest())|
        invariant ItemsLeft(spec, result, DecodeItems0(r.Rest(), Tables(), n - i))
      {
        ghost var s, t := r.Rest(), Tables();
        var tmp := DecodeAmf0(r);
        ItemsStep(spec, result, Decode0(s, t), DecodeItems0(s, t, n - i), DecodeItems0(r.Rest(), Tables(), n - i - 1));
        match tmp
        case Got(v) => result := result + [v];
        case Err => return Err;
        case Panicked => return Panicked;
        case Foreign => return Foreign;
      }
      ItemsEnd(spec, result, r.Rest(), Tables());
      return Got(Arr(result));
    }

    // ---- batches ----

    method Decode(r: Reader, version: Version) returns (o: Outcome<Value>)
      requires r.Valid()
      modifies r, this
      ensures r.Valid() && Agrees(o, r.Rest(), Tables(), AmfFormat.Decode(old(r.Rest()), old(Tables()), version))
    {
      match version
      case Amf0 => o := DecodeAmf0(r);
      case Amf3 => o := DecodeAmf3(r);
    }

    /** Decodes until something other than a value comes, which is reported beside the values. */
    method DecodeBatch(r: Reader, version: Version) returns (ret: seq<Value>, last: Outcome<Value>)
      requires r.Valid()
      modifies r, this
      ensures ret == AmfFormat.DecodeBatch(old(r.Rest()), old(Tables()), version) && !last.Got?
    {
      ret := [];
      ghost var spec := AmfFormat.DecodeBatch(r.Rest(), Tables(), version);
      while true
        invariant r.Valid() && spec == ret + AmfFormat.DecodeBatch(r.Rest(), Tables(), version)
        decreases |r.Rest()|
      {
        ghost var s, t := r.Rest(), Tables();
        last := Decode(r, version);
        hide AmfFormat.Decode;
        if !last.Got? {
          return;
        }
        Associates(ret, [last.v], AmfFormat.DecodeBatch(r.Rest(), Tables(), version));
        ret := ret + [last.v];
      }
    }
  }

  function AsTyped(typ: Text, m: Result<map<Text, Value>>): Result<Value> {
    match m
    case Ok(x, rest, t) => Ok(Typed(typ, x), rest, t)
    case Error => Error
    case Panic => Panic
    case Outside => Outside
  }

  function AsArray(vs: Result<seq<Value>>): Result<Value> {
    match vs
    case Ok(x, rest, t) => Ok(Arr(x), rest, t)
    case Error => Error
    case Panic => Panic
    case Outside => Outside
  }

  function AsObject(m: Result<map<Text, Value>>): Result<Value> {
    match m
    case Ok(x, rest, t) => Ok(Obj(x), rest, t)
    case Error => Error
    case Panic => Panic
    case Outside => Outside
  }

  function PrependTexts(done: seq<Text>, later: Result<seq<Text>>): Result<seq<Text>> {
    match later
    case Ok(vs, rest, t) => Ok(done + vs, rest, t)
    case _ => later
  }

  /** An object after the values for its remaining keys. */
  function AssignAll(m: map<Text, Value>, keys: seq<Text>, vals: Result<seq<Value>>): Result<map<Text, Value>>
    requires vals.Ok? ==> |vals.v| == |keys|
  {
    match vals
    case Ok(vs, rest, t) => Ok(Assign(m, keys, vs), rest, t)
    case Error => Error
    case Panic => Panic
    case Outside => Outside
  }

  // the element loop of an array

  ghost predicate ItemsLeft(spec: Result<seq<Value>>, done: seq<Value>, later: Result<seq<Value>>) {
    spec == Prepend(done, later)
  }

  lemma ItemsStart(spec: Result<seq<Value>>)
    ensures ItemsLeft(spec, [], spec)
  {
    if spec.Ok? {
      assert [] + spec.v == spec.v;
    }
  }

  /** One more value at the end of the results is one fewer at the front of the remainder. */
  lemma ItemsStep(spec: Result<seq<Value>>, done: seq<Value>, one: Result<Value>, now: Result<seq<Value>>, later: Result<seq<Value>>)
    requires ItemsLeft(spec, done, now)
    requires now == match one
                    case Ok(v, _, _) => Prepend([v], later)
                    case Error => Error
                    case Panic => Panic
                    case Outside => Outside
    ensures match one
            case Ok(v, _, _) => ItemsLeft(spec, done + [v], later)
            case Error => spec == Error
            case Panic => spec == Panic
            case Outside => spec == Outside
  {
    if one.Ok? && later.Ok? {
      Associates(done, [one.v], later.v);
    }
  }

  lemma ItemsEnd(spec: Result<seq<Value>>, done: seq<Value>, s: seq<byte>, t: Tables)
    requires ItemsLeft(spec, done, Ok([], s, t))
    ensures spec == Ok(done, s, t)
  {
    assert done + [] == done;
  }

  // the key loop of a trait

  ghost predicate KeysLeft(spec: Result<seq<Text>>, done: seq<Text>, s: seq<byte>, t: Tables, n: nat) {
    spec == PrependTexts(done, DecodeStrings3(s, t, n))
  }

  lemma KeysStart(s: seq<byte>, t: Tables, n: nat)
    ensures KeysLeft(DecodeStrings3(s, t, n), [], s, t, n)
  {
    var spec := DecodeStrings3(s, t, n);
    if spec.Ok? {
      assert [] + spec.v == spec.v;
    }
  }

  lemma KeysStep(spec: Result<seq<Text>>, s: seq<byte>, t: Tables, n: nat, done: seq<Text>)
    requires n > 0 && KeysLeft(spec, done, s, t, n)
    ensures match DecodeString3(s, t)
            case Ok(v, s1, t1) => KeysLeft(spec, done + [v], s1, t1, n - 1)
            case Error => spec == Error
            case Panic => spec == Panic
            case Outside => spec == Outside
  {
    hide DecodeString3;
    var r := DecodeString3(s, t);
    if r.Ok? {
      var later := DecodeStrings3(r.rest, r.t, n - 1);
      if later.Ok? {
        Associates(done, [r.v], later.v);
      }
    }
  }

  lemma KeysEnd(spec: Result<seq<Text>>, done: seq<Text>, s: seq<byte>, t: Tables)
    requires KeysLeft(spec, done, s, t, 0)
    ensures spec == Ok(done, s, t)
  {
    assert done + [] == done;
  }

  // the property loop of an object

  ghost predicate FieldsLeft(all: Result<map<Text, Value>>, m: map<Text, Value>, keys: seq<Text>, i: nat, s: seq<byte>, t: Tables) {
    i <= |keys| && all == AssignAll(m, keys[i..], DecodeItems3(s, t, |keys| - i))
  }

  lemma FieldsStart(s: seq<byte>, t: Tables, m: map<Text, Value>, keys: seq<Text>)
    ensures FieldsLeft(AssignAll(m, keys, DecodeItems3(s, t, |keys|)), m, keys, 0, s, t)
  {
    assert keys[0..] == keys;
  }

  lemma FieldsStep(all: Result<map<Text, Value>>, m: map<Text, Value>, keys: seq<Text>, i: nat, s: seq<byte>, t: Tables)
    requires i < |keys| && FieldsLeft(all, m, keys, i, s, t)
    ensures match Decode3(s, t)
            case Ok(v, s1, t1) => FieldsLeft(all, m[keys[i] := v], keys, i + 1, s1, t1)
            case Error => all == Error
            case Panic => all == Panic
            case Outside => all == Outside
  {
    hide Decode3;
    var r := Decode3(s, t);
    assert keys[i..][1..] == keys[i + 1..];
    if r.Ok? {
      var later := DecodeItems3(r.rest, r.t, |keys| - i - 1);
      if later.Ok? {
        assert ([r.v] + later.v)[1..] == later.v;
      }
    }
  }

  lemma FieldsEnd(all: Result<map<Text, Value>>, m: map<Text, Value>, keys: seq<Text>, s: seq<byte>, t: Tables)
    requires FieldsLeft(all, m, keys, |keys|, s, t)
    ensures all == Ok(m, s, t)
  {
  }
}
