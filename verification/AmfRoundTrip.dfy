/** Decoding inverts encoding, for both versions, every nesting and every order of map entries. */
module AmfRoundTrip {
  import opened Bytes
  import opened AmfFormat

  /** Lengths that the AMF0 length fields can hold, and no value AMF0 has no form for. */
  predicate Fits0(l: Layout) {
    match l
    case LNumber(bits) => |bits| == 8
    case LInt(_) => false
    case LStr(s) => |s| < 0x1_0000_0000
    case LArr(items) => |items| < 0x1_0000_0000 && Fit0(items)
    case LObj(typ, keys, vals) => typ == [] && |keys| == |vals| && TextsFit(keys, 0x1_0000) && Fit0(vals)
    case _ => true
  }

  predicate Fit0(ls: seq<Layout>) {
    ls == [] || (Fits0(ls[0]) && Fit0(ls[1..]))
  }

  /** No object has an empty key. */
  predicate Keyed(l: Layout) {
    match l
    case LArr(items) => AllKeyed(items)
    case LObj(_, keys, vals) => [] !in keys && AllKeyed(vals)
    case _ => true
  }

  predicate AllKeyed(ls: seq<Layout>) {
    ls == [] || (Keyed(ls[0]) && AllKeyed(ls[1..]))
  }

  lemma TextRoundTrip(s: Text, k: nat, rest: seq<byte>)
    requires |s| < Pow256(k)
    ensures DecodeText(EncodeText(s, k) + rest, k) == Some((s, rest))
  {
    hide BE, BEVal, Pow256;
    BERoundTrip(|s|, k);
    var w := EncodeText(s, k) + rest;
    assert w[..k] == BE(|s|, k) && w[k..] == s + rest;
    assert (s + rest)[..|s|] == s && (s + rest)[|s|..] == rest;
  }

  // ---- AMF0 ----

  /** What decoding the bytes of a layout gives: its value if no key is empty, and otherwise an error. */
  function Expected0(l: Layout, rest: seq<byte>, t: Tables): Result<Value> {
    if Keyed(l) then Ok(ValueOf(l), rest, t) else Error
  }

  lemma FirstByte0(l: Layout, rest: seq<byte>)
    requires Fits0(l)
    ensures Encode0(l) != [] && (Encode0(l) + rest)[0] != 9 && (Encode0(l) + rest)[1..] == Encode0(l)[1..] + rest
  {
  }

  /**
   For every value with lengths in range and every order of its map entries, the decoder returns the
   value and leaves exactly what follows, if and only if no object in it has an empty key; with an
   empty key it fails.
   */
  lemma {:induction false} RoundTrip0(l: Layout, rest: seq<byte>, t: Tables)
    requires Fits0(l)
    ensures Decode0(Encode0(l) + rest, t) == Expected0(l, rest, t)
    decreases l.Size(), 0
  {
    hide BE, BEVal, Pow256, DecodeObject0, DecodeItems0, EncodeItems0, EncodePairs0, EncodeText, DecodeText;
    Pow256Values();
    FirstByte0(l, rest);
    match l
    case LStr(s) =>
      TextRoundTrip(s, if |s| <= 65535 then 2 else 4, rest);
    case LArr(items) =>
      RoundTripItems0(items, rest, t);
      BERoundTrip(|items|, 4);
      var w := BE(|items|, 4) + EncodeItems0(items) + rest;
      Associates(BE(|items|, 4), EncodeItems0(items), rest);
      assert w[..4] == BE(|items|, 4) && w[4..] == EncodeItems0(items) + rest;
    case LObj(_, keys, vals) =>
      RoundTripPairs0(keys, vals, rest, t, map[]);
    case LNumber(bits) =>
      assert (bits + rest)[..8] == bits && (bits + rest)[8..] == rest;
    case LNull =>
    case LBool(b) =>
      assert (Encode0(l) + rest)[2..] == rest;
    case LInt(_) =>
  }

  lemma {:induction false} RoundTripItems0(ls: seq<Layout>, rest: seq<byte>, t: Tables)
    requires Fit0(ls)
    ensures DecodeItems0(EncodeItems0(ls) + rest, t, |ls|) == if AllKeyed(ls) then Ok(ValuesOf(ls), rest, t) else Error
    decreases SizeAll(ls), 1
  {
    if ls != [] {
      var tail := EncodeItems0(ls[1..]) + rest;
      Associates(Encode0(ls[0]), EncodeItems0(ls[1..]), rest);
      RoundTrip0(ls[0], tail, t);
      RoundTripItems0(ls[1..], rest, t);
    } else {
      assert EncodeItems0(ls) + rest == rest;
    }
  }

  lemma {:induction false} RoundTripPairs0(keys: seq<Text>, vals: seq<Layout>, rest: seq<byte>, t: Tables, m: map<Text, Value>)
    requires |keys| == |vals| && TextsFit(keys, 0x1_0000) && Fit0(vals)
    ensures DecodeObject0(EncodePairs0(keys, vals) + rest, t, m) ==
            if [] !in keys && AllKeyed(vals) then Ok(Assign(m, keys, ValuesOf(vals)), rest, t) else Error
    decreases SizeAll(vals), 1
  {
    Pow256Values();
    if keys == [] {
      var w := EncodePairs0(keys, vals) + rest;
      TextRoundTrip([], 2, [9] + rest);
      Associates(EncodeText([], 2), [9], rest);
      assert ([9] + rest)[1..] == rest;
    } else {
      var later := EncodePairs0(keys[1..], vals[1..]) + rest;
      Associates(EncodeText(keys[0], 2), Encode0(vals[0]) + EncodePairs0(keys[1..], vals[1..]), rest);
      Associates(Encode0(vals[0]), EncodePairs0(keys[1..], vals[1..]), rest);
      TextRoundTrip(keys[0], 2, Encode0(vals[0]) + later);
      FirstByte0(vals[0], later);
      RoundTrip0(vals[0], later, t);
      RoundTripPairs0(keys[1..], vals[1..], rest, t, m[keys[0] := ValueOf(vals[0])]);
      assert [] in keys <==> keys[0] == [] || [] in keys[1..];
    }
  }

  // ---- AMF3 ----

  lemma Utf8RoundTrip(s: Text, rest: seq<byte>, t: Tables) returns (t1: Tables)
    requires |s| < 0x1000_0000
    ensures DecodeString3(EncodeUtf8(s) + rest, t) == Ok(s, rest, t1)
  {
    hide DecodeRefInt, EncodeU29;
    Associates(EncodeU29(2 * |s| + 1), s, rest);
    LengthRoundTrip(|s|, s + rest);
    assert (s + rest)[..|s|] == s && (s + rest)[|s|..] == rest;
    assert s == [] ==> s + rest == rest;
    t1 := if s == [] then t else t.(strings := t.strings + [s]);
  }

  lemma {:induction false} Utf8sRoundTrip(ss: seq<Text>, rest: seq<byte>, t: Tables) returns (t1: Tables)
    requires TextsFit(ss, 0x1000_0000)
    ensures DecodeStrings3(EncodeUtf8s(ss) + rest, t, |ss|) == Ok(ss, rest, t1)
  {
    hide EncodeUtf8, DecodeString3;
    if ss == [] {
      assert EncodeUtf8s(ss) + rest == rest;
      t1 := t;
    } else {
      Associates(EncodeUtf8(ss[0]), EncodeUtf8s(ss[1..]), rest);
      t1 := Utf8RoundTrip(ss[0], EncodeUtf8s(ss[1..]) + rest, t);
      t1 := Utf8sRoundTrip(ss[1..], rest, t1);
      assert [ss[0]] + ss[1..] == ss;
    }
  }

  /** The flags and the property count in an object header. */
  lemma TraitBits(k: nat)
    ensures (16 * k + 3) % 2 == 1 && (16 * k + 3) / 2 == 8 * k + 1
    ensures (8 * k + 1) % 2 == 1 && (8 * k + 1) / 2 % 2 == 0 && (8 * k + 1) / 4 % 2 == 0 && (8 * k + 1) / 8 == k
  {
    Divides(16 * k + 3, 8 * k + 1, 1, 2);
    Divides(8 * k + 1, 4 * k, 1, 2);
    Divides(4 * k, 2 * k, 0, 2);
    Divides(8 * k + 1, 2 * k, 1, 4);
    Divides(2 * k, k, 0, 2);
    Divides(8 * k + 1, k, 1, 8);
  }

  lemma TraitRoundTrip(typ: Text, keys: seq<Text>, rest: seq<byte>, t: Tables) returns (t1: Tables)
    requires |typ| < 0x1000_0000 && |keys| < 0x200_0000 && TextsFit(keys, 0x1000_0000)
    ensures DecodeTrait3(8 * |keys| + 1, EncodeUtf8(typ) + (EncodeUtf8s(keys) + rest), t)
            == Ok(Trait(typ, false, false, keys), rest, t1)
  {
    hide DecodeString3, DecodeStrings3, EncodeUtf8, EncodeUtf8s;
    TraitBits(|keys|);
    t1 := Utf8RoundTrip(typ, EncodeUtf8s(keys) + rest, t);
    t1 := Utf8sRoundTrip(keys, rest, t1);
    t1 := t1.(traits := t1.traits + [Trait(typ, false, false, keys)]);
  }

  /**
   Whatever the reference tables hold, decoding what the encoder wrote returns the value, with integers
   taken modulo 2^29 into the signed range, and leaves exactly what follows.
   */
  lemma {:induction false} RoundTrip3(l: Layout, rest: seq<byte>, t: Tables) returns (t1: Tables)
    requires Fits3(l)
    ensures Decode3(Encode3(l) + rest, t) == Ok(Arriving3(l), rest, t1)
    decreases l.Size(), 1
  {
    hide DecodeU29, EncodeU29, EncodeUtf8, DecodeString3, DecodeArray3, DecodeObject3;
    t1 := t;
    match l
    case LArr(items) =>
      ArrayBytesFollow(items, rest);
      assert ([9] + ArrayBytes(items, rest))[1..] == ArrayBytes(items, rest);
      t1 := RoundTripArray3(items, rest, t);
    case LObj(typ, keys, vals) =>
      ObjectBytesFollow(typ, keys, vals, rest);
      assert ([10] + ObjectBytes(typ, keys, vals, rest))[1..] == ObjectBytes(typ, keys, vals, rest);
      t1 := RoundTripObject3(typ, keys, vals, rest, t);
    case _ =>
      t1 := RoundTripLeaf3(l, rest, t);
  }

  lemma RoundTripLeaf3(l: Layout, rest: seq<byte>, t: Tables) returns (t1: Tables)
    requires Fits3(l) && !l.LArr? && !l.LObj?
    ensures Decode3(Encode3(l) + rest, t) == Ok(Arriving3(l), rest, t1)
  {
    assert (Encode3(l) + rest)[1..] == Encode3(l)[1..] + rest;
    hide DecodeU29, EncodeU29, EncodeUtf8, DecodeString3;
    t1 := t;
    match l
    case LNumber(bits) =>
      assert (bits + rest)[..8] == bits && (bits + rest)[8..] == rest;
    case LInt(n) =>
      U29RoundTrip(n, rest);
    case LStr(s) =>
      t1 := Utf8RoundTrip(s, rest, t);
    case LNull =>
      assert Encode3(l)[1..] + rest == rest;
    case LBool(_) =>
      assert Encode3(l)[1..] + rest == rest;
  }

  lemma HeaderRoundTrip(k: nat, rest: seq<byte>)
    requires k < 0x200_0000
    ensures DecodeRefInt(EncodeU29(16 * k + 3) + rest) == Some((false, 8 * k + 1, rest))
  {
    hide EncodeU29, DecodeU29;
    U29RoundTrip(16 * k + 3, rest);
    TraitBits(k);
  }

  lemma LengthRoundTrip(n: nat, rest: seq<byte>)
    requires n < 0x1000_0000
    ensures DecodeRefInt(EncodeU29(2 * n + 1) + rest) == Some((false, n, rest))
  {
    hide EncodeU29, DecodeU29;
    U29RoundTrip(2 * n + 1, rest);
    Divides(2 * n + 1, n, 1, 2);
  }

  // what follows the marker of an array or an object, followed by other bytes
  function ArrayBytes(items: seq<Layout>, rest: seq<byte>): seq<byte>
    requires Fits3(LArr(items))
  {
    EncodeU29(2 * |items| + 1) + (EncodeUtf8([]) + (EncodeItems3(items) + rest))
  }

  function ObjectBytes(typ: Text, keys: seq<Text>, vals: seq<Layout>, rest: seq<byte>): seq<byte>
    requires Fits3(LObj(typ, keys, vals))
  {
    EncodeU29(16 * |keys| + 3) + (EncodeUtf8(typ) + (EncodeUtf8s(keys) + (EncodeItems3(vals) + rest)))
  }

  lemma ArrayBytesFollow(items: seq<Layout>, rest: seq<byte>)
    requires Fits3(LArr(items))
    ensures Encode3(LArr(items)) + rest == [9] + ArrayBytes(items, rest)
  {
    hide EncodeU29, EncodeUtf8, EncodeItems3;
    Regroup5([9], EncodeU29(2 * |items| + 1), EncodeUtf8([]), EncodeItems3(items), rest);
    Regroup([9], EncodeU29(2 * |items| + 1), EncodeUtf8([]), EncodeItems3(items));
  }

  lemma ObjectBytesFollow(typ: Text, keys: seq<Text>, vals: seq<Layout>, rest: seq<byte>)
    requires Fits3(LObj(typ, keys, vals))
    ensures Encode3(LObj(typ, keys, vals)) + rest == [10] + ObjectBytes(typ, keys, vals, rest)
  {
    hide EncodeU29, EncodeUtf8, EncodeUtf8s, EncodeItems3;
    var u, a, b, c := EncodeU29(16 * |keys| + 3), EncodeUtf8(typ), EncodeUtf8s(keys), EncodeItems3(vals);
    Regroup5([10], u, a, b, c);
    Regroup5([10] + u, a, b, c, rest);
    Associates([10], u, a + (b + (c + rest)));
  }

  lemma FitOfArray(items: seq<Layout>)
    ensures Fits3(LArr(items)) <==> |items| < 0x1000_0000 && Fit3(items)
  {
  }

  lemma {:induction false} RoundTripArray3(items: seq<Layout>, rest: seq<byte>, t: Tables) returns (t1: Tables)
    requires Fits3(LArr(items))
    ensures DecodeArray3(ArrayBytes(items, rest), t) == Ok(Arr(AllArriving3(items)), rest, t1)
    decreases 1 + SizeAll(items), 0
  {
    hide DecodeRefInt, EncodeU29, EncodeUtf8, EncodeItems3, DecodeString3, DecodeItems3, AllArriving3, Fits3;
    FitOfArray(items);
    LengthRoundTrip(|items|, EncodeUtf8([]) + (EncodeItems3(items) + rest));
    t1 := Utf8RoundTrip([], EncodeItems3(items) + rest, t);
    t1 := RoundTripItems3(items, rest, t1);
    t1 := t1.(objects := t1.objects + [Arr(AllArriving3(items))]);
  }

  lemma {:induction false} RoundTripObject3(typ: Text, keys: seq<Text>, vals: seq<Layout>, rest: seq<byte>, t: Tables) returns (t1: Tables)
    requires Fits3(LObj(typ, keys, vals))
    ensures DecodeObject3(ObjectBytes(typ, keys, vals, rest), t) == Ok(Obj(Assign(map[], keys, AllArriving3(vals))), rest, t1)
    decreases SizeAll(vals), 3
  {
    HeaderRoundTrip(|keys|, EncodeUtf8(typ) + (EncodeUtf8s(keys) + (EncodeItems3(vals) + rest)));
    ObjectByHeader(ObjectBytes(typ, keys, vals, rest), 8 * |keys| + 1,
                   EncodeUtf8(typ) + (EncodeUtf8s(keys) + (EncodeItems3(vals) + rest)), t);
    hide *;
    t1 := RoundTripNew3(typ, keys, vals, rest, t);
  }

  lemma ObjectByHeader(s: seq<byte>, n: nat, s1: seq<byte>, t: Tables)
    requires DecodeRefInt(s) == Some((false, n, s1))
    ensures DecodeObject3(s, t) == DecodeNew3(n, s1, t)
  {
  }

  lemma {:induction false} RoundTripNew3(typ: Text, keys: seq<Text>, vals: seq<Layout>, rest: seq<byte>, t: Tables) returns (t1: Tables)
    requires Fits3(LObj(typ, keys, vals))
    ensures DecodeNew3(8 * |keys| + 1, EncodeUtf8(typ) + (EncodeUtf8s(keys) + (EncodeItems3(vals) + rest)), t)
            == Ok(Obj(Assign(map[], keys, AllArriving3(vals))), rest, t1)
    decreases SizeAll(vals), 2
  {
    hide EncodeUtf8, EncodeUtf8s, EncodeItems3, DecodeTrait3, DecodeFields3;
    t1 := TraitRoundTrip(typ, keys, EncodeItems3(vals) + rest, t);
    t1 := RoundTripFields3(typ, keys, vals, rest, t1.(objects := t1.objects + [Null]));
  }

  lemma {:induction false} RoundTripFields3(typ: Text, keys: seq<Text>, vals: seq<Layout>, rest: seq<byte>, t: Tables)
    returns (t1: Tables)
    requires |keys| == |vals| && Fit3(vals)
    ensures DecodeFields3(Trait(typ, false, false, keys), EncodeItems3(vals) + rest, t)
            == Ok(Obj(Assign(map[], keys, AllArriving3(vals))), rest, t1)
    decreases SizeAll(vals), 1
  {
    t1 := RoundTripItems3(vals, rest, t);
  }

  lemma {:induction false} RoundTripItems3(ls: seq<Layout>, rest: seq<byte>, t: Tables) returns (t1: Tables)
    requires Fit3(ls)
    ensures DecodeItems3(EncodeItems3(ls) + rest, t, |ls|) == Ok(AllArriving3(ls), rest, t1)
    decreases SizeAll(ls), 0
  {
    if ls == [] {
      assert EncodeItems3(ls) + rest == rest;
      t1 := t;
    } else {
      Associates(Encode3(ls[0]), EncodeItems3(ls[1..]), rest);
      t1 := RoundTrip3(ls[0], EncodeItems3(ls[1..]) + rest, t);
      t1 := RoundTripItems3(ls[1..], rest, t1);
    }
  }

  // ---- when the value that arrives is the value that was sent ----

  /** Every integer has at most 28 bits. */
  predicate SmallInts(l: Layout) {
    match l
    case LInt(n) => n <= 0xFFF_FFFF
    case LArr(items) => AllSmallInts(items)
    case LObj(_, keys, vals) => AllSmallInts(vals)
    case _ => true
  }

  predicate AllSmallInts(ls: seq<Layout>) {
    ls == [] || (SmallInts(ls[0]) && AllSmallInts(ls[1..]))
  }

  /** The keys of every object are distinct, as the keys of a map are. */
  predicate Distinct(l: Layout) {
    match l
    case LArr(items) => AllDistinct(items)
    case LObj(_, keys, vals) => |keys| == |vals| && NoRepeat(keys) && AllDistinct(vals)
    case _ => true
  }

  predicate AllDistinct(ls: seq<Layout>) {
    ls == [] || (Distinct(ls[0]) && AllDistinct(ls[1..]))
  }

  predicate NoRepeat(keys: seq<Text>) {
    keys == [] || (keys[0] !in keys[1..] && NoRepeat(keys[1..]))
  }

  lemma {:induction false} AssignKeeps(m: map<Text, Value>, keys: seq<Text>, vals: seq<Value>, k: Text)
    requires |keys| == |vals| && k !in keys
    ensures (k in Assign(m, keys, vals)) == (k in m) && (k in m ==> Assign(m, keys, vals)[k] == m[k])
    decreases |keys|
  {
    if keys != [] {
      AssignKeeps(m[keys[0] := vals[0]], keys[1..], vals[1..], k);
    }
  }

  /** Distinct keys are each assigned their own value, so different values make different maps. */
  lemma {:induction false} AssignInjective(m: map<Text, Value>, n: map<Text, Value>, keys: seq<Text>, xs: seq<Value>, ys: seq<Value>)
    requires |keys| == |xs| == |ys| && NoRepeat(keys)
    ensures Assign(m, keys, xs) == Assign(n, keys, ys) ==> xs == ys
    decreases |keys|
  {
    if keys != [] {
      AssignInjective(m[keys[0] := xs[0]], n[keys[0] := ys[0]], keys[1..], xs[1..], ys[1..]);
      AssignKeeps(m[keys[0] := xs[0]], keys[1..], xs[1..], keys[0]);
      AssignKeeps(n[keys[0] := ys[0]], keys[1..], ys[1..], keys[0]);
    }
  }

  /** The value that arrives is the one that was sent exactly when no integer needs more than 28 bits. */
  lemma {:induction false} ArrivesUnchanged(l: Layout)
    requires Distinct(l)
    ensures Arriving3(l) == ValueOf(l) <==> SmallInts(l)
    decreases l.Size()
  {
    match l
    case LArr(items) => AllArriveUnchanged(items);
    case LObj(_, keys, vals) =>
      AllArriveUnchanged(vals);
      AssignInjective(map[], map[], keys, AllArriving3(vals), ValuesOf(vals));
    case _ =>
  }

  lemma {:induction false} AllArriveUnchanged(ls: seq<Layout>)
    requires AllDistinct(ls)
    ensures AllArriving3(ls) == ValuesOf(ls) <==> AllSmallInts(ls)
    decreases SizeAll(ls)
  {
    if ls != [] {
      ArrivesUnchanged(ls[0]);
      AllArriveUnchanged(ls[1..]);
      assert AllArriving3(ls)[0] == Arriving3(ls[0]) && AllArriving3(ls)[1..] == AllArriving3(ls[1..]);
      assert ValuesOf(ls)[0] == ValueOf(ls[0]) && ValuesOf(ls)[1..] == ValuesOf(ls[1..]);
    }
  }

  /**
   The AMF3 law: a value with distinct keys and lengths in range comes back as it was, with exactly the
   bytes that follow left over, if and only if its integers have at most 28 bits.
   */
  lemma Preserved3(l: Layout, rest: seq<byte>, t: Tables)
    requires Fits3(l) && Distinct(l)
    ensures (exists t1 :: Decode3(Encode3(l) + rest, t) == Ok(ValueOf(l), rest, t1)) <==> SmallInts(l)
  {
    var t1 := RoundTrip3(l, rest, t);
    ArrivesUnchanged(l);
  }

  // ---- batches ----

  /** A batch is read back value by value, and reading stops at the end of the input. */
  lemma {:induction false} BatchRoundTrip0(ls: seq<Layout>, t: Tables)
    requires Fit0(ls) && AllKeyed(ls)
    ensures DecodeBatch(EncodeItems0(ls), t, Amf0) == ValuesOf(ls)
    decreases |ls|
  {
    if ls != [] {
      RoundTrip0(ls[0], EncodeItems0(ls[1..]), t);
      BatchRoundTrip0(ls[1..], t);
    }
  }

  lemma {:induction false} BatchRoundTrip3(ls: seq<Layout>, t: Tables)
    requires Fit3(ls)
    ensures DecodeBatch(EncodeItems3(ls), t, Amf3) == AllArriving3(ls)
    decreases |ls|
  {
    if ls != [] {
      var t1 := RoundTrip3(ls[0], EncodeItems3(ls[1..]), t);
      BatchRoundTrip3(ls[1..], t1);
    }
  }

  // ---- truncated strings ----

  /** A string that is cut short is an error in AMF0. */
  lemma TruncatedString0(s: Text, n: nat, t: Tables)
    requires n < |s| <= 65535
    ensures Decode0([2] + (BE(|s|, 2) + s[..n]), t) == Error
  {
    Pow256Values();
    BERoundTrip(|s|, 2);
    var w := BE(|s|, 2) + s[..n];
    assert w[..2] == BE(|s|, 2) && w[2..] == s[..n];
    assert DecodeText(w, 2) == None;
    assert ([2] + w)[1..] == w;
  }

  /**
   In AMF3 a string that is cut short is an error only if nothing of it is left: otherwise it is
   delivered with zeros in place of what is missing.
   */
  lemma TruncatedString3(s: Text, n: nat, t: Tables)
    requires n < |s| < 0x1000_0000
    ensures var r := DecodeString3(EncodeU29(2 * |s| + 1) + s[..n], t);
            if n == 0 then r == Error else r.Ok? && r.rest == [] && r.v == s[..n] + seq(|s| - n, _ => 0)
  {
    LengthRoundTrip(|s|, s[..n]);
    hide DecodeRefInt, EncodeU29;
  }
}
