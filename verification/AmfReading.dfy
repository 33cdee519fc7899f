/** Whatever a peer writes in either AMF format is read as what it means. */
module AmfReading {
  import opened Bytes
  import opened AmfFormat
  import opened AmfRoundTrip
  import opened AmfGrammar

  /** The result of reading something with a meaning. */
  function Read<T>(m: Meaning<T>, rest: seq<byte>): Result<T>
    requires m.Means?
  {
    Ok(m.v, rest, m.t)
  }

  // ---- AMF3 ----

  lemma RefRead(n: nat, rest: seq<byte>)
    requires n < 0x1000_0000
    ensures DecodeRefInt(U29(2 * n) + rest) == Some((true, n, rest))
  {
    hide EncodeU29, DecodeU29;
    U29RoundTrip(2 * n, rest);
    Divides(2 * n, n, 0, 2);
  }

  lemma LengthRead(n: nat, rest: seq<byte>)
    requires n < 0x1000_0000
    ensures DecodeRefInt(U29(2 * n + 1) + rest) == Some((false, n, rest))
  {
    hide EncodeU29;
    LengthRoundTrip(n, rest);
  }

  lemma Ends(s: seq<byte>, rest: seq<byte>)
    ensures (s + rest)[..|s|] == s && (s + rest)[|s|..] == rest
  {
  }

  lemma NewTextRead(s: Text, rest: seq<byte>, t: Tables)
    requires |s| < 0x1000_0000
    ensures var w := U29(2 * |s| + 1) + s + rest;
            DecodeRefInt(w) == Some((false, |s|, s + rest)) && ReadOnce(s + rest, |s|) == Some((s, rest))
  {
    hide U29, DecodeRefInt;
    Associates(U29(2 * |s| + 1), s, rest);
    LengthRead(|s|, s + rest);
    Ends(s, rest);
    assert s == [] ==> s + rest == rest;
  }

  lemma TextRead(x: Text3, rest: seq<byte>, t: Tables)
    requires TextMeans(x, t).Means?
    ensures DecodeString3(TextBytes(x) + rest, t) == Read(TextMeans(x, t), rest)
  {
    hide U29, DecodeRefInt, ReadOnce;
    match x
    case NewText(s) => NewTextRead(s, rest, t);
    case TextRef(i) => RefRead(i, rest);
  }

  lemma {:induction false} TextsRead(xs: seq<Text3>, rest: seq<byte>, t: Tables)
    requires TextsMean(xs, t).Means?
    ensures DecodeStrings3(TextsBytes(xs) + rest, t, |xs|) == Read(TextsMean(xs, t), rest)
  {
    hide TextBytes, DecodeString3, TextMeans;
    if xs == [] {
      assert TextsBytes(xs) + rest == rest;
    } else {
      Associates(TextBytes(xs[0]), TextsBytes(xs[1..]), rest);
      TextRead(xs[0], TextsBytes(xs[1..]) + rest, t);
      TextsRead(xs[1..], rest, TextMeans(xs[0], t).t);
    }
  }

  /** The number in front of a class, and the texts after it. */
  function ClassNumber(x: Class3): nat {
    match x
    case NewClass(_, isDynamic, keys) => 8 * |keys| + if isDynamic then 5 else 1
    case ClassRef(i) => 2 * i
  }

  function ClassTexts(x: Class3): seq<byte> {
    match x
    case NewClass(name, _, keys) => TextBytes(name) + TextsBytes(keys)
    case ClassRef(i) => []
  }

  lemma ClassBits(k: nat, isDynamic: bool)
    ensures var n := 8 * k + if isDynamic then 5 else 1;
            n % 2 == 1 && n / 2 % 2 == 0 && (n / 4 % 2 != 0 <==> isDynamic) && n / 8 == k
  {
    var d := if isDynamic then 1 else 0;
    var n := 8 * k + 4 * d + 1;
    Divides(n, 4 * k + 2 * d, 1, 2);
    Divides(4 * k + 2 * d, 2 * k + d, 0, 2);
    Divides(n, 2 * k + d, 1, 4);
    Divides(2 * k + d, k, d, 2);
    Divides(n, k, 4 * d + 1, 8);
  }

  lemma ClassHeaderRead(x: Class3, rest: seq<byte>, t: Tables)
    requires ClassMeans(x, t).Means?
    ensures DecodeRefInt(ClassBytes(x) + rest) == Some((false, ClassNumber(x), ClassTexts(x) + rest))
  {
    hide U29, DecodeRefInt, TextBytes, TextsBytes, TextMeans, TextsMean;
    var n, after := ClassNumber(x), ClassTexts(x);
    assert ClassBytes(x) + rest == U29(2 * n + 1) + (after + rest) by {
      Associates(U29(2 * n + 1), after, rest);
      assert x.ClassRef? ==> U29(2 * n + 1) + after == U29(2 * n + 1);
    }
    LengthRead(n, after + rest);
  }

  lemma ClassRead(x: Class3, rest: seq<byte>, t: Tables)
    requires ClassMeans(x, t).Means?
    ensures DecodeTrait3(ClassNumber(x), ClassTexts(x) + rest, t) == Read(ClassMeans(x, t), rest)
  {
    hide TextBytes, TextsBytes, TextMeans, TextsMean, DecodeString3, DecodeStrings3;
    match x
    case NewClass(name, isDynamic, keys) =>
      ClassBits(|keys|, isDynamic);
      Associates(TextBytes(name), TextsBytes(keys), rest);
      TextRead(name, TextsBytes(keys) + rest, t);
      TextsRead(keys, rest, TextMeans(name, t).t);
    case ClassRef(i) =>
      Divides(2 * i, i, 0, 2);
      assert ClassTexts(x) + rest == rest;
  }

  lemma BehindMarker(marker: byte, s: seq<byte>, rest: seq<byte>)
    ensures ([marker] + s + rest)[0] == marker && ([marker] + s + rest)[1..] == s + rest
  {
  }

  lemma Alone(marker: byte, rest: seq<byte>)
    ensures ([marker] + rest)[0] == marker && ([marker] + rest)[1..] == rest
  {
  }

  /** Every well-formed AMF3 value is read as what it means, and exactly its own bytes are taken. */
  lemma {:induction false} Understood3(w: Form3, rest: seq<byte>, t: Tables)
    requires Means3(w, t).Means?
    ensures Decode3(Bytes3(w) + rest, t) == Read(Means3(w, t), rest)
    decreases w, 2
  {
    match w
    case Array3(items) => ArrayRead(w, rest, t);
    case Object3(_, _, _, _, _) => ObjectRead(w, rest, t);
    case Ref3(_, _) => ReferenceRead(w, rest, t);
    case Str3(_) => TextLeafRead(w, rest, t);
    case Xml3(_, _) => TextLeafRead(w, rest, t);
    case Binary3(_) => TextLeafRead(w, rest, t);
    case Date3(_, _) => TextLeafRead(w, rest, t);
    case _ => ScalarRead(w, rest, t);
  }

  lemma ScalarRead(w: Form3, rest: seq<byte>, t: Tables)
    requires (w.Undefined3? || w.Null3? || w.Bool3? || w.Int3? || w.Number3?) && Means3(w, t).Means?
    ensures Decode3(Bytes3(w) + rest, t) == Read(Means3(w, t), rest)
  {
    hide U29, DecodeU29;
    Alone(Bytes3(w)[0], rest);
    match w
    case Int3(n) =>
      BehindMarker(4, U29(n), rest);
      U29Read(n, rest);
    case Number3(bits) =>
      BehindMarker(5, bits, rest);
      Ends(bits, rest);
    case _ =>
  }

  lemma TextLeafRead(w: Form3, rest: seq<byte>, t: Tables)
    requires (w.Str3? || w.Xml3? || w.Binary3? || w.Date3?) && Means3(w, t).Means?
    ensures Decode3(Bytes3(w) + rest, t) == Read(Means3(w, t), rest)
  {
    hide U29, DecodeRefInt, ReadOnce, TextBytes, DecodeString3, TextMeans;
    match w
    case Str3(x) =>
      BehindMarker(6, TextBytes(x), rest);
      TextRead(x, rest, t);
    case Xml3(isDocument, s) =>
      BehindMarker(if isDocument then 7 else 11, U29(2 * |s| + 1) + s, rest);
      NewTextRead(s, rest, t);
    case Binary3(data) =>
      BehindMarker(12, U29(2 * |data| + 1) + data, rest);
      NewTextRead(data, rest, t);
    case Date3(n, bits) =>
      BehindMarker(8, U29(2 * n + 1) + bits, rest);
      Associates(U29(2 * n + 1), bits, rest);
      LengthRead(n, bits + rest);
      Ends(bits, rest);
  }

  lemma U29Read(n: nat, rest: seq<byte>)
    requires n < 0x2000_0000
    ensures DecodeU29(U29(n) + rest) == Some((n, rest))
  {
    U29RoundTrip(n, rest);
  }

  lemma ReferenceRead(w: Form3, rest: seq<byte>, t: Tables)
    requires w.Ref3? && Means3(w, t).Means?
    ensures Decode3(Bytes3(w) + rest, t) == Read(Means3(w, t), rest)
  {
    hide U29, DecodeRefInt;
    BehindMarker(w.marker, U29(2 * w.n), rest);
    RefRead(w.n, rest);
  }

  lemma {:induction false} ArrayRead(w: Form3, rest: seq<byte>, t: Tables)
    requires w.Array3? && Means3(w, t).Means?
    ensures Decode3(Bytes3(w) + rest, t) == Read(Means3(w, t), rest)
    decreases w, 1
  {
    hide U29, DecodeRefInt, AllBytes3, AllMean3, DecodeString3, DecodeItems3;
    var n, body := |w.items|, AllBytes3(w.items);
    BehindMarker(9, U29(2 * n + 1) + ([1] + body), rest);
    Associates(U29(2 * n + 1), [1] + body, rest);
    Associates([1], body, rest);
    LengthRead(n, [1] + (body + rest));
    NoKey(body + rest, t);
    AllRead(w.items, rest, t);
  }

  /** An empty text is a one, and is not entered in the table. */
  lemma NoKey(rest: seq<byte>, t: Tables)
    ensures DecodeString3([1] + rest, t) == Ok([], rest, t)
  {
    hide DecodeU29;
    DecodeOne(1, rest);
    assert DecodeRefInt([1] + rest) == Some((false, 0, rest));
  }

  lemma {:induction false} AllRead(ws: seq<Form3>, rest: seq<byte>, t: Tables)
    requires AllMean3(ws, t).Means?
    ensures DecodeItems3(AllBytes3(ws) + rest, t, |ws|) == Read(AllMean3(ws, t), rest)
    decreases ws
  {
    hide Bytes3, Means3, Decode3;
    if ws == [] {
      assert AllBytes3(ws) + rest == rest;
    } else {
      Associates(Bytes3(ws[0]), AllBytes3(ws[1..]), rest);
      Understood3(ws[0], AllBytes3(ws[1..]) + rest, t);
      AllRead(ws[1..], rest, Means3(ws[0], t).t);
    }
  }

  lemma {:induction false} PairsRead(keys: seq<Text3>, more: seq<Form3>, rest: seq<byte>, t: Tables, m: map<Text, Value>)
    requires |keys| == |more| && PairsMean3(keys, more, t, m).Means?
    ensures DecodeDynamic3(PairsBytes3(keys, more) + rest, t, m) == Read(PairsMean3(keys, more, t, m), rest)
    decreases more
  {
    hide Bytes3, Means3, Decode3, TextBytes, TextMeans, DecodeString3;
    if keys == [] {
      NoKey(rest, t);
    } else {
      var later := PairsBytes3(keys[1..], more[1..]);
      Associates(TextBytes(keys[0]), Bytes3(more[0]) + later, rest);
      Associates(Bytes3(more[0]), later, rest);
      TextRead(keys[0], Bytes3(more[0]) + (later + rest), t);
      var k := TextMeans(keys[0], t);
      Understood3(more[0], later + rest, k.t);
      var v := Means3(more[0], k.t);
      PairsRead(keys[1..], more[1..], rest, v.t, m[k.v := v.v]);
    }
  }

  /** What follows the class of an object. */
  function FieldsBytes(w: Form3): seq<byte>
    requires w.Object3?
  {
    AllBytes3(w.vals) + if w.isDynamic then PairsBytes3(w.keys, w.more) else []
  }

  lemma {:induction false} FieldsRead(c: Trait, w: Form3, rest: seq<byte>, t: Tables)
    requires w.Object3? && FieldsMean3(c, w, t).Means?
    ensures DecodeFields3(c, FieldsBytes(w) + rest, t) == Read(FieldsMean3(c, w, t), rest)
    decreases w, 0
  {
    hide AllBytes3, PairsBytes3, AllMean3, PairsMean3, DecodeItems3, DecodeDynamic3;
    var a := AllMean3(w.vals, t);
    if w.isDynamic {
      var pairs := PairsBytes3(w.keys, w.more);
      Associates(AllBytes3(w.vals), pairs, rest);
      AllRead(w.vals, pairs + rest, t);
      PairsRead(w.keys, w.more, rest, a.t, Assign(map[], c.properties, a.v));
    } else {
      assert AllBytes3(w.vals) + [] == AllBytes3(w.vals);
      AllRead(w.vals, rest, t);
    }
  }

  lemma {:induction false} ObjectRead(w: Form3, rest: seq<byte>, t: Tables)
    requires w.Object3? && Means3(w, t).Means?
    ensures Decode3(Bytes3(w) + rest, t) == Read(Means3(w, t), rest)
    decreases w, 1
  {
    hide ClassBytes, ClassMeans, FieldsMean3, AllBytes3, PairsBytes3, DecodeRefInt, DecodeTrait3, DecodeFields3, ClassNumber, ClassTexts, DecodeObject3;
    var x, body := w.class_, FieldsBytes(w);
    BehindMarker(10, ClassBytes(x) + body, rest);
    Associates(ClassBytes(x), body, rest);
    ClassHeaderRead(x, body + rest, t);
    ClassRead(x, body + rest, t);
    Associates(ClassTexts(x), body, rest);
    ObjectByHeader(ClassBytes(x) + (body + rest), ClassNumber(x), ClassTexts(x) + (body + rest), t);
    var c := ClassMeans(x, t);
    FieldsRead(c.v, w, rest, Tables(c.t.strings, c.t.objects + [Null], c.t.traits));
  }

  // ---- AMF0 ----

  lemma Text0Read(s: Text, k: nat, rest: seq<byte>)
    requires |s| < Pow256(k)
    ensures DecodeText(BE(|s|, k) + s + rest, k) == Some((s, rest))
  {
    TextRoundTrip(s, k, rest);
  }

  /** Every well-formed AMF0 value is read as what it means, and exactly its own bytes are taken. */
  lemma {:induction false} Understood0(w: Form0, rest: seq<byte>, t: Tables)
    requires Means0(w, t).Means?
    ensures Decode0(Bytes0(w) + rest, t) == Read(Means0(w, t), rest)
    decreases w, 1
  {
    match w
    case Obj0(keys, vals) => Object0Read(w, rest, t);
    case Ecma0(_, keys, vals) => Object0Read(w, rest, t);
    case Typed0(_, keys, vals) => Object0Read(w, rest, t);
    case Strict0(items) => Array0Read(w, rest, t);
    case Switch0(x) =>
      hide Bytes3, Decode3, Means3;
      BehindMarker(17, Bytes3(x), rest);
      Understood3(x, rest, t);
    case Str0(_) => TextLeaf0Read(w, rest, t);
    case Long0(_) => TextLeaf0Read(w, rest, t);
    case Xml0(_) => TextLeaf0Read(w, rest, t);
    case Number0(_) => Double0Read(w, rest, t);
    case Date0(_, _) => Double0Read(w, rest, t);
    case _ => Scalar0Read(w, rest, t);
  }

  lemma Scalar0Read(w: Form0, rest: seq<byte>, t: Tables)
    requires w.Bool0? || w.Null0? || w.Undefined0? || w.Unsupported0?
    ensures Decode0(Bytes0(w) + rest, t) == Read(Means0(w, t), rest)
  {
    Alone(Bytes0(w)[0], rest);
    match w
    case Bool0(b) =>
      var x := Bytes0(w)[1];
      BehindMarker(1, [x], rest);
      Alone(x, rest);
    case _ =>
  }

  lemma Double0Read(w: Form0, rest: seq<byte>, t: Tables)
    requires (w.Number0? || w.Date0?) && Means0(w, t).Means?
    ensures Decode0(Bytes0(w) + rest, t) == Read(Means0(w, t), rest)
  {
    match w
    case Number0(bits) =>
      BehindMarker(0, bits, rest);
      Ends(bits, rest);
    case Date0(bits, zone) =>
      BehindMarker(11, bits + zone, rest);
      Associates(bits, zone, rest);
      Ends(bits, zone + rest);
      Ends(bits + zone, rest);
  }

  lemma TextLeaf0Read(w: Form0, rest: seq<byte>, t: Tables)
    requires (w.Str0? || w.Long0? || w.Xml0?) && Means0(w, t).Means?
    ensures Decode0(Bytes0(w) + rest, t) == Read(Means0(w, t), rest)
  {
    hide BE, Pow256, DecodeText;
    Pow256Values();
    match w
    case Str0(s) =>
      BehindMarker(2, BE(|s|, 2) + s, rest);
      Text0Read(s, 2, rest);
    case Long0(s) =>
      BehindMarker(12, BE(|s|, 4) + s, rest);
      Text0Read(s, 4, rest);
    case Xml0(s) =>
      BehindMarker(15, BE(|s|, 4) + s, rest);
      Text0Read(s, 4, rest);
  }

  lemma {:induction false} Object0Read(w: Form0, rest: seq<byte>, t: Tables)
    requires (w.Obj0? || w.Ecma0? || w.Typed0?) && Means0(w, t).Means?
    ensures Decode0(Bytes0(w) + rest, t) == Read(Means0(w, t), rest)
    decreases w, 0
  {
    hide BE, BEVal, Pow256, DecodeText, DecodeObject0, PairsBytes0, PairsMean0;
    Pow256Values();
    var pairs := PairsBytes0(w.keys, w.vals);
    Pairs0Read(w.keys, w.vals, rest, t, map[]);
    match w
    case Obj0(_, _) =>
      BehindMarker(3, pairs, rest);
    case Ecma0(count, _, _) =>
      BehindMarker(8, BE(count, 4) + pairs, rest);
      Associates(BE(count, 4), pairs, rest);
      Ends(BE(count, 4), pairs + rest);
    case Typed0(typ, _, _) =>
      BehindMarker(16, BE(|typ|, 2) + typ + pairs, rest);
      Associates(BE(|typ|, 2) + typ, pairs, rest);
      Text0Read(typ, 2, pairs + rest);
  }

  lemma {:induction false} Array0Read(w: Form0, rest: seq<byte>, t: Tables)
    requires w.Strict0? && Means0(w, t).Means?
    ensures Decode0(Bytes0(w) + rest, t) == Read(Means0(w, t), rest)
    decreases w, 0
  {
    hide BE, BEVal, Pow256, DecodeItems0, AllBytes0, AllMean0;
    Pow256Values();
    var n, body := |w.items|, AllBytes0(w.items);
    BehindMarker(10, BE(n, 4) + body, rest);
    Associates(BE(n, 4), body, rest);
    Ends(BE(n, 4), body + rest);
    BERoundTrip(n, 4);
    All0Read(w.items, rest, t);
  }

  lemma {:induction false} All0Read(ws: seq<Form0>, rest: seq<byte>, t: Tables)
    requires AllMean0(ws, t).Means?
    ensures DecodeItems0(AllBytes0(ws) + rest, t, |ws|) == Read(AllMean0(ws, t), rest)
    decreases ws
  {
    hide Bytes0, Means0, Decode0;
    if ws == [] {
      assert AllBytes0(ws) + rest == rest;
    } else {
      Associates(Bytes0(ws[0]), AllBytes0(ws[1..]), rest);
      Understood0(ws[0], AllBytes0(ws[1..]) + rest, t);
      All0Read(ws[1..], rest, Means0(ws[0], t).t);
    }
  }

  lemma {:induction false} Pairs0Read(keys: seq<Text>, vals: seq<Form0>, rest: seq<byte>, t: Tables, m: map<Text, Value>)
    requires PairsMean0(keys, vals, t, m).Means?
    ensures DecodeObject0(PairsBytes0(keys, vals) + rest, t, m) == Read(PairsMean0(keys, vals, t, m), rest)
    decreases vals
  {
    hide Bytes0, Means0, Decode0, BE, DecodeText, Pow256;
    Pow256Values();
    if keys == [] {
      Text0Read([], 2, [9] + rest);
      NoLength();
      assert [0, 0] + [] + ([9] + rest) == [0, 0, 9] + rest;
    } else {
      var k, later := keys[0], PairsBytes0(keys[1..], vals[1..]);
      Associates(BE(|k|, 2) + k, Bytes0(vals[0]) + later, rest);
      Associates(Bytes0(vals[0]), later, rest);
      Text0Read(k, 2, Bytes0(vals[0]) + (later + rest));
      Understood0(vals[0], later + rest, t);
      var v := Means0(vals[0], t);
      Pairs0Read(keys[1..], vals[1..], rest, v.t, m[k := v.v]);
    }
  }

  lemma NoLength()
    ensures BE(0, 2) == [0, 0]
  {
    assert BE(0, 1) == [0];
  }

  // ---- batches ----

  /** A batch is read value by value up to its end, whatever forms a peer chose. */
  lemma {:induction false} BatchUnderstood0(ws: seq<Form0>, t: Tables)
    requires AllMean0(ws, t).Means?
    ensures DecodeBatch(AllBytes0(ws), t, Amf0) == AllMean0(ws, t).v
    decreases |ws|
  {
    hide Bytes0, Means0;
    if ws != [] {
      Understood0(ws[0], AllBytes0(ws[1..]), t);
      BatchUnderstood0(ws[1..], Means0(ws[0], t).t);
    }
  }

  lemma {:induction false} BatchUnderstood3(ws: seq<Form3>, t: Tables)
    requires AllMean3(ws, t).Means?
    ensures DecodeBatch(AllBytes3(ws), t, Amf3) == AllMean3(ws, t).v
    decreases |ws|
  {
    hide Bytes3, Means3;
    if ws != [] {
      Understood3(ws[0], AllBytes3(ws[1..]), t);
      BatchUnderstood3(ws[1..], Means3(ws[0], t).t);
    }
  }

  // ---- what is refused ----

  /** AMF0 has no movie clips, references, record sets or markers above 17, and a boolean is 0 or 1. */
  lemma Refused0(s: seq<byte>, t: Tables)
    ensures s == [] ==> Decode0(s, t) == Error
    ensures s != [] && (s[0] == 4 || s[0] == 7 || s[0] == 9 || s[0] == 14 || s[0] > 17) ==> Decode0(s, t) == Error
    ensures |s| >= 2 && s[0] == 1 && s[1] > 1 ==> Decode0(s, t) == Error
  {
  }

  /** Of AMF3 the markers up to 12 are known. */
  lemma Refused3(s: seq<byte>, t: Tables)
    ensures s == [] ==> Decode3(s, t) == Error
    ensures s != [] && s[0] > 12 ==> Decode3(s, t) == Error
  {
  }

  /** A text reference beyond the table is an index out of range. */
  lemma TextRefBeyond(i: nat, rest: seq<byte>, t: Tables)
    requires |t.strings| <= i < 0x1000_0000
    ensures Decode3([6] + U29(2 * i) + rest, t) == Panic
  {
    hide U29, DecodeRefInt;
    BehindMarker(6, U29(2 * i), rest);
    RefRead(i, rest);
  }

  /** So is an object reference; to a value of another kind it is an error. */
  lemma RefBeyond(marker: byte, n: nat, rest: seq<byte>, t: Tables)
    requires marker in [7, 8, 9, 10, 11, 12] && n < 0x1000_0000
    ensures var i := if marker == 9 || marker == 10 then n / 2 else n;
            i >= |t.objects| || !MayRefer(marker, t.objects[i]) ==>
              Decode3([marker] + U29(2 * n) + rest, t) == if i >= |t.objects| then Panic else Error
  {
    hide U29, DecodeRefInt;
    BehindMarker(marker, U29(2 * n), rest);
    RefRead(n, rest);
  }

  // ---- the encoder ----

  /** The form in which the encoder writes a layout. */
  function FormOf0(l: Layout): Form0 {
    match l
    case LNull => Null0
    case LBool(b) => Bool0(b)
    case LNumber(bits) => Number0(bits)
    case LInt(_) => Null0
    case LStr(s) => if |s| <= 65535 then Str0(s) else Long0(s)
    case LArr(items) => Strict0(FormsOf0(items))
    case LObj(_, keys, vals) => Obj0(keys, FormsOf0(vals))
  }

  function FormsOf0(ls: seq<Layout>): (ws: seq<Form0>)
    ensures |ws| == |ls|
  {
    if ls == [] then [] else [FormOf0(ls[0])] + FormsOf0(ls[1..])
  }

  /** Numbers, booleans, null, strings, strict arrays and objects are what the AMF0 encoder writes. */
  lemma {:induction false} Writes0(l: Layout)
    requires Fits0(l)
    ensures Encode0(l) == Bytes0(FormOf0(l))
    decreases l
  {
    hide BE;
    match l
    case LArr(items) => AllWritten0(items);
    case LObj(_, keys, vals) => PairsWritten0(keys, vals);
    case _ =>
  }

  lemma {:induction false} AllWritten0(ls: seq<Layout>)
    requires Fit0(ls)
    ensures EncodeItems0(ls) == AllBytes0(FormsOf0(ls))
    decreases ls
  {
    hide Encode0, Bytes0, FormOf0;
    if ls != [] {
      Writes0(ls[0]);
      AllWritten0(ls[1..]);
    }
  }

  lemma {:induction false} PairsWritten0(keys: seq<Text>, vals: seq<Layout>)
    requires Fit0(vals)
    ensures EncodePairs0(keys, vals) == PairsBytes0(keys, FormsOf0(vals))
    decreases vals
  {
    hide Encode0, Bytes0, FormOf0, BE;
    if keys == [] || vals == [] {
      NoLength();
      assert EncodeText([], 2) + [9] == [0, 0, 9];
    } else {
      Writes0(vals[0]);
      PairsWritten0(keys[1..], vals[1..]);
    }
  }

  function NewTexts(ss: seq<Text>): (xs: seq<Text3>)
    ensures |xs| == |ss|
  {
    if ss == [] then [] else [NewText(ss[0])] + NewTexts(ss[1..])
  }

  function FormOf3(l: Layout): Form3 {
    match l
    case LNull => Null3
    case LBool(b) => Bool3(b)
    case LNumber(bits) => Number3(bits)
    case LInt(n) => Int3(n)
    case LStr(s) => Str3(NewText(s))
    case LArr(items) => Array3(FormsOf3(items))
    case LObj(typ, keys, vals) =>
      Object3(NewClass(NewText(typ), false, NewTexts(keys)), FormsOf3(vals), false, [], [])
  }

  function FormsOf3(ls: seq<Layout>): (ws: seq<Form3>)
    ensures |ws| == |ls|
  {
    if ls == [] then [] else [FormOf3(ls[0])] + FormsOf3(ls[1..])
  }

  lemma {:induction false} TextsWritten(ss: seq<Text>)
    requires TextsFit(ss, 0x1000_0000)
    ensures EncodeUtf8s(ss) == TextsBytes(NewTexts(ss))
  {
    hide EncodeU29;
    if ss != [] {
      TextsWritten(ss[1..]);
    }
  }

  /** The AMF3 encoder never refers back, and gives every object a class of its own that is not dynamic. */
  lemma {:induction false} Writes3(l: Layout)
    requires Fits3(l)
    ensures Encode3(l) == Bytes3(FormOf3(l))
    decreases l
  {
    hide EncodeU29, TextsBytes, EncodeUtf8s, AllBytes3, EncodeItems3, NewTexts, FormsOf3;
    match l
    case LArr(items) =>
      AllWritten3(items);
      EmptyUtf8();
    case LObj(typ, keys, vals) =>
      AllWritten3(vals);
      TextsWritten(keys);
      ObjectWritten(l);
    case _ =>
  }

  lemma EmptyUtf8()
    ensures EncodeUtf8([]) == [1]
  {
    assert EncodeU29(1) == [1];
  }

  lemma ObjectWritten(l: Layout)
    requires Fits3(l) && l.LObj?
    requires EncodeUtf8s(l.keys) == TextsBytes(NewTexts(l.keys)) && EncodeItems3(l.vals) == AllBytes3(FormsOf3(l.vals))
    ensures Encode3(l) == Bytes3(FormOf3(l))
  {
    hide EncodeU29, TextsBytes, EncodeUtf8s, AllBytes3, EncodeItems3, NewTexts, FormsOf3;
    var u, typ, keys, vals := EncodeU29(16 * |l.keys| + 3), EncodeUtf8(l.typ), EncodeUtf8s(l.keys), EncodeItems3(l.vals);
    assert vals + [] == vals;
    Associates(u, typ + keys, vals);
    Associates(typ, keys, vals);
  }

  lemma {:induction false} AllWritten3(ls: seq<Layout>)
    requires Fit3(ls)
    ensures EncodeItems3(ls) == AllBytes3(FormsOf3(ls))
    decreases ls
  {
    hide Encode3, Bytes3, FormOf3;
    if ls != [] {
      Writes3(ls[0]);
      AllWritten3(ls[1..]);
    }
  }
}
