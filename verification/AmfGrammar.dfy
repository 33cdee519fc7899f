/** The two AMF formats as any peer may write them, references and every marker included, and what the bytes mean. */
module AmfGrammar {
  import opened Bytes
  import opened AmfFormat
  import opened AmfRoundTrip

  // ---- AMF3 as written ----

  /** A text is written out, or refers to an earlier one. */
  datatype Text3 = NewText(s: Text) | TextRef(i: nat)

  datatype Class3 = NewClass(name: Text3, isDynamic: bool, keys: seq<Text3>) | ClassRef(i: nat)

  datatype Form3 =
    | Undefined3
    | Null3
    | Bool3(b: bool)
    | Int3(n: nat)
    | Number3(bits: seq<byte>)
    | Str3(x: Text3)
    | Xml3(isDocument: bool, s: Text)
    | Date3(n: nat, bits: seq<byte>)
    | Array3(items: seq<Form3>)
    | Object3(class_: Class3, vals: seq<Form3>, isDynamic: bool, keys: seq<Text3>, more: seq<Form3>)
    | Binary3(data: seq<byte>)
    | Ref3(marker: byte, n: nat)

  function U29(n: nat): seq<byte> {
    if n <= 0x1FFF_FFFF then EncodeU29(n) else []
  }

  function TextBytes(x: Text3): seq<byte> {
    match x
    case NewText(s) => U29(2 * |s| + 1) + s
    case TextRef(i) => U29(2 * i)
  }

  function TextsBytes(xs: seq<Text3>): seq<byte> {
    if xs == [] then [] else TextBytes(xs[0]) + TextsBytes(xs[1..])
  }

  function ClassBytes(x: Class3): seq<byte> {
    match x
    case NewClass(name, isDynamic, keys) =>
      U29(16 * |keys| + if isDynamic then 11 else 3) + (TextBytes(name) + TextsBytes(keys))
    case ClassRef(i) => U29(4 * i + 1)
  }

  function Bytes3(w: Form3): seq<byte> {
    match w
    case Undefined3 => [0]
    case Null3 => [1]
    case Bool3(b) => [if b then 3 else 2]
    case Int3(n) => [4] + U29(n)
    case Number3(bits) => [5] + bits
    case Str3(x) => [6] + TextBytes(x)
    case Xml3(isDocument, s) => [if isDocument then 7 else 11] + (U29(2 * |s| + 1) + s)
    case Date3(n, bits) => [8] + (U29(2 * n + 1) + bits)
    case Array3(items) => [9] + (U29(2 * |items| + 1) + ([1] + AllBytes3(items)))
    case Object3(class_, vals, isDynamic, keys, more) =>
      [10] + (ClassBytes(class_) + (AllBytes3(vals) + if isDynamic then PairsBytes3(keys, more) else []))
    case Binary3(data) => [12] + (U29(2 * |data| + 1) + data)
    case Ref3(marker, n) => [marker] + U29(2 * n)
  }

  function AllBytes3(ws: seq<Form3>): seq<byte> {
    if ws == [] then [] else Bytes3(ws[0]) + AllBytes3(ws[1..])
  }

  /** Pairs, and the empty text that ends them. */
  function PairsBytes3(keys: seq<Text3>, more: seq<Form3>): seq<byte>
    decreases more
  {
    if keys == [] || more == [] then [1]
    else TextBytes(keys[0]) + (Bytes3(more[0]) + PairsBytes3(keys[1..], more[1..]))
  }

  // ---- what it means ----

  /** A meaning and the reference tables after it, or none: a reference outside its table, a length out of range. */
  datatype Meaning<+T> = Means(v: T, t: Tables) | NoMeaning {
    predicate IsFailure() {
      NoMeaning?
    }

    function PropagateFailure<U>(): Meaning<U>
      requires NoMeaning?
    {
      NoMeaning
    }

    function Extract(): (T, Tables)
      requires Means?
    {
      (v, t)
    }
  }

  function TextMeans(x: Text3, t: Tables): Meaning<Text> {
    match x
    case NewText(s) =>
      if |s| >= 0x1000_0000 then NoMeaning
      else Means(s, if s == [] then t else Tables(t.strings + [s], t.objects, t.traits))
    case TextRef(i) => if i < |t.strings| && i < 0x1000_0000 then Means(t.strings[i], t) else NoMeaning
  }

  function TextsMean(xs: seq<Text3>, t: Tables): (r: Meaning<seq<Text>>)
    ensures r.Means? ==> |r.v| == |xs|
  {
    if xs == [] then Means([], t)
    else
      var (s, t1) :- TextMeans(xs[0], t);
      var (ss, t2) :- TextsMean(xs[1..], t1);
      Means([s] + ss, t2)
  }

  function ClassMeans(x: Class3, t: Tables): Meaning<Trait> {
    match x
    case NewClass(name, isDynamic, keys) =>
      if |keys| >= 0x200_0000 then NoMeaning
      else
        var (typ, t1) :- TextMeans(name, t);
        var (ss, t2) :- TextsMean(keys, t1);
        var class_ := Trait(typ, false, isDynamic, ss);
        Means(class_, Tables(t2.strings, t2.objects, t2.traits + [class_]))
    case ClassRef(i) => if i < |t.traits| && i < 0x800_0000 then Means(t.traits[i], t) else NoMeaning
  }

  function Entered(v: Value, t: Tables): Meaning<Value> {
    Means(v, Tables(t.strings, t.objects + [v], t.traits))
  }

  /** The values that a reference behind a marker may denote. */
  predicate MayRefer(marker: byte, v: Value) {
    ((marker == 7 || marker == 11) && v.Str?) || (marker == 8 && v.Date?) || (marker == 9 && v.Arr?) ||
    marker == 10 || (marker == 12 && v.Binary?)
  }

  /** The place in the table: the number itself, but half of it for arrays and objects. */
  function RefIndex(marker: byte, n: nat): nat {
    if marker == 9 || marker == 10 then n / 2 else n
  }

  function Means3(w: Form3, t: Tables): Meaning<Value>
    decreases w, 1
  {
    match w
    case Undefined3 => Means(Null, t)
    case Null3 => Means(Null, t)
    case Bool3(b) => Means(Bool(b), t)
    case Int3(n) =>
      if n >= 0x2000_0000 then NoMeaning else Means(Int(if n < 0x1000_0000 then n else n - 0x2000_0000), t)
    case Number3(bits) => if |bits| == 8 then Means(Number(bits), t) else NoMeaning
    case Str3(x) =>
      var (s, t1) :- TextMeans(x, t);
      Means(Str(s), t1)
    case Xml3(_, s) => if |s| >= 0x1000_0000 then NoMeaning else if s == [] then Means(Str(s), t) else Entered(Str(s), t)
    case Date3(n, bits) => if n >= 0x1000_0000 || |bits| != 8 then NoMeaning else Entered(Date(bits), t)
    case Array3(items) =>
      if |items| >= 0x1000_0000 then NoMeaning
      else
        var (vs, t1) :- AllMean3(items, t);
        Entered(Arr(vs), t1)
    case Object3(class_, _, _, _, _) =>
      var (c, t1) :- ClassMeans(class_, t);
      if c.externalizable then NoMeaning else FieldsMean3(c, w, Tables(t1.strings, t1.objects + [Null], t1.traits))
    case Binary3(data) => if |data| >= 0x1000_0000 then NoMeaning else Entered(Binary(data), t)
    case Ref3(marker, n) =>
      var i := RefIndex(marker, n);
      if i < |t.objects| && n < 0x1000_0000 && MayRefer(marker, t.objects[i]) then Means(t.objects[i], t) else NoMeaning
  }

  /** The properties of the class, then the pairs of a dynamic one. */
  function FieldsMean3(c: Trait, w: Form3, t: Tables): Meaning<Value>
    requires w.Object3?
    decreases w, 0
  {
    if w.isDynamic != c.isDynamic || |w.vals| != |c.properties| || |w.keys| != |w.more| then NoMeaning
    else
      var (vs, t1) :- AllMean3(w.vals, t);
      var m := Assign(map[], c.properties, vs);
      if !w.isDynamic then Means(Obj(m), t1)
      else
        var (m1, t2) :- PairsMean3(w.keys, w.more, t1, m);
        Means(Obj(m1), t2)
  }

  function AllMean3(ws: seq<Form3>, t: Tables): (r: Meaning<seq<Value>>)
    ensures r.Means? ==> |r.v| == |ws|
    decreases ws
  {
    if ws == [] then Means([], t)
    else
      var (v, t1) :- Means3(ws[0], t);
      var (vs, t2) :- AllMean3(ws[1..], t1);
      Means([v] + vs, t2)
  }

  function PairsMean3(keys: seq<Text3>, more: seq<Form3>, t: Tables, m: map<Text, Value>): Meaning<map<Text, Value>>
    requires |keys| == |more|
    decreases more
  {
    if keys == [] then Means(m, t)
    else
      var (k, t1) :- TextMeans(keys[0], t);
      if k == [] then NoMeaning
      else
        var (v, t2) :- Means3(more[0], t1);
        PairsMean3(keys[1..], more[1..], t2, m[k := v])
  }

  // ---- AMF0 as written ----

  datatype Form0 =
    | Number0(bits: seq<byte>)
    | Bool0(b: bool)
    | Str0(s: Text)
    | Obj0(keys: seq<Text>, vals: seq<Form0>)
    | Null0
    | Undefined0
    | Ecma0(count: nat, keys: seq<Text>, vals: seq<Form0>)
    | Strict0(items: seq<Form0>)
    | Date0(bits: seq<byte>, zone: seq<byte>)
    | Long0(s: Text)
    | Unsupported0
    | Xml0(s: Text)
    | Typed0(typ: Text, keys: seq<Text>, vals: seq<Form0>)
    | Switch0(w: Form3)

  function Bytes0(w: Form0): seq<byte> {
    match w
    case Number0(bits) => [0] + bits
    case Bool0(b) => [1, if b then 1 else 0]
    case Str0(s) => [2] + (BE(|s|, 2) + s)
    case Obj0(keys, vals) => [3] + PairsBytes0(keys, vals)
    case Null0 => [5]
    case Undefined0 => [6]
    case Ecma0(count, keys, vals) => [8] + (BE(count, 4) + PairsBytes0(keys, vals))
    case Strict0(items) => [10] + (BE(|items|, 4) + AllBytes0(items))
    case Date0(bits, zone) => [11] + (bits + zone)
    case Long0(s) => [12] + (BE(|s|, 4) + s)
    case Unsupported0 => [13]
    case Xml0(s) => [15] + (BE(|s|, 4) + s)
    case Typed0(typ, keys, vals) => [16] + ((BE(|typ|, 2) + typ) + PairsBytes0(keys, vals))
    case Switch0(w) => [17] + Bytes3(w)
  }

  function AllBytes0(ws: seq<Form0>): seq<byte> {
    if ws == [] then [] else Bytes0(ws[0]) + AllBytes0(ws[1..])
  }

  /** Pairs, and the empty key and the end marker after them. */
  function PairsBytes0(keys: seq<Text>, vals: seq<Form0>): seq<byte>
    decreases vals
  {
    if keys == [] || vals == [] then [0, 0, 9]
    else (BE(|keys[0]|, 2) + keys[0]) + (Bytes0(vals[0]) + PairsBytes0(keys[1..], vals[1..]))
  }

  function Means0(w: Form0, t: Tables): Meaning<Value> {
    match w
    case Number0(bits) => if |bits| == 8 then Means(Number(bits), t) else NoMeaning
    case Bool0(b) => Means(Bool(b), t)
    case Str0(s) => if |s| < 0x1_0000 then Means(Str(s), t) else NoMeaning
    case Obj0(keys, vals) =>
      var (m, t1) :- PairsMean0(keys, vals, t, map[]);
      Means(Obj(m), t1)
    case Null0 => Means(Null, t)
    case Undefined0 => Means(Null, t)
    case Ecma0(_, keys, vals) =>
      var (m, t1) :- PairsMean0(keys, vals, t, map[]);
      Means(Obj(m), t1)
    case Strict0(items) =>
      if |items| >= 0x1_0000_0000 then NoMeaning
      else
        var (vs, t1) :- AllMean0(items, t);
        Means(Arr(vs), t1)
    case Date0(bits, zone) => if |bits| == 8 && |zone| == 2 then Means(Number(bits), t) else NoMeaning
    case Long0(s) => if |s| < 0x1_0000_0000 then Means(Str(s), t) else NoMeaning
    case Unsupported0 => Means(Null, t)
    case Xml0(s) => if |s| < 0x1_0000_0000 then Means(Str(s), t) else NoMeaning
    case Typed0(typ, keys, vals) =>
      if |typ| >= 0x1_0000 then NoMeaning
      else
        var (m, t1) :- PairsMean0(keys, vals, t, map[]);
        Means(Typed(typ, m), t1)
    case Switch0(w) => Means3(w, t)
  }

  function AllMean0(ws: seq<Form0>, t: Tables): (r: Meaning<seq<Value>>)
    ensures r.Means? ==> |r.v| == |ws|
  {
    if ws == [] then Means([], t)
    else
      var (v, t1) :- Means0(ws[0], t);
      var (vs, t2) :- AllMean0(ws[1..], t1);
      Means([v] + vs, t2)
  }

  function PairsMean0(keys: seq<Text>, vals: seq<Form0>, t: Tables, m: map<Text, Value>): Meaning<map<Text, Value>>
    decreases vals
  {
    if |keys| != |vals| then NoMeaning
    else if keys == [] then Means(m, t)
    else if keys[0] == [] || |keys[0]| >= 0x1_0000 then NoMeaning
    else
      var (v, t1) :- Means0(vals[0], t);
      PairsMean0(keys[1..], vals[1..], t1, m[keys[0] := v])
  }
}
