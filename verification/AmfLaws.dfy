/** The laws of the codecs, for values: what encoding and then decoding gives, for every order of map entries. */
module AmfLaws {
  import opened Bytes
  import opened AmfFormat
  import opened AmfRoundTrip
  import opened AmfEncoding
  import opened AmfLengths

  /** No object anywhere has an empty key. */
  predicate NoEmptyKey(v: Value) {
    match v
    case Arr(items) => forall i :: 0 <= i < |items| ==> NoEmptyKey(items[i])
    case Obj(m) => [] !in m && forall k :: k in m ==> NoEmptyKey(m[k])
    case _ => true
  }

  /** No integer anywhere needs more than 28 bits. */
  predicate SmallIntegers(v: Value) {
    match v
    case Int(n) => n <= 0xFFF_FFFF
    case Arr(items) => forall i :: 0 <= i < |items| ==> SmallIntegers(items[i])
    case Obj(m) => forall k :: k in m ==> SmallIntegers(m[k])
    case Typed(_, m) => forall k :: k in m ==> SmallIntegers(m[k])
    case _ => true
  }

  // ---- what holds of all elements holds of the list, and conversely ----

  lemma {:induction false} Fit0Each(ls: seq<Layout>)
    ensures Fit0(ls) <==> forall i :: 0 <= i < |ls| ==> Fits0(ls[i])
    ensures AllKeyed(ls) <==> forall i :: 0 <= i < |ls| ==> Keyed(ls[i])
    decreases |ls|
  {
    if ls != [] {
      Fit0Each(ls[1..]);
      assert forall i :: 0 < i < |ls| ==> ls[i] == ls[1..][i - 1];
      assert forall i :: 0 <= i < |ls| - 1 ==> ls[1..][i] == ls[i + 1];
    }
  }

  lemma {:induction false} Fit3Each(ls: seq<Layout>)
    ensures Fit3(ls) <==> forall i :: 0 <= i < |ls| ==> Fits3(ls[i])
    ensures AllSmallInts(ls) <==> forall i :: 0 <= i < |ls| ==> SmallInts(ls[i])
    ensures AllDistinct(ls) <==> forall i :: 0 <= i < |ls| ==> Distinct(ls[i])
    decreases |ls|
  {
    if ls != [] {
      Fit3Each(ls[1..]);
      assert forall i :: 0 < i < |ls| ==> ls[i] == ls[1..][i - 1];
      assert forall i :: 0 <= i < |ls| - 1 ==> ls[1..][i] == ls[i + 1];
    }
  }

  lemma CoversKeys(m: map<Text, Value>, keys: seq<Text>)
    requires Elements(keys) == m.Keys
    ensures forall k :: k in m ==> k in keys
    ensures forall k :: k in keys ==> k in m
  {
    assert forall k :: k in m ==> k in Elements(keys);
    assert forall k :: k in keys ==> k in Elements(keys);
  }

  lemma {:induction false} LayoutOf0(v: Value, l: Layout)
    requires Lays(v, l) && Supported0(v) && Untyped(v) && Short0(v)
    ensures Fits0(l) && (Keyed(l) <==> NoEmptyKey(v))
    decreases l.Size()
  {
    if v.Arr? {
      forall i | 0 <= i < |v.items|
        ensures Fits0(l.items[i]) && (Keyed(l.items[i]) <==> NoEmptyKey(v.items[i]))
      {
        SizeAt(l.items, i);
        LayoutOf0(v.items[i], l.items[i]);
      }
      Fit0Each(l.items);
    } else if v.Obj? {
      CoversKeys(v.props, l.keys);
      forall i | 0 <= i < |l.keys|
        ensures Fits0(l.vals[i]) && (Keyed(l.vals[i]) <==> NoEmptyKey(v.props[l.keys[i]]))
      {
        SizeAt(l.vals, i);
        LayoutOf0(v.props[l.keys[i]], l.vals[i]);
      }
      Fit0Each(l.vals);
    }
  }

  lemma {:induction false} LayoutOf3(v: Value, l: Layout)
    requires Lays(v, l) && Supported3(v) && Sized3(v)
    ensures Fits3(l) && Distinct(l) && (SmallInts(l) <==> SmallIntegers(v))
    decreases l.Size()
  {
    if v.Arr? {
      forall i | 0 <= i < |v.items|
        ensures Fits3(l.items[i]) && Distinct(l.items[i]) && (SmallInts(l.items[i]) <==> SmallIntegers(v.items[i]))
      {
        SizeAt(l.items, i);
        LayoutOf3(v.items[i], l.items[i]);
      }
      Fit3Each(l.items);
    } else if v.Obj? || v.Typed? {
      CoversKeys(v.props, l.keys);
      KeyCount(v.props, l.keys);
      forall i | 0 <= i < |l.keys|
        ensures Fits3(l.vals[i]) && Distinct(l.vals[i]) && (SmallInts(l.vals[i]) <==> SmallIntegers(v.props[l.keys[i]]))
      {
        SizeAt(l.vals, i);
        LayoutOf3(v.props[l.keys[i]], l.vals[i]);
      }
      Fit3Each(l.vals);
    }
  }

  lemma {:induction false} NoRepeatSize(keys: seq<Text>)
    requires NoRepeat(keys)
    ensures |Elements(keys)| == |keys|
    decreases |keys|
  {
    if keys != [] {
      assert keys == [keys[0]] + keys[1..];
      assert Elements(keys) == Elements(keys[1..]) + {keys[0]};
      NoRepeatSize(keys[1..]);
    }
  }

  lemma KeyCount(m: map<Text, Value>, keys: seq<Text>)
    requires NoRepeat(keys) && Elements(keys) == m.Keys
    ensures |keys| == |m.Keys|
  {
    NoRepeatSize(keys);
  }

  /** Which values the AMF0 law speaks of, kind by kind: all but integers, dates and byte arrays. */
  lemma KindsTaken0(items: seq<Value>, m: map<Text, Value>, typ: Text, s: Text, bits: seq<byte>, b: bool)
    requires |bits| == 8
    ensures forall v :: v in {Null, Bool(b), Number(bits), Str(s)} ==> Supported0(v) && Untyped(v)
    ensures Supported0(Arr(items)) <==> forall v :: v in items ==> Supported0(v)
    ensures Supported0(Obj(m)) <==> forall k :: k in m ==> Supported0(m[k])
    ensures Supported0(Typed(typ, m)) && !Untyped(Typed(typ, m))
  {
    assert forall i :: 0 <= i < |items| ==> items[i] in items;
  }

  /** And the AMF3 law: all but dates, byte arrays and integers beyond 29 bits, with lengths that fit a U29. */
  lemma KindsTaken3(items: seq<Value>, m: map<Text, Value>, typ: Text, s: Text, bits: seq<byte>, b: bool, n: int)
    requires |bits| == 8
    ensures forall v :: v in {Null, Bool(b), Number(bits)} ==> Supported3(v) && Sized3(v)
    ensures Supported3(Str(s)) && (Sized3(Str(s)) <==> |s| <= 0xFFF_FFFF)
    ensures (Supported3(Int(n)) <==> 0 <= n <= 0x1FFF_FFFF) && Sized3(Int(n))
    ensures Supported3(Arr(items)) <==> forall v :: v in items ==> Supported3(v)
    ensures Sized3(Arr(items)) <==> |items| <= 0xFFF_FFFF && forall v :: v in items ==> Sized3(v)
    ensures Supported3(Obj(m)) <==> forall k :: k in m ==> Supported3(m[k])
    ensures Sized3(Obj(m)) <==> |m.Keys| <= 0x1FF_FFFF && forall k :: k in m ==> |k| <= 0xFFF_FFFF && Sized3(m[k])
    ensures Supported3(Typed(typ, m)) <==> Supported3(Obj(m))
    ensures Sized3(Typed(typ, m)) <==> |typ| <= 0xFFF_FFFF && Sized3(Obj(m))
  {
    assert forall i :: 0 <= i < |items| ==> items[i] in items;
  }

  /**
   The AMF0 law. Whatever order the map entries are written in, decoding gives the value back and leaves
   exactly what follows, if and only if no object has an empty key and no length exceeds its field (the
   encoder then writes the length's low-order bytes). Only for such lengths does it matter that the
   reference tables hold nothing that AMF0 could not carry.
   */
  lemma Amf0Law(v: Value, l: Layout, rest: seq<byte>, t: Tables)
    requires Lays(v, l) && Supported0(v) && Untyped(v)
    ensures Short0(v) ==> (Decode0(Encode0(l) + rest, t) == Ok(v, rest, t) <==> NoEmptyKey(v))
    ensures Short0(v) && !NoEmptyKey(v) ==> Decode0(Encode0(l) + rest, t) == Error
    ensures ShortTables(t) ==> (Decode0(Encode0(l) + rest, t) == Ok(v, rest, t) <==> NoEmptyKey(v) && Short0(v))
  {
    hide Lays, Supported0, Untyped, Short0, NoEmptyKey, Decode0, Encode0, Erased, ShortTables;
    if Short0(v) {
      LayoutOf0(v, l);
      LayoutMeansValue(v, l);
      ErasedIsSame(v);
      RoundTrip0(l, rest, t);
    } else {
      DecodesShort0(Encode0(l) + rest, t);
    }
  }

  /**
   The AMF3 law. Whatever the reference tables hold, decoding leaves exactly what follows and gives the
   value back, without the class names of its objects at any depth, if and only if no integer needs more
   than 28 bits; so it gives the value itself if and only if there are no class names either.
   */
  lemma Amf3Law(v: Value, l: Layout, rest: seq<byte>, t: Tables)
    requires Lays(v, l) && Supported3(v) && Sized3(v)
    ensures Fits3(l)
    ensures (exists t1 :: Decode3(Encode3(l) + rest, t) == Ok(Erased(v), rest, t1)) <==> SmallIntegers(v)
    ensures (exists t1 :: Decode3(Encode3(l) + rest, t) == Ok(v, rest, t1)) <==> SmallIntegers(v) && Untyped(v)
    ensures Decode3(Encode3(l) + rest, t).Ok? && Decode3(Encode3(l) + rest, t).rest == rest
  {
    hide Lays, Supported3, Sized3, SmallIntegers, Untyped, Erased, Decode3, Encode3;
    LayoutOf3(v, l);
    LayoutMeansValue(v, l);
    ErasedIsSame(v);
    ArrivesUntyped(l);
    ArrivesUnchanged(l);
    var t1 := RoundTrip3(l, rest, t);
    assert SmallIntegers(v) ==> Decode3(Encode3(l) + rest, t) == Ok(Erased(v), rest, t1);
  }

  /** No typed object ever arrives. */
  lemma {:induction false} ArrivesUntyped(l: Layout)
    ensures Untyped(Arriving3(l))
    decreases l.Size()
  {
    match l
    case LArr(items) => AllArriveUntyped(items);
    case LObj(_, keys, vals) =>
      AllArriveUntyped(vals);
      if |keys| == |vals| {
        AssignUntyped(map[], keys, AllArriving3(vals));
      }
    case _ =>
  }

  lemma {:induction false} AllArriveUntyped(ls: seq<Layout>)
    ensures forall i :: 0 <= i < |ls| ==> Untyped(AllArriving3(ls)[i])
    decreases SizeAll(ls)
  {
    if ls != [] {
      ArrivesUntyped(ls[0]);
      AllArriveUntyped(ls[1..]);
    }
  }

  lemma {:induction false} AssignUntyped(m: map<Text, Value>, keys: seq<Text>, vals: seq<Value>)
    requires |keys| == |vals| && (forall k :: k in m ==> Untyped(m[k]))
    requires forall i :: 0 <= i < |vals| ==> Untyped(vals[i])
    ensures forall k :: k in Assign(m, keys, vals) ==> Untyped(Assign(m, keys, vals)[k])
    decreases |keys|
  {
    if keys != [] {
      AssignUntyped(m[keys[0] := vals[0]], keys[1..], vals[1..]);
    }
  }

  /** A typed object arrives as its properties alone, and so do those nested in it. */
  lemma TypedObjectLosesName(typ: Text, m: map<Text, Value>, l: Layout, rest: seq<byte>, t: Tables)
    requires Lays(Typed(typ, m), l) && Supported3(Typed(typ, m)) && Sized3(Typed(typ, m)) && SmallIntegers(Typed(typ, m))
    ensures Fits3(l)
    ensures var r := Decode3(Encode3(l) + rest, t);
            r.Ok? && r.v == Obj(map k | k in m :: Erased(m[k])) && r.rest == rest
  {
    hide Lays, Supported3, Sized3, SmallIntegers, Untyped, Decode3, Encode3, Fits3;
    Amf3Law(Typed(typ, m), l, rest, t);
    assert Erased(Typed(typ, m)) == Obj(map k | k in m :: Erased(m[k]));
  }

  function AllErased(vals: seq<Value>): (es: seq<Value>)
    ensures |es| == |vals|
  {
    if vals == [] then [] else [Erased(vals[0])] + AllErased(vals[1..])
  }

  lemma {:induction false} ValuesLaid(vals: seq<Value>, ls: seq<Layout>)
    requires |vals| == |ls| && forall i :: 0 <= i < |vals| ==> Lays(vals[i], ls[i])
    ensures ValuesOf(ls) == AllErased(vals)
    ensures AllErased(vals) == vals <==> forall i :: 0 <= i < |vals| ==> Untyped(vals[i])
    decreases |ls|
  {
    hide Lays, Untyped, ValueOf, Erased;
    if ls != [] {
      LayoutMeansValue(vals[0], ls[0]);
      ErasedIsSame(vals[0]);
      ValuesLaid(vals[1..], ls[1..]);
      assert vals == [vals[0]] + vals[1..];
      assert AllErased(vals)[0] == Erased(vals[0]) && AllErased(vals)[1..] == AllErased(vals[1..]);
      assert forall i :: 0 < i < |vals| ==> vals[i] == vals[1..][i - 1];
    }
  }

  predicate AllUntyped0(vals: seq<Value>) {
    forall i :: 0 <= i < |vals| ==> Supported0(vals[i]) && Untyped(vals[i])
  }

  predicate AllShort0(vals: seq<Value>) {
    forall i :: 0 <= i < |vals| ==> Short0(vals[i])
  }

  predicate AllNoEmptyKey(vals: seq<Value>) {
    forall i :: 0 <= i < |vals| ==> NoEmptyKey(vals[i])
  }

  lemma FirstAndRest(vals: seq<Value>)
    requires vals != []
    ensures vals == [vals[0]] + vals[1..]
    ensures AllUntyped0(vals) <==> Supported0(vals[0]) && Untyped(vals[0]) && AllUntyped0(vals[1..])
    ensures AllShort0(vals) <==> Short0(vals[0]) && AllShort0(vals[1..])
    ensures AllNoEmptyKey(vals) <==> NoEmptyKey(vals[0]) && AllNoEmptyKey(vals[1..])
  {
    hide Supported0, Untyped, Short0, NoEmptyKey;
    assert forall i :: 0 < i < |vals| ==> vals[i] == vals[1..][i - 1];
  }

  lemma {:induction false} BatchGrows(s: seq<byte>, t: Tables)
    ensures Grows(t, TablesAfter(s, t, Amf0))
    decreases |s|
  {
    hide Decode0, Grows;
    GrowsNot(t);
    DecodesShort0(s, t);
    var r := Decode0(s, t);
    if r.Ok? {
      BatchGrows(r.rest, r.t);
      GrowsOn(t, r.t, TablesAfter(r.rest, r.t, Amf0));
    }
  }

  /**
   Decoding a batch stops at the end of what was encoded and gives all values back, if and only if none has
   an empty key or a length beyond its field. A value with such a length can come back only if AMF3 inside
   its bytes extends the reference tables, which AMF0 never does; so the tables are part of the statement.
   */
  lemma {:induction false} BatchLaw0(vals: seq<Value>, ls: seq<Layout>, t: Tables)
    requires |vals| == |ls| && forall i :: 0 <= i < |vals| ==> Lays(vals[i], ls[i])
    requires AllUntyped0(vals)
    ensures AllShort0(vals) ==> (DecodeBatch(BatchBytes(ls, Amf0), t, Amf0) == vals <==> AllNoEmptyKey(vals))
    ensures AllShort0(vals) && AllNoEmptyKey(vals) ==> TablesAfter(BatchBytes(ls, Amf0), t, Amf0) == t
    ensures ShortTables(t) ==>
              (DecodeBatch(BatchBytes(ls, Amf0), t, Amf0) == vals && TablesAfter(BatchBytes(ls, Amf0), t, Amf0) == t
               <==> AllNoEmptyKey(vals) && AllShort0(vals))
    decreases |ls|
  {
    hide Lays, Untyped, Supported0, Short0, NoEmptyKey, Encode0, Decode0, ShortTables, Grows;
    hide AllUntyped0, AllShort0, AllNoEmptyKey;
    if ls == [] {
      EmptyBatch(t);
    } else {
      var s, rest := EncodeItems0(ls), EncodeItems0(ls[1..]);
      FirstAndRest(vals);
      Amf0Law(vals[0], ls[0], rest, t);
      BatchLaw0(vals[1..], ls[1..], t);
      DecodesShort0(s, t);
      var r := Decode0(s, t);
      if r.Ok? {
        BatchGrows(r.rest, r.t);
        GrowsOn(t, r.t, TablesAfter(r.rest, r.t, Amf0));
      }
    }
  }

  lemma EmptyBatch(t: Tables)
    ensures DecodeBatch([], t, Amf0) == [] && TablesAfter([], t, Amf0) == t
    ensures AllShort0([]) && AllNoEmptyKey([])
  {
  }

  /** The same in AMF3, without class names, if and only if all integers have at most 28 bits. */
  lemma BatchLaw3(vals: seq<Value>, ls: seq<Layout>, t: Tables)
    requires |vals| == |ls| && AllFit(ls, Amf3) && forall i :: 0 <= i < |vals| ==> Lays(vals[i], ls[i])
    requires forall i :: 0 <= i < |vals| ==> Supported3(vals[i]) && Sized3(vals[i])
    ensures DecodeBatch(BatchBytes(ls, Amf3), t, Amf3) == AllErased(vals) <==>
            forall i :: 0 <= i < |vals| ==> SmallIntegers(vals[i])
    ensures DecodeBatch(BatchBytes(ls, Amf3), t, Amf3) == vals <==>
            forall i :: 0 <= i < |vals| ==> SmallIntegers(vals[i]) && Untyped(vals[i])
  {
    hide Lays, Untyped, ValueOf, Supported3, Sized3, SmallIntegers, SmallInts, Distinct, Fits3, Erased;
    forall i | 0 <= i < |vals|
      ensures Distinct(ls[i]) && (SmallInts(ls[i]) <==> SmallIntegers(vals[i]))
    {
      LayoutOf3(vals[i], ls[i]);
    }
    BatchRoundTrip3(ls, t);
    Fit3Each(ls);
    AllArriveUnchanged(ls);
    AllArriveUntyped(ls);
    ValuesLaid(vals, ls);
  }
}
