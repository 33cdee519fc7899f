/** Lengths that AMF0 can announce, and that no value decoded from AMF0 exceeds them. */
module AmfLengths {
  import opened Bytes
  import opened AmfFormat

  /** Lengths within the AMF0 length fields. */
  predicate Short0(v: Value) {
    match v
    case Str(s) => |s| < 0x1_0000_0000
    case Arr(items) => |items| < 0x1_0000_0000 && forall i :: 0 <= i < |items| ==> Short0(items[i])
    case Obj(m) => forall k :: k in m ==> |k| < 0x1_0000 && Short0(m[k])
    case _ => true
  }

  predicate ShortMap(m: map<Text, Value>) {
    forall k :: k in m ==> |k| < 0x1_0000 && Short0(m[k])
  }

  /** Everything that a reference can name is short. */
  predicate ShortTables(t: Tables) {
    (forall i :: 0 <= i < |t.strings| ==> |t.strings[i]| < 0x1_0000_0000) &&
    (forall i :: 0 <= i < |t.objects| ==> Short0(t.objects[i]))
  }

  // ---- AMF3 ----

  /** The table of objects never shrinks, and as long as it does not grow, the tables stay short. */
  predicate Grows(t: Tables, u: Tables) {
    |t.objects| <= |u.objects| && (|u.objects| == |t.objects| && ShortTables(t) ==> ShortTables(u))
  }

  /** What decoding may do to the tables; a value that does not extend them is short. */
  predicate Modest(t: Tables, r: Result<Value>) {
    r.Ok? ==> Grows(t, r.t) && (|r.t.objects| == |t.objects| && ShortTables(t) ==> Short0(r.v))
  }

  lemma GrowsOn(t: Tables, u: Tables, w: Tables)
    requires Grows(t, u) && Grows(u, w)
    ensures Grows(t, w)
    ensures |w.objects| == |t.objects| ==> |u.objects| == |t.objects|
    ensures ShortTables(t) && |w.objects| == |t.objects| ==> ShortTables(u)
  {
  }

  /** A string extends the table of strings by itself at most. */
  lemma StringGrows(s: seq<byte>, t: Tables)
    ensures var r := DecodeString3(s, t);
            r.Ok? ==> Grows(t, r.t) && r.t.objects == t.objects && (ShortTables(t) ==> |r.v| < 0x1_0000_0000)
  {
    hide DecodeU29;
  }

  lemma {:induction false} StringsGrow(s: seq<byte>, t: Tables, n: nat)
    ensures var r := DecodeStrings3(s, t, n); r.Ok? ==> Grows(t, r.t)
    decreases n
  {
    hide DecodeString3, Grows;
    GrowsNot(t);
    if n > 0 && DecodeString3(s, t).Ok? {
      var r := DecodeString3(s, t);
      StringGrows(s, t);
      StringsGrow(r.rest, r.t, n - 1);
      if DecodeStrings3(r.rest, r.t, n - 1).Ok? {
        GrowsOn(t, r.t, DecodeStrings3(r.rest, r.t, n - 1).t);
      }
    }
  }

  lemma GrowsNot(t: Tables)
    ensures Grows(t, t)
  {
  }

  lemma AnotherTrait(t: Tables, x: Trait)
    ensures Grows(t, t.(traits := t.traits + [x]))
  {
  }

  lemma TraitGrows(n: nat, s: seq<byte>, t: Tables)
    ensures var r := DecodeTrait3(n, s, t); r.Ok? ==> Grows(t, r.t)
  {
    hide DecodeString3, DecodeStrings3, Grows;
    GrowsNot(t);
    if n % 2 != 0 && DecodeString3(s, t).Ok? {
      var r := DecodeString3(s, t);
      StringGrows(s, t);
      StringsGrow(r.rest, r.t, n / 8);
      var q := DecodeStrings3(r.rest, r.t, n / 8);
      if q.Ok? {
        GrowsOn(t, r.t, q.t);
        var x := Trait(r.v, n / 2 % 2 != 0, n / 4 % 2 != 0, q.v);
        AnotherTrait(q.t, x);
        GrowsOn(t, q.t, q.t.(traits := q.t.traits + [x]));
      }
    }
  }

  lemma XmlGrows(s: seq<byte>, t: Tables)
    ensures Modest(t, DecodeXml3(s, t))
  {
    hide DecodeU29;
  }

  lemma DateGrows(s: seq<byte>, t: Tables)
    ensures Modest(t, DecodeDate3(s, t))
  {
    hide DecodeU29;
  }

  lemma ByteArrayGrows(s: seq<byte>, t: Tables)
    ensures Modest(t, DecodeByteArray3(s, t))
  {
    hide DecodeU29;
  }

  /** A value that leaves the table of objects as it is, is a leaf or comes from the table. */
  lemma {:induction false} ValueGrows(s: seq<byte>, t: Tables)
    ensures Modest(t, Decode3(s, t))
    decreases |s|, 0
  {
    hide DecodeArray3, DecodeObject3, DecodeXml3, DecodeDate3, DecodeByteArray3, DecodeString3, DecodeU29, Grows, ShortTables;
    GrowsNot(t);
    if s != [] {
      var marker, s1 := s[0], s[1..];
      if marker == 6 {
        StringGrows(s1, t);
      } else if marker == 7 || marker == 11 {
        XmlGrows(s1, t);
      } else if marker == 8 {
        DateGrows(s1, t);
      } else if marker == 9 {
        ArrayGrows(s1, t);
      } else if marker == 10 {
        ObjectGrows(s1, t);
      } else if marker == 12 {
        ByteArrayGrows(s1, t);
      }
    }
  }

  lemma {:induction false} ItemsGrow3(s: seq<byte>, t: Tables, n: nat)
    ensures var r := DecodeItems3(s, t, n); r.Ok? ==> Grows(t, r.t)
    decreases |s|, 1, n
  {
    hide Decode3, Grows, ShortTables;
    GrowsNot(t);
    if n > 0 {
      ValueGrows(s, t);
      var r := Decode3(s, t);
      if r.Ok? {
        ItemsGrow3(r.rest, r.t, n - 1);
        var q := DecodeItems3(r.rest, r.t, n - 1);
        if q.Ok? {
          GrowsOn(t, r.t, q.t);
        }
      }
    }
  }

  lemma {:induction false} ArrayGrows(s: seq<byte>, t: Tables)
    ensures Modest(t, DecodeArray3(s, t))
    decreases |s|, 2
  {
    hide Decode3, DecodeItems3, DecodeString3, DecodeU29, Grows;
    GrowsNot(t);
    var h := DecodeRefInt(s);
    if h.Some? && !h.value.0 {
      var n, s1 := h.value.1, h.value.2;
      StringGrows(s1, t);
      var key := DecodeString3(s1, t);
      if key.Ok? && key.v == [] {
        ItemsGrow3(key.rest, key.t, n);
        var items := DecodeItems3(key.rest, key.t, n);
        if items.Ok? {
          GrowsOn(t, key.t, items.t);
          GrowsMore(t, items.t, Arr(items.v));
        }
      }
    }
  }

  lemma GrowsMore(t: Tables, u: Tables, v: Value)
    requires Grows(t, u)
    ensures Grows(t, u.(objects := u.objects + [v])) && |t.objects| < |u.objects + [v]|
  {
  }

  lemma {:induction false} ObjectGrows(s: seq<byte>, t: Tables)
    ensures Modest(t, DecodeObject3(s, t))
    decreases |s|, 4
  {
    hide DecodeNew3, DecodeU29, Grows;
    GrowsNot(t);
    var h := DecodeRefInt(s);
    if h.Some? && !h.value.0 {
      NewGrows(h.value.1, h.value.2, t);
    }
  }

  lemma {:induction false} NewGrows(n: nat, s: seq<byte>, t: Tables)
    ensures var r := DecodeNew3(n, s, t); r.Ok? ==> Grows(t, r.t) && |t.objects| < |r.t.objects|
    decreases |s|, 3
  {
    hide DecodeTrait3, DecodeFields3, ShortTables;
    var r := DecodeTrait3(n, s, t);
    if r.Ok? && !r.v.externalizable {
      TraitGrows(n, s, t);
      var u := r.t.(objects := r.t.objects + [Null]);
      GrowsMore(t, r.t, Null);
      FieldsGrow(r.v, r.rest, u);
    }
  }

  lemma {:induction false} FieldsGrow(x: Trait, s: seq<byte>, t: Tables)
    ensures var r := DecodeFields3(x, s, t); r.Ok? ==> Grows(t, r.t)
    decreases |s|, 2
  {
    hide DecodeItems3, DecodeDynamic3, Grows, Assign;
    ItemsGrow3(s, t, |x.properties|);
    var r := DecodeItems3(s, t, |x.properties|);
    if r.Ok? && x.isDynamic {
      var m := Assign(map[], x.properties, r.v);
      DynamicGrows(r.rest, r.t, m);
      var q := DecodeDynamic3(r.rest, r.t, m);
      if q.Ok? {
        GrowsOn(t, r.t, q.t);
      }
    }
  }

  lemma {:induction false} DynamicGrows(s: seq<byte>, t: Tables, m: map<Text, Value>)
    ensures var r := DecodeDynamic3(s, t, m); r.Ok? ==> Grows(t, r.t)
    decreases |s|, 1
  {
    hide DecodeString3, Decode3, Grows, ShortTables;
    StringGrows(s, t);
    var key := DecodeString3(s, t);
    if key.Ok? && key.v != [] {
      ValueGrows(key.rest, key.t);
      var r := Decode3(key.rest, key.t);
      if r.Ok? {
        GrowsOn(t, key.t, r.t);
        DynamicGrows(r.rest, r.t, m[key.v := r.v]);
        var q := DecodeDynamic3(r.rest, r.t, m[key.v := r.v]);
        if q.Ok? {
          GrowsOn(t, r.t, q.t);
        }
      }
    }
  }

  // ---- AMF0 ----

  lemma TextIsShort(s: seq<byte>, k: nat)
    requires k == 2 || k == 4
    ensures var r := DecodeText(s, k);
            r.Some? ==> |r.value.0| < if k == 2 then 0x1_0000 else 0x1_0000_0000
  {
    Pow256Values();
  }

  /** A value decoded from AMF0 is short, unless AMF3 inside it has extended the table of objects. */
  lemma {:induction false} DecodesShort0(s: seq<byte>, t: Tables)
    ensures Modest(t, Decode0(s, t))
    decreases |s|, 0
  {
    hide DecodeText, Decode3, DecodeObject0, DecodeItems0, Grows, ShortTables, BEVal;
    GrowsNot(t);
    if s != [] {
      var marker, s1 := s[0], s[1..];
      if marker == 2 {
        TextIsShort(s1, 2);
      } else if marker == 12 || marker == 15 {
        TextIsShort(s1, 4);
      } else if marker == 3 {
        ObjectShort0(s1, t, map[]);
      } else if marker == 8 && |s1| >= 4 {
        ObjectShort0(s1[4..], t, map[]);
      } else if marker == 10 && |s1| >= 4 {
        Pow256Values();
        ItemsShort0(s1[4..], t, BEVal(s1[..4]));
      } else if marker == 16 && DecodeText(s1, 2).Some? {
        ObjectShort0(DecodeText(s1, 2).value.1, t, map[]);
      } else if marker == 17 {
        ValueGrows(s1, t);
      }
    }
  }

  lemma {:induction false} ObjectShort0(s: seq<byte>, t: Tables, m: map<Text, Value>)
    ensures var r := DecodeObject0(s, t, m);
            r.Ok? ==>
              Grows(t, r.t) && (|r.t.objects| == |t.objects| && ShortTables(t) && ShortMap(m) ==> ShortMap(r.v))
    decreases |s|, 1
  {
    hide DecodeText, Decode0, Grows, ShortTables;
    GrowsNot(t);
    var key := DecodeText(s, 2);
    TextIsShort(s, 2);
    if key.Some? && key.value.0 != [] {
      DecodesShort0(key.value.1, t);
      var r := Decode0(key.value.1, t);
      if r.Ok? {
        var m1 := m[key.value.0 := r.v];
        ObjectShort0(r.rest, r.t, m1);
        var q := DecodeObject0(r.rest, r.t, m1);
        if q.Ok? {
          GrowsOn(t, r.t, q.t);
        }
      }
    }
  }

  lemma {:induction false} ItemsShort0(s: seq<byte>, t: Tables, n: nat)
    ensures var r := DecodeItems0(s, t, n);
            r.Ok? ==>
              Grows(t, r.t) &&
              (|r.t.objects| == |t.objects| && ShortTables(t) ==> forall i :: 0 <= i < n ==> Short0(r.v[i]))
    decreases |s|, 1, n
  {
    hide Decode0, Grows, ShortTables, Short0;
    GrowsNot(t);
    if n > 0 {
      DecodesShort0(s, t);
      var r := Decode0(s, t);
      if r.Ok? {
        ItemsShort0(r.rest, r.t, n - 1);
        var q := DecodeItems0(r.rest, r.t, n - 1);
        if q.Ok? {
          GrowsOn(t, r.t, q.t);
        }
      }
    }
  }
}
