/** The encoder as it runs: it visits map entries in whatever order the map delivers them. */
module AmfEncoding {
  import opened Bytes
  import opened AmfFormat
  import opened AmfRoundTrip

  // ---- the order of keys ----

  /** The order of strings by their bytes. */
  predicate Less(a: Text, b: Text) {
    if b == [] then false
    else if a == [] then true
    else a[0] < b[0] || (a[0] == b[0] && Less(a[1..], b[1..]))
  }

  lemma {:induction false} LessIsTotal(a: Text, b: Text)
    ensures Less(a, b) || Less(b, a) || a == b
    ensures !(Less(a, b) && Less(b, a)) && !Less(a, a)
    decreases |a|
  {
    if a != [] && b != [] {
      LessIsTotal(a[1..], b[1..]);
      assert a == [a[0]] + a[1..] && b == [b[0]] + b[1..];
    }
    if a != [] {
      LessIsTotal(a[1..], a[1..]);
    }
  }

  lemma {:induction false} LessIsTransitive(a: Text, b: Text, c: Text)
    requires Less(a, b) && Less(b, c)
    ensures Less(a, c)
    decreases |a|
  {
    if a != [] && b[0] == a[0] && c[0] == b[0] {
      LessIsTransitive(a[1..], b[1..], c[1..]);
    }
  }

  /** a and b agree on k bytes; then a ends first, or has the smaller byte. */
  predicate DiffersAt(a: Text, b: Text, k: nat) {
    k <= |a| && k < |b| && a[..k] == b[..k] && (k == |a| || a[k] < b[k])
  }

  /** The order is that of the first byte in which two keys differ; a prefix comes before what it begins. */
  lemma {:induction false} LessExact(a: Text, b: Text)
    ensures Less(a, b) <==> exists k: nat :: DiffersAt(a, b, k)
    decreases |a|
  {
    if a != [] && b != [] && a[0] == b[0] {
      LessExact(a[1..], b[1..]);
      if k: nat :| DiffersAt(a[1..], b[1..], k) {
        assert a[..k + 1] == [a[0]] + a[1..][..k] && b[..k + 1] == [b[0]] + b[1..][..k];
        assert DiffersAt(a, b, k + 1);
      }
      if k: nat :| DiffersAt(a, b, k) {
        assert k > 0 && a[1..][..k - 1] == a[..k][1..] && b[1..][..k - 1] == b[..k][1..];
        assert DiffersAt(a[1..], b[1..], k - 1);
      }
    } else {
      assert Less(a, b) ==> DiffersAt(a, b, 0);
      assert forall k: nat :: DiffersAt(a, b, k) && k > 0 ==> a[..k][0] == b[..k][0];
    }
  }

  predicate Sorted(keys: seq<Text>) {
    keys == [] || ((forall k :: k in keys[1..] ==> Less(keys[0], k)) && Sorted(keys[1..]))
  }

  function Elements(keys: seq<Text>): set<Text> {
    set k | k in keys
  }

  lemma {:induction false} SortedHasNoRepeat(keys: seq<Text>)
    requires Sorted(keys)
    ensures NoRepeat(keys)
    decreases |keys|
  {
    if keys != [] {
      SortedHasNoRepeat(keys[1..]);
      LessIsTotal(keys[0], keys[0]);
    }
  }

  lemma {:induction false} SortedSize(keys: seq<Text>)
    requires Sorted(keys)
    ensures |Elements(keys)| == |keys|
    decreases |keys|
  {
    if keys != [] {
      SortedHasNoRepeat(keys);
      assert keys == [keys[0]] + keys[1..];
      assert Elements(keys) == Elements(keys[1..]) + {keys[0]};
      SortedSize(keys[1..]);
    }
  }

  /** There is only one way to sort a set of keys. */
  lemma {:induction false} SortedIsUnique(a: seq<Text>, b: seq<Text>)
    requires Sorted(a) && Sorted(b) && Elements(a) == Elements(b)
    ensures a == b
    decreases |a|
  {
    SortedSize(a);
    SortedSize(b);
    if a != [] {
      SortedHasNoRepeat(a);
      SortedHasNoRepeat(b);
      assert a[0] in Elements(a) && b[0] in Elements(b);
      assert a == [a[0]] + a[1..] && b == [b[0]] + b[1..];
      LessIsTotal(a[0], b[0]);
      assert Elements(a[1..]) == Elements(a) - {a[0]};
      assert Elements(b[1..]) == Elements(b) - {b[0]};
      SortedIsUnique(a[1..], b[1..]);
    }
  }

  function Insert(keys: seq<Text>, k: Text): seq<Text> {
    if keys == [] then [k]
    else if Less(k, keys[0]) then [k] + keys
    else [keys[0]] + Insert(keys[1..], k)
  }

  lemma {:induction false} InsertSorts(keys: seq<Text>, k: Text)
    requires Sorted(keys) && k !in keys
    ensures Sorted(Insert(keys, k)) && Elements(Insert(keys, k)) == Elements(keys) + {k}
    ensures |Insert(keys, k)| == |keys| + 1
    decreases |keys|
  {
    hide Less;
    if keys != [] {
      LessIsTotal(k, keys[0]);
      assert keys == [keys[0]] + keys[1..];
      if Less(k, keys[0]) {
        forall x | x in keys
          ensures Less(k, x)
        {
          if x != keys[0] {
            LessIsTransitive(k, keys[0], x);
          }
        }
        assert ([k] + keys)[1..] == keys;
      } else {
        InsertSorts(keys[1..], k);
        var tail := Insert(keys[1..], k);
        assert ([keys[0]] + tail)[1..] == tail;
        forall x | x in tail
          ensures Less(keys[0], x)
        {
          assert x in Elements(tail);
        }
      }
    }
  }

  /** The keys of a map, collected in the order it delivers them and then sorted. */
  method SortedKeys(m: map<Text, Value>) returns (keys: seq<Text>)
    ensures Sorted(keys) && Elements(keys) == m.Keys && |keys| == |m.Keys|
  {
    keys := [];
    var todo := m.Keys;
    while todo != {}
      invariant todo <= m.Keys && Sorted(keys) && Elements(keys) == m.Keys - todo
      decreases todo
    {
      var k :| k in todo;
      assert k !in Elements(keys);
      InsertSorts(keys, k);
      hide Insert, Sorted;
      keys := Insert(keys, k);
      todo := todo - {k};
    }
    SortedSize(keys);
  }

  // ---- layouts of a value ----

  /** l lists the entries of every map of v in some order. */
  ghost predicate Lays(v: Value, l: Layout)
    decreases v
  {
    match v
    case Null => l == LNull
    case Bool(b) => l == LBool(b)
    case Number(bits) => l == LNumber(bits)
    case Int(n) => n >= 0 && l == LInt(n)
    case Str(s) => l == LStr(s)
    case Arr(items) => l.LArr? && |items| == |l.items| && forall i :: 0 <= i < |items| ==> Lays(items[i], l.items[i])
    case Obj(m) =>
      l.LObj? && l.typ == [] && EntriesOf(m, l.keys, |l.vals|) &&
      forall i :: 0 <= i < |l.keys| ==> Lays(m[l.keys[i]], l.vals[i])
    case Typed(typ, m) =>
      l.LObj? && l.typ == typ && EntriesOf(m, l.keys, |l.vals|) &&
      forall i :: 0 <= i < |l.keys| ==> Lays(m[l.keys[i]], l.vals[i])
    case Binary(_) => false
    case Date(_) => false
  }

  /** keys are the keys of m, each once, and there are n of them. */
  ghost predicate EntriesOf(m: map<Text, Value>, keys: seq<Text>, n: nat) {
    |keys| == n && NoRepeat(keys) && Elements(keys) == m.Keys && forall i :: 0 <= i < |keys| ==> keys[i] in m
  }

  /** The keys of every object are in sorted order. */
  predicate Canonical(l: Layout) {
    match l
    case LArr(items) => AllCanonical(items)
    case LObj(_, keys, vals) => Sorted(keys) && AllCanonical(vals)
    case _ => true
  }

  predicate AllCanonical(ls: seq<Layout>) {
    ls == [] || (Canonical(ls[0]) && AllCanonical(ls[1..]))
  }

  lemma {:induction false} CanonicalAt(ls: seq<Layout>, i: nat)
    requires AllCanonical(ls) && i < |ls|
    ensures Canonical(ls[i])
    decreases |ls|
  {
    if i > 0 {
      CanonicalAt(ls[1..], i - 1);
    }
  }

  /** A value has only one canonical layout, so sorting makes the encoding a function of the value. */
  lemma {:induction false} CanonicalIsUnique(v: Value, a: Layout, b: Layout)
    requires Lays(v, a) && Lays(v, b) && Canonical(a) && Canonical(b)
    ensures a == b
    decreases a.Size()
  {
    if v.Arr? {
      forall i | 0 <= i < |v.items|
        ensures a.items[i] == b.items[i]
      {
        CanonicalAt(a.items, i);
        CanonicalAt(b.items, i);
        SizeAt(a.items, i);
        CanonicalIsUnique(v.items[i], a.items[i], b.items[i]);
      }
    } else if v.Obj? || v.Typed? {
      SortedIsUnique(a.keys, b.keys);
      forall i | 0 <= i < |a.vals|
        ensures a.vals[i] == b.vals[i]
      {
        CanonicalAt(a.vals, i);
        CanonicalAt(b.vals, i);
        SizeAt(a.vals, i);
        CanonicalIsUnique(v.props[a.keys[i]], a.vals[i], b.vals[i]);
      }
    }
  }

  lemma {:induction false} SizeAt(ls: seq<Layout>, i: nat)
    requires i < |ls|
    ensures ls[i].Size() < SizeAll(ls)
    decreases |ls|
  {
    if i > 0 {
      SizeAt(ls[1..], i - 1);
    }
  }

  /** No typed object anywhere. */
  predicate Untyped(v: Value) {
    match v
    case Arr(items) => forall i :: 0 <= i < |items| ==> Untyped(items[i])
    case Obj(m) => forall k :: k in m ==> Untyped(m[k])
    case Typed(_, _) => false
    case _ => true
  }

  lemma {:induction false} ValuesOfAt(ls: seq<Layout>, i: nat)
    requires i < |ls|
    ensures ValuesOf(ls)[i] == ValueOf(ls[i])
    decreases |ls|
  {
    if i > 0 {
      ValuesOfAt(ls[1..], i - 1);
    }
  }

  lemma {:induction false} AssignGives(m: map<Text, Value>, keys: seq<Text>, vals: seq<Value>)
    requires |keys| == |vals| && NoRepeat(keys)
    ensures Assign(m, keys, vals).Keys == m.Keys + Elements(keys)
    ensures forall i :: 0 <= i < |keys| ==> keys[i] in Assign(m, keys, vals) && Assign(m, keys, vals)[keys[i]] == vals[i]
    decreases |keys|
  {
    if keys != [] {
      AssignGives(m[keys[0] := vals[0]], keys[1..], vals[1..]);
      AssignKeeps(m[keys[0] := vals[0]], keys[1..], vals[1..], keys[0]);
      assert keys == [keys[0]] + keys[1..];
      assert forall i :: 0 < i < |keys| ==> keys[i] == keys[1..][i - 1];
    }
  }

  /** The value without the class names of its objects, at every depth. */
  function Erased(v: Value): Value {
    match v
    case Arr(items) => Arr(seq(|items|, i requires 0 <= i < |items| => Erased(items[i])))
    case Obj(m) => Obj(map k | k in m :: Erased(m[k]))
    case Typed(_, m) => Obj(map k | k in m :: Erased(m[k]))
    case _ => v
  }

  /** Nothing is erased exactly where there is no typed object. */
  lemma {:induction false} ErasedIsSame(v: Value)
    ensures Erased(v) == v <==> Untyped(v)
    ensures Untyped(Erased(v))
  {
    match v
    case Arr(items) =>
      forall i | 0 <= i < |items|
        ensures (Erased(items[i]) == items[i] <==> Untyped(items[i])) && Untyped(Erased(items[i]))
      {
        ErasedIsSame(items[i]);
      }
      assert Erased(v) == v <==> forall i :: 0 <= i < |items| ==> Erased(v).items[i] == items[i];
    case Obj(m) =>
      forall k | k in m
        ensures (Erased(m[k]) == m[k] <==> Untyped(m[k])) && Untyped(Erased(m[k]))
      {
        ErasedIsSame(m[k]);
      }
      assert Erased(v) == v <==> forall k :: k in m ==> Erased(v).props[k] == m[k];
    case Typed(_, m) =>
      forall k | k in m
        ensures Untyped(Erased(m[k]))
      {
        ErasedIsSame(m[k]);
      }
    case _ =>
  }

  /** Whatever the order of the entries, a layout of a value stands for the value without its class names. */
  lemma {:induction false} LayoutMeansValue(v: Value, l: Layout)
    requires Lays(v, l)
    ensures ValueOf(l) == Erased(v)
    decreases l.Size(), 1
  {
    if v.Arr? {
      ItemsMean(v.items, l.items);
      assert ValuesOf(l.items) == Erased(v).items;
    } else if v.Obj? || v.Typed? {
      EntriesMean(v.props, l.keys, l.vals);
    }
  }

  lemma {:induction false} ItemsMean(items: seq<Value>, ls: seq<Layout>)
    requires |items| == |ls| && forall i :: 0 <= i < |items| ==> Lays(items[i], ls[i])
    ensures forall i :: 0 <= i < |items| ==> ValuesOf(ls)[i] == Erased(items[i])
    decreases 1 + SizeAll(ls), 0
  {
    hide Lays, Erased, ValueOf, ValuesOf;
    forall i | 0 <= i < |items|
      ensures ValuesOf(ls)[i] == Erased(items[i])
    {
      SizeAt(ls, i);
      LayoutMeansValue(items[i], ls[i]);
      ValuesOfAt(ls, i);
    }
  }

  lemma {:induction false} EntriesMean(props: map<Text, Value>, keys: seq<Text>, vals: seq<Layout>)
    requires EntriesOf(props, keys, |vals|)
    requires forall i :: 0 <= i < |keys| ==> Lays(props[keys[i]], vals[i])
    ensures Assign(map[], keys, ValuesOf(vals)) == map k | k in props :: Erased(props[k])
    decreases 1 + SizeAll(vals), 0
  {
    hide Lays, Erased, ValueOf, ValuesOf, Assign;
    var m := Assign(map[], keys, ValuesOf(vals));
    AssignGives(map[], keys, ValuesOf(vals));
    forall i | 0 <= i < |keys|
      ensures m[keys[i]] == Erased(props[keys[i]])
    {
      SizeAt(vals, i);
      LayoutMeansValue(props[keys[i]], vals[i]);
      ValuesOfAt(vals, i);
    }
    assert forall k :: k in m ==> k in Elements(keys);
    assert forall k :: k in props ==> k in Elements(keys);
    ListsElements(keys);
  }

  lemma {:induction false} ListsElements(keys: seq<Text>)
    ensures forall k :: k in Elements(keys) <==> k in keys
  {
  }

  // ---- AMF0 ----

  /** The values AMF0 has a form for, and typed objects, which its encoder refuses. */
  predicate Supported0(v: Value) {
    match v
    case Number(bits) => |bits| == 8
    case Int(_) => false
    case Arr(items) => forall i :: 0 <= i < |items| ==> Supported0(items[i])
    case Obj(m) => forall k :: k in m ==> Supported0(m[k])
    case Binary(_) => false
    case Date(_) => false
    case _ => true
  }

  /** Key and value pairs without the end marker. */
  function Entries0(keys: seq<Text>, vals: seq<Layout>): seq<byte>
    requires |keys| == |vals|
    decreases vals
  {
    if keys == [] then []
    else EncodeText(keys[0], 2) + Encode0(vals[0]) + Entries0(keys[1..], vals[1..])
  }

  lemma {:induction false} EntriesEnd0(keys: seq<Text>, vals: seq<Layout>)
    requires |keys| == |vals|
    ensures EncodePairs0(keys, vals) == Entries0(keys, vals) + (EncodeText([], 2) + [9])
    decreases |vals|
  {
    if keys == [] {
      assert [] + (EncodeText([], 2) + [9]) == EncodeText([], 2) + [9];
    } else {
      EntriesEnd0(keys[1..], vals[1..]);
      var end := EncodeText([], 2) + [9];
      Associates(EncodeText(keys[0], 2), Encode0(vals[0]), Entries0(keys[1..], vals[1..]));
      Associates(EncodeText(keys[0], 2) + Encode0(vals[0]), Entries0(keys[1..], vals[1..]), end);
      Associates(EncodeText(keys[0], 2), Encode0(vals[0]), Entries0(keys[1..], vals[1..]) + end);
    }
  }

  lemma {:induction false} EntriesSnoc0(keys: seq<Text>, vals: seq<Layout>, k: Text, l: Layout)
    requires |keys| == |vals|
    ensures Entries0(keys + [k], vals + [l]) == Entries0(keys, vals) + (EncodeText(k, 2) + Encode0(l))
    decreases |vals|
  {
    var one := EncodeText(k, 2) + Encode0(l);
    if keys == [] {
      assert keys + [k] == [k] && vals + [l] == [l];
      assert Entries0([k], [l]) == one + Entries0([], []);
      assert one + [] == one && [] + one == one;
    } else {
      EntriesSnoc0(keys[1..], vals[1..], k, l);
      assert (keys + [k])[1..] == keys[1..] + [k] && (vals + [l])[1..] == vals[1..] + [l];
      Associates(EncodeText(keys[0], 2) + Encode0(vals[0]), Entries0(keys[1..], vals[1..]), one);
    }
  }

  lemma {:induction false} ItemsSnoc0(ls: seq<Layout>, l: Layout)
    ensures EncodeItems0(ls + [l]) == EncodeItems0(ls) + Encode0(l)
    decreases |ls|
  {
    if ls == [] {
      assert ls + [l] == [l] && Encode0(l) + EncodeItems0([]) == Encode0(l) && [] + Encode0(l) == Encode0(l);
    } else {
      ItemsSnoc0(ls[1..], l);
      assert (ls + [l])[1..] == ls[1..] + [l];
      Associates(Encode0(ls[0]), EncodeItems0(ls[1..]), Encode0(l));
    }
  }

  lemma {:induction false} NoRepeatSnoc(keys: seq<Text>, k: Text)
    requires NoRepeat(keys) && k !in Elements(keys)
    ensures NoRepeat(keys + [k]) && Elements(keys + [k]) == Elements(keys) + {k}
    decreases |keys|
  {
    if keys != [] {
      assert keys == [keys[0]] + keys[1..];
      NoRepeatSnoc(keys[1..], k);
      assert (keys + [k])[1..] == keys[1..] + [k];
    }
  }

  class Writer {
    var buf: seq<byte>

    constructor ()
      ensures buf == []
    {
      buf := [];
    }

    method Write(p: seq<byte>) returns (n: nat)
      modifies this
      ensures buf == old(buf) + p && n == |p|
    {
      buf := buf + p;
      n := |p|;
    }
  }

  /** Since start, exactly these n bytes were written. */
  ghost predicate Wrote(start: seq<byte>, now: seq<byte>, n: nat, bytes: seq<byte>) {
    now == start + bytes && n == |bytes|
  }

  lemma WroteMore(start: seq<byte>, mid: seq<byte>, n: nat, a: seq<byte>, now: seq<byte>, m: nat, b: seq<byte>)
    requires Wrote(start, mid, n, a) && Wrote(mid, now, m, b)
    ensures Wrote(start, now, n + m, a + b)
  {
    Associates(start, a, b);
  }

  method EncodeAmf0Text(w: Writer, s: Text, k: nat) returns (n: nat)
    modifies w
    ensures Wrote(old(w.buf), w.buf, n, EncodeText(s, k))
  {
    var m := w.Write(BE(|s|, k));
    n := w.Write(s);
    Associates(old(w.buf), BE(|s|, k), s);
    n := m + n;
  }

  method EncodeAmf0(w: Writer, v: Value) returns (ok: bool, n: nat, ghost l: Layout)
    requires Supported0(v)
    modifies w
    ensures ok <==> Untyped(v)
    ensures ok ==> Lays(v, l) && Wrote(old(w.buf), w.buf, n, Encode0(l))
    decreases v, 1
  {
    ok, n, l := true, 0, LNull;
    match v
    case Null => n := w.Write([5]);
    case Bool(b) =>
      l := LBool(b);
      n := w.Write([1, if b then 1 else 0]);
    case Number(bits) =>
      l := LNumber(bits);
      n := w.Write([0] + bits);
    case Str(s) =>
      l := LStr(s);
      ghost var start := w.buf;
      var marker := w.Write([if |s| <= 65535 then 2 else 12]);
      ghost var mid := w.buf;
      n := EncodeAmf0Text(w, s, if |s| <= 65535 then 2 else 4);
      WroteMore(start, mid, marker, [if |s| <= 65535 then 2 else 12], w.buf, n, EncodeText(s, if |s| <= 65535 then 2 else 4));
      n := marker + n;
    case Arr(items) => ok, n, l := EncodeAmf0StrictArray(w, items, v);
    case Obj(m) => ok, n, l := EncodeAmf0Object(w, m, v);
    case Typed(_, _) => ok := false;
  }

  method EncodeAmf0StrictArray(w: Writer, items: seq<Value>, ghost v: Value) returns (ok: bool, n: nat, ghost l: Layout)
    requires Supported0(v) && v == Arr(items)
    modifies w
    ensures ok <==> Untyped(v)
    ensures ok ==> Lays(v, l) && Wrote(old(w.buf), w.buf, n, Encode0(l))
    decreases v, 0
  {
    ghost var ls: seq<Layout> := [];
    var head := w.Write([10] + BE(|items|, 4));
    ghost var start := w.buf;
    n := 0;
    assert Wrote(start, w.buf, n, EncodeItems0(ls));
    hide Wrote;
    for i := 0 to |items|
      invariant |ls| == i && forall j :: 0 <= j < i ==> Lays(items[j], ls[j]) && Untyped(items[j])
      invariant Wrote(start, w.buf, n, EncodeItems0(ls))
    {
      ghost var mid := w.buf;
      var m;
      ghost var x;
      ok, m, x := EncodeAmf0(w, items[i]);
      if !ok {
        l := LNull;
        return;
      }
      ItemsSnoc0(ls, x);
      WroteMore(start, mid, n, EncodeItems0(ls), w.buf, m, Encode0(x));
      n, ls := n + m, ls + [x];
    }
    ok, l := true, LArr(ls);
    ArrayWritten0(old(w.buf), start, w.buf, n, ls);
    n := head + n;
  }

  lemma ArrayWritten0(before: seq<byte>, start: seq<byte>, now: seq<byte>, n: nat, ls: seq<Layout>)
    requires start == before + ([10] + BE(|ls|, 4)) && Wrote(start, now, n, EncodeItems0(ls))
    ensures Wrote(before, now, 5 + n, Encode0(LArr(ls)))
  {
    Associates([10], BE(|ls|, 4), EncodeItems0(ls));
    Associates(before, [10] + BE(|ls|, 4), EncodeItems0(ls));
  }

  method EncodeAmf0Object(w: Writer, m: map<Text, Value>, ghost v: Value) returns (ok: bool, n: nat, ghost l: Layout)
    requires Supported0(v) && v == Obj(m)
    modifies w
    ensures ok <==> Untyped(v)
    ensures ok ==> Lays(v, l) && Wrote(old(w.buf), w.buf, n, Encode0(l))
    decreases v, 0
  {
    var head := w.Write([3]);
    ghost var start := w.buf;
    ghost var keys, vals;
    ok, n, keys, vals := EncodeAmf0Entries(w, m, v);
    l := LObj([], keys, vals);
    if ok {
      ghost var mid := w.buf;
      var end := w.Write(EncodeText([], 2) + [9]);
      ObjectWritten0(old(w.buf), start, mid, w.buf, n, keys, vals);
      n := head + n + end;
    }
  }

  /** The entries in the order the map delivers them. */
  method EncodeAmf0Entries(w: Writer, m: map<Text, Value>, ghost v: Value)
    returns (ok: bool, n: nat, ghost keys: seq<Text>, ghost vals: seq<Layout>)
    requires Supported0(v) && v == Obj(m)
    modifies w
    ensures ok <==> Untyped(v)
    ensures ok ==> |keys| == |vals| && Lays(v, LObj([], keys, vals)) && Wrote(old(w.buf), w.buf, n, Entries0(keys, vals))
    decreases v, 0, 0
  {
    hide Wrote, NoRepeat, Elements, Entries0, Encode0, EncodeText, Lays, Untyped, Supported0;
    n, keys, vals := 0, [], [];
    NothingWritten0(w.buf);
    PropertiesSupported0(m);
    var todo := m.Keys;
    while todo != {}
      invariant todo <= m.Keys && |keys| == |vals| && NoRepeat(keys) && Elements(keys) == m.Keys - todo
      invariant forall j :: 0 <= j < |keys| ==> keys[j] in m && Lays(m[keys[j]], vals[j])
      invariant forall k :: k in m && k !in todo ==> Untyped(m[k])
      invariant Wrote(old(w.buf), w.buf, n, Entries0(keys, vals))
      decreases todo
    {
      var k :| k in todo;
      todo := todo - {k};
      ghost var mid := w.buf;
      var a;
      ghost var x;
      ok, a, x := EncodeAmf0Entry(w, k, m[k]);
      if !ok {
        return;
      }
      NoRepeatSnoc(keys, k);
      EntriesSnoc0(keys, vals, k, x);
      WroteMore(old(w.buf), mid, n, Entries0(keys, vals), w.buf, a, EncodeText(k, 2) + Encode0(x));
      n, keys, vals := n + a, keys + [k], vals + [x];
    }
    EntriesLaid(m, keys, vals);
    ok := true;
  }

  lemma NothingWritten0(buf: seq<byte>)
    ensures Wrote(buf, buf, 0, Entries0([], [])) && NoRepeat([]) && Elements([]) == {}
  {
  }

  lemma PropertiesSupported0(m: map<Text, Value>)
    ensures Supported0(Obj(m)) <==> forall k :: k in m ==> Supported0(m[k])
    ensures Untyped(Obj(m)) <==> forall k :: k in m ==> Untyped(m[k])
  {
  }

  lemma EntriesLaid(m: map<Text, Value>, keys: seq<Text>, vals: seq<Layout>)
    requires |keys| == |vals| && NoRepeat(keys) && Elements(keys) == m.Keys
    requires forall j :: 0 <= j < |keys| ==> keys[j] in m && Lays(m[keys[j]], vals[j])
    ensures Lays(Obj(m), LObj([], keys, vals))
  {
  }

  /** One key and its value. */
  method EncodeAmf0Entry(w: Writer, k: Text, val: Value) returns (ok: bool, n: nat, ghost l: Layout)
    requires Supported0(val)
    modifies w
    ensures ok <==> Untyped(val)
    ensures ok ==> Lays(val, l) && Wrote(old(w.buf), w.buf, n, EncodeText(k, 2) + Encode0(l))
    decreases val, 2
  {
    var a := EncodeAmf0Text(w, k, 2);
    ghost var mid := w.buf;
    ok, n, l := EncodeAmf0(w, val);
    if ok {
      WroteMore(old(w.buf), mid, a, EncodeText(k, 2), w.buf, n, Encode0(l));
    }
    n := a + n;
  }

  lemma ObjectWritten0(before: seq<byte>, start: seq<byte>, mid: seq<byte>, now: seq<byte>, n: nat, keys: seq<Text>, vals: seq<Layout>)
    requires |keys| == |vals| && start == before + [3] && Wrote(start, mid, n, Entries0(keys, vals))
    requires now == mid + (EncodeText([], 2) + [9])
    ensures Wrote(before, now, 1 + n + 3, Encode0(LObj([], keys, vals)))
  {
    EntriesEnd0(keys, vals);
    Associates(before + [3], Entries0(keys, vals), EncodeText([], 2) + [9]);
    Associates(before, [3], EncodePairs0(keys, vals));
  }

  // ---- AMF3 ----

  /** Values without dates, byte arrays, or integers that the encoder turns into doubles. */
  predicate Supported3(v: Value) {
    match v
    case Number(bits) => |bits| == 8
    case Int(n) => 0 <= n <= 0x1FFF_FFFF
    case Arr(items) => forall i :: 0 <= i < |items| ==> Supported3(items[i])
    case Obj(m) => forall k :: k in m ==> Supported3(m[k])
    case Typed(_, m) => forall k :: k in m ==> Supported3(m[k])
    case Binary(_) => false
    case Date(_) => false
    case _ => true
  }

  /** Lengths that a U29 can announce; anything longer is an error of the encoder. */
  predicate Sized3(v: Value) {
    match v
    case Str(s) => |s| < 0x1000_0000
    case Arr(items) => |items| < 0x1000_0000 && forall i :: 0 <= i < |items| ==> Sized3(items[i])
    case Obj(m) => MapSized3(m) && forall k :: k in m ==> Sized3(m[k])
    case Typed(typ, m) => |typ| < 0x1000_0000 && MapSized3(m) && forall k :: k in m ==> Sized3(m[k])
    case _ => true
  }

  predicate MapSized3(m: map<Text, Value>) {
    |m.Keys| < 0x200_0000 && forall k :: k in m ==> |k| < 0x1000_0000
  }

  lemma {:induction false} ItemsSnoc3(ls: seq<Layout>, l: Layout)
    requires Fit3(ls) && Fits3(l) && AllCanonical(ls) && Canonical(l)
    ensures Fit3(ls + [l]) && AllCanonical(ls + [l]) && EncodeItems3(ls + [l]) == EncodeItems3(ls) + Encode3(l)
    decreases |ls|
  {
    if ls == [] {
      assert ls + [l] == [l] && [l][1..] == [];
      assert Encode3(l) + EncodeItems3([]) == Encode3(l) && [] + Encode3(l) == Encode3(l);
    } else {
      ItemsSnoc3(ls[1..], l);
      assert (ls + [l])[1..] == ls[1..] + [l];
      Associates(Encode3(ls[0]), EncodeItems3(ls[1..]), Encode3(l));
    }
  }

  lemma {:induction false} Utf8sSnoc(ss: seq<Text>, s: Text)
    requires TextsFit(ss, 0x1000_0000) && |s| < 0x1000_0000
    ensures TextsFit(ss + [s], 0x1000_0000) && EncodeUtf8s(ss + [s]) == EncodeUtf8s(ss) + EncodeUtf8(s)
    decreases |ss|
  {
    if ss == [] {
      assert ss + [s] == [s] && [s][1..] == [];
      assert EncodeUtf8(s) + EncodeUtf8s([]) == EncodeUtf8(s) && [] + EncodeUtf8(s) == EncodeUtf8(s);
    } else {
      Utf8sSnoc(ss[1..], s);
      assert (ss + [s])[1..] == ss[1..] + [s];
      Associates(EncodeUtf8(ss[0]), EncodeUtf8s(ss[1..]), EncodeUtf8(s));
    }
  }

  method EncodeAmf3Uint29(w: Writer, val: nat) returns (ok: bool, n: nat)
    modifies w
    ensures ok <==> val <= 0x1FFF_FFFF
    ensures ok ==> Wrote(old(w.buf), w.buf, n, EncodeU29(val))
  {
    ok, n := true, 0;
    if val <= 0x7F {
      n := w.Write([val as byte]);
    } else if val <= 0x3FFF {
      n := w.Write([(val / 0x80 + 128) as byte, (val % 0x80) as byte]);
    } else if val <= 0x1F_FFFF {
      n := w.Write([(val / 0x4000 + 128) as byte, (val / 0x80 % 0x80 + 128) as byte, (val % 0x80) as byte]);
    } else if val <= 0x1FFF_FFFF {
      n := w.Write([(val / 0x40_0000 + 128) as byte, (val / 0x8000 % 0x80 + 128) as byte, (val / 0x100 % 0x80 + 128) as byte,
                    (val % 0x100) as byte]);
    } else {
      ok := false;
    }
  }

  method EncodeAmf3Utf8(w: Writer, s: Text) returns (ok: bool, n: nat)
    modifies w
    ensures ok <==> |s| < 0x1000_0000
    ensures ok ==> Wrote(old(w.buf), w.buf, n, EncodeUtf8(s))
  {
    ok, n := EncodeAmf3Uint29(w, 2 * |s| + 1);
    if ok {
      ghost var mid := w.buf;
      var m := w.Write(s);
      WroteMore(old(w.buf), mid, n, EncodeU29(2 * |s| + 1), w.buf, m, s);
      n := n + m;
    }
  }

  /** A marker, then the rest. */
  lemma Marked(before: seq<byte>, marker: byte, start: seq<byte>, now: seq<byte>, n: nat, bytes: seq<byte>)
    requires start == before + [marker] && Wrote(start, now, n, bytes)
    ensures Wrote(before, now, 1 + n, [marker] + bytes)
  {
    Associates(before, [marker], bytes);
  }

  method EncodeAmf3(w: Writer, v: Value) returns (ok: bool, n: nat, ghost l: Layout)
    requires Supported3(v)
    modifies w
    ensures ok <==> Sized3(v)
    ensures ok ==> Lays(v, l) && Canonical(l) && Fits3(l) && Wrote(old(w.buf), w.buf, n, Encode3(l))
    decreases v, 3
  {
    hide EncodeU29, EncodeUtf8;
    ok, n, l := true, 0, LNull;
    match v
    case Null => n := w.Write([1]);
    case Bool(b) =>
      l := LBool(b);
      n := w.Write([if b then 3 else 2]);
    case Int(i) =>
      l := LInt(i);
      var marker := w.Write([4]);
      ghost var start := w.buf;
      ok, n := EncodeAmf3Uint29(w, i);
      Marked(old(w.buf), 4, start, w.buf, n, EncodeU29(i));
      n := marker + n;
    case Number(bits) =>
      l := LNumber(bits);
      n := w.Write([5] + bits);
    case Str(s) =>
      l := LStr(s);
      var marker := w.Write([6]);
      ghost var start := w.buf;
      ok, n := EncodeAmf3Utf8(w, s);
      if ok {
        Marked(old(w.buf), 6, start, w.buf, n, EncodeUtf8(s));
      }
      n := marker + n;
    case Arr(items) => ok, n, l := EncodeAmf3Array(w, items, v);
    case Obj(m) => ok, n, l := EncodeAmf3Object(w, [], m, v);
    case Typed(typ, m) => ok, n, l := EncodeAmf3Object(w, typ, m, v);
  }

  method EncodeAmf3Array(w: Writer, items: seq<Value>, ghost v: Value) returns (ok: bool, n: nat, ghost l: Layout)
    requires Supported3(v) && v == Arr(items)
    modifies w
    ensures ok <==> Sized3(v)
    ensures ok ==> Lays(v, l) && Canonical(l) && Fits3(l) && Wrote(old(w.buf), w.buf, n, Encode3(l))
    decreases v, 2
  {
    hide Wrote, EncodeU29, EncodeUtf8, Encode3;
    ghost var before := w.buf;
    l := LNull;
    var marker := w.Write([9]);
    ghost var start := w.buf;
    ok, n := EncodeAmf3Uint29(w, 2 * |items| + 1);
    if !ok {
      return;
    }
    ghost var mid1 := w.buf;
    var m;
    ok, m := EncodeAmf3Utf8(w, []);
    WroteMore(start, mid1, n, EncodeU29(2 * |items| + 1), w.buf, m, EncodeUtf8([]));
    n := n + m;
    ghost var mid2 := w.buf;
    ghost var ls;
    ok, m, ls := EncodeAmf3Elements(w, items, v);
    if ok {
      WroteMore(start, mid2, n, EncodeU29(2 * |items| + 1) + EncodeUtf8([]), w.buf, m, EncodeItems3(ls));
      l := LArr(ls);
      Associates(EncodeU29(2 * |items| + 1), EncodeUtf8([]), EncodeItems3(ls));
      Marked(before, 9, start, w.buf, n + m, EncodeU29(2 * |items| + 1) + (EncodeUtf8([]) + EncodeItems3(ls)));
      ArrayEncoding3(ls);
    }
    n := marker + (n + m);
  }

  lemma ArrayEncoding3(ls: seq<Layout>)
    requires Fits3(LArr(ls))
    ensures Encode3(LArr(ls)) == [9] + (EncodeU29(2 * |ls| + 1) + (EncodeUtf8([]) + EncodeItems3(ls)))
  {
    hide EncodeU29, EncodeUtf8, EncodeItems3;
  }

  method EncodeAmf3Elements(w: Writer, items: seq<Value>, ghost v: Value) returns (ok: bool, n: nat, ghost ls: seq<Layout>)
    requires Supported3(v) && v == Arr(items)
    modifies w
    ensures ok <==> forall i :: 0 <= i < |items| ==> Sized3(items[i])
    ensures ok ==> Lays(v, LArr(ls)) && AllCanonical(ls) && Fit3(ls) && Wrote(old(w.buf), w.buf, n, EncodeItems3(ls))
    decreases v, 1
  {
    hide Wrote, Encode3, Canonical, Fits3, Lays, Sized3, Supported3, EncodeItems3, Fit3, AllCanonical;
    n, ls := 0, [];
    NothingWritten3(w.buf);
    ItemsSupported3(v, items);
    for i := 0 to |items|
      invariant |ls| == i && forall j :: 0 <= j < i ==> Lays(items[j], ls[j]) && Sized3(items[j])
      invariant Fit3(ls) && AllCanonical(ls) && Wrote(old(w.buf), w.buf, n, EncodeItems3(ls))
    {
      ghost var mid := w.buf;
      var m;
      ghost var x;
      ok, m, x := EncodeAmf3(w, items[i]);
      if !ok {
        return;
      }
      ItemsSnoc3(ls, x);
      WroteMore(old(w.buf), mid, n, EncodeItems3(ls), w.buf, m, Encode3(x));
      n, ls := n + m, ls + [x];
    }
    ItemsLaid(items, ls);
    ok := true;
  }

  lemma NothingWritten3(buf: seq<byte>)
    ensures Wrote(buf, buf, 0, EncodeItems3([])) && Fit3([]) && AllCanonical([])
  {
  }

  lemma FieldsSupported3(v: Value, props: map<Text, Value>)
    requires Supported3(v) && ((v.Typed? && v.props == props) || v == Obj(props))
    ensures forall k :: k in props ==> Supported3(props[k])
  {
  }

  lemma ItemsSupported3(v: Value, items: seq<Value>)
    requires Supported3(v) && v == Arr(items)
    ensures forall i :: 0 <= i < |items| ==> Supported3(items[i])
  {
  }

  lemma ItemsLaid(items: seq<Value>, ls: seq<Layout>)
    requires |ls| == |items| && forall j :: 0 <= j < |items| ==> Lays(items[j], ls[j])
    ensures Lays(Arr(items), LArr(ls))
  {
  }

  method EncodeAmf3Object(w: Writer, typ: Text, props: map<Text, Value>, ghost v: Value)
    returns (ok: bool, n: nat, ghost l: Layout)
    requires Supported3(v) && (v == Typed(typ, props) || (typ == [] && v == Obj(props)))
    modifies w
    ensures ok <==> Sized3(v)
    ensures ok ==> Lays(v, l) && Canonical(l) && Fits3(l) && Wrote(old(w.buf), w.buf, n, Encode3(l))
    decreases v, 2
  {
    hide Wrote, Encode3, EncodeItems3, Lays, Canonical, Fits3, Sized3, MapSized3, TraitBytes;
    ghost var before := w.buf;
    l := LNull;
    ObjectSized(v, typ, props);
    var keys := SortedKeys(props);
    var marker := w.Write([10]);
    ghost var start := w.buf;
    ok, n := EncodeAmf3Trait(w, typ, keys, props);
    if !ok {
      return;
    }
    ghost var mid, vals := w.buf, [];
    var m;
    ok, m, vals := EncodeAmf3Values(w, keys, props, v);
    if ok {
      l := LObj(typ, keys, vals);
      ObjectLaid(v, typ, props, keys, vals);
      WroteMore(start, mid, n, TraitBytes(typ, keys), w.buf, m, EncodeItems3(vals));
      Marked(before, 10, start, w.buf, n + m, TraitBytes(typ, keys) + EncodeItems3(vals));
      ObjectEncoding3(typ, keys, vals);
    }
    n := marker + (n + m);
  }

  lemma ObjectSized(v: Value, typ: Text, props: map<Text, Value>)
    requires v == Typed(typ, props) || (typ == [] && v == Obj(props))
    ensures Sized3(v) <==> |typ| < 0x1000_0000 && MapSized3(props) && forall k :: k in props ==> Sized3(props[k])
    ensures MapSized3(props) ==> |props.Keys| < 0x200_0000
  {
  }

  lemma ObjectLaid(v: Value, typ: Text, props: map<Text, Value>, keys: seq<Text>, vals: seq<Layout>)
    requires v == Typed(typ, props) || (typ == [] && v == Obj(props))
    requires Elements(keys) == props.Keys && Sorted(keys) && |vals| == |keys|
    requires forall j :: 0 <= j < |keys| ==> keys[j] in props && Lays(props[keys[j]], vals[j])
    requires AllCanonical(vals) && Fit3(vals)
    requires |typ| < 0x1000_0000 && |keys| < 0x200_0000 && TextsFit(keys, 0x1000_0000)
    ensures var l := LObj(typ, keys, vals); Lays(v, l) && Canonical(l) && Fits3(l)
  {
    SortedHasNoRepeat(keys);
  }

  /** The header of an object with its class name and its keys. */
  function TraitBytes(typ: Text, keys: seq<Text>): seq<byte>
    requires |typ| < 0x1000_0000 && |keys| < 0x200_0000 && TextsFit(keys, 0x1000_0000)
  {
    EncodeU29(16 * |keys| + 3) + EncodeUtf8(typ) + EncodeUtf8s(keys)
  }

  lemma ObjectEncoding3(typ: Text, keys: seq<Text>, vals: seq<Layout>)
    requires Fits3(LObj(typ, keys, vals))
    ensures Encode3(LObj(typ, keys, vals)) == [10] + (TraitBytes(typ, keys) + EncodeItems3(vals))
  {
    hide EncodeU29, EncodeUtf8, EncodeUtf8s, EncodeItems3;
    Regroup(EncodeU29(16 * |keys| + 3), EncodeUtf8(typ), EncodeUtf8s(keys), EncodeItems3(vals));
  }

  method EncodeAmf3Trait(w: Writer, typ: Text, keys: seq<Text>, ghost props: map<Text, Value>) returns (ok: bool, n: nat)
    requires |keys| == |props.Keys| && Elements(keys) == props.Keys
    modifies w
    ensures ok <==> MapSized3(props) && |typ| < 0x1000_0000
    ensures ok ==> TextsFit(keys, 0x1000_0000) && Wrote(old(w.buf), w.buf, n, TraitBytes(typ, keys))
  {
    hide Wrote, EncodeU29, EncodeUtf8, EncodeUtf8s;
    assert forall k :: k in props ==> k in Elements(keys);
    assert forall i :: 0 <= i < |keys| ==> keys[i] in Elements(keys);
    ok, n := EncodeAmf3Uint29(w, 16 * |keys| + 3);
    if !ok {
      return;
    }
    ghost var mid := w.buf;
    var m;
    ok, m := EncodeAmf3Utf8(w, typ);
    if !ok {
      return;
    }
    WroteMore(old(w.buf), mid, n, EncodeU29(16 * |keys| + 3), w.buf, m, EncodeUtf8(typ));
    n := n + m;
    mid := w.buf;
    ok, m := EncodeAmf3Keys(w, keys);
    if ok {
      WroteMore(old(w.buf), mid, n, EncodeU29(16 * |keys| + 3) + EncodeUtf8(typ), w.buf, m, EncodeUtf8s(keys));
    }
    n := n + m;
  }

  method EncodeAmf3Keys(w: Writer, keys: seq<Text>) returns (ok: bool, n: nat)
    modifies w
    ensures ok <==> TextsFit(keys, 0x1000_0000)
    ensures ok ==> Wrote(old(w.buf), w.buf, n, EncodeUtf8s(keys))
  {
    n := 0;
    assert keys[..0] == [] && Wrote(old(w.buf), w.buf, n, EncodeUtf8s([]));
    hide Wrote, EncodeUtf8, EncodeUtf8s;
    for i := 0 to |keys|
      invariant TextsFit(keys[..i], 0x1000_0000) && Wrote(old(w.buf), w.buf, n, EncodeUtf8s(keys[..i]))
    {
      ghost var mid := w.buf;
      var m;
      ok, m := EncodeAmf3Utf8(w, keys[i]);
      if !ok {
        return;
      }
      Utf8sSnoc(keys[..i], keys[i]);
      assert keys[..i] + [keys[i]] == keys[..i + 1];
      WroteMore(old(w.buf), mid, n, EncodeUtf8s(keys[..i]), w.buf, m, EncodeUtf8(keys[i]));
      n := n + m;
    }
    assert keys[..|keys|] == keys;
    ok := true;
  }

  lemma KeysCover(keys: seq<Text>, props: map<Text, Value>)
    requires Elements(keys) == props.Keys
    ensures (forall i :: 0 <= i < |keys| ==> keys[i] in props) && forall k :: k in props ==> k in keys
  {
    assert forall i :: 0 <= i < |keys| ==> keys[i] in Elements(keys);
    assert forall k :: k in props ==> k in Elements(keys);
  }

  method EncodeAmf3Values(w: Writer, keys: seq<Text>, props: map<Text, Value>, ghost v: Value)
    returns (ok: bool, n: nat, ghost vals: seq<Layout>)
    requires Supported3(v) && ((v.Typed? && v.props == props) || v == Obj(props))
    requires Elements(keys) == props.Keys
    modifies w
    ensures ok <==> forall k :: k in props ==> Sized3(props[k])
    ensures ok ==> |vals| == |keys| && forall j :: 0 <= j < |keys| ==> keys[j] in props && Lays(props[keys[j]], vals[j])
    ensures ok ==> AllCanonical(vals) && Fit3(vals) && Wrote(old(w.buf), w.buf, n, EncodeItems3(vals))
    decreases v, 1
  {
    hide LaidTo, Wrote, Encode3, Canonical, Fits3, Lays, Sized3, Elements, Supported3, EncodeItems3, Fit3, AllCanonical;
    KeysCover(keys, props);
    n, vals := 0, [];
    NothingWritten3(w.buf);
    FieldsSupported3(v, props);
    LaidToStart(props, keys);
    for i := 0 to |keys|
      invariant LaidTo(props, keys, vals, i)
      invariant Fit3(vals) && AllCanonical(vals) && Wrote(old(w.buf), w.buf, n, EncodeItems3(vals))
    {
      ghost var mid := w.buf;
      var m;
      ghost var x;
      ok, m, x := EncodeAmf3(w, props[keys[i]]);
      if !ok {
        return;
      }
      LaidToStep(props, keys, vals, i, x);
      ItemsSnoc3(vals, x);
      WroteMore(old(w.buf), mid, n, EncodeItems3(vals), w.buf, m, Encode3(x));
      n, vals := n + m, vals + [x];
    }
    LaidToEnd(props, keys, vals);
    ok := true;
  }

  /** The first i keys have been laid out. */
  ghost predicate LaidTo(props: map<Text, Value>, keys: seq<Text>, vals: seq<Layout>, i: nat) {
    |vals| == i <= |keys| &&
    forall j :: 0 <= j < i ==> keys[j] in props && Lays(props[keys[j]], vals[j]) && Sized3(props[keys[j]])
  }

  lemma LaidToStart(props: map<Text, Value>, keys: seq<Text>)
    ensures LaidTo(props, keys, [], 0)
  {
  }

  lemma LaidToStep(props: map<Text, Value>, keys: seq<Text>, vals: seq<Layout>, i: nat, x: Layout)
    requires LaidTo(props, keys, vals, i) && i < |keys| && keys[i] in props
    requires Lays(props[keys[i]], x) && Sized3(props[keys[i]])
    ensures LaidTo(props, keys, vals + [x], i + 1)
  {
  }

  lemma LaidToEnd(props: map<Text, Value>, keys: seq<Text>, vals: seq<Layout>)
    requires LaidTo(props, keys, vals, |keys|)
    ensures |vals| == |keys|
    ensures forall j :: 0 <= j < |keys| ==> keys[j] in props && Lays(props[keys[j]], vals[j]) && Sized3(props[keys[j]])
  {
  }

  // ---- batches ----

  /** The values an encoder has a case for. */
  predicate Supported(v: Value, version: Version) {
    match version
    case Amf0 => Supported0(v)
    case Amf3 => Supported3(v)
  }

  predicate Encodable(v: Value, version: Version)
    requires Supported(v, version)
  {
    match version
    case Amf0 => Untyped(v)
    case Amf3 => Sized3(v)
  }

  predicate AllFit(ls: seq<Layout>, version: Version) {
    version.Amf3? ==> Fit3(ls) && AllCanonical(ls)
  }

  function BatchBytes(ls: seq<Layout>, version: Version): seq<byte>
    requires AllFit(ls, version)
  {
    match version
    case Amf0 => EncodeItems0(ls)
    case Amf3 => EncodeItems3(ls)
  }

  lemma BatchSnoc(ls: seq<Layout>, l: Layout, version: Version)
    requires AllFit(ls, version) && (version.Amf3? ==> Fits3(l) && Canonical(l))
    ensures AllFit(ls + [l], version)
    ensures BatchBytes(ls + [l], version) == BatchBytes(ls, version) + if version.Amf0? then Encode0(l) else Encode3(l)
  {
    hide Encode0, Encode3, EncodeItems0, EncodeItems3, Fit3, AllCanonical;
    match version {
      case Amf0 => ItemsSnoc0(ls, l);
      case Amf3 => ItemsSnoc3(ls, l);
    }
  }

  lemma BatchStart(version: Version, buf: seq<byte>)
    ensures AllFit([], version) && Wrote(buf, buf, 0, BatchBytes([], version))
  {
  }

  method Encode(w: Writer, v: Value, version: Version) returns (ok: bool, n: nat, ghost l: Layout)
    requires Supported(v, version)
    modifies w
    ensures ok <==> Encodable(v, version)
    ensures ok ==> Lays(v, l) && (version.Amf3? ==> Fits3(l) && Canonical(l))
    ensures ok ==> Wrote(old(w.buf), w.buf, n, if version.Amf0? then Encode0(l) else Encode3(l))
  {
    hide Encode0, Encode3, Wrote, Lays, Canonical, Fits3;
    match version
    case Amf0 => ok, n, l := EncodeAmf0(w, v);
    case Amf3 => ok, n, l := EncodeAmf3(w, v);
  }

  /** One value after the other; the first error ends the batch. */
  method EncodeBatch(w: Writer, vals: seq<Value>, version: Version) returns (ok: bool, ghost ls: seq<Layout>)
    requires forall i :: 0 <= i < |vals| ==> Supported(vals[i], version)
    modifies w
    ensures ok <==> forall i :: 0 <= i < |vals| ==> Encodable(vals[i], version)
    ensures ok ==> |ls| == |vals| && forall i :: 0 <= i < |vals| ==> Lays(vals[i], ls[i])
    ensures ok ==> AllFit(ls, version) && w.buf == old(w.buf) + BatchBytes(ls, version)
  {
    hide Supported, Encodable, Encode0, Encode3, Lays, Canonical, Fits3, AllFit, BatchBytes;
    ls := [];
    ghost var n := 0;
    BatchStart(version, w.buf);
    for i := 0 to |vals|
      invariant |ls| == i && forall j :: 0 <= j < i ==> Lays(vals[j], ls[j]) && Encodable(vals[j], version)
      invariant AllFit(ls, version) && Wrote(old(w.buf), w.buf, n, BatchBytes(ls, version))
    {
      ghost var mid := w.buf;
      var m;
      ghost var x;
      ok, m, x := Encode(w, vals[i], version);
      if !ok {
        return;
      }
      BatchSnoc(ls, x, version);
      WroteMore(old(w.buf), mid, n, BatchBytes(ls, version), w.buf, m, if version.Amf0? then Encode0(x) else Encode3(x));
      n, ls := n + m, ls + [x];
    }
    ok := true;
  }
}
