/** Units of H.264 video: with a length in front (AVCC), or with a start code in front (Annex B of ITU-T H.264). */
module AnnexB {
  import opened Bytes

  type Unit = seq<byte>

  const CODE: seq<byte> := [0, 0, 0, 1]
  const AUD: Unit := [9, 0xf0]

  datatype VideoError = DecDataNil | SpsData | PpsHeader | PpsData | VideoDataInvalid | DataSizeNotMatch | NaluBodyLen

  // ---- length-prefixed units ----

  /** The units of an input up to the first defect, and the defect. */
  datatype Parsed = Parsed(units: seq<Unit>, err: Option<VideoError>)

  function Split(src: seq<byte>): Parsed {
    if src == [] then Parsed([], None)
    else if |src| < 4 then Parsed([], Some(DataSizeNotMatch))
    else
      var n := BEVal(src[..4]);
      if n == 0 || n > |src| - 4 then Parsed([], Some(NaluBodyLen))
      else
        var rest := Split(src[4 + n..]);
        Parsed([src[4..4 + n]] + rest.units, rest.err)
  }

  predicate Sized(u: Unit) {
    0 < |u| < 0x1_0000_0000
  }

  function Prefixed(us: seq<Unit>): seq<byte> {
    if us == [] then [] else BE(|us[0]|, 4) + us[0] + Prefixed(us[1..])
  }

  lemma {:induction false} SplitPrefixed(us: seq<Unit>)
    requires forall i :: 0 <= i < |us| ==> Sized(us[i])
    ensures Split(Prefixed(us)) == Parsed(us, None)
  {
    if us != [] {
      var u, rest := us[0], Prefixed(us[1..]);
      var src := Prefixed(us);
      assert Sized(u);
      SplitPrefixed(us[1..]);
      Pow256Values();
      BERoundTrip(|u|, 4);
      assert src[..4] == BE(|u|, 4) && src[4..4 + |u|] == u && src[4 + |u|..] == rest;
      assert us == [u] + us[1..];
    }
  }

  lemma PrefixedFirst(u: Unit, us: seq<Unit>)
    ensures Prefixed([u] + us) == BE(|u|, 4) + u + Prefixed(us)
  {
  }

  lemma NothingPrefixed()
    ensures Prefixed([]) == []
  {
  }

  lemma SplitStep(src: seq<byte>)
    ensures src == [] ==> Split(src) == Parsed([], None)
    ensures 0 < |src| < 4 ==> Split(src) == Parsed([], Some(DataSizeNotMatch))
    ensures |src| >= 4 ==>
              var n := BEVal(src[..4]);
              Split(src) == if n == 0 || n > |src| - 4 then Parsed([], Some(NaluBodyLen))
                            else Parsed([src[4..4 + n]] + Split(src[4 + n..]).units, Split(src[4 + n..]).err)
  {
    hide BEVal;
  }

  lemma {:induction false} PrefixedSplit(src: seq<byte>)
    requires Split(src).err.None?
    ensures Prefixed(Split(src).units) == src
    ensures forall i :: 0 <= i < |Split(src).units| ==> Sized(Split(src).units[i])
    decreases |src|
  {
    hide *;
    SplitStep(src);
    if src == [] {
      NothingPrefixed();
    } else {
      var head, n := src[..4], BEVal(src[..4]);
      var rest := src[4 + n..];
      PrefixedSplit(rest);
      Pow256Values();
      BEOfVal(head);
      PrefixedFirst(src[4..4 + n], Split(rest).units);
      SizedUnit(src[4..4 + n]);
      assert src == head + src[4..4 + n] + rest;
    }
  }

  lemma SizedUnit(u: Unit)
    ensures Sized(u) <==> 0 < |u| < 0x1_0000_0000
  {
  }

  /** Splitting succeeds exactly on inputs made of non-empty length-prefixed units, and finds those units. */
  lemma SplitExact(src: seq<byte>, us: seq<Unit>)
    ensures Split(src) == Parsed(us, None) <==>
            src == Prefixed(us) && forall i :: 0 <= i < |us| ==> Sized(us[i])
  {
    if Split(src) == Parsed(us, None) {
      PrefixedSplit(src);
    }
    if src == Prefixed(us) && forall i :: 0 <= i < |us| ==> Sized(us[i]) {
      SplitPrefixed(us);
    }
  }

  // ---- units behind start codes ----

  function Join(us: seq<Unit>): seq<byte> {
    if us == [] then [] else Join(us[..|us| - 1]) + CODE + us[|us| - 1]
  }

  lemma JoinSnoc(us: seq<Unit>, u: Unit)
    ensures Join(us + [u]) == Join(us) + CODE + u
  {
    assert (us + [u])[..|us|] == us;
  }

  lemma {:induction false} JoinConcat(a: seq<Unit>, b: seq<Unit>)
    ensures Join(a + b) == Join(a) + Join(b)
    decreases |b|
  {
    if b == [] {
      assert a + b == a && Join(a) + [] == Join(a);
    } else {
      var n := |b| - 1;
      JoinConcat(a, b[..n]);
      assert a + b == a + b[..n] + [b[n]];
      JoinSnoc(a + b[..n], b[n]);
      Regroup(Join(a), Join(b[..n]), CODE, b[n]);
    }
  }

  predicate CodeAt(bs: seq<byte>, i: int) {
    0 <= i <= |bs| - 4 && bs[i] == 0 && bs[i + 1] == 0 && bs[i + 2] == 0 && bs[i + 3] == 1
  }

  /** Where the first start code is; the length if there is none. */
  function FirstCode(bs: seq<byte>): (k: nat)
    ensures k <= |bs| && (k < |bs| ==> CodeAt(bs, k)) && forall i :: 0 <= i < k ==> !CodeAt(bs, i)
  {
    if bs == [] then 0
    else if CodeAt(bs, 0) then 0
    else
      var k := FirstCode(bs[1..]);
      assert forall i :: 0 < i < |bs| ==> (CodeAt(bs, i) <==> CodeAt(bs[1..], i - 1));
      k + 1
  }

  predicate CodeFree(u: Unit) {
    forall i :: 0 <= i < |u| ==> !CodeAt(u, i)
  }

  /** Splits at start codes; nothing may come before the first one. */
  function Cut(bs: seq<byte>): seq<Unit> {
    if !CodeAt(bs, 0) then []
    else
      var k := FirstCode(bs[4..]);
      [bs[4..4 + k]] + Cut(bs[4 + k..])
  }

  lemma FirstCodeIs(bs: seq<byte>, k: nat)
    requires k <= |bs| && (k < |bs| ==> CodeAt(bs, k)) && forall i :: 0 <= i < k ==> !CodeAt(bs, i)
    ensures FirstCode(bs) == k
  {
    hide FirstCode, CodeAt;
    var f := FirstCode(bs);
    assert f < k ==> CodeAt(bs, f);
  }

  /** A start code that begins in a unit would lie wholly in it. */
  lemma NoneAcross(u: Unit, rest: seq<byte>, i: nat)
    requires i < |u| && !CodeAt(u, i) && (rest == [] || CodeAt(rest, 0))
    ensures !CodeAt(u + rest, i)
  {
    var bs := u + rest;
    if i + 3 < |u| {
      assert bs[i] == u[i] && bs[i + 1] == u[i + 1] && bs[i + 2] == u[i + 2] && bs[i + 3] == u[i + 3];
    } else if i + 3 < |bs| {
      assert bs[i + 3] == rest[i + 3 - |u|];
    }
  }

  lemma CodeFollows(u: Unit, rest: seq<byte>)
    requires CodeAt(rest, 0)
    ensures CodeAt(u + rest, |u|)
  {
    var bs, n := u + rest, |u|;
    assert bs[n] == rest[0] && bs[n + 1] == rest[1] && bs[n + 2] == rest[2] && bs[n + 3] == rest[3];
  }

  /** A unit ends where the next start code begins. */
  lemma FirstCodeAfter(u: Unit, rest: seq<byte>)
    requires CodeFree(u) && (rest == [] || CodeAt(rest, 0))
    ensures FirstCode(u + rest) == |u|
  {
    hide FirstCode, CodeAt;
    forall i | 0 <= i < |u|
      ensures !CodeAt(u + rest, i)
    {
      NoneAcross(u, rest, i);
    }
    if rest != [] {
      CodeFollows(u, rest);
    }
    FirstCodeIs(u + rest, |u|);
  }

  lemma JoinFirst(us: seq<Unit>)
    requires us != []
    ensures Join(us) == CODE + us[0] + Join(us[1..]) && CodeAt(Join(us), 0)
  {
    assert us == [us[0]] + us[1..];
    JoinConcat([us[0]], us[1..]);
    JoinSnoc([], us[0]);
    assert [] + [us[0]] == [us[0]] && [] + CODE + us[0] == CODE + us[0];
  }

  lemma BehindCode(u: Unit, rest: seq<byte>)
    ensures var bs := CODE + u + rest;
            CodeAt(bs, 0) && bs[4..] == u + rest && bs[4..4 + |u|] == u && bs[4 + |u|..] == rest
  {
    var bs := CODE + u + rest;
    assert bs[0] == 0 && bs[1] == 0 && bs[2] == 0 && bs[3] == 1;
  }

  lemma CutFirst(u: Unit, rest: seq<byte>)
    requires CodeFree(u) && (rest == [] || CodeAt(rest, 0))
    ensures Cut(CODE + u + rest) == [u] + Cut(rest)
  {
    hide FirstCode, CodeFree, CodeAt;
    FirstCodeAfter(u, rest);
    BehindCode(u, rest);
  }

  lemma {:induction false} CutJoin(us: seq<Unit>)
    requires forall i :: 0 <= i < |us| ==> CodeFree(us[i])
    ensures Cut(Join(us)) == us
  {
    hide CodeAt, CodeFree, Join;
    if us == [] {
      NothingToCut();
    } else {
      JoinFirst(us);
      CutJoin(us[1..]);
      if us[1..] == [] {
        NothingToCut();
      } else {
        JoinFirst(us[1..]);
      }
      CutFirst(us[0], Join(us[1..]));
      assert us == [us[0]] + us[1..];
    }
  }

  lemma NothingToCut()
    ensures Join([]) == [] && Cut([]) == []
  {
  }

  lemma {:induction false} CutIsCodeFree(bs: seq<byte>)
    ensures forall i :: 0 <= i < |Cut(bs)| ==> CodeFree(Cut(bs)[i])
    decreases |bs|
  {
    if CodeAt(bs, 0) {
      var rest := bs[4..];
      var k := FirstCode(rest);
      CutIsCodeFree(bs[4 + k..]);
      var u := bs[4..4 + k];
      forall i | 0 <= i < |u|
        ensures !CodeAt(u, i)
      {
        assert !CodeAt(rest, i);
      }
      assert Cut(bs) == [u] + Cut(bs[4 + k..]);
    }
  }

  /** A stream with start codes splits back into its units exactly if no unit contains a start code. */
  lemma CutExact(us: seq<Unit>)
    ensures Cut(Join(us)) == us <==> forall i :: 0 <= i < |us| ==> CodeFree(us[i])
  {
    CutIsCodeFree(Join(us));
    if forall i :: 0 <= i < |us| ==> CodeFree(us[i]) {
      CutJoin(us);
    }
  }

  // ---- which units are passed on ----

  /** The low five bits of the first byte. */
  function Type(u: Unit): nat {
    if u == [] then 0 else (u[0] % 32) as nat
  }

  predicate IsIdr(u: Unit) { Type(u) == 5 }
  predicate IsParameterSet(u: Unit) { Type(u) == 7 || Type(u) == 8 }
  predicate IsKept(u: Unit) { Type(u) == 1 || Type(u) == 5 || Type(u) == 6 }

  function Kept(us: seq<Unit>): seq<Unit> {
    if us == [] then [] else Kept(us[..|us| - 1]) + if IsKept(us[|us| - 1]) then [us[|us| - 1]] else []
  }

  function ParameterSets(us: seq<Unit>): seq<Unit> {
    if us == [] then []
    else ParameterSets(us[..|us| - 1]) + if IsParameterSet(us[|us| - 1]) then [us[|us| - 1]] else []
  }

  /** Where the first IDR unit is; the length if there is none. */
  function FirstIdr(us: seq<Unit>): (i: nat)
    ensures i <= |us| && (i < |us| ==> IsIdr(us[i])) && forall j :: 0 <= j < i ==> !IsIdr(us[j])
  {
    if us == [] then 0
    else
      var n := |us| - 1;
      var i := FirstIdr(us[..n]);
      if i < n || IsIdr(us[n]) then i else n + 1
  }

  /** The parameter sets that go before the first IDR unit. */
  function Parameters(before: seq<Unit>, stored: seq<Unit>): seq<Unit> {
    if ParameterSets(before) == [] then stored else ParameterSets(before)
  }

  /** What becomes of the units of one picture. */
  function Rewritten(us: seq<Unit>, stored: seq<Unit>): seq<Unit> {
    var i := FirstIdr(us);
    if i == |us| then [AUD] + Kept(us)
    else [AUD] + Kept(us[..i]) + Parameters(us[..i], stored) + Kept(us[i..])
  }

  lemma FilterSnoc(us: seq<Unit>, u: Unit)
    ensures Kept(us + [u]) == Kept(us) + if IsKept(u) then [u] else []
    ensures ParameterSets(us + [u]) == ParameterSets(us) + if IsParameterSet(u) then [u] else []
    ensures FirstIdr(us + [u]) == if FirstIdr(us) < |us| || IsIdr(u) then FirstIdr(us) else |us| + 1
  {
    assert (us + [u])[..|us|] == us;
  }

  lemma AppendInside(a: seq<Unit>, b: seq<Unit>, c: seq<Unit>, d: seq<Unit>, e: seq<Unit>)
    ensures a + b + c + (d + e) == a + b + c + d + [] + e
    ensures a + (b + e) == a + b + [] + e
  {
    assert a + b + c + d + [] == a + b + c + d && a + b + [] == a + b;
    Associates(a + b + c, d, e);
    Associates(a, b, e);
  }

  /** The two shapes of the output. */
  lemma RewrittenIs(us: seq<Unit>, stored: seq<Unit>, i: nat)
    requires i == FirstIdr(us)
    ensures i == |us| ==> Rewritten(us, stored) == [AUD] + Kept(us)
    ensures i < |us| ==>
              Rewritten(us, stored) == [AUD] + Kept(us[..i]) + Parameters(us[..i], stored) + Kept(us[i..])
  {
  }

  /** One more unit. */
  lemma RewrittenSnoc(us: seq<Unit>, u: Unit, stored: seq<Unit>)
    ensures Rewritten(us + [u], stored) ==
            Rewritten(us, stored) +
            (if IsIdr(u) && FirstIdr(us) == |us| then Parameters(us, stored) else []) +
            if IsKept(u) then [u] else []
  {
    hide Kept, ParameterSets, FirstIdr, Parameters, Rewritten;
    var i, w, last := FirstIdr(us), us + [u], if IsKept(u) then [u] else [];
    FilterSnoc(us, u);
    RewrittenIs(us, stored, i);
    RewrittenIs(w, stored, FirstIdr(w));
    if i < |us| {
      assert w[..i] == us[..i] && w[i..] == us[i..] + [u];
      FilterSnoc(us[i..], u);
      AppendInside([AUD], Kept(us[..i]), Parameters(us[..i], stored), Kept(us[i..]), last);
    } else if IsIdr(u) {
      assert w[..i] == us && w[i..] == [u];
      JustOne(u);
    } else {
      AppendInside([AUD], Kept(us), [], [], last);
    }
  }

  lemma JustOne(u: Unit)
    ensures Kept([u]) == if IsKept(u) then [u] else []
  {
  }

  lemma KeptNothing()
    ensures Kept([]) == []
  {
  }

  lemma {:induction false} KeptConcat(a: seq<Unit>, b: seq<Unit>)
    ensures Kept(a + b) == Kept(a) + Kept(b)
    decreases |b|
  {
    hide *;
    if b == [] {
      KeptNothing();
      assert a + b == a && Kept(a) + [] == Kept(a);
    } else {
      var n := |b| - 1;
      var init, last := b[..n], b[n];
      KeptConcat(a, init);
      assert a + b == a + init + [last] && b == init + [last];
      FilterSnoc(a + init, last);
      FilterSnoc(init, last);
      Associates(Kept(a), Kept(init), if IsKept(last) then [last] else []);
    }
  }

  lemma {:induction false} NoParametersKept(us: seq<Unit>)
    ensures Kept(ParameterSets(us)) == []
  {
    if us != [] {
      var n := |us| - 1;
      NoParametersKept(us[..n]);
      if IsParameterSet(us[n]) {
        FilterSnoc(ParameterSets(us[..n]), us[n]);
      } else {
        assert ParameterSets(us[..n]) + [] == ParameterSets(us[..n]);
      }
    }
  }

  /** Slices, IDR slices and SEI units all survive, in order and once each; what is added is never one of them. */
  lemma KeptSurvive(us: seq<Unit>, stored: seq<Unit>)
    requires Kept(stored) == []
    ensures Kept(Rewritten(us, stored)) == Kept(us)
  {
    hide Rewritten, ParameterSets, Kept, FirstIdr;
    var i := FirstIdr(us);
    RewrittenIs(us, stored, i);
    JustOne(AUD);
    assert !IsKept(AUD);
    if i == |us| {
      KeptConcat([AUD], Kept(us));
      KeptTwice(us);
    } else {
      var before, after, p := us[..i], us[i..], Parameters(us[..i], stored);
      NoParametersKept(before);
      KeptTwice(before);
      KeptTwice(after);
      KeptConcat([AUD] + Kept(before) + p, Kept(after));
      KeptConcat([AUD] + Kept(before), p);
      KeptConcat([AUD], Kept(before));
      KeptConcat(before, after);
      assert us == before + after;
    }
  }

  lemma {:induction false} KeptTwice(us: seq<Unit>)
    ensures Kept(Kept(us)) == Kept(us)
  {
    if us != [] {
      var n := |us| - 1;
      KeptTwice(us[..n]);
      if IsKept(us[n]) {
        FilterSnoc(Kept(us[..n]), us[n]);
      } else {
        assert Kept(us[..n]) + [] == Kept(us[..n]);
      }
    }
  }
}
