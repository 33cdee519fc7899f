/** The rules of H.264 rewriting by the numbers of the unit types. */
module PictureUnits {
  import opened Bytes
  import opened AnnexB
  import opened H264

  /** The low five bits of the first byte are one of these numbers. */
  predicate Among(u: Unit, types: set<byte>) {
    u != [] && u[0] % 32 in types
  }

  function OfTypes(us: seq<Unit>, types: set<byte>): seq<Unit> {
    if us == [] then []
    else OfTypes(us[..|us| - 1], types) + if Among(us[|us| - 1], types) then [us[|us| - 1]] else []
  }

  lemma {:induction false} TypesAre(us: seq<Unit>)
    ensures Kept(us) == OfTypes(us, {1, 5, 6}) && ParameterSets(us) == OfTypes(us, {7, 8})
  {
    if us != [] {
      TypesAre(us[..|us| - 1]);
    }
  }

  lemma IdrIs(us: seq<Unit>)
    ensures FirstIdr(us) == |us| <==> forall i :: 0 <= i < |us| ==> !Among(us[i], {5})
  {
    hide FirstIdr;
    var i := FirstIdr(us);
    assert forall j :: 0 <= j < |us| ==> (IsIdr(us[j]) <==> Among(us[j], {5}));
  }

  /** Before any unit there is the delimiter alone. */
  lemma DelimiterFirst(stored: seq<Unit>)
    ensures Rewritten([], stored) == [[9, 0xf0]] && Join([[9, 0xf0]]) == [0, 0, 0, 1, 9, 0xf0]
  {
    assert [[9, 0xf0]][..0] == [] && Join([]) == [];
  }

  /** Slices and SEI units are written as they come, and so is every IDR slice but the first. */
  lemma SliceWritten(us: seq<Unit>, u: Unit, stored: seq<Unit>)
    requires u != []
    requires u[0] % 32 == 1 || u[0] % 32 == 6 ||
             (u[0] % 32 == 5 && exists i :: 0 <= i < |us| && us[i] != [] && us[i][0] % 32 == 5)
    ensures Rewritten(us + [u], stored) == Rewritten(us, stored) + [u]
    ensures Join(Rewritten(us + [u], stored)) == Join(Rewritten(us, stored)) + [0, 0, 0, 1] + u
  {
    hide Rewritten, Parameters, FirstIdr, Join;
    RewrittenSnoc(us, u, stored);
    IdrIs(us);
    if i :| 0 <= i < |us| && us[i] != [] && us[i][0] % 32 == 5 {
      assert Among(us[i], {5});
    }
    assert Rewritten(us, stored) + [] == Rewritten(us, stored);
    JoinSnoc(Rewritten(us, stored), u);
  }

  /** In front of the first IDR slice go the picture's own parameter sets so far, or else the stored ones. */
  lemma FirstIdrWritten(us: seq<Unit>, u: Unit, stored: seq<Unit>)
    requires u != [] && u[0] % 32 == 5
    requires forall i :: 0 <= i < |us| ==> us[i] == [] || us[i][0] % 32 != 5
    ensures var own := OfTypes(us, {7, 8});
            Rewritten(us + [u], stored) == Rewritten(us, stored) + (if own == [] then stored else own) + [u]
  {
    hide Rewritten, FirstIdr;
    RewrittenSnoc(us, u, stored);
    IdrIs(us);
    TypesAre(us);
  }

  /** Every other unit, the parameter sets among them, is not written where it stands. */
  lemma OtherUnitDropped(us: seq<Unit>, u: Unit, stored: seq<Unit>)
    requires u != [] && u[0] % 32 != 1 && u[0] % 32 != 5 && u[0] % 32 != 6
    ensures Rewritten(us + [u], stored) == Rewritten(us, stored)
  {
    hide Rewritten, Parameters, FirstIdr;
    RewrittenSnoc(us, u, stored);
    assert Rewritten(us, stored) + [] + [] == Rewritten(us, stored);
  }

  /**
   * A whole picture, of any units that fit their length fields: cutting the output at its start codes gives the
   * delimiter first, and of types 1, 5 and 6 exactly the units of the picture, in order and once each.
   */
  lemma PictureArrives(us: seq<Unit>, stored: seq<Unit>)
    requires forall i :: 0 <= i < |us| ==> 0 < |us[i]| < 0x1_0000_0000 && CodeFree(us[i])
    requires forall i :: 0 <= i < |stored| ==> CodeFree(stored[i])
    requires OfTypes(stored, {1, 5, 6}) == []
    ensures var out := Cut(Join(Rewritten(Split(Prefixed(us)).units, stored)));
            out != [] && out[0] == [9, 0xf0] && OfTypes(out, {1, 5, 6}) == OfTypes(us, {1, 5, 6})
  {
    hide Cut, Join, CodeFree, Split, Kept, OfTypes;
    forall i | 0 <= i < |us|
      ensures Sized(us[i])
    {
      SizedUnit(us[i]);
    }
    TypesAre(stored);
    TypesAre(us);
    PictureSurvives(us, stored);
    TypesAre(Rewritten(us, stored));
  }

  lemma Parts(a: seq<byte>, b: seq<byte>, c: seq<byte>, d: seq<byte>, e: seq<byte>, f: seq<byte>)
    requires |a| == 6 && |b| == |e| == 2 && |d| == 1
    ensures var src, n := a + b + c + d + e + f, |c|;
            |src| == 11 + n + |f| && src[6..8] == b && src[8..8 + n] == c && src[9 + n..11 + n] == e && src[11 + n..] == f
  {
  }

  /** A sequence header: six bytes, the first set with its length, one byte, the second set with its length. */
  lemma SequenceHeaderRead(head: seq<byte>, sps: Unit, k: byte, pps: Unit)
    requires |head| == 6 && 0 < |sps| < 0x1_0000 && 0 < |pps| < 0x1_0000
    ensures SequenceHeader(head + BE(|sps|, 2) + sps + [k] + BE(|pps|, 2) + pps) == ([sps, pps], None)
  {
    hide BEVal, BE;
    Pow256Values();
    BERoundTrip(|sps|, 2);
    BERoundTrip(|pps|, 2);
    Parts(head, BE(|sps|, 2), sps, [k], BE(|pps|, 2), pps);
  }
}
