/** The H.264 parser: stores parameter sets and rewrites pictures from AVCC to Annex B. */
module H264 {
  import opened Bytes
  import opened AnnexB
  import opened Outputs

  /** The sequence header's two parameter sets; the second one runs to the end of the input, whatever its length says. */
  function SequenceHeader(src: seq<byte>): (seq<Unit>, Option<VideoError>) {
    if |src| < 9 then ([], Some(DecDataNil))
    else
      var n := BEVal(src[6..8]);
      if n == 0 || n > |src| - 8 then ([], Some(SpsData))
      else if |src| - 8 - n < 4 then ([], Some(PpsHeader))
      else
        var m := BEVal(src[9 + n..11 + n]);
        if m == 0 || m > |src| - 11 - n then ([], Some(PpsData)) else ([src[8..8 + n], src[11 + n..]], None)
  }

  /** The second parameter set is stored with its announced length exactly if it is the last thing in the header. */
  lemma SecondSetExact(src: seq<byte>)
    requires SequenceHeader(src).1.None?
    ensures var n := BEVal(src[6..8]);
            var m := BEVal(src[9 + n..11 + n]);
            SequenceHeader(src).0[0] == src[8..8 + n] && 11 + n + m <= |src| &&
            (SequenceHeader(src).0[1] == src[11 + n..11 + n + m] <==> 11 + n + m == |src|)
  {
    hide BEVal;
    var n := BEVal(src[6..8]);
    var m := BEVal(src[9 + n..11 + n]);
    assert |src[11 + n..]| == |src| - 11 - n && |src[11 + n..11 + n + m]| == m;
  }

  lemma TwoBytes(s: seq<byte>)
    requires |s| == 2
    ensures BEVal(s) == 256 * s[0] as nat + s[1] as nat
  {
    assert s[..1][..0] == [];
    assert BEVal(s[..1]) == s[0] as nat;
  }

  lemma TwoMore(us: seq<Unit>, a: Unit, b: Unit)
    ensures Join(us) + (CODE + a) + (CODE + b) == Join(us + [a, b])
  {
    hide Join;
    assert us + [a, b] == us + [a] + [b];
    JoinSnoc(us, a);
    JoinSnoc(us + [a], b);
    Associates(Join(us), CODE, a);
    Associates(Join(us) + CODE + a, CODE, b);
  }

  class Parser {
    var specificInfo: seq<byte>
    var pps: seq<byte>
    ghost var stored: seq<Unit>

    constructor ()
      ensures Valid() && stored == []
    {
      specificInfo := [];
      pps := seq(2048, _ => 0);
      stored := [];
    }

    /** What is stored is parameter sets, each behind a start code. */
    ghost predicate Valid()
      reads this
    {
      specificInfo == Join(stored)
    }

    method ParseSpecificInfo(src: seq<byte>) returns (err: Option<VideoError>)
      requires Valid()
      modifies this`specificInfo, this`stored
      ensures Valid() && (stored, err) == (old(stored) + SequenceHeader(src).0, SequenceHeader(src).1)
    {
      hide Join, BEVal;
      assert stored + [] == stored;
      if |src| < 9 {
        return Some(DecDataNil);
      }
      TwoBytes(src[6..8]);
      var spsLen := src[6] as nat * 256 + src[7] as nat;
      if |src[8..]| < spsLen || spsLen <= 0 {
        return Some(SpsData);
      }
      var sps := CODE + src[8..8 + spsLen];
      var tmpBuf := src[8 + spsLen..];
      if |tmpBuf| < 4 {
        return Some(PpsHeader);
      }
      assert tmpBuf[1..3] == src[9 + spsLen..11 + spsLen];
      TwoBytes(tmpBuf[1..3]);
      var ppsLen := tmpBuf[1] as nat * 256 + tmpBuf[2] as nat;
      assert tmpBuf[3..] == src[11 + spsLen..];
      if |tmpBuf[3..]| < ppsLen || ppsLen <= 0 {
        return Some(PpsData);
      }
      var pps := CODE + tmpBuf[3..];
      TwoMore(stored, src[8..8 + spsLen], tmpBuf[3..]);
      specificInfo := specificInfo + sps;
      specificInfo := specificInfo + pps;
      stored := stored + [src[8..8 + spsLen], tmpBuf[3..]];
      err := None;
    }

    method IsNaluHeader(src: seq<byte>) returns (b: bool)
      ensures b == CodeAt(src, 0)
    {
      if |src| < 4 {
        return false;
      }
      b := src[0] == 0 && src[1] == 0 && src[2] == 0 && src[3] == 1;
    }

    /** The big-endian length in front of a unit. */
    method NaluSize(src: seq<byte>) returns (size: Option<nat>)
      ensures size == if |src| < 4 then None else Some(BEVal(src[..4]))
    {
      if |src| < 4 {
        return None;
      }
      var buf := src[..4];
      var n := 0;
      for i := 0 to |buf|
        invariant n == BEVal(buf[..i])
      {
        assert buf[..i + 1][..i] == buf[..i];
        n := n * 256 + buf[i] as nat;
      }
      assert buf[..4] == buf;
      size := Some(n);
    }

    /** What one unit adds: it is dropped, written, or kept as a parameter set. */
    method OneUnit(u: Unit, w: Output, hasSpsPps: bool, hasWriteSpsPps: bool, ghost was: seq<byte>, ghost done: seq<Unit>)
      returns (seen: bool, written: bool)
      requires Valid() && u != [] && InStep(was, w.bytes, pps, hasSpsPps, hasWriteSpsPps, done, stored)
      modifies this`pps, w
      ensures Valid() && InStep(was, w.bytes, pps, seen, written, done + [u], stored)
    {
      hide Join, Rewritten, Kept, ParameterSets, Parameters, FirstIdr;
      UnitStep(was, done, u, stored);
      seen, written := hasSpsPps, hasWriteSpsPps;
      var nalType := u[0] % 32;
      if nalType == 9 {
      } else if nalType == 5 || nalType == 1 || nalType == 6 {
        if nalType == 5 && !written {
          written := true;
          if !seen {
            w.Write(specificInfo);
          } else {
            w.Write(pps);
          }
        }
        w.Write(CODE);
        w.Write(u);
      } else if nalType == 7 || nalType == 8 {
        seen := true;
        pps := pps + CODE;
        pps := pps + u;
      }
    }

    /** Writes the delimiter and the units up to the first defect, and reports the defect. */
    method GetAnnexbH264(src: seq<byte>, w: Output) returns (err: Option<VideoError>)
      requires Valid()
      modifies this`pps, w
      ensures Valid()
      ensures |src| < 4 ==> err == Some(VideoDataInvalid) && w.bytes == old(w.bytes)
      ensures |src| >= 4 ==>
                err == Split(src).err && w.bytes == old(w.bytes) + Join(Rewritten(Split(src).units, stored))
    {
      hide Join, Rewritten, Split, InStep, BEVal;
      ghost var was := w.bytes;
      var dataSize := |src|;
      if dataSize < 4 {
        return Some(VideoDataInvalid);
      }
      pps := [];
      w.Write(CODE + AUD);
      var index := 0;
      var hasSpsPps, hasWriteSpsPps := false, false;
      ghost var done: seq<Unit> := [];
      Begin(was, stored);
      assert src[0..] == src && [] + Split(src).units == Split(src).units;
      while dataSize > 0
        invariant 0 <= index <= |src| && dataSize == |src| - index && Valid()
        invariant Split(src) == Parsed(done + Split(src[index..]).units, Split(src[index..]).err)
        invariant InStep(was, w.bytes, pps, hasSpsPps, hasWriteSpsPps, done, stored)
      {
        SplitStep(src[index..]);
        var size := NaluSize(src[index..]);
        if size.None? {
          End(was, w.bytes, pps, hasSpsPps, hasWriteSpsPps, done, stored);
          return Some(DataSizeNotMatch);
        }
        var nalLen := size.value;
        index := index + 4;
        dataSize := dataSize - 4;
        if dataSize >= nalLen && |src[index..]| >= nalLen && nalLen > 0 {
          var u := src[index..index + nalLen];
          UnitInside(src, index - 4, nalLen);
          Associates(done, [u], Split(src[index + nalLen..]).units);
          hasSpsPps, hasWriteSpsPps := OneUnit(u, w, hasSpsPps, hasWriteSpsPps, was, done);
          done := done + [u];
          index := index + nalLen;
          dataSize := dataSize - nalLen;
        } else {
          End(was, w.bytes, pps, hasSpsPps, hasWriteSpsPps, done, stored);
          return Some(NaluBodyLen);
        }
      }
      SplitStep([]);
      assert src[index..] == [];
      End(was, w.bytes, pps, hasSpsPps, hasWriteSpsPps, done, stored);
      err := None;
    }

    /** A sequence header is stored; a picture is passed through if it begins with a start code, else rewritten. */
    method Parse(b: seq<byte>, isSeq: bool, w: Output) returns (err: Option<VideoError>)
      requires Valid()
      modifies this, w
      ensures Valid() && stored == old(stored) + if isSeq then SequenceHeader(b).0 else []
      ensures isSeq ==> err == SequenceHeader(b).1 && w.bytes == old(w.bytes)
      ensures !isSeq && CodeAt(b, 0) ==> err.None? && w.bytes == old(w.bytes) + b
      ensures !isSeq && !CodeAt(b, 0) && |b| < 4 ==> err == Some(VideoDataInvalid) && w.bytes == old(w.bytes)
      ensures !isSeq && !CodeAt(b, 0) && |b| >= 4 ==>
                err == Split(b).err && w.bytes == old(w.bytes) + Join(Rewritten(Split(b).units, stored))
    {
      hide Join, Rewritten, Split, SequenceHeader, CodeAt;
      assert stored + [] == stored;
      if isSeq {
        err := ParseSpecificInfo(b);
      } else {
        var annexb := IsNaluHeader(b);
        if annexb {
          w.Write(b);
          err := None;
        } else {
          err := GetAnnexbH264(b, w);
        }
      }
    }
  }

  /** A picture in AVCC form is taken for Annex B exactly when its first unit is one byte long. */
  lemma TakenForAnnexB(us: seq<Unit>)
    requires us != [] && forall i :: 0 <= i < |us| ==> Sized(us[i])
    ensures CodeAt(Prefixed(us), 0) <==> |us[0]| == 1
  {
    var n := |us[0]|;
    assert Sized(us[0]);
    Pow256Values();
    BERoundTrip(n, 4);
    var src := Prefixed(us);
    assert src[..4] == BE(n, 4);
    BERoundTrip(1, 4);
    assert BE(1, 4) == CODE by {
      assert BE(0, 1) == [0] && BE(0, 2) == [0, 0] && BE(0, 3) == [0, 0, 0];
    }
    assert CodeAt(src, 0) <==> src[..4] == CODE;
  }

  /**
   * A whole picture: for the units of an AVCC picture the output is the rewritten units behind start codes, which a
   * player splits into the same units, and which hold every slice and SEI unit of the picture in order and once.
   */
  lemma PictureSurvives(us: seq<Unit>, stored: seq<Unit>)
    requires forall i :: 0 <= i < |us| ==> Sized(us[i])
    requires Kept(stored) == []
    requires forall i :: 0 <= i < |us| ==> CodeFree(us[i])
    requires forall i :: 0 <= i < |stored| ==> CodeFree(stored[i])
    ensures var out := Cut(Join(Rewritten(Split(Prefixed(us)).units, stored)));
            out == Rewritten(us, stored) && Kept(out) == Kept(us)
  {
    hide Rewritten, Kept, Cut, Join, CodeFree, Split;
    SplitPrefixed(us);
    KeptSurvive(us, stored);
    RewrittenFrom(us, stored);
    AudCodeFree();
    var out := Rewritten(us, stored);
    forall i | 0 <= i < |out|
      ensures CodeFree(out[i])
    {
      assert out[i] in out;
    }
    CutJoin(out);
  }

  lemma AudCodeFree()
    ensures CodeFree(AUD)
  {
  }

  lemma {:induction false} FiltersFrom(us: seq<Unit>)
    ensures forall u :: u in Kept(us) ==> u in us
    ensures forall u :: u in ParameterSets(us) ==> u in us
  {
    if us != [] {
      FiltersFrom(us[..|us| - 1]);
    }
  }

  /** Every unit of the output comes from the picture, from what is stored, or is the delimiter. */
  lemma RewrittenFrom(us: seq<Unit>, stored: seq<Unit>)
    ensures forall u :: u in Rewritten(us, stored) ==> u == AUD || u in us || u in stored
  {
    hide Kept, ParameterSets, FirstIdr;
    var i := FirstIdr(us);
    FiltersFrom(us);
    FiltersFrom(us[..i]);
    FiltersFrom(us[i..]);
  }

  /** What one more unit adds to the output and to the parameter sets seen. */
  lemma UnitStep(was: seq<byte>, us: seq<Unit>, u: Unit, stored: seq<Unit>)
    ensures var out, idr := was + Join(Rewritten(us, stored)), IsIdr(u) && FirstIdr(us) == |us|;
            was + Join(Rewritten(us + [u], stored)) ==
            if IsKept(u) then (if idr then out + Join(Parameters(us, stored)) else out) + CODE + u else out
    ensures Parameters(us, stored) == if ParameterSets(us) == [] then stored else ParameterSets(us)
    ensures Join(ParameterSets(us + [u])) ==
            if IsParameterSet(u) then Join(ParameterSets(us)) + CODE + u else Join(ParameterSets(us))
    ensures ParameterSets(us + [u]) == [] <==> ParameterSets(us) == [] && !IsParameterSet(u)
    ensures FirstIdr(us + [u]) < |us + [u]| <==> FirstIdr(us) < |us| || IsIdr(u)
  {
    hide Join, Rewritten, Kept, ParameterSets, Parameters, FirstIdr;
    FilterSnoc(us, u);
    RewrittenSnoc(us, u, stored);
    JoinSnoc(ParameterSets(us), u);
    JoinMore(was, Rewritten(us, stored), Parameters(us, stored), u);
    ParametersAre(us, stored);
  }

  lemma UnitInside(src: seq<byte>, i: nat, n: nat)
    requires i + 4 + n <= |src|
    ensures src[i..][4..4 + n] == src[i + 4..i + 4 + n] && src[i..][4 + n..] == src[i + 4 + n..]
  {
  }

  lemma ParametersAre(us: seq<Unit>, stored: seq<Unit>)
    ensures Parameters(us, stored) == if ParameterSets(us) == [] then stored else ParameterSets(us)
    ensures ParameterSets(us) + [] == ParameterSets(us)
  {
  }

  /** What is written for a unit is its place in the output. */
  lemma JoinMore(was: seq<byte>, units: seq<Unit>, more: seq<Unit>, u: Unit)
    ensures was + Join(units) + Join(more) + CODE + u == was + Join(units + more + [u])
    ensures was + Join(units) + CODE + u == was + Join(units + [] + [u])
    ensures units + [] + [] == units
  {
    hide Join;
    JoinConcat(units, more);
    JoinSnoc(units + more, u);
    JoinSnoc(units, u);
    assert units + [] == units;
    Regroup5(was, Join(units), Join(more), CODE, u);
    Regroup(Join(units), Join(more), CODE, u);
    Regroup(was, Join(units), CODE, u);
    Associates(Join(units), CODE, u);
  }

  /** The output and the parser's notes after the units done. */
  ghost predicate InStep(
    was: seq<byte>, bytes: seq<byte>, pps: seq<byte>, seen: bool, written: bool, done: seq<Unit>, stored: seq<Unit>)
  {
    bytes == was + Join(Rewritten(done, stored)) && pps == Join(ParameterSets(done)) &&
    seen == (ParameterSets(done) != []) && written == (FirstIdr(done) < |done|)
  }

  lemma Begin(was: seq<byte>, stored: seq<Unit>)
    ensures InStep(was, was + (CODE + AUD), [], false, false, [], stored)
  {
    JoinSnoc([], AUD);
  }

  lemma End(
    was: seq<byte>, bytes: seq<byte>, pps: seq<byte>, seen: bool, written: bool, done: seq<Unit>, stored: seq<Unit>)
    requires InStep(was, bytes, pps, seen, written, done, stored)
    ensures bytes == was + Join(Rewritten(done, stored)) && done + [] == done
  {
  }
}
