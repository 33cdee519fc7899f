/** Media packets and how the relay classifies them. */
module Packets {
  import opened Bytes

  /** The parsed media header, which answers the questions of both the audio and the video interface. */
  datatype Tag = Tag(soundFormat: nat, aacPacketType: nat, frameType: nat, avcPacketType: nat) {
    predicate IsKeyFrame() {
      frameType == 1
    }

    predicate IsSeq() {
      frameType == 1 && avcPacketType == 0
    }

    predicate IsAacHeader() {
      soundFormat == 10 && aacPacketType == 0
    }
  }

  datatype Packet = Packet(
    isAudio: bool, isVideo: bool, isMetadata: bool, timestamp: nat, streamID: nat, header: Option<Tag>, data: seq<byte>)

  datatype Class = Metadata | AudioHeader | VideoHeader | Media | Passing

  /** What the cache does with a packet: keep it as the latest of its kind, add it to the group, or nothing. */
  function Classify(p: Packet): Class {
    if p.isMetadata then Metadata
    else if !p.isVideo then
      if p.header.None? then Media else if p.header.value.IsAacHeader() then AudioHeader else Passing
    else
      if p.header.None? then Passing else if p.header.value.IsSeq() then VideoHeader else Media
  }

  /** A packet that starts a group of pictures. */
  predicate StartsGroup(p: Packet) {
    p.isVideo && p.header.Some? && p.header.value.IsKeyFrame() && !p.header.value.IsSeq()
  }

  function Filter(ps: seq<Packet>, c: Class): seq<Packet> {
    if ps == [] then []
    else if Classify(ps[|ps| - 1]) == c then Filter(ps[..|ps| - 1], c) + [ps[|ps| - 1]]
    else Filter(ps[..|ps| - 1], c)
  }

  lemma {:induction false} FilterConcat(a: seq<Packet>, b: seq<Packet>, c: Class)
    ensures Filter(a + b, c) == Filter(a, c) + Filter(b, c)
    decreases |b|
  {
    if b == [] {
      assert a + b == a && Filter(a, c) + [] == Filter(a, c);
    } else {
      var init, last := b[..|b| - 1], b[|b| - 1];
      assert (a + b)[..|a + b| - 1] == a + init;
      FilterConcat(a, init, c);
      assert Filter(b, c) == Filter(init, c) + (if Classify(last) == c then [last] else []);
      Associates(Filter(a, c), Filter(init, c), [last]);
      assert Filter(a, c) + Filter(init, c) + [] == Filter(a, c) + (Filter(init, c) + []);
    }
  }

  /** The latest packet of a class, if there is one. */
  function Latest(ps: seq<Packet>, c: Class): seq<Packet> {
    var f := Filter(ps, c);
    if f == [] then [] else [f[|f| - 1]]
  }

  lemma LatestSnoc(ps: seq<Packet>, p: Packet, c: Class)
    ensures Latest(ps + [p], c) == if Classify(p) == c then [p] else Latest(ps, c)
  {
    assert (ps + [p])[..|ps|] == ps;
  }

  /** Groups of pictures: each begins with a key frame; what comes before the first key frame is dropped. */
  function Groups(ms: seq<Packet>): seq<seq<Packet>> {
    if ms == [] then []
    else
      var gs, p := Groups(ms[..|ms| - 1]), ms[|ms| - 1];
      if StartsGroup(p) then gs + [[p]]
      else if gs == [] then []
      else gs[..|gs| - 1] + [gs[|gs| - 1] + [p]]
  }

  function Flatten(gs: seq<seq<Packet>>): seq<Packet> {
    if gs == [] then [] else Flatten(gs[..|gs| - 1]) + gs[|gs| - 1]
  }

  function LastGroup(ms: seq<Packet>): seq<Packet> {
    var gs := Groups(ms);
    if gs == [] then [] else gs[|gs| - 1]
  }

  /** The last n groups, or all of them if there are fewer. */
  function LastGroups(ms: seq<Packet>, n: nat): seq<seq<Packet>> {
    var gs := Groups(ms);
    if |gs| <= n then gs else gs[|gs| - n..]
  }

  lemma GroupsSnoc(ms: seq<Packet>, p: Packet)
    ensures var gs := Groups(ms);
            Groups(ms + [p]) ==
            if StartsGroup(p) then gs + [[p]] else if gs == [] then [] else gs[..|gs| - 1] + [gs[|gs| - 1] + [p]]
  {
    assert (ms + [p])[..|ms|] == ms;
  }

  lemma {:induction false} GroupsAreNonEmpty(ms: seq<Packet>)
    ensures forall i :: 0 <= i < |Groups(ms)| ==> Groups(ms)[i] != []
    decreases |ms|
  {
    if ms != [] {
      GroupsAreNonEmpty(ms[..|ms| - 1]);
    }
  }

  lemma LastGroupSnoc(ms: seq<Packet>, p: Packet)
    ensures LastGroup(ms + [p]) ==
            if StartsGroup(p) then [p] else if LastGroup(ms) == [] then [] else LastGroup(ms) + [p]
    ensures LastGroup(ms) == [] <==> Groups(ms) == []
  {
    GroupsSnoc(ms, p);
    GroupsAreNonEmpty(ms);
  }

  /** g is the part of ms from its last group start on. */
  predicate FromLastStart(ms: seq<Packet>, g: seq<Packet>) {
    |g| <= |ms| && g == ms[|ms| - |g|..] && (g != [] ==> StartsGroup(g[0])) &&
    (forall i :: 0 <= i < |ms| && |ms| - |g| < i ==> !StartsGroup(ms[i])) &&
    (g == [] ==> forall i :: 0 <= i < |ms| ==> !StartsGroup(ms[i]))
  }

  lemma FromLastStartSnoc(ms: seq<Packet>, g: seq<Packet>, p: Packet)
    requires FromLastStart(ms, g)
    ensures FromLastStart(ms + [p], if StartsGroup(p) then [p] else if g == [] then [] else g + [p])
  {
    var w := ms + [p];
    assert forall i :: 0 <= i < |ms| ==> w[i] == ms[i];
    assert g != [] ==> (g + [p])[0] == g[0];
  }

  /** The last group is the end of the stream, from its last key frame on. */
  lemma {:induction false} LastGroupIsSuffix(ms: seq<Packet>)
    ensures FromLastStart(ms, LastGroup(ms))
    decreases |ms|
  {
    if ms != [] {
      var init, p := ms[..|ms| - 1], ms[|ms| - 1];
      assert ms == init + [p];
      LastGroupIsSuffix(init);
      LastGroupSnoc(init, p);
      FromLastStartSnoc(init, LastGroup(init), p);
    }
  }
}
