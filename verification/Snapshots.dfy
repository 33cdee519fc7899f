/** What a late writer is owed, told by the fields of the packets alone. */
module Snapshots {
  import opened Bytes
  import opened Packets
  import opened GopCaching
  import opened Caching
  import opened Streams

  predicate IsMetadata(p: Packet) {
    p.isMetadata
  }

  /** An AVC sequence header: a key frame tag of packet type 0. */
  predicate IsVideoHeader(p: Packet) {
    !p.isMetadata && p.isVideo && p.header.Some? && p.header.value.frameType == 1 && p.header.value.avcPacketType == 0
  }

  /** An AAC sequence header: sound format 10 and packet type 0. */
  predicate IsAudioHeader(p: Packet) {
    !p.isMetadata && !p.isVideo && p.header.Some? && p.header.value.soundFormat == 10 && p.header.value.aacPacketType == 0
  }

  /** Any other video, and audio whose header was not parsed. */
  predicate IsFrame(p: Packet) {
    !p.isMetadata &&
    if p.isVideo then p.header.Some? && (p.header.value.frameType != 1 || p.header.value.avcPacketType != 0)
    else p.header.None?
  }

  predicate IsKey(p: Packet) {
    p.isVideo && p.header.Some? && p.header.value.frameType == 1 && p.header.value.avcPacketType != 0
  }

  /** The last packet of a kind, if there is one. */
  function LastOf(h: seq<Packet>, kind: Packet -> bool): seq<Packet> {
    if h == [] then []
    else if kind(h[|h| - 1]) then [h[|h| - 1]]
    else LastOf(h[..|h| - 1], kind)
  }

  lemma LastOfSnoc(h: seq<Packet>, p: Packet, kind: Packet -> bool)
    ensures LastOf(h + [p], kind) == if kind(p) then [p] else LastOf(h, kind)
  {
    assert (h + [p])[..|h|] == h;
  }

  function Frames(h: seq<Packet>): seq<Packet> {
    if h == [] then []
    else
      var n := |h| - 1;
      if IsFrame(h[n]) then Frames(h[..n]) + [h[n]] else Frames(h[..n])
  }

  /** Where the last key frame is; the length if there is none. */
  function LastKey(ms: seq<Packet>): (k: nat)
    ensures k <= |ms| && (k < |ms| ==> IsKey(ms[k])) && forall i :: k < i < |ms| ==> !IsKey(ms[i])
    ensures k == |ms| ==> forall i :: 0 <= i < |ms| ==> !IsKey(ms[i])
    decreases |ms|
  {
    if ms == [] then 0
    else
      var n := |ms| - 1;
      if IsKey(ms[n]) then n
      else
        var k := LastKey(ms[..n]);
        if k == n then n + 1 else k
  }

  lemma KindsAre(p: Packet)
    ensures IsMetadata(p) <==> Classify(p) == Metadata
    ensures IsVideoHeader(p) <==> Classify(p) == VideoHeader
    ensures IsAudioHeader(p) <==> Classify(p) == AudioHeader
    ensures IsFrame(p) <==> Classify(p) == Media
    ensures IsKey(p) <==> StartsGroup(p)
  {
  }

  lemma {:induction false} LatestOf(h: seq<Packet>, c: Class, kind: Packet -> bool)
    requires forall p :: kind(p) <==> Classify(p) == c
    ensures Latest(h, c) == LastOf(h, kind)
    decreases |h|
  {
    if h != [] {
      var init, p := h[..|h| - 1], h[|h| - 1];
      LatestOf(init, c, kind);
      assert h == init + [p];
      LatestSnoc(init, p, c);
      LastOfSnoc(init, p, kind);
    }
  }

  lemma {:induction false} FramesAre(h: seq<Packet>)
    ensures Filter(h, Media) == Frames(h)
    decreases |h|
  {
    if h != [] {
      FramesAre(h[..|h| - 1]);
      KindsAre(h[|h| - 1]);
    }
  }

  lemma LatestIs(h: seq<Packet>)
    ensures Latest(h, Metadata) == LastOf(h, IsMetadata)
    ensures Latest(h, VideoHeader) == LastOf(h, IsVideoHeader)
    ensures Latest(h, AudioHeader) == LastOf(h, IsAudioHeader)
    ensures Filter(h, Media) == Frames(h)
  {
    hide Latest, LastOf, Filter, Frames, Classify, IsMetadata, IsVideoHeader, IsAudioHeader;
    forall p: Packet
      ensures IsMetadata(p) <==> Classify(p) == Metadata
      ensures IsVideoHeader(p) <==> Classify(p) == VideoHeader
      ensures IsAudioHeader(p) <==> Classify(p) == AudioHeader
    {
      KindsAre(p);
    }
    LatestOf(h, Metadata, IsMetadata);
    LatestOf(h, VideoHeader, IsVideoHeader);
    LatestOf(h, AudioHeader, IsAudioHeader);
    FramesAre(h);
  }

  lemma LastKeyIs(ms: seq<Packet>, k: nat)
    requires k <= |ms| && (k < |ms| ==> IsKey(ms[k])) && forall i :: k < i < |ms| ==> !IsKey(ms[i])
    requires k == |ms| ==> forall i :: 0 <= i < |ms| ==> !IsKey(ms[i])
    ensures LastKey(ms) == k
  {
  }

  lemma GroupIs(ms: seq<Packet>)
    ensures LastGroup(ms) == ms[LastKey(ms)..]
  {
    hide LastGroup, IsKey, StartsGroup;
    var g := LastGroup(ms);
    LastGroupIsSuffix(ms);
    forall p | p in ms
      ensures IsKey(p) <==> StartsGroup(p)
    {
      KindsAre(p);
    }
    LastKeyIs(ms, |ms| - |g|);
  }

  /**
   A late writer is owed, in this order, the last metadata, the last video header, the last audio header, the frames
   from the last key frame on, and then every later packet of whatever kind.
   */
  lemma OwedInFull(h: seq<Packet>, at: nat)
    requires at < |h|
    ensures var joined := h[..at + 1];
            var frames := Frames(joined);
            Served(h, at) ==
            LastOf(joined, IsMetadata) + LastOf(joined, IsVideoHeader) + LastOf(joined, IsAudioHeader) +
            frames[LastKey(frames)..] + h[at + 1..]
  {
    hide LastOf, Frames, LastKey, Filter, Latest, LastGroup;
    LatestIs(h[..at + 1]);
    GroupIs(Frames(h[..at + 1]));
  }

  /** Among them the frames are those of the publisher from the last key frame before the writer joined, none missing. */
  lemma FramesOwed(h: seq<Packet>, at: nat)
    requires at < |h|
    ensures var before, all := Frames(h[..at + 1]), Frames(h);
            |before| <= |all| && all[..|before|] == before && Frames(Served(h, at)) == all[LastKey(before)..]
  {
    hide LastKey, Filter, Served, LastGroup, Frames, Latest, LastOf;
    LatestIs(h);
    LatestIs(Served(h, at));
    LatestIs(h[..at + 1]);
    LateJoiner(h, at);
    var frames := Frames(h[..at + 1]);
    GroupIs(frames);
    assert |frames| - |LastGroup(frames)| == LastKey(frames);
  }

  lemma {:induction false} LastOfSplit(h: seq<Packet>, p: Packet, later: seq<Packet>, kind: Packet -> bool)
    requires kind(p) && forall i :: 0 <= i < |later| ==> !kind(later[i])
    ensures LastOf(h + [p] + later, kind) == [p]
    decreases |later|
  {
    hide LastOf;
    if later == [] {
      assert h + [p] + later == h + [p];
      LastOfSnoc(h, p, kind);
    } else {
      var init, last := later[..|later| - 1], later[|later| - 1];
      LastOfSplit(h, p, init, kind);
      assert h + [p] + later == h + [p] + init + [last];
      LastOfSnoc(h + [p] + init, last, kind);
    }
  }

  lemma SnapshotHolds(h: seq<Packet>, p: Packet)
    ensures LastOf(h, IsMetadata) == [p] || LastOf(h, IsVideoHeader) == [p] || LastOf(h, IsAudioHeader) == [p] ==>
              p in Snapshot(h)
  {
    hide Filter, Latest, LastGroup, LastOf;
    LatestIs(h);
  }

  /** A video header is in what the next late writer is sent, until another video header replaces it. */
  lemma VideoHeaderHeld(h: seq<Packet>, p: Packet, later: seq<Packet>)
    requires !p.isMetadata && p.isVideo && p.header.Some?
    requires p.header.value.frameType == 1 && p.header.value.avcPacketType == 0
    requires forall i :: 0 <= i < |later| ==> !IsVideoHeader(later[i])
    ensures p in Snapshot(h + [p] + later)
  {
    LastOfSplit(h, p, later, IsVideoHeader);
    SnapshotHolds(h + [p] + later, p);
  }

  /** Likewise an audio header. */
  lemma AudioHeaderHeld(h: seq<Packet>, p: Packet, later: seq<Packet>)
    requires !p.isMetadata && !p.isVideo && p.header.Some?
    requires p.header.value.soundFormat == 10 && p.header.value.aacPacketType == 0
    requires forall i :: 0 <= i < |later| ==> !IsAudioHeader(later[i])
    ensures p in Snapshot(h + [p] + later)
  {
    LastOfSplit(h, p, later, IsAudioHeader);
    SnapshotHolds(h + [p] + later, p);
  }

  /** Likewise metadata. */
  lemma MetadataHeld(h: seq<Packet>, p: Packet, later: seq<Packet>)
    requires p.isMetadata && forall i :: 0 <= i < |later| ==> !later[i].isMetadata
    ensures p in Snapshot(h + [p] + later)
  {
    LastOfSplit(h, p, later, IsMetadata);
    SnapshotHolds(h + [p] + later, p);
  }

  /** The one packet that is refused: a frame that would be the 1025th of its group. */
  lemma RefusedExact(h: seq<Packet>, p: Packet)
    ensures !Fits(h, p) <==> IsFrame(p) && !IsKey(p) && |Frames(h)| - LastKey(Frames(h)) >= 1024
  {
    hide LastKey, Filter, LastGroup, Frames, Latest, LastOf;
    LatestIs(h);
    KindsAre(p);
    GroupIs(Frames(h));
  }
}
