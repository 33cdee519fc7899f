/** The packets kept for a writer that joins late. */
module Caching {
  import opened Bytes
  import opened Packets
  import opened GopCaching

  /** What a late writer is sent first: the latest of each kind of header, then the running group. */
  function Snapshot(h: seq<Packet>): seq<Packet> {
    Latest(h, Metadata) + Latest(h, VideoHeader) + Latest(h, AudioHeader) + LastGroup(Filter(h, Media))
  }

  lemma SnapshotIs(h: seq<Packet>)
    ensures Snapshot(h) ==
            Latest(h, Metadata) + Latest(h, VideoHeader) + Latest(h, AudioHeader) + LastGroup(Filter(h, Media))
  {
  }

  /** The one packet that is refused: one too many in a group. */
  predicate Fits(h: seq<Packet>, p: Packet) {
    Classify(p) == Media && !StartsGroup(p) ==> |LastGroup(Filter(h, Media))| < MAX_GOP
  }

  lemma OneSlotReplay(r: Ring, ms: seq<Packet>)
    requires Holds(r, ms) && |r.slots| == 1
    ensures ReplayFrom(r, 0) == Some(LastGroup(ms))
  {
    ReplayHolds(r, ms);
    var gs := Groups(ms);
    if gs != [] {
      assert LastGroups(ms, 1) == [LastGroup(ms)];
      assert [LastGroup(ms)][..0] == [];
      assert Flatten([LastGroup(ms)]) == Flatten([]) + LastGroup(ms) == LastGroup(ms);
    }
  }

  /** Each kind of packet changes one part of the snapshot only. */
  lemma HistorySnoc(h: seq<Packet>, p: Packet, c: Class)
    ensures Latest(h + [p], c) == if Classify(p) == c then [p] else Latest(h, c)
    ensures Filter(h + [p], c) == if Classify(p) == c then Filter(h, c) + [p] else Filter(h, c)
  {
    LatestSnoc(h, p, c);
    assert (h + [p])[..|h|] == h;
  }

  class SpecialCache {
    var full: bool
    var p: Option<Packet>

    constructor ()
      ensures Valid() && View() == []
    {
      full, p := false, None;
    }

    ghost predicate Valid()
      reads this
    {
      full == p.Some?
    }

    ghost function View(): seq<Packet>
      requires Valid()
      reads this
    {
      if full then [p.value] else []
    }

    method Write(p: Packet)
      modifies this
      ensures Valid() && View() == [p]
    {
      this.p := Some(p);
      full := true;
    }

    method Send(w: Sink) returns (ok: bool)
      requires Valid() && w.Valid()
      modifies w`received
      ensures w.Valid() && ok == (|View()| <= old(w.Room()))
      ensures w.received == Sent(old(w.received), old(w.Room()), View())
    {
      if !full {
        return true;
      }
      ok := w.Write(p.value);
    }
  }

  class Cache {
    const gop: GopCache
    const videoSeq: SpecialCache
    const audioSeq: SpecialCache
    const metadata: SpecialCache
    ghost var history: seq<Packet>

    constructor ()
      ensures Valid() && history == [] && fresh(Footprint())
    {
      NewRingHolds(1);
      gop := new GopCache(1);
      videoSeq := new SpecialCache();
      audioSeq := new SpecialCache();
      metadata := new SpecialCache();
      history := [];
    }

    ghost function Footprint(): set<object>
      reads this, gop
    {
      {this, gop, videoSeq, audioSeq, metadata} + gop.arrays
    }

    /** The cache is a function of everything written to it. */
    ghost predicate Valid()
      reads this, Footprint()
    {
      gop.Valid() && gop.count == 1 && videoSeq.Valid() && audioSeq.Valid() && metadata.Valid() &&
      videoSeq != audioSeq && videoSeq != metadata && audioSeq != metadata &&
      Holds(gop.View(), Filter(history, Media)) && |LastGroup(Filter(history, Media))| <= MAX_GOP &&
      metadata.View() == Latest(history, Metadata) &&
      videoSeq.View() == Latest(history, VideoHeader) && audioSeq.View() == Latest(history, AudioHeader)
    }

    method Write(p: Packet) returns (ok: bool)
      requires Valid()
      modifies Footprint()
      ensures Valid() && fresh(Footprint() - old(Footprint()))
      ensures ok == Fits(old(history), p)
      ensures history == if ok then old(history) + [p] else old(history)
    {
      hide Latest, Filter, Holds, LastGroup;
      ghost var h := history;
      HistorySnoc(h, p, Metadata);
      HistorySnoc(h, p, VideoHeader);
      HistorySnoc(h, p, AudioHeader);
      HistorySnoc(h, p, Media);
      if p.isMetadata {
        metadata.Write(p);
        history := h + [p];
        return true;
      } else if !p.isVideo {
        if p.header.Some? {
          var ah := p.header.value;
          history := h + [p];
          if ah.IsAacHeader() {
            audioSeq.Write(p);
          }
          return true;
        }
      } else if p.header.Some? {
        var vh := p.header.value;
        if vh.IsSeq() {
          videoSeq.Write(p);
          history := h + [p];
          return true;
        }
      } else {
        history := h + [p];
        return true;
      }
      PutHolds(gop.View(), Filter(h, Media), p);
      LastGroupSnoc(Filter(h, Media), p);
      var o := gop.Write(p);
      ok := o == Kept;
      if ok {
        history := h + [p];
      }
    }

    /** Sends the snapshot, as far as the writer takes it. */
    method Send(w: Sink) returns (ok: bool)
      requires Valid() && w.Valid()
      modifies w`received
      ensures w.Valid() && Valid()
      ensures ok == (|Snapshot(history)| <= old(w.Room()))
      ensures w.received == Sent(old(w.received), old(w.Room()), Snapshot(history))
    {
      hide Latest, Filter, Holds, LastGroup, Sent, Snapshot, ReplayFrom;
      ghost var was, room := w.received, w.Room();
      ghost var m, v, a := Latest(history, Metadata), Latest(history, VideoHeader), Latest(history, AudioHeader);
      ghost var g := LastGroup(Filter(history, Media));
      SnapshotIs(history);
      SendBoth(was, room, m, v);
      SendBoth(was, room, m + v, a);
      SendBoth(was, room, m + v + a, g);
      OneSlotReplay(gop.View(), Filter(history, Media));
      ok := metadata.Send(w);
      if !ok {
        return;
      }
      ok := videoSeq.Send(w);
      if !ok {
        return;
      }
      ok := audioSeq.Send(w);
      if !ok {
        return;
      }
      ok := gop.SendTo(w);
    }
  }
}
