/** Fan-out of one publisher's packets to the writers of a stream, late ones included. */
module Streams {
  import opened Bytes
  import opened Packets
  import opened GopCaching
  import opened Caching

  /** What a writer added after `at` packets of h is owed: the snapshot with the next packet, then all others. */
  function Served(h: seq<Packet>, at: nat): seq<Packet> {
    if at >= |h| then [] else Snapshot(h[..at + 1]) + h[at + 1..]
  }

  /** What one more packet means for a writer. */
  function Due(h: seq<Packet>, at: nat, p: Packet): seq<Packet> {
    if at < |h| then [p] else Snapshot(h + [p])
  }

  lemma ServedSnoc(h: seq<Packet>, at: nat, p: Packet)
    requires at <= |h|
    ensures Served(h + [p], at) == Served(h, at) + Due(h, at, p)
  {
    var w := h + [p];
    if at < |h| {
      assert w[..at + 1] == h[..at + 1] && w[at + 1..] == h[at + 1..] + [p];
      Associates(Snapshot(h[..at + 1]), h[at + 1..], [p]);
    } else {
      assert w[..at + 1] == w && w[at + 1..] == [];
      assert Snapshot(w) + [] == Snapshot(w);
    }
  }

  lemma DueIs(h: seq<Packet>, at: nat, p: Packet)
    ensures Due(h, at, p) == if at < |h| then [p] else Snapshot(h + [p])
  {
  }

  lemma SentAll(was: seq<Packet>, room: nat, ps: seq<Packet>)
    ensures |ps| <= room ==> Sent(was, room, ps) == was + ps
    ensures room == 0 && ps != [] ==> Sent(was, room, ps) == was
  {
  }

  lemma {:induction false} AllOfOneClass(ps: seq<Packet>, c: Class, d: Class)
    requires forall i :: 0 <= i < |ps| ==> Classify(ps[i]) == c
    ensures Filter(ps, d) == if c == d then ps else []
  {
    if ps != [] {
      AllOfOneClass(ps[..|ps| - 1], c, d);
      assert ps == ps[..|ps| - 1] + [ps[|ps| - 1]];
    }
  }

  lemma {:induction false} FilterIsOfClass(ps: seq<Packet>, c: Class)
    ensures forall i :: 0 <= i < |Filter(ps, c)| ==> Classify(Filter(ps, c)[i]) == c
  {
    if ps != [] {
      FilterIsOfClass(ps[..|ps| - 1], c);
    }
  }

  lemma LatestIsOfClass(ps: seq<Packet>, c: Class)
    requires c != Media
    ensures Filter(Latest(ps, c), Media) == []
  {
    FilterIsOfClass(ps, c);
    AllOfOneClass(Latest(ps, c), c, Media);
  }

  /** The media of a snapshot is the running group. */
  lemma SnapshotMedia(h: seq<Packet>)
    ensures Filter(Snapshot(h), Media) == LastGroup(Filter(h, Media))
    ensures FromLastStart(Filter(h, Media), LastGroup(Filter(h, Media)))
  {
    var m, v, a := Latest(h, Metadata), Latest(h, VideoHeader), Latest(h, AudioHeader);
    var g := LastGroup(Filter(h, Media));
    FilterConcat(m + v + a, g, Media);
    FilterConcat(m + v, a, Media);
    FilterConcat(m, v, Media);
    LatestIsOfClass(h, Metadata);
    LatestIsOfClass(h, VideoHeader);
    LatestIsOfClass(h, AudioHeader);
    FilterIsOfClass(h, Media);
    LastGroupIsSuffix(Filter(h, Media));
    AllOfOneClass(g, Media, Media);
    hide Filter, Latest, LastGroup;
  }

  /** A late writer sees the publisher's media from the last key frame before it joined, no gap and no repetition. */
  lemma LateJoiner(h: seq<Packet>, at: nat)
    requires at < |h|
    ensures var before, all := Filter(h[..at + 1], Media), Filter(h, Media);
            var g := LastGroup(before);
            FromLastStart(before, g) && |before| <= |all| && all[..|before|] == before &&
            Filter(Served(h, at), Media) == all[|before| - |g|..]
  {
    hide Filter, LastGroup, Snapshot;
    var joined, rest := h[..at + 1], h[at + 1..];
    var before, g := Filter(joined, Media), LastGroup(Filter(joined, Media));
    assert h == joined + rest;
    FilterConcat(joined, rest, Media);
    FilterConcat(Snapshot(joined), rest, Media);
    SnapshotMedia(joined);
    EndAndMore(before, |g|, Filter(rest, Media));
  }

  lemma EndAndMore(a: seq<Packet>, n: nat, b: seq<Packet>)
    requires n <= |a|
    ensures a[|a| - n..] + b == (a + b)[|a| - n..] && (a + b)[..|a|] == a
  {
  }

  /** What a writer has received, and how much more it takes. */
  datatype Inbox = Inbox(received: seq<Packet>, room: nat)

  /** A writer of the stream, and how long the history was when it was added. */
  class PackWriterCloser {
    var init: bool
    const w: Sink
    ghost const before: seq<Packet>
    ghost const at: nat

    constructor (w: Sink, ghost at: nat)
      ensures !init && this.w == w && before == w.received && this.at == at
    {
      init, this.w, before, this.at := false, w, w.received, at;
    }

    /** It has what it is owed, and nothing else. */
    ghost predicate UpToDate(h: seq<Packet>)
      reads this, w
    {
      w.Valid() && at <= |h| && init == (at < |h|) && w.received == before + Served(h, at)
    }

    ghost predicate Before(h: seq<Packet>, s: Inbox)
      reads this, w
    {
      UpToDate(h) && s == Inbox(w.received, w.Room())
    }

    /** It took p, or as much of the snapshot as there was room for. */
    ghost predicate After(h: seq<Packet>, p: Packet, s: Inbox)
      reads this, w
    {
      w.received == Sent(s.received, s.room, Due(h, at, p)) && (Stays(h, p, s) ==> UpToDate(h + [p]))
    }

    ghost predicate Stays(h: seq<Packet>, p: Packet, s: Inbox) {
      |Due(h, at, p)| <= s.room
    }

    /** Still waiting for its turn, or served. */
    ghost predicate InTurn(waiting: bool, h: seq<Packet>, p: Packet, s: Inbox)
      reads this, w
    {
      if waiting then Before(h, s) else After(h, p, s)
    }

    /** Still open, or closed. */
    ghost predicate InClosing(waiting: bool, h: seq<Packet>, s: Inbox)
      reads this, w
    {
      if waiting then Before(h, s) else ClosedDown(h, s)
    }

    lemma Arrived(h: seq<Packet>, p: Packet, s: Inbox)
      requires After(h, p, s) && Stays(h, p, s)
      ensures UpToDate(h + [p])
    {
    }

    lemma Took(h: seq<Packet>, p: Packet, s: Inbox)
      requires InTurn(false, h, p, s)
      ensures After(h, p, s)
    {
    }

    lemma Shut(h: seq<Packet>, s: Inbox)
      requires InClosing(false, h, s)
      ensures ClosedDown(h, s) && UpToDate(h)
    {
    }

    ghost predicate ClosedDown(h: seq<Packet>, s: Inbox)
      reads this, w
    {
      UpToDate(h) && w.closed && w.received == s.received
    }
  }

  class Stream {
    var isStart: bool
    const cache: Cache
    var ws: map<string, PackWriterCloser>
    ghost var packs: set<PackWriterCloser>
    ghost var sinks: set<Sink>

    constructor ()
      ensures Valid() && cache.history == [] && ws == map[] && packs == {} && sinks == {} && fresh(cache.Footprint())
      ensures !isStart
    {
      isStart := false;
      cache := new Cache();
      ws, packs, sinks := map[], {}, {};
    }

    /** Each writer is stored under its own name. */
    ghost predicate Owned()
      reads this
    {
      forall k :: k in ws ==> ws[k].w.uid == k && ws[k] in packs && ws[k].w in sinks
    }

    ghost predicate Valid()
      reads this, cache, cache.Footprint(), packs, sinks
    {
      cache.Valid() && Owned() && forall k :: k in ws ==> ws[k].UpToDate(cache.history)
    }

    ghost function Inboxes(): map<string, Inbox>
      requires Valid()
      reads this, cache, cache.Footprint(), packs, sinks
    {
      map k | k in ws :: Inbox(ws[k].w.received, ws[k].w.Room())
    }

    lemma AllBefore()
      requires Valid()
      ensures Inboxes().Keys == ws.Keys
      ensures forall k :: k in ws ==> ws[k].Before(cache.history, Inboxes()[k])
      ensures forall o: PackWriterCloser :: o !in cache.Footprint()
      ensures forall o: Sink :: o !in cache.Footprint()
      ensures this !in cache.Footprint()
    {
    }

    method AddWriter(w: Sink)
      requires Valid() && w.Valid()
      modifies this`ws, this`packs, this`sinks
      ensures Valid() && w.uid in ws && fresh(ws[w.uid])
      ensures ws == old(ws)[w.uid := ws[w.uid]] && ws[w.uid].w == w
      ensures packs == old(packs) + {ws[w.uid]} && sinks == old(sinks) + {w}
      ensures ws[w.uid].at == |cache.history| && ws[w.uid].before == w.received
    {
      hide Snapshot;
      var pw := new PackWriterCloser(w, |cache.history|);
      ws, packs, sinks := ws[w.uid := pw], packs + {pw}, sinks + {w};
      assert pw.before + [] == pw.before;
    }

    /** The loop begins, or begins again: the history and the writers are those it was left with. */
    method Begin()
      requires Valid()
      modifies this`isStart
      ensures Valid() && isStart && ws == old(ws) && cache.history == old(cache.history)
      ensures Inboxes() == old(Inboxes())
    {
      hide PackWriterCloser.UpToDate;
      isStart := true;
    }

    /** Asks the loop to end at its next turn; closing the publisher is left to the caller. */
    method Stop()
      requires Valid()
      modifies this`isStart
      ensures Valid() && !isStart && ws == old(ws) && cache.history == old(cache.history)
      ensures Inboxes() == old(Inboxes())
    {
      hide PackWriterCloser.UpToDate;
      isStart := false;
    }

    /** One writer's turn: the snapshot if it is new, else the packet. */
    method Serve(v: PackWriterCloser, p: Packet, ghost due: seq<Packet>) returns (ok: bool)
      requires cache.Valid() && v.w.Valid()
      requires due == if v.init then [p] else Snapshot(cache.history)
      modifies v`init, v.w`received
      ensures v.w.Valid() && cache.Valid()
      ensures ok == (|due| <= old(v.w.Room()))
      ensures v.w.received == Sent(old(v.w.received), old(v.w.Room()), due)
      ensures ok ==> v.init
    {
      hide Snapshot, Latest, Filter, LastGroup, Holds;
      if !v.init {
        ok := cache.Send(v.w);
        if ok {
          v.init := true;
        }
      } else {
        ok := v.w.Write(p);
      }
    }

    lemma Apart()
      requires Owned()
      ensures forall k :: k in ws ==> ws[k].w.uid == k && ws[k] in packs && ws[k].w in sinks
    {
    }

    lemma Outside()
      ensures this !in cache.Footprint()
    {
    }

    lemma StillOwned()
      requires forall k :: k in ws ==> ws[k].w.uid == k && ws[k] in packs && ws[k].w in sinks
      ensures Owned()
    {
    }

    /** What is done for each stored writer: it is served, and removed if that fails. */
    method ServeOne(k: string, v: PackWriterCloser, p: Packet, ghost h: seq<Packet>, ghost s: Inbox) returns (ok: bool)
      requires cache.Valid() && cache.history == h + [p] && k in ws && ws[k] == v && v.InTurn(true, h, p, s)
      requires this !in cache.Footprint()
      modifies this`ws, v`init, v.w`received
      ensures cache.Valid() && v.InTurn(false, h, p, s) && ok == v.Stays(h, p, s)
      ensures ws == if ok then old(ws) else old(ws) - {k}
    {
      hide Due, Served, Sent, Snapshot, Cache.Valid, Cache.Footprint;
      ghost var due := Due(h, v.at, p);
      DueIs(h, v.at, p);
      SentAll(s.received, s.room, due);
      ServedSnoc(h, v.at, p);
      Associates(v.before, Served(h, v.at), due);
      ok := Serve(v, p, due);
      if !ok {
        ws := ws - {k};
      }
    }

    /** What is done for each stored writer at the end: it is closed, and removed if it is internal. */
    method CloseOne(k: string, v: PackWriterCloser, ghost h: seq<Packet>, ghost s: Inbox)
      requires k in ws && ws[k] == v && v.InClosing(true, h, s)
      modifies this`ws, v.w`closed
      ensures v.InClosing(false, h, s)
      ensures ws == if v.w.isInterval then old(ws) - {k} else old(ws)
    {
      hide Served;
      v.w.Close();
      if v.w.isInterval {
        ws := ws - {k};
      }
    }

    /** Every writer was served, and those that are left took everything. */
    lemma AllTook(all: map<string, PackWriterCloser>, h: seq<Packet>, p: Packet, was: map<string, Inbox>)
      requires all.Keys == was.Keys && forall k :: k in all ==> all[k].InTurn(false, h, p, was[k])
      requires forall k :: k in ws ==> k in all && ws[k] == all[k] && all[k].Stays(h, p, was[k])
      ensures forall k :: k in all ==> all[k].After(h, p, was[k])
      ensures forall k :: k in ws ==> ws[k].UpToDate(h + [p])
    {
      hide PackWriterCloser.Stays, PackWriterCloser.UpToDate, PackWriterCloser.InTurn, PackWriterCloser.After;
      forall k | k in all
        ensures all[k].After(h, p, was[k]) && (k in ws ==> ws[k].UpToDate(h + [p]))
      {
        all[k].Took(h, p, was[k]);
        if k in ws {
          ws[k].Arrived(h, p, was[k]);
        }
      }
    }

    lemma AllShut(all: map<string, PackWriterCloser>, h: seq<Packet>, was: map<string, Inbox>)
      requires all.Keys == was.Keys && forall k :: k in all ==> all[k].InClosing(false, h, was[k])
      requires forall k :: k in ws ==> k in all && ws[k] == all[k]
      ensures forall k :: k in all ==> all[k].ClosedDown(h, was[k])
      ensures forall k :: k in ws ==> ws[k].UpToDate(h)
    {
      hide PackWriterCloser.ClosedDown, PackWriterCloser.UpToDate, PackWriterCloser.InClosing;
      forall k | k in all
        ensures all[k].ClosedDown(h, was[k]) && (k in ws ==> ws[k].UpToDate(h))
      {
        all[k].Shut(h, was[k]);
      }
    }

    lemma AllInTurn(h: seq<Packet>, p: Packet, was: map<string, Inbox>)
      requires was.Keys == ws.Keys && forall k :: k in ws ==> ws[k].Before(h, was[k])
      ensures forall k :: k in ws ==> ws[k].InTurn(true, h, p, was[k])
    {
    }

    lemma AllOpen(h: seq<Packet>, was: map<string, Inbox>)
      requires was.Keys == ws.Keys && forall k :: k in ws ==> ws[k].Before(h, was[k])
      ensures forall k :: k in ws ==> ws[k].InClosing(true, h, was[k])
    {
    }

    lemma Without(all: map<string, PackWriterCloser>, gone: set<string>, k: string)
      ensures (all - gone) - {k} == all - (gone + {k})
    {
    }

    /** Serves every writer, in any order, and removes those that fail. */
    method FanOut(p: Packet, ghost h: seq<Packet>, ghost was: map<string, Inbox>)
      requires cache.Valid() && Owned() && cache.history == h + [p] && was.Keys == ws.Keys
      requires forall k :: k in ws ==> ws[k].Before(h, was[k])
      modifies this`ws, packs, sinks
      ensures Valid()
      ensures forall k :: k in old(ws) ==> old(ws)[k].After(h, p, was[k])
      ensures forall k :: k in old(ws) ==> (k in ws <==> old(ws)[k].Stays(h, p, was[k]))
      ensures forall k :: k in ws ==> k in old(ws) && ws[k] == old(ws)[k]
    {
      hide PackWriterCloser.Before, PackWriterCloser.After, PackWriterCloser.Stays, PackWriterCloser.UpToDate;
      hide PackWriterCloser.InTurn, Cache.Valid, Cache.Footprint, Owned;
      Apart();
      Outside();
      AllInTurn(h, p, was);
      ghost var all, gone := ws, {};
      var todo := ws.Keys;
      while todo != {}
        invariant todo <= all.Keys && todo !! gone && cache.Valid() && this !in cache.Footprint()
        invariant ws == all - gone
        invariant forall k :: k in all ==> all[k].InTurn(k in todo, h, p, was[k])
        invariant forall k :: k in all && k !in todo ==> (k in gone <==> !all[k].Stays(h, p, was[k]))
      {
        var k :| k in todo;
        var ok := ServeOne(k, ws[k], p, h, was[k]);
        if !ok {
          Without(all, gone, k);
          gone := gone + {k};
        }
        todo := todo - {k};
      }
      AllTook(all, h, p, was);
      StillOwned();
    }

    /** Closes every writer, in any order, and removes the internal ones. */
    method CloseAll(ghost h: seq<Packet>, ghost was: map<string, Inbox>)
      requires Owned() && was.Keys == ws.Keys
      requires forall k :: k in ws ==> ws[k].Before(h, was[k])
      modifies this`ws, sinks
      ensures Owned() && forall k :: k in ws ==> ws[k].UpToDate(h)
      ensures forall k :: k in old(ws) ==> old(ws)[k].ClosedDown(h, was[k])
      ensures forall k :: k in old(ws) ==> (k in ws <==> !old(ws)[k].w.isInterval)
      ensures forall k :: k in ws ==> k in old(ws) && ws[k] == old(ws)[k]
    {
      hide PackWriterCloser.Before, PackWriterCloser.ClosedDown, PackWriterCloser.UpToDate;
      hide PackWriterCloser.InClosing, Owned;
      Apart();
      ghost var all, gone := ws, {};
      var todo := ws.Keys;
      AllOpen(h, was);
      while todo != {}
        invariant todo <= all.Keys && todo !! gone
        invariant ws == all - gone
        invariant forall k :: k in all ==> all[k].InClosing(k in todo, h, was[k])
        invariant forall k :: k in all && k !in todo ==> (k in gone <==> all[k].w.isInterval)
      {
        var k :| k in todo;
        CloseOne(k, ws[k], h, was[k]);
        if all[k].w.isInterval {
          Without(all, gone, k);
          gone := gone + {k};
        }
        todo := todo - {k};
      }
      AllShut(all, h, was);
      StillOwned();
    }

    /** The publisher is gone: closes every writer and removes the internal ones. */
    method CloseInter(ghost h: seq<Packet>, ghost was: map<string, Inbox>)
      requires cache.Valid() && Owned() && was.Keys == ws.Keys
      requires forall k :: k in ws ==> ws[k].Before(h, was[k])
      modifies this`ws, sinks
      ensures cache.Valid() && Owned() && forall k :: k in ws ==> ws[k].UpToDate(h)
      ensures forall k :: k in old(ws) ==> old(ws)[k].ClosedDown(h, was[k])
      ensures forall k :: k in old(ws) ==> (k in ws <==> !old(ws)[k].w.isInterval)
      ensures forall k :: k in ws ==> k in old(ws) && ws[k] == old(ws)[k]
    {
      hide PackWriterCloser.Before, PackWriterCloser.ClosedDown, PackWriterCloser.UpToDate, Owned, Holds;
      CloseAll(h, was);
    }

    /** One turn of the relay loop, given what the publisher's Read returns: a packet, or an error. */
    method Turn(next: Option<Packet>)
      requires Valid()
      modifies this`ws, this`isStart, cache.Footprint(), packs, sinks
      ensures Valid() && fresh(cache.Footprint() - old(cache.Footprint()))
      ensures isStart == (old(isStart) && next.Some? && Fits(old(cache.history), next.value))
      ensures cache.history == if isStart then old(cache.history) + [next.value] else old(cache.history)
      ensures forall k :: k in ws ==> k in old(ws) && ws[k] == old(ws)[k]
      ensures var h, all, was := old(cache.history), old(ws), old(Inboxes());
              if isStart then
                forall k :: k in all ==>
                  all[k].After(h, next.value, was[k]) && (k in ws <==> all[k].Stays(h, next.value, was[k]))
              else
                forall k :: k in all ==> all[k].ClosedDown(h, was[k]) && (k in ws <==> !all[k].w.isInterval)
    {
      hide PackWriterCloser.Before, PackWriterCloser.After, PackWriterCloser.Stays, PackWriterCloser.UpToDate;
      hide PackWriterCloser.ClosedDown, Cache.Valid, Cache.Footprint, Fits, Inboxes;
      ghost var h, was := cache.history, Inboxes();
      AllBefore();
      if !isStart {
        CloseInter(h, was);
        return;
      }
      if next.None? {
        CloseInter(h, was);
        isStart := false;
        return;
      }
      var p := next.value;
      var ok := cache.Write(p);
      if !ok {
        CloseInter(h, was);
        isStart := false;
        return;
      }
      FanOut(p, h, was);
    }
  }
}
