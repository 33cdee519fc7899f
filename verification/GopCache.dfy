/** The ring of groups of pictures. */
module GopCaching {
  import opened Bytes
  import opened Packets

  const MAX_GOP := 1024

  /** What became of a packet: stored or skipped, refused because its group is full, or a nil dereference. */
  datatype Stored = Kept | TooBig | NilSlot

  // ---- where packets are sent ----

  /** A writer, which takes packets until it breaks or is closed. */
  class Sink {
    const uid: string
    const isInterval: bool
    const limit: nat
    var received: seq<Packet>
    var closed: bool

    constructor (uid: string, isInterval: bool, limit: nat)
      ensures Valid() && this.uid == uid && this.isInterval == isInterval && this.limit == limit
      ensures received == [] && !closed
    {
      this.uid, this.isInterval, this.limit, received, closed := uid, isInterval, limit, [], false;
    }

    ghost predicate Valid()
      reads this
    {
      |received| <= limit
    }

    /** How many more packets are taken. */
    ghost function Room(): nat
      requires Valid()
      reads this
    {
      if closed then 0 else limit - |received|
    }

    method Write(p: Packet) returns (ok: bool)
      requires Valid()
      modifies this`received
      ensures Valid() && ok == (old(Room()) > 0)
      ensures received == if ok then old(received) + [p] else old(received)
    {
      ok := !closed && |received| < limit;
      if ok {
        received := received + [p];
      }
    }

    method Close()
      modifies this`closed
      ensures closed
    {
      closed := true;
    }
  }

  /** What a writer with this much room has received after ps was sent to it: as many of them as it takes. */
  function Sent(was: seq<Packet>, room: nat, ps: seq<Packet>): seq<Packet> {
    was + if |ps| <= room then ps else ps[..room]
  }

  /** Sending one list and, if that succeeds, another is sending both. */
  lemma SendBoth(was: seq<Packet>, room: nat, a: seq<Packet>, b: seq<Packet>)
    ensures |a| <= room ==> Sent(was, room, a + b) == Sent(Sent(was, room, a), room - |a|, b)
    ensures |a| > room ==> Sent(was, room, a + b) == Sent(was, room, a)
    ensures |a| <= room ==> |Sent(was, room, a)| == |was| + |a|
  {
  }

  lemma SendNothing(was: seq<Packet>, room: nat)
    ensures Sent(was, room, []) == was
  {
  }

  // ---- groups ----

  class PacketArray {
    var index: nat
    var packets: seq<Packet>

    constructor ()
      ensures Valid() && packets == []
    {
      index, packets := 0, [];
    }

    ghost predicate Valid()
      reads this
    {
      index == |packets| <= MAX_GOP
    }

    method Reset()
      modifies this
      ensures Valid() && packets == []
    {
      index, packets := 0, [];
    }

    method Write(p: Packet) returns (ok: bool)
      requires Valid()
      modifies this
      ensures Valid() && ok == (|old(packets)| < 1024)
      ensures packets == if ok then old(packets) + [p] else old(packets)
    {
      if index >= MAX_GOP {
        return false;
      }
      packets := packets + [p];
      index := index + 1;
      return true;
    }

    method Send(w: Sink) returns (ok: bool)
      requires Valid() && w.Valid()
      modifies w`received
      ensures w.Valid() && ok == (|packets| <= old(w.Room()))
      ensures w.received == Sent(old(w.received), old(w.Room()), packets)
    {
      var i := 0;
      while i < index
        invariant 0 <= i <= index && w.Valid() && i <= old(w.Room())
        invariant w.received == old(w.received) + packets[..i]
      {
        ok := w.Write(packets[i]);
        if !ok {
          return;
        }
        i := i + 1;
      }
      ok := true;
    }
  }

  /** The ring as a value: a slot holds a group or has never been used. */
  datatype Ring = Ring(started: bool, num: nat, next: nat, slots: seq<Option<seq<Packet>>>) {
    predicate Valid() {
      |slots| > 0 && next < |slots| && num <= |slots| && (num < |slots| ==> next == num) &&
      forall i :: 0 <= i < |slots| ==> (slots[i].Some? <==> i < num)
    }
  }

  function NewRing(count: nat): (r: Ring)
    requires count > 0
    ensures r.Valid()
  {
    Ring(false, 0, 0, seq(count, _ => None))
  }

  /** (i + 1) modulo n. */
  function Succ(i: nat, n: nat): (j: nat)
    requires i < n
    ensures j < n && j == (i + 1) % n
  {
    Divides(i + 1, if i + 1 == n then 1 else 0, if i + 1 == n then 0 else i + 1, n);
    if i + 1 == n then 0 else i + 1
  }

  /** A key frame starts a group in the next slot; any other packet goes one slot beyond the next one. */
  function Put(r: Ring, p: Packet): (o: (Stored, Ring))
    requires r.Valid()
    ensures o.1.Valid() && |o.1.slots| == |r.slots|
  {
    var n := |r.slots|;
    if StartsGroup(p) then
      (Kept, Ring(true, r.num + if r.slots[r.next].None? then 1 else 0, Succ(r.next, n), r.slots[r.next := Some([p])]))
    else if !r.started then (Kept, r)
    else
      var at := Succ(r.next, n);
      if r.slots[at].None? then (NilSlot, r)
      else if |r.slots[at].value| >= MAX_GOP then (TooBig, r)
      else (Kept, r.(slots := r.slots[at := Some(r.slots[at].value + [p])]))
  }

  /** The slot that takes a packet. */
  function Target(r: Ring, p: Packet): (at: nat)
    requires r.Valid()
    ensures at < |r.slots|
    ensures StartsGroup(p) ==> at == r.next
    ensures !StartsGroup(p) ==> at == (r.next + 1) % |r.slots|
  {
    if StartsGroup(p) then r.next else Succ(r.next, |r.slots|)
  }

  /** Put changes one slot. */
  lemma OneSlotChanged(r: Ring, p: Packet, o: Stored, after: Ring)
    requires r.Valid() && (StartsGroup(p) || r.started)
    requires after.started && |after.slots| == |r.slots|
    requires after.next == if StartsGroup(p) then (r.next + 1) % |r.slots| else r.next
    requires after.num == r.num + if StartsGroup(p) && r.slots[r.next].None? then 1 else 0
    requires forall i :: 0 <= i < |r.slots| && i != Target(r, p) ==> after.slots[i] == r.slots[i]
    requires var was, now := r.slots[Target(r, p)], after.slots[Target(r, p)];
             if StartsGroup(p) then o == Kept && now == Some([p])
             else if was.None? then o == NilSlot && now.None?
             else o == (if |was.value| < MAX_GOP then Kept else TooBig) &&
                  now == if o == Kept then Some(was.value + [p]) else was
    ensures (o, after) == Put(r, p) && after.Valid()
  {
    assert after.slots == Put(r, p).1.slots;
  }

  /** The position of the i-th slot that is replayed. */
  function ReplaySlot(r: Ring, i: nat): int
    requires r.Valid()
  {
    var at := Succ(r.next, |r.slots|) - r.num + 1 + i;
    if at < 0 then at + |r.slots| else at
  }

  /** The groups that are replayed, from the i-th on; nothing if a slot is nil. */
  function ReplayFrom(r: Ring, i: nat): Option<seq<Packet>>
    requires r.Valid() && i <= r.num
    decreases r.num - i
  {
    if i == r.num then Some([])
    else
      var g := r.slots[ReplaySlot(r, i)];
      var later := ReplayFrom(r, i + 1);
      if g.None? || later.None? then None else Some(g.value + later.value)
  }

  lemma ReplayStep(r: Ring, i: nat)
    requires r.Valid() && i < r.num && ReplayFrom(r, i).Some?
    ensures var at := Succ(r.next, |r.slots|) - r.num + 1 + i;
            var slot := if at < 0 then at + |r.slots| else at;
            0 <= slot < |r.slots| && r.slots[slot].Some? && ReplayFrom(r, i + 1).Some? &&
            ReplayFrom(r, i).value == r.slots[slot].value + ReplayFrom(r, i + 1).value
  {
  }

  lemma ReplayEnd(r: Ring)
    requires r.Valid()
    ensures ReplayFrom(r, r.num) == Some([])
  {
  }

  // ---- rings of one or two slots ----

  /** The ring holds the last groups of what was put into it, the newest in the slot before the next one. */
  ghost predicate Holds(r: Ring, ms: seq<Packet>) {
    r.Valid() && |r.slots| <= 2 &&
    var gs, n := Groups(ms), |r.slots|;
    r.started == (gs != []) && r.num == (if |gs| < n then |gs| else n) &&
    (gs != [] ==> r.slots[Succ(r.next, n)] == Some(gs[|gs| - 1])) &&
    (|gs| >= 2 && n == 2 ==> r.slots[r.next] == Some(gs[|gs| - 2]))
  }

  lemma NewRingHolds(count: nat)
    requires 1 <= count <= 2
    ensures Holds(NewRing(count), [])
  {
  }

  /** Of one or two slots none is ever nil, and a packet is refused exactly when its group is full. */
  lemma PutHolds(r: Ring, ms: seq<Packet>, p: Packet)
    requires Holds(r, ms)
    ensures Put(r, p).0 == if !StartsGroup(p) && |LastGroup(ms)| >= 1024 then TooBig else Kept
    ensures Put(r, p).0.Kept? ==> Holds(Put(r, p).1, ms + [p])
  {
    GroupsSnoc(ms, p);
    LastGroupSnoc(ms, p);
    hide Groups;
    var n := |r.slots|;
    if n == 1 {
      assert r.next == 0;
    } else if StartsGroup(p) {
      assert Succ(Succ(r.next, 2), 2) == r.next;
    }
  }

  /** The ring replays its groups oldest first. */
  lemma ReplayHolds(r: Ring, ms: seq<Packet>)
    requires Holds(r, ms)
    ensures ReplayFrom(r, 0) == Some(Flatten(LastGroups(ms, |r.slots|)))
  {
    hide Groups;
    var gs, n := Groups(ms), |r.slots|;
    assert ReplayFrom(r, r.num) == Some([]);
    if r.num == 1 {
      var g := gs[|gs| - 1];
      assert LastGroups(ms, n) == [g];
      assert g + [] == g && Flatten([g]) == Flatten([]) + g && [] + g == g;
      assert ReplaySlot(r, 0) == Succ(r.next, n);
    } else if r.num == 2 {
      var f, g := gs[|gs| - 2], gs[|gs| - 1];
      assert LastGroups(ms, n) == [f, g];
      assert [f, g][..1] == [f] && [f][..0] == [];
      assert Flatten([f]) == Flatten([]) + f && [] + f == f && g + [] == g;
      assert ReplaySlot(r, 1) == Succ(r.next, n) && ReplaySlot(r, 0) == r.next;
      assert ReplayFrom(r, 1) == Some(g);
    }
  }

  /** A ring of more slots dereferences nil as soon as any other packet follows the first key frame. */
  lemma LargerRingBreaks(count: nat, key: Packet, p: Packet)
    requires count > 0 && StartsGroup(key) && !StartsGroup(p)
    ensures Put(Put(NewRing(count), key).1, p).0.NilSlot? <==> count >= 3
  {
  }

  class GopCache {
    var start: bool
    var num: nat
    const count: nat
    var nextindex: nat
    var gops: seq<PacketArray?>
    // the arrays of this cache, and what each of them holds
    ghost var arrays: set<PacketArray>
    ghost var groups: seq<Option<seq<Packet>>>

    constructor (num: nat)
      ensures Valid() && View() == NewRing(if num == 0 then 1 else num) && arrays == {}
    {
      var n := if num == 0 then 1 else num;
      start, this.num, nextindex := false, 0, 0;
      count := n;
      gops := seq(n, _ => null);
      arrays := {};
      groups := seq(n, _ => None);
    }

    ghost predicate Valid()
      reads this, arrays
      ensures Valid() ==> View().Valid()
    {
      0 < count == |gops| == |groups| && nextindex < count && num <= count && (num < count ==> nextindex == num) &&
      (forall i :: 0 <= i < count ==> (gops[i] != null <==> i < num)) &&
      (forall i :: 0 <= i < count ==> (groups[i].Some? <==> i < num)) &&
      (forall i :: 0 <= i < num ==>
         gops[i] in arrays && gops[i].Valid() && groups[i].Some? && groups[i].value == gops[i].packets) &&
      (forall i, j :: 0 <= i < j < num ==> gops[i] != gops[j])
    }

    /** The ring without the heap. */
    ghost function View(): Ring
      reads this
    {
      Ring(start, num, nextindex, groups)
    }

    /** Empties the next slot for a new group. */
    method NewGroup()
      requires Valid()
      modifies this`num, this`nextindex, this`gops, this`arrays, this`groups, arrays
      ensures Valid() && fresh(arrays - old(arrays)) && start == old(start)
      ensures groups == old(groups)[old(nextindex) := Some([])]
      ensures num == old(num) + if old(groups[nextindex]).None? then 1 else 0
      ensures nextindex == (old(nextindex) + 1) % count
    {
      var ginc := gops[nextindex];
      if ginc == null {
        ginc := new PacketArray();
        num := num + 1;
        gops := gops[nextindex := ginc];
        arrays := arrays + {ginc};
      } else {
        ginc.Reset();
      }
      groups := groups[nextindex := Some([])];
      nextindex := Succ(nextindex, count);
    }

    /** Appends a packet to the group in a used slot. */
    method AppendTo(at: nat, p: Packet) returns (ok: bool)
      requires Valid() && at < num
      modifies this`groups, arrays
      ensures Valid() && ok == (|old(groups[at]).value| < 1024)
      ensures groups == if ok then old(groups)[at := Some(old(groups[at]).value + [p])] else old(groups)
    {
      var ginc := gops[at];
      ok := ginc.Write(p);
      if ok {
        groups := groups[at := Some(groups[at].value + [p])];
      }
    }

    method WriteToArray(p: Packet, startNew: bool) returns (o: Stored)
      requires Valid() && startNew == StartsGroup(p) && start
      modifies this, arrays
      ensures Valid() && fresh(arrays - old(arrays))
      ensures (o, View()) == Put(old(View()), p)
    {
      hide Put, Succ, Target, StartsGroup;
      ghost var before := View();
      var at: nat;
      if startNew {
        at := nextindex;
        NewGroup();
      } else {
        at := (nextindex + 1) % count;
      }
      assert at == Target(before, p);
      if gops[at] == null {
        o := NilSlot;
      } else {
        var ok := AppendTo(at, p);
        o := if ok then Kept else TooBig;
        assert startNew ==> [] + [p] == [p];
      }
      OneSlotChanged(before, p, o, View());
    }

    /** The ring's new value is Put of the old one. */
    method Write(p: Packet) returns (o: Stored)
      requires Valid() && !(p.isVideo && p.header.None?)
      modifies this, arrays
      ensures Valid() && fresh(arrays - old(arrays))
      ensures (o, View()) == Put(old(View()), p)
    {
      var ok := false;
      if p.isVideo {
        var vh := p.header.value;
        if vh.IsKeyFrame() && !vh.IsSeq() {
          ok := true;
        }
      }
      if ok || start {
        ghost var before := View();
        start := true;
        assert Put(View(), p) == Put(before, p);
        o := WriteToArray(p, ok);
      } else {
        o := Kept;
      }
    }

    /** Sends the groups, as far as the writer takes them. */
    method SendTo(w: Sink) returns (ok: bool)
      requires Valid() && w.Valid() && ReplayFrom(View(), 0).Some?
      modifies w`received
      ensures w.Valid()
      ensures var ps := ReplayFrom(old(View()), 0).value;
              ok == (|ps| <= old(w.Room())) && w.received == Sent(old(w.received), old(w.Room()), ps)
    {
      hide Sent, ReplayFrom, ReplaySlot, Succ;
      ghost var r := View();
      ghost var was, room := w.received, w.Room();
      ghost var whole, sent := ReplayFrom(r, 0).value, [];
      var pos := Succ(nextindex, count);
      var i := 0;
      SendNothing(was, room);
      ReplayEnd(r);
      while i < num
        invariant 0 <= i <= num && w.Valid() && |sent| <= room && w.Room() == room - |sent|
        invariant ReplayFrom(r, i).Some? && View() == r
        invariant w.received == Sent(was, room, sent)
        invariant whole == sent + ReplayFrom(r, i).value
      {
        var index := pos - num + 1 + i;
        if index < 0 {
          index := index + count;
        }
        ReplayStep(r, i);
        var g := gops[index];
        ghost var later := ReplayFrom(r, i + 1).value;
        Associates(sent, g.packets, later);
        assert whole == sent + g.packets + later;
        SendBoth(was, room, sent, g.packets);
        SendBoth(was, room, sent + g.packets, later);
        ok := g.Send(w);
        if !ok {
          return;
        }
        sent := sent + g.packets;
        i := i + 1;
      }
      assert sent + [] == sent;
      ok := true;
    }
  }
}
