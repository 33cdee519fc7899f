/** The bounded queue in front of a player's connection, and how it sheds load. */
module VirWriters {
  import opened Bytes
  import opened Packets

  const MAX_QUEUE := 1024

  /** What is kept when the queue is full: audio, sequence headers and key frames. */
  predicate Keeps(p: Packet) {
    p.isAudio || (p.isVideo && p.header.Some? && (p.header.value.IsSeq() || p.header.value.IsKeyFrame()))
  }

  /** The reader marks a packet with one kind only. */
  predicate OneKind(p: Packet) {
    !(p.isAudio && p.isVideo)
  }

  function Kept(ps: seq<Packet>): seq<Packet> {
    if ps == [] then [] else Kept(ps[..|ps| - 1]) + if Keeps(ps[|ps| - 1]) then [ps[|ps| - 1]] else []
  }

  function Lost(ps: seq<Packet>): seq<Packet> {
    if ps == [] then [] else Lost(ps[..|ps| - 1]) + if Keeps(ps[|ps| - 1]) then [] else [ps[|ps| - 1]]
  }

  /** How many packets the sender takes at the three points of one turn: first, after the receive, before the end. */
  datatype Pause = Pause(first: nat, second: nat, third: nat) {
    function Total(): nat {
      first + second + third
    }
  }

  /** The packets queued, and those the sender has taken. */
  datatype Line = Line(queue: seq<Packet>, sent: seq<Packet>) {
    function Take(n: nat): Line {
      var k := if n <= |queue| then n else |queue|;
      Line(queue[k..], sent + queue[..k])
    }
  }

  // ---- one turn of the dropping loop ----

  function PassAudio(l: Line, p: Packet): Line {
    if !p.isAudio then l
    else if |l.queue| > MAX_QUEUE - 2 then Line(l.queue[1..], l.sent)
    else Line(l.queue + [p], l.sent)
  }

  function PassVideo(l: Line, p: Packet): Line {
    if !p.isVideo then l
    else
      var q := if p.header.Some? && (p.header.value.IsSeq() || p.header.value.IsKeyFrame()) then l.queue + [p] else l.queue;
      Line(if |q| > MAX_QUEUE - 10 then q[1..] else q, l.sent)
  }

  /** One turn; None if it waits for a packet that never comes. */
  function Turn(l: Line, pause: Pause): Option<Line> {
    var a := l.Take(pause.first);
    if a.queue == [] then None
    else
      var p := a.queue[0];
      var b := Line(a.queue[1..], a.sent).Take(pause.second);
      Some(PassVideo(PassAudio(b, p).Take(pause.third), p))
  }

  function Run(l: Line, pauses: seq<Pause>): Option<Line> {
    if pauses == [] then Some(l)
    else
      var before := Run(l, pauses[..|pauses| - 1]);
      if before.None? then None else Turn(before.value, pauses[|pauses| - 1])
  }

  // ---- what the loop does to a queue ----

  /** How many packets have left the front of the queue. */
  function Used(pauses: seq<Pause>): nat {
    if pauses == [] then 0 else Used(pauses[..|pauses| - 1]) + 1 + pauses[|pauses| - 1].Total()
  }

  /** The packets the loop itself takes, and those the sender takes, when both come from q in order. */
  function Rotated(q: seq<Packet>, pauses: seq<Pause>): seq<Packet>
    requires Used(pauses) <= |q|
  {
    if pauses == [] then []
    else
      var n := |pauses| - 1;
      Rotated(q, pauses[..n]) + [q[Used(pauses[..n]) + pauses[n].first]]
  }

  function Taken(q: seq<Packet>, pauses: seq<Pause>): seq<Packet>
    requires Used(pauses) <= |q|
  {
    if pauses == [] then []
    else
      var n := |pauses| - 1;
      var k := Used(pauses[..n]) + pauses[n].first;
      Taken(q, pauses[..n]) + q[Used(pauses[..n])..k] + q[k + 1..Used(pauses)]
  }

  lemma Shuffle(a: seq<Packet>, b: seq<Packet>, front: seq<Packet>, p: Packet, c: seq<Packet>, d: seq<Packet>)
    requires multiset(a) + multiset(b) == multiset(front)
    ensures multiset(a + [p]) + multiset(b + c + d) == multiset(front + c + [p] + d)
  {
  }

  lemma FrontPieces(q: seq<Packet>, u: nat, k: nat, v: nat)
    requires u <= k < v <= |q|
    ensures q[..u] + q[u..k] + [q[k]] + q[k + 1..v] == q[..v]
  {
    assert q[..u] + q[u..k] == q[..k];
    assert q[..k] + [q[k]] == q[..k + 1];
  }

  /** The loop and the sender share out the front of the queue. */
  lemma {:induction false} SharedOut(q: seq<Packet>, pauses: seq<Pause>)
    requires Used(pauses) <= |q|
    ensures multiset(Rotated(q, pauses)) + multiset(Taken(q, pauses)) == multiset(q[..Used(pauses)])
    ensures |Rotated(q, pauses)| == |pauses|
  {
    hide Used, Rotated, Taken, Run;
    if pauses == [] {
      NothingUsed(q, []);
    } else {
      var n := |pauses| - 1;
      OneMore(q, [], pauses);
      var u, v := Used(pauses[..n]), Used(pauses);
      var k := u + pauses[n].first;
      SharedOut(q, pauses[..n]);
      Shuffle(Rotated(q, pauses[..n]), Taken(q, pauses[..n]), q[..u], q[k], q[u..k], q[k + 1..v]);
      FrontPieces(q, u, k, v);
    }
  }

  lemma PutAside(a: seq<Packet>, b: seq<Packet>, ps: seq<Packet>, p: Packet)
    requires multiset(a) + multiset(b) == multiset(ps)
    ensures multiset(a + [p]) + multiset(b) == multiset(a) + multiset(b + [p]) == multiset(ps + [p])
  {
  }

  /** What is kept and what is lost make up the whole. */
  lemma {:induction false} KeptOrLost(ps: seq<Packet>)
    ensures multiset(Kept(ps)) + multiset(Lost(ps)) == multiset(ps)
    ensures forall p :: p in Kept(ps) ==> Keeps(p)
    ensures forall p :: p in Lost(ps) ==> !Keeps(p)
    ensures |Kept(ps)| <= |ps|
  {
    hide Keeps;
    if ps != [] {
      var n := |ps| - 1;
      KeptOrLost(ps[..n]);
      PutAside(Kept(ps[..n]), Lost(ps[..n]), ps[..n], ps[n]);
      assert ps == ps[..n] + [ps[n]];
      assert Kept(ps[..n]) + [] == Kept(ps[..n]) && Lost(ps[..n]) + [] == Lost(ps[..n]);
    }
  }

  /** The queue holds q from the i-th packet on, then what has been put at the back. */
  function Held(q: seq<Packet>, i: nat, back: seq<Packet>): seq<Packet>
    requires i <= |q|
  {
    q[i..] + back
  }

  lemma TakeHeld(q: seq<Packet>, i: nat, back: seq<Packet>, sent: seq<Packet>, n: nat)
    requires i + n <= |q|
    ensures Line(Held(q, i, back), sent).Take(n) == Line(Held(q, i + n, back), sent + q[i..i + n])
  {
    assert q[i..][..n] == q[i..i + n] && q[i..][n..] == q[i + n..];
    assert (q[i..] + back)[n..] == q[i..][n..] + back && (q[i..] + back)[..n] == q[i..][..n];
  }

  lemma HeldFirst(q: seq<Packet>, i: nat, back: seq<Packet>)
    requires i < |q|
    ensures Held(q, i, back) != [] && Held(q, i, back)[0] == q[i] && Held(q, i, back)[1..] == Held(q, i + 1, back)
  {
  }

  lemma HeldMore(q: seq<Packet>, i: nat, back: seq<Packet>, p: Packet)
    requires i <= |q|
    ensures Held(q, i, back) + [p] == Held(q, i, back + [p])
    ensures |Held(q, i, back)| == |q| - i + |back|
  {
  }

  /** After the receive the packet goes to the back, or is dropped. */
  lemma PassesOn(q: seq<Packet>, j: nat, back: seq<Packet>, sent: seq<Packet>, n: nat, p: Packet)
    requires OneKind(p) && j + n <= |q| && |q| - j + |back| < MAX_QUEUE - 24
    ensures PassVideo(PassAudio(Line(Held(q, j, back), sent), p).Take(n), p) ==
            Line(Held(q, j + n, back + if Keeps(p) then [p] else []), sent + q[j..j + n])
  {
    hide Held, Line.Take;
    HeldMore(q, j, back, p);
    HeldMore(q, j + n, back, p);
    if p.isAudio {
      TakeHeld(q, j, back + [p], sent, n);
    } else {
      TakeHeld(q, j, back, sent, n);
      assert back + [] == back;
    }
  }

  /** In a queue that is not nearly full a turn moves one packet to the back, or drops it. */
  lemma TurnSheds(q: seq<Packet>, u: nat, back: seq<Packet>, sent: seq<Packet>, pause: Pause)
    requires u + pause.Total() < |q| && |q| - u + |back| <= MAX_QUEUE - 24
    requires OneKind(q[u + pause.first])
    ensures var k, v := u + pause.first, u + pause.Total() + 1;
            Turn(Line(Held(q, u, back), sent), pause) ==
            Some(Line(Held(q, v, back + if Keeps(q[k]) then [q[k]] else []), sent + q[u..k] + q[k + 1..v]))
  {
    hide Held, Line.Take, PassVideo, PassAudio, Keeps, OneKind;
    var k, v := u + pause.first, u + pause.Total() + 1;
    var j := k + 1 + pause.second;
    TakeHeld(q, u, back, sent, pause.first);
    HeldFirst(q, k, back);
    TakeHeld(q, k + 1, back, sent + q[u..k], pause.second);
    PassesOn(q, j, back, sent + q[u..k] + q[k + 1..j], pause.third, q[k]);
    Associates(sent + q[u..k], q[k + 1..j], q[j..v]);
    assert q[k + 1..j] + q[j..v] == q[k + 1..v];
  }

  /** There is room for a turn. */
  lemma RoomForTurn(q: seq<Packet>, pauses: seq<Pause>)
    requires pauses != [] && Used(pauses) <= |q| <= MAX_QUEUE - 24
    ensures var n := |pauses| - 1;
            var u, back := Used(pauses[..n]), Kept(Rotated(q, pauses[..n]));
            u + pauses[n].Total() < |q| && |q| - u + |back| <= MAX_QUEUE - 24
  {
    var n := |pauses| - 1;
    SharedOut(q, pauses[..n]);
    KeptOrLost(Rotated(q, pauses[..n]));
    CountUsed(pauses[..n]);
  }

  lemma RunStep(q: seq<Packet>, u: nat, rotated: seq<Packet>, sent: seq<Packet>, taken: seq<Packet>, pause: Pause)
    requires u + pause.Total() < |q| && |q| - u + |Kept(rotated)| <= MAX_QUEUE - 24
    requires OneKind(q[u + pause.first])
    ensures var k, v := u + pause.first, u + pause.Total() + 1;
            Turn(Line(Held(q, u, Kept(rotated)), sent + taken), pause) ==
            Some(Line(Held(q, v, Kept(rotated + [q[k]])), sent + (taken + q[u..k] + q[k + 1..v])))
  {
    hide Turn, Kept, OneKind, Held;
    var k, v := u + pause.first, u + pause.Total() + 1;
    TurnSheds(q, u, Kept(rotated), sent + taken, pause);
    KeptSnoc(rotated, q[k]);
    Associates(sent, taken, q[u..k]);
    Associates(sent, taken + q[u..k], q[k + 1..v]);
  }

  /** The loop leaves what it did not reach, followed by what it keeps of the packets it took. */
  lemma {:induction false} RunSheds(q: seq<Packet>, sent: seq<Packet>, pauses: seq<Pause>)
    requires |q| <= MAX_QUEUE - 24 && Used(pauses) <= |q|
    requires forall i :: 0 <= i < |q| ==> OneKind(q[i])
    ensures Run(Line(q, sent), pauses) ==
            Some(Line(Held(q, Used(pauses), Kept(Rotated(q, pauses))), sent + Taken(q, pauses)))
  {
    hide Turn, Kept, Held, Run, Rotated, Taken;
    if pauses == [] {
      NothingUsed(q, sent);
    } else {
      var n := |pauses| - 1;
      RoomForTurn(q, pauses);
      OneMore(q, sent, pauses);
      RunSheds(q, sent, pauses[..n]);
      RunStep(q, Used(pauses[..n]), Rotated(q, pauses[..n]), sent, Taken(q, pauses[..n]), pauses[n]);
    }
  }

  lemma NothingUsed(q: seq<Packet>, sent: seq<Packet>)
    ensures Used([]) == 0 && Rotated(q, []) == [] && Taken(q, []) == []
    ensures Run(Line(q, sent), []) == Some(Line(q, sent))
    ensures Held(q, 0, Kept(Rotated(q, []))) == q && sent + Taken(q, []) == sent
  {
  }

  lemma OneMore(q: seq<Packet>, sent: seq<Packet>, pauses: seq<Pause>)
    requires pauses != [] && Used(pauses) <= |q|
    ensures var n := |pauses| - 1;
            var u := Used(pauses[..n]);
            var k := u + pauses[n].first;
            Used(pauses) == u + pauses[n].Total() + 1 &&
            Rotated(q, pauses) == Rotated(q, pauses[..n]) + [q[k]] &&
            Taken(q, pauses) == Taken(q, pauses[..n]) + q[u..k] + q[k + 1..Used(pauses)] &&
            (Run(Line(q, sent), pauses[..n]).Some? ==>
               Run(Line(q, sent), pauses) == Turn(Run(Line(q, sent), pauses[..n]).value, pauses[n]))
  {
  }

  lemma KeptSnoc(ps: seq<Packet>, p: Packet)
    ensures Kept(ps + [p]) == Kept(ps) + if Keeps(p) then [p] else []
  {
    assert (ps + [p])[..|ps|] == ps;
  }

  function Removed(pauses: seq<Pause>): nat {
    if pauses == [] then 0 else Removed(pauses[..|pauses| - 1]) + pauses[|pauses| - 1].Total()
  }

  lemma {:induction false} CountUsed(pauses: seq<Pause>)
    ensures Used(pauses) == |pauses| + Removed(pauses)
  {
    if pauses != [] {
      CountUsed(pauses[..|pauses| - 1]);
    }
  }

  lemma Recount(q: seq<Packet>, u: nat, sent: seq<Packet>, rotated: seq<Packet>, taken: seq<Packet>)
    requires u <= |q| && multiset(rotated) + multiset(taken) == multiset(q[..u])
    requires multiset(Kept(rotated)) + multiset(Lost(rotated)) == multiset(rotated)
    ensures multiset(q[u..] + Kept(rotated)) + multiset(sent + taken) + multiset(Lost(rotated)) ==
            multiset(q) + multiset(sent)
  {
    hide Kept, Lost;
    assert q == q[..u] + q[u..];
  }

  /** A full queue: while the sender takes at most 60 packets the loop never waits, and loses no packet it should keep. */
  lemma FullQueueSheds(q: seq<Packet>, sent: seq<Packet>, pauses: seq<Pause>)
    requires |q| == 1000 && |pauses| == 940 && Removed(pauses) <= 60
    requires forall i :: 0 <= i < |q| ==> OneKind(q[i])
    ensures var t := 940 + Removed(pauses);
            Used(pauses) == t &&
            Run(Line(q, sent), pauses) == Some(Line(q[t..] + Kept(Rotated(q, pauses)), sent + Taken(q, pauses)))
    ensures var l := Run(Line(q, sent), pauses).value;
            multiset(l.queue) + multiset(l.sent) + multiset(Lost(Rotated(q, pauses))) == multiset(q) + multiset(sent)
    ensures forall p :: p in Lost(Rotated(q, pauses)) ==> !Keeps(p)
  {
    hide Run, Rotated, Taken, Kept, Lost, Keeps, OneKind, Used, Removed;
    CountUsed(pauses);
    RunSheds(q, sent, pauses);
    SharedOut(q, pauses);
    KeptOrLost(Rotated(q, pauses));
    Recount(q, Used(pauses), sent, Rotated(q, pauses), Taken(q, pauses));
  }

  predicate NoPauses(pauses: seq<Pause>) {
    forall i :: 0 <= i < |pauses| ==> pauses[i] == Pause(0, 0, 0)
  }

  lemma LastPause(pauses: seq<Pause>)
    requires NoPauses(pauses) && pauses != []
    ensures NoPauses(pauses[..|pauses| - 1]) && pauses[|pauses| - 1] == Pause(0, 0, 0)
  {
  }

  lemma FrontGrows(q: seq<Packet>, n: nat, rotated: seq<Packet>, taken: seq<Packet>)
    requires n < |q| && rotated == q[..n] && taken == []
    ensures rotated + [q[n]] == q[..n + 1] && taken + q[n..n] + q[n + 1..n + 1] == []
  {
  }

  /** With no sender at work the first 940 packets are rotated behind the other 60. */
  lemma {:induction false} NoSender(q: seq<Packet>, pauses: seq<Pause>)
    requires |pauses| <= |q| && NoPauses(pauses)
    ensures Used(pauses) == |pauses|
    ensures Rotated(q, pauses) == q[..|pauses|] && Taken(q, pauses) == []
  {
    hide *;
    if pauses == [] {
      NothingUsed(q, []);
    } else {
      var n := |pauses| - 1;
      LastPause(pauses);
      NoSender(q, pauses[..n]);
      UsedSnoc(pauses);
      OneMore(q, [], pauses);
      FrontGrows(q, n, Rotated(q, pauses[..n]), Taken(q, pauses[..n]));
    }
  }

  lemma UsedSnoc(pauses: seq<Pause>)
    requires pauses != []
    ensures Used(pauses) == Used(pauses[..|pauses| - 1]) + 1 + pauses[|pauses| - 1].Total()
    ensures pauses[|pauses| - 1] == Pause(0, 0, 0) ==> Used(pauses) == Used(pauses[..|pauses| - 1]) + 1
  {
  }

  /** How far into the queue the last receive reaches. */
  function Reach(pauses: seq<Pause>): nat {
    if pauses == [] then 0 else Used(pauses[..|pauses| - 1]) + pauses[|pauses| - 1].first + 1
  }

  lemma TurnDrops(q: seq<Packet>, sent: seq<Packet>, pause: Pause)
    requires |q| <= MAX_QUEUE - 24 && forall i :: 0 <= i < |q| ==> !Keeps(q[i])
    ensures Turn(Line(q, sent), pause).Some? <==> pause.first < |q|
    ensures pause.first < |q| ==>
              Turn(Line(q, sent), pause).value.queue == q[if pause.Total() < |q| then pause.Total() + 1 else |q|..]
  {
    var f, s := pause.first, pause.second;
    if f < |q| {
      var p := q[f..][0];
      assert p == q[f];
      var rest := q[f..][1..];
      assert rest == q[f + 1..];
      assert !p.isAudio;
    }
  }

  /** With nothing to keep the loop waits for ever exactly when its receives reach beyond the queue. */
  lemma {:induction false} RunWaits(q: seq<Packet>, sent: seq<Packet>, pauses: seq<Pause>)
    requires |q| <= MAX_QUEUE - 24 && forall i :: 0 <= i < |q| ==> !Keeps(q[i])
    ensures Run(Line(q, sent), pauses).Some? <==> Reach(pauses) <= |q|
    ensures Reach(pauses) <= |q| ==>
              Run(Line(q, sent), pauses).value.queue == q[if Used(pauses) <= |q| then Used(pauses) else |q|..]
  {
    hide Turn, Keeps;
    if pauses != [] {
      var n := |pauses| - 1;
      RunWaits(q, sent, pauses[..n]);
      ReachGrows(pauses);
      var before := Run(Line(q, sent), pauses[..n]);
      if before.Some? {
        TurnDrops(before.value.queue, before.value.sent, pauses[n]);
      }
    }
  }

  lemma ReachGrows(pauses: seq<Pause>)
    requires pauses != []
    ensures Reach(pauses[..|pauses| - 1]) <= Used(pauses[..|pauses| - 1]) < Reach(pauses) <= Used(pauses)
  {
  }

  // ---- any sender ----

  /** A queue as the writer keeps it: at most 1000 packets, each of one kind. */
  predicate Loaded(q: seq<Packet>) {
    |q| <= MAX_QUEUE - 24 && forall i :: 0 <= i < |q| ==> OneKind(q[i])
  }

  /** Between l and r nothing but the dropped packets disappeared, and nothing was added to the queue. */
  predicate Conserves(l: Line, r: Line, dropped: seq<Packet>) {
    |r.queue| <= |l.queue| && Loaded(r.queue) && (forall p :: p in dropped ==> !Keeps(p)) &&
    multiset(r.queue) + multiset(r.sent) + multiset(dropped) == multiset(l.queue) + multiset(l.sent)
  }

  /** The packet that one turn drops, if it drops one. */
  function DroppedIn(l: Line, pause: Pause): seq<Packet> {
    var q := l.Take(pause.first).queue;
    if q == [] || Keeps(q[0]) then [] else [q[0]]
  }

  function Dropped(l: Line, pauses: seq<Pause>): seq<Packet> {
    if pauses == [] then []
    else
      var n := |pauses| - 1;
      var before := Run(l, pauses[..n]);
      Dropped(l, pauses[..n]) + if before.None? then [] else DroppedIn(before.value, pauses[n])
  }

  /** Where the loop gets to: to its end, or to the receive that finds the queue empty. */
  function Halted(l: Line, pauses: seq<Pause>): Line {
    if pauses == [] then l
    else
      var n := |pauses| - 1;
      var before := Run(l, pauses[..n]);
      if before.None? then Halted(l, pauses[..n])
      else
        var after := Turn(before.value, pauses[n]);
        if after.None? then before.value.Take(pauses[n].first) else after.value
  }

  lemma TakeConserves(l: Line, n: nat)
    requires Loaded(l.queue)
    ensures Conserves(l, l.Take(n), []) && |l.Take(n).queue| >= |l.queue| - n
  {
    var k := if n <= |l.queue| then n else |l.queue|;
    assert l.queue == l.queue[..k] + l.queue[k..];
    assert forall i :: 0 <= i < |l.queue[k..]| ==> l.queue[k..][i] == l.queue[k + i];
  }

  lemma Rebalance(a: multiset<Packet>, b: multiset<Packet>, c: multiset<Packet>, d: multiset<Packet>, p: Packet)
    requires a + b + multiset([]) == c + d
    ensures multiset([p]) + a + b == multiset([p]) + c + d
    ensures a + b + multiset([p]) == multiset([p]) + c + d
    ensures a + multiset([p]) + b + multiset([]) == multiset([p]) + c + d
  {
    var x := multiset([p]);
    assert a + b + multiset([]) == a + b;
    assert x + c + d == x + (c + d);
    assert x + a + b == x + (a + b) == a + b + x;
    assert a + x + b + multiset([]) == x + (a + b);
  }

  /** After the receive: whatever the sender takes, p goes to the back of the queue or is dropped. */
  lemma PassConserves(b: Line, p: Packet, n: nat)
    requires Loaded(b.queue) && |b.queue| < MAX_QUEUE - 24 && OneKind(p)
    ensures var r := PassVideo(PassAudio(b, p).Take(n), p);
            Conserves(Line([p] + b.queue, b.sent), r, if Keeps(p) then [] else [p]) && |r.queue| >= |b.queue| - n
  {
    hide OneKind, Line.Take;
    NotBoth(p);
    if p.isAudio {
      var c := Line(b.queue + [p], b.sent);
      TakeConserves(c, n);
      assert multiset(b.queue + [p]) == multiset([p] + b.queue);
    } else {
      TakeConserves(b, n);
      var c := b.Take(n);
      IsLoaded(b, c, []);
      assert |c.queue + [p]| <= MAX_QUEUE - 24;
      Rebalance(multiset(c.queue), multiset(c.sent), multiset(b.queue), multiset(b.sent), p);
      assert multiset(c.queue + [p]) == multiset(c.queue) + multiset([p]);
      assert multiset([p] + b.queue) == multiset([p]) + multiset(b.queue);
      var r, d := PassVideo(b.Take(n), p), if Keeps(p) then [] else [p];
      assert Loaded(r.queue) && |r.queue| <= |b.queue| + 1;
      assert multiset(r.queue) + multiset(r.sent) + multiset(d) == multiset([p] + b.queue) + multiset(b.sent);
    }
  }

  lemma NotBoth(p: Packet)
    requires OneKind(p)
    ensures !(p.isAudio && p.isVideo)
  {
  }

  lemma ConservesOn(l: Line, m: Line, r: Line, a: seq<Packet>, b: seq<Packet>)
    requires Conserves(l, m, a) && Conserves(m, r, b)
    ensures Conserves(l, r, a + b)
  {
    hide Loaded, Keeps;
  }

  /** One turn loses at most one packet, and only one that need not be kept. */
  lemma TurnConserves(l: Line, pause: Pause)
    requires Loaded(l.queue) && Turn(l, pause).Some?
    ensures var r := Turn(l, pause).value;
            Conserves(l, r, DroppedIn(l, pause)) && |r.queue| >= |l.queue| - 1 - pause.Total()
  {
    hide Conserves, Line.Take, PassAudio, PassVideo, Keeps, OneKind;
    var a := l.Take(pause.first);
    TakeConserves(l, pause.first);
    IsLoaded(l, a, []);
    var p, rest := a.queue[0], Line(a.queue[1..], a.sent);
    assert a.queue == [p] + rest.queue;
    var b := rest.Take(pause.second);
    TakeConserves(rest, pause.second);
    IsLoaded(rest, b, []);
    BehindFirst(p, rest, b);
    PassConserves(b, p, pause.third);
    var d, r := DroppedIn(l, pause), Turn(l, pause).value;
    ConservesOn(l, a, Line([p] + b.queue, b.sent), [], []);
    assert d[..0] + d[..0] == d[..0] == [];
    ConservesOn(l, Line([p] + b.queue, b.sent), r, [], d);
    assert [] + d == d;
  }

  lemma IsLoaded(l: Line, r: Line, dropped: seq<Packet>)
    requires Conserves(l, r, dropped)
    ensures Loaded(r.queue) && |r.queue| <= |l.queue|
  {
  }

  lemma BehindFirst(p: Packet, l: Line, r: Line)
    requires Conserves(l, r, []) && Loaded([p] + l.queue)
    ensures Conserves(Line([p] + l.queue, l.sent), Line([p] + r.queue, r.sent), [])
  {
    assert OneKind(([p] + l.queue)[0]);
    forall i | 0 <= i < |[p] + r.queue|
      ensures OneKind(([p] + r.queue)[i])
    {
      if i > 0 {
        assert ([p] + r.queue)[i] == r.queue[i - 1];
      }
    }
    Rebalance(multiset(r.queue), multiset(r.sent), multiset(l.queue), multiset(l.sent), p);
  }

  /**
   Whatever the sender takes meanwhile, and however long the loop runs, even until it waits for ever: the
   queue never grows, and nothing is lost but inter frames and metadata, each at most once.
   */
  lemma {:induction false} RunConserves(l: Line, pauses: seq<Pause>)
    requires Loaded(l.queue)
    ensures Conserves(l, Halted(l, pauses), Dropped(l, pauses))
    ensures Run(l, pauses).Some? ==> Halted(l, pauses) == Run(l, pauses).value
    ensures Run(l, pauses).None? ==> Halted(l, pauses).queue == []
    ensures Run(l, pauses).Some? ==> |Run(l, pauses).value.queue| >= |l.queue| - Used(pauses)
  {
    hide Conserves, Line.Take, Turn, DroppedIn, Loaded;
    if pauses == [] {
      NothingDropped(l);
    } else {
      var n := |pauses| - 1;
      RunConserves(l, pauses[..n]);
      var before, d := Run(l, pauses[..n]), Dropped(l, pauses[..n]);
      if before.Some? {
        var m := before.value;
        IsLoaded(l, m, d);
        if Turn(m, pauses[n]).Some? {
          TurnConserves(m, pauses[n]);
          ConservesOn(l, m, Turn(m, pauses[n]).value, d, DroppedIn(m, pauses[n]));
        } else {
          TurnWaits(m, pauses[n]);
          TakeConserves(m, pauses[n].first);
          ConservesOn(l, m, m.Take(pauses[n].first), d, []);
        }
      } else {
        assert d + [] == d;
      }
    }
  }

  lemma NothingDropped(l: Line)
    requires Loaded(l.queue)
    ensures Conserves(l, l, [])
  {
  }

  lemma TurnWaits(l: Line, pause: Pause)
    ensures Turn(l, pause).None? <==> l.Take(pause.first).queue == []
    ensures Turn(l, pause).None? ==> DroppedIn(l, pause) == []
    ensures pause.first < |l.queue| ==> Turn(l, pause).Some?
  {
  }

  /** As far as the receives reach into the queue none of them waits. */
  lemma {:induction false} ReachSuffices(l: Line, pauses: seq<Pause>)
    requires Loaded(l.queue) && Reach(pauses) <= |l.queue|
    ensures Run(l, pauses).Some?
  {
    hide Turn, Loaded;
    if pauses != [] {
      var n := |pauses| - 1;
      ReachGrows(pauses);
      ReachSuffices(l, pauses[..n]);
      RunConserves(l, pauses[..n]);
      TurnWaits(Run(l, pauses[..n]).value, pauses[n]);
    }
  }

  const AnyMetadata := Packet(false, false, true, 0, 0, None, [])

  /** The loop is sure never to wait on a queue of n packets if and only if its receives reach no further than that. */
  lemma NeverWaitsExact(pauses: seq<Pause>, n: nat)
    requires n <= 1000
    ensures (forall q :: |q| == n && Loaded(q) ==> Run(Line(q, []), pauses).Some?) <==> Reach(pauses) <= n
  {
    hide Run, Loaded, Reach;
    var worst := seq(n, _ => AnyMetadata);
    MetadataLoaded(worst);
    RunWaits(worst, [], pauses);
    forall q | |q| == n && Loaded(q) && Reach(pauses) <= n
      ensures Run(Line(q, []), pauses).Some?
    {
      ReachSuffices(Line(q, []), pauses);
    }
  }

  lemma MetadataLoaded(q: seq<Packet>)
    requires |q| <= MAX_QUEUE - 24 && forall i :: 0 <= i < |q| ==> q[i] == AnyMetadata
    ensures Loaded(q) && forall i :: 0 <= i < |q| ==> !Keeps(q[i])
  {
  }

  /** What the sender takes after the last receive does not count: at most 60 packets before it are allowed. */
  lemma ReachIs(pauses: seq<Pause>)
    requires pauses != []
    ensures var last := pauses[|pauses| - 1];
            Reach(pauses) == |pauses| + Removed(pauses) - last.second - last.third
  {
    CountUsed(pauses[..|pauses| - 1]);
  }

  /** What the sender makes of a packet. */
  datatype Frame = Frame(data: seq<byte>, length: nat, streamID: nat, timestamp: nat, typeID: nat)

  class VirWriter {
    var packetQueue: seq<Packet>
    var closed: bool
    ghost var sent: seq<Packet>

    constructor ()
      ensures Valid() && !closed && packetQueue == [] && sent == []
    {
      packetQueue, closed, sent := [], false, [];
    }

    /** With one producer the queue never holds more than 1000 packets. */
    ghost predicate Valid()
      reads this
    {
      Loaded(packetQueue)
    }

    /** The sender takes up to n packets. */
    method SenderTakes(n: nat)
      modifies this`packetQueue, this`sent
      ensures Line(packetQueue, sent) == Line(old(packetQueue), old(sent)).Take(n)
    {
      var k := if n <= |packetQueue| then n else |packetQueue|;
      sent := sent + packetQueue[..k];
      packetQueue := packetQueue[k..];
    }

    /** Sheds load; `waits` says that it waits on an empty queue. */
    method DropPacket(pauses: seq<Pause>) returns (waits: bool)
      requires |pauses| == 940
      modifies this`packetQueue, this`sent
      ensures waits == Run(Line(old(packetQueue), old(sent)), pauses).None?
      ensures !waits ==> Run(Line(old(packetQueue), old(sent)), pauses) == Some(Line(packetQueue, sent))
      ensures Line(packetQueue, sent) == Halted(Line(old(packetQueue), old(sent)), pauses)
    {
      hide Run, Halted, Line.Take;
      ghost var start := Line(packetQueue, sent);
      NoTurns(start, pauses);
      var i := 0;
      while i < MAX_QUEUE - 84
        invariant 0 <= i <= MAX_QUEUE - 84
        invariant Run(start, pauses[..i]) == Some(Line(packetQueue, sent))
      {
        ghost var before := Line(packetQueue, sent);
        RunSnoc(start, pauses, i);
        SenderTakes(pauses[i].first);
        if packetQueue == [] {
          HaltedAt(start, pauses, i);
          Stuck(start, pauses, i + 1);
          return true;
        }
        var tmpPkt := packetQueue[0];
        packetQueue := packetQueue[1..];
        SenderTakes(pauses[i].second);
        if tmpPkt.isAudio {
          if |packetQueue| > MAX_QUEUE - 2 {
            packetQueue := packetQueue[1..];
          } else {
            packetQueue := packetQueue + [tmpPkt];
          }
        }
        SenderTakes(pauses[i].third);
        if tmpPkt.isVideo {
          var videoPkt := tmpPkt.header;
          if videoPkt.Some? && (videoPkt.value.IsSeq() || videoPkt.value.IsKeyFrame()) {
            packetQueue := packetQueue + [tmpPkt];
          }
          if |packetQueue| > MAX_QUEUE - 10 {
            packetQueue := packetQueue[1..];
          }
        }
        i := i + 1;
      }
      assert pauses[..i] == pauses;
      HaltedAtEnd(start, pauses);
      waits := false;
    }

    /** Queues a packet; at a full queue it sheds load instead, and the packet itself is lost. */
    method Write(p: Packet, pauses: seq<Pause>) returns (ok: bool, waits: bool)
      requires Valid() && OneKind(p) && |pauses| == 940
      modifies this`packetQueue, this`sent
      ensures ok == !closed
      ensures closed ==> packetQueue == old(packetQueue) && sent == old(sent) && !waits
      ensures Valid()
      ensures ok && |old(packetQueue)| < 1000 ==>
                packetQueue == old(packetQueue) + [p] && sent == old(sent) && !waits
      ensures ok && |old(packetQueue)| == 1000 ==>
                var l := Line(old(packetQueue), old(sent));
                waits == Run(l, pauses).None? && (!waits ==> Run(l, pauses).value == Line(packetQueue, sent)) &&
                Conserves(l, Line(packetQueue, sent), Dropped(l, pauses)) && (waits ==> packetQueue == [])
      ensures ok && |old(packetQueue)| == 1000 && Reach(pauses) <= 1000 ==> !waits
      ensures ok && |old(packetQueue)| == 1000 && Removed(pauses) <= 60 ==>
                !waits && Used(pauses) == 940 + Removed(pauses) &&
                packetQueue == old(packetQueue)[Used(pauses)..] + Kept(Rotated(old(packetQueue), pauses)) &&
                sent == old(sent) + Taken(old(packetQueue), pauses)
    {
      hide Run, Halted, Dropped, Conserves, Loaded, OneKind, Reach, Used, Removed, Rotated, Taken, Kept;
      LoadedIs(packetQueue);
      waits := false;
      if closed {
        return false, false;
      }
      if |packetQueue| >= MAX_QUEUE - 24 {
        ghost var l := Line(packetQueue, sent);
        if Removed(pauses) <= 60 {
          FullQueueSheds(packetQueue, sent, pauses);
        }
        if Reach(pauses) <= MAX_QUEUE - 24 {
          ReachSuffices(l, pauses);
        }
        RunConserves(l, pauses);
        waits := DropPacket(pauses);
        IsLoaded(l, Line(packetQueue, sent), Dropped(l, pauses));
      } else {
        OneMoreLoaded(packetQueue, p);
        packetQueue := packetQueue + [p];
      }
      ok := true;
    }

    /** One turn of the sender: the oldest packet, framed for the connection; nothing if the queue is empty. */
    method SendNext(base: u32) returns (f: Option<Frame>)
      requires Valid()
      modifies this`packetQueue, this`sent
      ensures Valid() && (f.None? <==> old(packetQueue) == [])
      ensures Line(packetQueue, sent) == Line(old(packetQueue), old(sent)).Take(1)
      ensures f.Some? ==>
                var p := old(packetQueue)[0];
                f.value.data == p.data && f.value.length == |p.data| % 0x1_0000_0000 && f.value.streamID == p.streamID &&
                f.value.timestamp == (p.timestamp + base as nat) % 0x1_0000_0000 &&
                f.value.typeID == if p.isVideo then 9 else if p.isMetadata then 18 else 8
    {
      if packetQueue == [] {
        return None;
      }
      var p := packetQueue[0];
      SenderTakes(1);
      var typeID := 8;
      if p.isVideo {
        typeID := 9;
      } else if p.isMetadata {
        typeID := 18;
      }
      f := Some(Frame(p.data, |p.data| % 0x1_0000_0000, p.streamID, (p.timestamp + base as nat) % 0x1_0000_0000, typeID));
    }

    method Close()
      modifies this`closed
      ensures closed
    {
      closed := true;
    }
  }

  lemma LoadedIs(q: seq<Packet>)
    ensures Loaded(q) <==> |q| <= MAX_QUEUE - 24 && forall i :: 0 <= i < |q| ==> OneKind(q[i])
  {
  }

  lemma OneMoreLoaded(q: seq<Packet>, p: Packet)
    requires Loaded(q) && |q| < MAX_QUEUE - 24 && OneKind(p)
    ensures Loaded(q + [p])
  {
  }

  lemma NoTurns(l: Line, pauses: seq<Pause>)
    ensures Run(l, pauses[..0]) == Some(l)
  {
  }

  lemma RunSnoc(l: Line, pauses: seq<Pause>, i: nat)
    requires i < |pauses|
    ensures Run(l, pauses[..i + 1]) ==
            if Run(l, pauses[..i]).None? then None else Turn(Run(l, pauses[..i]).value, pauses[i])
  {
    assert pauses[..i + 1][..i] == pauses[..i];
  }

  lemma HaltedAtEnd(l: Line, pauses: seq<Pause>)
    requires Run(l, pauses).Some?
    ensures Halted(l, pauses) == Run(l, pauses).value
  {
  }

  lemma HaltedAt(l: Line, pauses: seq<Pause>, i: nat)
    requires i < |pauses| && Run(l, pauses[..i]).Some?
    requires Turn(Run(l, pauses[..i]).value, pauses[i]).None?
    ensures Halted(l, pauses[..i + 1]) == Run(l, pauses[..i]).value.Take(pauses[i].first)
  {
    assert pauses[..i + 1][..i] == pauses[..i];
  }

  /** Once it waits, it waits for ever. */
  lemma {:induction false} Stuck(l: Line, pauses: seq<Pause>, i: nat)
    requires i <= |pauses| && Run(l, pauses[..i]).None?
    ensures Run(l, pauses).None? && Halted(l, pauses) == Halted(l, pauses[..i])
    decreases |pauses| - i
  {
    if i < |pauses| {
      RunSnoc(l, pauses, i);
      assert pauses[..i + 1][..i] == pauses[..i];
      Stuck(l, pauses, i + 1);
    } else {
      assert pauses[..i] == pauses;
    }
  }
}
