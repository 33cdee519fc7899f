/** What a full queue loses, told by the fields of the packets and in numbers. */
module Shedding {
  import opened Bytes
  import opened Packets
  import opened VirWriters

  /** Audio, and video whose header says key frame: sequence headers are among them. */
  function Important(ps: seq<Packet>): seq<Packet> {
    if ps == [] then []
    else
      var p := ps[|ps| - 1];
      Important(ps[..|ps| - 1]) +
      if p.isAudio || (p.isVideo && p.header.Some? && p.header.value.frameType == 1) then [p] else []
  }

  lemma KeepsExact(p: Packet)
    ensures Keeps(p) <==> p.isAudio || (p.isVideo && p.header.Some? && p.header.value.frameType == 1)
  {
  }

  lemma {:induction false} KeptAreImportant(ps: seq<Packet>)
    ensures Kept(ps) == Important(ps)
  {
    if ps != [] {
      KeptAreImportant(ps[..|ps| - 1]);
      KeepsExact(ps[|ps| - 1]);
    }
  }

  predicate OneKindEach(q: seq<Packet>) {
    forall i :: 0 <= i < |q| ==> !(q[i].isAudio && q[i].isVideo)
  }

  lemma KindsApart(q: seq<Packet>, pauses: seq<Pause>)
    ensures OneKindEach(q) <==> forall i :: 0 <= i < |q| ==> OneKind(q[i])
    ensures NoPauses(pauses) <==> forall i :: 0 <= i < |pauses| ==> pauses[i] == Pause(0, 0, 0)
  {
  }

  /** With no sender at work a full queue of 1000 keeps its last 60 packets, and behind them the important ones of the others. */
  lemma {:induction false} FullQueueAlone(q: seq<Packet>, sent: seq<Packet>, pauses: seq<Pause>)
    requires |q| == 1000 && |pauses| == 940 && OneKindEach(q)
    requires forall i :: 0 <= i < |pauses| ==> pauses[i] == Pause(0, 0, 0)
    ensures Run(Line(q, sent), pauses) == Some(Line(q[940..] + Important(q[..940]), sent))
  {
    hide *;
    KindsApart(q, pauses);
    NoSender(q, pauses);
    CountUsed(pauses);
    FullQueueSheds(q, sent, pauses);
    KeptAreImportant(q[..940]);
    assert sent + [] == sent;
  }

  /** Whatever the sender takes meanwhile, no audio and no key frame is ever lost, even from a loop that waits for ever. */
  lemma {:induction false} ImportantSurvive(q: seq<Packet>, sent: seq<Packet>, pauses: seq<Pause>)
    requires |q| <= 1000 && OneKindEach(q)
    ensures var l, lost := Halted(Line(q, sent), pauses), Dropped(Line(q, sent), pauses);
            multiset(l.queue) + multiset(l.sent) + multiset(lost) == multiset(q) + multiset(sent) &&
            forall p :: p in lost ==> !p.isAudio && !(p.isVideo && p.header.Some? && p.header.value.frameType == 1)
  {
    hide Run, Halted, Dropped, Keeps;
    var lost := Dropped(Line(q, sent), pauses);
    RunConserves(Line(q, sent), pauses);
    forall p | p in lost
      ensures !p.isAudio && !(p.isVideo && p.header.Some? && p.header.value.frameType == 1)
    {
      KeepsExact(p);
    }
  }

  /** In a queue beyond 1022 audio, and beyond 1014 video, pushes out the oldest packet. */
  lemma Overfull(l: Line, p: Packet)
    ensures p.isAudio ==> PassAudio(l, p) == if |l.queue| > 1022 then Line(l.queue[1..], l.sent) else Line(l.queue + [p], l.sent)
    ensures p.isVideo && p.header.Some? && p.header.value.frameType == 1 ==>
              PassVideo(l, p) == Line(if |l.queue| > 1013 then l.queue[1..] + [p] else l.queue + [p], l.sent)
    ensures p.isVideo && (p.header.Some? ==> p.header.value.frameType != 1) ==>
              PassVideo(l, p) == Line(if |l.queue| > 1014 then l.queue[1..] else l.queue, l.sent)
    ensures !p.isAudio && !p.isVideo ==> PassAudio(l, p) == l && PassVideo(l, p) == l
  {
    assert l.queue != [] ==> (l.queue + [p])[1..] == l.queue[1..] + [p];
  }
}
