/** Whole runs between two fresh ends of a connection. */
module Runs {
  import opened Bytes
  import opened Wire
  import opened ChunkReader
  import opened ChunkWriter
  import opened Multiplex
  import opened Transfer

  lemma FreshEndsAgree()
    ensures Related(NewSender, NewReceiver) && AllIdle(NewSender)
  {
  }

  /** The messages a sequence amounts to: an empty one is never written, and some are moved to a fixed chunk stream. */
  function Delivered(ms: seq<Message>): seq<Message> {
    if ms == [] then [] else (if ms[0].payload == [] then [] else [Routed(ms[0])]) + Delivered(ms[1..])
  }

  lemma {:induction false} AllArrive(ms: seq<Message>, size: nat)
    requires SendableAll(ms, size)
    ensures ArriveWithin(ms, size, |WriteAll(ms, size)|) == Delivered(ms)
  {
    if ms != [] {
      AllArrive(ms[1..], SizeFor(ms[0], size));
      hide WriteChunks, Sendable, CutAlike, SizeFor, Routed;
    }
  }

  /** One more call of Write: its bytes, cut as the chunk size then is, come after those of the earlier calls. */
  lemma {:induction false} OneMoreWrite(ms: seq<Message>, m: Message, size: nat)
    requires SendableAll(ms, size) && Sendable(m) && CutAlike(m, FinalSize(ms, size))
    ensures SendableAll(ms + [m], size)
    ensures FinalSize(ms + [m], size) == SizeFor(m, FinalSize(ms, size))
    ensures WriteAll(ms + [m], size) == WriteAll(ms, size) + WriteChunks(m, SizeFor(m, FinalSize(ms, size)))
  {
    hide WriteChunks, Sendable, SizeFor;
    if ms == [] {
      assert [m][1..] == [];
      var w := WriteChunks(m, SizeFor(m, size));
      assert [] + [m] == [m] && w + [] == w && [] + w == w;
    } else {
      var size1 := SizeFor(ms[0], size);
      OneMoreWrite(ms[1..], m, size1);
      assert (ms + [m])[1..] == ms[1..] + [m];
      Associates(WriteChunks(ms[0], size1), WriteAll(ms[1..], size1), WriteChunks(m, SizeFor(m, FinalSize(ms, size))));
    }
  }

  /** Whatever one end writes message by message, a fresh other end reads, with the same chunk size at the end. */
  lemma RoundTrip(ms: seq<Message>)
    requires SendableAll(ms, 128)
    ensures var session := ReadAll(NewReceiver, At(WriteAll(ms, 128)));
            session.messages == Delivered(ms) && !session.crashed && session.chunkSize == FinalSize(ms, 128)
  {
    hide ReadAll, Related, AllIdle;
    var w := WriteAll(ms, 128);
    FreshEndsAgree();
    ReadsAll(NewSender, NewReceiver, ms, |w|);
    assert w[..|w|] == w;
    AllArrive(ms, 128);
  }

  /** Whatever a conforming peer interleaves, a fresh end delivers in the order of completion. */
  lemma Interleaved(steps: seq<Step>)
    requires ConformsAll(NewSender, steps)
    ensures var session := ReadAll(NewReceiver, At(EmitAll(NewSender, steps)));
            session.messages == CompletedBy(NewSender, steps) && !session.crashed
  {
    hide ReadAll, Related, ConformsAll;
    FreshEndsAgree();
    WholeRun(NewSender, NewReceiver, steps);
  }

  // ---- nothing is lost or mixed ----

  /** The message that a step starts in a slot. */
  function Started(s: Sender, step: Step, slot: nat): seq<Message>
    requires Conforms(s, step)
  {
    if step.More? || SlotOf(step.csid) != slot then [] else [Opened(s, step).Sent()]
  }

  function AllStarted(s: Sender, steps: seq<Step>, slot: nat): seq<Message>
    requires ConformsAll(s, steps)
    decreases |steps|
  {
    if steps == [] then [] else Started(s, steps[0], slot) + AllStarted(After(s, steps[0]), steps[1..], slot)
  }

  /** The message in progress in a slot. */
  function Pending(s: Sender, slot: nat): seq<Message> {
    if slot in s.lines && !s.lines[slot].Idle() then [s.lines[slot].Sent()] else []
  }

  function InSlot(ms: seq<Message>, slot: nat): seq<Message> {
    if ms == [] then [] else (if SlotOf(ms[0].csid) == slot then [ms[0]] else []) + InSlot(ms[1..], slot)
  }

  /** Lines are filed under their own slots. */
  ghost predicate Filed(s: Sender) {
    forall slot :: slot in s.lines ==> SlotOf(s.lines[slot].csid) == slot
  }

  lemma StepLosesNothing(s: Sender, step: Step, slot: nat)
    requires Filed(s) && Conforms(s, step)
    ensures Filed(After(s, step))
    ensures Pending(s, slot) + Started(s, step, slot) == InSlot(Completed(s, step), slot) + Pending(After(s, step), slot)
  {
    var l := Advanced(s, step);
    assert SlotOf(l.csid) == SlotOf(step.csid);
    assert l.Sent() == Opened(s, step).Sent();
    assert InSlot([l.Sent()], slot) == if SlotOf(l.csid) == slot then [l.Sent()] else [];
  }

  lemma {:induction false} InSlotConcat(a: seq<Message>, b: seq<Message>, slot: nat)
    ensures InSlot(a + b, slot) == InSlot(a, slot) + InSlot(b, slot)
  {
    if a == [] {
      assert a + b == b;
    } else {
      InSlotConcat(a[1..], b, slot);
      assert (a + b)[1..] == a[1..] + b;
      Associates(if SlotOf(a[0].csid) == slot then [a[0]] else [], InSlot(a[1..], slot), InSlot(b, slot));
    }
  }

  /** In each slot the messages started are the messages completed, in the same order, and the one in progress. */
  lemma {:induction false} NothingLost(s: Sender, steps: seq<Step>, slot: nat)
    requires Filed(s) && ConformsAll(s, steps)
    ensures Pending(s, slot) + AllStarted(s, steps, slot) ==
            InSlot(CompletedBy(s, steps), slot) + Pending(AfterAll(s, steps), slot)
    decreases |steps|
  {
    if steps != [] {
      var step, s1 := steps[0], After(s, steps[0]);
      StepLosesNothing(s, step, slot);
      NothingLost(s1, steps[1..], slot);
      InSlotConcat(Completed(s, step), CompletedBy(s1, steps[1..]), slot);
      Associates(Pending(s, slot), Started(s, step, slot), AllStarted(s1, steps[1..], slot));
      Associates(InSlot(Completed(s, step), slot), Pending(s1, slot), AllStarted(s1, steps[1..], slot));
      Associates(
        InSlot(Completed(s, step), slot), InSlot(CompletedBy(s1, steps[1..]), slot),
        Pending(AfterAll(s1, steps[1..]), slot));
      hide Conforms, After, Completed, Started, Pending, InSlot, Filed;
    }
  }

  /** So what a fresh end delivers on a slot is what was started there, in order, up to the message in progress. */
  lemma DeliveredAsStarted(steps: seq<Step>, slot: nat)
    requires ConformsAll(NewSender, steps)
    ensures var session := ReadAll(NewReceiver, At(EmitAll(NewSender, steps)));
            AllStarted(NewSender, steps, slot) ==
            InSlot(session.messages, slot) + Pending(AfterAll(NewSender, steps), slot)
  {
    hide ReadAll, ConformsAll;
    Interleaved(steps);
    NothingLost(NewSender, steps, slot);
    assert [] + AllStarted(NewSender, steps, slot) == AllStarted(NewSender, steps, slot);
  }
}
