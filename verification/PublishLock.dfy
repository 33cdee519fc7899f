/** The lock that lets one publisher at a time be live for a user: a key set with SETNX, kept with EXPIRE, removed with DEL. */
module PublishLock {
  import opened Bytes

  type Id = string

  // in milliseconds
  const LEASE := 30000

  const ATTEMPTS := 8

  /** A publisher waits for the lock, holds it since its last refresh, has let it go, or has given up. */
  datatype Phase = Waiting(tried: nat) | Holding(refreshed: nat) | Released | Failed

  datatype Key = Key(owner: Id, expires: nat)

  /** A DEL that was sent, and whose key it removed. */
  datatype Delete = Delete(sender: Id, owner: Option<Id>)

  datatype State = State(now: nat, key: Option<Key>, publishers: map<Id, Phase>, deletes: seq<Delete>) {
    /** The store forgets an expired key. */
    predicate Live() {
      key.Some? && now < key.value.expires
    }

    predicate Holds(id: Id) {
      id in publishers && publishers[id].Holding?
    }

    /** Every holder's last refresh is less than a lease ago. */
    ghost predicate Timely() {
      forall id :: Holds(id) ==> now < publishers[id].refreshed + LEASE
    }
  }

  const Start := State(0, None, map[], [])

  /** Time passes, or one publisher takes its next step; it quits when an attempt is answered with an error. */
  datatype Step = Tick(d: nat) | Arrive(id: Id) | Attempt(id: Id) | Quit(id: Id) | Refresh(id: Id) | Release(id: Id)

  /** None if the step is not possible. */
  function Next(s: State, step: Step): Option<State> {
    match step
    case Tick(d) => Some(s.(now := s.now + d))
    case Arrive(id) =>
      if id in s.publishers then None else Some(s.(publishers := s.publishers[id := Waiting(0)]))
    case Attempt(id) =>
      if id !in s.publishers || !s.publishers[id].Waiting? then None
      else
        var n := s.publishers[id].tried;
        if n == ATTEMPTS then Some(s.(publishers := s.publishers[id := Failed]))
        else if s.Live() then Some(s.(publishers := s.publishers[id := Waiting(n + 1)]))
        else Some(s.(key := Some(Key(id, s.now + LEASE)), publishers := s.publishers[id := Holding(s.now)]))
    case Quit(id) =>
      if id !in s.publishers || !s.publishers[id].Waiting? then None
      else Some(s.(publishers := s.publishers[id := Failed]))
    case Refresh(id) =>
      if !s.Holds(id) then None
      else
        var key := if s.Live() then Some(Key(s.key.value.owner, s.now + LEASE)) else s.key;
        Some(s.(key := key, publishers := s.publishers[id := Holding(s.now)]))
    case Release(id) =>
      if !s.Holds(id) then None
      else
        var owner := if s.Live() then Some(s.key.value.owner) else None;
        Some(s.(key := None, publishers := s.publishers[id := Released], deletes := s.deletes + [Delete(id, owner)]))
  }

  function Then(s: Option<State>, step: Step): Option<State> {
    if s.None? then None else Next(s.value, step)
  }

  /** The state after a run; None if a step is not possible. */
  function Run(s: State, steps: seq<Step>): Option<State> {
    if steps == [] then Some(s) else Then(Run(s, steps[..|steps| - 1]), steps[|steps| - 1])
  }

  lemma RunSnoc(s: State, steps: seq<Step>, k: nat)
    requires k < |steps|
    ensures Run(s, steps[..k + 1]) == Then(Run(s, steps[..k]), steps[k])
  {
    assert steps[..k + 1][..k] == steps[..k];
  }

  /** Every holder refreshed in time all along. */
  ghost predicate AlwaysTimely(s: State, steps: seq<Step>) {
    forall k :: 0 <= k < |steps| ==> var t := Run(s, steps[..k]); t.Some? && t.value.Timely()
  }

  // ---- at most one holder ----

  ghost predicate OneHolder(s: State) {
    forall a, b :: s.Holds(a) && s.Holds(b) ==> a == b
  }

  /** The key is the holder's and lasts a lease from its last refresh; every DEL removed the sender's own key. */
  ghost predicate Inv(s: State) {
    (forall id :: s.Holds(id) ==> s.key == Some(Key(id, s.publishers[id].refreshed + LEASE))) &&
    (forall i :: 0 <= i < |s.deletes| ==> s.deletes[i].owner == Some(s.deletes[i].sender))
  }

  lemma StepKeepsInv(s: State, step: Step)
    requires Inv(s) && s.Timely() && Next(s, step).Some?
    ensures Inv(Next(s, step).value)
  {
    var t := Next(s, step).value;
    match step
    case Tick(_) =>
    case Arrive(id) =>
    case Attempt(id) =>
      assert t.Holds(id) ==> forall other :: !s.Holds(other);
    case Quit(id) =>
    case Refresh(id) =>
    case Release(id) =>
      assert forall other :: s.Holds(other) ==> other == id;
  }

  /** In every run in which holders refresh in time, at most one publisher holds the lock, and no DEL hits another's. */
  lemma {:induction false} Exclusive(steps: seq<Step>)
    requires AlwaysTimely(Start, steps) && Run(Start, steps).Some?
    ensures var s := Run(Start, steps).value;
            Inv(s) && OneHolder(s) && forall i :: 0 <= i < |s.deletes| ==> s.deletes[i].owner == Some(s.deletes[i].sender)
  {
    if steps != [] {
      var n := |steps| - 1;
      var init := steps[..n];
      forall k | 0 <= k < |init|
        ensures var t := Run(Start, init[..k]); t.Some? && t.value.Timely()
      {
        assert init[..k] == steps[..k];
      }
      Exclusive(init);
      StepKeepsInv(Run(Start, init).value, steps[n]);
    }
  }

  /** Timely refreshing is exactly what is needed: another publisher gets in if and only if the lease has run out. */
  lemma SecondHolder(s: State, holder: Id, id: Id)
    requires Inv(s) && s.Holds(holder)
    requires id in s.publishers && s.publishers[id].Waiting? && s.publishers[id].tried < 8
    ensures var t := Next(s, Attempt(id));
            t.Some? && t.value.Holds(holder) &&
            (t.value.Holds(id) <==> s.now >= s.publishers[holder].refreshed + 30000)
  {
  }

  predicate NoTicks(steps: seq<Step>) {
    forall i :: 0 <= i < |steps| ==> !steps[i].Tick?
  }

  // without time passing, a second holder can appear exactly if some holder is late: the next two lemmas

  lemma {:induction false} NoneWhileTimely(s: State, steps: seq<Step>)
    requires Inv(s) && s.Timely() && NoTicks(steps) && Run(s, steps).Some?
    ensures var t := Run(s, steps).value; t.now == s.now && Inv(t) && t.Timely() && OneHolder(t)
  {
    if steps != [] {
      var n := |steps| - 1;
      NoneWhileTimely(s, steps[..n]);
      StepKeepsInv(Run(s, steps[..n]).value, steps[n]);
    }
  }

  lemma OneOnceLate(s: State, holder: Id, id: Id)
    requires Inv(s) && s.Holds(holder) && s.now >= s.publishers[holder].refreshed + 30000
    requires id !in s.publishers
    ensures var t := Run(s, [Arrive(id), Attempt(id)]);
            t.Some? && t.value.Holds(holder) && t.value.Holds(id) && !OneHolder(t.value)
  {
    var steps := [Arrive(id), Attempt(id)];
    RunSnoc(s, steps, 0);
    RunSnoc(s, steps, 1);
    assert steps[..2] == steps && steps[..0] == [];
    var t := Run(s, steps[..1]).value;
    SecondHolder(t, holder, id);
    assert Run(s, steps) == Next(t, Attempt(id));
  }

  /** If another publisher tries before a holder's DEL, the DEL removes that one's key exactly if the holder is late. */
  lemma DeleteHitsAnother(s: State, holder: Id, id: Id)
    requires Inv(s) && s.Holds(holder) && id !in s.publishers
    ensures var t := Run(s, [Arrive(id), Attempt(id), Release(holder)]);
            t.Some? && |t.value.deletes| == |s.deletes| + 1 &&
            t.value.deletes[|s.deletes|] ==
            Delete(holder, Some(if s.now >= s.publishers[holder].refreshed + 30000 then id else holder))
  {
    var steps := [Arrive(id), Attempt(id), Release(holder)];
    RunSnoc(s, steps, 0);
    RunSnoc(s, steps, 1);
    RunSnoc(s, steps, 2);
    assert steps[..3] == steps && Run(s, steps[..0]) == Some(s);
    var s1 := Run(s, steps[..1]).value;
    assert s1.key == s.key && s1.now == s.now && s1.Holds(holder);
    var s2 := Run(s, steps[..2]).value;
    assert s2.Holds(holder) && s2.deletes == s.deletes && s2.Live();
  }

  /** A trace that shows it: a holder that comes too late removes another's key. */
  lemma LateHolderRemovesAnothersKey(a: Id, b: Id)
    requires a != b
    ensures var s := Run(Start, [Arrive(a), Attempt(a), Tick(30000), Arrive(b), Attempt(b), Release(a)]);
            s.Some? && s.value.Holds(b) && s.value.key.None? && s.value.deletes == [Delete(a, Some(b))]
  {
    var steps := [Arrive(a), Attempt(a), Tick(30000), Arrive(b), Attempt(b), Release(a)];
    assert steps[..6] == steps;
    forall k | 0 <= k < 6
      ensures Run(Start, steps[..k + 1]) == Then(Run(Start, steps[..k]), steps[k])
    {
      RunSnoc(Start, steps, k);
    }
    assert Run(Start, steps[..0]) == Some(Start);
    var s1 := Run(Start, steps[..1]);
    var s2 := Run(Start, steps[..2]);
    var s3 := Run(Start, steps[..3]);
    var s4 := Run(Start, steps[..4]);
    var s5 := Run(Start, steps[..5]);
    assert s1.value.publishers == map[a := Waiting(0)];
    assert s2.value.key == Some(Key(a, LEASE)) && s2.value.Holds(a);
    assert s3.value.now == LEASE && !s3.value.Live();
    assert s4.value.Holds(a) && s4.value.publishers[b] == Waiting(0);
    assert s5.value.Holds(a) && s5.value.Holds(b) && s5.value.key == Some(Key(b, 2 * LEASE));
  }

  // ---- a publisher that gives up ----

  ghost predicate OnlyHoldersDelete(s: State) {
    forall i :: 0 <= i < |s.deletes| ==> s.deletes[i].sender in s.publishers && s.publishers[s.deletes[i].sender].Released?
  }

  /** In every run, timely or not, a publisher that failed all its attempts, or quit, has sent no DEL. */
  lemma {:induction false} FailedNeverDeletes(steps: seq<Step>)
    requires Run(Start, steps).Some?
    ensures var s := Run(Start, steps).value;
            OnlyHoldersDelete(s) &&
            forall i :: 0 <= i < |s.deletes| ==> !(s.publishers[s.deletes[i].sender].Failed?)
  {
    if steps != [] {
      FailedNeverDeletes(steps[..|steps| - 1]);
    }
  }

  // ---- the retry loop ----

  /** A step that is not possible changes nothing. */
  function Do(s: State, steps: seq<Step>): State {
    if steps == [] then s
    else
      var before := Do(s, steps[..|steps| - 1]);
      var after := Next(before, steps[|steps| - 1]);
      if after.None? then before else after.value
  }

  /** k attempts, each followed by what the others do before the next. */
  function Rounds(id: Id, others: seq<seq<Step>>, k: nat): seq<Step>
    requires k <= |others|
  {
    if k == 0 then [] else Rounds(id, others, k - 1) + [Attempt(id)] + others[k - 1]
  }

  predicate NotBy(id: Id, steps: seq<Step>) {
    forall i :: 0 <= i < |steps| ==>
      match steps[i]
      case Tick(_) => true
      case Arrive(other) => other != id
      case Attempt(other) => other != id
      case Quit(other) => other != id
      case Refresh(other) => other != id
      case Release(other) => other != id
  }

  lemma {:induction false} OthersLeaveIt(s: State, id: Id, steps: seq<Step>)
    requires NotBy(id, steps) && id in s.publishers
    ensures id in Do(s, steps).publishers && Do(s, steps).publishers[id] == s.publishers[id]
  {
    if steps != [] {
      OthersLeaveIt(s, id, steps[..|steps| - 1]);
    }
  }

  lemma {:induction false} DoConcat(s: State, a: seq<Step>, b: seq<Step>)
    ensures Do(s, a + b) == Do(Do(s, a), b)
    decreases |b|
  {
    if b == [] {
      assert a + b == a;
    } else {
      var n := |b| - 1;
      DoConcat(s, a, b[..n]);
      assert (a + b)[..|a + b| - 1] == a + b[..n];
    }
  }

  lemma DoOne(s: State, step: Step)
    ensures Do(s, [step]) == if Next(s, step).None? then s else Next(s, step).value
  {
    assert [step][..0] == [];
  }

  /** Tries until it gets the lock, eight times at most; the others' steps between the attempts are arbitrary. */
  method Acquire(id: Id, start: State, others: seq<seq<Step>>) returns (ok: bool, s: State, ghost k: nat)
    requires id in start.publishers && start.publishers[id] == Waiting(0) && |others| == 8
    requires forall i :: 0 <= i < |others| ==> NotBy(id, others[i])
    ensures k <= 8 && s == Do(start, Rounds(id, others, k) + [Attempt(id)])
    ensures id in s.publishers && ok == s.Holds(id) && (ok ==> k < 8 && !Do(start, Rounds(id, others, k)).Live())
    ensures !ok ==> k == 8 && s.publishers[id].Failed? && s.key == Do(start, Rounds(id, others, k)).key
  {
    hide NotBy, Next, Rounds, Do;
    s, k := start, 0;
    NoRounds(start, id, others);
    var i := 0;
    while true
      invariant 0 <= i <= ATTEMPTS && k == i
      invariant s == Do(start, Rounds(id, others, i))
      invariant id in s.publishers && s.publishers[id] == Waiting(i)
      decreases ATTEMPTS - i
    {
      DoConcat(start, Rounds(id, others, i), [Attempt(id)]);
      DoOne(s, Attempt(id));
      Tries(s, id);
      var after := Next(s, Attempt(id)).value;
      if i == ATTEMPTS {
        return false, after, k;
      }
      var taken := !s.Live();
      if taken {
        return true, after, k;
      }
      OneRound(start, id, others, i);
      OthersLeaveIt(after, id, others[i]);
      s := Do(after, others[i]);
      i, k := i + 1, k + 1;
    }
  }

  lemma NoRounds(s: State, id: Id, others: seq<seq<Step>>)
    ensures Do(s, Rounds(id, others, 0)) == s
  {
  }

  lemma OneRound(s: State, id: Id, others: seq<seq<Step>>, i: nat)
    requires i < |others|
    ensures Do(s, Rounds(id, others, i + 1)) == Do(Do(s, Rounds(id, others, i) + [Attempt(id)]), others[i])
  {
    DoConcat(s, Rounds(id, others, i) + [Attempt(id)], others[i]);
  }

  lemma Tries(s: State, id: Id)
    requires id in s.publishers && s.publishers[id].Waiting?
    ensures var t, n := Next(s, Attempt(id)), s.publishers[id].tried;
            t.Some? && id in t.value.publishers &&
            t.value.publishers[id] ==
            (if n == ATTEMPTS then Failed else if s.Live() then Waiting(n + 1) else Holding(s.now)) &&
            (n == ATTEMPTS || s.Live() ==> t.value.key == s.key)
  {
  }
}
