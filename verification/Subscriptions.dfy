/** Which listeners share which Redis subscriptions. */
module Subscriptions {
  /** A listener, known by its address: two are the same only if their addresses are. */
  type RedisSub = nat

  type Subs = map<string, seq<RedisSub>>
  type Wanted = map<RedisSub, multiset<string>>

  /** A channel's list. */
  function At(subs: Subs, e: string): seq<RedisSub> {
    if e in subs then subs[e] else []
  }

  /** How often a listener wants a channel. */
  function Wants(live: Wanted, s: RedisSub, e: string): nat {
    if s in live then live[s][e] else 0
  }

  /** Each channel's list holds each listener as often as it wants the channel; no list is empty. */
  ghost predicate Matches(subs: Subs, live: Wanted) {
    (forall e, s :: multiset(At(subs, e))[s] == Wants(live, s, e)) &&
    (forall e :: e in subs ==> subs[e] != [])
  }

  /** A channel has a list exactly if some listener wants it. */
  lemma ListedIfWanted(subs: Subs, live: Wanted, e: string)
    requires Matches(subs, live)
    ensures e in subs <==> exists s :: s in live && live[s][e] > 0
  {
    if e in subs {
      var s := subs[e][0];
      assert multiset(At(subs, e))[s] > 0;
      assert Wants(live, s, e) > 0;
    }
    if s :| s in live && live[s][e] > 0 {
      assert multiset(At(subs, e))[s] == Wants(live, s, e);
      assert s in At(subs, e);
    }
  }

  /** When nobody listens any more nothing is kept. */
  lemma NothingKept(subs: Subs)
    requires Matches(subs, map[])
    ensures subs == map[]
  {
    if subs != map[] {
      var e :| e in subs;
      ListedIfWanted(subs, map[], e);
    }
  }

  // ---- the lists ----

  /** The list with its i-th entry replaced by the last one. */
  function SwapOut(list: seq<RedisSub>, i: nat): seq<RedisSub>
    requires i < |list|
  {
    list[i := list[|list| - 1]][..|list| - 1]
  }

  lemma SwapOutRemovesOne(list: seq<RedisSub>, i: nat)
    requires i < |list|
    ensures multiset(SwapOut(list, i)) == multiset(list) - multiset{list[i]}
  {
    var n := |list| - 1;
    var swapped := list[i := list[n]];
    assert swapped == swapped[..n] + [swapped[n]];
    assert list == list[..n] + [list[n]];
  }

  /** The lists with one replaced; an empty one is removed. */
  function With(subs: Subs, e: string, list: seq<RedisSub>): Subs {
    if list == [] then subs - {e} else subs[e := list]
  }

  lemma AtWith(subs: Subs, e: string, list: seq<RedisSub>)
    ensures forall f :: At(With(subs, e, list), f) == if f == e then list else At(subs, f)
    ensures (forall f :: f in subs ==> subs[f] != []) ==>
              forall f :: f in With(subs, e, list) ==> With(subs, e, list)[f] != []
  {
  }

  lemma WantsWith(live: Wanted, sub: RedisSub, m: multiset<string>)
    ensures forall s, e :: Wants(live[sub := m], s, e) == if s == sub then m[e] else Wants(live, s, e)
  {
    forall s: RedisSub, e
      ensures Wants(live[sub := m], s, e) == if s == sub then m[e] else Wants(live, s, e)
    {
      if s != sub {
        assert s in live[sub := m] <==> s in live;
      }
    }
  }

  /** A list and a listener's wishes change together. */
  lemma BothChange(subs: Subs, live: Wanted, sub: RedisSub, e: string, list: seq<RedisSub>, m: multiset<string>)
    requires Matches(subs, live) && sub in live
    requires forall s :: s != sub ==> multiset(list)[s] == multiset(At(subs, e))[s]
    requires multiset(list)[sub] == m[e] && forall f :: f != e ==> m[f] == live[sub][f]
    ensures Matches(With(subs, e, list), live[sub := m])
  {
    AtWith(subs, e, list);
    WantsWith(live, sub, m);
    forall f, s
      ensures multiset(At(With(subs, e, list), f))[s] == Wants(live[sub := m], s, f)
    {
      assert multiset(At(subs, f))[s] == Wants(live, s, f);
    }
  }

  lemma Added(subs: Subs, live: Wanted, sub: RedisSub, e: string)
    requires Matches(subs, live) && sub in live
    ensures Matches(With(subs, e, At(subs, e) + [sub]), live[sub := live[sub] + multiset{e}])
  {
    var list, m := At(subs, e) + [sub], live[sub] + multiset{e};
    assert multiset(At(subs, e))[sub] == Wants(live, sub, e);
    BothChange(subs, live, sub, e, list, m);
  }

  lemma Removed(subs: Subs, live: Wanted, sub: RedisSub, e: string, i: nat)
    requires Matches(subs, live) && sub in live && e in subs && i < |subs[e]| && subs[e][i] == sub
    ensures Matches(With(subs, e, SwapOut(subs[e], i)), live[sub := live[sub] - multiset{e}])
  {
    var list, m := SwapOut(subs[e], i), live[sub] - multiset{e};
    SwapOutRemovesOne(subs[e], i);
    assert multiset(At(subs, e))[sub] == Wants(live, sub, e);
    assert sub in subs[e];
    BothChange(subs, live, sub, e, list, m);
    hide SwapOut;
  }

  // ---- the instance ----

  /** Every address is below the next one. */
  predicate Below(live: Wanted, next: RedisSub) {
    forall s :: s in live ==> s < next
  }

  lemma BelowWith(live: Wanted, s: RedisSub, m: multiset<string>, next: RedisSub)
    requires Below(live, next) && s < next
    ensures Below(live[s := m], next) && Below(live - {s}, next)
  {
  }

  lemma NextIsNew(live: Wanted, next: RedisSub)
    requires Below(live, next)
    ensures next !in live && Below(live, next + 1)
  {
  }

  lemma IsBelow(live: Wanted, s: RedisSub, next: RedisSub)
    requires Below(live, next) && s in live
    ensures s < next
  {
  }

  class RedisInst {
    var subs: Subs
    var atRedis: set<string>
    var next: RedisSub
    ghost var live: Wanted

    constructor ()
      ensures Valid() && live == map[]
    {
      subs, atRedis, next, live := map[], {}, 0, map[];
    }

    /** The lists are the live subscriptions, and Redis is asked for just the channels that have a list. */
    ghost predicate Valid()
      reads this
    {
      Matches(subs, live) && atRedis == subs.Keys && Below(live, next)
    }

    method Subscribe(subscribeTo: seq<string>) returns (localSub: RedisSub)
      requires Valid()
      modifies this
      ensures Valid() && localSub !in old(live)
      ensures live == old(live)[localSub := multiset(subscribeTo)]
    {
      hide Matches, With, Below;
      NextIsNew(live, next);
      localSub := next;
      next := next + 1;
      ghost var before := live;
      NewListener(subs, live, localSub);
      assert multiset(subscribeTo[..0]) == multiset{};
      BelowWith(before, localSub, multiset{}, next);
      live := live[localSub := multiset{}];
      for i := 0 to |subscribeTo|
        invariant Valid()
        invariant live == before[localSub := multiset(subscribeTo[..i])]
        invariant Below(before, next) && localSub < next
      {
        var e := subscribeTo[i];
        Added(subs, live, localSub, e);
        WithMore(subs, e, localSub);
        OneMoreWish(before, localSub, subscribeTo, i);
        BelowWith(before, localSub, multiset(subscribeTo[..i + 1]), next);
        if e !in subs {
          atRedis := atRedis + {e};
        }
        subs := subs[e := (if e in subs then subs[e] else []) + [localSub]];
        live := before[localSub := multiset(subscribeTo[..i + 1])];
      }
      assert subscribeTo[..|subscribeTo|] == subscribeTo;
    }

    /** What happens when the context of a Subscribe call is done. */
    method Cancel(localSub: RedisSub, subscribeTo: seq<string>)
      requires Valid() && localSub in live && live[localSub] == multiset(subscribeTo)
      modifies this
      ensures Valid() && live == old(live) - {localSub}
    {
      hide Matches, With, SwapOut, Below;
      ghost var before := live;
      IsBelow(live, localSub, next);
      assert subscribeTo[0..] == subscribeTo;
      for k := 0 to |subscribeTo|
        invariant Valid()
        invariant live == before[localSub := multiset(subscribeTo[k..])]
        invariant Below(before, next) && localSub < next
      {
        var e := subscribeTo[k];
        OneWishLess(before, localSub, subscribeTo, k);
        BelowWith(before, localSub, multiset(subscribeTo[k + 1..]), next);
        Listed(subs, live, localSub, e);
        var list := subs[e];
        var i := 0;
        while list[i] != localSub
          invariant 0 <= i < |list| && localSub in list[i..]
          decreases |list| - i
        {
          i := i + 1;
        }
        Removed(subs, live, localSub, e, i);
        SwapOutIs(list, i);
        WithLess(subs, e, SwapOut(list, i));
        var rest := list;
        if i != |list| - 1 {
          rest := rest[i := list[|list| - 1]];
        }
        rest := rest[..|list| - 1];
        if |rest| == 0 {
          subs := subs - {e};
          atRedis := atRedis - {e};
        } else {
          subs := subs[e := rest];
        }
        live := before[localSub := multiset(subscribeTo[k + 1..])];
      }
      assert subscribeTo[|subscribeTo|..] == [];
      OldListener(subs, live, localSub);
      BelowWith(before, localSub, multiset{}, next);
      Forgotten(before, localSub, live[localSub]);
      live := live - {localSub};
    }
  }

  lemma WithMore(subs: Subs, e: string, sub: RedisSub)
    ensures With(subs, e, At(subs, e) + [sub]) == subs[e := (if e in subs then subs[e] else []) + [sub]]
  {
  }

  lemma WithLess(subs: Subs, e: string, rest: seq<RedisSub>)
    ensures With(subs, e, rest) == if |rest| == 0 then subs - {e} else subs[e := rest]
  {
  }

  lemma SwapOutIs(list: seq<RedisSub>, i: nat)
    requires i < |list|
    ensures var n := |list| - 1; SwapOut(list, i) == (if i != n then list[i := list[n]] else list)[..n]
  {
  }

  lemma OneMoreWish(before: Wanted, sub: RedisSub, names: seq<string>, i: nat)
    requires i < |names|
    ensures var live := before[sub := multiset(names[..i])];
            live[sub := live[sub] + multiset{names[i]}] == before[sub := multiset(names[..i + 1])]
  {
    assert names[..i + 1] == names[..i] + [names[i]];
  }

  lemma OneWishLess(before: Wanted, sub: RedisSub, names: seq<string>, k: nat)
    requires k < |names|
    ensures var live := before[sub := multiset(names[k..])];
            live[sub][names[k]] > 0 &&
            live[sub := live[sub] - multiset{names[k]}] == before[sub := multiset(names[k + 1..])]
  {
    assert names[k..] == [names[k]] + names[k + 1..];
    assert multiset(names[k..]) - multiset{names[k]} == multiset(names[k + 1..]);
  }

  lemma Forgotten(before: Wanted, sub: RedisSub, m: multiset<string>)
    ensures before[sub := m] - {sub} == before - {sub}
  {
  }

  lemma NewListener(subs: Subs, live: Wanted, sub: RedisSub)
    requires Matches(subs, live) && sub !in live
    ensures Matches(subs, live[sub := multiset{}])
  {
    forall e, s
      ensures multiset(At(subs, e))[s] == Wants(live[sub := multiset{}], s, e)
    {
      assert multiset(At(subs, e))[s] == Wants(live, s, e);
    }
  }

  lemma OldListener(subs: Subs, live: Wanted, sub: RedisSub)
    requires Matches(subs, live) && sub in live && live[sub] == multiset{}
    ensures Matches(subs, live - {sub})
  {
    forall e, s
      ensures multiset(At(subs, e))[s] == Wants(live - {sub}, s, e)
    {
      assert multiset(At(subs, e))[s] == Wants(live, s, e);
    }
  }

  lemma Listed(subs: Subs, live: Wanted, sub: RedisSub, e: string)
    requires Matches(subs, live) && sub in live && live[sub][e] > 0
    ensures e in subs && sub in subs[e]
  {
    assert multiset(At(subs, e))[sub] == Wants(live, sub, e);
  }
}
