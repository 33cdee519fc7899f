/** The RTMP handshake: digests placed inside random blocks. */
module Handshaking {
  import opened Bytes

  const BLOCK := 1536

  type Digest = s: seq<byte> | |s| == 32 witness seq(32, _ => 0)

  /** A keyed hash of which nothing is known but its size. */
  type KeyedHash = (seq<byte>, seq<byte>) -> Digest

  // ---- where a digest goes ----

  /** The position that the four bytes at base name. */
  function DigestPos(p: seq<byte>, base: nat): (pos: nat)
    requires base + 4 <= |p|
    ensures base + 4 <= pos <= base + 731
  {
    (p[base] as nat + p[base + 1] as nat + p[base + 2] as nat + p[base + 3] as nat) % 728 + base + 4
  }

  method CalcDigestPos(p: seq<byte>, base: nat) returns (pos: nat)
    requires base + 4 <= |p|
    ensures pos == DigestPos(p, base)
  {
    pos := 0;
    ghost var q := p[base..base + 4];
    for i := 0 to 4
      invariant pos == (if i > 0 then q[0] as nat else 0) + (if i > 1 then q[1] as nat else 0) +
                       (if i > 2 then q[2] as nat else 0) + (if i > 3 then q[3] as nat else 0)
    {
      pos := pos + p[base + i] as nat;
    }
    pos := pos % 728 + base + 4;
  }

  /** For a block of 1536 bytes both windows lie in the block, apart from each other and from both positions. */
  lemma WindowsApart(p: seq<byte>)
    requires |p| == BLOCK
    ensures var a, b := DigestPos(p, 8), DigestPos(p, 772);
            12 <= a && a + 32 <= 772 && 776 <= b && b + 32 <= BLOCK
  {
  }

  function MakeDigest(h: KeyedHash, key: seq<byte>, src: seq<byte>, gap: int): Digest
    requires gap <= 0 || gap + 32 <= |src|
  {
    if gap <= 0 then h(key, src) else h(key, src[..gap] + src[gap + 32..])
  }

  function FindDigest(h: KeyedHash, p: seq<byte>, key: seq<byte>, base: nat): Option<nat>
    requires |p| == BLOCK && base + 731 + 32 <= |p|
  {
    var gap := DigestPos(p, base);
    if p[gap..gap + 32] != MakeDigest(h, key, p, gap) then None else Some(gap)
  }

  /** The digest for the answer, if the block carries one of the peer's at either place. */
  function Parse1(h: KeyedHash, p: seq<byte>, peerkey: seq<byte>, key: seq<byte>): Option<Digest>
    requires |p| == BLOCK
  {
    var late := FindDigest(h, p, peerkey, 772);
    var pos := if late.Some? then late else FindDigest(h, p, peerkey, 8);
    if pos.None? then None else Some(MakeDigest(h, key, p[pos.value..pos.value + 32], -1))
  }

  // ---- blocks with a digest ----

  function Sealed(h: KeyedHash, p: seq<byte>, key: seq<byte>, gap: nat): (s: seq<byte>)
    requires gap + 32 <= |p|
    ensures |s| == |p|
  {
    p[..gap] + MakeDigest(h, key, p, gap) + p[gap + 32..]
  }

  /** Sealing touches the window only. */
  lemma SealedAt(h: KeyedHash, p: seq<byte>, key: seq<byte>, gap: nat)
    requires 0 < gap && gap + 32 <= |p|
    ensures var s := Sealed(h, p, key, gap);
            s[..gap] == p[..gap] && s[gap + 32..] == p[gap + 32..] &&
            s[gap..gap + 32] == MakeDigest(h, key, s, gap) == MakeDigest(h, key, p, gap)
  {
    var s := Sealed(h, p, key, gap);
    assert s[..gap] == p[..gap] && s[gap + 32..] == p[gap + 32..];
  }

  /** C1 and S1: the time, the version and random bytes, sealed at the first place. */
  function Block1(h: KeyedHash, time: u32, ver: u32, random: seq<byte>, key: seq<byte>): (s: seq<byte>)
    requires |random| == BLOCK - 8
    ensures |s| == BLOCK
  {
    var p := BE(time, 4) + BE(ver, 4) + random;
    Sealed(h, p, key, DigestPos(p, 8))
  }

  /** C2 and S2: random bytes, sealed at the end. */
  function Block2(h: KeyedHash, random: seq<byte>, key: seq<byte>): (s: seq<byte>)
    requires |random| == BLOCK
    ensures |s| == BLOCK
  {
    Sealed(h, random, key, BLOCK - 32)
  }

  lemma SamePosition(p: seq<byte>, q: seq<byte>, base: nat, n: nat)
    requires base + 4 <= n <= |p| && n <= |q| && p[..n] == q[..n]
    ensures DigestPos(p, base) == DigestPos(q, base)
  {
    assert forall i :: 0 <= i < n ==> p[i] == p[..n][i] && q[i] == q[..n][i];
  }

  lemma SealFound(h: KeyedHash, p: seq<byte>, key: seq<byte>, base: nat)
    requires |p| == BLOCK && base + 731 + 32 <= BLOCK
    ensures var gap := DigestPos(p, base);
            var s := Sealed(h, p, key, gap);
            DigestPos(s, base) == gap && FindDigest(h, s, key, base) == Some(gap)
  {
    hide MakeDigest, DigestPos, Sealed;
    var gap := DigestPos(p, base);
    SealedAt(h, p, key, gap);
    SamePosition(p, Sealed(h, p, key, gap), base, gap);
  }

  lemma FieldsOf(h: KeyedHash, time: seq<byte>, ver: seq<byte>, random: seq<byte>, key: seq<byte>, gap: nat)
    requires |time| == |ver| == 4 && 8 <= gap && gap + 32 <= 8 + |random|
    ensures var s := Sealed(h, time + ver + random, key, gap); s[..4] == time && s[4..8] == ver
  {
    var p := time + ver + random;
    assert p[..gap] == time + ver + random[..gap - 8];
    hide MakeDigest;
  }

  /** A block made with a key is accepted with that key, whatever the hash, the time and the random bytes. */
  lemma Accepted(h: KeyedHash, time: u32, ver: u32, random: seq<byte>, key: seq<byte>, own: seq<byte>)
    requires |random| == BLOCK - 8
    ensures var s := Block1(h, time, ver, random, key);
            s[..4] == BE(time, 4) && s[4..8] == BE(ver, 4) &&
            FindDigest(h, s, key, 8) == Some(DigestPos(s, 8)) && Parse1(h, s, key, own).Some? &&
            (FindDigest(h, s, key, 772).None? ==>
               Parse1(h, s, key, own) == Some(h(own, s[DigestPos(s, 8)..DigestPos(s, 8) + 32])))
  {
    hide DigestPos, Sealed, FindDigest;
    var p := BE(time, 4) + BE(ver, 4) + random;
    SealFound(h, p, key, 8);
    FieldsOf(h, BE(time, 4), BE(ver, 4), random, key, DigestPos(p, 8));
  }

  /** Of all blocks that agree outside the window exactly one is accepted at that place. */
  lemma OnlyOneSeal(h: KeyedHash, p: seq<byte>, q: seq<byte>, key: seq<byte>, base: nat)
    requires |p| == |q| == BLOCK && base + 731 + 32 <= BLOCK
    requires var gap := DigestPos(p, base); p[..gap] == q[..gap] && p[gap + 32..] == q[gap + 32..]
    requires FindDigest(h, p, key, base).Some?
    ensures FindDigest(h, q, key, base).Some? <==> p == q
  {
    var gap := DigestPos(p, base);
    SamePosition(p, q, base, gap);
    assert MakeDigest(h, key, p, gap) == MakeDigest(h, key, q, gap);
    assert p == p[..gap] + p[gap..gap + 32] + p[gap + 32..];
    assert q == q[..gap] + q[gap..gap + 32] + q[gap + 32..];
  }

  // ---- the exchange ----

  datatype HandshakeError = ShortInput | InvalidC1 | BadTime | BadRandom

  /** s with bs written over it from lo on. */
  function Patched(s: seq<byte>, lo: nat, bs: seq<byte>): (t: seq<byte>)
    requires lo + |bs| <= |s|
    ensures |t| == |s|
  {
    s[..lo] + bs + s[lo + |bs|..]
  }

  /** Copies bs to the place at lo. */
  method Put(a: array<byte>, lo: nat, bs: seq<byte>)
    requires lo + |bs| <= a.Length
    modifies a
    ensures a[..] == Patched(old(a[..]), lo, bs)
  {
    for i := 0 to |bs|
      invariant forall k :: 0 <= k < a.Length ==> a[k] == if lo <= k < lo + i then bs[k - lo] else old(a[k])
    {
      a[lo + i] := bs[i];
    }
  }

  /** The fields fill a block. */
  lemma FieldsPatched(s: seq<byte>, time: seq<byte>, ver: seq<byte>, random: seq<byte>)
    requires |s| >= BLOCK + 1 && |time| == |ver| == 4 && |random| == BLOCK - 8
    ensures Patched(Patched(Patched([3] + s[1..], 9, random), 1, time), 5, ver) ==
            [3] + (time + ver + random) + s[BLOCK + 1..]
  {
    assert Patched([3] + s[1..], 9, random) == [3] + s[1..9] + random + s[BLOCK + 1..];
    assert Patched([3] + s[1..9] + random + s[BLOCK + 1..], 1, time) == [3] + time + s[5..9] + random + s[BLOCK + 1..];
  }

  lemma SealPatched(h: KeyedHash, p: seq<byte>, key: seq<byte>, gap: nat, front: seq<byte>, rest: seq<byte>)
    requires gap + 32 <= |p|
    ensures Patched(front + p + rest, |front| + gap, MakeDigest(h, key, p, gap)) == front + Sealed(h, p, key, gap) + rest
  {
    var s, d, lo := front + p + rest, MakeDigest(h, key, p, gap), |front| + gap;
    assert s[..lo] == front + p[..gap];
    assert s[lo + 32..] == p[gap + 32..] + rest;
    Regroup5(front, p[..gap], d, p[gap + 32..], rest);
    Associates(front + p[..gap] + d, p[gap + 32..], rest);
    Regroup(front, p[..gap], d, p[gap + 32..]);
  }

  /** Writes S0 and S1 at the start of a. */
  method Create01(a: array<byte>, time: u32, ver: u32, random: seq<byte>, h: KeyedHash, key: seq<byte>)
    requires a.Length >= BLOCK + 1 && |random| == BLOCK - 8
    modifies a
    ensures a[..] == [3] + Block1(h, time, ver, random, key) + old(a[BLOCK + 1..])
  {
    hide Patched, Sealed, MakeDigest, DigestPos;
    ghost var was := a[..];
    a[0] := 3;
    assert a[..] == [3] + was[1..];
    Put(a, 9, random);
    Put(a, 1, BE(time, 4));
    Put(a, 5, BE(ver, 4));
    FieldsPatched(was, BE(time, 4), BE(ver, 4), random);
    ghost var p, rest := BE(time, 4) + BE(ver, 4) + random, was[BLOCK + 1..];
    var p1 := a[1..BLOCK + 1];
    assert p1 == a[..][1..BLOCK + 1] == p;
    var gap := CalcDigestPos(p1, 8);
    var digest := MakeDigest(h, key, p1, gap);
    SealPatched(h, p, key, gap, [3], rest);
    Put(a, 1 + gap, digest);
  }

  /** Writes S2 behind the first block. */
  method Create2(a: array<byte>, random: seq<byte>, h: KeyedHash, key: seq<byte>)
    requires a.Length == 2 * BLOCK + 1 && |random| == BLOCK
    modifies a
    ensures a[..] == old(a[..BLOCK + 1]) + Block2(h, random, key)
  {
    hide Patched, Sealed, MakeDigest;
    ghost var was := a[..];
    Put(a, BLOCK + 1, random);
    WholePatched(was, random);
    var gap := BLOCK - 32;
    var p := a[BLOCK + 1..];
    assert p == a[..][BLOCK + 1..] == random;
    var digest := MakeDigest(h, key, p, gap);
    SealPatched(h, random, key, gap, was[..BLOCK + 1], []);
    assert was[..BLOCK + 1] + random + [] == was[..BLOCK + 1] + random;
    assert was[..BLOCK + 1] + Block2(h, random, key) + [] == was[..BLOCK + 1] + Block2(h, random, key);
    Put(a, BLOCK + 1 + gap, digest);
  }

  lemma WholePatched(s: seq<byte>, random: seq<byte>)
    requires |s| == 2 * BLOCK + 1 && |random| == BLOCK
    ensures Patched(s, BLOCK + 1, random) == s[..BLOCK + 1] + random
  {
  }

  /** The random bytes the server draws. */
  datatype Random = Random(fill: seq<byte>, one: seq<byte>, two: seq<byte>) {
    predicate Valid() {
      |fill| == 2 * BLOCK + 1 && |one| == BLOCK - 8 && |two| == BLOCK
    }
  }

  /** What the server sends for C1, if it accepts it. */
  function Answer(h: KeyedHash, c1: seq<byte>, r: Random, peerkey: seq<byte>, serverkey: seq<byte>, fullkey: seq<byte>):
      Option<seq<byte>>
    requires |c1| == BLOCK && r.Valid()
  {
    if BEVal(c1[4..8]) == 0 then Some([3] + c1[..8] + r.fill[9..BLOCK + 1] + c1)
    else
      var digest := Parse1(h, c1, peerkey, fullkey);
      if digest.None? then None
      else
        Pow256Values();
        Some([3] + Block1(h, BEVal(c1[..4]), 0, r.one, serverkey) + Block2(h, r.two, digest.value))
  }

  /** The server's side: what it sends, and how the exchange ends. */
  method HandshakeServer(
    input: seq<byte>, h: KeyedHash, r: Random, peerkey: seq<byte>, serverkey: seq<byte>, fullkey: seq<byte>)
    returns (sent: seq<byte>, err: Option<HandshakeError>)
    requires r.Valid()
    ensures |input| < BLOCK + 1 ==> sent == [] && err == Some(ShortInput)
    ensures |input| >= BLOCK + 1 ==>
              var answer := Answer(h, input[1..BLOCK + 1], r, peerkey, serverkey, fullkey);
              if answer.None? then sent == [] && err == Some(InvalidC1)
              else
                sent == answer.value && |sent| == 2 * BLOCK + 1 &&
                err == if |input| < 2 * BLOCK + 1 then Some(ShortInput)
                       else if sent[1..5] != input[BLOCK + 1..BLOCK + 5] then Some(BadTime)
                       else if sent[9..BLOCK + 1] != input[BLOCK + 9..2 * BLOCK + 1] then Some(BadRandom)
                       else None
  {
    hide Block1, Block2, Parse1, Patched, BEVal;
    var s0s1s2 := new byte[2 * BLOCK + 1](i requires 0 <= i < 2 * BLOCK + 1 => r.fill[i]);
    assert s0s1s2[..] == r.fill;
    if |input| < BLOCK + 1 {
      return [], Some(ShortInput);
    }
    var c1 := input[1..BLOCK + 1];
    Pow256Values();
    if BEVal(c1[4..8]) != 0 {
      var digest := Parse1(h, c1, peerkey, fullkey);
      if digest.None? {
        return [], Some(InvalidC1);
      }
      Create01(s0s1s2, BEVal(c1[..4]), 0, r.one, h, serverkey);
      assert s0s1s2[..BLOCK + 1] == [3] + Block1(h, BEVal(c1[..4]), 0, r.one, serverkey);
      Create2(s0s1s2, r.two, h, digest.value);
      ghost var all := s0s1s2[..];
      assert all == [3] + Block1(h, BEVal(c1[..4]), 0, r.one, serverkey) + Block2(h, r.two, digest.value);
      assert [3] + all[1..] == all;
    } else {
      Put(s0s1s2, 1, c1[..4]);
      Put(s0s1s2, 5, c1[4..8]);
      Put(s0s1s2, BLOCK + 1, c1[..4]);
      Put(s0s1s2, BLOCK + 5, c1[4..8]);
      Put(s0s1s2, BLOCK + 9, c1[8..]);
      Echoed(r.fill, c1);
    }
    ghost var before := s0s1s2[..];
    s0s1s2[0] := 3;
    assert s0s1s2[..] == [3] + before[1..];
    sent := s0s1s2[..];
    assert Answer(h, c1, r, peerkey, serverkey, fullkey) == Some(sent);
    if |input| < 2 * BLOCK + 1 {
      return sent, Some(ShortInput);
    }
    var c2 := input[BLOCK + 1..2 * BLOCK + 1];
    PartsOf(input, BLOCK + 1, 2 * BLOCK + 1);
    if sent[1..5] != c2[..4] {
      return sent, Some(BadTime);
    }
    if sent[9..BLOCK + 1] != c2[8..] {
      return sent, Some(BadRandom);
    }
    err := None;
  }

  lemma PartsOf(s: seq<byte>, lo: nat, hi: nat)
    requires lo + 8 <= hi <= |s|
    ensures s[lo..hi][..4] == s[lo..lo + 4] && s[lo..hi][8..] == s[lo + 8..hi]
  {
  }

  lemma Echoed(s: seq<byte>, c1: seq<byte>)
    requires |s| == 2 * BLOCK + 1 && |c1| == BLOCK
    ensures var t := Patched(Patched(Patched(Patched(Patched(s, 1, c1[..4]), 5, c1[4..8]),
                                             BLOCK + 1, c1[..4]), BLOCK + 5, c1[4..8]), BLOCK + 9, c1[8..]);
            [3] + t[1..] == [3] + c1[..8] + s[9..BLOCK + 1] + c1
  {
    var a := Patched(Patched(s, 1, c1[..4]), 5, c1[4..8]);
    assert a == s[..1] + c1[..8] + s[9..];
    var b := Patched(Patched(a, BLOCK + 1, c1[..4]), BLOCK + 5, c1[4..8]);
    assert b == a[..BLOCK + 1] + c1[..8] + a[BLOCK + 9..];
    assert Patched(b, BLOCK + 9, c1[8..]) == a[..BLOCK + 1] + c1;
  }

  // ---- the layout in numbers ----

  /** At `base` stand four bytes whose sum, modulo 728, says how far behind them the 32 bytes of the hash begin. */
  predicate CarriesHash(h: KeyedHash, p: seq<byte>, key: seq<byte>, base: nat)
    requires |p| == 1536 && base <= 772
  {
    var gap := (p[base] as nat + p[base + 1] as nat + p[base + 2] as nat + p[base + 3] as nat) % 728 + base + 4;
    p[gap..gap + 32] == h(key, p[..gap] + p[gap + 32..])
  }

  lemma FoundIs(h: KeyedHash, p: seq<byte>, key: seq<byte>, base: nat)
    requires |p| == 1536 && base <= 772
    ensures FindDigest(h, p, key, base) == if CarriesHash(h, p, key, base) then Some(DigestPos(p, base)) else None
  {
  }

  /** The first block: time, version, random bytes, and at place 8 the hash of all the rest. */
  lemma FirstBlock(h: KeyedHash, time: u32, ver: u32, random: seq<byte>, key: seq<byte>)
    requires |random| == 1528
    ensures var s := Block1(h, time, ver, random, key);
            |s| == 1536 && s[..4] == BE(time, 4) && s[4..8] == BE(ver, 4) && CarriesHash(h, s, key, 8) &&
            var gap := (random[0] as nat + random[1] as nat + random[2] as nat + random[3] as nat) % 728 + 4;
            s[8..8 + gap] == random[..gap] && s[40 + gap..] == random[32 + gap..]
  {
    hide Sealed, FindDigest, MakeDigest, CarriesHash;
    var p := BE(time, 4) + BE(ver, 4) + random;
    assert p[8] == random[0] && p[9] == random[1] && p[10] == random[2] && p[11] == random[3];
    var gap := DigestPos(p, 8);
    SealFound(h, p, key, 8);
    SealedAt(h, p, key, gap);
    FoundIs(h, Sealed(h, p, key, gap), key, 8);
    FieldsOf(h, BE(time, 4), BE(ver, 4), random, key, gap);
    Untouched(p, Sealed(h, p, key, gap), 8, gap);
    assert p[8..gap] == random[..gap - 8] && p[gap + 32..] == random[gap + 24..];
  }

  lemma Untouched(p: seq<byte>, s: seq<byte>, lo: nat, hi: nat)
    requires lo <= hi <= |p| && hi <= |s| && p[..hi] == s[..hi]
    ensures s[lo..hi] == p[lo..hi]
  {
    assert s[lo..hi] == s[..hi][lo..] && p[lo..hi] == p[..hi][lo..];
  }

  /** The second block: random bytes, and the hash of its first 1504 in the last 32. */
  lemma SecondBlock(h: KeyedHash, random: seq<byte>, key: seq<byte>)
    requires |random| == 1536
    ensures Block2(h, random, key) == random[..1504] + h(key, random[..1504])
  {
    assert random[..1504] + random[1536..] == random[..1504];
    assert random[..1504] + h(key, random[..1504]) + [] == random[..1504] + h(key, random[..1504]);
  }

  /**
   * What is sent for a first block: without a version its echo; with one that carries no hash of the peer's nothing;
   * otherwise a block of the server's own, and one sealed with the hash of the peer's hash. Place 772 comes before 8.
   */
  lemma AnswerIs(h: KeyedHash, c1: seq<byte>, r: Random, peerkey: seq<byte>, serverkey: seq<byte>, fullkey: seq<byte>)
    requires |c1| == 1536 && r.Valid()
    ensures var answer := Answer(h, c1, r, peerkey, serverkey, fullkey);
            if c1[4..8] == [0, 0, 0, 0] then answer == Some([3] + c1[..8] + r.fill[9..1537] + c1)
            else if !CarriesHash(h, c1, peerkey, 772) && !CarriesHash(h, c1, peerkey, 8) then answer == None
            else
              var base := if CarriesHash(h, c1, peerkey, 772) then 772 else 8;
              var gap := (c1[base] as nat + c1[base + 1] as nat + c1[base + 2] as nat + c1[base + 3] as nat) % 728 + base + 4;
              var sealing := h(fullkey, c1[gap..gap + 32]);
              answer.Some? && answer.value == [3] + answer.value[1..1537] + (r.two[..1504] + h(sealing, r.two[..1504])) &&
              answer.value[1..5] == c1[..4] && answer.value[5..9] == [0, 0, 0, 0] &&
              CarriesHash(h, answer.value[1..1537], serverkey, 8)
  {
    hide Block1, Block2, FindDigest, CarriesHash, BEVal, BE;
    FoundIs(h, c1, peerkey, 772);
    FoundIs(h, c1, peerkey, 8);
    NoVersion(c1[4..8]);
    if c1[4..8] != [0, 0, 0, 0] && (CarriesHash(h, c1, peerkey, 772) || CarriesHash(h, c1, peerkey, 8)) {
      var base := if CarriesHash(h, c1, peerkey, 772) then 772 else 8;
      var digest := h(fullkey, c1[DigestPos(c1, base)..DigestPos(c1, base) + 32]);
      assert Parse1(h, c1, peerkey, fullkey) == Some(digest);
      Pow256Values();
      var time := BEVal(c1[..4]);
      FirstBlock(h, time, 0, r.one, serverkey);
      SecondBlock(h, r.two, digest);
      BEOfVal(c1[..4]);
      BEOfVal([0, 0, 0, 0]);
      NoVersion([0, 0, 0, 0]);
      var s1, s2 := Block1(h, time, 0, r.one, serverkey), Block2(h, r.two, digest);
      InFront(s1, s2);
    }
  }

  lemma NoVersion(v: seq<byte>)
    requires |v| == 4
    ensures BEVal(v) == 0 <==> v == [0, 0, 0, 0]
  {
    hide BEVal;
    ByteOrder(v[0], v[1], v[2], v[3]);
    assert v == [v[0], v[1], v[2], v[3]];
  }

  lemma InFront(s1: seq<byte>, s2: seq<byte>)
    requires |s1| == 1536
    ensures var a := [3] + s1 + s2; a[1..1537] == s1 && a[1..5] == s1[..4] && a[5..9] == s1[4..8]
  {
  }
}
