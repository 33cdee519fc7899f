/** Bytes, 32-bit words and the fixed-width big- and little-endian layouts of the wire formats. */
module Bytes {

  newtype byte = x: int | 0 <= x < 256
  type u32 = x: int | 0 <= x < 0x1_0000_0000

  datatype Option<+T> = None | Some(value: T)

  /** 256 to the power n. */
  function Pow256(n: nat): (p: nat)
    ensures p > 0
  {
    if n == 0 then 1 else 256 * Pow256(n - 1)
  }

  /** The n low-order bytes of v, most significant first. */
  function BE(v: nat, n: nat): (s: seq<byte>)
    ensures |s| == n
  {
    if n == 0 then [] else BE(v / 256, n - 1) + [(v % 256) as byte]
  }

  function BEVal(s: seq<byte>): (v: nat)
    ensures v < Pow256(|s|)
  {
    if s == [] then 0 else 256 * BEVal(s[..|s| - 1]) + s[|s| - 1] as nat
  }

  /** The n low-order bytes of v, least significant first. */
  function LE(v: nat, n: nat): (s: seq<byte>)
    ensures |s| == n
  {
    if n == 0 then [] else [(v % 256) as byte] + LE(v / 256, n - 1)
  }

  function LEVal(s: seq<byte>): (v: nat)
    ensures v < Pow256(|s|)
  {
    if s == [] then 0 else s[0] as nat + 256 * LEVal(s[1..])
  }

  lemma {:induction false} BERoundTrip(v: nat, n: nat)
    requires v < Pow256(n)
    ensures BEVal(BE(v, n)) == v
  {
    if n > 0 {
      BERoundTrip(v / 256, n - 1);
      assert BE(v, n)[..n - 1] == BE(v / 256, n - 1);
    }
  }

  lemma {:induction false} BEOfVal(s: seq<byte>)
    ensures BE(BEVal(s), |s|) == s
  {
    if s != [] {
      BEOfVal(s[..|s| - 1]);
      assert s == s[..|s| - 1] + [s[|s| - 1]];
    }
  }

  lemma {:induction false} LERoundTrip(v: nat, n: nat)
    requires v < Pow256(n)
    ensures LEVal(LE(v, n)) == v
  {
    if n > 0 {
      LERoundTrip(v / 256, n - 1);
      assert LE(v, n)[1..] == LE(v / 256, n - 1);
    }
  }

  lemma Swap(a: nat, b: nat, c: nat)
    ensures a * (b * c) == b * (a * c)
  {
  }

  /** Appending a most significant byte, as the little-endian read loop does. */
  lemma {:induction false} LEValSnoc(s: seq<byte>, b: byte)
    ensures LEVal(s + [b]) == LEVal(s) + b as nat * Pow256(|s|)
  {
    if s == [] {
      assert (s + [b])[1..] == [];
    } else {
      LEValSnoc(s[1..], b);
      assert (s + [b])[1..] == s[1..] + [b];
      Swap(256, b as nat, Pow256(|s| - 1));
    }
  }

  lemma BEValSnoc(s: seq<byte>, b: byte)
    ensures BEVal(s + [b]) == 256 * BEVal(s) + b as nat
  {
    assert (s + [b])[..|s|] == s;
  }

  /** The order of the bytes of a number on the wire: most significant first, or least significant first. */
  lemma ByteOrder(a: byte, b: byte, c: byte, d: byte)
    ensures BEVal([]) == 0 && BEVal([a]) == a as nat && BEVal([a, b]) == a as nat * 0x100 + b as nat
    ensures BEVal([a, b, c]) == a as nat * 0x1_0000 + b as nat * 0x100 + c as nat
    ensures BEVal([a, b, c, d]) == a as nat * 0x100_0000 + b as nat * 0x1_0000 + c as nat * 0x100 + d as nat
    ensures LEVal([a]) == a as nat && LEVal([a, b]) == a as nat + b as nat * 0x100
    ensures LEVal([a, b, c, d]) == a as nat + b as nat * 0x100 + c as nat * 0x1_0000 + d as nat * 0x100_0000
  {
    hide BEVal, LEVal;
    NoDigits();
    BEValSnoc([], a);
    BEValSnoc([a], b);
    BEValSnoc([a, b], c);
    BEValSnoc([a, b, c], d);
    assert [] + [a] == [a] && [a] + [b] == [a, b] && [a, b] + [c] == [a, b, c] && [a, b, c] + [d] == [a, b, c, d];
    LEValCons(a, []);
    LEValCons(b, []);
    LEValCons(d, []);
    LEValCons(a, [b]);
    LEValCons(c, [d]);
    LEValCons(b, [c, d]);
    LEValCons(a, [b, c, d]);
    assert [a] + [b] == [a, b] && [c] + [d] == [c, d] && [b] + [c, d] == [b, c, d] && [a] + [b, c, d] == [a, b, c, d];
    assert [b] + [] == [b] && [d] + [] == [d] && [a] + [] == [a];
  }

  lemma NoDigits()
    ensures BEVal([]) == 0 && LEVal([]) == 0
  {
  }

  lemma LEValCons(b: byte, s: seq<byte>)
    ensures LEVal([b] + s) == b as nat + 256 * LEVal(s)
  {
    assert ([b] + s)[1..] == s;
  }

  lemma {:induction false} LEOfVal(s: seq<byte>)
    ensures LE(LEVal(s), |s|) == s
  {
    if s != [] {
      LEOfVal(s[1..]);
      Divides(LEVal(s), LEVal(s[1..]), s[0] as nat, 256);
      assert LE(LEVal(s), |s|) == [s[0]] + LE(LEVal(s[1..]), |s| - 1);
    }
  }

  /** And so are the bytes that are written for a number. */
  lemma BytesWritten(a: byte, b: byte, c: byte, d: byte)
    ensures BE(a as nat * 0x100_0000 + b as nat * 0x1_0000 + c as nat * 0x100 + d as nat, 4) == [a, b, c, d]
    ensures BE(a as nat * 0x1_0000 + b as nat * 0x100 + c as nat, 3) == [a, b, c]
    ensures BE(a as nat * 0x100 + b as nat, 2) == [a, b] && BE(a as nat, 1) == [a]
    ensures LE(a as nat, 1) == [a] && LE(a as nat + b as nat * 0x100, 2) == [a, b]
    ensures LE(a as nat + b as nat * 0x100 + c as nat * 0x1_0000 + d as nat * 0x100_0000, 4) == [a, b, c, d]
  {
    hide BE, LE, BEVal, LEVal;
    ByteOrder(a, b, c, d);
    BEOfVal([a, b, c, d]);
    BEOfVal([a, b, c]);
    BEOfVal([a, b]);
    BEOfVal([a]);
    LEOfVal([a]);
    LEOfVal([a, b]);
    LEOfVal([a, b, c, d]);
  }

  lemma Pow256Values()
    ensures Pow256(0) == 1 && Pow256(1) == 256 && Pow256(2) == 0x1_0000
    ensures Pow256(3) == 0x100_0000 && Pow256(4) == 0x1_0000_0000
  {
    assert Pow256(1) == 256 * Pow256(0);
    assert Pow256(2) == 256 * Pow256(1);
    assert Pow256(3) == 256 * Pow256(2);
    assert Pow256(4) == 256 * Pow256(3);
  }

  /** v shifted right by k bytes. */
  function ShiftRight(v: nat, k: nat): nat {
    if k == 0 then v else ShiftRight(v, k - 1) / 256
  }

  lemma Times(d: int, m: nat)
    ensures (d >= 1 ==> d * m >= m) && (d <= -1 ==> d * m + m <= 0)
  {
  }

  /** Quotient and remainder are the only such pair. */
  lemma Divides(x: nat, q: nat, r: nat, m: nat)
    requires x == q * m + r && r < m
    ensures x / m == q && x % m == r
  {
    var d := x / m - q;
    assert d * m == r - x % m;
    Times(d, m);
  }

  lemma Associates<T>(a: seq<T>, b: seq<T>, c: seq<T>)
    ensures a + b + c == a + (b + c)
  {
  }

  // concatenations grouped from the left, as a writer appends them, and from the right
  lemma Regroup(a: seq<byte>, b: seq<byte>, c: seq<byte>, d: seq<byte>)
    ensures a + b + c + d == a + (b + (c + d))
    ensures a + b + c + d == a + (b + c + d)
  {
  }

  lemma Regroup5(a: seq<byte>, b: seq<byte>, c: seq<byte>, d: seq<byte>, e: seq<byte>)
    ensures a + b + c + d + e == a + (b + (c + (d + e)))
  {
  }
}
