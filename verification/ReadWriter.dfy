/** The buffered connection: a byte sequence with a read position, a sticky read error, and an output. */
module Wire {
  import opened Bytes

  datatype ReadError =
    | EOF
    | UnexpectedEOF
    | InvalidRemain(remain: nat)

  /** What a reader has still to see: the remaining bytes and the sticky error. */
  datatype Cursor = Cursor(rest: seq<byte>, err: Option<ReadError>)

  function At(w: seq<byte>): Cursor {
    Cursor(w, None)
  }

  /** An n-byte integer; after an error, or on a short input, 0 and an error that stays. */
  function TakeBE(c: Cursor, n: nat): (r: (nat, Cursor))
    ensures r.1.err.None? ==> c.err.None? && |c.rest| == |r.1.rest| + n
    ensures r.0 < Pow256(n)
  {
    if c.err.Some? then (0, c)
    else if |c.rest| < n then (0, Cursor([], Some(EOF)))
    else (BEVal(c.rest[..n]), At(c.rest[n..]))
  }

  function TakeLE(c: Cursor, n: nat): (r: (nat, Cursor))
    ensures r.1.err.None? ==> c.err.None? && |c.rest| == |r.1.rest| + n
    ensures r.0 < Pow256(n)
  {
    if c.err.Some? then (0, c)
    else if |c.rest| < n then (0, Cursor([], Some(EOF)))
    else (LEVal(c.rest[..n]), At(c.rest[n..]))
  }

  /** n payload bytes, or the error that prevents them. */
  function TakeBytes(c: Cursor, n: nat): (r: (seq<byte>, Cursor))
    ensures r.1.err.None? ==> c.err.None? && |r.0| == n && c.rest == r.0 + r.1.rest
  {
    if c.err.Some? then ([], c)
    else if |c.rest| < n then ([], Cursor([], Some(if c.rest == [] then EOF else UnexpectedEOF)))
    else (c.rest[..n], At(c.rest[n..]))
  }

  /** What was written as n big-endian bytes is read back, and exactly those bytes are consumed. */
  lemma TakeBEOf(v: nat, n: nat, rest: seq<byte>)
    requires v < Pow256(n)
    ensures TakeBE(At(BE(v, n) + rest), n) == (v, At(rest))
  {
    var w := BE(v, n) + rest;
    assert w[..n] == BE(v, n) && w[n..] == rest;
    BERoundTrip(v, n);
  }

  lemma TakeLEOf(v: nat, n: nat, rest: seq<byte>)
    requires v < Pow256(n)
    ensures TakeLE(At(LE(v, n) + rest), n) == (v, At(rest))
  {
    var w := LE(v, n) + rest;
    assert w[..n] == LE(v, n) && w[n..] == rest;
    LERoundTrip(v, n);
  }

  lemma TakeBytesOf(p: seq<byte>, rest: seq<byte>)
    ensures TakeBytes(At(p + rest), |p|) == (p, At(rest))
  {
    var w := p + rest;
    assert w[..|p|] == p && w[|p|..] == rest;
  }

  /** The same reader when more bytes x follow the ones it knows of. */
  function Extend(c: Cursor, x: seq<byte>): Cursor {
    Cursor(c.rest + x, c.err)
  }

  /** A read that succeeds gives the same result when more bytes follow. */
  lemma TakeExtend(c: Cursor, n: nat, x: seq<byte>)
    ensures TakeBE(c, n).1.err.None? ==> TakeBE(Extend(c, x), n) == (TakeBE(c, n).0, Extend(TakeBE(c, n).1, x))
    ensures TakeLE(c, n).1.err.None? ==> TakeLE(Extend(c, x), n) == (TakeLE(c, n).0, Extend(TakeLE(c, n).1, x))
    ensures TakeBytes(c, n).1.err.None? ==> TakeBytes(Extend(c, x), n) == (TakeBytes(c, n).0, Extend(TakeBytes(c, n).1, x))
  {
    if n <= |c.rest| {
      assert (c.rest + x)[..n] == c.rest[..n];
      assert (c.rest + x)[n..] == c.rest[n..] + x;
    }
  }

  class ReadWriter {
    // every byte that arrives before the end of the input
    const input: seq<byte>
    var pos: nat
    var readError: Option<ReadError>
    // every byte written
    var output: seq<byte>

    constructor (input: seq<byte>)
      ensures Valid() && Cur() == At(input) && output == []
    {
      this.input := input;
      pos, readError, output := 0, None, [];
      new;
      assert input[0..] == input;
    }

    ghost predicate Valid()
      reads this
    {
      pos <= |input| && (readError.Some? ==> pos == |input|)
    }

    ghost function Cur(): Cursor
      requires Valid()
      reads this
    {
      Cursor(input[pos..], readError)
    }

    method ReadByte() returns (b: Option<byte>)
      requires Valid()
      modifies `pos
      ensures Valid()
      ensures old(pos) < |input| ==> b == Some(input[old(pos)]) && pos == old(pos) + 1
      ensures old(pos) == |input| ==> b == None && pos == old(pos)
    {
      if pos < |input| {
        b := Some(input[pos]);
        pos := pos + 1;
      } else {
        b := None;
      }
    }

    method ReadUintBE(n: nat) returns (v: u32)
      requires Valid() && n <= 4
      modifies `pos, `readError
      ensures Valid() && (v, Cur()) == TakeBE(old(Cur()), n)
    {
      if readError.Some? {
        return 0;
      }
      Pow256Values();
      var ret := 0;
      for i := 0 to n
        invariant Valid() && readError.None? && pos == old(pos) + i
        invariant ret == BEVal(input[old(pos)..pos]) && ret < Pow256(i)
      {
        var b := ReadByte();
        if b.None? {
          readError := Some(EOF);
          assert input[pos..] == [];
          return 0;
        }
        assert input[old(pos)..pos][..i] == input[old(pos)..pos - 1];
        assert ret < Pow256(3) by { if i < 3 { assert Pow256(i) <= Pow256(3) by { match i { case 0 => case 1 => case 2 => } } } }
        ret := (256 * ret) % 0x1_0000_0000 + b.value as nat;
      }
      assert input[old(pos)..][..n] == input[old(pos)..pos];
      return ret;
    }

    method ReadUintLE(n: nat) returns (v: u32)
      requires Valid() && n <= 4
      modifies `pos, `readError
      ensures Valid() && (v, Cur()) == TakeLE(old(Cur()), n)
    {
      if readError.Some? {
        return 0;
      }
      hide LEVal, Pow256;
      Pow256Values();
      NoDigits();
      assert input[old(pos)..pos] == [];
      var ret: nat := 0;
      for i := 0 to n
        invariant Valid() && readError.None? && pos == old(pos) + i
        invariant ret == LEVal(input[old(pos)..pos])
      {
        var b := ReadByte();
        if b.None? {
          readError := Some(EOF);
          assert input[pos..] == [];
          return 0;
        }
        LEValSnoc(input[old(pos)..pos - 1], b.value);
        assert input[old(pos)..pos - 1] + [b.value] == input[old(pos)..pos];
        ret := ret + b.value as nat * Pow256(i);
      }
      assert input[old(pos)..][..n] == input[old(pos)..pos];
      assert Pow256(n) <= 0x1_0000_0000 by { match n { case 0 => case 1 => case 2 => case 3 => case 4 => } }
      return ret;
    }

    /** Fills a[off..off + n] completely, or fails and leaves the rest of the array alone. */
    method Read(a: array?<byte>, off: nat, n: nat) returns (err: Option<ReadError>)
      requires Valid()
      requires a == null ==> n == 0
      requires a != null ==> off + n <= a.Length
      modifies `pos, `readError, a
      ensures Valid() && Cur() == TakeBytes(old(Cur()), n).1 && err == readError
      ensures a != null ==> forall j :: 0 <= j < a.Length && !(off <= j < off + n) ==> a[j] == old(a[j])
      ensures a != null && err.None? ==> a[off..off + n] == TakeBytes(old(Cur()), n).0
    {
      if readError.Some? {
        return readError;
      }
      var i := 0;
      while i < n && pos < |input|
        invariant i <= n && Valid() && readError.None? && pos == old(pos) + i
        invariant a != null ==> forall j :: 0 <= j < a.Length && !(off <= j < off + n) ==> a[j] == old(a[j])
        invariant a != null ==> a[off..off + i] == input[old(pos)..pos]
        decreases n - i
      {
        a[off + i] := input[pos];
        pos := pos + 1;
        i := i + 1;
      }
      if i < n {
        readError := Some(if i == 0 then EOF else UnexpectedEOF);
      }
      assert input[old(pos)..][..i] == input[old(pos)..pos];
      return readError;
    }

    /** The next four bytes without consuming them; this error is not sticky. */
    method Peek4() returns (b: Option<u32>)
      requires Valid()
      ensures b == if |Cur().rest| < 4 then None else Some(BEVal(Cur().rest[..4]))
    {
      if |input| - pos < 4 {
        return None;
      }
      Pow256Values();
      assert input[pos..][..4] == input[pos..pos + 4];
      BEVal4(input[pos..pos + 4]);
      return Some(Word(input[pos] as int, input[pos + 1] as int, input[pos + 2] as int, input[pos + 3] as int));
    }

    method Discard4()
      requires Valid() && pos + 4 <= |input| && readError.None?
      modifies `pos
      ensures Valid() && Cur() == At(old(Cur()).rest[4..])
    {
      pos := pos + 4;
    }

    method WriteUintBE(v: u32, n: nat)
      requires n <= 4
      modifies `output
      ensures output == old(output) + BE(v, n)
    {
      for i := 0 to n
        invariant output == old(output) + BE(ShiftRight(v, n - i), i)
      {
        output := output + [(ShiftRight(v, n - i - 1) % 256) as byte];
      }
    }

    method WriteUintLE(v: u32, n: nat)
      requires n <= 4
      modifies `output
      ensures output == old(output) + LE(v, n)
    {
      var w: nat := v;
      for i := 0 to n
        invariant output + LE(w, n - i) == old(output) + LE(v, n)
      {
        output := output + [(w % 256) as byte];
        w := w / 256;
        assert output + LE(w, n - i - 1) == output[..|output| - 1] + LE(w, n - i - 1)[..0] + ([output[|output| - 1]] + LE(w, n - i - 1));
      }
    }

    method Write(p: seq<byte>)
      modifies `output
      ensures output == old(output) + p
    {
      output := output + p;
    }
  }

  function Word(a: int, b: int, c: int, d: int): int {
    ((a * 256 + b) * 256 + c) * 256 + d
  }

  lemma BEVal4(s: seq<byte>)
    requires |s| == 4
    ensures BEVal(s) == Word(s[0] as int, s[1] as int, s[2] as int, s[3] as int)
  {
    assert s[..3][..2] == s[..2] && s[..2][..1] == s[..1] && s[..1][..0] == [];
    assert BEVal(s[..1]) == s[0] as nat;
    assert BEVal(s[..2]) == 256 * BEVal(s[..1]) + s[1] as nat;
    assert BEVal(s[..3]) == 256 * BEVal(s[..2]) + s[2] as nat;
  }
}
