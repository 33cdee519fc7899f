/** The payload allocator: slices are cut one after the other from a buffer that is replaced when it runs out. */
module Pools {
  import opened Bytes
  import opened ChunkReader

  /** A window into an array, as a Go slice; the nil slice has no array. */
  datatype Slice = Slice(buf: array?<byte>, off: nat, len: nat) {
    ghost predicate InBounds() {
      if buf == null then len == 0 else off + len <= buf.Length
    }

    ghost predicate Disjoint(s: Slice) {
      buf == null || buf != s.buf || off + len <= s.off || s.off + s.len <= off
    }

    /** The slice without its first k positions. */
    ghost function From(k: nat): Slice {
      if k <= len then Slice(buf, off + k, len - k) else this
    }

    ghost function Contents(): seq<byte>
      requires InBounds()
      reads buf
    {
      if buf == null then [] else buf[off..off + len]
    }

    lemma Part(start: nat, n: nat)
      requires InBounds() && 0 < n && start + n <= len
      ensures Contents()[start..start + n] == buf[off + start..off + start + n]
    {
    }
  }

  class Pool {
    var pos: nat
    var buf: array<byte>
    // every buffer ever used, and every slice ever handed out
    ghost var bufs: set<array<byte>>
    ghost var issued: seq<Slice>

    /** A slice that later calls of Get cannot return any part of. */
    ghost predicate Spent(s: Slice)
      reads this
    {
      s.InBounds() && (s.buf != null ==> s.buf in bufs && (s.buf == buf ==> s.off + s.len <= pos))
    }

    ghost predicate Valid()
      reads this
    {
      buf in bufs && pos <= MAX_POOL_SIZE && (forall b :: b in bufs ==> b.Length == MAX_POOL_SIZE) &&
      (forall i :: 0 <= i < |issued| ==> Spent(issued[i])) &&
      (forall i, j :: 0 <= i < j < |issued| ==> issued[i].Disjoint(issued[j]))
    }

    constructor ()
      ensures Valid() && fresh(bufs) && issued == []
    {
      buf := new byte[MAX_POOL_SIZE];
      pos := 0;
      new;
      bufs, issued := {buf}, [];
    }

    /** A slice disjoint from all earlier ones; a size beyond the buffer is a slicing panic. */
    method Get(size: nat) returns (s: Option<Slice>)
      requires Valid()
      modifies this
      ensures Valid() && old(bufs) <= bufs && fresh(bufs - old(bufs))
      ensures s.Some? <==> size <= 1048576
      ensures s.Some? ==> s.value.len == size && s.value.buf != null && Spent(s.value) && issued == old(issued) + [s.value]
      ensures s.Some? ==> s.value.buf == buf && s.value.off + size == pos && (buf != old(buf) ==> buf !in old(bufs))
      ensures s.Some? && buf == old(buf) ==> s.value.off == old(pos)
    {
      if MAX_POOL_SIZE - pos < size {
        pos := 0;
        buf := new byte[MAX_POOL_SIZE];
        bufs := bufs + {buf};
      }
      if size > MAX_POOL_SIZE {
        return None;
      }
      var b := Slice(buf, pos, size);
      pos := pos + size;
      issued := issued + [b];
      return Some(b);
    }
  }
}
