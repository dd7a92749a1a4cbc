/** memcpy and memmove (libc/memcpy.c and libc/memmove.c) on one memory of bytes,
    indexed by address. */
module MemCopy {

  const SIZEOF_LONG: nat := 4

  /** Memory `m` after a copy: `len` bytes at `dst` are the old ones at `src`. */
  function Copied<T>(m: seq<T>, dst: nat, src: nat, len: nat): (r: seq<T>)
    requires dst + len <= |m| && src + len <= |m|
    ensures |r| == |m|
  {
    m[..dst] + m[src..src + len] + m[dst + len..]
  }

  lemma CopiedAt<T>(m: seq<T>, dst: nat, src: nat, len: nat, k: nat)
    requires dst + len <= |m| && src + len <= |m| && k < |m|
    ensures Copied(m, dst, src, len)[k] == if dst <= k < dst + len then m[k - dst + src] else m[k]
  {
  }

  lemma CopiedNone<T>(m: seq<T>, dst: nat, src: nat)
    requires dst <= |m| && src <= |m|
    ensures Copied(m, dst, src, 0) == m
  {
  }

  /** The next `w` bytes of a forward copy still stand where they were. */
  lemma ExtendUp<T>(m: seq<T>, dst: nat, src: nat, n: nat, w: nat)
    requires dst + n + w <= |m| && src + n + w <= |m|
    requires dst <= src || src + n + w <= dst
    ensures Copied(Copied(m, dst, src, n), dst + n, src + n, w) == Copied(m, dst, src, n + w)
  {
    hide Copied;
    var c := Copied(m, dst, src, n);
    var a, b := Copied(c, dst + n, src + n, w), Copied(m, dst, src, n + w);
    forall k | 0 <= k < |m|
      ensures a[k] == b[k]
    {
      CopiedAt(c, dst + n, src + n, w, k);
      CopiedAt(m, dst, src, n + w, k);
      CopiedAt(m, dst, src, n, if dst + n <= k < dst + n + w then k - dst + src else k);
    }
  }

  /** So do the previous `w` bytes of a backward copy. */
  lemma ExtendDown<T>(m: seq<T>, dst: nat, src: nat, n: nat, w: nat)
    requires src <= dst && dst + n + w <= |m|
    ensures Copied(Copied(m, dst + w, src + w, n), dst, src, w) == Copied(m, dst, src, n + w)
  {
    hide Copied;
    var c := Copied(m, dst + w, src + w, n);
    var a, b := Copied(c, dst, src, w), Copied(m, dst, src, n + w);
    forall k | 0 <= k < |m|
      ensures a[k] == b[k]
    {
      CopiedAt(c, dst, src, w, k);
      CopiedAt(m, dst, src, n + w, k);
      CopiedAt(m, dst + w, src + w, n, if dst <= k < dst + w then k - dst + src else k);
    }
  }

  method CopyByte<T>(mem: array<T>, d: nat, s: nat)
    requires d < mem.Length && s < mem.Length
    modifies mem
    ensures mem[..] == Copied(old(mem[..]), d, s, 1)
  {
    ghost var m := mem[..];
    mem[d] := mem[s];
    assert m[s..s + 1] == [m[s]];
    assert mem[..] == m[..d] + [m[s]] + m[d + 1..];
  }

  /** Load a long and store it: all four bytes are read before any is written. */
  method CopyWord<T>(mem: array<T>, d: nat, s: nat)
    requires d + 4 <= mem.Length && s + 4 <= mem.Length
    modifies mem
    ensures mem[..] == Copied(old(mem[..]), d, s, 4)
  {
    var b0, b1, b2, b3 := mem[s], mem[s + 1], mem[s + 2], mem[s + 3];
    mem[d] := b0;
    mem[d + 1] := b1;
    mem[d + 2] := b2;
    mem[d + 3] := b3;
  }

  predicate Aligned(dst: nat, src: nat, len: nat) {
    dst % SIZEOF_LONG == 0 && src % SIZEOF_LONG == 0 && len % SIZEOF_LONG == 0
  }

  /** memcpy copies forwards, so it is right wherever the destination does not
      start inside the source, though C promises it for disjoint regions only. */
  method Memcpy<T>(mem: array<T>, dst: nat, src: nat, len: nat)
    requires dst + len <= mem.Length && src + len <= mem.Length
    requires dst <= src || src + len <= dst
    modifies mem
    ensures mem[..] == Copied(old(mem[..]), dst, src, len)
  {
    hide Copied;
    ghost var m := mem[..];
    CopiedNone(m, dst, src);
    var i := 0;
    if Aligned(dst, src, len) {
      while i < len / SIZEOF_LONG
        invariant i <= len / SIZEOF_LONG && mem[..] == Copied(m, dst, src, 4 * i)
      {
        CopyWord(mem, dst + 4 * i, src + 4 * i);
        ExtendUp(m, dst, src, 4 * i, 4);
        i := i + 1;
      }
    } else {
      while i < len
        invariant i <= len && mem[..] == Copied(m, dst, src, i)
      {
        CopyByte(mem, dst + i, src + i);
        ExtendUp(m, dst, src, i, 1);
        i := i + 1;
      }
    }
  }

  /** memmove: for every overlap and alignment, the destination gets the old
      source bytes and nothing else changes. */
  method Memmove<T>(mem: array<T>, dst: nat, src: nat, len: nat)
    requires dst + len <= mem.Length && src + len <= mem.Length
    modifies mem
    ensures mem[..] == Copied(old(mem[..]), dst, src, len)
  {
    hide Copied;
    if dst < src {
      Memcpy(mem, dst, src, len);
      return;
    }
    ghost var m := mem[..];
    CopiedNone(m, dst + len, src + len);
    if Aligned(dst, src, len) {
      var i: nat := len / SIZEOF_LONG;
      while i > 0
        invariant 4 * i <= len && mem[..] == Copied(m, dst + 4 * i, src + 4 * i, len - 4 * i)
      {
        CopyWord(mem, dst + 4 * (i - 1), src + 4 * (i - 1));
        ExtendDown(m, dst + 4 * (i - 1), src + 4 * (i - 1), len - 4 * i, 4);
        i := i - 1;
      }
    } else {
      var i: nat := len;
      while i > 0
        invariant i <= len && mem[..] == Copied(m, dst + i, src + i, len - i)
      {
        CopyByte(mem, dst + (i - 1), src + (i - 1));
        ExtendDown(m, dst + (i - 1), src + (i - 1), len - i, 1);
        i := i - 1;
      }
    }
  }
}
