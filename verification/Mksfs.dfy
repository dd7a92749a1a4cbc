/** The free map that mksfs writes (sbin/mksfs/mksfs.c), in the bit layout of the
    kernel's bitmap. */
module Mksfs {
  import opened Basics
  import opened Bitmap

  const MAXBITBLOCKS: nat := 32
  const CHAR_BIT: nat := 8
  const BLOCKSIZE: nat := 512
  const BLOCKBITS: nat := 4096
  const SB_LOCATION: nat := 0
  const ROOT_LOCATION: nat := 1
  const MAP_LOCATION: nat := 2

  /** SFS_BITBLOCKS: the blocks of the map. The sum wraps for the largest sizes. */
  function BitBlocks(fsblocks: nat): nat
    requires fsblocks < TWO_TO_32
  {
    (fsblocks + (BLOCKBITS - 1)) % TWO_TO_32 / BLOCKBITS
  }

  /** The map covers the file system unless rounding up wraps. */
  lemma MapCovers(fsblocks: nat)
    requires fsblocks < TWO_TO_32
    ensures BLOCKBITS * BitBlocks(fsblocks) >= fsblocks <==> fsblocks + (BLOCKBITS - 1) < TWO_TO_32
    ensures fsblocks + (BLOCKBITS - 1) < TWO_TO_32 ==> BLOCKBITS * BitBlocks(fsblocks) < fsblocks + BLOCKBITS
    ensures fsblocks + (BLOCKBITS - 1) >= TWO_TO_32 ==> BitBlocks(fsblocks) == 0
  {
  }

  datatype Outcome = Written | TooLarge | AssertionFailed

  /** What becomes of a device with that many blocks. */
  function Fate(fsblocks: nat): Outcome
    requires fsblocks < TWO_TO_32
  {
    if 131072 < fsblocks <= 0xffff_f000 then TooLarge
    else if fsblocks == 1 || fsblocks == 2 then AssertionFailed
    else Written
  }

  /** The system blocks, the map itself, and what lies beyond the device. */
  ghost predicate InUse(fsblocks: nat, i: nat)
    requires fsblocks < TWO_TO_32
  {
    i < MAP_LOCATION + BitBlocks(fsblocks) || fsblocks <= i < BLOCKBITS * BitBlocks(fsblocks)
  }

  /** The mask of mksfs is the one of the kernel's bitmap. */
  lemma SameMask(bit: nat)
    ensures (1 as bv8) << (bit % CHAR_BIT) == Mask(bit % 8)
  {
  }

  /** Set one bit; the assertion fails if it was set before. */
  method DoAllocBit(bitbuf: array<bv8>, bit: nat) returns (ok: bool)
    requires bit < 8 * bitbuf.Length
    modifies bitbuf
    ensures ok <==> !BitAt(old(bitbuf[..]), bit)
    ensures forall i: nat :: BitAt(bitbuf[..], i) <==> i == bit || BitAt(old(bitbuf[..]), i)
  {
    hide BitAt, Mask, Hits, With;
    var byte := bit / CHAR_BIT;
    var mask := (1 as bv8) << (bit % CHAR_BIT);
    ghost var was := bitbuf[..];
    assert mask == Mask(bit % 8) by { SameMask(bit); }
    BitIs(was, bit, 0);
    forall i: nat ensures BitAt(was[byte := With(was[byte], mask)], i) <==> i == bit || BitAt(was, i) {
      SetBitAt(was, bit, i);
    }
    if Hits(bitbuf[byte], mask) {
      assert forall i: nat :: BitAt(was, i) <==> i == bit || BitAt(was, i);
      return false;
    }
    bitbuf[byte] := With(bitbuf[byte], mask);
    assert bitbuf[..] == was[byte := With(was[byte], mask)];
    return true;
  }

  /** Set the bits from `lo` to `hi`, stopping at the first that was set before. */
  method AllocRange(bitbuf: array<bv8>, lo: nat, hi: nat) returns (ok: bool)
    requires hi <= 8 * bitbuf.Length
    modifies bitbuf
    ensures ok <==> forall i :: lo <= i < hi ==> !BitAt(old(bitbuf[..]), i)
    ensures ok ==> forall i: nat :: BitAt(bitbuf[..], i) <==> lo <= i < hi || BitAt(old(bitbuf[..]), i)
  {
    hide BitAt;
    var i := lo;
    ok := true;
    while i < hi
      invariant lo <= i && (i <= hi || i == lo)
      invariant forall k :: lo <= k < i ==> !BitAt(old(bitbuf[..]), k)
      invariant forall k: nat :: BitAt(bitbuf[..], k) <==> lo <= k < i || BitAt(old(bitbuf[..]), k)
    {
      var fine := DoAllocBit(bitbuf, i);
      if !fine {
        return false;
      }
      i := i + 1;
    }
  }

  /** writebitmap on the cleared static buffer, for every 32-bit size: it is written
      exactly when its fate says so, and then marks exactly the blocks in use. */
  method WriteBitmap(bitbuf: array<bv8>, fsblocks: nat) returns (r: Outcome)
    requires fsblocks < TWO_TO_32 && bitbuf.Length == MAXBITBLOCKS * BLOCKSIZE
    requires forall i :: 0 <= i < bitbuf.Length ==> bitbuf[i] == 0
    modifies bitbuf
    ensures r == Fate(fsblocks)
    ensures r == Written ==> forall i: nat :: BitAt(bitbuf[..], i) <==> InUse(fsblocks, i)
  {
    hide BitAt;
    NothingSet(bitbuf[..]);
    MapCovers(fsblocks);
    var nblocks := BitBlocks(fsblocks);
    var nbits := BLOCKBITS * nblocks;
    if nblocks > MAXBITBLOCKS {
      return TooLarge;
    }
    var ok := DoAllocBit(bitbuf, SB_LOCATION);
    assert ok;
    ok := DoAllocBit(bitbuf, ROOT_LOCATION);
    assert ok;
    ok := AllocRange(bitbuf, MAP_LOCATION, MAP_LOCATION + nblocks);
    assert ok;
    assert fsblocks == 1 || fsblocks == 2 ==> nblocks == 1 && BitAt(bitbuf[..], fsblocks);
    ok := AllocRange(bitbuf, fsblocks, nbits);
    return if ok then Written else AssertionFailed;
  }

  /** On the map of a new file system the first block the kernel can allocate is
      the one behind the map, if the device has one. */
  method FirstBlock(b: Bitmap, fsblocks: nat) returns (err: int, block: nat)
    requires fsblocks < TWO_TO_32 && b.Valid() && Fate(fsblocks) == Written && BitBlocks(fsblocks) > 0
    requires b.nbits == BLOCKBITS * BitBlocks(fsblocks)
    requires forall i :: 0 <= i < b.nbits ==> (BitAt(b.v[..], i) <==> InUse(fsblocks, i))
    modifies b.v
    ensures b.Valid() && (err == ENOSPC <==> fsblocks == MAP_LOCATION + BitBlocks(fsblocks))
    ensures err == 0 ==> block == MAP_LOCATION + BitBlocks(fsblocks) < fsblocks
  {
    hide BitAt;
    MapCovers(fsblocks);
    assert forall i :: 0 <= i < b.nbits ==> (i in b.Set() <==> InUse(fsblocks, i));
    ghost var first := MAP_LOCATION + BitBlocks(fsblocks);
    assert first < fsblocks ==> first !in b.Set();
    err, block := b.Alloc();
  }
}
