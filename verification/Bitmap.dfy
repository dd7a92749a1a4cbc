/** The byte-packed bitmap of kern/lib/bitmap.c. */
module Bitmap {
  import opened Basics

  const BITS_PER_WORD: nat := 8
  const WORD_ALLBITS: bv8 := 0xff
  const ENOSPC: int := 20

  // ------------------------------------------------------------ bits of a byte

  function Mask(k: nat): bv8
    requires k < 8
  {
    (1 as bv8) << k
  }

  predicate Hits(b: bv8, mask: bv8) {
    b & mask != 0
  }

  function With(b: bv8, mask: bv8): bv8 {
    b | mask
  }

  function Minus(b: bv8, mask: bv8): bv8 {
    b & !mask
  }

  predicate Has(b: bv8, k: nat)
    requires k < 8
  {
    Hits(b, Mask(k))
  }

  lemma MaskTable(k: nat)
    requires k < 8
    ensures Mask(k) == (if k == 0 then 1 else if k == 1 then 2 else if k == 2 then 4 else if k == 3 then 8
              else if k == 4 then 16 else if k == 5 then 32 else if k == 6 then 64 else 128)
  {
  }

  lemma SetOne(b: bv8, j: nat, k: nat)
    requires j < 8 && k < 8
    ensures Has(With(b, Mask(j)), k) <==> k == j || Has(b, k)
  {
    hide Mask;
    MaskTable(j);
    MaskTable(k);
  }

  lemma ClearOne(b: bv8, j: nat, k: nat)
    requires j < 8 && k < 8
    ensures Has(Minus(b, Mask(j)), k) <==> k != j && Has(b, k)
  {
    hide Mask;
    MaskTable(j);
    MaskTable(k);
  }

  lemma AllOnes(b: bv8)
    ensures b == WORD_ALLBITS <==> forall k :: 0 <= k < 8 ==> Has(b, k)
  {
    hide Mask;
    forall k | 0 <= k < 8 ensures b == WORD_ALLBITS ==> Has(b, k) {
      MaskTable(k);
    }
    if forall k :: 0 <= k < 8 ==> Has(b, k) {
      assert Has(b, 0) && Has(b, 1) && Has(b, 2) && Has(b, 3);
      assert Has(b, 4) && Has(b, 5) && Has(b, 6) && Has(b, 7);
      MaskTable(0);
      MaskTable(1);
      MaskTable(2);
      MaskTable(3);
      MaskTable(4);
      MaskTable(5);
      MaskTable(6);
      MaskTable(7);
    }
  }

  lemma NoOnes(k: nat)
    requires k < 8
    ensures !Has(0, k)
  {
    hide Mask;
  }

  // ---------------------------------------------------------- bits of the array

  /** Bit `i` of the bytes `v`. */
  predicate BitAt(v: seq<bv8>, i: nat) {
    i / 8 < |v| && Has(v[i / 8], i % 8)
  }

  lemma SetBitAt(v: seq<bv8>, i: nat, k: nat)
    requires i / 8 < |v|
    ensures BitAt(v[i / 8 := With(v[i / 8], Mask(i % 8))], k) <==> k == i || BitAt(v, k)
  {
    hide Has, Mask, With, Minus;
    SetOne(v[i / 8], i % 8, k % 8);
  }

  lemma ClearBitAt(v: seq<bv8>, i: nat, k: nat)
    requires i / 8 < |v|
    ensures BitAt(v[i / 8 := Minus(v[i / 8], Mask(i % 8))], k) <==> k != i && BitAt(v, k)
  {
    hide Has, Mask, With, Minus;
    ClearOne(v[i / 8], i % 8, k % 8);
  }

  /** The set the bytes stand for. */
  function Marked(v: seq<bv8>, nbits: nat): set<nat> {
    set i: nat | i < nbits && BitAt(v, i)
  }

  /** Bits from `nbits` to the end of the last byte are set. */
  predicate TailSet(v: seq<bv8>, nbits: nat) {
    forall i :: nbits <= i < 8 * |v| ==> BitAt(v, i)
  }

  lemma MarkedAdd(v: seq<bv8>, i: nat, nbits: nat)
    requires i / 8 < |v|
    ensures var v' := v[i / 8 := With(v[i / 8], Mask(i % 8))];
      && Marked(v', nbits) == Marked(v, nbits) + (if i < nbits then {i} else {})
      && (TailSet(v, nbits) ==> TailSet(v', nbits))
  {
    hide BitAt;
    var v' := v[i / 8 := With(v[i / 8], Mask(i % 8))];
    forall k: nat
      ensures BitAt(v', k) <==> k == i || BitAt(v, k)
    {
      SetBitAt(v, i, k);
    }
  }

  lemma MarkedRemove(v: seq<bv8>, i: nat, nbits: nat)
    requires i / 8 < |v| && i < nbits
    ensures var v' := v[i / 8 := Minus(v[i / 8], Mask(i % 8))];
      && Marked(v', nbits) == Marked(v, nbits) - {i}
      && (TailSet(v, nbits) ==> TailSet(v', nbits))
  {
    hide BitAt;
    var v' := v[i / 8 := Minus(v[i / 8], Mask(i % 8))];
    forall k: nat
      ensures BitAt(v', k) <==> k != i && BitAt(v, k)
    {
      ClearBitAt(v, i, k);
    }
  }

  /** DIVROUNDUP on 32-bit words: the sum wraps for the last few sizes. */
  function DivRoundUp(nbits: nat): (w: nat)
    requires nbits < TWO_TO_32
    ensures nbits <= 8 * w < nbits + 8 <==> nbits + 7 < TWO_TO_32
  {
    (nbits + 7) % TWO_TO_32 / 8
  }

  /** A byte is full exactly when its eight bits are. */
  lemma FullByte(v: seq<bv8>, ix: nat)
    requires ix < |v|
    ensures v[ix] == WORD_ALLBITS <==> forall k :: 8 * ix <= k < 8 * ix + 8 ==> BitAt(v, k)
  {
    hide Has;
    AllOnes(v[ix]);
    if forall k :: 8 * ix <= k < 8 * ix + 8 ==> BitAt(v, k) {
      forall j | 0 <= j < 8 ensures Has(v[ix], j) {
        assert BitAt(v, 8 * ix + j);
      }
    }
  }

  class Bitmap {
    const nbits: nat
    const v: array<bv8>

    /** The bytes cover the bits, and the leftover bits at the end are in use. */
    ghost predicate Valid()
      reads v
    {
      nbits < TWO_TO_32 && v.Length == DivRoundUp(nbits) && nbits <= 8 * v.Length && TailSet(v[..], nbits)
    }

    ghost function Set(): set<nat>
      reads v
    {
      Marked(v[..], nbits)
    }

    constructor (nbits: nat)
      requires nbits < TWO_TO_32
      ensures this.nbits == nbits && fresh(v)
      ensures Valid() <==> nbits + 7 < TWO_TO_32
      ensures Set() == {}
    {
      var words := DivRoundUp(nbits);
      this.nbits := nbits;
      v := new bv8[words](_ => 0);
      new;
      NothingSet(v[..]);
      if nbits / BITS_PER_WORD < words {
        MarkLeftover(v, nbits);
      }
    }

    /** The least clear bit, which is then set; ENOSPC exactly when there is none. */
    method Alloc() returns (err: int, index: nat)
      requires Valid()
      modifies v
      ensures Valid() && (err == 0 || err == ENOSPC)
      ensures err == ENOSPC <==> forall i :: 0 <= i < nbits ==> i in old(Set())
      ensures err == ENOSPC ==> v[..] == old(v[..])
      ensures err == 0 ==> index < nbits && index !in old(Set()) && Set() == old(Set()) + {index}
      ensures err == 0 ==> forall i :: 0 <= i < index ==> i in old(Set())
    {
      hide BitAt, Has, Mask, Hits, With, Minus;
      var maxix := DivRoundUp(nbits);
      var ix := 0;
      while ix < maxix
        invariant ix <= maxix && v[..] == old(v[..])
        invariant forall i :: 0 <= i < 8 * ix ==> BitAt(v[..], i)
      {
        FullByte(v[..], ix);
        if v[ix] != WORD_ALLBITS {
          var offset := FindClear(v[..], ix);
          index := ix * BITS_PER_WORD + offset;
          assert index < nbits;
          assert index !in old(Set());
          MarkedAdd(v[..], index, nbits);
          v[ix] := With(v[ix], Mask(offset));
          assert v[..] == old(v[..])[ix := With(old(v[..])[ix], Mask(offset))];
          return 0, index;
        }
        ix := ix + 1;
      }
      return ENOSPC, 0;
    }

    /** Fails its assertions exactly for an index out of range or already set. */
    method Mark(index: nat) returns (ok: bool)
      requires Valid()
      modifies v
      ensures Valid() && (ok <==> index < nbits && index !in old(Set()))
      ensures Set() == if ok then old(Set()) + {index} else old(Set())
    {
      hide Mask, BitAt, Marked, Hits, With, Minus;
      if index >= nbits {
        OutOfRange(v[..], index, nbits);
        return false;
      }
      var ix, mask := Translate(index);
      BitIs(v[..], index, nbits);
      if Hits(v[ix], mask) {
        return false;
      }
      MarkedAdd(v[..], index, nbits);
      ghost var was := v[..];
      v[ix] := With(v[ix], mask);
      assert v[..] == was[ix := With(was[ix], mask)];
      return true;
    }

    method Unmark(index: nat) returns (ok: bool)
      requires Valid()
      modifies v
      ensures Valid() && (ok <==> index in old(Set()))
      ensures Set() == old(Set()) - {index}
    {
      hide Mask, BitAt, Marked, Hits, With, Minus;
      if index >= nbits {
        OutOfRange(v[..], index, nbits);
        return false;
      }
      var ix, mask := Translate(index);
      BitIs(v[..], index, nbits);
      if !Hits(v[ix], mask) {
        return false;
      }
      MarkedRemove(v[..], index, nbits);
      ghost var was := v[..];
      v[ix] := Minus(v[ix], mask);
      assert v[..] == was[ix := Minus(was[ix], mask)];
      return true;
    }

    /** Leftover bits read as set. */
    method IsSet(index: nat) returns (r: bool)
      requires Valid() && index < 8 * v.Length
      ensures r <==> index in Set() || index >= nbits
      ensures r <==> BitAt(v[..], index)
    {
      var ix, mask := Translate(index);
      BitIs(v[..], index, nbits);
      r := Hits(v[ix], mask);
    }
  }

  /** Set the bits of the last byte that stand for no index. */
  method MarkLeftover(v: array<bv8>, nbits: nat)
    requires nbits < TWO_TO_32 && nbits / 8 < v.Length == DivRoundUp(nbits)
    requires forall i: nat :: !BitAt(v[..], i)
    modifies v
    ensures forall i: nat :: BitAt(v[..], i) <==> nbits <= i < 8 * v.Length
  {
    hide BitAt, Mask, With;
    var ix := v.Length - 1;
    var overbits := nbits - ix * BITS_PER_WORD;
    assert nbits / BITS_PER_WORD == v.Length - 1;
    assert 0 < overbits < BITS_PER_WORD;
    var j := overbits;
    while j < BITS_PER_WORD
      invariant overbits <= j <= 8
      invariant forall i: nat :: BitAt(v[..], i) <==> nbits <= i < 8 * ix + j
    {
      ghost var was := v[..];
      v[ix] := With(v[ix], Mask(j));
      assert v[..] == was[ix := With(was[ix], Mask(j))];
      forall k: nat ensures BitAt(v[..], k) <==> k == 8 * ix + j || BitAt(was, k) {
        SetBitIn(was, ix, j, k);
      }
      j := j + 1;
    }
  }

  lemma SetBitIn(v: seq<bv8>, ix: nat, j: nat, k: nat)
    requires ix < |v| && j < 8
    ensures BitAt(v[ix := With(v[ix], Mask(j))], k) <==> k == 8 * ix + j || BitAt(v, k)
  {
    hide BitAt, Mask, With;
    SetBitAt(v, 8 * ix + j, k);
  }

  lemma BitIs(v: seq<bv8>, i: nat, nbits: nat)
    requires i / 8 < |v|
    ensures BitAt(v, i) <==> Hits(v[i / 8], Mask(i % 8))
    ensures i in Marked(v, nbits) <==> i < nbits && BitAt(v, i)
  {
    hide Mask;
  }

  lemma OutOfRange(v: seq<bv8>, i: nat, nbits: nat)
    requires i >= nbits
    ensures i !in Marked(v, nbits)
  {
  }

  method Translate(bitno: nat) returns (ix: nat, mask: bv8)
    ensures ix == bitno / 8 && mask == Mask(bitno % 8)
  {
    ix := bitno / BITS_PER_WORD;
    var offset := bitno % BITS_PER_WORD;
    mask := (1 as bv8) << offset;
  }

  lemma NothingSet(v: seq<bv8>)
    requires forall i :: 0 <= i < |v| ==> v[i] == 0
    ensures forall i: nat :: !BitAt(v, i)
  {
    hide Has;
    forall i: nat ensures !BitAt(v, i) {
      NoOnes(i % 8);
    }
  }

  /** The inner loop of bitmap_alloc: the lowest clear bit of a byte that is not full. */
  method FindClear(v: seq<bv8>, ix: nat) returns (offset: nat)
    requires ix < |v| && v[ix] != WORD_ALLBITS
    ensures offset < 8 && !BitAt(v, 8 * ix + offset)
    ensures forall k :: 8 * ix <= k < 8 * ix + offset ==> BitAt(v, k)
  {
    hide Mask;
    FullByte(v, ix);
    offset := 0;
    while offset < BITS_PER_WORD
      invariant offset <= 8 && forall k :: 8 * ix <= k < 8 * ix + offset ==> BitAt(v, k)
    {
      var mask := Mask(offset);
      assert BitAt(v, 8 * ix + offset) <==> Hits(v[ix], mask);
      if !Hits(v[ix], mask) {
        return;
      }
      offset := offset + 1;
    }
    assert false;
  }
}
