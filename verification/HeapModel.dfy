/** The state of the kernel heap and its invariant.

    The invariant writes out what the heap's own consistency checkers look for,
    and ties it to a ghost account of which blocks are live, who asked for them
    and in which order each free list threads its blocks. */
module HeapModel {
  import opened Basics

  const PAGE_SIZE: nat := 4096
  const NSIZES: nat := 8
  const NPAGEREFS: nat := 256
  const INUSE_WORDS: nat := 8
  const LARGEST_SUBPAGE_SIZE: nat := 2048
  const INVALID_OFFSET: nat := 0xffff
  const DEADBEEF: nat := 0xdeadbeef

  const SIZES: seq<nat> := [16, 32, 64, 128, 256, 512, 1024, 2048]

  /** How many blocks of each size fill a page. */
  const COUNTS: seq<nat> := [256, 128, 64, 32, 16, 8, 4, 2]

  lemma Tables(t: nat)
    requires t < NSIZES
    ensures PAGE_SIZE / SIZES[t] == COUNTS[t]
    ensures 16 <= SIZES[t] <= LARGEST_SUBPAGE_SIZE && SIZES[t] % 4 == 0
    ensures 2 <= COUNTS[t] <= 256
  {
    if t == 0 {} else if t == 1 {} else if t == 2 {} else if t == 3 {}
    else if t == 4 {} else if t == 5 {} else if t == 6 {} else {}
  }

  /** Offset of block `i` in a page of type `t`: `i` blocks further on. */
  function Offset(t: nat, i: nat): nat
    requires t < NSIZES
  {
    if i == 0 then 0 else Offset(t, i - 1) + SIZES[t]
  }

  lemma OffsetIsProduct(t: nat, i: nat)
    requires t < NSIZES
    ensures Offset(t, i) == i * SIZES[t]
  {
  }

  /** Two blocks of one page do not overlap. */
  lemma {:induction false} OffsetsApart(t: nat, i: nat, k: nat)
    requires t < NSIZES && i < k
    ensures Offset(t, i) + SIZES[t] <= Offset(t, k)
  {
    if i + 1 < k {
      OffsetsApart(t, i, k - 1);
    }
  }

  lemma BlocksFillPage(t: nat)
    requires t < NSIZES
    ensures Offset(t, COUNTS[t]) == PAGE_SIZE
  {
    OffsetIsProduct(t, COUNTS[t]);
  }

  /** Blocks of one page lie inside it. */
  lemma OffsetInPage(t: nat, i: nat)
    requires t < NSIZES && i < COUNTS[t]
    ensures Offset(t, i) + SIZES[t] <= PAGE_SIZE
  {
    BlocksFillPage(t);
    OffsetsApart(t, i, COUNTS[t]);
  }

  /** Block offsets pass the alignment test of `kfree`. */
  lemma OffsetAligned(t: nat, i: nat)
    requires t < NSIZES
    ensures SIZES[t] > 0 && Offset(t, i) % SIZES[t] == 0
  {
    Tables(t);
    OffsetIsProduct(t, i);
    hide Offset;
    ModIs(i * SIZES[t], SIZES[t], i, 0);
  }

  // ---------------------------------------------------------------- records

  datatype Link = Nil | To(ref: nat)

  datatype PageRef = PageRef(nextSame: Link, nextAll: Link, pab: nat, freeOffset: nat, nfree: nat)

  /** The packed word: page address in the high 20 bits, block type in the low 12. */
  function Pack(page: nat, t: nat): nat {
    page / PAGE_SIZE * PAGE_SIZE + t % PAGE_SIZE
  }

  function PageAddr(p: PageRef): nat {
    p.pab / PAGE_SIZE * PAGE_SIZE
  }

  function BlockType(p: PageRef): nat {
    p.pab % PAGE_SIZE
  }

  /** The masks of the source keep the two parts apart, and on 32-bit words they are
      the quotient and the remainder that `Pack`, `PageAddr` and `BlockType` use. */
  lemma PackMasks(page: bv32, t: bv32)
    ensures (page & 0xfffff000) | (t & 0xfff) == page / 4096 * 4096 + t % 4096
    ensures page & 0xfffff000 == page / 4096 * 4096 && page & 0xfff == page % 4096
    ensures ((page & 0xfffff000) | (t & 0xfff)) & 0xfffff000 == page & 0xfffff000
    ensures ((page & 0xfffff000) | (t & 0xfff)) & 0xfff == t & 0xfff
  {
  }

  /** A 32-bit word of the in-use table, least significant bit first. */
  type Word = w: seq<bool> | |w| == 32 witness seq(32, _ => false)

  predicate InUse(words: seq<Word>, j: nat)
    requires |words| == INUSE_WORDS && j < NPAGEREFS
  {
    words[j / 32][j % 32]
  }

  /** What the heap knows of a managed page: its frame number, its block type
      and its free blocks in free-list order. */
  datatype Page = Page(frame: nat, typ: nat, free: seq<nat>) {
    function Base(): nat { frame * PAGE_SIZE }

    function Addr(i: nat): nat
      requires typ < NSIZES
    {
      Base() + Offset(typ, i)
    }
  }

  /** Who a live address was handed to. `size` is the size asked for. */
  datatype Owner =
    | Sub(ref: nat, index: nat, size: nat)
    | Run(frame: nat, npages: nat, size: nat)

  datatype Heap = Heap(
    prs: seq<PageRef>,       // pagerefs[]
    inuse: seq<Word>,        // pagerefs_inuse[]
    bases: seq<Link>,        // sizebases[]
    allbase: Link,
    mem: map<int, int>,      // the words written so far
    all: seq<nat>,           // the order of the allbase list
    chains: seq<seq<nat>>,   // the order of each sizebases list
    pages: map<nat, Page>,   // the managed pages, by page reference
    live: map<int, Owner>)

  // ------------------------------------------------------------ linked lists

  datatype Which = Same | All

  function Next(p: PageRef, w: Which): Link {
    if w == Same then p.nextSame else p.nextAll
  }

  function WithNext(p: PageRef, w: Which, l: Link): PageRef {
    if w == Same then p.(nextSame := l) else p.(nextAll := l)
  }

  function LinkAt(xs: seq<nat>, k: nat): Link {
    if k < |xs| then To(xs[k]) else Nil
  }

  ghost predicate Distinct<T>(xs: seq<T>) {
    forall i, j :: 0 <= i < j < |xs| ==> xs[i] != xs[j]
  }

  /** Following `w` from `head` visits exactly `xs`, each record once. */
  ghost predicate Linked(prs: seq<PageRef>, w: Which, head: Link, xs: seq<nat>) {
    && Distinct(xs)
    && head == LinkAt(xs, 0)
    && forall k :: 0 <= k < |xs| ==> xs[k] < |prs| && Next(prs[xs[k]], w) == LinkAt(xs, k + 1)
  }

  lemma LinkedFrame(prs: seq<PageRef>, prs': seq<PageRef>, w: Which, head: Link, xs: seq<nat>)
    requires Linked(prs, w, head, xs) && |prs| == |prs'|
    requires forall j :: j in xs && j < |prs| ==> Next(prs'[j], w) == Next(prs[j], w)
    ensures Linked(prs', w, head, xs)
  {
  }

  lemma LinkedPush(prs: seq<PageRef>, prs': seq<PageRef>, w: Which, head: Link, xs: seq<nat>, p: nat)
    requires Linked(prs, w, head, xs) && |prs| == |prs'| && p < |prs| && p !in xs
    requires forall j :: 0 <= j < |prs| && j != p ==> Next(prs'[j], w) == Next(prs[j], w)
    requires Next(prs'[p], w) == head
    ensures Linked(prs', w, To(p), [p] + xs)
  {
  }

  lemma WithoutMember<T>(xs: seq<T>, k: nat)
    requires k < |xs| && Distinct(xs)
    ensures Distinct(Without(xs, k))
    ensures forall x :: x in Without(xs, k) <==> x in xs && x != xs[k]
  {
    var ys := Without(xs, k);
    forall x | x in xs && x != xs[k]
      ensures x in ys
    {
      var m :| 0 <= m < |xs| && xs[m] == x;
      assert ys[if m < k then m else m - 1] == x;
    }
  }

  /** Redirecting the one pointer that led to `xs[k]` past it unlinks it. */
  lemma LinkedRemove(prs: seq<PageRef>, prs': seq<PageRef>, w: Which, head: Link, head': Link, xs: seq<nat>, k: nat)
    requires Linked(prs, w, head, xs) && k < |xs| && |prs| == |prs'|
    requires k == 0 ==> head' == Next(prs[xs[0]], w)
    requires k > 0 ==> head' == head && Next(prs'[xs[k - 1]], w) == Next(prs[xs[k]], w)
    requires forall j :: 0 <= j < |prs| && (k == 0 || j != xs[k - 1]) ==> Next(prs'[j], w) == Next(prs[j], w)
    ensures Linked(prs', w, head', Without(xs, k))
  {
    WithoutMember(xs, k);
    var ys := Without(xs, k);
    forall i | 0 <= i < |ys|
      ensures ys[i] < |prs'| && Next(prs'[ys[i]], w) == LinkAt(ys, i + 1)
    {
      var m := if i < k then i else i + 1;
      assert ys[i] == xs[m];
      if i + 1 != k {
        assert k > 0 ==> xs[m] != xs[k - 1];
        assert LinkAt(ys, i + 1) == LinkAt(xs, m + 1);
      } else {
        assert LinkAt(ys, i + 1) == LinkAt(xs, k + 1);
      }
    }
  }

  // --------------------------------------------------------------- invariant

  ghost predicate Shape(h: Heap) {
    && |h.prs| == NPAGEREFS && |h.inuse| == INUSE_WORDS && |h.bases| == NSIZES && |h.chains| == NSIZES
    && Typed(h.pages)
  }

  ghost predicate Typed(pages: map<nat, Page>) {
    forall j :: j in pages ==> j < NPAGEREFS && pages[j].typ < NSIZES
  }

  ghost predicate FramesApart(pages: map<nat, Page>) {
    forall i, j :: i in pages && j in pages && i != j ==> pages[i].frame != pages[j].frame
  }

  /** allbase lists exactly the records in use; the size lists split them by type. */
  ghost predicate ListsOk(h: Heap)
    requires Shape(h)
  {
    && Linked(h.prs, All, h.allbase, h.all)
    && (forall j :: j in h.all <==> j in h.pages)
    && (forall j :: 0 <= j < NPAGEREFS ==> (InUse(h.inuse, j) <==> j in h.pages))
    && (forall t :: 0 <= t < NSIZES ==> Linked(h.prs, Same, h.bases[t], h.chains[t]))
    && (forall t, j :: 0 <= t < NSIZES ==> (j in h.chains[t] <==> j in h.pages && h.pages[j].typ == t))
  }

  /** Managed pages are addressable and distinct, and their packed words decode. */
  ghost predicate PagesOk(h: Heap)
    requires Shape(h)
  {
    && (forall j :: j in h.pages ==>
         && h.prs[j].pab == Pack(h.pages[j].Base(), h.pages[j].typ)
         && 0 < h.pages[j].frame && h.pages[j].Base() + PAGE_SIZE <= TWO_TO_32)
    && FramesApart(h.pages)
  }

  function OffsetOrNone(t: nat, fl: seq<nat>): nat
    requires t < NSIZES
  {
    if fl == [] then INVALID_OFFSET else Offset(t, fl[0])
  }

  /** The address of the `k`-th block of a free list, null past its end. */
  function AddrAt(g: Page, k: nat): nat
    requires g.typ < NSIZES
  {
    if k < |g.free| then g.Addr(g.free[k]) else 0
  }

  /** The `k`-th free block is a block of the page, and its first word leads to
      the next one. */
  ghost predicate LinkOk(mem: map<int, int>, g: Page, k: nat)
    requires g.typ < NSIZES && k < |g.free|
  {
    g.free[k] < COUNTS[g.typ] && AddrAt(g, k) in mem && mem[AddrAt(g, k)] == AddrAt(g, k + 1)
  }

  /** The free list of a page: distinct blocks of the page, threaded through
      their own first words and ended by a null pointer. */
  ghost predicate Threaded(mem: map<int, int>, g: Page, off: nat)
    requires g.typ < NSIZES
  {
    && Distinct(g.free)
    && off == OffsetOrNone(g.typ, g.free)
    && forall k :: 0 <= k < |g.free| ==> LinkOk(mem, g, k)
  }

  ghost predicate FreeOk(h: Heap)
    requires Shape(h)
  {
    forall j :: j in h.pages ==>
      && h.prs[j].nfree == |h.pages[j].free|
      && Threaded(h.mem, h.pages[j], h.prs[j].freeOffset)
  }

  ghost predicate SubOk(pages: map<nat, Page>, a: int, o: Owner)
    requires o.Sub? && Typed(pages)
  {
    && o.ref in pages
    && o.index < COUNTS[pages[o.ref].typ]
    && o.index !in pages[o.ref].free
    && a == pages[o.ref].Addr(o.index)
    && o.size <= SIZES[pages[o.ref].typ]
  }

  ghost predicate RunOk(pages: map<nat, Page>, a: int, o: Owner)
    requires o.Run?
  {
    && a == o.frame * PAGE_SIZE && 0 < o.frame && 0 < o.npages && (o.frame + o.npages) * PAGE_SIZE <= TWO_TO_32
    && o.size <= o.npages * PAGE_SIZE
    && (forall j :: j in pages ==> Apart(o.frame, o.npages, pages[j].frame, 1))
  }

  predicate Apart(a: int, n: int, b: int, m: int) {
    a + n <= b || b + m <= a
  }

  /** Every block of a managed page is either on its free list or live, every
      live block is one of these or a run of whole pages, and runs are apart. */
  ghost predicate LiveOk(pages: map<nat, Page>, live: map<int, Owner>)
    requires Typed(pages)
  {
    && (forall a :: a in live ==> if live[a].Sub? then SubOk(pages, a, live[a]) else RunOk(pages, a, live[a]))
    && (forall j, i :: j in pages && 0 <= i < COUNTS[pages[j].typ] && i !in pages[j].free ==>
         pages[j].Addr(i) in live && live[pages[j].Addr(i)].Sub?)
    && (forall a, b :: a in live && b in live && a != b && live[a].Run? && live[b].Run? ==>
         Apart(live[a].frame, live[a].npages, live[b].frame, live[b].npages))
  }

  /** The invariant, but for pages that are wholly free. */
  ghost predicate Core(h: Heap) {
    Shape(h) && ListsOk(h) && PagesOk(h) && FreeOk(h) && LiveOk(h.pages, h.live)
  }

  /** No managed page is wholly free: such pages go back to the page allocator. */
  ghost predicate NoIdlePage(h: Heap)
    requires Shape(h)
  {
    forall j :: j in h.pages ==> |h.pages[j].free| < COUNTS[h.pages[j].typ]
  }

  ghost predicate Inv(h: Heap) {
    Core(h) && NoIdlePage(h)
  }

  // ----------------------------------------------------- what it guarantees

  /** The packed word decodes to what was stored. */
  lemma DecodeRecord(h: Heap, j: nat)
    requires Core(h) && j in h.pages
    ensures PageAddr(h.prs[j]) == h.pages[j].Base() > 0 && BlockType(h.prs[j]) == h.pages[j].typ
  {
    hide ListsOk, FreeOk, LiveOk;
  }

  /** The bytes set aside for a live block. */
  function Extent(h: Heap, o: Owner): nat
    requires o.Sub? ==> o.ref in h.pages && h.pages[o.ref].typ < NSIZES
  {
    if o.Sub? then SIZES[h.pages[o.ref].typ] else o.npages * PAGE_SIZE
  }

  /** Live blocks are pairwise disjoint and at least as big as what was asked for. */
  lemma LiveBlocksDisjoint(h: Heap, a: int, b: int)
    requires Core(h) && a in h.live && b in h.live && a != b
    ensures Apart(a, Extent(h, h.live[a]), b, Extent(h, h.live[b]))
    ensures h.live[a].size <= Extent(h, h.live[a])
  {
    hide ListsOk, FreeOk;
    match (h.live[a], h.live[b]) {
      case (Sub(j, i, _), Sub(k, m, _)) =>
        OffsetInPage(h.pages[j].typ, i);
        OffsetInPage(h.pages[k].typ, m);
        if j == k {
          if i < m {
            OffsetsApart(h.pages[j].typ, i, m);
          } else {
            OffsetsApart(h.pages[j].typ, m, i);
          }
        }
      case (Sub(j, i, _), Run(_, _, _)) =>
        OffsetInPage(h.pages[j].typ, i);
      case (Run(_, _, _), Sub(k, m, _)) =>
        OffsetInPage(h.pages[k].typ, m);
      case (Run(_, _, _), Run(_, _, _)) =>
    }
  }

  /** A live small block lies inside one managed page, a whole number of blocks
      from its start; the page's record says where the page is. */
  lemma LiveBlockPlacement(h: Heap, a: int)
    requires Core(h) && a in h.live && h.live[a].Sub?
    ensures var o := h.live[a]; var p, s := h.prs[o.ref], Extent(h, o);
      && PageAddr(p) <= a && a + s <= PageAddr(p) + PAGE_SIZE
      && a == PageAddr(p) + o.index * s
      && BlockType(p) < NSIZES && s == SIZES[BlockType(p)]
  {
    hide ListsOk, FreeOk, PagesOk, PageAddr, BlockType, Offset;
    var o := h.live[a];
    assert SubOk(h.pages, a, o);
    DecodeRecord(h, o.ref);
    OffsetInPage(h.pages[o.ref].typ, o.index);
    OffsetIsProduct(h.pages[o.ref].typ, o.index);
  }

  /** A live run is made of whole pages, starts with its first one and holds what
      was asked for. */
  lemma LiveRunPlacement(h: Heap, a: int)
    requires Core(h) && a in h.live && h.live[a].Run?
    ensures var o := h.live[a];
      && a == o.frame * PAGE_SIZE && Extent(h, o) == o.npages * PAGE_SIZE && o.size <= o.npages * PAGE_SIZE
      && forall j :: j in h.pages ==> Apart(a, Extent(h, o), h.pages[j].Base(), PAGE_SIZE)
  {
    hide ListsOk, FreeOk, PagesOk;
    assert RunOk(h.pages, a, h.live[a]);
  }

  ghost function Elements(xs: seq<nat>): set<nat> {
    set x | x in xs
  }

  lemma {:induction false} DistinctCount(xs: seq<nat>)
    requires Distinct(xs)
    ensures |Elements(xs)| == |xs|
  {
    if xs != [] {
      var ys, z := xs[..|xs| - 1], xs[|xs| - 1];
      assert xs == ys + [z];
      DistinctCount(ys);
      assert z !in Elements(ys);
      assert Elements(xs) == Elements(ys) + {z};
    }
  }

  /** The indices of the live blocks of page `j`. */
  ghost function LiveIndices(h: Heap, j: nat): set<nat>
    requires j in h.pages && h.pages[j].typ < NSIZES
  {
    set i: nat | i < COUNTS[h.pages[j].typ] && h.pages[j].Addr(i) in h.live
  }

  /** A block is live exactly when it is not on its page's free list, and then
      it is known by its own page and index. */
  lemma LiveIffNotFree(pages: map<nat, Page>, live: map<int, Owner>, j: nat, i: nat)
    requires Typed(pages) && FramesApart(pages) && LiveOk(pages, live)
    requires j in pages && i < COUNTS[pages[j].typ]
    ensures pages[j].Addr(i) in live <==> i !in pages[j].free
    ensures pages[j].Addr(i) in live ==>
              var o := live[pages[j].Addr(i)]; o.Sub? && o.ref == j && o.index == i
  {
    var t := pages[j].typ;
    var a := pages[j].Addr(i);
    Tables(t);
    OffsetInPage(t, i);
    if a in live {
      var o := live[a];
      if o.Sub? {
        Tables(pages[o.ref].typ);
        OffsetInPage(pages[o.ref].typ, o.index);
        assert o.ref == j;
        if o.index < i {
          OffsetsApart(t, o.index, i);
        } else if i < o.index {
          OffsetsApart(t, i, o.index);
        }
      }
    }
  }

  lemma CoreParts(h: Heap)
    requires Core(h)
    ensures Typed(h.pages) && FramesApart(h.pages) && LiveOk(h.pages, h.live)
  {
  }

  lemma FreeList(h: Heap, j: nat)
    requires Core(h) && j in h.pages
    ensures Threaded(h.mem, h.pages[j], h.prs[j].freeOffset) && h.prs[j].nfree == |h.pages[j].free|
    ensures Distinct(h.pages[j].free)
    ensures forall i :: i in h.pages[j].free ==> i < COUNTS[h.pages[j].typ]
  {
    hide ListsOk, LiveOk, PagesOk, Offset;
    forall i | i in h.pages[j].free
      ensures i < COUNTS[h.pages[j].typ]
    {
      var k :| 0 <= k < |h.pages[j].free| && h.pages[j].free[k] == i;
      assert LinkOk(h.mem, h.pages[j], k);
    }
  }

  /** A set that is the complement of a duplicate-free list below `n`. */
  lemma ComplementCount(n: nat, rest: set<nat>, xs: seq<nat>)
    requires Distinct(xs) && forall i :: i in xs ==> i < n
    requires forall i: nat :: i in rest <==> i < n && i !in xs
    ensures |rest| + |xs| == n
  {
    DistinctCount(xs);
    assert rest == Below(n) - Elements(xs);
    assert Elements(xs) <= Below(n);
  }

  /** Page conservation: live blocks and free blocks of a page add up to the page. */
  lemma PageConservation(h: Heap, j: nat)
    requires Core(h) && j in h.pages
    ensures |LiveIndices(h, j)| + h.prs[j].nfree == COUNTS[h.pages[j].typ]
  {
    FreeList(h, j);
    CoreParts(h);
    hide Core, Threaded, Offset, Distinct, LiveOk, FramesApart, Typed;
    forall i: nat | i < COUNTS[h.pages[j].typ]
      ensures i in LiveIndices(h, j) <==> i !in h.pages[j].free
    {
      LiveIffNotFree(h.pages, h.live, j, i);
    }
    ComplementCount(COUNTS[h.pages[j].typ], LiveIndices(h, j), h.pages[j].free);
  }
}
