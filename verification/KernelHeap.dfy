/** The kernel's malloc and free (kern/lib/kheap.c).

    `alloc_kpages` and `free_kpages` belong to the virtual memory system: the
    page address it answers with is a parameter of `KMalloc`, and the page
    address given back to it is the result of `KFree`. Both use 0 for "none". */
module KernelHeap {
  import opened Basics
  import opened HeapModel
  import opened HeapSteps

  const ALL_BITS: Word := seq(32, _ => true)

  /** Whole pages that `kmalloc` asks for; `sz + 4095` wraps at 32 bits. */
  function PagesAsked(sz: nat): nat {
    if sz >= LARGEST_SUBPAGE_SIZE then (sz + PAGE_SIZE - 1) % TWO_TO_32 / PAGE_SIZE else 1
  }

  /** A run of whole pages covers the request exactly when the rounding did not
      wrap, and then no page too many is asked for; when it did, none at all is. */
  lemma RoundingCovers(sz: nat)
    requires 2048 <= sz < TWO_TO_32
    ensures sz <= PagesAsked(sz) * 4096 <==> sz + 4095 < TWO_TO_32
    ensures PagesAsked(sz) == 0 <==> sz + PAGE_SIZE - 1 >= TWO_TO_32
    ensures PagesAsked(sz) > 0 ==> (PagesAsked(sz) - 1) * 4096 < sz
  {
  }

  /** What the page allocator promises: no page, or a page-aligned run inside the
      address space that overlaps nothing the heap manages or has handed out. */
  ghost predicate Grant(h: Heap, page: nat, npages: nat) {
    page == 0 || (page % PAGE_SIZE == 0 && page + npages * PAGE_SIZE <= TWO_TO_32
                  && Fresh(h.pages, h.live, page / PAGE_SIZE, npages))
  }

  /** The words of every block that is live in `h` and in `live` are as they were. */
  ghost predicate ContentsKept(h: Heap, live: map<int, Owner>, mem': map<int, int>)
    requires Core(h)
  {
    forall b, x {:trigger b in live, x in mem'} :: b in live && b in h.live && b <= x < b + Extent(h, h.live[b]) ==>
      (x in h.mem <==> x in mem') && (x in h.mem ==> mem'[x] == h.mem[x])
  }

  /** The least block type that is large enough. */
  ghost function TypeFor(sz: nat): (t: nat)
    requires sz <= LARGEST_SUBPAGE_SIZE
    ensures t < NSIZES && sz <= SIZES[t]
    ensures forall k :: 0 <= k < t ==> SIZES[k] < sz
  {
    assert sz <= SIZES[7];
    LeastType(sz, 0)
  }

  ghost function LeastType(sz: nat, from: nat): (t: nat)
    requires sz <= SIZES[7] && from < NSIZES && forall k :: 0 <= k < from ==> SIZES[k] < sz
    ensures t < NSIZES && sz <= SIZES[t]
    ensures forall k :: 0 <= k < t ==> SIZES[k] < sz
    decreases NSIZES - from
  {
    if sz <= SIZES[from] then from else LeastType(sz, from + 1)
  }

  method BlockTypeFor(sz: nat) returns (t: nat)
    requires sz <= LARGEST_SUBPAGE_SIZE
    ensures t == TypeFor(sz)
  {
    t := 0;
    while sz > SIZES[t]
      invariant t < NSIZES
      invariant forall k :: 0 <= k < t ==> SIZES[k] < sz
      decreases NSIZES - t
    {
      t := t + 1;
    }
  }

  /** Pages stay where they are and keep their type. */
  ghost predicate SamePlaces(before: map<nat, Page>, after: map<nat, Page>) {
    forall j :: j in before && j in after ==> after[j].frame == before[j].frame && after[j].typ == before[j].typ
  }

  ghost predicate AllFull(pages: map<nat, Page>, t: nat) {
    forall j :: j in pages && pages[j].typ == t ==> pages[j].free == []
  }

  /** No page is lost, and the only new one is the granted page, which is asked
      for only when the pages of the type are full. */
  ghost predicate Gained(before: map<nat, Page>, after: map<nat, Page>, page: nat, t: nat) {
    && before.Keys <= after.Keys && SamePlaces(before, after)
    && forall j :: j in after && j !in before ==> after[j].Base() == page && AllFull(before, t)
  }

  /** Word `k` from `ptr` on is the filler. */
  predicate DeadAt(mem: map<int, int>, ptr: int, k: nat) {
    ptr + 4 * k in mem && mem[ptr + 4 * k] == 0xdead_beef
  }

  lemma SameGained(pages: map<nat, Page>, page: nat, t: nat)
    ensures Gained(pages, pages, page, t)
  {
  }

  lemma GainedTake(before: map<nat, Page>, after: map<nat, Page>, page: nat, t: nat, j: nat)
    requires Gained(before, after, page, t) && j in after && after[j].free != []
    ensures Gained(before, after[j := after[j].(free := after[j].free[1..])], page, t)
  {
  }

  lemma StillDead(mem: map<int, int>, mem': map<int, int>, ptr: int, lo: nat, hi: nat, x: int)
    requires forall k :: lo <= k < hi ==> DeadAt(mem, ptr, k)
    requires x < ptr + 4 * lo || ptr + 4 * hi <= x
    requires x in mem' && mem' == mem[x := mem'[x]]
    ensures forall k :: lo <= k < hi ==> DeadAt(mem', ptr, k)
  {
    forall k | lo <= k < hi ensures DeadAt(mem', ptr, k) {
      assert DeadAt(mem, ptr, k);
    }
  }

  class Allocator {
    const pagerefs: array<PageRef>
    const inuse: array<Word>
    const sizebases: array<Link>
    var allbase: Link
    var mem: map<int, int>

    ghost var all: seq<nat>
    ghost var chains: seq<seq<nat>>
    ghost var pages: map<nat, Page>
    ghost var live: map<int, Owner>

    ghost function View(): Heap
      reads this, pagerefs, inuse, sizebases
    {
      Heap(pagerefs[..], inuse[..], sizebases[..], allbase, mem, all, chains, pages, live)
    }

    ghost predicate Valid()
      reads this, pagerefs, inuse, sizebases
    {
      Inv(View())
    }

    constructor ()
      ensures Valid() && live == map[] && pages == map[] && mem == map[]
      ensures fresh(pagerefs) && fresh(inuse) && fresh(sizebases)
    {
      pagerefs := new PageRef[NPAGEREFS](_ => PageRef(Nil, Nil, 0, 0, 0));
      inuse := new Word[INUSE_WORDS](_ => seq(32, _ => false));
      sizebases := new Link[NSIZES](_ => Nil);
      allbase := Nil;
      mem, all, pages, live := map[], [], map[], map[];
      chains := seq(NSIZES, _ => []);
    }

    /** The first record whose in-use bit is clear, now marked in use. */
    method AllocPageRef() returns (r: Link)
      requires inuse.Length == INUSE_WORDS
      modifies inuse
      ensures r.Nil? ==> inuse[..] == old(inuse[..]) && forall j :: 0 <= j < NPAGEREFS ==> InUse(inuse[..], j)
      ensures r.To? ==>
        && r.ref < NPAGEREFS && !InUse(old(inuse[..]), r.ref)
        && (forall j :: 0 <= j < r.ref ==> InUse(old(inuse[..]), j))
        && inuse[..] == SetUse(old(inuse[..]), r.ref, true)
    {
      var i := 0;
      while i < INUSE_WORDS
        invariant 0 <= i <= INUSE_WORDS && inuse[..] == old(inuse[..])
        invariant forall j :: 0 <= j < i * 32 ==> InUse(inuse[..], j)
      {
        if inuse[i] != ALL_BITS {
          var j := 0;
          while j < 32
            invariant 0 <= j <= 32 && inuse[..] == old(inuse[..])
            invariant forall b :: 0 <= b < j ==> inuse[i][b]
          {
            if !inuse[i][j] {
              inuse[i] := inuse[i][j := true];
              assert (i * 32 + j) / 32 == i && (i * 32 + j) % 32 == j;
              return To(i * 32 + j);
            }
            j := j + 1;
          }
          assert false;
        }
        i := i + 1;
      }
      return Nil;
    }

    method FreePageRef(p: nat)
      requires inuse.Length == INUSE_WORDS && p < NPAGEREFS && InUse(inuse[..], p)
      modifies inuse
      ensures inuse[..] == SetUse(old(inuse[..]), p, false)
    {
      inuse[p / 32] := inuse[p / 32][p % 32 := false];
    }

    function Base(w: Which, t: nat): Link
      requires t < sizebases.Length
      reads this, sizebases
    {
      if w == Same then sizebases[t] else allbase
    }

    /** Walk a list to `pr`; the result says which pointer leads to it: the list
        head (`Nil`) or the link of a record. */
    method FindPointer(w: Which, t: nat, pr: nat, ghost xs: seq<nat>, ghost at: nat) returns (prev: Link)
      requires pagerefs.Length == NPAGEREFS && sizebases.Length == NSIZES && t < NSIZES
      requires Linked(pagerefs[..], w, Base(w, t), xs) && at < |xs| && xs[at] == pr
      ensures prev == if at == 0 then Nil else To(xs[at - 1])
    {
      var cur := Base(w, t);
      prev := Nil;
      ghost var k := 0;
      while cur != Nil && cur.ref != pr
        invariant 0 <= k <= at && cur == LinkAt(xs, k)
        invariant prev == if k == 0 then Nil else To(xs[k - 1])
        decreases at - k
      {
        prev, cur := cur, Next(pagerefs[cur.ref], w);
        k := k + 1;
      }
    }

    /** Remove `pr` from one of its two lists by redirecting the pointer that
        leads to it. */
    method Unlink(w: Which, t: nat, pr: nat, ghost xs: seq<nat>, ghost at: nat)
      requires pagerefs.Length == NPAGEREFS && sizebases.Length == NSIZES && t < NSIZES
      requires Linked(pagerefs[..], w, Base(w, t), xs) && at < |xs| && xs[at] == pr
      modifies this`allbase, pagerefs, sizebases
      ensures Linked(pagerefs[..], w, Base(w, t), Without(xs, at))
      ensures w == Same ==> allbase == old(allbase) && forall u :: 0 <= u < NSIZES && u != t ==> sizebases[u] == old(sizebases[u])
      ensures w == All ==> sizebases[..] == old(sizebases[..])
      ensures forall j :: 0 <= j < NPAGEREFS ==>
        && pagerefs[j] == WithNext(old(pagerefs[j]), w, Next(pagerefs[j], w))
        && (j !in xs ==> pagerefs[j] == old(pagerefs[j]))
    {
      var prev := FindPointer(w, t, pr, xs, at);
      var next := Next(pagerefs[pr], w);
      if prev.To? {
        pagerefs[prev.ref] := WithNext(pagerefs[prev.ref], w, next);
      } else if w == Same {
        sizebases[t] := next;
      } else {
        allbase := next;
      }
      LinkedRemove(old(pagerefs[..]), pagerefs[..], w, old(Base(w, t)), Base(w, t), xs, at);
    }

    /** Hand out the first free block of record `j` (the `doalloc` part). */
    method TakeFrom(j: nat, sz: nat) returns (ptr: int)
      requires Core(View()) && j in pages && pagerefs[j].nfree > 0 && sz <= SIZES[pages[j].typ]
      modifies this, pagerefs
      ensures old(pages[j].free != [])
      ensures ptr == old(pages[j].Addr(pages[j].free[0]))
      ensures View() == Take(old(View()), j, sz)
    {
      hide Core, Shape, Offset, PageAddr, AddrAt, Typed;
      ghost var h := View();
      ghost var g := pages[j];
      CoreShape(h);
      TakeFacts(h, j);
      var p := pagerefs[j];
      var prpage := PageAddr(p);
      assert p.freeOffset < PAGE_SIZE;
      ptr := prpage + p.freeOffset;
      var next := mem[ptr];
      if next != 0 {
        assert p.nfree - 1 > 0;
        assert 0 <= next - prpage < PAGE_SIZE;
        pagerefs[j] := p.(nfree := p.nfree - 1, freeOffset := next - prpage);
      } else {
        assert p.nfree - 1 == 0;
        pagerefs[j] := p.(nfree := p.nfree - 1, freeOffset := INVALID_OFFSET);
      }
      live := live[ptr := Sub(j, g.free[0], sz)];
      pages := pages[j := g.(free := g.free[1..])];
      assert pagerefs[..] == Take(h, j, sz).prs;
    }

    /** The first record of a size list with a free block. */
    method FindRoom(t: nat) returns (r: Link)
      requires Core(View()) && t < NSIZES
      ensures r.Nil? ==> forall j :: j in pages && pages[j].typ == t ==> pages[j].free == []
      ensures r.To? ==> r.ref in pages && pages[r.ref].typ == t && pagerefs[r.ref].nfree > 0
    {
      hide Core, InUse, Linked;
      ghost var h := View();
      CoreShape(h);
      ChainOf(h, t);
      r := sizebases[t];
      ghost var xs, k := chains[t], 0;
      while r.To? && pagerefs[r.ref].nfree == 0
        invariant 0 <= k <= |xs| && r == LinkAt(xs, k)
        invariant forall m :: 0 <= m < k ==> h.prs[xs[m]].nfree == 0
        decreases |xs| - k
      {
        r := pagerefs[r.ref].nextSame;
        k := k + 1;
      }
      forall j | r.Nil? && j in pages && pages[j].typ == t
        ensures pages[j].free == []
      {
        assert j in xs;
        FreeList(h, j);
      }
      assert r.To? ==> r.ref in xs;
    }

    /** Thread the blocks of a page, the last one first. */
    method Carve(page: nat, t: nat)
      requires t < NSIZES && page % PAGE_SIZE == 0
      modifies this`mem
      ensures WritesOnly(old(mem), mem, page, PAGE_SIZE)
      ensures Carved(mem, page / PAGE_SIZE, t, COUNTS[t])
    {
      Tables(t);
      mem := mem[page := 0];
      assert CarvedAt(mem, page / PAGE_SIZE, t, 0);
      var i := 1;
      while i < COUNTS[t]
        invariant 1 <= i <= COUNTS[t]
        invariant WritesOnly(old(mem), mem, page, PAGE_SIZE)
        invariant Carved(mem, page / PAGE_SIZE, t, i)
      {
        CarveStep(old(mem), mem, page / PAGE_SIZE, t, i);
        mem := mem[page + i * SIZES[t] := page + (i - 1) * SIZES[t]];
        i := i + 1;
      }
    }

    /** Bring in a fresh page of type `t`. Without a free record or without a
        page nothing changes. */
    method AddPage(t: nat, page: nat) returns (r: Link)
      requires Core(View()) && t < NSIZES && Grant(View(), page, 1)
      modifies this, pagerefs, inuse, sizebases
      ensures r.Nil? ==> View() == old(View()) && (page == 0 || forall j :: 0 <= j < NPAGEREFS ==> j in pages)
      ensures r.To? ==>
        && page != 0 && COUNTS[t] > 0 && r.ref < NPAGEREFS && r.ref !in old(pages)
        && InsertReady(old(View()), r.ref, page / PAGE_SIZE, t, mem)
        && View() == Insert(old(View()), r.ref, page / PAGE_SIZE, t, mem)
    {
      ghost var h := View();
      CoreShape(h);
      Tables(t);
      InUseIsManaged(h);
      hide Core, InUse, LiveOk, Offset, WritesOnly, Carved, Fresh;
      r := AllocPageRef();
      if r.Nil? {
        return;
      }
      var p := r.ref;
      if page == 0 {
        FreePageRef(p);
        SetAndClear(h.inuse, p);
        r := Nil;
        return;
      }
      Carve(page, t);
      LinkPage(t, p, page);
      assert page / PAGE_SIZE * PAGE_SIZE == page;
    }

    /** Fill in record `p` for a carved page and put it at the head of its lists. */
    method LinkPage(t: nat, p: nat, page: nat)
      requires |chains| == sizebases.Length == NSIZES && pagerefs.Length == NPAGEREFS && t < NSIZES && p < NPAGEREFS && COUNTS[t] > 0
      modifies this`allbase, this`all, this`chains, this`pages, pagerefs, sizebases
      ensures pagerefs[..] ==
        old(pagerefs[..])[p := PageRef(old(sizebases[t]), old(allbase), Pack(page, t), Offset(t, COUNTS[t] - 1), COUNTS[t])]
      ensures sizebases[..] == old(sizebases[..])[t := To(p)] && allbase == To(p)
      ensures all == [p] + old(all) && chains == old(chains)[t := [p] + old(chains)[t]]
      ensures pages == old(pages)[p := Page(page / PAGE_SIZE, t, Downto(COUNTS[t]))]
    {
      OffsetIsProduct(t, COUNTS[t] - 1);
      pagerefs[p] := PageRef(sizebases[t], allbase, Pack(page, t), (COUNTS[t] - 1) * SIZES[t], COUNTS[t]);
      sizebases[t] := To(p);
      allbase := To(p);
      all, chains := [p] + all, chains[t := [p] + chains[t]];
      pages := pages[p := Page(page / PAGE_SIZE, t, Downto(COUNTS[t]))];
    }

    /** A record of type `t` with a free block: one that has it, else a fresh page. */
    method RoomFor(t: nat, page: nat) returns (r: Link)
      requires Valid() && t < NSIZES && Grant(View(), page, 1)
      modifies this, pagerefs, inuse, sizebases
      ensures Core(View()) && live == old(live)
      ensures r.Nil? <==>
        && (forall j :: j in old(pages) && old(pages)[j].typ == t ==> old(pages)[j].free == [])
        && (page == 0 || forall j :: 0 <= j < NPAGEREFS ==> j in old(pages))
      ensures r.Nil? ==> View() == old(View())
      ensures r.To? ==> r.ref in pages && pages[r.ref].typ == t && pagerefs[r.ref].nfree > 0
      ensures r.To? ==> forall k :: k in pages && k != r.ref ==> k in old(pages) && pages[k] == old(pages)[k]
      ensures Gained(old(pages), pages, page, t)
      ensures ContentsKept(old(View()), old(live), mem)
    {
      hide Core, Offset, Fresh, InsertReady, Extent, ContentsKept, Pack, SetUse, Downto;
      ghost var h := View();
      SameContents(h);
      CoreShape(h);
      r := FindRoom(t);
      if r.To? {
        HasRoom(h, r.ref);
        return;
      }
      r := AddPage(t, page);
      if r.To? {
        FreshPage(h, r.ref, page / PAGE_SIZE, t, mem);
        CoreShape(View());
      }
    }

    /** A block of the least sufficient size, from a page with room or, when there
        is none, from a fresh page. */
    method SubpageMalloc(sz: nat, page: nat) returns (ptr: int)
      requires Valid() && sz <= LARGEST_SUBPAGE_SIZE && Grant(View(), page, 1)
      modifies this, pagerefs, inuse, sizebases
      ensures Valid()
      ensures ptr == 0 <==>
        && (forall j :: j in old(pages) && old(pages)[j].typ == TypeFor(sz) ==> old(pages)[j].free == [])
        && (page == 0 || forall j :: 0 <= j < NPAGEREFS ==> j in old(pages))
      ensures ptr == 0 ==> View() == old(View())
      ensures ptr != 0 ==>
        && ptr !in old(live) && ptr in live && live == old(live)[ptr := live[ptr]]
        && live[ptr].Sub? && live[ptr].size == sz
        && live[ptr].ref in pages && pages[live[ptr].ref].typ == TypeFor(sz)
        && ContentsKept(old(View()), old(live), mem)
      ensures Gained(old(pages), pages, page, TypeFor(sz))
    {
      hide Core, Offset, Fresh, Extent, ContentsKept, NoIdlePage, Gained;
      ghost var h := View();
      SameGained(h.pages, page, TypeFor(sz));
      var t := BlockTypeFor(sz);
      var r := RoomFor(t, page);
      if r.Nil? {
        ptr := 0;
        return;
      }
      ghost var h1 := View();
      CoreShape(h1);
      TakeFacts(h1, r.ref);
      NoIdleAfterTake(h, h1, r.ref, sz);
      GainedTake(h.pages, h1.pages, page, t, r.ref);
      ptr := TakeFrom(r.ref, sz);
    }

    /** The record whose page contains `ptr`, if any. */
    method FindPage(ptr: int) returns (r: Link)
      requires Core(View())
      ensures r.Nil? ==> forall j :: j in pages ==> ptr < pages[j].Base() || pages[j].Base() + PAGE_SIZE <= ptr
      ensures r.To? ==> r.ref in pages && pages[r.ref].Base() <= ptr < pages[r.ref].Base() + PAGE_SIZE
    {
      ghost var h := View();
      hide FreeOk, LiveOk, InUse, PagesOk, PageAddr;
      r := allbase;
      ghost var k := 0;
      while r.To?
        invariant 0 <= k <= |all| && r == LinkAt(all, k)
        invariant forall m :: 0 <= m < k ==> ptr < pages[all[m]].Base() || pages[all[m]].Base() + PAGE_SIZE <= ptr
        decreases |all| - k
      {
        assert r.ref in all;
        DecodeRecord(h, r.ref);
        var prpage := PageAddr(pagerefs[r.ref]);
        if prpage <= ptr < prpage + PAGE_SIZE {
          return;
        }
        r := pagerefs[r.ref].nextAll;
        k := k + 1;
      }
    }

    /** Every word of the block becomes 0xdeadbeef, and no other word changes. */
    method FillDeadbeef(ptr: int, len: nat)
      modifies this`mem
      ensures WritesOnly(old(mem), mem, ptr, len)
      ensures forall k :: 0 <= k < len / 4 ==> DeadAt(mem, ptr, k)
    {
      var i := 0;
      while i < len / 4
        invariant 0 <= i <= len / 4
        invariant WritesOnly(old(mem), mem, ptr, len)
        invariant forall k :: 0 <= k < i ==> DeadAt(mem, ptr, k)
      {
        ghost var was := mem;
        mem := mem[ptr + 4 * i := DEADBEEF];
        StillDead(was, mem, ptr, 0, i, ptr + 4 * i);
        i := i + 1;
      }
    }

    /** Push a live block of record `j` on the free list of its page. */
    method PutBack(j: nat, ptr: int)
      requires Core(View()) && ptr in live && live[ptr].Sub? && live[ptr].ref == j
      modifies this, pagerefs
      ensures PutWrites(old(View()), ptr, mem)
      ensures View() == Put(old(View()), ptr, mem)
      ensures forall k :: 1 <= k < SIZES[old(pages)[j].typ] / 4 ==> DeadAt(mem, ptr, k)
    {
      hide Core, Offset, PageAddr, BlockType, OffsetOrNone, AddrAt;
      ghost var h := View();
      CoreShape(h);
      PutFacts(h, ptr);
      ghost var g, i := pages[j], live[ptr].index;
      var p := pagerefs[j];
      var prpage, t := PageAddr(p), BlockType(p);
      FillDeadbeef(ptr, SIZES[t]);
      ghost var filled := mem;
      var offset := ptr - prpage;
      assert offset < PAGE_SIZE;
      if p.freeOffset == INVALID_OFFSET {
        mem := mem[ptr := 0];
      } else {
        mem := mem[ptr := prpage + p.freeOffset];
      }
      StillDead(filled, mem, ptr, 1, SIZES[t] / 4, ptr);
      pagerefs[j] := p.(freeOffset := offset, nfree := p.nfree + 1);
      pages := pages[j := g.(free := [i] + g.free)];
      live := Drop(live, ptr);
      assert pagerefs[..] == Put(h, ptr, mem).prs;
    }

    /** Take record `j` off both its lists. */
    method RemoveLists(j: nat, t: nat, ghost m: nat, ghost k: nat)
      requires pagerefs.Length == NPAGEREFS && |chains| == sizebases.Length == NSIZES && t < NSIZES
      requires m < |chains[t]| && chains[t][m] == j && k < |all| && all[k] == j
      requires Linked(pagerefs[..], All, allbase, all)
      requires forall u :: 0 <= u < NSIZES ==> Linked(pagerefs[..], Same, sizebases[u], chains[u])
      requires forall u, i :: 0 <= u < NSIZES && u != t && i in chains[u] ==> i !in chains[t]
      modifies this`allbase, this`all, this`chains, pagerefs, sizebases
      ensures all == Without(old(all), k) && chains == old(chains)[t := Without(old(chains)[t], m)]
      ensures Linked(pagerefs[..], All, allbase, all)
      ensures forall u :: 0 <= u < NSIZES ==> Linked(pagerefs[..], Same, sizebases[u], chains[u])
      ensures forall i :: 0 <= i < NPAGEREFS ==>
        && pagerefs[i].pab == old(pagerefs[i].pab)
        && pagerefs[i].freeOffset == old(pagerefs[i].freeOffset) && pagerefs[i].nfree == old(pagerefs[i].nfree)
    {
      hide Linked, Without;
      ghost var prs0, bases0 := pagerefs[..], sizebases[..];
      Unlink(Same, t, j, chains[t], m);
      ghost var prs1 := pagerefs[..];
      LinkedFrame(prs0, prs1, All, allbase, all);
      Unlink(All, t, j, all, k);
      ChainsAfter(prs0, prs1, pagerefs[..], bases0, sizebases[..], chains, t, m);
      chains := chains[t := Without(chains[t], m)];
      all := Without(all, k);
    }

    /** Unlink record `j`, whose page is wholly free, and clear its in-use bit. */
    method ReleasePage(j: nat)
      requires Core(View()) && j in pages
      modifies this, pagerefs, inuse, sizebases
      ensures Shape(View()) && Released(old(View()), View(), j)
    {
      hide Core, InUse, BlockType, Offset, Linked, Without, Distinct;
      ghost var h := View();
      CoreShape(h);
      DecodeRecord(h, j);
      InUseIsManaged(h);
      ListsLinked(h);
      ghost var m, k := ListPositions(h, j);
      RemoveLists(j, BlockType(pagerefs[j]), m, k);
      FreePageRef(j);
      pages := pages - {j};
    }

    /** Free a block of a managed page; -1 if `ptr` is on no managed page.
        `released` is the page given back, 0 if none. */
    method SubpageFree(ptr: int) returns (code: int, released: int)
      requires Valid() && ptr in live
      modifies this, pagerefs, inuse, sizebases
      ensures Valid()
      ensures code == (if old(live)[ptr].Sub? then 0 else -1)
      ensures code == -1 ==> View() == old(View()) && released == 0
      ensures code == 0 ==> live == Drop(old(live), ptr) && var j := old(live)[ptr].ref;
        && j in old(pages)
        && released == (if j in pages then 0 else old(pages)[j].Base())
        && pages.Keys == (if released == 0 then old(pages).Keys else old(pages).Keys - {j})
        && (released != 0 <==> forall b :: b in live && live[b].Sub? ==> live[b].ref != j)
      ensures code == 0 ==> ContentsKept(old(View()), live, mem)
      ensures SamePlaces(old(pages), pages)
    {
      hide Core, NoIdlePage, Offset, PageAddr, BlockType, ContentsKept;
      ghost var h := View();
      code, released := 0, 0;
      var r := FindPage(ptr);
      OnlyOwnPage(h, ptr);
      if r.Nil? {
        code := -1;
        return;
      }
      var j := r.ref;
      CoreShape(h);
      DecodeRecord(h, j);
      PutFacts(h, ptr);
      var t := BlockType(pagerefs[j]);
      var prpage := PageAddr(pagerefs[j]);
      OffsetAligned(t, live[ptr].index);
      assert (ptr - prpage) % SIZES[t] == 0;
      PutBack(j, ptr);
      ghost var h1 := View();
      PutKeeps(h, ptr, mem);
      PutKeepsContents(h, ptr, mem);
      CoreShape(h1);
      FreeList(h1, j);
      Tables(t);
      IdleIffNoneLive(h1, j);
      assert pagerefs[j].nfree <= PAGE_SIZE / SIZES[t];
      if pagerefs[j].nfree == PAGE_SIZE / SIZES[t] {
        ReleasePage(j);
        released := prpage;
        ReleaseKeeps(h1, View(), j);
      }
      OthersNotIdle(h, h1, View(), j);
    }

    /** malloc. A null result leaves the heap as it was, and comes back only when
        the page allocator had no page or no record was left. Anything else is a
        fresh live block of at least `sz` bytes, unless rounding `sz` up wrapped:
        then no page was asked for and nothing stands behind the address. */
    method KMalloc(sz: nat, page: nat) returns (ptr: int)
      requires Valid() && sz < TWO_TO_32 && Grant(View(), page, PagesAsked(sz))
      modifies this, pagerefs, inuse, sizebases
      ensures Valid()
      ensures ptr == 0 ==> View() == old(View())
      ensures ptr == 0 <==> if sz >= LARGEST_SUBPAGE_SIZE then page == 0 else
        && (forall j :: j in old(pages) && old(pages)[j].typ == TypeFor(sz) ==> old(pages)[j].free == [])
        && (page == 0 || forall j :: 0 <= j < NPAGEREFS ==> j in old(pages))
      ensures ContentsKept(old(View()), old(live), mem)
      ensures ptr != 0 && PagesAsked(sz) > 0 ==>
        && ptr !in old(live) && ptr in live && live == old(live)[ptr := live[ptr]]
        && live[ptr].size == sz <= Extent(View(), live[ptr])
        && (live[ptr].Run? <==> sz >= LARGEST_SUBPAGE_SIZE)
        && (live[ptr].Run? ==>
              live[ptr].frame * PAGE_SIZE == ptr == page && sz <= live[ptr].npages * PAGE_SIZE < sz + PAGE_SIZE)
      ensures PagesAsked(sz) == 0 ==> ptr == page && View() == old(View())
      ensures if sz >= LARGEST_SUBPAGE_SIZE then pages == old(pages) else Gained(old(pages), pages, page, TypeFor(sz))
    {
      SameContents(View());
      if sz >= LARGEST_SUBPAGE_SIZE {
        RoundingCovers(sz);
        ptr := page;
        if ptr != 0 && PagesAsked(sz) > 0 {
          hide Core, Fresh;
          ghost var frame := page / PAGE_SIZE;
          assert frame * PAGE_SIZE == page;
          RunKeeps(View(), frame, PagesAsked(sz), sz);
          live := live[ptr := Run(frame, PagesAsked(sz), sz)];
        }
      } else {
        ptr := SubpageMalloc(sz, page);
        assert ptr != 0 ==> ptr in View().live;
      }
    }

    /** free. A live pointer goes back to the allocator that issued it; the result
        is the page run given back to the page allocator, 0 if none. A managed page
        is given back exactly when its last live block is freed. */
    method KFree(ptr: int) returns (released: int)
      requires Valid() && (ptr == 0 || ptr in live)
      modifies this, pagerefs, inuse, sizebases
      ensures Valid()
      ensures ptr == 0 ==> View() == old(View()) && released == 0
      ensures ptr != 0 ==> live == Drop(old(live), ptr)
      ensures ptr != 0 && old(live)[ptr].Run? ==> released == ptr && pages == old(pages)
      ensures ptr != 0 && old(live)[ptr].Sub? ==> var j := old(live)[ptr].ref;
        && j in old(pages)
        && released == (if j in pages then 0 else old(pages)[j].Base())
        && pages.Keys == (if released == 0 then old(pages).Keys else old(pages).Keys - {j})
        && (released != 0 <==> forall b :: b in live && live[b].Sub? ==> live[b].ref != j)
      ensures SamePlaces(old(pages), pages)
      ensures ContentsKept(old(View()), live, mem)
    {
      SameContents(View());
      if ptr == 0 {
        released := 0;
        return;
      }
      var code;
      code, released := SubpageFree(ptr);
      if code != 0 {
        hide Core;
        RunIsAligned(View(), ptr);
        assert ptr % PAGE_SIZE == 0;
        released := ptr;
        FreeRunKeeps(View(), ptr);
        live := Drop(live, ptr);
      }
    }

    /** A client stores a word inside a live block. */
    method ClientWrite(ptr: int, at: int, v: int)
      requires Valid() && ptr in live && at % 4 == 0
      requires ptr <= at && at + 4 <= ptr + Extent(View(), live[ptr])
      modifies this`mem
      ensures Valid() && mem == old(mem)[at := v]
    {
      hide Core;
      ClientWriteKeeps(View(), ptr, at, v);
      mem := mem[at := v];
    }
  }

  /** The first block of a fresh heap lies on the granted page, and freeing it
      gives that page back. */
  method OneBlock(sz: nat, page: nat) returns (ptr: int, released: int)
    requires sz < LARGEST_SUBPAGE_SIZE && 0 < page && page % PAGE_SIZE == 0 && page + PAGE_SIZE <= TWO_TO_32
    ensures page <= ptr && ptr + sz <= page + PAGE_SIZE && released == page
  {
    hide Core;
    var h := new Allocator();
    ptr := h.KMalloc(sz, page);
    ghost var o := h.live[ptr];
    OnlyOwnPage(h.View(), ptr);
    LiveBlockPlacement(h.View(), ptr);
    DecodeRecord(h.View(), o.ref);
    released := h.KFree(ptr);
  }

  lemma CoreShape(h: Heap)
    requires Core(h)
    ensures |h.prs| == NPAGEREFS && |h.inuse| == INUSE_WORDS && |h.bases| == NSIZES && |h.chains| == NSIZES
    ensures forall j :: j in h.pages ==> j < NPAGEREFS && h.pages[j].typ < NSIZES
  {
  }

  /** The size list of type `t`, record by record. */
  lemma ChainOf(h: Heap, t: nat)
    requires Core(h) && t < NSIZES
    ensures |h.prs| == NPAGEREFS && |h.bases| == |h.chains| == NSIZES
    ensures h.bases[t] == LinkAt(h.chains[t], 0)
    ensures forall k :: 0 <= k < |h.chains[t]| ==>
      h.chains[t][k] < NPAGEREFS && h.prs[h.chains[t][k]].nextSame == LinkAt(h.chains[t], k + 1)
    ensures forall j :: j in h.chains[t] <==> j in h.pages && h.pages[j].typ == t
  {
    hide PagesOk, FreeOk, LiveOk, InUse, Linked, LinkAt;
    CoreShape(h);
    AlongLinks(h.prs, h.bases[t], h.chains[t]);
  }

  lemma AlongLinks(prs: seq<PageRef>, head: Link, xs: seq<nat>)
    requires Linked(prs, Same, head, xs)
    ensures head == LinkAt(xs, 0)
    ensures forall k :: 0 <= k < |xs| ==> xs[k] < |prs| && prs[xs[k]].nextSame == LinkAt(xs, k + 1)
  {
    hide LinkAt, Distinct;
    forall k | 0 <= k < |xs| ensures xs[k] < |prs| && prs[xs[k]].nextSame == LinkAt(xs, k + 1) {
      assert Next(prs[xs[k]], Same) == LinkAt(xs, k + 1);
    }
  }

  /** What the record and the first word of the first free block say. */
  lemma TakeFacts(h: Heap, j: nat)
    requires Core(h) && j in h.pages && h.prs[j].nfree > 0
    ensures j < |h.prs| && h.pages[j].typ < NSIZES && h.prs[j].nfree == |h.pages[j].free|
    ensures var g, p := h.pages[j], h.prs[j];
      && PageAddr(p) == g.Base()
      && p.freeOffset == Offset(g.typ, g.free[0]) < PAGE_SIZE
      && g.Addr(g.free[0]) in h.mem
      && var next := h.mem[g.Addr(g.free[0])];
         if |g.free| == 1 then next == 0
         else next > 0 && next - g.Base() == Offset(g.typ, g.free[1]) < PAGE_SIZE
  {
    hide ListsOk, LiveOk, FreeOk, Threaded, Offset;
    var g := h.pages[j];
    FreeList(h, j);
    DecodeRecord(h, j);
    Tables(g.typ);
    assert g.free[0] in g.free;
    OffsetInPage(g.typ, g.free[0]);
    if |g.free| > 1 {
      assert g.free[1] in g.free;
      OffsetInPage(g.typ, g.free[1]);
    }
    FirstLink(h.mem, g, h.prs[j].freeOffset);
  }

  lemma FirstLink(mem: map<int, int>, g: Page, off: nat)
    requires g.typ < NSIZES && Threaded(mem, g, off) && g.free != []
    ensures off == Offset(g.typ, g.free[0])
    ensures g.Addr(g.free[0]) in mem
    ensures mem[g.Addr(g.free[0])] == if |g.free| == 1 then 0 else g.Addr(g.free[1])
  {
    hide Offset;
    assert LinkOk(mem, g, 0);
  }

  lemma CarveStep(mem0: map<int, int>, mem: map<int, int>, frame: nat, t: nat, i: nat)
    requires t < NSIZES && 1 <= i < COUNTS[t]
    requires WritesOnly(mem0, mem, frame * PAGE_SIZE, PAGE_SIZE) && Carved(mem, frame, t, i)
    ensures var mem' := mem[frame * PAGE_SIZE + i * SIZES[t] := frame * PAGE_SIZE + (i - 1) * SIZES[t]];
      WritesOnly(mem0, mem', frame * PAGE_SIZE, PAGE_SIZE) && Carved(mem', frame, t, i + 1)
  {
    OffsetIsProduct(t, i);
    OffsetIsProduct(t, i - 1);
    OffsetInPage(t, i);
    Tables(t);
    var mem' := mem[frame * PAGE_SIZE + Offset(t, i) := frame * PAGE_SIZE + Offset(t, i - 1)];
    forall k | 0 <= k < i + 1
      ensures CarvedAt(mem', frame, t, k)
    {
      if k < i {
        assert CarvedAt(mem, frame, t, k);
        OffsetsApart(t, k, i);
      }
    }
  }

  lemma InUseIsManaged(h: Heap)
    requires Core(h)
    ensures forall j :: 0 <= j < NPAGEREFS ==> (InUse(h.inuse, j) <==> j in h.pages)
  {
  }

  lemma SetAndClear(words: seq<Word>, p: nat)
    requires |words| == INUSE_WORDS && p < NPAGEREFS && !InUse(words, p)
    ensures SetUse(SetUse(words, p, true), p, false) == words
  {
    assert SetUse(SetUse(words, p, true), p, false)[p / 32] == words[p / 32];
  }

  lemma SameContents(h: Heap)
    requires Core(h)
    ensures ContentsKept(h, h.live, h.mem)
  {
    hide ListsOk, PagesOk, FreeOk, LiveOk;
  }

  /** A fresh page keeps the invariant, has room, and lies outside all live blocks. */
  lemma FreshPage(h: Heap, p: nat, frame: nat, t: nat, mem': map<int, int>)
    requires Core(h) && InsertReady(h, p, frame, t, mem')
    ensures var h' := Insert(h, p, frame, t, mem');
      Core(h') && p in h'.pages && h'.pages[p].typ == t && h'.prs[p].nfree > 0
    ensures ContentsKept(h, h.live, mem')
  {
    InsertKeeps(h, p, frame, t, mem');
    FreshIsOutside(h, frame);
    hide ListsOk, PagesOk, FreeOk, LiveOk, Offset, Pack, Carved, Fresh, Extent;
  }

  lemma FreshIsOutside(h: Heap, frame: nat)
    requires Core(h) && Fresh(h.pages, h.live, frame, 1)
    ensures forall b :: b in h.live ==> Apart(frame * PAGE_SIZE, PAGE_SIZE, b, Extent(h, h.live[b]))
  {
    hide ListsOk, FreeOk;
    forall b | b in h.live
      ensures Apart(frame * PAGE_SIZE, PAGE_SIZE, b, Extent(h, h.live[b]))
    {
      var o := h.live[b];
      if o.Sub? {
        OffsetInPage(h.pages[o.ref].typ, o.index);
      }
    }
  }

  /** Whether a page was just brought in or not, once a block is taken from it
      no managed page is wholly free. */
  lemma NoIdleAfterTake(h: Heap, h1: Heap, j: nat, size: nat)
    requires Core(h) && NoIdlePage(h) && Core(h1) && j in h1.pages && h1.pages[j].free != [] && h1.prs[j].nfree > 0
    requires size <= SIZES[h1.pages[j].typ]
    requires forall k :: k in h1.pages && k != j ==> k in h.pages && h1.pages[k] == h.pages[k]
    ensures Inv(Take(h1, j, size))
    ensures h1.pages[j].Addr(h1.pages[j].free[0]) > 0 && h1.pages[j].Addr(h1.pages[j].free[0]) !in h1.live
  {
    hide ListsOk, PagesOk, FreeOk, LiveOk, Offset, PageAddr, BlockType;
    TakeKeeps(h1, j, size);
    DecodeRecord(h1, j);
  }

  lemma HasRoom(h: Heap, j: nat)
    requires Core(h) && j in h.pages && h.prs[j].nfree > 0
    ensures h.pages[j].free != []
  {
    FreeList(h, j);
  }

  lemma ListPositions(h: Heap, j: nat) returns (m: nat, k: nat)
    requires Core(h) && j in h.pages
    ensures var t := h.pages[j].typ;
      && m < |h.chains[t]| && h.chains[t][m] == j
      && forall u, i :: 0 <= u < NSIZES ==>
           (i in h.chains[t := Without(h.chains[t], m)][u] <==> i in h.chains[u] && i != j)
    ensures k < |h.all| && h.all[k] == j
    ensures forall i :: i in Without(h.all, k) <==> i in h.all && i != j
  {
    hide PagesOk, FreeOk, LiveOk, InUse, Linked, Without, Distinct;
    var t := h.pages[j].typ;
    assert j in h.chains[t] && j in h.all;
    m :| 0 <= m < |h.chains[t]| && h.chains[t][m] == j;
    k :| 0 <= k < |h.all| && h.all[k] == j;
    LinkedDistinct(h.prs, All, h.allbase, h.all);
    LinkedDistinct(h.prs, Same, h.bases[t], h.chains[t]);
    WithoutMember(h.all, k);
    WithoutMember(h.chains[t], m);
  }

  lemma LinkedDistinct(prs: seq<PageRef>, w: Which, head: Link, xs: seq<nat>)
    requires Linked(prs, w, head, xs)
    ensures Distinct(xs)
  {
  }

  lemma ListsLinked(h: Heap)
    requires Core(h)
    ensures Linked(h.prs, All, h.allbase, h.all)
    ensures forall t :: 0 <= t < NSIZES ==> Linked(h.prs, Same, h.bases[t], h.chains[t])
    ensures forall t, u, i :: 0 <= t < NSIZES && 0 <= u < NSIZES && u != t && i in h.chains[u] ==> i !in h.chains[t]
  {
    hide PagesOk, FreeOk, LiveOk, InUse, Linked;
    forall t, u, i | 0 <= t < NSIZES && 0 <= u < NSIZES && u != t && i in h.chains[u]
      ensures i !in h.chains[t]
    {
      assert h.pages[i].typ == u;
    }
  }

  /** Unlinking a record from its size list leaves the other size lists alone. */
  lemma ChainsAfter(prs0: seq<PageRef>, prs1: seq<PageRef>, prs2: seq<PageRef>,
                    bases0: seq<Link>, bases2: seq<Link>, chains: seq<seq<nat>>, t: nat, m: nat)
    requires |prs0| == |prs1| == |prs2| && |bases0| == |bases2| == |chains| == NSIZES && t < NSIZES && m < |chains[t]|
    requires forall u :: 0 <= u < NSIZES && u != t ==> Linked(prs0, Same, bases0[u], chains[u]) && bases2[u] == bases0[u]
    requires forall u, i :: 0 <= u < NSIZES && u != t && i in chains[u] ==> i !in chains[t]
    requires Linked(prs1, Same, bases2[t], Without(chains[t], m))
    requires forall i :: 0 <= i < |prs0| && i !in chains[t] ==> prs1[i].nextSame == prs0[i].nextSame
    requires forall i :: 0 <= i < |prs0| ==> prs2[i].nextSame == prs1[i].nextSame
    ensures forall u :: 0 <= u < NSIZES ==>
      Linked(prs2, Same, bases2[u], chains[t := Without(chains[t], m)][u])
  {
    hide Linked, Without;
    LinkedFrame(prs1, prs2, Same, bases2[t], Without(chains[t], m));
    forall u | 0 <= u < NSIZES && u != t
      ensures Linked(prs2, Same, bases2[u], chains[u])
    {
      LinkedFrame(prs0, prs2, Same, bases0[u], chains[u]);
    }
  }

  /** What the record says about a live block of its page. */
  lemma PutFacts(h: Heap, a: int)
    requires Core(h) && a in h.live && h.live[a].Sub?
    ensures var j, i := h.live[a].ref, h.live[a].index;
      && j in h.pages && j < |h.prs|
      && var p, g := h.prs[j], h.pages[j];
      && g.typ < NSIZES && i < COUNTS[g.typ]
      && PageAddr(p) == g.Base() && BlockType(p) == g.typ
      && a == g.Addr(i) && Offset(g.typ, i) < PAGE_SIZE && SIZES[g.typ] >= 4
      && p.freeOffset == OffsetOrNone(g.typ, g.free)
      && (p.freeOffset == INVALID_OFFSET <==> g.free == [])
      && AddrAt(g, 0) == (if g.free == [] then 0 else PageAddr(p) + p.freeOffset)
  {
    var j := h.live[a].ref;
    var g := h.pages[j];
    DecodeRecord(h, j);
    FreeList(h, j);
    Tables(g.typ);
    OffsetInPage(g.typ, h.live[a].index);
    if g.free != [] {
      assert g.free[0] in g.free;
      OffsetInPage(g.typ, g.free[0]);
    }
    hide ListsOk, FreeOk, PagesOk;
  }

  /** Among the managed pages only its own contains a live small block, and none
      contains a run. */
  lemma OnlyOwnPage(h: Heap, a: int)
    requires Core(h) && a in h.live
    ensures forall j :: j in h.pages && h.pages[j].Base() <= a < h.pages[j].Base() + PAGE_SIZE ==>
              h.live[a].Sub? && h.live[a].ref == j
    ensures h.live[a].Sub? ==>
              && h.live[a].ref in h.pages
              && h.pages[h.live[a].ref].Base() <= a < h.pages[h.live[a].ref].Base() + PAGE_SIZE
  {
    hide ListsOk, FreeOk;
    var o := h.live[a];
    if o.Sub? {
      OffsetInPage(h.pages[o.ref].typ, o.index);
      Tables(h.pages[o.ref].typ);
    }
  }

  /** A managed page is wholly free exactly when no live block is on it. */
  lemma IdleIffNoneLive(h: Heap, j: nat)
    requires Core(h) && j in h.pages
    ensures |h.pages[j].free| <= COUNTS[h.pages[j].typ]
    ensures |h.pages[j].free| == COUNTS[h.pages[j].typ] <==>
              forall b :: b in h.live && h.live[b].Sub? ==> h.live[b].ref != j
  {
    hide Core, Offset, Threaded, FramesApart, LiveOk, Distinct;
    CoreParts(h);
    FreeList(h, j);
    var g, n := h.pages[j], COUNTS[h.pages[j].typ];
    ComplementCount(n, Below(n) - Elements(g.free), g.free);
    if |g.free| == n {
      FullList(g.free, n);
      LiveRelease(h.pages, h.live, j);
    } else {
      var i :| i in Below(n) - Elements(g.free);
      LiveIffNotFree(h.pages, h.live, j, i);
      assert h.live[g.Addr(i)].ref == j;
    }
  }

  lemma OthersNotIdle(h: Heap, h1: Heap, h2: Heap, j: nat)
    requires Core(h) && NoIdlePage(h) && Core(h1) && Core(h2) && j in h1.pages
    requires forall k :: k in h1.pages && k != j ==> k in h.pages && h1.pages[k] == h.pages[k]
    requires h2.pages == if |h1.pages[j].free| == COUNTS[h1.pages[j].typ] then h1.pages - {j} else h1.pages
    requires |h1.pages[j].free| <= COUNTS[h1.pages[j].typ]
    ensures Inv(h2)
  {
    hide ListsOk, PagesOk, FreeOk, LiveOk;
  }

  /** Freeing a block writes inside no other live block. */
  lemma PutKeepsContents(h: Heap, a: int, mem': map<int, int>)
    requires Core(h) && a in h.live && h.live[a].Sub? && PutWrites(h, a, mem')
    ensures ContentsKept(h, Drop(h.live, a), mem')
  {
    hide ListsOk, FreeOk, PagesOk, Offset;
    forall b | b in Drop(h.live, a)
      ensures Apart(a, Extent(h, h.live[a]), b, Extent(h, h.live[b]))
    {
      LiveBlocksDisjoint(h, a, b);
    }
  }

  lemma RunIsAligned(h: Heap, a: int)
    requires Core(h) && a in h.live && h.live[a].Run?
    ensures a % PAGE_SIZE == 0
  {
    hide ListsOk, FreeOk, PagesOk;
  }
}
