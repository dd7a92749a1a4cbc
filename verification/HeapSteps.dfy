/** The four changes the allocator makes to the heap state, on values, and the
    proof that each keeps the invariant: take the first block of a free list,
    put a block back, bring in a fresh page, release a wholly free page. */
module HeapSteps {
  import opened Basics
  import opened HeapModel

  // -------------------------------------------------------------- free lists

  /** `mem'` differs from `mem` only at addresses in [lo, lo + len). */
  ghost predicate WritesOnly(mem: map<int, int>, mem': map<int, int>, lo: int, len: int) {
    forall x :: x < lo || lo + len <= x ==> (x in mem <==> x in mem') && (x in mem ==> mem'[x] == mem[x])
  }

  lemma ThreadedFrame(mem: map<int, int>, mem': map<int, int>, g: Page, off: nat)
    requires g.typ < NSIZES && Threaded(mem, g, off)
    requires forall k :: 0 <= k < |g.free| && AddrAt(g, k) in mem ==> AddrAt(g, k) in mem' && mem'[AddrAt(g, k)] == mem[AddrAt(g, k)]
    ensures Threaded(mem', g, off)
  {
    hide AddrAt, Offset;
    forall k | 0 <= k < |g.free|
      ensures LinkOk(mem', g, k)
    {
      assert LinkOk(mem, g, k);
    }
  }

  lemma ThreadedPop(mem: map<int, int>, g: Page, off: nat)
    requires g.typ < NSIZES && Threaded(mem, g, off) && g.free != []
    ensures Threaded(mem, g.(free := g.free[1..]), OffsetOrNone(g.typ, g.free[1..]))
  {
    hide Offset;
    var g' := g.(free := g.free[1..]);
    forall k | 0 <= k < |g'.free|
      ensures LinkOk(mem, g', k)
    {
      assert LinkOk(mem, g, k + 1);
    }
  }

  lemma ThreadedPush(mem: map<int, int>, g: Page, off: nat, i: nat)
    requires g.typ < NSIZES && Threaded(mem, g, off) && i < COUNTS[g.typ] && i !in g.free
    requires g.Addr(i) in mem && mem[g.Addr(i)] == AddrAt(g, 0)
    ensures Threaded(mem, g.(free := [i] + g.free), Offset(g.typ, i))
  {
    hide Offset;
    var g' := g.(free := [i] + g.free);
    forall k | 0 <= k < |g'.free|
      ensures LinkOk(mem, g', k)
    {
      if k > 0 {
        assert LinkOk(mem, g, k - 1);
      }
    }
  }

  /** Overwriting one block leaves the threading through all other blocks of
      its page, and of all other pages, as it was. */
  lemma ThreadedKept(mem: map<int, int>, mem': map<int, int>, g: Page, off: nat, d: Page, i: nat)
    requires g.typ < NSIZES && d.typ < NSIZES && Threaded(mem, g, off) && i < COUNTS[d.typ]
    requires WritesOnly(mem, mem', d.Addr(i), SIZES[d.typ])
    requires g.frame != d.frame || (g.typ == d.typ && i !in g.free)
    ensures Threaded(mem', g, off)
  {
    OffsetInPage(d.typ, i);
    forall m | 0 <= m < |g.free|
      ensures AddrAt(g, m) < d.Addr(i) || d.Addr(i) + SIZES[d.typ] <= AddrAt(g, m)
    {
      var k := g.free[m];
      assert LinkOk(mem, g, m);
      OffsetInPage(g.typ, k);
      Tables(g.typ);
      if g.frame == d.frame {
        if k < i {
          OffsetsApart(g.typ, k, i);
        } else {
          OffsetsApart(g.typ, i, k);
        }
      }
    }
    hide Offset, LinkOk, AddrAt;
    ThreadedFrame(mem, mem', g, off);
  }

  // ------------------------------------------------------------- live blocks

  lemma LiveTake(pages: map<nat, Page>, live: map<int, Owner>, j: nat, size: nat)
    requires Typed(pages) && FramesApart(pages) && LiveOk(pages, live)
    requires j in pages && pages[j].free != [] && Distinct(pages[j].free)
    requires pages[j].free[0] < COUNTS[pages[j].typ] && size <= SIZES[pages[j].typ]
    ensures pages[j].Addr(pages[j].free[0]) !in live
    ensures LiveOk(pages[j := pages[j].(free := pages[j].free[1..])],
                   live[pages[j].Addr(pages[j].free[0]) := Sub(j, pages[j].free[0], size)])
  {
    var g := pages[j];
    var i := g.free[0];
    LiveIffNotFree(pages, live, j, i);
    hide Offset;
    var pages', live' := pages[j := g.(free := g.free[1..])], live[g.Addr(i) := Sub(j, i, size)];
    assert forall m :: pages'[j].Addr(m) == g.Addr(m);
    assert g.free == [i] + pages'[j].free;
    forall a | a in live'
      ensures if live'[a].Sub? then SubOk(pages', a, live'[a]) else RunOk(pages', a, live'[a])
    {
    }
    forall k, m | k in pages' && 0 <= m < COUNTS[pages'[k].typ] && m !in pages'[k].free
      ensures pages'[k].Addr(m) in live' && live'[pages'[k].Addr(m)].Sub?
    {
    }
  }

  function Drop(live: map<int, Owner>, a: int): map<int, Owner> {
    map b | b in live && b != a :: live[b]
  }

  lemma LivePut(pages: map<nat, Page>, live: map<int, Owner>, a: int)
    requires Typed(pages) && FramesApart(pages) && LiveOk(pages, live)
    requires a in live && live[a].Sub?
    ensures var j, i := live[a].ref, live[a].index;
      LiveOk(pages[j := pages[j].(free := [i] + pages[j].free)], Drop(live, a))
  {
    hide Offset;
    var j, i := live[a].ref, live[a].index;
    var g := pages[j];
    var pages', live' := pages[j := g.(free := [i] + g.free)], Drop(live, a);
    assert forall m :: pages'[j].Addr(m) == g.Addr(m);
    forall k, m | k in pages' && 0 <= m < COUNTS[pages'[k].typ] && m !in pages'[k].free
      ensures pages'[k].Addr(m) in live' && live'[pages'[k].Addr(m)].Sub?
    {
      LiveIffNotFree(pages, live, k, m);
    }
    forall b | b in live'
      ensures if live'[b].Sub? then SubOk(pages', b, live'[b]) else RunOk(pages', b, live'[b])
    {
      if live[b].Sub? {
        assert SubOk(pages, b, live[b]);
        assert live[b].ref == j ==> live[b].index != i;
      }
    }
  }

  // -------------------------------------------------------------- take, put

  function Take(h: Heap, j: nat, size: nat): Heap
    requires j in h.pages && j < |h.prs| && h.pages[j].typ < NSIZES && h.pages[j].free != []
    requires h.prs[j].nfree > 0
  {
    var g, p := h.pages[j], h.prs[j];
    h.(prs := h.prs[j := p.(nfree := p.nfree - 1, freeOffset := OffsetOrNone(g.typ, g.free[1..]))],
       pages := h.pages[j := g.(free := g.free[1..])],
       live := h.live[g.Addr(g.free[0]) := Sub(j, g.free[0], size)])
  }

  lemma SameLists(h: Heap, h': Heap)
    requires Shape(h) && Shape(h') && ListsOk(h)
    requires h'.inuse == h.inuse && h'.bases == h.bases && h'.allbase == h.allbase
    requires h'.all == h.all && h'.chains == h.chains && h'.pages.Keys == h.pages.Keys
    requires forall j :: 0 <= j < NPAGEREFS ==> h'.prs[j].nextSame == h.prs[j].nextSame && h'.prs[j].nextAll == h.prs[j].nextAll
    requires forall j :: j in h.pages ==> h'.pages[j].typ == h.pages[j].typ
    ensures ListsOk(h')
  {
    hide Linked;
    LinkedFrame(h.prs, h'.prs, All, h.allbase, h.all);
    forall t | 0 <= t < NSIZES
      ensures Linked(h'.prs, Same, h'.bases[t], h'.chains[t])
    {
      LinkedFrame(h.prs, h'.prs, Same, h.bases[t], h.chains[t]);
    }
  }

  lemma SamePages(h: Heap, h': Heap)
    requires Shape(h) && Shape(h') && PagesOk(h) && h'.pages.Keys <= h.pages.Keys
    requires forall j :: j in h'.pages ==>
      h'.pages[j].typ == h.pages[j].typ && h'.pages[j].frame == h.pages[j].frame && h'.prs[j].pab == h.prs[j].pab
    ensures PagesOk(h')
  {
  }

  lemma SameFree(h: Heap, h': Heap)
    requires Shape(h) && Shape(h') && FreeOk(h) && h'.mem == h.mem && h'.pages.Keys <= h.pages.Keys
    requires forall j :: j in h'.pages ==>
      h'.pages[j] == h.pages[j] && h'.prs[j].nfree == h.prs[j].nfree && h'.prs[j].freeOffset == h.prs[j].freeOffset
    ensures FreeOk(h')
  {
    hide Threaded;
  }

  lemma TakeFree(h: Heap, j: nat, size: nat)
    requires Core(h) && j in h.pages && h.pages[j].free != [] && h.prs[j].nfree > 0
    ensures Shape(Take(h, j, size)) && FreeOk(Take(h, j, size))
    ensures |Take(h, j, size).pages[j].free| < COUNTS[h.pages[j].typ]
  {
    hide ListsOk, LiveOk, PagesOk, Offset, Threaded, Distinct;
    var g, n := h.pages[j], COUNTS[h.pages[j].typ];
    FreeList(h, j);
    ComplementCount(n, Below(n) - Elements(g.free), g.free);
    ThreadedPop(h.mem, g, h.prs[j].freeOffset);
  }

  /** Taking the first free block keeps the invariant, hands out an address that
      was not live, and leaves the page with a live block. */
  lemma TakeKeeps(h: Heap, j: nat, size: nat)
    requires Core(h) && j in h.pages && h.pages[j].free != [] && h.prs[j].nfree > 0
    requires size <= SIZES[h.pages[j].typ]
    ensures Core(Take(h, j, size))
    ensures h.pages[j].Addr(h.pages[j].free[0]) !in h.live
    ensures |Take(h, j, size).pages[j].free| < COUNTS[h.pages[j].typ]
  {
    hide ListsOk, PagesOk, FreeOk, LiveOk, Offset, Distinct, Threaded, FramesApart;
    CoreParts(h);
    FreeList(h, j);
    TakeFree(h, j, size);
    SameLists(h, Take(h, j, size));
    SamePages(h, Take(h, j, size));
    assert h.pages[j].free[0] in h.pages[j].free;
    LiveTake(h.pages, h.live, j, size);
  }

  function Put(h: Heap, a: int, mem': map<int, int>): Heap
    requires a in h.live && h.live[a].Sub? && h.live[a].ref in h.pages && h.live[a].ref < |h.prs|
    requires h.pages[h.live[a].ref].typ < NSIZES
  {
    var j, i := h.live[a].ref, h.live[a].index;
    var g, p := h.pages[j], h.prs[j];
    h.(prs := h.prs[j := p.(nfree := p.nfree + 1, freeOffset := Offset(g.typ, i))],
       pages := h.pages[j := g.(free := [i] + g.free)],
       live := Drop(h.live, a),
       mem := mem')
  }

  /** The block at `a` was overwritten, and its first word now leads to the old
      head of the free list. */
  ghost predicate PutWrites(h: Heap, a: int, mem': map<int, int>)
    requires Core(h) && a in h.live && h.live[a].Sub?
  {
    var g := h.pages[h.live[a].ref];
    WritesOnly(h.mem, mem', a, SIZES[g.typ]) && a in mem' && mem'[a] == AddrAt(g, 0)
  }

  lemma PutFree(h: Heap, a: int, mem': map<int, int>)
    requires Core(h) && a in h.live && h.live[a].Sub? && PutWrites(h, a, mem')
    ensures Shape(Put(h, a, mem')) && FreeOk(Put(h, a, mem'))
  {
    hide ListsOk, Threaded, Offset, Distinct, WritesOnly;
    var j, i := h.live[a].ref, h.live[a].index;
    var h' := Put(h, a, mem');
    var g := h.pages[j];
    forall k | k in h.pages
      ensures Threaded(mem', h.pages[k], h.prs[k].freeOffset)
    {
      ThreadedKept(h.mem, mem', h.pages[k], h.prs[k].freeOffset, g, i);
    }
    ThreadedPush(mem', g, h.prs[j].freeOffset, i);
  }

  /** Putting a live block back keeps the invariant, but may leave its page idle. */
  lemma PutKeeps(h: Heap, a: int, mem': map<int, int>)
    requires Core(h) && a in h.live && h.live[a].Sub? && PutWrites(h, a, mem')
    ensures Core(Put(h, a, mem'))
  {
    PutFree(h, a, mem');
    PutRest(h, a, mem');
  }

  lemma PutRest(h: Heap, a: int, mem': map<int, int>)
    requires Core(h) && a in h.live && h.live[a].Sub?
    requires Shape(Put(h, a, mem')) && FreeOk(Put(h, a, mem'))
    ensures Core(Put(h, a, mem'))
  {
    hide ListsOk, PagesOk, FreeOk, Offset, Distinct, Threaded, FramesApart;
    CoreParts(h);
    LivePut(h.pages, h.live, a);
    SameLists(h, Put(h, a, mem'));
    SamePages(h, Put(h, a, mem'));
  }

  // ------------------------------------------------------------- fresh page

  function SetUse(words: seq<Word>, p: nat, b: bool): (r: seq<Word>)
    requires |words| == INUSE_WORDS && p < NPAGEREFS
    ensures |r| == INUSE_WORDS
    ensures forall j :: 0 <= j < NPAGEREFS ==> InUse(r, j) == (if j == p then b else InUse(words, j))
  {
    words[p / 32 := words[p / 32][p % 32 := b]]
  }

  /** Block indices from `n - 1` down to 0: the order in which a fresh page is
      threaded. */
  function Downto(n: nat): (r: seq<nat>)
    ensures |r| == n && forall k :: 0 <= k < n ==> r[k] == n - 1 - k
    ensures forall i: nat :: i in r <==> i < n
  {
    if n == 0 then [] else
      var r := [n - 1] + Downto(n - 1);
      assert forall i: nat :: i in r <==> i == n - 1 || i in Downto(n - 1);
      r
  }

  /** The first word of block `i` leads to the block before it. */
  ghost predicate CarvedAt(mem: map<int, int>, frame: nat, t: nat, i: nat)
    requires t < NSIZES
  {
    var a := frame * PAGE_SIZE + Offset(t, i);
    a in mem && mem[a] == (if i == 0 then 0 else frame * PAGE_SIZE + Offset(t, i - 1))
  }

  ghost predicate Carved(mem: map<int, int>, frame: nat, t: nat, n: nat)
    requires t < NSIZES
  {
    forall i :: 0 <= i < n ==> CarvedAt(mem, frame, t, i)
  }

  /** `npages` pages from `frame` on are clear of everything the heap manages. */
  ghost predicate Fresh(pages: map<nat, Page>, live: map<int, Owner>, frame: nat, npages: nat) {
    && (forall j :: j in pages ==> Apart(frame, npages, pages[j].frame, 1))
    && (forall a :: a in live && live[a].Run? ==> Apart(frame, npages, live[a].frame, live[a].npages))
  }

  function Insert(h: Heap, p: nat, frame: nat, t: nat, mem': map<int, int>): Heap
    requires |h.prs| == NPAGEREFS && |h.inuse| == INUSE_WORDS && |h.bases| == NSIZES && |h.chains| == NSIZES
    requires p < NPAGEREFS && t < NSIZES && COUNTS[t] > 0
  {
    h.(prs := h.prs[p := PageRef(h.bases[t], h.allbase, Pack(frame * PAGE_SIZE, t), Offset(t, COUNTS[t] - 1), COUNTS[t])],
       inuse := SetUse(h.inuse, p, true),
       bases := h.bases[t := To(p)],
       allbase := To(p),
       all := [p] + h.all,
       chains := h.chains[t := [p] + h.chains[t]],
       pages := h.pages[p := Page(frame, t, Downto(COUNTS[t]))],
       mem := mem')
  }

  ghost predicate InsertReady(h: Heap, p: nat, frame: nat, t: nat, mem': map<int, int>)
    requires Core(h)
  {
    && p < NPAGEREFS && p !in h.pages && t < NSIZES && COUNTS[t] > 0
    && 0 < frame && (frame + 1) * PAGE_SIZE <= TWO_TO_32 && Fresh(h.pages, h.live, frame, 1)
    && WritesOnly(h.mem, mem', frame * PAGE_SIZE, PAGE_SIZE) && Carved(mem', frame, t, COUNTS[t])
  }

  lemma InsertChain(h: Heap, p: nat, frame: nat, t: nat, mem': map<int, int>, u: nat)
    requires Core(h) && InsertReady(h, p, frame, t, mem') && u < NSIZES
    ensures var h' := Insert(h, p, frame, t, mem'); Linked(h'.prs, Same, h'.bases[u], h'.chains[u])
  {
    hide PagesOk, FreeOk, LiveOk, Linked, WritesOnly, Carved, Fresh, Downto, Offset, Pack, InUse;
    var h' := Insert(h, p, frame, t, mem');
    if u == t {
      LinkedPush(h.prs, h'.prs, Same, h.bases[t], h.chains[t], p);
    } else {
      LinkedFrame(h.prs, h'.prs, Same, h.bases[u], h.chains[u]);
    }
  }

  lemma InsertLists(h: Heap, p: nat, frame: nat, t: nat, mem': map<int, int>)
    requires Core(h) && InsertReady(h, p, frame, t, mem')
    ensures Shape(Insert(h, p, frame, t, mem')) && ListsOk(Insert(h, p, frame, t, mem'))
  {
    hide PagesOk, FreeOk, LiveOk, Linked, WritesOnly, Carved, Fresh, Downto, Offset, Pack, InUse;
    var h' := Insert(h, p, frame, t, mem');
    LinkedPush(h.prs, h'.prs, All, h.allbase, h.all, p);
    forall u | 0 <= u < NSIZES
      ensures Linked(h'.prs, Same, h'.bases[u], h'.chains[u])
    {
      InsertChain(h, p, frame, t, mem', u);
    }
  }

  lemma CarvedIsThreaded(mem: map<int, int>, frame: nat, t: nat)
    requires t < NSIZES && COUNTS[t] > 0 && Carved(mem, frame, t, COUNTS[t])
    ensures Threaded(mem, Page(frame, t, Downto(COUNTS[t])), Offset(t, COUNTS[t] - 1))
  {
    hide Offset, CarvedAt, LinkOk;
    var g := Page(frame, t, Downto(COUNTS[t]));
    forall k | 0 <= k < |g.free|
      ensures LinkOk(mem, g, k)
    {
      CarvedLink(mem, g, COUNTS[t] - 1 - k, k);
    }
  }

  lemma CarvedLink(mem: map<int, int>, g: Page, i: nat, k: nat)
    requires g.typ < NSIZES && i < COUNTS[g.typ] && i + k + 1 == |g.free| && CarvedAt(mem, g.frame, g.typ, i)
    requires g.free[k] == i && (i > 0 ==> g.free[k + 1] == i - 1)
    ensures LinkOk(mem, g, k)
  {
    hide Offset;
  }

  lemma InsertFree(h: Heap, p: nat, frame: nat, t: nat, mem': map<int, int>)
    requires Core(h) && InsertReady(h, p, frame, t, mem')
    ensures Shape(Insert(h, p, frame, t, mem')) && FreeOk(Insert(h, p, frame, t, mem'))
  {
    hide ListsOk, LiveOk, PagesOk, Threaded, Carved, Offset, Pack, WritesOnly, InUse;
    CarvedIsThreaded(mem', frame, t);
    forall k | k in h.pages
      ensures Threaded(mem', h.pages[k], h.prs[k].freeOffset)
    {
      OtherFrameKept(h.mem, mem', h.pages[k], h.prs[k].freeOffset, frame);
    }
  }

  lemma OtherFrameKept(mem: map<int, int>, mem': map<int, int>, g: Page, off: nat, frame: nat)
    requires g.typ < NSIZES && Threaded(mem, g, off) && g.frame != frame
    requires WritesOnly(mem, mem', frame * PAGE_SIZE, PAGE_SIZE)
    ensures Threaded(mem', g, off)
  {
    forall k | 0 <= k < |g.free|
      ensures AddrAt(g, k) < frame * PAGE_SIZE || (frame + 1) * PAGE_SIZE <= AddrAt(g, k)
    {
      assert LinkOk(mem, g, k);
      OffsetInPage(g.typ, g.free[k]);
      Tables(g.typ);
    }
    hide Offset, LinkOk, AddrAt;
    ThreadedFrame(mem, mem', g, off);
  }

  lemma InsertPages(h: Heap, p: nat, frame: nat, t: nat, mem': map<int, int>)
    requires Core(h) && InsertReady(h, p, frame, t, mem')
    requires Shape(Insert(h, p, frame, t, mem'))
    ensures PagesOk(Insert(h, p, frame, t, mem'))
  {
    hide ListsOk, LiveOk, FreeOk, Pack, Offset, Carved, WritesOnly, InUse;
  }

  lemma LiveInsert(pages: map<nat, Page>, live: map<int, Owner>, p: nat, frame: nat, t: nat)
    requires Typed(pages) && LiveOk(pages, live) && Fresh(pages, live, frame, 1)
    requires p !in pages && p < NPAGEREFS && t < NSIZES
    ensures LiveOk(pages[p := Page(frame, t, Downto(COUNTS[t]))], live)
  {
    hide Offset;
    var pages' := pages[p := Page(frame, t, Downto(COUNTS[t]))];
    forall a | a in live
      ensures if live[a].Sub? then SubOk(pages', a, live[a]) else RunOk(pages', a, live[a])
    {
    }
  }

  /** A freshly carved page, linked in, keeps the invariant; all its blocks are free. */
  lemma InsertKeeps(h: Heap, p: nat, frame: nat, t: nat, mem': map<int, int>)
    requires Core(h) && InsertReady(h, p, frame, t, mem')
    ensures Core(Insert(h, p, frame, t, mem'))
  {
    hide ListsOk, PagesOk, FreeOk, LiveOk, Offset, WritesOnly, Carved, InUse, Fresh;
    InsertLists(h, p, frame, t, mem');
    InsertFree(h, p, frame, t, mem');
    InsertPages(h, p, frame, t, mem');
    LiveInsert(h.pages, h.live, p, frame, t);
  }

  // ---------------------------------------------------------------- release

  /** `h'` is `h` with record `j` unlinked from both its lists, its in-use bit
      cleared and its page forgotten. */
  ghost predicate Released(h: Heap, h': Heap, j: nat)
    requires Core(h) && Shape(h') && j in h.pages
  {
    var t := h.pages[j].typ;
    && Linked(h'.prs, All, h'.allbase, h'.all)
    && (forall i :: i in h'.all <==> i in h.all && i != j)
    && (forall u :: 0 <= u < NSIZES ==> Linked(h'.prs, Same, h'.bases[u], h'.chains[u]))
    && (forall u, i :: 0 <= u < NSIZES ==> (i in h'.chains[u] <==> i in h.chains[u] && i != j))
    && (forall i :: 0 <= i < NPAGEREFS ==>
         h'.prs[i].pab == h.prs[i].pab && h'.prs[i].freeOffset == h.prs[i].freeOffset && h'.prs[i].nfree == h.prs[i].nfree)
    && h'.inuse == SetUse(h.inuse, j, false)
    && h'.pages == h.pages - {j} && h'.live == h.live && h'.mem == h.mem
  }

  /** A duplicate-free list of `n` numbers below `n` holds them all. */
  lemma FullList(xs: seq<nat>, n: nat)
    requires Distinct(xs) && |xs| == n && forall i :: i in xs ==> i < n
    ensures forall i: nat :: i < n ==> i in xs
  {
    var rest := Below(n) - Elements(xs);
    ComplementCount(n, rest, xs);
    assert rest == {};
    forall i: nat | i < n
      ensures i in xs
    {
      assert i !in rest;
    }
  }

  lemma LiveRelease(pages: map<nat, Page>, live: map<int, Owner>, j: nat)
    requires Typed(pages) && LiveOk(pages, live) && j in pages
    requires forall i: nat :: i < COUNTS[pages[j].typ] ==> i in pages[j].free
    ensures LiveOk(pages - {j}, live)
    ensures forall a :: a in live && live[a].Sub? ==> live[a].ref != j
  {
    hide Offset;
    var pages' := pages - {j};
    forall a | a in live
      ensures if live[a].Sub? then SubOk(pages', a, live[a]) else RunOk(pages', a, live[a])
    {
    }
  }

  /** Forgetting a wholly free page keeps the invariant; no block on it was live. */
  lemma ReleaseKeeps(h: Heap, h': Heap, j: nat)
    requires Core(h) && Shape(h') && j in h.pages && |h.pages[j].free| == COUNTS[h.pages[j].typ]
    requires Released(h, h', j)
    ensures Core(h')
    ensures forall a :: a in h.live && h.live[a].Sub? ==> h.live[a].ref != j
  {
    hide Linked, Threaded, Offset, InUse, Distinct, PagesOk, LiveOk, FreeOk;
    FreeList(h, j);
    FullList(h.pages[j].free, COUNTS[h.pages[j].typ]);
    LiveRelease(h.pages, h.live, j);
    SamePages(h, h');
    SameFree(h, h');
  }

  // ------------------------------------------------- page runs, client writes

  lemma LiveRun(pages: map<nat, Page>, live: map<int, Owner>, frame: nat, npages: nat, size: nat)
    requires Typed(pages) && LiveOk(pages, live) && Fresh(pages, live, frame, npages)
    requires 0 < frame && 0 < npages && (frame + npages) * PAGE_SIZE <= TWO_TO_32 && size <= npages * PAGE_SIZE
    ensures frame * PAGE_SIZE !in live
    ensures LiveOk(pages, live[frame * PAGE_SIZE := Run(frame, npages, size)])
  {
    var a := frame * PAGE_SIZE;
    if a in live && live[a].Sub? {
      OffsetInPage(pages[live[a].ref].typ, live[a].index);
      Tables(pages[live[a].ref].typ);
    }
    hide Offset;
  }

  lemma LiveOnlyChanged(h: Heap, live': map<int, Owner>)
    requires Core(h) && LiveOk(h.pages, live')
    ensures Core(h.(live := live'))
  {
    hide Linked, Threaded, LiveOk, InUse;
  }

  /** A fresh run of pages, recorded as live, keeps the invariant. */
  lemma RunKeeps(h: Heap, frame: nat, npages: nat, size: nat)
    requires Core(h) && Fresh(h.pages, h.live, frame, npages)
    requires 0 < frame && 0 < npages && (frame + npages) * PAGE_SIZE <= TWO_TO_32 && size <= npages * PAGE_SIZE
    ensures frame * PAGE_SIZE !in h.live
    ensures Core(h.(live := h.live[frame * PAGE_SIZE := Run(frame, npages, size)]))
  {
    CoreParts(h);
    hide Core, LiveOk, Fresh;
    LiveRun(h.pages, h.live, frame, npages, size);
    LiveOnlyChanged(h, h.live[frame * PAGE_SIZE := Run(frame, npages, size)]);
  }

  lemma LiveDrop(pages: map<nat, Page>, live: map<int, Owner>, a: int)
    requires Typed(pages) && FramesApart(pages) && LiveOk(pages, live) && a in live && live[a].Run?
    ensures LiveOk(pages, Drop(live, a))
  {
    hide Offset;
    var live' := Drop(live, a);
    forall k, m | k in pages && 0 <= m < COUNTS[pages[k].typ] && m !in pages[k].free
      ensures pages[k].Addr(m) in live' && live'[pages[k].Addr(m)].Sub?
    {
    }
  }

  lemma FreeRunKeeps(h: Heap, a: int)
    requires Core(h) && a in h.live && h.live[a].Run?
    ensures Core(h.(live := Drop(h.live, a)))
  {
    CoreParts(h);
    hide Core, LiveOk;
    LiveDrop(h.pages, h.live, a);
    LiveOnlyChanged(h, Drop(h.live, a));
  }

  lemma MemOnlyChanged(h: Heap, mem': map<int, int>)
    requires Core(h) && forall k :: k in h.pages ==> Threaded(mem', h.pages[k], h.prs[k].freeOffset)
    ensures Core(h.(mem := mem'))
  {
    hide Linked, Threaded, InUse;
  }

  /** A client that writes a word inside a block it owns cannot upset the heap. */
  lemma ClientWriteKeeps(h: Heap, a: int, x: int, v: int)
    requires Core(h) && a in h.live && a <= x && x + 4 <= a + Extent(h, h.live[a])
    ensures Core(h.(mem := h.mem[x := v]))
  {
    hide ListsOk, Threaded, Offset;
    var mem' := h.mem[x := v];
    var o := h.live[a];
    forall k | k in h.pages
      ensures Threaded(mem', h.pages[k], h.prs[k].freeOffset)
    {
      if o.Sub? {
        assert WritesOnly(h.mem, mem', h.pages[o.ref].Addr(o.index), SIZES[h.pages[o.ref].typ]);
        ThreadedKept(h.mem, mem', h.pages[k], h.prs[k].freeOffset, h.pages[o.ref], o.index);
      } else {
        var f := x / PAGE_SIZE;
        assert WritesOnly(h.mem, mem', f * PAGE_SIZE, PAGE_SIZE);
        OtherFrameKept(h.mem, mem', h.pages[k], h.prs[k].freeOffset, f);
      }
    }
    MemOnlyChanged(h, mem');
  }
}
