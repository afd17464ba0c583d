/** The block allocator, server/LinuxMemoryManager/mm.c and mm.h: headers linked into one chain a page,
    pages linked into one list a family, and the family's list of free blocks. */
module MemoryManager {
  import opened Arithmetic
  import opened Lists
  import opened MemoryChains
  import opened MemoryPages
  import opened Options

  /** block_meta_data_t, with the address it lies at. */
  class Block {
    const addr: int
    var isFree: bool
    var blockSize: int
    var offset: int
    var prevBlock: Block?
    var nextBlock: Block?

    constructor (addr: int, free: bool, size: int, offset: int)
      ensures this.addr == addr && isFree == free && blockSize == size && this.offset == offset
      ensures prevBlock == null && nextBlock == null
    {
      this.addr, isFree, blockSize, this.offset := addr, free, size, offset;
      prevBlock, nextBlock := null, null;
    }
  }

  /** vm_page_t; first is its embedded header. */
  class Page {
    const base: int
    const pageSize: nat
    const first: Block
    var next: Page?
    var prev: Page?
    var pageIndex: int

    constructor (base: int, size: nat, first: Block)
      ensures this.base == base && pageSize == size && this.first == first && next == null && prev == null
    {
      this.base, pageSize, this.first := base, size, first;
      next, prev, pageIndex := null, null, 0;
    }
  }

  type State = St<Block, Page>

  ghost predicate Points(p: Block?, o: Option<Block>)
  {
    match o
    case None => p == null
    case Some(b) => p == b
  }

  /** The header of block b says what st says about it. */
  ghost predicate Agrees(st: State, b: Block)
    reads b
  {
    && b in st.cells && st.cells[b].page in st.chains
    && var x := st.cells[b];
    && b.isFree == x.free && b.blockSize == x.size && b.offset == x.off && b.addr == x.page.base + x.off
    && Points(b.nextBlock, NextOf(st, b)) && Points(b.prevBlock, PrevOf(st, b))
  }

  ghost predicate AllAgree(st: State)
    reads st.cells.Keys
  {
    forall b {:trigger Agrees(st, b)} | b in st.cells :: Agrees(st, b)
  }

  ghost predicate SameAt(st: State, st': State, b: Block)
  {
    && b in st.cells && b in st'.cells && st'.cells[b] == st.cells[b]
    && st.cells[b].page in st.chains && st.cells[b].page in st'.chains
    && SameLinks(st, st', b)
  }

  lemma AgreesToo(st: State, st': State, b: Block)
    requires Agrees(st, b) && SameAt(st, st', b)
    ensures Agrees(st', b)
  {
  }

  /** All blocks of st but x, y and z agree. */
  ghost predicate AllButAgree(st: State, x: Block, y: Block?, z: Block?)
    reads st.cells.Keys - {x, y, z}
  {
    forall b {:trigger Agrees(st, b)} | b in st.cells && b != x && b != y && b != z :: Agrees(st, b)
  }

  /** What agrees carries over from st to st' but for x, y and z. */
  lemma AgreementSpreads(st: State, st': State, x: Block, y: Block?, z: Block?)
    requires AllAgree(st)
    requires forall b {:trigger SameAt(st, st', b)} | b in st'.cells && b != x && b != y && b != z :: SameAt(st, st', b)
    ensures AllButAgree(st', x, y, z)
  {
    forall b | b in st'.cells && b != x && b != y && b != z ensures Agrees(st', b) {
      assert SameAt(st, st', b);
      assert Agrees(st, b);
      AgreesToo(st, st', b);
    }
  }

  lemma AllAgreeNow(st: State, x: Block, y: Block?, z: Block?)
    requires AllButAgree(st, x, y, z)
    requires x in st.cells ==> Agrees(st, x)
    requires y != null && y in st.cells ==> Agrees(st, y)
    requires z != null && z in st.cells ==> Agrees(st, z)
    ensures AllAgree(st)
  {
  }

  /** st knows block b so. */
  ghost predicate Knows(st: State, b: Block, x: Cell<Page>, next: Option<Block>, prev: Option<Block>)
  {
    && b in st.cells && st.cells[b] == x && x.page in st.chains
    && NextOf(st, b) == next && PrevOf(st, b) == prev
  }

  /** A header that fits what st knows of it. */
  lemma AgreesNow(st: State, b: Block, x: Cell<Page>, next: Option<Block>, prev: Option<Block>)
    requires Knows(st, b, x, next, prev)
    requires b.isFree == x.free && b.blockSize == x.size && b.offset == x.off && b.addr == x.page.base + x.off
    requires Points(b.nextBlock, next) && Points(b.prevBlock, prev)
    ensures Agrees(st, b)
  {
  }

  lemma AgreesSays(st: State, b: Block)
    requires Agrees(st, b)
    ensures b in st.cells && st.cells[b].page in st.chains
    ensures b.isFree == st.cells[b].free && b.blockSize == st.cells[b].size && b.offset == st.cells[b].off
    ensures b.addr == st.cells[b].page.base + st.cells[b].off
    ensures Points(b.nextBlock, NextOf(st, b)) && Points(b.prevBlock, PrevOf(st, b))
  {
  }

  ghost function NotNull(b: Block?): set<Block>
  {
    if b == null then {} else {b}
  }

  /** st knows the size and the first header of page p. */
  ghost predicate PageKnown(st: State, p: Page)
    requires p in st.chains
  {
    p in st.limits && st.limits[p] == p.pageSize && st.chains[p] != [] && st.chains[p][0] == p.first
  }

  ghost predicate PagesKnown(st: State)
  {
    forall p {:trigger PageKnown(st, p)} | p in st.chains :: PageKnown(st, p)
  }

  lemma PagesKnownAgain(st: State, st': State, p: Page)
    requires PagesKnown(st) && OnlyPage(st, st', p) && (p in st'.chains ==> PageKnown(st', p))
    ensures PagesKnown(st')
  {
    forall q | q in st'.chains ensures PageKnown(st', q) {
      if q != p {
        assert PageKnown(st, q);
      }
    }
  }

  /** Pages start where pageAt says, and none reaches into another. */
  ghost predicate Mapped(pageAt: map<int, Page>, ps: set<Page>)
  {
    && (forall p | p in ps :: 0 < p.pageSize && p.base in pageAt && pageAt[p.base] == p)
    && (forall p, q | p in ps && q in ps && p != q :: p.base + p.pageSize <= q.base || q.base + q.pageSize <= p.base)
  }

  ghost predicate Vacant(ps: set<Page>, base: int, size: nat)
  {
    forall p | p in ps :: base + size <= p.base || p.base + p.pageSize <= base
  }

  /** The first header of page p is that of one free block filling it. */
  ghost predicate WholePage(p: Page)
    reads p.first
  {
    && HDR + META <= p.pageSize
    && p.first.addr == p.base + HDR && p.first.isFree && p.first.blockSize == p.pageSize - HDR - META
      && p.first.offset == HDR
    && p.first.nextBlock == null && p.first.prevBlock == null
  }

  ghost predicate FollowedBy(st: State, b: Block, second: Block)
  {
    && Sound(st) && b in st.cells
    && Place(st, b) + 1 < |ChainOf(st, b)| && ChainOf(st, b)[Place(st, b) + 1] == second
  }

  /** Taking `top` off the chain concerns its two neighbours only. */
  lemma JoinIsLocal(s: State, down: Block, top: Block, after: Block?)
    requires FollowedBy(s, down, top) && AllAgree(s) && after == top.nextBlock
    ensures Sound(Join(s, down)) && down != top && after != down && after != top
    ensures Agrees(s, down) && Agrees(s, top) && (after != null ==> Agrees(s, after))
    ensures Knows(Join(s, down), down, s.cells[down], NextOf(s, top), PrevOf(s, down))
    ensures after != null ==> Knows(Join(s, down), after, s.cells[after], NextOf(s, after), Some(down))
    ensures Join(s, down).cells.Keys <= s.cells.Keys
    ensures forall x {:trigger SameAt(s, Join(s, down), x)} | x in Join(s, down).cells && x != down && x != after ::
      SameAt(s, Join(s, down), x)
  {
    JoinOk(s, down);
    JoinLinks(s, down, down);
    NextPlace(s, top);
    assert Agrees(s, top) && Agrees(s, down);
    if after != null {
      JoinLinks(s, down, after);
      assert Agrees(s, after);
    }
    forall x | x in Join(s, down).cells && x != down && x != after ensures SameAt(s, Join(s, down), x) {
      JoinLinks(s, down, x);
    }
  }

  /** The same, with what the headers say of it. */
  lemma JoinReady(s: State, down: Block, top: Block, after: Block?)
    requires FollowedBy(s, down, top) && AllAgree(s) && after == top.nextBlock
    ensures Sound(s) && Sound(Join(s, down)) && down != top && after != down && after != top
    ensures down in s.cells && top in s.cells && Place(s, down) + 1 < |ChainOf(s, down)|
    ensures BlockOk(s, down) && BlockOk(s, top)
    ensures AllButAgree(Join(s, down), down, after, null)
    ensures var x := s.cells[down];
      && down.isFree == x.free && down.blockSize == x.size && down.offset == x.off && down.addr == x.page.base + x.off
      && Points(top.nextBlock, NextOf(s, top)) && Points(down.prevBlock, PrevOf(s, down))
      && Knows(Join(s, down), down, x, NextOf(s, top), PrevOf(s, down))
    ensures after != null ==> after in s.cells && BlockOk(s, after) && var x := s.cells[after];
      && after.isFree == x.free && after.blockSize == x.size && after.offset == x.off
        && after.addr == x.page.base + x.off
      && Points(after.nextBlock, NextOf(s, after)) && Knows(Join(s, down), after, x, NextOf(s, after), Some(down))
  {
    JoinIsLocal(s, down, top, after);
    AgreementSpreads(s, Join(s, down), down, after, null);
    AgreesSays(s, down);
    AgreesSays(s, top);
    assert BlockOk(s, down) && BlockOk(s, top);
    if after != null {
      AgreesSays(s, after);
      assert BlockOk(s, after);
    }
  }

  lemma OpenIsLocal(s: State, b: Block)
    requires Sound(s) && b in s.cells
    ensures b in Open(s, b).cells && BlockOk(s, b)
    ensures Knows(Open(s, b), b, Open(s, b).cells[b], NextOf(s, b), PrevOf(s, b))
    ensures forall x {:trigger SameAt(s, Open(s, b), x)} | x in Open(s, b).cells && x != b :: SameAt(s, Open(s, b), x)
  {
    OpenLinks(s, b, b);
    forall x | x in Open(s, b).cells && x != b ensures SameAt(s, Open(s, b), x) {
      OpenLinks(s, b, x);
    }
  }

  lemma OpenReady(s: State, b: Block)
    requires Sound(s) && AllAgree(s) && b in s.cells && !s.cells[b].free
    ensures Sound(Open(s, b)) && BlockOk(s, b) && b in Open(s, b).cells
    ensures AllButAgree(Open(s, b), b, null, null)
    ensures Knows(Open(s, b), b, Open(s, b).cells[b], NextOf(s, b), PrevOf(s, b))
    ensures var x := Open(s, b).cells[b];
      && x.free && b.offset == x.off && b.addr == x.page.base + x.off
      && Points(b.nextBlock, NextOf(s, b)) && Points(b.prevBlock, PrevOf(s, b))
  {
    OpenOk(s, b);
    OpenIsLocal(s, b);
    AgreementSpreads(s, Open(s, b), b, null, null);
    AgreesSays(s, b);
  }

  lemma OpenListed(s: State, b: Block, l: seq<Block>)
    requires Sound(s) && b in s.cells && !s.cells[b].free && Listed(l, s.cells, Free(s) - {})
    ensures Listed(l, Open(s, b).cells, Free(Open(s, b)) - {b})
  {
  }

  lemma AddIsLocal(s: State, p: Page)
    requires Sound(s) && AllAgree(s) && p !in s.chains && p.first !in s.cells && WholePage(p)
    ensures AllAgree(AddPage(s, p, p.pageSize, p.first)) && Sound(AddPage(s, p, p.pageSize, p.first))
  {
    var s' := AddPage(s, p, p.pageSize, p.first);
    AddPageOk(s, p, p.pageSize, p.first);
    forall b | b in s'.cells ensures Agrees(s', b) {
      if b != p.first {
        assert Agrees(s, b) && BlockOk(s, b);
      }
    }
  }

  lemma AddPageListed(s: State, p: Page, l: seq<Block>)
    requires Sound(s) && p !in s.chains && p.first !in s.cells && HDR + META <= p.pageSize
    requires Listed(l, s.cells, Free(s) - {})
    ensures var s' := AddPage(s, p, p.pageSize, p.first); Listed(l, s'.cells, Free(s') - {p.first})
  {
  }

  lemma AddPageKnown(s: State, p: Page)
    requires Sound(s) && PagesKnown(s) && p !in s.chains && p.first !in s.cells && HDR + META <= p.pageSize
    ensures PagesKnown(AddPage(s, p, p.pageSize, p.first))
  {
    AddPageOk(s, p, p.pageSize, p.first);
    PagesKnownAgain(s, AddPage(s, p, p.pageSize, p.first), p);
  }

  lemma MappedMore(pageAt: map<int, Page>, ps: set<Page>, p: Page)
    requires Mapped(pageAt, ps) && Vacant(ps, p.base, p.pageSize) && 0 < p.pageSize
    ensures Mapped(pageAt[p.base := p], ps + {p})
  {
  }

  lemma MappedLess(pageAt: map<int, Page>, ps: set<Page>, p: Page)
    requires Mapped(pageAt, ps) && p in ps
    ensures Mapped(pageAt - {p.base}, ps - {p})
  {
  }

  lemma DropIsLocal(s: State, p: Page, l: seq<Block>)
    requires Sound(s) && AllAgree(s) && PagesKnown(s)
    requires p in s.chains && PageOk(s, p) && |s.chains[p]| == 1 && s.cells[s.chains[p][0]].free
    requires Listed(l, s.cells, Free(s) - {s.chains[p][0]})
    ensures Sound(DropPage(s, p)) && AllAgree(DropPage(s, p)) && PagesKnown(DropPage(s, p))
    ensures Listed(l, DropPage(s, p).cells, Free(DropPage(s, p)) - {})
  {
    var s' := DropPage(s, p);
    DropPageOk(s, p);
    PagesKnownAgain(s, s', p);
    forall b | b in s'.cells ensures Agrees(s', b) {
      assert Agrees(s, b) && BlockOk(s', b);
    }
    assert Free(s') - {} == Free(s) - {s.chains[p][0]};
    ListedSame(l, s.cells, s'.cells, Free(s'));
  }

  lemma TakeIsLocal(s: State, b: Block, size: nat)
    requires AllAgree(s) && Sound(s) && b in s.cells && s.cells[b].free && size <= s.cells[b].size < size + META
    requires Alternates(ChainOf(s, b), s.cells)
    ensures Sound(Allot(s, b, size, b)) && BlockOk(s, b) && Agrees(s, b)
    ensures Knows(Allot(s, b, size, b), b, s.cells[b].(size := size, free := false), NextOf(s, b), PrevOf(s, b))
    ensures forall x {:trigger SameAt(s, Allot(s, b, size, b), x)} | x in Allot(s, b, size, b).cells && x != b ::
      SameAt(s, Allot(s, b, size, b), x)
  {
    AllotOk(s, b, size, b);
    assert Agrees(s, b);
    NextPlace(s, b);
    AllotLinks(s, b, size, b, b);
    forall x | x in Allot(s, b, size, b).cells && x != b ensures SameAt(s, Allot(s, b, size, b), x) {
      AllotLinks(s, b, size, b, x);
    }
  }

  /** Cutting block b in two concerns the two parts and the block behind. */
  lemma CutIsLocal(s: State, b: Block, size: nat, nb: Block, after: Block?)
    requires AllAgree(s) && Sound(s) && b in s.cells && s.cells[b].free && size + META <= s.cells[b].size
      && nb !in s.cells
    requires Alternates(ChainOf(s, b), s.cells) && after == b.nextBlock
    ensures Sound(Allot(s, b, size, nb)) && BlockOk(s, b) && Agrees(s, b)
    ensures after != b && after != nb && (after != null ==> Agrees(s, after))
    ensures Knows(Allot(s, b, size, nb), b, s.cells[b].(size := size, free := false), Some(nb), PrevOf(s, b))
    ensures var x := s.cells[b];
      Knows(Allot(s, b, size, nb), nb, Cell(x.page, x.off + META + size, x.size - size - META, true),
        NextOf(s, b), Some(b))
    ensures after != null ==> Knows(Allot(s, b, size, nb), after, s.cells[after], NextOf(s, after), Some(nb))
  {
    AllotOk(s, b, size, nb);
    assert Agrees(s, b);
    NextPlace(s, b);
    if after != null {
      assert Agrees(s, after);
      AllotLinks(s, b, size, nb, after);
    }
    hide AllAgree, Agrees, Alternates, Sound, NextOf, PrevOf;
    AllotLinks(s, b, size, nb, b);
    AllotLinks(s, b, size, nb, nb);
  }

  lemma CutElsewhere(s: State, b: Block, size: nat, nb: Block, after: Block?)
    requires Sound(s) && b in s.cells && s.cells[b].free && size + META <= s.cells[b].size && nb !in s.cells
    requires Alternates(ChainOf(s, b), s.cells)
    requires BlockOk(s, b) && Points(after, NextOf(s, b))
    ensures forall x {:trigger SameAt(s, Allot(s, b, size, nb), x)} |
      x in Allot(s, b, size, nb).cells && x != b && x != after && x != nb :: SameAt(s, Allot(s, b, size, nb), x)
  {
    AllotOk(s, b, size, nb);
    hide Alternates, Sound, NextOf, PrevOf;
    forall x | x in Allot(s, b, size, nb).cells && x != b && x != after && x != nb
      ensures SameAt(s, Allot(s, b, size, nb), x)
    {
      AllotLinks(s, b, size, nb, x);
    }
  }

  /** All that is needed of cutting block b in two, before it is done. */
  lemma CutReady(s: State, b: Block, size: nat, nb: Block, after: Block?)
    requires AllAgree(s) && Sound(s) && b in s.cells && s.cells[b].free && size + META <= s.cells[b].size
    requires nb !in s.cells && nb.addr == b.addr + META + size
    requires nb.isFree && nb.blockSize == b.blockSize - size - META && nb.offset == b.offset + META + size
    requires Alternates(ChainOf(s, b), s.cells) && after == b.nextBlock
    ensures Sound(Allot(s, b, size, nb)) && after != b && after != nb && nb != b
    ensures BlockOk(s, b)
    ensures AllButAgree(Allot(s, b, size, nb), b, after, nb)
    ensures var x := s.cells[b];
      && b.offset == x.off && b.addr == x.page.base + x.off
      && Points(b.nextBlock, NextOf(s, b)) && Points(b.prevBlock, PrevOf(s, b))
      && nb.blockSize == x.size - size - META && nb.offset == x.off + META + size
        && nb.addr == x.page.base + x.off + META + size
      && Knows(Allot(s, b, size, nb), b, x.(size := size, free := false), Some(nb), PrevOf(s, b))
      && Knows(Allot(s, b, size, nb), nb, Cell(x.page, x.off + META + size, x.size - size - META, true),
        NextOf(s, b), Some(b))
    ensures after != null ==>
      && Agrees(s, after) && BlockOk(s, after)
      && after.isFree == s.cells[after].free && after.blockSize == s.cells[after].size
        && after.offset == s.cells[after].off
      && after.addr == s.cells[after].page.base + s.cells[after].off && Points(after.nextBlock, NextOf(s, after))
      && Knows(Allot(s, b, size, nb), after, s.cells[after], NextOf(s, after), Some(nb))
  {
    CutIsLocal(s, b, size, nb, after);
    AgreesSays(s, b);
    CutElsewhere(s, b, size, nb, after);
    AgreementSpreads(s, Allot(s, b, size, nb), b, after, nb);
    if after != null {
      assert BlockOk(s, after);
    }
  }

  class Family {
    const structSize: nat
    const systemPageSize: nat
    var firstPage: Page?
    var freeList: seq<Block>
    var pageAt: map<int, Page>       // the address space: which page starts where
    ghost var st: State
    ghost var pages: seq<Page>

    /** Headers, chains and st fit together, and the free list holds the free blocks other than m. */
    ghost predicate Linked(m: set<Block>)
      reads `st, `freeList, st.cells.Keys
    {
      && Sound(st) && AllAgree(st)
      && Listed(freeList, st.cells, Free(st) - m)
    }

    /** The k-th page of list ps is linked to its neighbours. */
    static ghost predicate PageAt(ps: seq<Page>, k: nat)
      requires k < |ps|
      reads {ps[k]}`next, {ps[k]}`prev
    {
      && ps[k].next == (if k + 1 < |ps| then ps[k + 1] else null)
      && ps[k].prev == (if k > 0 then ps[k - 1] else null)
    }

    static ghost predicate Threaded(ps: seq<Page>)
      reads (set k | 0 <= k < |ps| :: ps[k])`next, (set k | 0 <= k < |ps| :: ps[k])`prev
    {
      forall k {:trigger PageAt(ps, k)} | 0 <= k < |ps| :: PageAt(ps, k)
    }

    static ghost predicate Indexed(ps: seq<Page>)
      reads (set k | 0 <= k < |ps| :: ps[k])`pageIndex
    {
      && (forall i | 0 <= i < |ps| :: 0 <= ps[i].pageIndex)
      && (forall i, j | 0 <= i < j < |ps| :: ps[i].pageIndex < ps[j].pageIndex)
    }

    ghost predicate ListOfPages()
      reads `pages, `firstPage, set k | 0 <= k < |pages| :: pages[k]
    {
      && Distinct(pages) && Threaded(pages) && Indexed(pages)
      && firstPage == (if pages == [] then null else pages[0])
    }

    /** The list of pages holds the pages of st, and they lie apart. */
    ghost predicate PagesOk()
      reads `st, `pages, `pageAt, `firstPage, st.chains.Keys
    {
      && HDR + META < systemPageSize
      && (forall p | p in st.chains :: p in pages) && (forall k | 0 <= k < |pages| :: pages[k] in st.chains)
      && ListOfPages()
      && PagesKnown(st) && Mapped(pageAt, st.chains.Keys)
    }

    ghost predicate Valid()
      reads this, st.cells.Keys, st.chains.Keys
    {
      Linked({}) && AllInUse(st) && PagesOk()
    }

    // ---- the list of pages ----

    /** The first k pages have the indexes 0 to k - 1, and no page has index k. */
    static ghost predicate LeastUnused(ps: seq<Page>, k: nat)
      reads (set k | 0 <= k < |ps| :: ps[k])`pageIndex
    {
      && k <= |ps| && (forall i | 0 <= i < k :: ps[i].pageIndex == i)
      && (forall i | 0 <= i < |ps| :: ps[i].pageIndex != k)
    }

    /** mm_get_available_page_index: the page behind which a new one goes. */
    method AvailablePageIndex() returns (before: Page?, ghost k: nat)
      requires ListOfPages()
      ensures LeastUnused(pages, k)
      ensures before == if k > 0 then pages[k - 1] else null
    {
      before, k := null, 0;
      var pageIndex := -1;
      var curr := firstPage;
      while curr != null
        invariant k <= |pages| && pageIndex == k - 1
        invariant curr == if k < |pages| then pages[k] else null
        invariant before == if k > 0 then pages[k - 1] else null
        invariant forall i | 0 <= i < k :: pages[i].pageIndex == i
        decreases |pages| - k
      {
        assert PageAt(pages, k);
        if curr.pageIndex != pageIndex + 1 {
          return curr.prev, k;
        }
        pageIndex := pageIndex + 1;
        before := curr;
        curr := curr.next;
        k := k + 1;
      }
    }

    /** The links around a page that was put behind the first k. */
    ghost predicate PutLinks(ps: seq<Page>, k: nat, page: Page)
      requires k <= |ps|
      reads page, (set k | 0 <= k < |ps| :: ps[k])`next, (set k | 0 <= k < |ps| :: ps[k])`prev
    {
      && (k > 0 ==> ps[k - 1].next == page) && (k < |ps| ==> ps[k].prev == page)
      && page.next == (if k < |ps| then ps[k] else null) && page.prev == (if k > 0 then ps[k - 1] else null)
    }

    twostate lemma PutThreads(new k: nat, new page: Page)
      requires old(Threaded(pages)) && k <= |old(pages)| && PutLinks(old(pages), k, page)
      requires forall i | 0 <= i < |old(pages)| && i != k - 1 :: old(pages)[i].next == old(pages[i].next)
      requires forall i | 0 <= i < |old(pages)| && i != k :: old(pages)[i].prev == old(pages[i].prev)
      ensures Threaded(Put(old(pages), k, page))
    {
      var ps, r := old(pages), Put(old(pages), k, page);
      forall i | 0 <= i < |r| ensures PageAt(r, i) {
        PutAt(ps, k, page, i);
        if i > 0 {
          PutAt(ps, k, page, i - 1);
          assert old(PageAt(pages, i - 1));
        }
        if i < |ps| {
          PutAt(ps, k, page, i + 1);
          assert old(PageAt(pages, i));
        }
      }
    }

    lemma {:induction false} IndexAtLeast(ps: seq<Page>, i: nat)
      requires Indexed(ps) && i < |ps|
      ensures i <= ps[i].pageIndex
    {
      if i > 0 {
        IndexAtLeast(ps, i - 1);
      }
    }

    lemma PutIndexed(ps: seq<Page>, k: nat, page: Page)
      requires Indexed(ps) && LeastUnused(ps, k) && page.pageIndex == k
      ensures Indexed(Put(ps, k, page))
    {
      var r := Put(ps, k, page);
      forall i | 0 <= i < |r| ensures 0 <= r[i].pageIndex {
        PutAt(ps, k, page, i);
      }
      forall i, j | 0 <= i < j < |r| ensures r[i].pageIndex < r[j].pageIndex {
        PutAt(ps, k, page, i);
        PutAt(ps, k, page, j);
        if i == k {
          IndexAtLeast(ps, j - 1);
        }
      }
    }

    static ghost function NotNoPage(p: Page?): set<Page>
    {
      if p == null then {} else {p}
    }

    /** The first case of allocate_vm_page: the new page comes first. */
    method LinkFirst(page: Page)
      requires page.prev == null && firstPage != page
      modifies `firstPage, page`pageIndex, page`next, NotNoPage(firstPage)`prev
      ensures page.pageIndex == 0 && page.next == old(firstPage) && firstPage == page && page.prev == null
      ensures old(firstPage) != null ==> old(firstPage).prev == page
    {
      page.pageIndex := 0;
      page.next := firstPage;
      if firstPage != null {
        firstPage.prev := page;
      }
      firstPage := page;
    }

    /** The other case: it comes behind a page whose successor in index is missing. */
    static method LinkBehind(page: Page, before: Page)
      requires page != before && before.next != before && before.next != page
      modifies page, before`next, NotNoPage(before.next)`prev
      ensures page.pageIndex == before.pageIndex + 1 && page.prev == before && before.next == page
      ensures page.next == old(before.next) && (page.next != null ==> page.next.prev == page)
    {
      page.next := before.next;
      page.prev := before;
      if page.next != null {
        page.next.prev := page;
      }
      before.next := page;
      page.pageIndex := before.pageIndex + 1;
    }

    method Thread(page: Page, before: Page?, ghost k: nat)
      requires Threaded(pages) && Distinct(pages) && firstPage == (if pages == [] then null else pages[0])
      requires k <= |pages| && before == if k > 0 then pages[k - 1] else null
      requires k > 0 ==> before.pageIndex == k - 1
      requires page !in pages && page.next == null && page.prev == null && Indexed(pages) && LeastUnused(pages, k)
      modifies `firstPage, page, (set k | 0 <= k < |pages| :: pages[k])`next,
        (set k | 0 <= k < |pages| :: pages[k])`prev
      ensures PutLinks(pages, k, page) && page.pageIndex == k && Indexed(Put(pages, k, page))
      ensures forall i | 0 <= i < |pages| && i != k - 1 :: pages[i].next == old(pages[i].next)
      ensures forall i | 0 <= i < |pages| && i != k :: pages[i].prev == old(pages[i].prev)
      ensures firstPage == if k == 0 then page else pages[0]
    {
      hide Indexed;
      assert k > 0 ==> PageAt(pages, k - 1);
      if before == null {
        LinkFirst(page);
      } else {
        LinkBehind(page, before);
      }
      PutIndexed(pages, k, page);
    }

    /** The linking part of allocate_vm_page. */
    method LinkPage(page: Page) returns (ghost k: nat)
      requires ListOfPages() && page !in pages && page.next == null && page.prev == null
      modifies `firstPage, `pages, page, (set k | 0 <= k < |pages| :: pages[k])`next,
        (set k | 0 <= k < |pages| :: pages[k])`prev
      ensures ListOfPages()
      ensures k <= |old(pages)| && old(LeastUnused(pages, k)) && pages == Put(old(pages), k, page)
        && page.pageIndex == k
    {
      hide Indexed;
      var before;
      before, k := AvailablePageIndex();
      ghost var ps := pages;
      assert k <= |ps| && (k > 0 ==> before.pageIndex == k - 1);
      assert Threaded(ps) && Distinct(ps) && Indexed(ps) && firstPage == if ps == [] then null else ps[0] by {
      }
      PutDistinct(ps, k, page);
      Thread(page, before, k);
      PutThreads(k, page);
      assert k > 0 ==> Put(ps, k, page)[0] == ps[0];
      pages := Put(ps, k, page);
      assert ListOfPages();
    }

    twostate lemma CutThreads(new k: nat)
      requires old(Threaded(pages)) && Distinct(old(pages)) && k < |old(pages)|
      requires k + 1 < |old(pages)| ==> old(pages)[k + 1].prev == old(pages[k].prev)
      requires k > 0 ==> old(pages)[k - 1].next == old(pages[k].next)
      requires forall i | 0 <= i < |old(pages)| && i != k - 1 && i != k :: old(pages)[i].next == old(pages[i].next)
      requires forall i | 0 <= i < |old(pages)| && i != k + 1 && i != k :: old(pages)[i].prev == old(pages[i].prev)
      ensures Threaded(Cut(old(pages), k))
    {
      var ps, r := old(pages), Cut(old(pages), k);
      assert old(PageAt(pages, k));
      forall i | 0 <= i < |r| ensures PageAt(r, i) {
        CutAt(ps, k, i);
        if i > 0 {
          CutAt(ps, k, i - 1);
        }
        if i + 1 < |r| {
          CutAt(ps, k, i + 1);
        }
        assert old(PageAt(pages, i)) && old(PageAt(pages, i + 1));
      }
    }

    lemma CutIndexed(ps: seq<Page>, k: nat)
      requires Indexed(ps) && k < |ps|
      ensures Indexed(Cut(ps, k))
    {
    }

    /** The first case of mm_vm_page_delete_and_free: the page is the first. */
    method UnlinkFirst(page: Page)
      requires page.next != page
      modifies `firstPage, page`next, page`prev, NotNoPage(page.next)`prev
      ensures firstPage == old(page.next) && (old(page.next) != null ==> old(page.next).prev == null)
    {
      firstPage := page.next;
      if page.next != null {
        page.next.prev := null;
      }
      page.next := null;
      page.prev := null;
    }

    /** The other case. */
    static method UnlinkInner(page: Page)
      requires page.prev != null && page.next != page && page.prev != page
      modifies NotNoPage(page.prev)`next, NotNoPage(page.next)`prev
      ensures page.prev != null && page.prev.next == page.next == old(page.next) && page.prev == old(page.prev)
      ensures page.next != null ==> page.next.prev == page.prev
    {
      if page.next != null {
        page.next.prev := page.prev;
      }
      page.prev.next := page.next;
    }

    method UnlinkPage(page: Page)
      requires ListOfPages() && page in pages
      modifies `firstPage, `pages, (set k | 0 <= k < |pages| :: pages[k])`next,
        (set k | 0 <= k < |pages| :: pages[k])`prev
      ensures ListOfPages()
      ensures pages == Without(old(pages), page)
    {
      ghost var ps := pages;
      ghost var k := IndexOf(ps, page);
      assert PageAt(ps, k);
      CutDistinct(ps, k);
      hide Threaded, IndexOf;
      if firstPage == page {
        UnlinkFirst(page);
      } else {
        UnlinkInner(page);
      }
      CutThreads(k);
      assert Indexed(ps);
      CutIndexed(ps, k);
      pages := Cut(ps, k);
      assert pages != [] ==> pages[0] == ps[if k == 0 then 1 else 0];
    }

    // ---- the free list ----

    method RankOf(x: Block) returns (k: nat)
      requires Linked({x}) && x in st.cells && st.cells[x].free
      ensures k <= |freeList| && Ranked(freeList, st.cells, k, x)
    {
      k := 0;
      assert Agrees(st, x);
      while k < |freeList| && !(x.blockSize > freeList[k].blockSize)
        invariant k <= |freeList|
        invariant forall a | 0 <= a < k :: st.cells[freeList[a]].size >= st.cells[x].size
      {
        assert Agrees(st, freeList[k]);
        k := k + 1;
      }
      if k < |freeList| {
        assert Agrees(st, freeList[k]);
      }
    }

    /** mm_add_free_block_meta_data_to_free_block_list. */
    method AddFree(x: Block)
      requires Linked({x}) && x in st.cells && st.cells[x].free
      modifies `freeList
      ensures Linked({})
      ensures exists k :: 0 <= k <= |old(freeList)| && freeList == Put(old(freeList), k, x)
    {
      var k := RankOf(x);
      ListedPut(freeList, st.cells, Free(st) - {x}, k, x);
      assert Free(st) - {x} + {x} == Free(st) - {};
      hide Put, Listed, Ranked;
      freeList := Put(freeList, k, x);
    }

    /** remove_glthread(&block->priority_thread_glue). */
    method RemoveFree(x: Block, ghost m: set<Block>)
      requires Linked(m)
      modifies `freeList
      ensures Linked(m + {x}) && freeList == Without(old(freeList), x)
    {
      ListedWithout(freeList, st.cells, Free(st) - m, x);
      assert Free(st) - m - {x} == Free(st) - (m + {x});
      hide Listed, Without;
      freeList := Without(freeList, x);
    }

    // ---- joining and cutting blocks ----

    /** mm_bind_blocks_for_deallocation. */
    static method Bind(down: Block, top: Block)
      requires top.nextBlock != down && top.nextBlock != top && down != top
      modifies down`nextBlock, NotNull(top.nextBlock)`prevBlock
      ensures down.nextBlock == old(top.nextBlock)
      ensures old(top.nextBlock) != null ==> old(top.nextBlock).prevBlock == down
    {
      down.nextBlock := top.nextBlock;
      if top.nextBlock != null {
        top.nextBlock.prevBlock := down;
      }
    }

    method Unchain(down: Block, top: Block)
      requires FollowedBy(st, down, top) && AllAgree(st)
      modifies `st, st.cells.Keys`nextBlock, st.cells.Keys`prevBlock
      ensures st == Join(old(st), down) && Sound(st) && AllAgree(st)
    {
      hide NextOf, PageOk, PrevOf;
      ghost var s := st;
      ghost var after := top.nextBlock;
      JoinReady(s, down, top, after);
      ghost var s' := Join(s, down);
      assert AllButAgree(s', down, after, null);
      Bind(down, top);
      assert AllButAgree(s', down, after, null);
      st := s';
      AgreesNow(st, down, s.cells[down], NextOf(s, top), PrevOf(s, down));
      if after != null {
        assert Points(after.prevBlock, Some(down));
        AgreesNow(st, after, s.cells[after], NextOf(s, after), Some(down));
      }
      AllAgreeNow(st, down, after, null);
    }

    lemma JoinListed(s: State, first: Block, second: Block, m: set<Block>, l: seq<Block>)
      requires FollowedBy(s, first, second) && m <= {first, second} && AllAgree(s)
      requires second in s.cells && s.cells[second].free && Listed(l, s.cells, Free(s) - (m + {first} + {second}))
      ensures Place(s, first) + 1 < |ChainOf(s, first)|
      ensures Listed(l, Join(s, first).cells, Free(Join(s, first)) - {first})
      ensures first in Join(s, first).cells && Join(s, first).cells[first] == s.cells[first]
    {
    }

    /** mm_union_free_blocks: neither block is on the free list any more, and the second is gone. */
    method Union(first: Block, second: Block, ghost m: set<Block>)
      requires Linked(m) && FollowedBy(st, first, second) && m <= {first, second}
      requires first in st.cells && st.cells[first].free && second in st.cells && st.cells[second].free
      modifies `freeList, `st, st.cells.Keys`nextBlock, st.cells.Keys`prevBlock
      ensures st == Join(old(st), first) && Linked({first})
      ensures first in st.cells && st.cells[first] == old(st).cells[first]
      ensures freeList == Without(Without(old(freeList), first), second)
    {
      hide Join, Listed, Place;
      ghost var s := st;
      assert Sound(s) && AllAgree(s);
      RemoveFree(first, m);
      RemoveFree(second, m + {first});
      assert AllAgree(s) && Listed(freeList, s.cells, Free(s) - (m + {first} + {second}));
      JoinListed(s, first, second, m, freeList);
      Unchain(first, second);
    }

    // ---- allocating ----

    /** mm_bind_blocks_for_allocation. */
    static method BindNew(taken: Block, free: Block)
      requires taken != free && taken.nextBlock != taken && taken.nextBlock != free
      modifies taken`nextBlock, free`nextBlock, free`prevBlock, NotNull(taken.nextBlock)`prevBlock
      ensures free.prevBlock == taken && free.nextBlock == old(taken.nextBlock) && taken.nextBlock == free
      ensures old(taken.nextBlock) != null ==> old(taken.nextBlock).prevBlock == free
    {
      free.prevBlock := taken;
      free.nextBlock := taken.nextBlock;
      taken.nextBlock := free;
      if free.nextBlock != null {
        free.nextBlock.prevBlock := free;
      }
    }

    lemma TakeListed(s: State, b: Block, size: nat, l: seq<Block>)
      requires Sound(s) && b in s.cells && s.cells[b].free && size <= s.cells[b].size < size + META
      requires Listed(l, s.cells, Free(s) - ({} + {b}))
      ensures Listed(l, Allot(s, b, size, b).cells, Free(Allot(s, b, size, b)) - {})
    {
    }

    /** Block b is given the size asked for; what remains cannot hold a header. */
    method Take(b: Block, size: nat)
      requires Linked({}) && b in st.cells && st.cells[b].free && size <= st.cells[b].size < size + META
      requires Alternates(ChainOf(st, b), st.cells)
      modifies `freeList, `st, b`isFree, b`blockSize
      ensures st == Allot(old(st), b, size, b) && Linked({})
      ensures freeList == Without(old(freeList), b)
    {
      hide ChainOf, Free, Listed, NextOf, Without;
      ghost var s := st;
      assert Sound(s) && AllAgree(s);
      RemoveFree(b, {});
      assert AllAgree(s) && Listed(freeList, s.cells, Free(s) - ({} + {b}));
      TakeIsLocal(s, b, size);
      AgreementSpreads(s, Allot(s, b, size, b), b, null, null);
      AgreesSays(s, b);
      TakeListed(s, b, size, freeList);
      ghost var s' := Allot(s, b, size, b);
      assert AllButAgree(s', b, null, null);
      b.isFree := false;
      b.blockSize := size;
      assert AllButAgree(s', b, null, null);
      st := s';
      AgreesNow(st, b, s.cells[b].(size := size, free := false), NextOf(s, b), PrevOf(s, b));
      AllAgreeNow(st, b, null, null);
    }

    /** What is written into the headers when block b is cut in two. */
    static method CutLinks(b: Block, size: nat, nb: Block)
      requires nb != b && b.nextBlock != b && b.nextBlock != nb
      modifies b`isFree, b`blockSize, b`nextBlock, nb`nextBlock, nb`prevBlock, NotNull(b.nextBlock)`prevBlock
      ensures !b.isFree && b.blockSize == size && b.nextBlock == nb
      ensures nb.prevBlock == b && nb.nextBlock == old(b.nextBlock)
      ensures Points(b.nextBlock, Some(nb)) && Points(nb.prevBlock, Some(b))
      ensures old(b.nextBlock) != null ==> Points(old(b.nextBlock).prevBlock, Some(nb))
    {
      b.isFree := false;
      b.blockSize := size;
      BindNew(b, nb);
    }

    /** The headers and chain when block b is cut in two. */
    method CutHeaders(b: Block, size: nat, nb: Block)
      requires Sound(st) && AllAgree(st) && b in st.cells && st.cells[b].free && size + META <= st.cells[b].size
      requires Alternates(ChainOf(st, b), st.cells)
      requires nb !in st.cells && nb.addr == b.addr + META + size
      requires nb.isFree && nb.blockSize == b.blockSize - size - META && nb.offset == b.offset + META + size
      modifies `st, b, nb, NotNull(b.nextBlock)`prevBlock
      ensures st == Allot(old(st), b, size, nb) && Sound(st) && AllAgree(st)
    {
      hide ChainOf, NextOf, PrevOf, Sound;
      ghost var s := st;
      ghost var x := s.cells[b];
      ghost var after := b.nextBlock;
      CutReady(s, b, size, nb, after);
      ghost var s' := Allot(s, b, size, nb);
      assert AllButAgree(s', b, after, nb);
      CutLinks(b, size, nb);
      assert AllButAgree(s', b, after, nb);
      st := s';
      AgreesNow(st, b, x.(size := size, free := false), Some(nb), PrevOf(s, b));
      AgreesNow(st, nb, Cell(x.page, x.off + META + size, x.size - size - META, true), NextOf(s, b), Some(b));
      if after != null {
        AgreesNow(st, after, s.cells[after], NextOf(s, after), Some(nb));
      }
      AllAgreeNow(st, b, after, nb);
    }

    lemma HeaderSays(b: Block)
      requires Linked({}) && b in st.cells
      ensures b.blockSize == st.cells[b].size
      ensures b.nextBlock != null ==> b.nextBlock in st.cells
    {
      assert Agrees(st, b);
      NextPlace(st, b);
    }

    lemma CutListed(s: State, b: Block, size: nat, nb: Block, l: seq<Block>)
      requires Sound(s) && b in s.cells && s.cells[b].free && size + META <= s.cells[b].size && nb !in s.cells
      requires Listed(l, s.cells, Free(s) - ({} + {b}))
      ensures Listed(l, Allot(s, b, size, nb).cells, Free(Allot(s, b, size, nb)) - {nb})
      ensures nb in Allot(s, b, size, nb).cells && Allot(s, b, size, nb).cells[nb].free
    {
    }

    /** Block b is cut in two: the first part of the size asked for, the second a new free block. */
    method CutOff(b: Block, size: nat) returns (nb: Block)
      requires Linked({}) && b in st.cells && st.cells[b].free && size + META <= st.cells[b].size
      requires Alternates(ChainOf(st, b), st.cells)
      modifies `freeList, `st, st.cells.Keys
      ensures fresh(nb) && nb !in old(st).cells
      ensures st == Allot(old(st), b, size, nb) && Linked({nb})
      ensures nb in st.cells && st.cells[nb].free
      ensures freeList == Without(old(freeList), b)
    {
      hide Free;
      ghost var s := st;
      HeaderSays(b);
      nb := new Block(b.addr + META + size, true, b.blockSize - size - META, b.offset + META + size);
      assert Linked({});
      RemoveFree(b, {});
      assert Sound(s) && AllAgree(s) && Listed(freeList, s.cells, Free(s) - ({} + {b}));
      CutListed(s, b, size, nb, freeList);
      CutHeaders(b, size, nb);
    }

    /** mm_split_free_data_block_for_allocation. */
    method Split(b: Block, size: nat) returns (ok: bool, ghost nb: Block)
      requires Linked({}) && b in st.cells && st.cells[b].free && Alternates(ChainOf(st, b), st.cells)
      modifies `freeList, `st, st.cells.Keys
      ensures ok <==> size <= old(st).cells[b].size
      ensures !ok ==> st == old(st) && freeList == old(freeList)
      ensures ok ==> Usable(old(st), b, size, nb) && st == Allot(old(st), b, size, nb)
      ensures fresh(nb) || nb == b
      ensures Linked({})
    {
      nb := b;
      AgreesSays(st, b);
      if b.blockSize < size {
        return false, b;
      }
      var remaining := b.blockSize - size;
      ok := true;
      hide Sound, AllAgree, Listed, Allot, Alternates;
      if remaining == 0 {
        Take(b, size);
      } else if META < remaining < META + structSize {
        var rest := CutOff(b, size);
        AddFree(rest);
        nb := rest;
      } else if remaining < META {
        Take(b, size);
      } else {
        var rest := CutOff(b, size);
        AddFree(rest);
        nb := rest;
      }
    }

    /** mm_max_page_allocatable_memory. */
    function MaxPageAllocatableMemory(units: int): int
    {
      systemPageSize * units - (HDR + META)
    }

    /** mm_get_new_vm_page_from_kernel and the setting up of the page's one block. */
    method MakePage(units: nat, base: int) returns (page: Page)
      requires HDR + META < systemPageSize && 0 < units
      ensures fresh(page) && fresh(page.first) && page.base == base && page.pageSize == systemPageSize * units
      ensures HDR + META <= page.pageSize && page.next == null && page.prev == null && WholePage(page)
    {
      var size := systemPageSize * units;
      Multiples(systemPageSize, units);
      var first := new Block(base + HDR, true, MaxPageAllocatableMemory(units), HDR);
      page := new Page(base, size, first);
    }

    lemma ListedMore(ps: set<Page>, l: seq<Page>, k: nat, page: Page)
      requires k <= |l| && (forall p | p in ps :: p in l) && (forall i | 0 <= i < |l| :: l[i] in ps)
      ensures forall p | p in ps + {page} :: p in Put(l, k, page)
      ensures forall i | 0 <= i <= |l| :: Put(l, k, page)[i] in ps + {page}
    {
    }

    /** allocate_vm_page: a fresh page at an address the kernel chose, linked where its index belongs. */
    method AllocateVmPage(units: nat, base: int) returns (page: Page, ghost k: nat)
      requires Linked({}) && PagesOk() && 0 < units && Vacant(st.chains.Keys, base, systemPageSize * units)
      modifies `firstPage, `pages, `pageAt, st.chains.Keys`next, st.chains.Keys`prev
      ensures fresh(page) && fresh(page.first) && page.base == base && page.pageSize == systemPageSize * units
      ensures WholePage(page) && page !in st.chains && page.first !in st.cells
      ensures Linked({}) && ListOfPages() && Mapped(pageAt, st.chains.Keys + {page})
      ensures k <= |old(pages)| && old(LeastUnused(pages, k)) && pages == Put(old(pages), k, page)
        && page.pageIndex == k
      ensures (forall p | p in st.chains.Keys + {page} :: p in pages)
        && (forall i | 0 <= i < |pages| :: pages[i] in st.chains.Keys + {page})
    {
      hide Linked, ListOfPages, PagesKnown, Put, Vacant;
      assert HDR + META < systemPageSize && ListOfPages() && Mapped(pageAt, st.chains.Keys);
      assert forall p | p in st.chains :: p in pages;
      assert forall i | 0 <= i < |pages| :: pages[i] in st.chains;
      page := MakePage(units, base);
      k := LinkPage(page);
      pageAt := pageAt[base := page];
      MappedMore(old(pageAt), st.chains.Keys, page);
      ListedMore(st.chains.Keys, old(pages), k, page);
    }

    /** mm_family_new_page_add: the page is one free block. */
    method NewPageAdd(units: nat, base: int) returns (page: Page, ghost k: nat)
      requires Linked({}) && PagesOk() && 0 < units && Vacant(st.chains.Keys, base, systemPageSize * units)
      modifies this, st.chains.Keys`next, st.chains.Keys`prev
      ensures fresh(page) && fresh(page.first) && page.base == base && page.pageSize == systemPageSize * units
      ensures page !in old(st).chains && page.first !in old(st).cells && HDR + META <= page.pageSize
      ensures st == AddPage(old(st), page, page.pageSize, page.first)
      ensures Linked({}) && PagesOk()
      ensures k <= |old(pages)| && old(LeastUnused(pages, k)) && pages == Put(old(pages), k, page)
        && page.pageIndex == k
    {
      hide ListOfPages, Mapped, PagesKnown, Put, Sound, Vacant;
      ghost var s := st;
      assert PagesKnown(s) && HDR + META < systemPageSize;
      page, k := AllocateVmPage(units, base);
      assert Sound(s) && AllAgree(s) && Listed(freeList, s.cells, Free(s) - {});
      assert HDR + META <= page.pageSize;
      AddIsLocal(s, page);
      AddPageListed(s, page, freeList);
      AddPageKnown(s, page);
      st := AddPage(s, page, page.pageSize, page.first);
      assert st.chains.Keys == s.chains.Keys + {page} && page.first in st.cells && st.cells[page.first].free;
      assert Linked({page.first});
      AddFree(page.first);
      assert PagesOk();
    }

    /** Cutting block b keeps all that Valid says, given that its page may have been new. */
    lemma AllotValid(s: State, b: Block, size: nat, nb: Block)
      requires Sound(s) && b in s.cells && s.cells[b].free && size <= s.cells[b].size && Usable(s, b, size, nb)
      requires OthersInUse(s, PageOf(s, b)) && Alternates(ChainOf(s, b), s.cells) && PagesKnown(s)
      ensures Sound(Allot(s, b, size, nb)) && AllInUse(Allot(s, b, size, nb)) && PagesKnown(Allot(s, b, size, nb))
      ensures Allot(s, b, size, nb).chains.Keys == s.chains.Keys
    {
      AllotAllInUse(s, b, size, nb);
      AllotHead(s, b, size, nb, PageOf(s, b));
      var s' := Allot(s, b, size, nb);
      hide Allot, Sound, AllInUse;
      forall p | p in s'.chains ensures PageKnown(s', p) {
        AllotHead(s, b, size, nb, p);
        assert PageKnown(s, p);
      }
    }

    /** Of `room` free bytes behind a header block b has got `size`; less than a header is left over, or the rest is
        the free block nb right behind it.  All other blocks are as they were. */
    static ghost predicate Parted(was: State, now: State, b: Block, size: nat, room: int, nb: Block)
      reads b, nb
    {
      && b.blockSize == size
      && (forall x | x in was.cells && x != b :: x in now.cells && now.cells[x] == was.cells[x])
      && if room - size < META then now.cells.Keys == was.cells.Keys + {b}
         else
           && nb !in was.cells && now.cells.Keys == was.cells.Keys + {b, nb}
           && nb.isFree && nb.addr == b.addr + META + size && size + META + nb.blockSize == room
    }

    lemma PartedNow(s: State, b: Block, size: nat, nb: Block)
      requires Sound(s) && b in s.cells && s.cells[b].free && size <= s.cells[b].size && Usable(s, b, size, nb)
      requires AllAgree(Allot(s, b, size, nb))
      ensures Parted(s, Allot(s, b, size, nb), b, size, s.cells[b].size, nb)
    {
      var t := Allot(s, b, size, nb);
      AllotLosesNothing(s, b, size, nb);
      hide Allot, Sound;
      assert Agrees(t, b);
      if s.cells[b].size - size >= META {
        assert Agrees(t, nb);
      }
    }

    /** A block known to be big enough is allotted. */
    method SplitBig(b: Block, size: nat) returns (status: bool, ghost nb: Block)
      requires Linked({}) && PagesOk() && b in st.cells && st.cells[b].free && size <= st.cells[b].size
      requires OthersInUse(st, PageOf(st, b)) && Alternates(ChainOf(st, b), st.cells)
      modifies `freeList, `st, st.cells.Keys
      ensures status && Valid()
      ensures Live(st) == Live(old(st))[b := old(st).cells[b].(size := size, free := false)]
      ensures Parted(old(st), st, b, size, old(st).cells[b].size, nb)
    {
      hide ListOfPages, Mapped, OthersInUse, Sound, Parted;
      ghost var s := st;
      assert Sound(s);
      status, nb := Split(b, size);
      assert PagesKnown(s);
      AllotValid(s, b, size, nb);
      AllotLive(s, b, size, nb);
      PartedNow(s, b, size, nb);
      assert PagesOk();
      assert Valid();
      assert Cell(PageOf(s, b), s.cells[b].off, size, false) == s.cells[b].(size := size, free := false);
    }

    /** The application holds block b of the given size more than before, and b was cut out of what was free. */
    static ghost predicate Gains(was: State, now: State, b: Block, size: nat)
    {
      && b !in Live(was) && b in now.cells && now.cells[b].size == size
      && Live(now) == Live(was)[b := now.cells[b]]
    }

    /** b was the biggest free block, and stays where it was. */
    static ghost predicate WasBiggest(was: State, now: State, b: Block)
    {
      && b in Free(was) && b in now.cells && now.cells[b].page == was.cells[b].page
        && now.cells[b].off == was.cells[b].off
      && forall x | x in Free(was) :: was.cells[x].size <= was.cells[b].size
    }

    function PagesRequired(reqSize: nat): (n: nat)
      requires HDR + META < systemPageSize
      ensures 0 < n
    {
      reqSize / MaxPageAllocatableMemory(1) + 1
    }

    /** So many pages hold more than was asked for. */
    lemma PagesSuffice(reqSize: nat)
      requires HDR + META < systemPageSize
      ensures reqSize < MaxPageAllocatableMemory(PagesRequired(reqSize))
    {
    }

    /** The number of pages is the least whose room, each counted less the headers of one page, exceeds what
        was asked for. */
    ghost predicate FewestPages(n: nat, reqSize: nat)
    {
      (n - 1) * (systemPageSize - HDR - META) <= reqSize < n * (systemPageSize - HDR - META)
    }

    lemma PagesAreFewest(reqSize: nat)
      requires HDR + META < systemPageSize
      ensures FewestPages(PagesRequired(reqSize), reqSize)
    {
      var m := systemPageSize - HDR - META;
      assert MaxPageAllocatableMemory(1) == m;
      assert reqSize == m * (reqSize / m) + reqSize % m;
      assert (reqSize / m + 1) * m == m * (reqSize / m) + m;
    }

    /** What the head of the free list says about all free blocks. */
    lemma HeadIsBiggest(size: nat)
      requires Linked({})
      ensures freeList == [] ==> NoneBigEnough(st, size)
      ensures freeList != [] ==> freeList[0] in st.cells && st.cells[freeList[0]].free && Agrees(st, freeList[0])
      ensures freeList != [] ==> WasBiggest(st, st, freeList[0])
      ensures freeList != [] ==> (NoneBigEnough(st, size) <==> st.cells[freeList[0]].size < size)
    {
      assert Free(st) - {} == Free(st);
      if freeList != [] {
        assert freeList[0] in Free(st);
        forall x | x in Free(st) ensures st.cells[x].size <= st.cells[freeList[0]].size {
          var a := IndexOf(freeList, x);
        }
      }
    }

    /** A new page can be cut, and is big enough. */
    lemma NewPageReady(s: State, page: Page, reqSize: nat, n: nat)
      requires HDR + META < systemPageSize && n == PagesRequired(reqSize) && page.pageSize == systemPageSize * n
      requires Sound(s) && AllInUse(s) && page !in s.chains && page.first !in s.cells && HDR + META <= page.pageSize
      ensures var t := AddPage(s, page, page.pageSize, page.first); var b := page.first;
        && Sound(t) && b in t.cells && t.cells[b].free && reqSize <= t.cells[b].size
          && PageOf(t, b) == t.cells[b].page == page
        && t.cells.Keys == s.cells.Keys + {b}
        && OthersInUse(t, page) && Alternates(ChainOf(t, b), t.cells) && Live(t) == Live(s)
    {
      PagesSuffice(reqSize);
      AddPageOk(s, page, page.pageSize, page.first);
      AddPageOthersInUse(s, page, page.pageSize, page.first);
    }

    lemma GainsNow(s: State, t: State, u: State, b: Block, size: nat)
      requires Live(t) == Live(s) && b in t.cells && t.cells[b].free
        && Live(u) == Live(t)[b := t.cells[b].(size := size, free := false)]
      ensures Gains(s, u, b, size) && u.cells[b].page == t.cells[b].page && u.cells[b].off == t.cells[b].off
    {
      assert b !in Live(t);
      assert b in Live(u);
    }

    lemma PartedOfNew(s: State, page: Page, t: State, size: nat, nb: Block)
      requires page.first !in s.cells && HDR + META <= page.pageSize
      requires var u := AddPage(s, page, page.pageSize, page.first);
        Parted(u, t, page.first, size, u.cells[page.first].size, nb)
      ensures Parted(s, t, page.first, size, page.pageSize - HDR - META, nb)
    {
    }

    /** mm_allocate_free_data_block never fails as long as the kernel gives pages: the application gets a
        block of exactly the size asked for, out of the biggest free one, or out of a new page if and
        only if no free block is big enough. */
    method AllocateFreeDataBlock(reqSize: nat, base: int)
        returns (b: Block?, ghost newPage: bool, ghost k: nat, ghost n: nat, ghost nb: Block)
      requires Valid() && Vacant(st.chains.Keys, base, systemPageSize * PagesRequired(reqSize))
      modifies this, st.chains.Keys`next, st.chains.Keys`prev, st.cells.Keys
      ensures Valid() && b != null && Gains(old(st), st, b, reqSize)
      ensures newPage <==> NoneBigEnough(old(st), reqSize)
      ensures !newPage ==> pages == old(pages) && WasBiggest(old(st), st, b)
      ensures Parted(old(st), st, b, reqSize,
        if newPage then st.cells[b].page.pageSize - HDR - META else old(st).cells[b].size, nb)
      ensures newPage ==> fresh(b) && fresh(st.cells[b].page) && st.cells[b].page.pageSize == systemPageSize * n
      ensures newPage ==> (n - 1) * (systemPageSize - HDR - META) <= reqSize < n * (systemPageSize - HDR - META)
      ensures newPage ==>
        k <= |old(pages)| && old(LeastUnused(pages, k))
        && pages == Put(old(pages), k, st.cells[b].page) && st.cells[b].page.pageIndex == k
    {
      hide Free, ListOfPages, Live, Parted, Mapped, NextOf, PageOf, PageOk, PrevOf, Put, Sound;
      ghost var s := st;
      k := 0;
      assert Linked({}) && PagesOk() && Sound(s) && AllInUse(s);
      assert HDR + META < systemPageSize;
      var nPagesRequired := PagesRequired(reqSize);
      n := nPagesRequired;
      PagesAreFewest(reqSize);
      HeadIsBiggest(reqSize);
      var biggest: Block? := if freeList == [] then null else freeList[0];
      if biggest != null {
        AgreesSays(s, biggest);
      }
      var status;
      if biggest == null || biggest.blockSize < reqSize {
        newPage := true;
        var page;
        page, k := NewPageAdd(nPagesRequired, base);
        ghost var t := st;
        NewPageReady(s, page, reqSize, nPagesRequired);
        status, nb := SplitBig(page.first, reqSize);
        GainsNow(s, t, st, page.first, reqSize);
        PartedOfNew(s, page, st, reqSize, nb);
        if status {
          return page.first, newPage, k, n, nb;
        }
        return null, newPage, k, n, nb;
      }
      newPage := false;
      AllInUseSays(s, biggest);
      status, nb := SplitBig(biggest, reqSize);
      GainsNow(s, s, st, biggest, reqSize);
      assert WasBiggest(s, st, biggest);
      if status {
        return biggest, newPage, k, n, nb;
      }
      return null, newPage, k, n, nb;
    }

    // ---- freeing ----

    /** The size of block b once it takes all the room behind it. */
    lemma RoomBehind(b: Block, page: Page)
      requires Linked({}) && b in st.cells && page == PageOf(st, b) && page in st.chains && PageKnown(st, page)
      ensures Agrees(st, b) && b in Open(st, b).cells
      ensures b.nextBlock != null ==>
        Open(st, b).cells[b].size == b.blockSize + (b.nextBlock.addr - (b.addr + META + b.blockSize))
      ensures b.nextBlock == null ==>
        Open(st, b).cells[b].size == b.blockSize + (page.base + page.pageSize - (b.addr + META + b.blockSize))
      ensures var x := st.cells[b]; Open(st, b).cells[b] == Cell(x.page, x.off, Open(st, b).cells[b].size, true)
    {
      assert Agrees(st, b);
      NextPlace(st, b);
      OpenOk(st, b);
      if b.nextBlock != null {
        assert Agrees(st, b.nextBlock);
      }
    }

    /** The first part of mm_free_blocks: the block is marked free and takes the unused room behind it. */
    method Absorb(b: Block, page: Page)
      requires Linked({}) && b in st.cells && !st.cells[b].free && page == PageOf(st, b) && page in st.chains
        && PageKnown(st, page)
      modifies `st, b`isFree, b`blockSize
      ensures st == Open(old(st), b) && Linked({b})
    {
      hide Free, Listed, NextOf, PageKnown, PrevOf;
      ghost var s := st;
      ghost var s' := Open(s, b);
      assert Sound(s) && AllAgree(s) && Listed(freeList, s.cells, Free(s) - {});
      RoomBehind(b, page);
      OpenReady(s, b);
      OpenListed(s, b, freeList);
      assert AllButAgree(s', b, null, null);
      b.isFree := true;
      if b.nextBlock != null {
        b.blockSize := b.blockSize + (b.nextBlock.addr - (b.addr + META + b.blockSize));
      } else {
        var pageEnd := page.base + page.pageSize;
        b.blockSize := b.blockSize + (pageEnd - (b.addr + META + b.blockSize));
      }
      assert AllButAgree(s', b, null, null);
      st := s';
      AgreesNow(st, b, s'.cells[b], NextOf(s, b), PrevOf(s, b));
      AllAgreeNow(st, b, null, null);
    }

    /** What the two link fields of block b say of its neighbours. */
    lemma Neighbours(b: Block)
      requires Sound(st) && AllAgree(st) && b in st.cells
      ensures NextFree(st, b) <==> b.nextBlock != null && b.nextBlock.isFree
      ensures PrevFree(st, b) <==> b.prevBlock != null && b.prevBlock.isFree
      ensures NextFree(st, b) ==>
        FollowedBy(st, b, b.nextBlock) && b.nextBlock in st.cells && st.cells[b.nextBlock].free
      ensures PrevFree(st, b) ==>
        b.prevBlock == Head(st, b) && FollowedBy(st, b.prevBlock, b)
        && b.prevBlock in st.cells && st.cells[b.prevBlock].free
    {
      assert Agrees(st, b);
      NextPlace(st, b);
      if b.nextBlock != null {
        assert Agrees(st, b.nextBlock);
      }
      if b.prevBlock != null {
        assert Agrees(st, b.prevBlock);
        assert Distinct(ChainOf(st, b));
        At(ChainOf(st, b), Place(st, b) - 1);
      }
    }

    /** The merging part of mm_free_blocks. */
    method Coalesce(b: Block) returns (r: Block)
      requires Linked({b}) && b in st.cells && st.cells[b].free
      modifies `freeList, `st, st.cells.Keys`nextBlock, st.cells.Keys`prevBlock
      ensures st == Coalesced(old(st), b) && r == Head(old(st), b)
      ensures Linked({r}) && r in st.cells && st.cells[r].free
    {
      ghost var s := st;
      assert Sound(s) && AllAgree(s);
      r := b;
      Neighbours(b);
      JoinedNextOk(s, b);
      if b.nextBlock != null && b.nextBlock.isFree {
        Union(b, b.nextBlock, {b});
      }
      assert st == JoinedNext(s, b);
      ghost var t := st;
      assert Sound(t) && AllAgree(t);
      Neighbours(b);
      if b.prevBlock != null && b.prevBlock.isFree {
        r := b.prevBlock;
        Union(b.prevBlock, b, {b});
      }
      assert st == JoinedPrev(t, b) && r == Head(t, b);
    }

    /** mm_is_vm_page_empty. */
    predicate IsVmPageEmpty(page: Page)
      reads page.first
    {
      page.first.nextBlock == null && page.first.prevBlock == null && page.first.isFree
    }

    lemma EmptyExactly(page: Page)
      requires Sound(st) && AllAgree(st) && page in st.chains && PageKnown(st, page)
      ensures page.first in st.cells && st.cells[page.first].page == page
      ensures IsVmPageEmpty(page) <==> |st.chains[page]| == 1 && st.cells[st.chains[page][0]].free
    {
      assert PageOk(st, page);
      assert Agrees(st, page.first);
      At(st.chains[page], 0);
    }

    lemma ListedLess(ps: set<Page>, l: seq<Page>, page: Page)
      requires Distinct(l) && page in l && (forall p | p in ps :: p in l) && (forall i | 0 <= i < |l| :: l[i] in ps)
      ensures forall p | p in ps - {page} :: p in Without(l, page)
      ensures forall i | 0 <= i < |Without(l, page)| :: Without(l, page)[i] in ps - {page}
    {
    }

    /** mm_vm_page_delete_and_free: the page goes back to the kernel. */
    method DeletePage(page: Page)
      requires page in st.chains && PageOk(st, page) && |st.chains[page]| == 1 && st.cells[st.chains[page][0]].free
      requires Linked({st.chains[page][0]}) && PagesOk()
      modifies this, st.chains.Keys`next, st.chains.Keys`prev
      ensures st == DropPage(old(st), page) && Linked({}) && PagesOk()
      ensures pages == Without(old(pages), page) && freeList == old(freeList)
    {
      hide AllAgree, Distinct, Indexed, Listed, Mapped, Sound, Without;
      ghost var s := st;
      assert Sound(s) && AllAgree(s) && Listed(freeList, s.cells, Free(s) - {s.chains[page][0]});
      assert ListOfPages() && Mapped(pageAt, s.chains.Keys) && HDR + META < systemPageSize && PagesKnown(s);
      assert forall p | p in s.chains :: p in pages;
      assert forall i | 0 <= i < |pages| :: pages[i] in s.chains;
      assert Distinct(pages);
      DropIsLocal(s, page, freeList);
      ListedLess(s.chains.Keys, pages, page);
      UnlinkPage(page);
      MappedLess(pageAt, s.chains.Keys, page);
      pageAt := pageAt - {page.base};
      st := DropPage(s, page);
      assert st.chains.Keys == s.chains.Keys - {page};
      assert PagesOk();
      assert Linked({});
    }

    static ghost predicate LastOnItsPage(was: State, b: Block)
      requires b in was.cells
    {
      forall x | x in Live(was) && x != b :: Live(was)[x].page != was.cells[b].page
    }

    /** The page of a freed block, told from the offset in its header. */
    method HostingPage(b: Block) returns (page: Page)
      requires Valid() && b in st.cells
      ensures page in st.chains && page == PageOf(st, b) && PageKnown(st, page)
    {
      assert Agrees(st, b);
      assert BlockOk(st, b);
      assert PageKnown(st, PageOf(st, b));
      page := pageAt[b.addr - b.offset];
    }

    ghost predicate OneFreeBlock(page: Page, r: Block)
      reads `st
    {
      && page in st.chains && PageOk(st, page)
      && |st.chains[page]| == 1 && st.cells[st.chains[page][0]].free && st.chains[page][0] == r
    }

    /** The end of mm_free_blocks: the page is given back if it is one free block; otherwise the free
        block r goes on the list. */
    method GiveBackOrList(page: Page, r: Block) returns (back: bool)
      requires Linked({r}) && PagesOk() && r in st.cells && st.cells[r].free && page in st.chains
      requires PageKnown(st, page) && PageOk(st, page) && (|st.chains[page]| == 1 ==> st.chains[page][0] == r)
      requires OthersInUse(st, page) && (OneFreeBlock(page, r) || AllInUse(st))
      modifies this, st.chains.Keys`next, st.chains.Keys`prev
      ensures back == old(OneFreeBlock(page, r)) && Valid() && Live(st) == Live(old(st))
      ensures back ==> page !in st.chains && pages == Without(old(pages), page)
      ensures !back ==> st == old(st) && pages == old(pages) && r in freeList
    {
      hide Put, Sound;
      ghost var t := st;
      assert Sound(t) && AllAgree(t);
      EmptyExactly(page);
      assert OneFreeBlock(page, r) <==> |t.chains[page]| == 1 && t.cells[t.chains[page][0]].free;
      if IsVmPageEmpty(page) {
        DropPageInUse(t, page);
        DropPageOk(t, page);
        DeletePage(page);
        assert page !in st.chains;
        assert Valid();
        return true;
      }
      AddFree(r);
      assert r in freeList;
      assert Valid();
      return false;
    }

    /** The page of the freed block as it stands before mm_free_blocks decides what to do with it. */
    lemma FreedValid(s: State, b: Block, page: Page)
      requires Sound(s) && AllInUse(s) && PagesKnown(s) && b in s.cells && !s.cells[b].free && page == PageOf(s, b)
      ensures var t := Freed(s, b);
        && Sound(t) && PagesKnown(t) && t.chains.Keys == s.chains.Keys && page in t.chains && PageOk(t, page)
          && PageKnown(t, page)
        && (|t.chains[page]| == 1 && t.cells[t.chains[page][0]].free <==> LastOnItsPage(s, b))
        && (|t.chains[page]| == 1 ==> t.chains[page][0] == Head(s, b))
        && (!(|t.chains[page]| == 1 && t.cells[t.chains[page][0]].free) ==> AllInUse(t))
    {
      FreedPage(s, b);
      FreedHead(s, b, page);
      assert PageKnown(s, page);
      var t := Freed(s, b);
      hide Freed, Sound, AllInUse;
      forall p | p in t.chains ensures PageKnown(t, p) {
        FreedHead(s, b, p);
        assert PageKnown(s, p);
      }
    }

    /** Block b is freed: r is what is left of it, `next` the free block behind it that goes, `prev` the free block
        before it that b goes into, null if there is none.  All other blocks are as they were. */
    static ghost predicate FreedInto(was: State, now: State, b: Block, next: Block?, prev: Block?, r: Block)
    {
      && r == (if prev != null then prev else b)
      && now.cells.Keys == was.cells.Keys - NotNull(next) - (if prev != null then {b} else {})
      && r in now.cells && forall x | x in now.cells && x != b :: now.cells[x] == was.cells[x]
    }

    static ghost function IfFree(b: Block?): Block?
      reads NotNull(b)
    {
      if b != null && b.isFree then b else null
    }

    /** The room from block b's data to the next header or the end of the page. */
    static ghost function RoomOf(b: Block, page: Page): int
      reads b
    {
      (if b.nextBlock == null then page.base + page.pageSize else b.nextBlock.addr) - b.addr - META
    }

    /** What is left of block b and its neighbours, in their own terms: b takes all the room behind it, or goes into
        the free block before it, which does not grow. */
    lemma FreedSays(b: Block, page: Page)
      requires Linked({}) && b in st.cells && !st.cells[b].free
      requires page == PageOf(st, b) && page in st.chains && PageKnown(st, page)
      ensures var t, next, prev := Freed(st, b), IfFree(b.nextBlock), IfFree(b.prevBlock);
        && FreedInto(st, t, b, next, prev, Head(st, b))
        && t.cells[Head(st, b)].size == if prev != null then prev.blockSize else RoomOf(b, page)
    {
      hide Listed, Free, Open, Freed;
      Neighbours(b);
      RoomBehind(b, page);
      FreedLeaves(st, b);
      if PrevFree(st, b) {
        assert Agrees(st, b.prevBlock);
      }
    }

    /** The first steps of mm_free_blocks: the block's page is looked up, the block freed and joined with its free
        neighbours. */
    method FreeAndJoin(b: Block) returns (page: Page, r: Block)
      requires Valid() && b in st.cells && !st.cells[b].free
      modifies `freeList, `st, st.cells.Keys
      ensures page == old(st).cells[b].page && page in old(st).chains && PageKnown(old(st), page)
      ensures st == Freed(old(st), b) && r == Head(old(st), b)
      ensures Linked({r}) && r in st.cells && st.cells[r].free
      ensures FreedInto(old(st), st, b, old(IfFree(b.nextBlock)), old(IfFree(b.prevBlock)), r)
      ensures st.cells[r].size ==
        if old(IfFree(b.prevBlock)) != null then old(b.prevBlock.blockSize) else old(RoomOf(b, st.cells[b].page))
    {
      hide Coalesced, Free, Listed, Mapped, OnlyPage, PageKnown, PageOk, PrevFree, FreedInto;
      ghost var s := st;
      page := HostingPage(b);
      FreedSays(b, page);
      OpenPlace(s, b);
      Absorb(b, page);
      r := Coalesce(b);
    }

    /** mm_free_blocks.  Exactly block b is taken from the application; its page goes back to the kernel
        if and only if b was the last allocated block on it. */
    method FreeBlocks(b: Block) returns (r: Block?)
      requires Valid() && b in st.cells && !st.cells[b].free
      modifies this, st.chains.Keys`next, st.chains.Keys`prev, st.cells.Keys
      ensures Valid() && Live(st) == Live(old(st)) - {b}
      ensures r == null <==> LastOnItsPage(old(st), b)
      ensures r == null ==> old(st).cells[b].page !in st.chains && pages == Without(old(pages), old(st).cells[b].page)
      ensures r != null ==> pages == old(pages) && r in st.cells && st.cells[r].free && r in freeList
      ensures r != null ==> FreedInto(old(st), st, b, old(IfFree(b.nextBlock)), old(IfFree(b.prevBlock)), r)
      ensures r != null ==>
        r.blockSize ==
        if old(IfFree(b.prevBlock)) != null then old(b.prevBlock.blockSize) else old(RoomOf(b, st.cells[b].page))
    {
      hide Coalesced, Free, Head, ListOfPages, Listed, Live, Mapped, OnlyPage, PageKnown, PageOk, PrevFree;
      hide FreedInto, IfFree, RoomOf, Freed;
      ghost var s := st;
      assert Linked({}) && PagesOk() && Sound(s) && AllInUse(s);
      AllInUseSays(s, b);
      var hostingPage, home := FreeAndJoin(b);
      assert PagesKnown(s);
      FreedValid(s, b, hostingPage);
      FreedOthersInUse(s, b);
      FreedLive(s, b);
      assert PagesOk();
      assert OneFreeBlock(hostingPage, home) <==> LastOnItsPage(s, b);
      var back := GiveBackOrList(hostingPage, home);
      r := if back then null else home;
      if r != null {
        AgreesSays(st, r);
      }
    }

    // ---- what this means for the application ----

    /** mm_instantiate_new_page_family. */
    constructor (structSize: nat, systemPageSize: nat)
      requires HDR + META < systemPageSize
      ensures Valid() && st == St(map[], map[], map[]) && pages == []
      ensures this.structSize == structSize && this.systemPageSize == systemPageSize
    {
      this.structSize, this.systemPageSize := structSize, systemPageSize;
      firstPage, freeList, pageAt := null, [], map[];
      st, pages := St(map[], map[], map[]), [];
    }

    /** xcalloc, once the family is found: `units` structures. */
    method Xcalloc(units: nat, base: int)
        returns (b: Block, ghost newPage: bool, ghost n: nat, ghost nb: Block)
      requires Valid() && Vacant(st.chains.Keys, base, systemPageSize * PagesRequired(units * structSize))
      modifies this, st.chains.Keys`next, st.chains.Keys`prev, st.cells.Keys
      ensures Valid() && Gains(old(st), st, b, units * structSize)
      ensures newPage <==> NoneBigEnough(old(st), units * structSize)
      ensures !newPage ==> b in old(st).cells
      ensures Parted(old(st), st, b, units * structSize,
        if newPage then st.cells[b].page.pageSize - HDR - META else old(st).cells[b].size, nb)
      ensures newPage ==> fresh(st.cells[b].page) && st.cells[b].page.pageSize == systemPageSize * n
      ensures newPage ==>
        (n - 1) * (systemPageSize - HDR - META) <= units * structSize < n * (systemPageSize - HDR - META)
    {
      ghost var k;
      var r;
      r, newPage, k, n, nb := AllocateFreeDataBlock(units * structSize, base);
      b := r;
    }

    /** xfree. */
    method Xfree(b: Block)
      requires Valid() && b in Live(st)
      modifies this, st.chains.Keys`next, st.chains.Keys`prev, st.cells.Keys
      ensures Valid() && Live(st) == Live(old(st)) - {b}
    {
      var _ := FreeBlocks(b);
    }

    /** Every block lies within its page, and its header leads back to the start of the page. */
    lemma WithinPage(b: Block)
      requires Valid() && b in st.cells
      ensures b.addr - b.offset in pageAt && pageAt[b.addr - b.offset] in st.chains
      ensures var page := pageAt[b.addr - b.offset];
        page.base + HDR <= b.addr && 0 <= b.blockSize && b.addr + META + b.blockSize <= page.base + page.pageSize
    {
      var p := PageOf(st, b);
      assert Agrees(st, b);
      assert BlockOk(st, b);
      assert PageKnown(st, p) && PageOk(st, p);
      InBounds(ChainOf(st, b), st.cells, p, st.limits[p], Place(st, b));
    }

    /** No two blocks, header and data, overlap: not on one page, nor on two. */
    lemma BlocksApart(a: Block, b: Block)
      requires Valid() && a in st.cells && b in st.cells && a != b
      ensures a.addr + META + a.blockSize <= b.addr || b.addr + META + b.blockSize <= a.addr
    {
      WithinPage(a);
      WithinPage(b);
      assert Agrees(st, a) && Agrees(st, b);
      var p := PageOf(st, a);
      if PageOf(st, b) == p {
        var i, j := Place(st, a), Place(st, b);
        InOrder(ChainOf(st, a), st.cells, p, st.limits[p], if i < j then i else j, if i < j then j else i);
      }
    }

    /** The free list holds exactly the free blocks, each once, the biggest first. */
    lemma FreeListExact()
      requires Valid()
      ensures forall b | b in st.cells :: b.isFree <==> b in freeList
      ensures forall i | 0 <= i < |freeList| :: freeList[i] in st.cells
      ensures forall i, j | 0 <= i < j < |freeList| ::
        freeList[i] != freeList[j] && freeList[i].blockSize >= freeList[j].blockSize
    {
      assert Free(st) - {} == Free(st);
      forall b | b in st.cells ensures b.isFree <==> b in freeList {
        assert Agrees(st, b);
      }
      forall i, j | 0 <= i < j < |freeList|
        ensures freeList[i] != freeList[j] && freeList[i].blockSize >= freeList[j].blockSize
      {
        assert Agrees(st, freeList[i]) && Agrees(st, freeList[j]);
      }
    }

    /** No two neighbours are free, and every page holds something of the application. */
    lemma PagesInUse(b: Block)
      requires Valid() && b in st.cells && b.isFree
      ensures b.nextBlock != null ==> b.nextBlock in st.cells && !b.nextBlock.isFree
      ensures b.prevBlock != null ==> b.prevBlock in st.cells && !b.prevBlock.isFree
      ensures b.nextBlock != null || b.prevBlock != null
    {
      AllInUseSays(st, b);
      NextPlace(st, b);
      assert Agrees(st, b);
      var c, j := ChainOf(st, b), Place(st, b);
      assert InUse(st, PageOf(st, b));
      if j + 1 < |c| {
        assert Agrees(st, c[j + 1]);
      }
      if j > 0 {
        assert Agrees(st, c[j - 1]);
      }
    }
  }
}
