/** All pages of a family together, and the list of their free blocks. */
module MemoryPages {
  import opened Lists
  import opened MemoryChains
  import opened Options

  /** limits gives the size of every page. */
  datatype St<B, P> = St(cells: map<B, Cell<P>>, chains: map<P, seq<B>>, limits: map<P, nat>)

  ghost predicate PageOk<B, P>(st: St<B, P>, p: P)
    requires p in st.chains
  {
    p in st.limits && ChainOk(st.chains[p], st.cells, p, st.limits[p])
  }

  ghost predicate BlockOk<B, P>(st: St<B, P>, b: B)
    requires b in st.cells
  {
    st.cells[b].page in st.chains && b in st.chains[st.cells[b].page]
  }

  ghost predicate Sound<B, P>(st: St<B, P>)
  {
    && (forall p {:trigger PageOk(st, p)} | p in st.chains :: PageOk(st, p))
    && (forall b {:trigger BlockOk(st, b)} | b in st.cells :: BlockOk(st, b))
  }

  /** A page has no two free neighbours, and not just one block that is free. */
  ghost predicate InUse<B, P>(st: St<B, P>, p: P)
    requires p in st.chains && PageOk(st, p)
  {
    var c := st.chains[p];
    Alternates(c, st.cells) && (|c| == 1 ==> !st.cells[c[0]].free)
  }

  ghost predicate AllInUse<B, P>(st: St<B, P>)
    requires Sound(st)
  {
    forall p {:trigger InUse(st, p)} | p in st.chains && PageOk(st, p) :: InUse(st, p)
  }

  ghost function Free<B, P>(st: St<B, P>): set<B>
  {
    set b | b in st.cells && st.cells[b].free
  }

  /** What the application holds: every allocated block, with its place and size. */
  ghost function Live<B, P>(st: St<B, P>): map<B, Cell<P>>
  {
    map b | b in st.cells && !st.cells[b].free :: st.cells[b]
  }

  // ---- the list of free blocks ----

  /** No free block holds size bytes. */
  ghost predicate NoneBigEnough<B, P>(st: St<B, P>, size: nat)
  {
    forall x | x in Free(st) :: st.cells[x].size < size
  }

  /** The list holds exactly the blocks of set f, each once, the biggest first. */
  ghost predicate Listed<B, P>(l: seq<B>, cells: map<B, Cell<P>>, f: set<B>)
  {
    && (forall a | 0 <= a < |l| :: l[a] in f && l[a] in cells)
    && (forall a, b | 0 <= a < b < |l| :: l[a] != l[b] && cells[l[a]].size >= cells[l[b]].size)
    && (forall x | x in f :: x in l)
  }

  lemma ListedSame<B, P>(l: seq<B>, cells: map<B, Cell<P>>, cells': map<B, Cell<P>>, f: set<B>)
    requires Listed(l, cells, f)
    requires forall b | b in f :: b in cells && b in cells' && cells'[b].size == cells[b].size
    ensures Listed(l, cells', f)
  {
  }

  lemma ListedCut<B, P>(l: seq<B>, cells: map<B, Cell<P>>, f: set<B>, k: nat)
    requires Listed(l, cells, f) && k < |l|
    ensures Listed(Cut(l, k), cells, f - {l[k]})
  {
  }

  lemma ListedWithout<B, P>(l: seq<B>, cells: map<B, Cell<P>>, f: set<B>, x: B)
    requires Listed(l, cells, f)
    ensures Listed(Without(l, x), cells, f - {x})
  {
    if x in l {
      ListedCut(l, cells, f, IndexOf(l, x));
    } else {
      assert f - {x} == f;
    }
  }

  /** Where glthread_priority_insert puts a free block: behind all those at least as big. */
  ghost predicate Ranked<B, P>(l: seq<B>, cells: map<B, Cell<P>>, k: nat, x: B)
    requires k <= |l| && x in cells && forall a | 0 <= a < |l| :: l[a] in cells
  {
    && (forall a | 0 <= a < k :: cells[l[a]].size >= cells[x].size)
    && (forall a | k <= a < |l| :: cells[x].size > cells[l[a]].size)
  }

  lemma ListedPut<B, P>(l: seq<B>, cells: map<B, Cell<P>>, f: set<B>, k: nat, x: B)
    requires Listed(l, cells, f) && x in cells && x !in f && k <= |l| && Ranked(l, cells, k, x)
    ensures Listed(Put(l, k, x), cells, f + {x})
  {
  }

  // ---- what one page's change leaves of the others ----

  lemma ChainSame<B, P>(c: seq<B>, cells: map<B, Cell<P>>, cells': map<B, Cell<P>>, page: P, limit: nat)
    requires ChainOk(c, cells, page, limit)
    requires forall b | b in cells && cells[b].page == page :: b in cells' && cells'[b] == cells[b]
    ensures ChainOk(c, cells', page, limit)
    ensures Alternates(c, cells) ==> Alternates(c, cells')
  {
    forall j | 0 <= j < |c| ensures Fits(c, cells', j, limit) {
      assert Fits(c, cells, j, limit);
    }
  }

  /** st' differs from st on page p only. */
  ghost predicate OnlyPage<B, P>(st: St<B, P>, st': St<B, P>, p: P)
  {
    && (forall q | q in st'.chains && q != p :: q in st.chains)
    && (forall q | q in st.chains && q != p :: q in st'.chains && st'.chains[q] == st.chains[q])
    && (forall q | q in st.limits && q != p :: q in st'.limits && st'.limits[q] == st.limits[q])
    && (forall b | b in st.cells && st.cells[b].page != p :: b in st'.cells && st'.cells[b] == st.cells[b])
    && (forall b | b in st'.cells && st'.cells[b].page != p :: b in st.cells && st.cells[b] == st'.cells[b])
  }

  lemma OthersOk<B, P>(st: St<B, P>, st': St<B, P>, p: P, q: P)
    requires Sound(st) && OnlyPage(st, st', p) && q in st.chains && q != p
    ensures q in st'.chains && PageOk(st', q) && PageOk(st, q)
    ensures InUse(st, q) ==> InUse(st', q)
  {
    assert PageOk(st, q);
    ChainSame(st.chains[q], st.cells, st'.cells, q, st.limits[q]);
  }

  lemma SoundAgain<B, P>(st: St<B, P>, st': St<B, P>, p: P)
    requires Sound(st) && OnlyPage(st, st', p)
    requires p in st'.chains ==> PageOk(st', p)
    requires forall b | b in st'.cells && st'.cells[b].page == p :: BlockOk(st', b)
    ensures Sound(st')
  {
    forall q | q in st'.chains ensures PageOk(st', q) {
      if q != p {
        OthersOk(st, st', p, q);
      }
    }
    forall b | b in st'.cells ensures BlockOk(st', b) {
      if st'.cells[b].page != p {
        assert BlockOk(st, b);
      }
    }
  }

  lemma InUseAgain<B, P>(st: St<B, P>, st': St<B, P>, p: P)
    requires Sound(st) && Sound(st') && OnlyPage(st, st', p)
    requires forall q {:trigger InUse(st, q)} | q in st.chains && q != p && PageOk(st, q) :: InUse(st, q)
    requires p in st'.chains ==> PageOk(st', p) && InUse(st', p)
    ensures AllInUse(st')
  {
    forall q | q in st'.chains && PageOk(st', q) ensures InUse(st', q) {
      if q != p {
        assert PageOk(st, q) && InUse(st, q);
        OthersOk(st, st', p, q);
      }
    }
  }

  // ---- the operations on the whole ----

  ghost function PageOf<B, P>(st: St<B, P>, b: B): P
    requires b in st.cells
  {
    st.cells[b].page
  }

  /** The chain of the page that block b lies on. */
  ghost function ChainOf<B, P>(st: St<B, P>, b: B): (c: seq<B>)
    requires Sound(st) && b in st.cells
    ensures PageOf(st, b) in st.chains && PageOk(st, PageOf(st, b)) && c == st.chains[PageOf(st, b)] && b in c
  {
    assert BlockOk(st, b);
    assert PageOk(st, PageOf(st, b));
    st.chains[PageOf(st, b)]
  }

  ghost function Place<B, P>(st: St<B, P>, b: B): (j: nat)
    requires Sound(st) && b in st.cells
    ensures j < |ChainOf(st, b)| && ChainOf(st, b)[j] == b
    ensures Fits(ChainOf(st, b), st.cells, j, st.limits[PageOf(st, b)])
  {
    IndexOf(ChainOf(st, b), b)
  }

  /** nb names a new block, if one is made. */
  ghost predicate Usable<B, P>(st: St<B, P>, b: B, size: nat, nb: B)
    requires b in st.cells && size <= st.cells[b].size
  {
    st.cells[b].size - size < META || nb !in st.cells
  }

  ghost function Allot<B, P>(st: St<B, P>, b: B, size: nat, nb: B): St<B, P>
    requires Sound(st) && b in st.cells && size <= st.cells[b].size
  {
    var p := PageOf(st, b);
    St(Allotted(st.cells, b, size, nb), st.chains[p := AllottedChain(ChainOf(st, b), st.cells, Place(st, b), size, nb)],
      st.limits)
  }

  lemma AllottedHas<B, P>(st: St<B, P>, b: B, size: nat, nb: B, x: B)
    requires Sound(st) && b in st.cells && size <= st.cells[b].size && Usable(st, b, size, nb)
    requires var st' := Allot(st, b, size, nb); x in st'.cells && st'.cells[x].page == PageOf(st, b)
    ensures x in Allot(st, b, size, nb).chains[PageOf(st, b)]
  {
    var c := ChainOf(st, b);
    if x in st.cells {
      assert BlockOk(st, x);
      if st.cells[b].size - size >= META {
        PutHas(c, Place(st, b) + 1, nb, x);
      }
    }
  }

  lemma AllottedInUse<B, P>(st: St<B, P>, b: B, size: nat, nb: B)
    requires Sound(st) && b in st.cells && size <= st.cells[b].size && Usable(st, b, size, nb)
    ensures var c' := Allot(st, b, size, nb).chains[PageOf(st, b)];
      |c'| == 1 ==> c'[0] in Allot(st, b, size, nb).cells && !Allot(st, b, size, nb).cells[c'[0]].free
  {
  }

  lemma AllotOk<B, P>(st: St<B, P>, b: B, size: nat, nb: B)
    requires Sound(st) && b in st.cells && st.cells[b].free && size <= st.cells[b].size && Usable(st, b, size, nb)
    requires Alternates(ChainOf(st, b), st.cells)
    ensures OnlyPage(st, Allot(st, b, size, nb), PageOf(st, b)) && Sound(Allot(st, b, size, nb))
    ensures InUse(Allot(st, b, size, nb), PageOf(st, b))
  {
    var p, j, st' := PageOf(st, b), Place(st, b), Allot(st, b, size, nb);
    var c := ChainOf(st, b);
    AllottedOk(c, st.cells, p, st.limits[p], j, size, nb);
    var c' := st'.chains[p];
    forall x | x in st'.cells && st'.cells[x].page == p ensures BlockOk(st', x) {
      AllottedHas(st, b, size, nb, x);
    }
    hide AllottedChain, ChainOk, Alternates;
    SoundAgain(st, st', p);
    AllottedInUse(st, b, size, nb);
  }

  /** The application holds one block more, of the size it asked for, and all others as they were. */
  lemma AllotLive<B, P>(st: St<B, P>, b: B, size: nat, nb: B)
    requires Sound(st) && b in st.cells && st.cells[b].free && size <= st.cells[b].size && Usable(st, b, size, nb)
    ensures Live(Allot(st, b, size, nb)) == Live(st)[b := Cell(PageOf(st, b), st.cells[b].off, size, false)]
    ensures Free(Allot(st, b, size, nb)) == Free(st) - {b} + if st.cells[b].size - size < META then {} else {nb}
  {
  }

  /** What the block had is the part asked for and a remainder too small for a header, or that part, the header of
      a new free block right behind it, and that block's bytes. */
  lemma AllotLosesNothing<B, P>(st: St<B, P>, b: B, size: nat, nb: B)
    requires Sound(st) && b in st.cells && st.cells[b].free && size <= st.cells[b].size && Usable(st, b, size, nb)
    ensures var x, t := st.cells[b], Allot(st, b, size, nb);
      && b in t.cells && t.cells[b] == Cell(x.page, x.off, size, false)
      && (forall y | y in st.cells && y != b :: y in t.cells && t.cells[y] == st.cells[y])
      && if x.size - size < META then t.cells.Keys == st.cells.Keys
         else
           && nb !in st.cells && t.cells.Keys == st.cells.Keys + {nb} && t.cells[nb].free && t.cells[nb].page == x.page
           && t.cells[nb].off == x.off + META + size && size + META + t.cells[nb].size == x.size
  {
  }

  ghost function Open<B, P>(st: St<B, P>, b: B): St<B, P>
    requires Sound(st) && b in st.cells
  {
    var p := PageOf(st, b);
    st.(cells := Opened(ChainOf(st, b), st.cells, Place(st, b), st.limits[p]))
  }

  lemma OpenOk<B, P>(st: St<B, P>, b: B)
    requires Sound(st) && b in st.cells
    ensures Sound(Open(st, b)) && OnlyPage(st, Open(st, b), PageOf(st, b))
    ensures Free(Open(st, b)) == Free(st) + {b}
  {
    var p, j, st' := PageOf(st, b), Place(st, b), Open(st, b);
    OpenedOk(st.chains[p], st.cells, p, st.limits[p], j);
    forall x | x in st'.cells && st'.cells[x].page == p ensures BlockOk(st', x) {
      assert BlockOk(st, x);
    }
    hide ChainOk;
    SoundAgain(st, st', p);
  }

  /** The block behind b is taken off the chain. */
  ghost function Join<B, P>(st: St<B, P>, b: B): St<B, P>
    requires Sound(st) && b in st.cells && Place(st, b) + 1 < |ChainOf(st, b)|
  {
    var p := PageOf(st, b);
    var k := Place(st, b) + 1;
    st.(cells := st.cells - {ChainOf(st, b)[k]}, chains := st.chains[p := Cut(ChainOf(st, b), k)])
  }

  lemma JoinOk<B, P>(st: St<B, P>, b: B)
    requires Sound(st) && b in st.cells && Place(st, b) + 1 < |ChainOf(st, b)|
    ensures Sound(Join(st, b)) && OnlyPage(st, Join(st, b), PageOf(st, b))
    ensures Free(Join(st, b)) == Free(st) - {ChainOf(st, b)[Place(st, b) + 1]}
  {
    var p, j, st' := PageOf(st, b), Place(st, b), Join(st, b);
    var c := ChainOf(st, b);
    JoinedOk(c, st.cells, p, st.limits[p], j);
    forall x | x in st'.cells && st'.cells[x].page == p ensures BlockOk(st', x) {
      assert BlockOk(st, x);
      CutHas(c, j + 1, x);
    }
    hide ChainOk;
    SoundAgain(st, st', p);
  }

  ghost predicate NextFree<B, P>(st: St<B, P>, b: B)
    requires Sound(st) && b in st.cells
  {
    Place(st, b) + 1 < |ChainOf(st, b)| && st.cells[ChainOf(st, b)[Place(st, b) + 1]].free
  }

  ghost predicate PrevFree<B, P>(st: St<B, P>, b: B)
    requires Sound(st) && b in st.cells
  {
    Place(st, b) > 0 && st.cells[ChainOf(st, b)[Place(st, b) - 1]].free
  }

  /** Block b joined with the block behind it if that is free. */
  ghost function JoinedNext<B, P>(st: St<B, P>, b: B): St<B, P>
    requires Sound(st) && b in st.cells
  {
    if NextFree(st, b) then Join(st, b) else st
  }

  /** Block b joined with the block before it if that is free. */
  ghost function JoinedPrev<B, P>(st: St<B, P>, b: B): St<B, P>
    requires Sound(st) && b in st.cells
  {
    if PrevFree(st, b) then Join(st, ChainOf(st, b)[Place(st, b) - 1]) else st
  }

  ghost function Head<B, P>(st: St<B, P>, b: B): B
    requires Sound(st) && b in st.cells
  {
    if PrevFree(st, b) then ChainOf(st, b)[Place(st, b) - 1] else b
  }

  lemma JoinedNextOk<B, P>(st: St<B, P>, b: B)
    requires Sound(st) && b in st.cells
    ensures var st' := JoinedNext(st, b);
      && Sound(st') && OnlyPage(st, st', PageOf(st, b)) && b in st'.cells && st'.cells[b] == st.cells[b]
      && Place(st', b) == Place(st, b)
      && (PrevFree(st', b) <==> PrevFree(st, b)) && Head(st', b) == Head(st, b)
      && ChainOf(st', b) == (if NextFree(st, b) then Cut(ChainOf(st, b), Place(st, b) + 1) else ChainOf(st, b))
      && st'.cells == (if NextFree(st, b) then st.cells - {ChainOf(st, b)[Place(st, b) + 1]} else st.cells)
  {
    var j, c := Place(st, b), ChainOf(st, b);
    if NextFree(st, b) {
      JoinOk(st, b);
      var st' := Join(st, b);
      assert Distinct(c);
      CutAt(c, j + 1, j);
      if j > 0 {
        CutAt(c, j + 1, j - 1);
      }
      assert b in st'.cells;
      assert ChainOf(st', b) == Cut(c, j + 1);
      At(ChainOf(st', b), j);
    }
  }

  lemma JoinedPrevOk<B, P>(st: St<B, P>, b: B)
    requires Sound(st) && b in st.cells
    ensures var st' := JoinedPrev(st, b); var m := Head(st, b);
      && Sound(st') && OnlyPage(st, st', PageOf(st, b)) && m in st'.cells && m in st.cells
        && st'.cells[m] == st.cells[m]
      && PageOf(st', m) == PageOf(st, b)
      && ChainOf(st', m) == (if PrevFree(st, b) then Cut(ChainOf(st, b), Place(st, b)) else ChainOf(st, b))
      && st'.cells == (if PrevFree(st, b) then st.cells - {b} else st.cells)
  {
    var j, c := Place(st, b), ChainOf(st, b);
    if PrevFree(st, b) {
      var m := c[j - 1];
      assert Distinct(c);
      assert PageOf(st, m) == PageOf(st, b);
      At(c, j - 1);
      JoinOk(st, m);
    }
  }

  /** Block b joined with its free neighbours on both sides. */
  ghost function Coalesced<B, P>(st: St<B, P>, b: B): St<B, P>
    requires Sound(st) && b in st.cells
  {
    JoinedNextOk(st, b);
    JoinedPrev(JoinedNext(st, b), b)
  }

  /** All that freeing block b does to its page. */
  ghost function Freed<B, P>(st: St<B, P>, b: B): St<B, P>
    requires Sound(st) && b in st.cells
  {
    OpenOk(st, b);
    Coalesced(Open(st, b), b)
  }

  lemma OpenPlace<B, P>(st: St<B, P>, b: B)
    requires Sound(st) && b in st.cells
    ensures var s := Open(st, b);
      && Sound(s) && OnlyPage(st, s, PageOf(st, b)) && b in s.cells && s.cells[b].free && PageOf(s, b) == PageOf(st, b)
      && s.cells.Keys == st.cells.Keys
      && ChainOf(s, b) == ChainOf(st, b) && Place(s, b) == Place(st, b)
      && (NextFree(s, b) <==> NextFree(st, b)) && (PrevFree(s, b) <==> PrevFree(st, b)) && Head(s, b) == Head(st, b)
  {
    OpenOk(st, b);
    var c, j := ChainOf(st, b), Place(st, b);
    assert Distinct(c);
    if j > 0 {
      assert c[j - 1] != b;
    }
    if j + 1 < |c| {
      assert c[j + 1] != b;
    }
  }

  /** The block that remains, and what else is left of the others. */
  lemma FreedLeaves<B, P>(st: St<B, P>, b: B)
    requires Sound(st) && b in st.cells && !st.cells[b].free
    ensures var t, h, c, j := Freed(st, b), Head(st, b), ChainOf(st, b), Place(st, b);
      && h == (if PrevFree(st, b) then c[j - 1] else b) && h in t.cells && t.cells[h].free
      && t.cells.Keys == st.cells.Keys - (if NextFree(st, b) then {c[j + 1]} else {})
                         - (if PrevFree(st, b) then {b} else {})
      && (forall x | x in t.cells && x != b :: t.cells[x] == st.cells[x])
      && (h == b ==> t.cells[b] == Open(st, b).cells[b])
  {
    hide Sound, OnlyPage, Cut;
    var s1 := Open(st, b);
    OpenPlace(st, b);
    JoinedNextOk(s1, b);
    JoinedPrevOk(JoinedNext(s1, b), b);
  }

  lemma FreedIsReleased<B, P>(st: St<B, P>, b: B)
    requires Sound(st) && b in st.cells && !st.cells[b].free
    ensures var st' := Freed(st, b); var m := Head(st, b); var p, j, c := PageOf(st, b), Place(st, b), ChainOf(st, b);
      && Sound(st') && m in st'.cells && PageOf(st', m) == p && st'.cells[m].free
      && ChainOf(st', m) == Released(c, st.cells, j)
      && st'.cells == Opened(c, st.cells, j, st.limits[p]) - Gone(c, st.cells, j)
  {
    hide Sound, OnlyPage, Cut;
    var s1 := Open(st, b);
    OpenPlace(st, b);
    JoinedNextOk(s1, b);
    JoinedPrevOk(JoinedNext(s1, b), b);
    var p, j, c := PageOf(st, b), Place(st, b), ChainOf(st, b);
    assert Freed(st, b).cells == Opened(c, st.cells, j, st.limits[p]) - Gone(c, st.cells, j);
  }

  lemma OnlyPageTwice<B, P>(s: St<B, P>, t: St<B, P>, u: St<B, P>, p: P)
    requires OnlyPage(s, t, p) && OnlyPage(t, u, p)
    ensures OnlyPage(s, u, p)
  {
  }

  lemma FreedOnlyPage<B, P>(st: St<B, P>, b: B)
    requires Sound(st) && b in st.cells
    ensures OnlyPage(st, Freed(st, b), PageOf(st, b))
  {
    var s1 := Open(st, b);
    OpenPlace(st, b);
    JoinedNextOk(s1, b);
    JoinedPrevOk(JoinedNext(s1, b), b);
    hide OnlyPage, Sound;
    OnlyPageTwice(st, s1, JoinedNext(s1, b), PageOf(st, b));
    OnlyPageTwice(st, JoinedNext(s1, b), Freed(st, b), PageOf(st, b));
  }

  /** What freeing block b does to the record of any block. */
  lemma FreedCell<B, P>(st: St<B, P>, b: B, x: B)
    requires Sound(st) && b in st.cells && !st.cells[b].free
    ensures x in Freed(st, b).cells ==>
      x in st.cells && (if x == b then Freed(st, b).cells[x].free else Freed(st, b).cells[x] == st.cells[x])
    ensures x in st.cells && !st.cells[x].free && x != b ==> x in Freed(st, b).cells
  {
  }

  lemma FreedLive<B, P>(st: St<B, P>, b: B)
    requires Sound(st) && b in st.cells && !st.cells[b].free
    ensures Live(Freed(st, b)) == Live(st) - {b}
  {
    forall x
      ensures x in Live(Freed(st, b)) <==> x in Live(st) - {b}
      ensures x in Live(Freed(st, b)) ==> Live(Freed(st, b))[x] == st.cells[x]
    {
      FreedCell(st, b, x);
    }
    hide Freed;
  }

  /** Freeing keeps the chains sound and free blocks apart, takes exactly block b from the application,
      and leaves one free block where b was. */
  lemma FreedOk<B, P>(st: St<B, P>, b: B)
    requires Sound(st) && b in st.cells && !st.cells[b].free && Alternates(ChainOf(st, b), st.cells)
    ensures var st' := Freed(st, b); var m := Head(st, b);
      && Sound(st') && OnlyPage(st, st', PageOf(st, b)) && m in st'.cells && st'.cells[m].free
        && PageOf(st', m) == PageOf(st, b)
      && Alternates(ChainOf(st', m), st'.cells)
      && Live(st') == Live(st) - {b}
  {
    FreedIsReleased(st, b);
    ReleasedAlternates(ChainOf(st, b), st.cells, PageOf(st, b), st.limits[PageOf(st, b)], Place(st, b));
    FreedOnlyPage(st, b);
    FreedLive(st, b);
  }

  /** A page whose free blocks are apart holds nothing of the application exactly when it is one free block. */
  lemma EmptyPage<B, P>(st: St<B, P>, p: P)
    requires Sound(st) && p in st.chains && PageOk(st, p) && Alternates(st.chains[p], st.cells)
    ensures |st.chains[p]| == 1 && st.cells[st.chains[p][0]].free <==> forall b | b in Live(st) :: Live(st)[b].page != p
  {
    var c := st.chains[p];
    if |c| == 1 && st.cells[c[0]].free {
      forall b | b in Live(st) ensures Live(st)[b].page != p {
        assert BlockOk(st, b);
      }
    } else if !st.cells[c[0]].free {
      assert c[0] in Live(st);
    } else {
      assert c[1] in Live(st);
    }
  }

  ghost function AddPage<B, P>(st: St<B, P>, p: P, limit: nat, first: B): St<B, P>
    requires HDR + META <= limit
  {
    St(st.cells[first := Cell(p, HDR, limit - HDR - META, true)], st.chains[p := [first]], st.limits[p := limit])
  }

  lemma AddPageOk<B, P>(st: St<B, P>, p: P, limit: nat, first: B)
    requires Sound(st) && p !in st.chains && first !in st.cells && HDR + META <= limit
    ensures Sound(AddPage(st, p, limit, first)) && OnlyPage(st, AddPage(st, p, limit, first), p)
    ensures Alternates([first], AddPage(st, p, limit, first).cells)
    ensures Live(AddPage(st, p, limit, first)) == Live(st)
    ensures Free(AddPage(st, p, limit, first)) == Free(st) + {first}
  {
    var st' := AddPage(st, p, limit, first);
    forall b | b in st.cells ensures st.cells[b].page != p {
      assert BlockOk(st, b);
    }
    assert Fits([first], st'.cells, 0, limit);
    SoundAgain(st, st', p);
  }

  ghost function DropPage<B, P>(st: St<B, P>, p: P): St<B, P>
    requires p in st.chains
  {
    St(st.cells - (set b | b in st.chains[p]), st.chains - {p}, st.limits - {p})
  }

  lemma DropPageOk<B, P>(st: St<B, P>, p: P)
    requires Sound(st) && p in st.chains && |st.chains[p]| == 1 && PageOk(st, p) && st.cells[st.chains[p][0]].free
    ensures Sound(DropPage(st, p)) && OnlyPage(st, DropPage(st, p), p)
    ensures DropPage(st, p).cells == st.cells - {st.chains[p][0]}
    ensures Live(DropPage(st, p)) == Live(st)
    ensures Free(DropPage(st, p)) == Free(st) - {st.chains[p][0]}
  {
    var st' := DropPage(st, p);
    assert (set b | b in st.chains[p]) == {st.chains[p][0]};
    forall b | b in st'.cells ensures st'.cells[b].page != p {
      assert BlockOk(st, b);
    }
    SoundAgain(st, st', p);
  }

  // ---- what the operations do to the links of each block ----

  ghost function NextOf<B, P>(st: St<B, P>, b: B): Option<B>
    requires b in st.cells && st.cells[b].page in st.chains
  {
    After(st.chains[st.cells[b].page], b)
  }

  ghost function PrevOf<B, P>(st: St<B, P>, b: B): Option<B>
    requires b in st.cells && st.cells[b].page in st.chains
  {
    Before(st.chains[st.cells[b].page], b)
  }

  ghost predicate SameLinks<B, P>(st: St<B, P>, st': St<B, P>, b: B)
    requires b in st.cells && st.cells[b].page in st.chains
    requires b in st'.cells && st'.cells[b].page in st'.chains
  {
    NextOf(st', b) == NextOf(st, b) && PrevOf(st', b) == PrevOf(st, b)
  }

  lemma NextPlace<B, P>(st: St<B, P>, b: B)
    requires Sound(st) && b in st.cells
    ensures BlockOk(st, b)
    ensures NextOf(st, b) == if Place(st, b) + 1 < |ChainOf(st, b)| then Some(ChainOf(st, b)[Place(st, b) + 1])
      else None
    ensures PrevOf(st, b) == if Place(st, b) > 0 then Some(ChainOf(st, b)[Place(st, b) - 1]) else None
  {
  }

  lemma OtherLinks<B, P>(st: St<B, P>, st': St<B, P>, p: P, x: B)
    requires Sound(st) && Sound(st') && OnlyPage(st, st', p) && x in st.cells && st.cells[x].page != p
    ensures BlockOk(st, x) && x in st'.cells && st'.cells[x] == st.cells[x] && BlockOk(st', x) && SameLinks(st, st', x)
  {
  }

  lemma AllotLinks<B, P>(st: St<B, P>, b: B, size: nat, nb: B, x: B)
    requires Sound(st) && b in st.cells && size <= st.cells[b].size && Usable(st, b, size, nb)
    requires Sound(Allot(st, b, size, nb)) && OnlyPage(st, Allot(st, b, size, nb), PageOf(st, b))
    requires x in Allot(st, b, size, nb).cells
    ensures BlockOk(Allot(st, b, size, nb), x) && BlockOk(st, b)
    ensures x in st.cells ==> BlockOk(st, x)
    ensures st.cells[b].size - size < META ==> x in st.cells && SameLinks(st, Allot(st, b, size, nb), x)
    ensures st.cells[b].size - size >= META ==> var st' := Allot(st, b, size, nb);
      && NextOf(st', x) == (if x == b then Some(nb) else if x == nb then NextOf(st, b) else NextOf(st, x))
      && PrevOf(st', x) == (if x == nb then Some(b) else if NextOf(st, b) == Some(x) then Some(nb) else PrevOf(st, x))
  {
    var st' := Allot(st, b, size, nb);
    assert BlockOk(st', x) && BlockOk(st, b);
    assert x in st.cells ==> BlockOk(st, x);
    var c := ChainOf(st, b);
    var _ := Place(st, b);
    if x in st.cells && st.cells[x].page != PageOf(st, b) {
      OtherLinks(st, st', PageOf(st, b), x);
      NextPlace(st, b);
    } else if st.cells[b].size - size >= META {
      LinksAfterPut(c, Place(st, b), nb, x);
    }
  }

  lemma JoinLinks<B, P>(st: St<B, P>, b: B, x: B)
    requires Sound(st) && b in st.cells && Place(st, b) + 1 < |ChainOf(st, b)|
    requires Sound(Join(st, b)) && OnlyPage(st, Join(st, b), PageOf(st, b))
    requires x in Join(st, b).cells
    ensures BlockOk(Join(st, b), x) && BlockOk(st, x) && b in Join(st, b).cells && Join(st, b).cells[x] == st.cells[x]
    ensures var second := ChainOf(st, b)[Place(st, b) + 1]; var st' := Join(st, b);
      && second in st.cells && BlockOk(st, second)
      && NextOf(st', x) == (if x == b then NextOf(st, second) else NextOf(st, x))
      && PrevOf(st', x) == (if NextOf(st, second) == Some(x) then Some(b) else PrevOf(st, x))
  {
    var st' := Join(st, b);
    var c, j := ChainOf(st, b), Place(st, b);
    var second := c[j + 1];
    assert BlockOk(st', x) && BlockOk(st, x) && BlockOk(st, second);
    assert Distinct(c);
    NextPlace(st, second);
    if st.cells[x].page != PageOf(st, b) {
      OtherLinks(st, st', PageOf(st, b), x);
    } else {
      LinksAfterCut(c, j, x);
    }
  }

  lemma OpenLinks<B, P>(st: St<B, P>, b: B, x: B)
    requires Sound(st) && b in st.cells && x in st.cells
    ensures BlockOk(st, x) && x in Open(st, b).cells && Open(st, b).cells[x].page == st.cells[x].page
    ensures Open(st, b).chains == st.chains
    ensures x != b ==> Open(st, b).cells[x] == st.cells[x]
  {
  }

  ghost predicate OthersInUse<B, P>(st: St<B, P>, p: P)
    requires Sound(st)
  {
    forall q {:trigger InUse(st, q)} | q in st.chains && q != p && PageOk(st, q) :: InUse(st, q)
  }

  lemma AddPageOthersInUse<B, P>(st: St<B, P>, p: P, limit: nat, first: B)
    requires Sound(st) && AllInUse(st) && p !in st.chains && first !in st.cells && HDR + META <= limit
    ensures Sound(AddPage(st, p, limit, first)) && OthersInUse(AddPage(st, p, limit, first), p)
  {
    AddPageOk(st, p, limit, first);
    var st' := AddPage(st, p, limit, first);
    forall q | q in st'.chains && q != p && PageOk(st', q) ensures InUse(st', q) {
      assert PageOk(st, q) && InUse(st, q);
      OthersOk(st, st', p, q);
    }
  }

  lemma AllInUseSays<B, P>(st: St<B, P>, b: B)
    requires Sound(st) && AllInUse(st) && b in st.cells
    ensures OthersInUse(st, PageOf(st, b)) && Alternates(ChainOf(st, b), st.cells)
  {
    var p := PageOf(st, b);
    var _ := ChainOf(st, b);
    assert PageOk(st, p) && InUse(st, p);
  }

  lemma AllotAllInUse<B, P>(st: St<B, P>, b: B, size: nat, nb: B)
    requires Sound(st) && b in st.cells && st.cells[b].free && size <= st.cells[b].size && Usable(st, b, size, nb)
    requires OthersInUse(st, PageOf(st, b)) && Alternates(ChainOf(st, b), st.cells)
    ensures Sound(Allot(st, b, size, nb)) && AllInUse(Allot(st, b, size, nb))
  {
    AllotOk(st, b, size, nb);
    hide Allot, OnlyPage, Sound, InUse;
    InUseAgain(st, Allot(st, b, size, nb), PageOf(st, b));
  }

  /** The first block of a page stays the first. */
  lemma AllotHead<B, P>(st: St<B, P>, b: B, size: nat, nb: B, p: P)
    requires Sound(st) && b in st.cells && size <= st.cells[b].size && p in st.chains
    ensures PageOk(st, p) && p in Allot(st, b, size, nb).chains
    ensures Allot(st, b, size, nb).chains[p] != [] && Allot(st, b, size, nb).chains[p][0] == st.chains[p][0]
    ensures Allot(st, b, size, nb).limits == st.limits && Allot(st, b, size, nb).chains.Keys == st.chains.Keys
  {
  }

  lemma FreedKeys<B, P>(st: St<B, P>, b: B)
    requires Sound(st) && b in st.cells
    ensures Freed(st, b).limits == st.limits && Freed(st, b).chains.Keys == st.chains.Keys
  {
  }

  lemma FreedHead<B, P>(st: St<B, P>, b: B, p: P)
    requires Sound(st) && b in st.cells && !st.cells[b].free && p in st.chains
    ensures PageOk(st, p) && p in Freed(st, b).chains
    ensures Freed(st, b).chains[p] != [] && Freed(st, b).chains[p][0] == st.chains[p][0]
    ensures Freed(st, b).limits == st.limits && Freed(st, b).chains.Keys == st.chains.Keys
  {
    assert PageOk(st, p);
    var j, c := Place(st, b), ChainOf(st, b);
    FreedIsReleased(st, b);
    FreedOnlyPage(st, b);
    FreedKeys(st, b);
    if p == PageOf(st, b) {
      assert PageOk(Freed(st, b), p);
      ReleasedAt(c, st.cells, j, 0);
    }
  }

  lemma DropPageInUse<B, P>(st: St<B, P>, p: P)
    requires Sound(st) && p in st.chains && |st.chains[p]| == 1 && PageOk(st, p) && st.cells[st.chains[p][0]].free
    requires OthersInUse(st, p)
    ensures Sound(DropPage(st, p)) && AllInUse(DropPage(st, p))
  {
    DropPageOk(st, p);
    hide OnlyPage, Sound, InUse;
    assert p !in DropPage(st, p).chains;
    InUseAgain(st, DropPage(st, p), p);
  }

  lemma FreedOthersInUse<B, P>(st: St<B, P>, b: B)
    requires Sound(st) && AllInUse(st) && b in st.cells && !st.cells[b].free
    ensures Sound(Freed(st, b)) && OthersInUse(Freed(st, b), PageOf(st, b))
  {
    var st', p := Freed(st, b), PageOf(st, b);
    FreedIsReleased(st, b);
    FreedOnlyPage(st, b);
    FreedKeys(st, b);
    hide Freed;
    forall q | q in st'.chains && q != p && PageOk(st', q) ensures InUse(st', q) {
      assert PageOk(st, q) && InUse(st, q);
      OthersOk(st, st', p, q);
    }
  }

  /** A page is in use again after freeing block b, or it is one free block; that is so exactly when the
      application held nothing else on it. */
  lemma FreedPage<B, P>(st: St<B, P>, b: B)
    requires Sound(st) && AllInUse(st) && b in st.cells && !st.cells[b].free
    ensures var t := Freed(st, b); var p := PageOf(st, b);
      && Sound(t) && p in t.chains && PageOk(t, p)
      && (|t.chains[p]| == 1 && t.cells[t.chains[p][0]].free <==> forall x | x in Live(st) && x != b ::
        Live(st)[x].page != p)
      && (|t.chains[p]| == 1 ==> t.chains[p][0] == Head(st, b))
      && (!(|t.chains[p]| == 1 && t.cells[t.chains[p][0]].free) ==> AllInUse(t))
  {
    AllInUseSays(st, b);
    FreedOk(st, b);
    FreedOthersInUse(st, b);
    var t, p, m := Freed(st, b), PageOf(st, b), Head(st, b);
    var c := ChainOf(t, m);
    assert p in t.chains && PageOk(t, p) && c == t.chains[p];
    EmptyPage(t, p);
    hide Freed, Alternates, OnlyPage, ChainOk;
    assert forall x | x in Live(t) :: Live(t)[x] == Live(st)[x] && x in Live(st) && x != b;
    assert forall x | x in Live(st) && x != b :: x in Live(t);
    if !(|c| == 1 && t.cells[c[0]].free) {
      assert InUse(t, p);
    }
  }

  lemma WastedAfter<B, P>(st: St<B, P>, a: B, x: B, b: B, p: P)
    requires a != x && x != b && a != b && Sound(st) && AllInUse(st)
    requires st.cells == map[a := Cell(p, 32, 100, false), x := Cell(p, 180, 100, true), b := Cell(p, 328, 1000, false)]
    requires st.chains == map[p := [a, x, b]] && st.limits == map[p := 4096]
    ensures var t := Freed(st, a);
      && Sound(t) && AllInUse(t) && NoneBigEnough(t, 200)
      && a in t.cells && t.cells[a].free && p in t.chains && t.chains[p] == [a, b] && OnPage([a, b], t.cells, p)
      && RoomEnd([a, b], t.cells, 0, 4096) - t.cells[a].off - META == 248
  {
    var c := [a, x, b];
    FreedIsReleased(st, a);
    FreedPage(st, a);
    assert PageOk(st, p) && Place(st, a) == 0 && ChainOf(st, a) == c;
    hide Sound, Freed, InUse, Alternates;
    assert Released(c, st.cells, 0) == [a, b];
    assert Opened(c, st.cells, 0, 4096) - Gone(c, st.cells, 0) ==
      map[a := Cell(p, 32, 100, true), b := Cell(p, 328, 1000, false)];
  }

  /** Room wasted: block a is freed in front of the free block x, and then no free block holds 200 bytes, so that a
      new page would be taken for them, although from a's header to the next there is room for 248. */
  lemma WastedRoom<B, P>(a: B, x: B, b: B, p: P)
    requires a != x && x != b && a != b
    ensures
      var cells := map[a := Cell(p, 32, 100, false), x := Cell(p, 180, 100, true), b := Cell(p, 328, 1000, false)];
      var st := St(cells, map[p := [a, x, b]], map[p := 4096]);
      && Sound(st) && AllInUse(st)
      && var t := Freed(st, a);
         && Sound(t) && AllInUse(t) && NoneBigEnough(t, 200)
         && a in t.cells && t.cells[a].free && p in t.chains && t.chains[p] == [a, b] && OnPage([a, b], t.cells, p)
         && RoomEnd([a, b], t.cells, 0, 4096) - t.cells[a].off - META == 248
  {
    var cells := map[a := Cell(p, 32, 100, false), x := Cell(p, 180, 100, true), b := Cell(p, 328, 1000, false)];
    var c := [a, x, b];
    var st := St(cells, map[p := c], map[p := 4096]);
    assert Fits(c, cells, 0, 4096) && Fits(c, cells, 1, 4096) && Fits(c, cells, 2, 4096);
    assert ChainOk(c, cells, p, 4096);
    assert PageOk(st, p) && BlockOk(st, a) && BlockOk(st, x) && BlockOk(st, b);
    assert InUse(st, p);
    WastedAfter(st, a, x, b, p);
  }
}
