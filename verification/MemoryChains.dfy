/** Pages of memory cut into chained blocks, as values: where every block lies, which are free, and the
    list of the free ones.  B names blocks, P names pages. */
module MemoryChains {
  import opened Lists
  import opened Options

  /** On a 64-bit machine: what precedes the first block's header in a page, and the size of a header. */
  const HDR: nat := 32
  const META: nat := 48

  /** off counts from the start of the page to the block's header; size is that of its data. */
  datatype Cell<P> = Cell(page: P, off: nat, size: nat, free: bool)

  // ---- the chain of one page ----

  ghost predicate OnPage<B, P>(c: seq<B>, cells: map<B, Cell<P>>, page: P)
  {
    forall j | 0 <= j < |c| :: c[j] in cells && cells[c[j]].page == page
  }

  /** Where the room of block j ends: at the next header, or at the end of the page. */
  ghost function RoomEnd<B, P>(c: seq<B>, cells: map<B, Cell<P>>, j: nat, limit: nat): nat
    requires j < |c| && forall i | 0 <= i < |c| :: c[i] in cells
  {
    if j + 1 < |c| then cells[c[j + 1]].off else limit
  }

  ghost predicate Fits<B, P>(c: seq<B>, cells: map<B, Cell<P>>, j: nat, limit: nat)
    requires j < |c| && forall i | 0 <= i < |c| :: c[i] in cells
  {
    cells[c[j]].off + META + cells[c[j]].size <= RoomEnd(c, cells, j, limit)
  }

  /** The blocks of a chain lie one after the other, from the page's header to its end at most. */
  ghost predicate ChainOk<B, P>(c: seq<B>, cells: map<B, Cell<P>>, page: P, limit: nat)
  {
    && c != [] && Distinct(c) && OnPage(c, cells, page)
    && cells[c[0]].off == HDR
    && (forall j {:trigger Fits(c, cells, j, limit)} | 0 <= j < |c| :: Fits(c, cells, j, limit))
  }

  /** No two neighbours are free. */
  ghost predicate Alternates<B, P>(c: seq<B>, cells: map<B, Cell<P>>)
    requires forall i | 0 <= i < |c| :: c[i] in cells
  {
    forall j | 0 <= j < |c| - 1 :: !(cells[c[j]].free && cells[c[j + 1]].free)
  }

  lemma {:induction false} InOrder<B, P>(c: seq<B>, cells: map<B, Cell<P>>, page: P, limit: nat, i: nat, j: nat)
    requires ChainOk(c, cells, page, limit) && i < j < |c|
    ensures cells[c[i]].off + META + cells[c[i]].size <= cells[c[j]].off
    decreases j
  {
    assert Fits(c, cells, j - 1, limit);
    if i < j - 1 {
      InOrder(c, cells, page, limit, i, j - 1);
    }
  }

  lemma InBounds<B, P>(c: seq<B>, cells: map<B, Cell<P>>, page: P, limit: nat, j: nat)
    requires ChainOk(c, cells, page, limit) && j < |c|
    ensures HDR <= cells[c[j]].off && cells[c[j]].off + META + cells[c[j]].size <= limit
  {
    if j > 0 {
      InOrder(c, cells, page, limit, 0, j);
    }
    assert Fits(c, cells, |c| - 1, limit);
    if j < |c| - 1 {
      InOrder(c, cells, page, limit, j, |c| - 1);
    }
  }

  // ---- cutting a block in two ----

  /** The free block b becomes an allocated one of the given size; what remains becomes a free block nb
      if there is room for its header. */
  ghost function Allotted<B, P>(cells: map<B, Cell<P>>, b: B, size: nat, nb: B): map<B, Cell<P>>
    requires b in cells && size <= cells[b].size
  {
    var x := cells[b];
    var taken := cells[b := Cell(x.page, x.off, size, false)];
    if x.size - size < META then taken
    else taken[nb := Cell(x.page, x.off + META + size, x.size - size - META, true)]
  }

  ghost function AllottedChain<B, P>(c: seq<B>, cells: map<B, Cell<P>>, j: nat, size: nat, nb: B): seq<B>
    requires j < |c| && c[j] in cells && size <= cells[c[j]].size
  {
    if cells[c[j]].size - size < META then c else Put(c, j + 1, nb)
  }

  lemma TakenOk<B, P>(c: seq<B>, cells: map<B, Cell<P>>, page: P, limit: nat, j: nat, size: nat, nb: B)
    requires ChainOk(c, cells, page, limit) && Alternates(c, cells)
    requires j < |c| && cells[c[j]].free && size <= cells[c[j]].size < size + META
    ensures ChainOk(c, Allotted(cells, c[j], size, nb), page, limit)
    ensures Alternates(c, Allotted(cells, c[j], size, nb))
  {
    var cells' := Allotted(cells, c[j], size, nb);
    forall i | 0 <= i < |c| ensures Fits(c, cells', i, limit) {
      assert Fits(c, cells, i, limit);
    }
  }

  lemma SplitFits<B, P>(c: seq<B>, c': seq<B>, cells: map<B, Cell<P>>, j: nat, size: nat, nb: B, limit: nat, i: nat)
    requires Distinct(c) && (forall a | 0 <= a < |c| :: c[a] in cells)
    requires forall a {:trigger Fits(c, cells, a, limit)} | 0 <= a < |c| :: Fits(c, cells, a, limit)
    requires j < |c| && size + META <= cells[c[j]].size && nb !in cells && i < |c'| == |c| + 1
    requires forall a {:trigger c'[a]} | 0 <= a < |c'| ::
      c'[a] == if a <= j then c[a] else if a == j + 1 then nb else c[a - 1]
    requires forall a | 0 <= a < |c'| :: c'[a] in Allotted(cells, c[j], size, nb)
    ensures Fits(c', Allotted(cells, c[j], size, nb), i, limit)
  {
    assert c'[i] == if i <= j then c[i] else if i == j + 1 then nb else c[i - 1];
    assert i + 1 < |c'| ==> c'[i + 1] == if i < j then c[i + 1] else if i == j then nb else c[i];
    if i <= j {
      assert Fits(c, cells, i, limit);
    } else if i == j + 1 {
      assert Fits(c, cells, j, limit);
    } else {
      assert Fits(c, cells, i - 1, limit);
    }
  }

  lemma SplitOk<B, P>(c: seq<B>, cells: map<B, Cell<P>>, page: P, limit: nat, j: nat, size: nat, nb: B)
    requires ChainOk(c, cells, page, limit) && Alternates(c, cells)
    requires j < |c| && cells[c[j]].free && size + META <= cells[c[j]].size && nb !in cells
    ensures ChainOk(Put(c, j + 1, nb), Allotted(cells, c[j], size, nb), page, limit)
    ensures Alternates(Put(c, j + 1, nb), Allotted(cells, c[j], size, nb))
  {
    var c', cells' := Put(c, j + 1, nb), Allotted(cells, c[j], size, nb);
    assert nb !in c;
    PutDistinct(c, j + 1, nb);
    forall i | 0 <= i < |c'| ensures c'[i] == if i <= j then c[i] else if i == j + 1 then nb else c[i - 1] {
      PutAt(c, j + 1, nb, i);
    }
    hide Put;
    assert OnPage(c', cells', page) by {
      forall i | 0 <= i < |c'| ensures c'[i] in cells' && cells'[c'[i]].page == page {
        assert c'[i] == if i <= j then c[i] else if i == j + 1 then nb else c[i - 1];
      }
    }
    forall i | 0 <= i < |c'| ensures Fits(c', cells', i, limit) {
      SplitFits(c, c', cells, j, size, nb, limit, i);
    }
  }

  lemma AllottedOk<B, P>(c: seq<B>, cells: map<B, Cell<P>>, page: P, limit: nat, j: nat, size: nat, nb: B)
    requires ChainOk(c, cells, page, limit) && Alternates(c, cells)
    requires j < |c| && cells[c[j]].free && size <= cells[c[j]].size
    requires cells[c[j]].size - size < META || nb !in cells
    ensures ChainOk(AllottedChain(c, cells, j, size, nb), Allotted(cells, c[j], size, nb), page, limit)
    ensures Alternates(AllottedChain(c, cells, j, size, nb), Allotted(cells, c[j], size, nb))
  {
    if cells[c[j]].size - size < META {
      TakenOk(c, cells, page, limit, j, size, nb);
    } else {
      SplitOk(c, cells, page, limit, j, size, nb);
    }
  }

  // ---- freeing a block ----

  /** Block j is free and takes all the room up to the next header. */
  ghost function Opened<B, P>(c: seq<B>, cells: map<B, Cell<P>>, j: nat, limit: nat): map<B, Cell<P>>
    requires j < |c| && (forall i | 0 <= i < |c| :: c[i] in cells) && Fits(c, cells, j, limit)
  {
    var x := cells[c[j]];
    cells[c[j] := Cell(x.page, x.off, RoomEnd(c, cells, j, limit) - x.off - META, true)]
  }

  lemma OpenedOk<B, P>(c: seq<B>, cells: map<B, Cell<P>>, page: P, limit: nat, j: nat)
    requires ChainOk(c, cells, page, limit) && j < |c| && Fits(c, cells, j, limit)
    ensures ChainOk(c, Opened(c, cells, j, limit), page, limit)
  {
    var cells' := Opened(c, cells, j, limit);
    forall i | 0 <= i < |c| ensures Fits(c, cells', i, limit) {
      assert Fits(c, cells, i, limit);
    }
  }

  /** Block k + 1 is taken off the chain: block k has its room, without growing. */
  lemma JoinedOk<B, P>(c: seq<B>, cells: map<B, Cell<P>>, page: P, limit: nat, k: nat)
    requires ChainOk(c, cells, page, limit) && k + 1 < |c|
    ensures ChainOk(Cut(c, k + 1), cells - {c[k + 1]}, page, limit)
  {
    var c', cells' := Cut(c, k + 1), cells - {c[k + 1]};
    forall i | 0 <= i < |c'| ensures c'[i] == c[if i <= k then i else i + 1] {
      CutAt(c, k + 1, i);
    }
    hide Cut;
    assert OnPage(c', cells', page);
    forall i | 0 <= i < |c'| ensures Fits(c', cells', i, limit) {
      assert Fits(c, cells, if i <= k then i else i + 1, limit);
      if i == k {
        assert Fits(c, cells, k + 1, limit);
      }
    }
  }

  /** The bytes behind block j that its recorded size does not count. */
  ghost function Gap<B, P>(c: seq<B>, cells: map<B, Cell<P>>, j: nat, limit: nat): int
    requires j < |c| && forall i | 0 <= i < |c| :: c[i] in cells
  {
    RoomEnd(c, cells, j, limit) - (cells[c[j]].off + META + cells[c[j]].size)
  }

  /** What joining loses: the header and the data of the second block become bytes that nobody counts. */
  lemma JoinedLoses<B, P>(c: seq<B>, cells: map<B, Cell<P>>, page: P, limit: nat, k: nat)
    requires ChainOk(c, cells, page, limit) && k + 1 < |c|
    ensures OnPage(Cut(c, k + 1), cells - {c[k + 1]}, page)
    ensures Gap(Cut(c, k + 1), cells - {c[k + 1]}, k, limit) ==
      Gap(c, cells, k, limit) + META + cells[c[k + 1]].size + Gap(c, cells, k + 1, limit)
  {
    JoinedOk(c, cells, page, limit, k);
    CutAt(c, k + 1, k);
    if k + 2 < |c| {
      CutAt(c, k + 1, k + 1);
    }
    hide Cut;
  }

  /** Freeing block j leaves of the chain c[j] or, if that was free, the block before it; and the block
      behind it goes if it was free. */
  ghost function Released<B, P>(c: seq<B>, cells: map<B, Cell<P>>, j: nat): seq<B>
    requires j < |c| && forall i | 0 <= i < |c| :: c[i] in cells
  {
    var r := if j + 1 < |c| && cells[c[j + 1]].free then Cut(c, j + 1) else c;
    if j > 0 && cells[c[j - 1]].free then Cut(r, j) else r
  }

  ghost function Gone<B, P>(c: seq<B>, cells: map<B, Cell<P>>, j: nat): set<B>
    requires j < |c| && forall i | 0 <= i < |c| :: c[i] in cells
  {
    (if j + 1 < |c| && cells[c[j + 1]].free then {c[j + 1]} else {})
      + (if j > 0 && cells[c[j - 1]].free then {c[j]} else {})
  }

  /** The free block that block j has become, or become part of. */
  ghost function Merged<B, P>(c: seq<B>, cells: map<B, Cell<P>>, j: nat): B
    requires j < |c| && forall i | 0 <= i < |c| :: c[i] in cells
  {
    if j > 0 && cells[c[j - 1]].free then c[j - 1] else c[j]
  }

  lemma ReleasedOk<B, P>(c: seq<B>, cells: map<B, Cell<P>>, page: P, limit: nat, j: nat)
    requires ChainOk(c, cells, page, limit) && Alternates(c, cells) && j < |c| && !cells[c[j]].free
    requires Fits(c, cells, j, limit)
    ensures ChainOk(Released(c, cells, j), Opened(c, cells, j, limit) - Gone(c, cells, j), page, limit)
    ensures Merged(c, cells, j) in Released(c, cells, j)
  {
    OpenedOk(c, cells, page, limit, j);
    var wide := Opened(c, cells, j, limit);
    var joins := j + 1 < |c| && cells[c[j + 1]].free;
    var r := if joins then Cut(c, j + 1) else c;
    var cellsR := if joins then wide - {c[j + 1]} else wide;
    if joins {
      JoinedOk(c, wide, page, limit, j);
      CutAt(c, j + 1, j);
      if j > 0 {
        CutAt(c, j + 1, j - 1);
      }
    }
    hide Opened, Cut;
    assert r[j] == c[j];
    assert ChainOk(r, cellsR, page, limit);
    if j > 0 && cells[c[j - 1]].free {
      JoinedOk(r, cellsR, page, limit, j - 1);
      CutAt(r, j, j - 1);
      assert cellsR - {c[j]} == wide - Gone(c, cells, j);
      assert Cut(r, j)[j - 1] == c[j - 1];
    } else {
      assert cellsR == wide - Gone(c, cells, j);
      assert r[j] == c[j];
    }
  }

  /** Which of the old blocks is the i-th of the chain after freeing block j. */
  ghost function Survivor(i: nat, j: nat, next: bool, prev: bool): nat
  {
    var k := if prev && i >= j then i + 1 else i;
    if next && k > j then k + 1 else k
  }

  lemma ReleasedAt<B, P>(c: seq<B>, cells: map<B, Cell<P>>, j: nat, i: nat)
    requires j < |c| && forall i | 0 <= i < |c| :: c[i] in cells
    requires i < |Released(c, cells, j)|
    ensures var next := j + 1 < |c| && cells[c[j + 1]].free; var prev := j > 0 && cells[c[j - 1]].free;
      Survivor(i, j, next, prev) < |c| && Released(c, cells, j)[i] == c[Survivor(i, j, next, prev)]
  {
    hide Cut;
    var next := j + 1 < |c| && cells[c[j + 1]].free;
    var prev := j > 0 && cells[c[j - 1]].free;
    var r := if next then Cut(c, j + 1) else c;
    if prev {
      CutAt(r, j, i);
    }
    if next {
      CutAt(c, j + 1, if prev && i >= j then i + 1 else i);
    }
  }

  lemma ReleasedSize<B, P>(c: seq<B>, cells: map<B, Cell<P>>, j: nat)
    requires j < |c| && forall i | 0 <= i < |c| :: c[i] in cells
    ensures |Released(c, cells, j)| ==
      |c| - (if j + 1 < |c| && cells[c[j + 1]].free then 1 else 0) - (if j > 0 && cells[c[j - 1]].free then 1 else 0)
  {
  }

  /** The room of the block that freeing leaves against the size recorded for it: joined with the block before,
      it keeps that block's size, whatever it takes in; otherwise it has taken up the room in front of the next
      header, but nothing of a block joined behind it. */
  lemma ReleasedRoom<B, P>(c: seq<B>, cells: map<B, Cell<P>>, page: P, limit: nat, j: nat)
    requires ChainOk(c, cells, page, limit) && Alternates(c, cells) && j < |c| && !cells[c[j]].free
      && Fits(c, cells, j, limit)
    ensures var r, cells' := Released(c, cells, j), Opened(c, cells, j, limit) - Gone(c, cells, j);
      var next, prev := j + 1 < |c| && cells[c[j + 1]].free, j > 0 && cells[c[j - 1]].free;
      var i := if prev then j - 1 else j;
      && ChainOk(r, cells', page, limit) && i < |r| && r[i] == Merged(c, cells, j)
        && cells'[r[i]].off == cells[c[i]].off
      && RoomEnd(r, cells', i, limit) == RoomEnd(c, cells, if next then j + 1 else j, limit)
      && cells'[r[i]].size == if prev then cells[c[j - 1]].size
        else RoomEnd(c, cells, j, limit) - cells[c[j]].off - META
  {
    var next, prev := j + 1 < |c| && cells[c[j + 1]].free, j > 0 && cells[c[j - 1]].free;
    var i := if prev then j - 1 else j;
    ReleasedOk(c, cells, page, limit, j);
    ReleasedSize(c, cells, j);
    ReleasedAt(c, cells, j, i);
    if i + 1 < |Released(c, cells, j)| {
      ReleasedAt(c, cells, j, i + 1);
    }
    hide Released, Fits, Alternates;
  }

  /** So the recorded size is all the room there is exactly when nothing was joined. */
  lemma GapExactly<B, P>(c: seq<B>, cells: map<B, Cell<P>>, page: P, limit: nat, j: nat)
    requires ChainOk(c, cells, page, limit) && Alternates(c, cells) && j < |c| && !cells[c[j]].free
      && Fits(c, cells, j, limit)
    ensures var r, cells' := Released(c, cells, j), Opened(c, cells, j, limit) - Gone(c, cells, j);
      var next, prev := j + 1 < |c| && cells[c[j + 1]].free, j > 0 && cells[c[j - 1]].free;
      var i := if prev then j - 1 else j;
      && ChainOk(r, cells', page, limit) && i < |r| && r[i] == Merged(c, cells, j)
      && (Gap(r, cells', i, limit) == 0 <==> !next && !prev)
  {
    ReleasedRoom(c, cells, page, limit, j);
    if j > 0 {
      assert Fits(c, cells, j - 1, limit);
    }
    if j + 1 < |c| {
      assert Fits(c, cells, j + 1, limit);
    }
    hide Released, Opened, Gone, Alternates;
  }

  /** After freeing a block there are still no two free neighbours. */
  lemma ReleasedAlternates<B, P>(c: seq<B>, cells: map<B, Cell<P>>, page: P, limit: nat, j: nat)
    requires ChainOk(c, cells, page, limit) && Alternates(c, cells) && j < |c| && !cells[c[j]].free
    requires Fits(c, cells, j, limit)
    ensures Alternates(Released(c, cells, j), Opened(c, cells, j, limit) - Gone(c, cells, j))
  {
    var l, cells' := Released(c, cells, j), Opened(c, cells, j, limit) - Gone(c, cells, j);
    var next := j + 1 < |c| && cells[c[j + 1]].free;
    var prev := j > 0 && cells[c[j - 1]].free;
    ReleasedOk(c, cells, page, limit, j);
    ReleasedSize(c, cells, j);
    assert |l| == |c| - (if next then 1 else 0) - (if prev then 1 else 0);
    hide Released, Gone, Fits;
    assert OnPage(l, cells', page) && Distinct(c);
    forall i | 0 <= i < |l| - 1 ensures !(cells'[l[i]].free && cells'[l[i + 1]].free) {
      ReleasedAt(c, cells, j, i);
      ReleasedAt(c, cells, j, i + 1);
      var a, b := Survivor(i, j, next, prev), Survivor(i + 1, j, next, prev);
      assert a < b < |c|;
      assert c[a] != c[b];
    }
  }

  // ---- who comes before and after whom ----

  function After<B(==)>(c: seq<B>, b: B): Option<B>
  {
    if b in c && IndexOf(c, b) + 1 < |c| then Some(c[IndexOf(c, b) + 1]) else None
  }

  function Before<B(==)>(c: seq<B>, b: B): Option<B>
  {
    if b in c && IndexOf(c, b) > 0 then Some(c[IndexOf(c, b) - 1]) else None
  }

  lemma At<B>(c: seq<B>, k: nat)
    requires Distinct(c) && k < |c|
    ensures IndexOf(c, c[k]) == k
    ensures After(c, c[k]) == if k + 1 < |c| then Some(c[k + 1]) else None
    ensures Before(c, c[k]) == if k > 0 then Some(c[k - 1]) else None
  {
  }

  /** The links of block x after nb was put behind c[k]. */
  lemma LinksAfterPut<B>(c: seq<B>, k: nat, nb: B, x: B)
    requires Distinct(c) && k < |c| && nb !in c
    requires x in c || x == nb
    ensures x in Put(c, k + 1, nb)
    ensures After(Put(c, k + 1, nb), x) == if x == c[k] then Some(nb) else if x == nb then After(c, c[k])
      else After(c, x)
    ensures Before(Put(c, k + 1, nb), x) ==
      if x == nb then Some(c[k]) else if After(c, c[k]) == Some(x) then Some(nb) else Before(c, x)
  {
  }

  /** The links of block x after c[k + 1] was taken off. */
  lemma LinksAfterCut<B>(c: seq<B>, k: nat, x: B)
    requires Distinct(c) && k + 1 < |c| && x in c && x != c[k + 1]
    ensures x in Cut(c, k + 1)
    ensures After(Cut(c, k + 1), x) == if x == c[k] then After(c, c[k + 1]) else After(c, x)
    ensures Before(Cut(c, k + 1), x) == if After(c, c[k + 1]) == Some(x) then Some(c[k]) else Before(c, x)
  {
  }
}
