/** The traffic-engineering database as a value: nodes with interface slots, and links with two ends,
    each plugged into a slot or into none.  I names interfaces, N nodes and L links. */
module TedGraph {
  import opened Options

  const SLOTS: nat := 11   // TEDN_MAX_INTF_PER_NODE

  datatype RouterId = RouterId(bits: bv32)

  /** at is the node an interface is plugged into, slot its place there. */
  datatype Half<N> = Half(ifindex: nat, at: Option<N>, slot: nat)

  datatype St<I, N, L> = St(
    halves: map<I, Half<N>>,
    linkOf: map<I, L>,
    first: map<L, I>,
    second: map<L, I>,
    flags: map<L, bv32>,              // dirn_flag
    slots: map<N, seq<Option<I>>>,
    ids: map<N, RouterId>,
    db: map<RouterId, N>)                 // the tree of nodes, by router id

  function Xor(a: bv32, b: bv32): bv32
  {
    a ^ b
  }

  lemma XorNothing(a: bv32)
    ensures Xor(a, 0) == a && Xor(0, a) == a
  {
  }

  lemma XorTwice(a: bv32, b: bv32)
    ensures Xor(Xor(a, b), b) == a
  {
  }

  lemma XorSwap(a: bv32, b: bv32)
    ensures Xor(a, b) == Xor(b, a)
  {
  }

  lemma XorSelf(a: bv32)
    ensures Xor(a, a) == 0
  {
  }

  /** Taking away what was there twice leaves nothing; two different ids never cancel out. */
  lemma XorFacts(a: bv32, b: bv32)
    ensures Xor(a, 0) == a && Xor(0, a) == a && Xor(a, b) == Xor(b, a)
    ensures Xor(Xor(a, b), b) == a && Xor(Xor(a, b), a) == b
    ensures Xor(a, b) == 0 <==> a == b
  {
    XorNothing(a);
    XorNothing(b);
    XorSwap(a, b);
    XorTwice(a, b);
    XorTwice(b, a);
    XorSelf(a);
    hide Xor;
    if Xor(a, b) == 0 {
      assert a == Xor(0, b);
    }
  }

  // ---- the invariant, one interface, link or node at a time ----

  ghost predicate LinkOk<I, N, L>(st: St<I, N, L>, l: L)
  {
    && l in st.first && l in st.second && st.first[l] != st.second[l]
    && st.first[l] in st.halves && st.first[l] in st.linkOf && st.linkOf[st.first[l]] == l
    && st.second[l] in st.halves && st.second[l] in st.linkOf && st.linkOf[st.second[l]] == l
  }

  /** The interface sits in the slot it says, and belongs to a link as one of its ends. */
  ghost predicate HalfOk<I, N, L>(st: St<I, N, L>, i: I)
    requires i in st.halves
  {
    && i in st.linkOf && st.linkOf[i] in st.flags && LinkOk(st, st.linkOf[i])
    && (i == st.first[st.linkOf[i]] || i == st.second[st.linkOf[i]])
    && match st.halves[i].at
       case None => true
       case Some(n) => n in st.slots && st.halves[i].slot < |st.slots[n]| && st.slots[n][st.halves[i].slot] == Some(i)
  }

  /** What is in the slot says it is there. */
  ghost predicate SlotOk<I, N, L>(st: St<I, N, L>, n: N, k: nat)
    requires n in st.slots && k < |st.slots[n]|
  {
    match st.slots[n][k]
    case None => true
    case Some(i) => i in st.halves && st.halves[i].at == Some(n) && st.halves[i].slot == k
  }

  ghost predicate NodeOk<I, N, L>(st: St<I, N, L>, n: N)
    requires n in st.slots
  {
    && |st.slots[n]| == SLOTS
    && n in st.ids && st.ids[n].bits != 0 && st.ids[n] in st.db && st.db[st.ids[n]] == n
    && (forall k {:trigger SlotOk(st, n, k)} | 0 <= k < SLOTS :: SlotOk(st, n, k))
  }

  /** The router id of the node an interface is plugged into, or 0. */
  ghost function IdAt<I, N, L>(st: St<I, N, L>, i: I): bv32
    requires i in st.halves && (st.halves[i].at.Some? ==> st.halves[i].at.value in st.ids)
  {
    match st.halves[i].at
    case None => 0
    case Some(n) => st.ids[n].bits
  }

  ghost predicate Placed<I, N, L>(st: St<I, N, L>, i: I)
  {
    i in st.halves && (st.halves[i].at.Some? ==> st.halves[i].at.value in st.ids)
  }

  /** The direction flag is the exclusive or of the router ids at the attached ends; the ends are on different nodes. */
  ghost predicate FlagOk<I, N, L>(st: St<I, N, L>, l: L)
    requires l in st.flags
  {
    && LinkOk(st, l) && Placed(st, st.first[l]) && Placed(st, st.second[l])
    && st.flags[l] == Xor(IdAt(st, st.first[l]), IdAt(st, st.second[l]))
    && (st.halves[st.first[l]].at.Some? ==> st.halves[st.first[l]].at != st.halves[st.second[l]].at)
  }

  /** Two interfaces of one node have different indexes. */
  ghost predicate IndexesDiffer<I, N, L>(st: St<I, N, L>, i: I, j: I)
  {
    i in st.halves && j in st.halves && i != j && st.halves[i].at.Some? && st.halves[i].at == st.halves[j].at ==>
      st.halves[i].ifindex != st.halves[j].ifindex
  }

  ghost predicate Sound<I, N, L>(st: St<I, N, L>)
  {
    && (forall i {:trigger HalfOk(st, i)} | i in st.halves :: HalfOk(st, i))
    && (forall n {:trigger NodeOk(st, n)} | n in st.slots :: NodeOk(st, n))
    && (forall l {:trigger FlagOk(st, l)} | l in st.flags :: FlagOk(st, l))
    && (forall d | d in st.db :: st.db[d] in st.slots && st.db[d] in st.ids && st.ids[st.db[d]] == d)
    && (forall i, j {:trigger IndexesDiffer(st, i, j)} | i in st.halves && j in st.halves :: IndexesDiffer(st, i, j))
  }

  ghost predicate Attached<I, N, L>(st: St<I, N, L>, i: I)
    requires i in st.halves
  {
    st.halves[i].at.Some?
  }

  /** A link with no end attached. */
  ghost predicate Loose<I, N, L>(st: St<I, N, L>, l: L)
    requires LinkOk(st, l)
  {
    !Attached(st, st.first[l]) && !Attached(st, st.second[l])
  }

  ghost predicate NoneLoose<I, N, L>(st: St<I, N, L>)
  {
    forall l {:trigger Loose(st, l)} | l in st.flags && LinkOk(st, l) :: !Loose(st, l)
  }

  ghost function Other<I, N, L>(st: St<I, N, L>, i: I): I
    requires i in st.linkOf && LinkOk(st, st.linkOf[i])
  {
    if st.first[st.linkOf[i]] == i then st.second[st.linkOf[i]] else st.first[st.linkOf[i]]
  }

  // ---- the tests of the original ----

  /** ted_is_interface_plugged_in asks for a node, its slot, and a direction flag that is not zero: with
      router ids that are not zero and no link from a node to itself, the first suffices. */
  lemma PluggedIn<I, N, L>(st: St<I, N, L>, i: I)
    requires Sound(st) && i in st.halves
    ensures i in st.linkOf && st.linkOf[i] in st.flags && LinkOk(st, st.linkOf[i])
    ensures Attached(st, i) ==>
      && st.halves[i].at.value in st.slots && st.halves[i].slot < |st.slots[st.halves[i].at.value]|
      && st.slots[st.halves[i].at.value][st.halves[i].slot] == Some(i) && st.flags[st.linkOf[i]] != 0
  {
    assert HalfOk(st, i);
    var l := st.linkOf[i];
    assert FlagOk(st, l);
    var a, b := st.first[l], st.second[l];
    assert HalfOk(st, a) && HalfOk(st, b);
    XorFacts(IdAt(st, a), IdAt(st, b));
    if Attached(st, i) {
      var j := Other(st, i);
      assert NodeOk(st, st.halves[i].at.value);
      if Attached(st, j) {
        assert NodeOk(st, st.halves[j].at.value);
        assert IdAt(st, i) != IdAt(st, j);
      }
    }
  }

  /** ted_link_is_bidirectional: exactly when both ends are attached. */
  lemma Bidirectional<I, N, L>(st: St<I, N, L>, l: L)
    requires Sound(st) && l in st.flags
    ensures LinkOk(st, l) && Placed(st, st.first[l]) && Placed(st, st.second[l])
    ensures Attached(st, st.first[l]) && Attached(st, st.second[l]) ==>
      Xor(st.ids[st.halves[st.first[l]].at.value].bits, st.ids[st.halves[st.second[l]].at.value].bits) == st.flags[l]
  {
    assert FlagOk(st, l);
  }

  // ---- plugging in and out ----

  /** Interface i goes into slot k of node n. */
  ghost function PlugIn<I, N, L>(st: St<I, N, L>, i: I, n: N, k: nat): St<I, N, L>
    requires i in st.halves && i in st.linkOf && st.linkOf[i] in st.flags && n in st.slots && k < |st.slots[n]|
      && n in st.ids
  {
    var l := st.linkOf[i];
    st.(halves := st.halves[i := Half(st.halves[i].ifindex, Some(n), k)],
        slots := st.slots[n := st.slots[n][k := Some(i)]],
        flags := st.flags[l := Xor(st.flags[l], st.ids[n].bits)])
  }

  ghost predicate CanPlugIn<I, N, L>(st: St<I, N, L>, i: I, n: N, k: nat)
  {
    && i in st.halves && !Attached(st, i) && i in st.linkOf && LinkOk(st, st.linkOf[i]) && st.linkOf[i] in st.flags
    && n in st.slots && n in st.ids && k < |st.slots[n]| && st.slots[n][k] == None
    && st.halves[Other(st, i)].at != Some(n)
    && (forall j | j in st.halves && st.halves[j].at == Some(n) :: st.halves[j].ifindex != st.halves[i].ifindex)
  }

  lemma PlugInFlag<I, N, L>(st: St<I, N, L>, i: I, n: N, k: nat, l: L)
    requires Sound(st) && CanPlugIn(st, i, n, k) && l in st.flags
    ensures l in PlugIn(st, i, n, k).flags && FlagOk(PlugIn(st, i, n, k), l)
  {
    assert FlagOk(st, l);
    var a, b := st.first[l], st.second[l];
    XorFacts(IdAt(st, a), IdAt(st, b));
    XorFacts(st.ids[n].bits, IdAt(st, b));
    XorFacts(st.ids[n].bits, IdAt(st, a));
    hide Xor;
    assert HalfOk(st, i);
    if st.linkOf[i] != l {
      assert a != i && b != i;
    }
  }

  lemma PlugInOk<I, N, L>(st: St<I, N, L>, i: I, n: N, k: nat)
    requires Sound(st) && CanPlugIn(st, i, n, k)
    ensures Sound(PlugIn(st, i, n, k))
  {
    hide Xor;
    var st' := PlugIn(st, i, n, k);
    forall j | j in st'.halves ensures HalfOk(st', j) {
      assert HalfOk(st, j);
    }
    forall m | m in st'.slots ensures NodeOk(st', m) {
      assert NodeOk(st, m);
      forall h | 0 <= h < SLOTS ensures SlotOk(st', m, h) {
        assert SlotOk(st, m, h);
      }
    }
    forall l | l in st'.flags ensures FlagOk(st', l) {
      PlugInFlag(st, i, n, k, l);
    }
    forall a, b | a in st'.halves && b in st'.halves ensures IndexesDiffer(st', a, b) {
      assert IndexesDiffer(st, a, b);
    }
  }

  ghost function PlugOut<I, N, L>(st: St<I, N, L>, i: I): St<I, N, L>
    requires i in st.halves && Attached(st, i) && i in st.linkOf && st.linkOf[i] in st.flags
    requires var n := st.halves[i].at.value; n in st.slots && st.halves[i].slot < |st.slots[n]| && n in st.ids
  {
    var n, l := st.halves[i].at.value, st.linkOf[i];
    st.(halves := st.halves[i := Half(st.halves[i].ifindex, None, 0)],
        slots := st.slots[n := st.slots[n][st.halves[i].slot := None]],
        flags := st.flags[l := Xor(st.flags[l], st.ids[n].bits)])
  }

  lemma CanPlugOut<I, N, L>(st: St<I, N, L>, i: I)
    requires Sound(st) && i in st.halves && Attached(st, i)
    ensures i in st.linkOf && st.linkOf[i] in st.flags
    ensures var n := st.halves[i].at.value; n in st.slots && st.halves[i].slot < |st.slots[n]| && n in st.ids
  {
    assert HalfOk(st, i);
    assert NodeOk(st, st.halves[i].at.value);
  }

  lemma PlugOutFlag<I, N, L>(st: St<I, N, L>, i: I, l: L)
    requires Sound(st) && i in st.halves && Attached(st, i) && l in st.flags
    requires i in st.linkOf && st.linkOf[i] in st.flags
    requires var n := st.halves[i].at.value; n in st.slots && st.halves[i].slot < |st.slots[n]| && n in st.ids
    ensures l in PlugOut(st, i).flags && FlagOk(PlugOut(st, i), l)
  {
    assert FlagOk(st, l);
    var a, b := st.first[l], st.second[l];
    XorFacts(IdAt(st, a), IdAt(st, b));
    XorFacts(IdAt(st, b), IdAt(st, a));
    hide Xor;
    assert HalfOk(st, i);
    if st.linkOf[i] != l {
      assert a != i && b != i;
    }
  }

  lemma PlugOutOk<I, N, L>(st: St<I, N, L>, i: I)
    requires Sound(st) && i in st.halves && Attached(st, i)
    requires i in st.linkOf && st.linkOf[i] in st.flags
    requires var n := st.halves[i].at.value; n in st.slots && st.halves[i].slot < |st.slots[n]| && n in st.ids
    ensures Sound(PlugOut(st, i))
  {
    hide Xor;
    var st' := PlugOut(st, i);
    assert HalfOk(st, i);
    forall j | j in st'.halves ensures HalfOk(st', j) {
      assert HalfOk(st, j);
    }
    forall m | m in st'.slots ensures NodeOk(st', m) {
      assert NodeOk(st, m);
      forall h | 0 <= h < SLOTS ensures SlotOk(st', m, h) {
        assert SlotOk(st, m, h);
      }
    }
    forall l | l in st'.flags ensures FlagOk(st', l) {
      PlugOutFlag(st, i, l);
    }
    forall a, b | a in st'.halves && b in st'.halves ensures IndexesDiffer(st', a, b) {
      assert IndexesDiffer(st, a, b);
    }
  }

  // ---- links and nodes come and go ----

  ghost function SetIndex<I, N, L>(st: St<I, N, L>, i: I, x: nat): St<I, N, L>
    requires i in st.halves
  {
    st.(halves := st.halves[i := st.halves[i].(ifindex := x)])
  }

  lemma SetIndexOk<I, N, L>(st: St<I, N, L>, i: I, x: nat)
    requires Sound(st) && i in st.halves && !Attached(st, i)
    ensures Sound(SetIndex(st, i, x))
  {
    hide Xor;
    var st' := SetIndex(st, i, x);
    forall j | j in st'.halves ensures HalfOk(st', j) {
      assert HalfOk(st, j);
    }
    forall m | m in st'.slots ensures NodeOk(st', m) {
      assert NodeOk(st, m);
      forall h | 0 <= h < SLOTS ensures SlotOk(st', m, h) {
        assert SlotOk(st, m, h);
      }
    }
    forall l | l in st'.flags ensures FlagOk(st', l) {
      assert FlagOk(st, l);
    }
    forall a, b | a in st'.halves && b in st'.halves ensures IndexesDiffer(st', a, b) {
      assert IndexesDiffer(st, a, b);
    }
  }

  /** ted_create_link. */
  ghost function AddLink<I, N, L>(st: St<I, N, L>, l: L, i: I, j: I, x: nat, y: nat): St<I, N, L>
  {
    st.(halves := st.halves[i := Half(x, None, 0)][j := Half(y, None, 0)], linkOf := st.linkOf[i := l][j := l],
        first := st.first[l := i], second := st.second[l := j], flags := st.flags[l := 0])
  }

  lemma AddLinkHalves<I, N, L>(st: St<I, N, L>, l: L, i: I, j: I, x: nat, y: nat)
    requires Sound(st) && l !in st.flags && i !in st.halves && j !in st.halves && i != j
    ensures forall h {:trigger HalfOk(AddLink(st, l, i, j, x, y), h)} | h in AddLink(st, l, i, j, x, y).halves ::
      HalfOk(AddLink(st, l, i, j, x, y), h)
  {
    hide Xor;
    var st' := AddLink(st, l, i, j, x, y);
    forall h | h in st'.halves ensures HalfOk(st', h) {
      if h in st.halves {
        assert HalfOk(st, h);
      }
    }
  }

  lemma AddLinkFlags<I, N, L>(st: St<I, N, L>, l: L, i: I, j: I, x: nat, y: nat)
    requires Sound(st) && l !in st.flags && i !in st.halves && j !in st.halves && i != j
    ensures forall h {:trigger FlagOk(AddLink(st, l, i, j, x, y), h)} | h in AddLink(st, l, i, j, x, y).flags ::
      FlagOk(AddLink(st, l, i, j, x, y), h)
  {
    XorNothing(0);
    hide Xor;
    var st' := AddLink(st, l, i, j, x, y);
    forall h | h in st'.flags ensures FlagOk(st', h) {
      if h != l {
        assert FlagOk(st, h);
      }
    }
  }

  lemma AddLinkOk<I, N, L>(st: St<I, N, L>, l: L, i: I, j: I, x: nat, y: nat)
    requires Sound(st) && l !in st.flags && i !in st.halves && j !in st.halves && i != j
    ensures Sound(AddLink(st, l, i, j, x, y))
  {
    AddLinkHalves(st, l, i, j, x, y);
    AddLinkFlags(st, l, i, j, x, y);
    hide Xor, HalfOk, FlagOk;
    var st' := AddLink(st, l, i, j, x, y);
    forall m | m in st'.slots ensures NodeOk(st', m) {
      assert NodeOk(st, m);
      forall h | 0 <= h < SLOTS ensures SlotOk(st', m, h) {
        assert SlotOk(st, m, h);
      }
    }
    forall a, b | a in st'.halves && b in st'.halves ensures IndexesDiffer(st', a, b) {
      assert IndexesDiffer(st, a, b);
    }
  }

  /** The memory of link l, with both its interfaces, is given back. */
  ghost function DropLink<I, N, L>(st: St<I, N, L>, l: L): St<I, N, L>
    requires LinkOk(st, l)
  {
    st.(halves := st.halves - {st.first[l], st.second[l]}, flags := st.flags - {l})
  }

  lemma DropLinkOk<I, N, L>(st: St<I, N, L>, l: L)
    requires Sound(st) && l in st.flags && LinkOk(st, l) && Loose(st, l)
    ensures Sound(DropLink(st, l))
  {
    hide Xor;
    var st' := DropLink(st, l);
    forall h | h in st'.halves ensures HalfOk(st', h) {
      assert HalfOk(st, h);
      assert FlagOk(st, st.linkOf[h]);
    }
    forall m | m in st'.slots ensures NodeOk(st', m) {
      assert NodeOk(st, m);
      forall h | 0 <= h < SLOTS ensures SlotOk(st', m, h) {
        assert SlotOk(st, m, h);
      }
    }
    forall h | h in st'.flags ensures FlagOk(st', h) {
      assert FlagOk(st, h);
    }
    forall a, b | a in st'.halves && b in st'.halves ensures IndexesDiffer(st', a, b) {
      assert IndexesDiffer(st, a, b);
    }
  }

  ghost function AddNode<I, N, L>(st: St<I, N, L>, n: N, id: RouterId): St<I, N, L>
  {
    st.(slots := st.slots[n := seq(SLOTS, _ => None)], ids := st.ids[n := id], db := st.db[id := n])
  }

  lemma AddNodeOk<I, N, L>(st: St<I, N, L>, n: N, id: RouterId)
    requires Sound(st) && n !in st.slots && id.bits != 0 && id !in st.db
    ensures Sound(AddNode(st, n, id))
  {
    hide Xor;
    var st' := AddNode(st, n, id);
    forall h | h in st'.halves ensures HalfOk(st', h) {
      assert HalfOk(st, h);
    }
    forall m | m in st'.slots ensures NodeOk(st', m) {
      if m in st.slots {
        assert NodeOk(st, m);
        assert st.ids[m] != id;
        forall h | 0 <= h < SLOTS ensures SlotOk(st', m, h) {
          assert SlotOk(st, m, h);
        }
      } else {
        assert m == n && |st'.slots[n]| == SLOTS;
      }
    }
    forall h | h in st'.flags ensures FlagOk(st', h) {
      assert FlagOk(st, h);
      assert HalfOk(st, st.first[h]) && HalfOk(st, st.second[h]);
    }
    forall a, b | a in st'.halves && b in st'.halves ensures IndexesDiffer(st', a, b) {
      assert IndexesDiffer(st, a, b);
    }
  }

  ghost predicate Bare<I, N, L>(st: St<I, N, L>, n: N)
    requires n in st.slots
  {
    forall k | 0 <= k < |st.slots[n]| :: st.slots[n][k] == None
  }

  ghost function DropNode<I, N, L>(st: St<I, N, L>, n: N): St<I, N, L>
    requires n in st.ids
  {
    st.(slots := st.slots - {n}, ids := st.ids - {n}, db := st.db - {st.ids[n]})
  }

  lemma DropNodeOk<I, N, L>(st: St<I, N, L>, n: N)
    requires Sound(st) && n in st.slots && n in st.ids && Bare(st, n)
    ensures Sound(DropNode(st, n))
    ensures forall i | i in DropNode(st, n).halves :: DropNode(st, n).halves[i].at != Some(n)
  {
    hide Xor;
    var st' := DropNode(st, n);
    assert NodeOk(st, n);
    forall h | h in st'.halves ensures HalfOk(st', h) && st'.halves[h].at != Some(n) {
      assert HalfOk(st, h);
    }
    forall m | m in st'.slots ensures NodeOk(st', m) {
      assert NodeOk(st, m);
      assert st.ids[m] != st.ids[n];
      forall h | 0 <= h < SLOTS ensures SlotOk(st', m, h) {
        assert SlotOk(st, m, h);
      }
    }
    forall h | h in st'.flags ensures FlagOk(st', h) {
      assert FlagOk(st, h);
    }
    forall a, b | a in st'.halves && b in st'.halves ensures IndexesDiffer(st', a, b) {
      assert IndexesDiffer(st, a, b);
    }
  }

  // ---- what unplugging leaves alone ----

  /** From st to st' some interfaces of node n were unplugged and some links with no end attached given back. */
  ghost predicate OnlyUnplugged<I, N, L>(st: St<I, N, L>, st': St<I, N, L>, n: N)
  {
    && st'.db == st.db && st'.ids == st.ids && st'.slots.Keys == st.slots.Keys
    && (forall m | m in st.slots && m != n :: m in st'.slots && st'.slots[m] == st.slots[m])
    && (forall i | i in st.halves && st.halves[i].at.Some? && st.halves[i].at != Some(n) ::
      i in st'.halves && st'.halves[i] == st.halves[i])
    && (forall i | i in st'.halves :: i in st.halves &&
          (st'.halves[i] == st.halves[i]
            || (st.halves[i].at == Some(n) && st'.halves[i] == Half(st.halves[i].ifindex, None, 0))))
    && st'.flags.Keys <= st.flags.Keys
  }

  lemma OnlyUnpluggedTwice<I, N, L>(a: St<I, N, L>, b: St<I, N, L>, c: St<I, N, L>, n: N)
    requires OnlyUnplugged(a, b, n) && OnlyUnplugged(b, c, n)
    ensures OnlyUnplugged(a, c, n)
  {
  }

  /** What happens to interface i of node n in ted_unplug_all_interfaces. */
  ghost function Unplugged<I, N, L>(st: St<I, N, L>, i: I): St<I, N, L>
    requires Sound(st) && i in st.halves && Attached(st, i)
  {
    CanPlugOut(st, i);
    PlugOutOk(st, i);
    var st' := PlugOut(st, i);
    PluggedIn(st', i);
    if Loose(st', st.linkOf[i]) then DropLink(st', st.linkOf[i]) else st'
  }

  lemma UnpluggedLinks<I, N, L>(st: St<I, N, L>, i: I)
    requires Sound(st) && i in st.halves && Attached(st, i)
    ensures NoneLoose(st) ==> NoneLoose(Unplugged(st, i))
  {
    hide Xor;
    var st' := Unplugged(st, i);
    if NoneLoose(st) {
      CanPlugOut(st, i);
      PlugOutOk(st, i);
      PluggedIn(PlugOut(st, i), i);
      assert HalfOk(st, i);
      forall h | h in st'.flags && LinkOk(st', h) ensures !Loose(st', h) {
        assert h in st.flags;
        assert FlagOk(st, h) && !Loose(st, h);
      }
    }
  }

  lemma UnpluggedOk<I, N, L>(st: St<I, N, L>, i: I, n: N)
    requires Sound(st) && i in st.halves && st.halves[i].at == Some(n)
    ensures Sound(Unplugged(st, i)) && OnlyUnplugged(st, Unplugged(st, i), n)
    ensures n in st.slots && st.halves[i].slot < |st.slots[n]|
      && Unplugged(st, i).slots == st.slots[n := st.slots[n][st.halves[i].slot := None]]
    ensures NoneLoose(st) ==> NoneLoose(Unplugged(st, i))
  {
    hide Xor;
    CanPlugOut(st, i);
    PlugOutOk(st, i);
    var st', l := PlugOut(st, i), st.linkOf[i];
    PluggedIn(st', i);
    if Loose(st', l) {
      DropLinkOk(st', l);
    }
    UnpluggedLinks(st, i);
  }

  // ---- what each operation leaves alone, and which links it may leave with no end attached ----

  /** What is attached before or after and not in `touched` is attached before and after, in the same place. */
  ghost predicate Keeps<I, N, L>(st: St<I, N, L>, st': St<I, N, L>, touched: set<I>)
  {
    && (forall j | j in st.halves && st.halves[j].at.Some? && j !in touched ::
      j in st'.halves && st'.halves[j] == st.halves[j])
    && (forall j | j in st'.halves && st'.halves[j].at.Some? && j !in touched ::
      j in st.halves && st.halves[j] == st'.halves[j])
    && (forall d | d in st.db :: d in st'.db && st'.db[d] == st.db[d])
  }

  lemma KeepsTwice<I, N, L>(a: St<I, N, L>, b: St<I, N, L>, c: St<I, N, L>, s: set<I>, t: set<I>)
    requires Keeps(a, b, s) && Keeps(b, c, t)
    ensures Keeps(a, c, s + t)
  {
  }

  ghost predicate LooseOnly<I, N, L>(st: St<I, N, L>, x: set<L>)
  {
    forall l {:trigger Loose(st, l)} | l in st.flags && LinkOk(st, l) && Loose(st, l) :: l in x
  }

  lemma PlugInEffect<I, N, L>(st: St<I, N, L>, i: I, n: N, k: nat, x: set<L>)
    requires Sound(st) && CanPlugIn(st, i, n, k)
    ensures Keeps(st, PlugIn(st, i, n, k), {i})
    ensures LooseOnly(st, x) ==> LooseOnly(PlugIn(st, i, n, k), x - {st.linkOf[i]})
  {
    hide Xor;
    assert HalfOk(st, i);
    var st' := PlugIn(st, i, n, k);
    forall l | l in st'.flags && LinkOk(st', l) && Loose(st', l) ensures LooseOnly(st, x) ==> l in x - {st.linkOf[i]} {
      assert LinkOk(st, l) && Loose(st, l);
    }
  }

  lemma PlugOutEffect<I, N, L>(st: St<I, N, L>, i: I, x: set<L>)
    requires Sound(st) && i in st.halves && Attached(st, i)
    requires i in st.linkOf && st.linkOf[i] in st.flags
    requires var n := st.halves[i].at.value; n in st.slots && st.halves[i].slot < |st.slots[n]| && n in st.ids
    ensures Keeps(st, PlugOut(st, i), {i})
    ensures LooseOnly(st, x) ==> LooseOnly(PlugOut(st, i), x + {st.linkOf[i]})
  {
    hide Xor;
    assert HalfOk(st, i);
    var st' := PlugOut(st, i);
    forall l | l in st'.flags && LinkOk(st', l) && Loose(st', l) ensures LooseOnly(st, x) ==> l in x + {st.linkOf[i]} {
      assert FlagOk(st, l);
      if l != st.linkOf[i] {
        assert Loose(st, l);
      }
    }
  }

  lemma SetIndexEffect<I, N, L>(st: St<I, N, L>, i: I, y: nat, x: set<L>)
    requires i in st.halves && !Attached(st, i)
    ensures Keeps(st, SetIndex(st, i, y), {})
    ensures LooseOnly(st, x) ==> LooseOnly(SetIndex(st, i, y), x)
  {
    var st' := SetIndex(st, i, y);
    forall l | l in st'.flags && LinkOk(st', l) && Loose(st', l) ensures LooseOnly(st, x) ==> l in x {
      assert LinkOk(st, l) && Loose(st, l);
    }
  }

  lemma AddLinkEffect<I, N, L>(st: St<I, N, L>, l: L, i: I, j: I, a: nat, b: nat, x: set<L>)
    requires Sound(st) && l !in st.flags && i !in st.halves && j !in st.halves && i != j
    ensures Keeps(st, AddLink(st, l, i, j, a, b), {})
    ensures LooseOnly(st, x) ==> LooseOnly(AddLink(st, l, i, j, a, b), x + {l})
  {
    var st' := AddLink(st, l, i, j, a, b);
    forall h | h in st'.flags && LinkOk(st', h) && Loose(st', h) ensures LooseOnly(st, x) ==> h in x + {l} {
      if h != l {
        assert FlagOk(st, h) && Loose(st, h);
      }
    }
  }

  lemma DropLinkEffect<I, N, L>(st: St<I, N, L>, l: L, x: set<L>)
    requires Sound(st) && l in st.flags && LinkOk(st, l) && Loose(st, l)
    ensures Keeps(st, DropLink(st, l), {})
    ensures LooseOnly(st, x) ==> LooseOnly(DropLink(st, l), x - {l})
  {
    var st' := DropLink(st, l);
    forall h | h in st'.flags && LinkOk(st', h) && Loose(st', h) ensures LooseOnly(st, x) ==> h in x - {l} {
      assert FlagOk(st, h) && Loose(st, h);
    }
  }

  lemma AddNodeEffect<I, N, L>(st: St<I, N, L>, n: N, id: RouterId, x: set<L>)
    requires id !in st.db
    ensures Keeps(st, AddNode(st, n, id), {})
    ensures LooseOnly(st, x) ==> LooseOnly(AddNode(st, n, id), x)
  {
    var st' := AddNode(st, n, id);
    forall h | h in st'.flags && LinkOk(st', h) && Loose(st', h) ensures LooseOnly(st, x) ==> h in x {
      assert LinkOk(st, h) && Loose(st, h);
    }
  }

  // ---- joining two interfaces by a link ----

  /** Interface i is plugged into node n under index x. */
  ghost predicate At<I, N, L>(st: St<I, N, L>, i: I, n: N, x: nat)
  {
    i in st.halves && st.halves[i].at == Some(n) && st.halves[i].ifindex == x
  }

  ghost predicate NoneAt<I, N, L>(st: St<I, N, L>, n: N, x: nat)
  {
    forall i | i in st.halves :: !At(st, i, n, x)
  }

  /** Link l joins exactly interface x of node n and interface y of node m. */
  ghost predicate Joins<I, N, L>(st: St<I, N, L>, l: L, n: N, x: nat, m: N, y: nat)
  {
    && l in st.flags && LinkOk(st, l)
    && ((At(st, st.first[l], n, x) && At(st, st.second[l], m, y))
      || (At(st, st.first[l], m, y) && At(st, st.second[l], n, x)))
  }

  ghost predicate HasSlot<I, N, L>(st: St<I, N, L>, n: N)
    requires n in st.slots
  {
    exists k | 0 <= k < |st.slots[n]| :: st.slots[n][k] == None
  }

  /** Interface i taken out of its slot, if it is in one, and given index x. */
  ghost function Loosened<I, N, L>(st: St<I, N, L>, i: I): St<I, N, L>
    requires Sound(st) && i in st.halves
  {
    if Attached(st, i) then CanPlugOut(st, i); PlugOut(st, i) else st
  }

  lemma LoosenedOk<I, N, L>(st: St<I, N, L>, i: I)
    requires Sound(st) && i in st.halves
    ensures Sound(Loosened(st, i)) && i in Loosened(st, i).halves && !Attached(Loosened(st, i), i)
    ensures Loosened(st, i).linkOf == st.linkOf && Loosened(st, i).first == st.first
      && Loosened(st, i).second == st.second
    ensures Loosened(st, i).flags.Keys == st.flags.Keys && Loosened(st, i).slots.Keys == st.slots.Keys
      && Loosened(st, i).halves.Keys == st.halves.Keys
    ensures Loosened(st, i).db == st.db && Loosened(st, i).ids == st.ids
    ensures forall j | j in st.halves && j != i :: Loosened(st, i).halves[j] == st.halves[j]
    ensures Loosened(st, i).halves[i].ifindex == st.halves[i].ifindex
    ensures Keeps(st, Loosened(st, i), {i})
    ensures i in st.linkOf && (LooseOnly(st, {}) ==> LooseOnly(Loosened(st, i), {st.linkOf[i]}))
  {
    hide Xor;
    assert HalfOk(st, i);
    if Attached(st, i) {
      CanPlugOut(st, i);
      PlugOutOk(st, i);
      PlugOutEffect(st, i, {});
      assert {} + {st.linkOf[i]} == {st.linkOf[i]};
    }
  }

  /** A node keeps its empty slots when some interface is taken out, and gains one if it was there. */
  lemma LoosenedSlots<I, N, L>(st: St<I, N, L>, i: I, n: N)
    requires Sound(st) && i in st.halves && n in st.slots
    requires HasSlot(st, n) || st.halves[i].at == Some(n)
    ensures n in Loosened(st, i).slots && HasSlot(Loosened(st, i), n)
  {
    hide Xor;
    if Attached(st, i) {
      CanPlugOut(st, i);
      var st' := PlugOut(st, i);
      if st.halves[i].at == Some(n) {
        assert st'.slots[n][st.halves[i].slot] == None;
      } else {
        assert st'.slots[n] == st.slots[n];
      }
    }
  }

  /** The far end of `keep` can be brought to node n under index x. */
  lemma Reattachable<I, N, L>(st: St<I, N, L>, keep: I, n: N, x: nat)
    requires Sound(st) && keep in st.halves && Attached(st, keep) && n in st.slots && st.halves[keep].at != Some(n)
    requires NoneAt(st, n, x) && keep in st.linkOf && LinkOk(st, st.linkOf[keep])
    requires HasSlot(st, n) || st.halves[Other(st, keep)].at == Some(n)
    ensures var o := Other(st, keep); o != keep && o in st.linkOf && st.linkOf[o] == st.linkOf[keep]
    ensures var o := Other(st, keep); var t := SetIndex(Loosened(st, o), o, x);
      Sound(t) && n in t.slots && exists k :: CanPlugIn(t, o, n, k)
  {
    hide Xor;
    var o := Other(st, keep);
    assert HalfOk(st, keep) && HalfOk(st, o);
    LoosenedOk(st, o);
    LoosenedSlots(st, o, n);
    var s1 := Loosened(st, o);
    SetIndexOk(s1, o, x);
    var t := SetIndex(s1, o, x);
    assert NodeOk(t, n);
    hide Loosened;
    var k :| 0 <= k < |s1.slots[n]| && s1.slots[n][k] == None;
    assert LinkOk(t, t.linkOf[o]) && Other(t, o) == keep;
    assert CanPlugIn(t, o, n, k);
  }

  lemma ReattachedKeeps<I, N, L>(st: St<I, N, L>, o: I, n: N, x: nat, k: nat)
    requires Sound(st) && LooseOnly(st, {}) && o in st.halves && o in st.linkOf
    requires CanPlugIn(SetIndex(Loosened(st, o), o, x), o, n, k)
    ensures var u := PlugIn(SetIndex(Loosened(st, o), o, x), o, n, k); Keeps(st, u, {o}) && LooseOnly(u, {})
  {
    hide Keeps;
    LoosenedOk(st, o);
    var s1 := Loosened(st, o);
    var t := SetIndex(s1, o, x);
    SetIndexOk(s1, o, x);
    SetIndexEffect(s1, o, x, {st.linkOf[o]});
    PlugInEffect(t, o, n, k, {st.linkOf[o]});
    assert t.linkOf == s1.linkOf;
    assert {st.linkOf[o]} - {t.linkOf[o]} == {};
    KeepsTwice(st, s1, t, {o}, {});
    KeepsTwice(st, t, PlugIn(t, o, n, k), {o} + {}, {o});
    assert {o} + {} + {o} == {o};
  }

  ghost predicate IsEnd<I, N, L>(st: St<I, N, L>, l: L, i: I)
  {
    l in st.first && l in st.second && (i == st.first[l] || i == st.second[l])
  }

  lemma Reattached<I, N, L>(st: St<I, N, L>, keep: I, n: N, x: nat, k: nat)
    requires Sound(st) && LooseOnly(st, {}) && keep in st.halves && Attached(st, keep)
    requires keep in st.linkOf && st.linkOf[keep] in st.flags && LinkOk(st, st.linkOf[keep])
    requires var o := Other(st, keep); var t := SetIndex(Loosened(st, o), o, x); CanPlugIn(t, o, n, k)
    ensures var o := Other(st, keep); var t := SetIndex(Loosened(st, o), o, x); var u := PlugIn(t, o, n, k);
      && Keeps(st, u, {o}) && LooseOnly(u, {}) && u.db == st.db && u.slots.Keys == st.slots.Keys
        && IsEnd(u, st.linkOf[keep], o)
      && Joins(u, st.linkOf[keep], st.halves[keep].at.value, st.halves[keep].ifindex, n, x)
  {
    hide Xor;
    var o := Other(st, keep);
    assert HalfOk(st, keep) && HalfOk(st, o);
    hide HalfOk, FlagOk, NodeOk, IndexesDiffer, Loosened, CanPlugIn, Sound;
    LoosenedOk(st, o);
    ReattachedKeeps(st, o, n, x, k);
    assert st.linkOf[o] == st.linkOf[keep];
  }

  /** Two nodes with room that lack the indexes can be joined by a new link. */
  ghost predicate Joinable<I, N, L>(st: St<I, N, L>, n: N, x: nat, m: N, y: nat)
  {
    && Sound(st) && n in st.slots && m in st.slots && n != m
    && HasSlot(st, n) && HasSlot(st, m) && NoneAt(st, n, x) && NoneAt(st, m, y)
  }

  lemma NodeIsOk<I, N, L>(st: St<I, N, L>, n: N)
    requires Sound(st) && n in st.slots
    ensures NodeOk(st, n)
  {
  }

  lemma NewEnds<I, N, L>(st: St<I, N, L>, l: L, i: I, j: I, x: nat, y: nat)
    requires i !in st.halves && j !in st.halves && i != j
    ensures var t := AddLink(st, l, i, j, x, y);
      && LinkOk(t, l) && i in t.linkOf && t.linkOf[i] == l && Other(t, i) == j && t.slots == st.slots && t.ids == st.ids
      && t.halves == st.halves[i := Half(x, None, 0)][j := Half(y, None, 0)]
  {
  }

  lemma AddLinkShape<I, N, L>(st: St<I, N, L>, l: L, i: I, j: I, x: nat, y: nat)
    ensures i in AddLink(st, l, i, j, x, y).linkOf && AddLink(st, l, i, j, x, y).linkOf[i] == l
    ensures AddLink(st, l, i, j, x, y).db == st.db
    ensures AddLink(st, l, i, j, x, y).flags.Keys == st.flags.Keys + {l}
      && AddLink(st, l, i, j, x, y).slots.Keys == st.slots.Keys
  {
  }

  lemma NewLinkFirst<I, N, L>(st: St<I, N, L>, l: L, i: I, j: I, n: N, x: nat, m: N, y: nat)
    requires Joinable(st, n, x, m, y) && l !in st.flags && i !in st.halves && j !in st.halves && i != j
    ensures var t := AddLink(st, l, i, j, x, y); Sound(t) && n in t.slots && exists k :: CanPlugIn(t, i, n, k)
  {
    hide Sound, HalfOk, FlagOk, IndexesDiffer, AddLink, LinkOk, Other;
    AddLinkOk(st, l, i, j, x, y);
    AddLinkShape(st, l, i, j, x, y);
    NewEnds(st, l, i, j, x, y);
    NodeIsOk(st, n);
    var t := AddLink(st, l, i, j, x, y);
    var k :| 0 <= k < |st.slots[n]| && st.slots[n][k] == None;
    assert CanPlugIn(t, i, n, k);
  }

  lemma NewLinkSecond<I, N, L>(st: St<I, N, L>, l: L, i: I, j: I, n: N, x: nat, m: N, y: nat, k: nat)
    requires Joinable(st, n, x, m, y) && l !in st.flags && i !in st.halves && j !in st.halves && i != j
    requires CanPlugIn(AddLink(st, l, i, j, x, y), i, n, k)
    ensures var u := PlugIn(AddLink(st, l, i, j, x, y), i, n, k);
      Sound(u) && m in u.slots && exists h :: CanPlugIn(u, j, m, h)
  {
    hide Xor;
    AddLinkOk(st, l, i, j, x, y);
    var t := AddLink(st, l, i, j, x, y);
    PlugInOk(t, i, n, k);
    var u := PlugIn(t, i, n, k);
    assert NodeOk(u, m);
    var h :| 0 <= h < |st.slots[m]| && st.slots[m][h] == None;
    assert CanPlugIn(u, j, m, h);
  }

  lemma NewLinkHalves<I, N, L>(st: St<I, N, L>, l: L, i: I, j: I, n: N, x: nat, m: N, y: nat, k: nat, h: nat)
    requires Joinable(st, n, x, m, y) && l !in st.flags && i !in st.halves && j !in st.halves && i != j
    requires CanPlugIn(AddLink(st, l, i, j, x, y), i, n, k)
    requires CanPlugIn(PlugIn(AddLink(st, l, i, j, x, y), i, n, k), j, m, h)
    ensures var u := PlugIn(PlugIn(AddLink(st, l, i, j, x, y), i, n, k), j, m, h);
      && Joins(u, l, n, x, m, y) && IsEnd(u, l, i) && IsEnd(u, l, j) && u.db == st.db && u.slots.Keys == st.slots.Keys
  {
    hide Xor, Sound;
  }

  /** What plugging in and a new link leave as it is. */
  lemma PlugInShape<I, N, L>(st: St<I, N, L>, i: I, n: N, k: nat)
    requires CanPlugIn(st, i, n, k)
    ensures i in st.halves && i in st.linkOf && st.linkOf[i] in st.flags && n in st.slots && k < |st.slots[n]|
      && n in st.ids
    ensures PlugIn(st, i, n, k).linkOf == st.linkOf && PlugIn(st, i, n, k).db == st.db
    ensures PlugIn(st, i, n, k).flags.Keys == st.flags.Keys && PlugIn(st, i, n, k).slots.Keys == st.slots.Keys
  {
  }

  lemma NewLinkKeeps<I, N, L>(st: St<I, N, L>, l: L, i: I, j: I, n: N, x: nat, m: N, y: nat, k: nat, h: nat)
    requires Joinable(st, n, x, m, y) && l !in st.flags && i !in st.halves && j !in st.halves && i != j
      && LooseOnly(st, {})
    requires CanPlugIn(AddLink(st, l, i, j, x, y), i, n, k)
    requires CanPlugIn(PlugIn(AddLink(st, l, i, j, x, y), i, n, k), j, m, h)
    ensures var u := PlugIn(PlugIn(AddLink(st, l, i, j, x, y), i, n, k), j, m, h);
      Sound(u) && Keeps(st, u, {i, j}) && LooseOnly(u, {})
  {
    hide AddLink, PlugIn, CanPlugIn, Sound, Keeps, LooseOnly, HasSlot, NoneAt;
    AddLinkOk(st, l, i, j, x, y);
    AddLinkEffect(st, l, i, j, x, y, {});
    AddLinkShape(st, l, i, j, x, y);
    var t := AddLink(st, l, i, j, x, y);
    PlugInShape(t, i, n, k);
    PlugInOk(t, i, n, k);
    PlugInEffect(t, i, n, k, {l});
    var v := PlugIn(t, i, n, k);
    PlugInShape(v, j, m, h);
    PlugInOk(v, j, m, h);
    PlugInEffect(v, j, m, h, {});
    assert {} + {l} == {l} && {l} - {t.linkOf[i]} == {} && {} - {v.linkOf[j]} == {};
    KeepsTwice(st, t, v, {}, {i});
    KeepsTwice(st, v, PlugIn(v, j, m, h), {} + {i}, {j});
    assert {} + {i} + {j} == {i, j};
  }

  /** Link l is given back if it has no end attached. */
  ghost function FreedIfLoose<I, N, L>(st: St<I, N, L>, l: L): St<I, N, L>
    requires LinkOk(st, l)
  {
    if Loose(st, l) then DropLink(st, l) else st
  }

  lemma FreedIfLooseOk<I, N, L>(st: St<I, N, L>, l: L, x: set<L>)
    requires Sound(st) && l in st.flags && LinkOk(st, l)
    ensures var t := FreedIfLoose(st, l);
      && Sound(t) && Keeps(st, t, {}) && (LooseOnly(st, x) ==> LooseOnly(t, x - {l}))
      && t.slots == st.slots && t.db == st.db && t.ids == st.ids
      && (forall i | i in t.halves :: i in st.halves && t.halves[i] == st.halves[i])
      && (forall i | i in st.halves && i in st.linkOf && st.linkOf[i] != l :: i in t.halves)
      && t.linkOf == st.linkOf && t.first == st.first && t.second == st.second && t.flags.Keys <= st.flags.Keys
      && (forall h | h in st.flags && h != l :: h in t.flags && LinkOk(t, h))
  {
    hide Xor;
    if Loose(st, l) {
      DropLinkOk(st, l);
      DropLinkEffect(st, l, x);
      forall i | i in st.halves && i in st.linkOf && st.linkOf[i] != l ensures i in DropLink(st, l).halves {
        assert i != st.first[l] && i != st.second[l];
      }
    }
    var t := FreedIfLoose(st, l);
    forall h | h in st.flags && h != l ensures h in t.flags && LinkOk(t, h) {
      assert FlagOk(st, h) && FlagOk(t, h);
    }
  }

  /** Interfaces a and b taken out of their slots, and their two links given back if that was their last end. */
  ghost function Separated<I, N, L>(st: St<I, N, L>, a: I, b: I): St<I, N, L>
    requires Sound(st) && a in st.halves && b in st.halves
    requires a in st.linkOf && b in st.linkOf && st.linkOf[a] != st.linkOf[b]
  {
    LoosenedOk(st, a);
    var s1 := Loosened(st, a);
    LoosenedOk(s1, b);
    var s2 := Loosened(s1, b);
    PluggedIn(s2, a);
    FreedIfLooseOk(s2, st.linkOf[a], {});
    var s3 := FreedIfLoose(s2, st.linkOf[a]);
    PluggedIn(s2, b);
    assert LinkOk(s3, st.linkOf[b]);
    FreedIfLoose(s3, st.linkOf[b])
  }

  lemma SeparatedLoose<I, N, L>(st: St<I, N, L>, a: I, b: I)
    requires Sound(st) && LooseOnly(st, {}) && a in st.halves && b in st.halves && a in st.linkOf && b in st.linkOf
    ensures Sound(Loosened(st, a)) && b in Loosened(st, a).halves
    ensures LooseOnly(Loosened(Loosened(st, a), b), {st.linkOf[a], st.linkOf[b]})
  {
    hide Xor;
    LoosenedOk(st, a);
    var s1 := Loosened(st, a);
    LoosenedOk(s1, b);
    if Attached(s1, b) {
      CanPlugOut(s1, b);
      PlugOutEffect(s1, b, {st.linkOf[a]});
      assert {st.linkOf[a]} + {st.linkOf[b]} == {st.linkOf[a], st.linkOf[b]};
    }
  }

  lemma SeparatedOk<I, N, L>(st: St<I, N, L>, a: I, b: I)
    requires Sound(st) && LooseOnly(st, {}) && a in st.halves && b in st.halves
    requires a in st.linkOf && b in st.linkOf && st.linkOf[a] != st.linkOf[b]
    ensures var t := Separated(st, a, b);
      && Sound(t) && LooseOnly(t, {}) && Keeps(st, t, {a, b}) && t.db == st.db && t.slots.Keys == st.slots.Keys
      && t.flags.Keys <= st.flags.Keys
      && (forall i | i in t.halves ::
        i in st.halves && (if i == a || i == b then t.halves[i].at == None else t.halves[i] == st.halves[i]))
  {
    hide Xor;
    LoosenedOk(st, a);
    var s1 := Loosened(st, a);
    LoosenedOk(s1, b);
    var s2 := Loosened(s1, b);
    PluggedIn(s2, a);
    PluggedIn(s2, b);
    var la, lb := st.linkOf[a], st.linkOf[b];
    hide Loosened, Sound, FreedIfLoose;
    assert LooseOnly(s2, {la, lb}) by { SeparatedLoose(st, a, b); }
    FreedIfLooseOk(s2, la, {la, lb});
    var s3 := FreedIfLoose(s2, la);
    assert {la, lb} - {la} == {lb};
    FreedIfLooseOk(s3, lb, {lb});
    assert {lb} - {lb} == {};
    KeepsTwice(st, s1, s2, {a}, {b});
    KeepsTwice(st, s2, s3, {a} + {b}, {});
    KeepsTwice(st, s3, Separated(st, a, b), {a} + {b} + {}, {});
    assert {a} + {b} + {} + {} == {a, b};
  }

  lemma SeparatedLists<I, N, L>(st: St<I, N, L>, a: I, b: I)
    requires Sound(st) && a in st.halves && b in st.halves && a in st.linkOf && b in st.linkOf
      && st.linkOf[a] != st.linkOf[b]
    ensures Sound(Loosened(st, a)) && b in Loosened(st, a).halves
    ensures Separated(st, a, b).slots == Loosened(Loosened(st, a), b).slots
  {
    hide Xor, Loosened;
    LoosenedOk(st, a);
    var s1 := Loosened(st, a);
    LoosenedOk(s1, b);
    var s2 := Loosened(s1, b);
    PluggedIn(s2, a);
    PluggedIn(s2, b);
    FreedIfLooseOk(s2, st.linkOf[a], {});
  }

  lemma SeparatedSlots<I, N, L>(st: St<I, N, L>, a: I, b: I, n: N, m: N)
    requires Sound(st) && a in st.halves && b in st.halves && st.halves[a].at == Some(n)
      && st.halves[b].at == Some(m) && n != m
    requires a in st.linkOf && b in st.linkOf && st.linkOf[a] != st.linkOf[b]
    ensures var t := Separated(st, a, b); n in t.slots && m in t.slots && HasSlot(t, n) && HasSlot(t, m)
  {
    assert HalfOk(st, a) && HalfOk(st, b);
    hide HalfOk, NodeOk, FlagOk, Sound, Loosened;
    LoosenedOk(st, a);
    var s1 := Loosened(st, a);
    LoosenedOk(s1, b);
    LoosenedSlots(st, a, n);
    LoosenedSlots(s1, b, n);
    LoosenedSlots(s1, b, m);
    SeparatedLists(st, a, b);
  }

  /** The two nodes then have room, and lack the two indexes. */
  lemma SeparatedJoinable<I, N, L>(st: St<I, N, L>, a: I, b: I, n: N, x: nat, m: N, y: nat)
    requires Sound(st) && LooseOnly(st, {}) && At(st, a, n, x) && At(st, b, m, y) && n != m
    requires a in st.linkOf && b in st.linkOf && st.linkOf[a] != st.linkOf[b]
    ensures Joinable(Separated(st, a, b), n, x, m, y)
  {
    hide Xor;
    SeparatedOk(st, a, b);
    SeparatedSlots(st, a, b, n, m);
    var t := Separated(st, a, b);
    hide Separated;
    forall i | i in t.halves ensures !At(t, i, n, x) && !At(t, i, m, y) {
      assert IndexesDiffer(st, i, a) && IndexesDiffer(st, i, b);
    }
  }

  // ---- whether there is room ----

  ghost predicate FarEndOn<I, N, L>(st: St<I, N, L>, j: I, n: N)
  {
    j in st.linkOf && LinkOk(st, st.linkOf[j]) && st.halves[Other(st, j)].at == Some(n)
  }

  /** Node `d` needs no new slot for interface x, or has one: the interface is there already, or the far
      end of interface y of node e is on d, or d has an empty slot, or d is not there yet. */
  ghost predicate RoomFor<I, N, L>(st: St<I, N, L>, d: RouterId, x: nat, e: RouterId, y: nat)
  {
    d in st.db && st.db[d] in st.slots ==>
      || HasSlot(st, st.db[d])
      || !NoneAt(st, st.db[d], x)
      || (e in st.db && exists j | j in st.halves && FarEndOn(st, j, st.db[d]) :: At(st, j, st.db[e], y))
  }

  /** Making a node that was not there takes room from none. */
  lemma AddNodeRoom<I, N, L>(st: St<I, N, L>, n: N, id: RouterId, d: RouterId, x: nat, e: RouterId, y: nat)
    requires Sound(st) && n !in st.slots && id !in st.db && RoomFor(st, d, x, e, y)
    ensures RoomFor(AddNode(st, n, id), d, x, e, y)
  {
    var t := AddNode(st, n, id);
    if d == id {
      assert t.slots[n][0] == None;
    } else if d in st.db {
      var m := st.db[d];
      if HasSlot(st, m) {
        var k :| 0 <= k < |st.slots[m]| && st.slots[m][k] == None;
        assert t.slots[m][k] == None;
      } else if !NoneAt(st, m, x) {
        var i :| i in st.halves && At(st, i, m, x);
        assert At(t, i, m, x);
      } else {
        var j :| j in st.halves && FarEndOn(st, j, m) && At(st, j, st.db[e], y);
        assert FarEndOn(t, j, m) && At(t, j, t.db[e], y);
      }
    }
  }

  /** With neither interface there, both nodes have an empty slot. */
  lemma RoomForNew<I, N, L>(st: St<I, N, L>, d: RouterId, x: nat, e: RouterId, y: nat)
    requires Sound(st) && d in st.db && e in st.db && d != e
    requires RoomFor(st, d, x, e, y) && RoomFor(st, e, y, d, x) && NoneAt(st, st.db[d], x) && NoneAt(st, st.db[e], y)
    ensures Joinable(st, st.db[d], x, st.db[e], y)
  {
  }

  /** With interface y of node e there and x of node d not, the far end of y can be brought to d. */
  lemma RoomForFarEnd<I, N, L>(st: St<I, N, L>, keep: I, d: RouterId, x: nat, e: RouterId, y: nat)
    requires Sound(st) && d in st.db && e in st.db && d != e
    requires RoomFor(st, d, x, e, y) && NoneAt(st, st.db[d], x) && At(st, keep, st.db[e], y)
    ensures st.db[d] in st.slots && st.db[d] != st.db[e] && keep in st.linkOf && LinkOk(st, st.linkOf[keep])
    ensures HasSlot(st, st.db[d]) || st.halves[Other(st, keep)].at == Some(st.db[d])
  {
    assert HalfOk(st, keep);
    if !HasSlot(st, st.db[d]) {
      var j :| j in st.halves && FarEndOn(st, j, st.db[d]) && At(st, j, st.db[e], y);
      assert IndexesDiffer(st, j, keep);
    }
  }

  /** Two interfaces of different nodes on one link are its two ends. */
  lemma SameLinkJoins<I, N, L>(st: St<I, N, L>, a: I, b: I, n: N, x: nat, m: N, y: nat)
    requires Sound(st) && At(st, a, n, x) && At(st, b, m, y) && n != m
    requires a in st.linkOf && b in st.linkOf && st.linkOf[a] == st.linkOf[b]
    ensures Joins(st, st.linkOf[a], n, x, m, y)
  {
    assert HalfOk(st, a) && HalfOk(st, b);
  }

  lemma JoinsSwap<I, N, L>(st: St<I, N, L>, l: L, n: N, x: nat, m: N, y: nat)
    requires Joins(st, l, n, x, m, y)
    ensures Joins(st, l, m, y, n, x)
  {
  }

  /** All that was attached is as it was, but for the ends of link l as they are now and the two
      interfaces that had the indexes before, which if they are not those ends are unplugged or gone. */
  ghost predicate RestKept<I, N, L>(st: St<I, N, L>, st': St<I, N, L>, l: L, n: N, x: nat, m: N, y: nat)
  {
    && (forall j | j in st.halves && st.halves[j].at.Some? ::
          || (j in st'.halves && st'.halves[j] == st.halves[j])
          || IsEnd(st', l, j)
          || ((At(st, j, n, x) || At(st, j, m, y)) && (j in st'.halves ==> st'.halves[j].at == None)))
    && (forall j | j in st'.halves && st'.halves[j].at.Some? ::
          (j in st.halves && st.halves[j] == st'.halves[j]) || IsEnd(st', l, j))
    && (forall d | d in st.db :: d in st'.db && st'.db[d] == st.db[d])
  }

  lemma RestKeptEnds<I, N, L>(st: St<I, N, L>, st': St<I, N, L>, l: L, n: N, x: nat, m: N, y: nat, touched: set<I>)
    requires Keeps(st, st', touched) && forall i | i in touched :: IsEnd(st', l, i)
    ensures RestKept(st, st', l, n, x, m, y)
  {
  }

  lemma RestKeptAfter<I, N, L>(st: St<I, N, L>, t: St<I, N, L>, st': St<I, N, L>, l: L, n: N, x: nat, m: N, y: nat)
    requires Keeps(st, t, {}) && RestKept(t, st', l, n, x, m, y)
    ensures RestKept(st, st', l, n, x, m, y)
  {
  }

  lemma RestKeptSeparated<I, N, L>(st: St<I, N, L>, t: St<I, N, L>, st': St<I, N, L>, l: L, a: I, b: I, n: N, x: nat,
    m: N, y: nat, touched: set<I>)
    requires Keeps(st, t, {a, b}) && Keeps(t, st', touched) && forall i | i in touched :: IsEnd(st', l, i)
    requires At(st, a, n, x) && At(st, b, m, y)
    requires forall i | i in t.halves && (i == a || i == b) :: t.halves[i].at == None
    ensures RestKept(st, st', l, n, x, m, y)
  {
  }

  lemma RestKeptSwap<I, N, L>(st: St<I, N, L>, st': St<I, N, L>, l: L, n: N, x: nat, m: N, y: nat)
    requires RestKept(st, st', l, n, x, m, y)
    ensures RestKept(st, st', l, m, y, n, x)
  {
  }

  lemma JoinsBothWays<I, N, L>(st: St<I, N, L>, l: L, n: N, x: nat, m: N, y: nat)
    requires Joins(st, l, n, x, m, y)
    ensures LinkOk(st, l) && Attached(st, st.first[l]) && Attached(st, st.second[l])
  {
  }

  // ---- what the flag tells ----

  /** ted_is_interface_plugged_in, as it looks at owner, slot and flag. */
  ghost predicate SaysPluggedIn<I, N, L>(st: St<I, N, L>, i: I)
    requires i in st.halves && i in st.linkOf && st.linkOf[i] in st.flags
  {
    && st.halves[i].at.Some?
    && (var n := st.halves[i].at.value;
      n in st.slots && st.halves[i].slot < |st.slots[n]| && st.slots[n][st.halves[i].slot] == Some(i))
    && st.flags[st.linkOf[i]] != 0
  }

  /** ted_is_link_dettached. */
  ghost predicate SaysDettached<I, N, L>(st: St<I, N, L>, l: L)
    requires l in st.flags && LinkOk(st, l)
  {
    !SaysPluggedIn(st, st.first[l]) && !SaysPluggedIn(st, st.second[l])
  }

  /** All that Sound asks of a link, but that it may join a node to itself and router ids may be 0. */
  ghost predicate Wired<I, N, L>(st: St<I, N, L>, l: L)
  {
    && l in st.flags && LinkOk(st, l) && HalfOk(st, st.first[l]) && HalfOk(st, st.second[l])
    && Placed(st, st.first[l]) && Placed(st, st.second[l])
    && st.flags[l] == Xor(IdAt(st, st.first[l]), IdAt(st, st.second[l]))
  }

  /** A flag of zero is taken for "nothing attached".  That is right if and only if nothing is attached or the two
      ends differ in router id, an end that is not attached counting as 0. */
  lemma FlagTellsExactly<I, N, L>(st: St<I, N, L>, l: L)
    requires Wired(st, l)
    ensures (SaysDettached(st, l) <==> Loose(st, l)) <==>
      Loose(st, l) || IdAt(st, st.first[l]) != IdAt(st, st.second[l])
  {
    XorFacts(IdAt(st, st.first[l]), IdAt(st, st.second[l]));
    hide Xor;
  }

  /** How it goes wrong: both ends of a link are plugged into one node.  Neither then passes for plugged in, so
      plugging out refuses, and the link passes for detached, so deleting the node frees it while slots name it. */
  lemma SelfLinkBreaks<I, N, L>(st: St<I, N, L>, i: I, n: N, k: nat, h: nat)
    requires Sound(st) && CanPlugIn(st, i, n, k) && h < |st.slots[n]| && h != k && st.slots[n][h] == None
    requires Loose(st, st.linkOf[i])
    ensures var l, o := st.linkOf[i], Other(st, i);
      && o in st.halves && o in st.linkOf && st.linkOf[o] == l
      && var t := PlugIn(PlugIn(st, i, n, k), o, n, h);
      && Wired(t, l) && Attached(t, i) && Attached(t, o) && !SaysPluggedIn(t, i) && !SaysPluggedIn(t, o)
        && SaysDettached(t, l)
      && n in DropLink(t, l).slots && k < |DropLink(t, l).slots[n]| && !SlotOk(DropLink(t, l), n, k)
  {
    assert HalfOk(st, i) && NodeOk(st, n) && FlagOk(st, st.linkOf[i]);
    XorFacts(st.ids[n].bits, 0);
    XorFacts(st.ids[n].bits, st.ids[n].bits);
    hide Xor, Sound, NodeOk;
  }

  /** ted_db_default_cmp_fn subtracts unsigned router ids and reads the result as a signed number. */
  function CompareIds(a: int, b: int): int
  {
    (a - b + 0x8000_0000) % 0x1_0000_0000 - 0x8000_0000
  }

  /** It orders two router ids as numbers exactly when they are less than half the range apart. */
  lemma CompareIdsExactly(a: int, b: int)
    requires 0 <= a < 0x1_0000_0000 && 0 <= b < 0x1_0000_0000
    ensures (CompareIds(a, b) < 0 <==> a < b) && (CompareIds(a, b) == 0 <==> a == b) <==>
      -0x8000_0000 <= a - b < 0x8000_0000
  {
  }
}
