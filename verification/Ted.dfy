/** The traffic-engineering database, server/ted/ted.c and ted.h: nodes, interfaces and links as records
    that point at each other.  The tree of nodes is taken as a map from router ids. */
module Ted {
  import opened Options
  import opened TedGraph

  class TedIntf {
    var ifindex: nat
    var attNode: TedNode?
    var link: TedLink?
    var slotNo: nat

    constructor (ifindex: nat)
      ensures this.ifindex == ifindex && attNode == null && link == null && slotNo == 0
    {
      this.ifindex, attNode, link, slotNo := ifindex, null, null, 0;
    }
  }

  class TedLink {
    const intf1: TedIntf
    const intf2: TedIntf
    var dirnFlag: bv32

    constructor (intf1: TedIntf, intf2: TedIntf)
      ensures this.intf1 == intf1 && this.intf2 == intf2 && dirnFlag == 0
    {
      this.intf1, this.intf2, dirnFlag := intf1, intf2, 0;
    }
  }

  class TedNode {
    const rtrId: RouterId
    var intf: seq<TedIntf?>
    var isFake: bool
    var isInstalled: bool

    constructor (rtrId: RouterId, isFake: bool)
      ensures this.rtrId == rtrId && this.isFake == isFake && !isInstalled
      ensures |intf| == SLOTS && forall k | 0 <= k < SLOTS :: intf[k] == null
    {
      this.rtrId, this.isFake, isInstalled := rtrId, isFake, false;
      intf := seq(SLOTS, _ => null);
    }
  }

  type State = St<TedIntf, TedNode, TedLink>

  ghost predicate PointsToNode(p: TedNode?, o: Option<TedNode>)
  {
    match o
    case None => p == null
    case Some(n) => p == n
  }

  ghost predicate PointsToIntf(p: TedIntf?, o: Option<TedIntf>)
  {
    match o
    case None => p == null
    case Some(i) => p == i
  }

  ghost predicate IntfAgrees(st: State, i: TedIntf)
    reads i
  {
    && i in st.halves && i in st.linkOf
    && i.ifindex == st.halves[i].ifindex && i.slotNo == st.halves[i].slot
    && PointsToNode(i.attNode, st.halves[i].at) && i.link == st.linkOf[i]
  }

  ghost predicate LinkAgrees(st: State, l: TedLink)
    reads l
  {
    && l in st.flags && l in st.first && l in st.second
    && l.intf1 == st.first[l] && l.intf2 == st.second[l] && l.dirnFlag == st.flags[l]
  }

  ghost predicate NodeAgrees(st: State, n: TedNode)
    reads n
  {
    && n in st.slots && n in st.ids && n.isInstalled && n.rtrId == st.ids[n] && |n.intf| == |st.slots[n]|
    && forall k | 0 <= k < |n.intf| :: PointsToIntf(n.intf[k], st.slots[n][k])
  }

  ghost predicate SameHalf(st: State, st': State, i: TedIntf)
  {
    && i in st.halves && i in st'.halves && st'.halves[i] == st.halves[i]
    && i in st.linkOf && i in st'.linkOf && st'.linkOf[i] == st.linkOf[i]
  }

  ghost predicate SameLink(st: State, st': State, l: TedLink)
  {
    && l in st.flags && l in st'.flags && st'.flags[l] == st.flags[l]
    && l in st.first && l in st'.first && st'.first[l] == st.first[l]
    && l in st.second && l in st'.second && st'.second[l] == st.second[l]
  }

  ghost predicate SameNode(st: State, st': State, n: TedNode)
  {
    && n in st.slots && n in st'.slots && st'.slots[n] == st.slots[n]
    && n in st.ids && n in st'.ids && st'.ids[n] == st.ids[n]
  }

  /** Every record but i, l and n says what st says of it. */
  ghost predicate AgreeBut(st: State, i: TedIntf?, l: TedLink?, n: TedNode?)
    reads st.halves.Keys - {i}, st.flags.Keys - {l}, st.slots.Keys - {n}
  {
    && (forall j {:trigger IntfAgrees(st, j)} | j in st.halves && j != i :: IntfAgrees(st, j))
    && (forall h {:trigger LinkAgrees(st, h)} | h in st.flags && h != l :: LinkAgrees(st, h))
    && (forall m {:trigger NodeAgrees(st, m)} | m in st.slots && m != n :: NodeAgrees(st, m))
  }

  ghost predicate AllAgree(st: State)
    reads st.halves.Keys, st.flags.Keys, st.slots.Keys
  {
    && (forall j {:trigger IntfAgrees(st, j)} | j in st.halves :: IntfAgrees(st, j))
    && (forall h {:trigger LinkAgrees(st, h)} | h in st.flags :: LinkAgrees(st, h))
    && (forall m {:trigger NodeAgrees(st, m)} | m in st.slots :: NodeAgrees(st, m))
  }

  /** st' differs from st in i, l and n only. */
  ghost predicate Local(st: State, st': State, i: TedIntf?, l: TedLink?, n: TedNode?)
  {
    && (forall j {:trigger SameHalf(st, st', j)} | j in st'.halves && j != i :: SameHalf(st, st', j))
    && (forall h {:trigger SameLink(st, st', h)} | h in st'.flags && h != l :: SameLink(st, st', h))
    && (forall m {:trigger SameNode(st, st', m)} | m in st'.slots && m != n :: SameNode(st, st', m))
  }

  lemma AgreementSpreads(st: State, st': State, i: TedIntf?, l: TedLink?, n: TedNode?)
    requires AllAgree(st) && Local(st, st', i, l, n)
    ensures AgreeBut(st', i, l, n)
  {
    forall j | j in st'.halves && j != i ensures IntfAgrees(st', j) {
      assert SameHalf(st, st', j) && IntfAgrees(st, j);
    }
    forall h | h in st'.flags && h != l ensures LinkAgrees(st', h) {
      assert SameLink(st, st', h) && LinkAgrees(st, h);
    }
    forall m | m in st'.slots && m != n ensures NodeAgrees(st', m) {
      assert SameNode(st, st', m) && NodeAgrees(st, m);
    }
  }

  lemma AllAgreeNow(st: State, i: TedIntf?, l: TedLink?, n: TedNode?)
    requires AgreeBut(st, i, l, n)
    requires i != null && i in st.halves ==> IntfAgrees(st, i)
    requires l != null && l in st.flags ==> LinkAgrees(st, l)
    requires n != null && n in st.slots ==> NodeAgrees(st, n)
    ensures AllAgree(st)
  {
  }

  class TedDb {
    var teddb: map<RouterId, TedNode>
    ghost var st: State

    ghost predicate Linked()
      reads this, st.halves.Keys, st.flags.Keys, st.slots.Keys
    {
      Sound(st) && AllAgree(st) && teddb == st.db
    }

    /** No link hangs about with both ends unplugged. */
    ghost predicate Valid()
      reads this, st.halves.Keys, st.flags.Keys, st.slots.Keys
    {
      Linked() && NoneLoose(st)
    }

    /** ted_init_teddb. */
    constructor ()
      ensures Valid() && st == St(map[], map[], map[], map[], map[], map[], map[], map[])
    {
      teddb := map[];
      st := St(map[], map[], map[], map[], map[], map[], map[], map[]);
    }

    /** ted_is_interface_plugged_in: a node, its slot, and a direction flag that is not zero. */
    method IsInterfacePluggedIn(i: TedIntf) returns (yes: bool)
      requires Linked() && i in st.halves
      ensures yes <==> Attached(st, i)
    {
      assert IntfAgrees(st, i);
      PluggedIn(st, i);
      assert LinkAgrees(st, i.link);
      if i.attNode == null {
        return false;
      }
      assert NodeAgrees(st, i.attNode);
      yes := i.attNode.intf[i.slotNo] == i && i.link.dirnFlag != 0;
    }

    /** ted_is_link_dettached. */
    method IsLinkDettached(l: TedLink) returns (yes: bool)
      requires Linked() && l in st.flags
      ensures LinkOk(st, l) && (yes <==> Loose(st, l))
    {
      assert FlagOk(st, l) && LinkAgrees(st, l);
      var one := IsInterfacePluggedIn(l.intf1);
      if one {
        return false;
      }
      var two := IsInterfacePluggedIn(l.intf2);
      yes := !two;
    }

    /** ted_link_is_bidirectional: exactly when both ends are attached. */
    method LinkIsBidirectional(l: TedLink) returns (yes: bool)
      requires Linked() && l in st.flags
      ensures LinkOk(st, l) && (yes <==> Attached(st, st.first[l]) && Attached(st, st.second[l]))
    {
      assert FlagOk(st, l) && LinkAgrees(st, l);
      assert IntfAgrees(st, l.intf1) && IntfAgrees(st, l.intf2);
      var node1, node2 := l.intf1.attNode, l.intf2.attNode;
      if node1 == null || node2 == null {
        return false;
      }
      assert HalfOk(st, l.intf1) && HalfOk(st, l.intf2);
      assert NodeAgrees(st, node1) && NodeAgrees(st, node2);
      Bidirectional(st, l);
      yes := Xor(node1.rtrId.bits, node2.rtrId.bits) == l.dirnFlag;
    }

    static ghost predicate FirstEmpty(s: seq<Option<TedIntf>>, k: nat)
    {
      k < |s| && s[k] == None && forall j | 0 <= j < k :: s[j] != None
    }

    /** ted_node_get_empty_slot. */
    method NodeGetEmptySlot(n: TedNode) returns (slot: int)
      requires Linked() && n in st.slots
      ensures 0 <= slot ==> FirstEmpty(st.slots[n], slot)
      ensures slot < 0 ==> slot == -1 && forall j | 0 <= j < |st.slots[n]| :: st.slots[n][j] != None
    {
      assert NodeAgrees(st, n) && NodeOk(st, n);
      var k := 0;
      while k < SLOTS
        invariant k <= SLOTS
        invariant forall j | 0 <= j < k :: st.slots[n][j] != None
      {
        if n.intf[k] == null {
          return k;
        }
        k := k + 1;
      }
      return -1;
    }

    /** ted_node_lookup_intf. */
    method NodeLookupIntf(n: TedNode, ifindex: nat) returns (i: TedIntf?)
      requires Linked() && n in st.slots
      ensures i != null ==> i in st.halves && st.halves[i].at == Some(n) && st.halves[i].ifindex == ifindex
      ensures i == null ==> forall j | j in st.halves && st.halves[j].at == Some(n) :: st.halves[j].ifindex != ifindex
    {
      assert NodeAgrees(st, n) && NodeOk(st, n);
      var k := 0;
      while k < SLOTS
        invariant k <= SLOTS
        invariant forall j | 0 <= j < k && st.slots[n][j].Some? ::
          st.slots[n][j].value in st.halves && st.halves[st.slots[n][j].value].ifindex != ifindex
      {
        var c := n.intf[k];
        assert SlotOk(st, n, k);
        if c != null {
          assert IntfAgrees(st, c);
          if c.ifindex == ifindex {
            return c;
          }
        }
        k := k + 1;
      }
      forall j | j in st.halves && st.halves[j].at == Some(n) ensures st.halves[j].ifindex != ifindex {
        assert HalfOk(st, j);
      }
      return null;
    }

    // ---- plugging in and out ----

    /** Interface i is free, and node n can take it. */
    static ghost predicate Ready(s: State, i: TedIntf, n: TedNode)
    {
      n in s.slots && exists k :: CanPlugIn(s, i, n, k)
    }

    lemma PlugInLocal(s: State, i: TedIntf, n: TedNode, k: nat)
      requires Sound(s) && AllAgree(s) && CanPlugIn(s, i, n, k)
      ensures Local(s, PlugIn(s, i, n, k), i, s.linkOf[i], n)
    {
      var s' := PlugIn(s, i, n, k);
      forall j | j in s'.halves && j != i ensures SameHalf(s, s', j) {
        assert HalfOk(s, j);
      }
      forall h | h in s'.flags && h != s.linkOf[i] ensures SameLink(s, s', h) {
        assert FlagOk(s, h);
      }
      forall m | m in s'.slots && m != n ensures SameNode(s, s', m) {
        assert NodeOk(s, m);
      }
    }

    lemma PlugInReady(s: State, i: TedIntf, n: TedNode, k: nat)
      requires Sound(s) && AllAgree(s) && CanPlugIn(s, i, n, k)
      ensures Sound(PlugIn(s, i, n, k))
      ensures AgreeBut(PlugIn(s, i, n, k), i, s.linkOf[i], n)
      ensures IntfAgrees(s, i) && LinkAgrees(s, s.linkOf[i]) && NodeAgrees(s, n)
    {
      PlugInOk(s, i, n, k);
      PlugInLocal(s, i, n, k);
      AgreementSpreads(s, PlugIn(s, i, n, k), i, s.linkOf[i], n);
    }

    static ghost predicate SlotsAgree(a: seq<TedIntf?>, b: seq<Option<TedIntf>>)
    {
      |a| == |b| && forall k | 0 <= k < |a| :: PointsToIntf(a[k], b[k])
    }

    lemma SlotsAgreeToo(a: seq<TedIntf?>, b: seq<Option<TedIntf>>, k: nat, x: TedIntf?, y: Option<TedIntf>)
      requires SlotsAgree(a, b) && k < |a| && PointsToIntf(x, y)
      ensures SlotsAgree(a[k := x], b[k := y])
    {
    }

    /** The four assignments of ted_plug_in_interface. */
    static method WriteIn(n: TedNode, i: TedIntf, l: TedLink, slot: nat)
      requires i.link == l && slot < |n.intf|
      modifies i`attNode, i`slotNo, l`dirnFlag, n`intf
      ensures i.attNode == n && i.slotNo == slot && n.intf == old(n.intf)[slot := i]
      ensures l.dirnFlag == Xor(old(l.dirnFlag), n.rtrId.bits)
    {
      i.attNode := n;
      n.intf := n.intf[slot := i];
      i.slotNo := slot;
      i.link.dirnFlag := Xor(i.link.dirnFlag, i.attNode.rtrId.bits);
    }

    lemma PlugInSays(s: State, i: TedIntf, n: TedNode, k: nat)
      requires Sound(s) && AllAgree(s) && CanPlugIn(s, i, n, k)
      ensures i in s.halves && i in s.linkOf && s.linkOf[i] in s.flags && n in s.slots && n in s.ids && k < |n.intf|
      ensures i.ifindex == s.halves[i].ifindex && i.link == s.linkOf[i]
      ensures s.linkOf[i].dirnFlag == s.flags[s.linkOf[i]] && n.rtrId == s.ids[n] && n.isInstalled
        && SlotsAgree(n.intf, s.slots[n])
      ensures LinkOk(s, s.linkOf[i]) && s.linkOf[i].intf1 == s.first[s.linkOf[i]]
        && s.linkOf[i].intf2 == s.second[s.linkOf[i]]
    {
      hide Xor;
      assert IntfAgrees(s, i) && LinkAgrees(s, s.linkOf[i]) && NodeAgrees(s, n);
    }

    lemma PluggedInNow(s: State, i: TedIntf, n: TedNode, k: nat, slots: seq<TedIntf?>)
      requires CanPlugIn(s, i, n, k) && LinkOk(s, s.linkOf[i]) && SlotsAgree(slots, s.slots[n])
      requires var l := s.linkOf[i];
        && i.ifindex == s.halves[i].ifindex && i.link == l && i.attNode == n && i.slotNo == k
        && l.dirnFlag == Xor(s.flags[l], s.ids[n].bits) && l.intf1 == s.first[l] && l.intf2 == s.second[l]
        && n.rtrId == s.ids[n] && n.isInstalled && n.intf == slots[k := i]
      ensures IntfAgrees(PlugIn(s, i, n, k), i) && LinkAgrees(PlugIn(s, i, n, k), s.linkOf[i])
        && NodeAgrees(PlugIn(s, i, n, k), n)
    {
      hide Xor;
      SlotsAgreeToo(slots, s.slots[n], k, i, Some(i));
    }

    method PlugInAt(n: TedNode, i: TedIntf, slot: nat)
      requires Linked() && CanPlugIn(st, i, n, slot)
      modifies `st, i`attNode, i`slotNo, st.flags.Keys`dirnFlag, n`intf
      ensures Linked() && st == PlugIn(old(st), i, n, slot)
    {
      hide AgreeBut, AllAgree, IntfAgrees, LinkAgrees, LinkOk, SlotsAgree, Sound, PlugIn, CanPlugIn;
      ghost var s := st;
      PlugInShape(s, i, n, slot);
      PlugInSays(s, i, n, slot);
      PlugInReady(s, i, n, slot);
      ghost var s' := PlugIn(s, i, n, slot);
      ghost var l := s.linkOf[i];
      ghost var slots := n.intf;
      assert AgreeBut(s', i, l, n);
      WriteIn(n, i, i.link, slot);
      assert AgreeBut(s', i, l, n);
      PluggedInNow(s, i, n, slot, slots);
      st := s';
      AllAgreeNow(st, i, l, n);
    }

    /** ted_plug_in_interface; its assertions are preconditions: the node has an empty slot, and the
        interface is not plugged in. */
    method PlugInInterface(n: TedNode, i: TedIntf) returns (slot: nat)
      requires Linked() && Ready(st, i, n)
      modifies `st, i`attNode, i`slotNo, st.flags.Keys`dirnFlag, n`intf
      ensures Linked() && CanPlugIn(old(st), i, n, slot) && FirstEmpty(old(st).slots[n], slot)
      ensures st == PlugIn(old(st), i, n, slot)
    {
      assert n in st.slots;
      slot := NodeGetEmptySlot(n);
      assert CanPlugIn(st, i, n, slot);
      PlugInAt(n, i, slot);
    }

    static ghost predicate OutOk(s: State, i: TedIntf)
    {
      && i in s.halves && Attached(s, i) && i in s.linkOf && s.linkOf[i] in s.flags && LinkOk(s, s.linkOf[i])
      && var n := s.halves[i].at.value; n in s.slots && s.halves[i].slot < |s.slots[n]| && n in s.ids
    }

    lemma OutSays(s: State, i: TedIntf)
      requires OutOk(s, i)
      ensures i in s.halves && s.halves[i].at.Some? && i in s.linkOf && s.linkOf[i] in s.flags
      ensures var n := s.halves[i].at.value; n in s.slots && s.halves[i].slot < |s.slots[n]| && n in s.ids
      ensures PlugOut(s, i).db == s.db
      ensures SlotsAgree(s.halves[i].at.value.intf, s.slots[s.halves[i].at.value]) ==>
        s.halves[i].slot < |s.halves[i].at.value.intf|
    {
    }

    lemma PlugOutLocal(s: State, i: TedIntf)
      requires Sound(s) && OutOk(s, i)
      ensures Local(s, PlugOut(s, i), i, s.linkOf[i], s.halves[i].at.value)
    {
      hide Xor;
      var s' := PlugOut(s, i);
      forall j | j in s'.halves && j != i ensures SameHalf(s, s', j) {
        assert HalfOk(s, j);
      }
      forall h | h in s'.flags && h != s.linkOf[i] ensures SameLink(s, s', h) {
        assert FlagOk(s, h);
      }
      forall m | m in s'.slots && m != s.halves[i].at.value ensures SameNode(s, s', m) {
        assert NodeOk(s, m);
      }
    }

    lemma PlugOutReady(s: State, i: TedIntf)
      requires Sound(s) && AllAgree(s) && i in s.halves && Attached(s, i)
      ensures OutOk(s, i) && Sound(PlugOut(s, i))
      ensures AgreeBut(PlugOut(s, i), i, s.linkOf[i], s.halves[i].at.value)
      ensures i.ifindex == s.halves[i].ifindex && i.slotNo == s.halves[i].slot && i.attNode == s.halves[i].at.value
        && i.link == s.linkOf[i]
      ensures var l, n := s.linkOf[i], s.halves[i].at.value;
        && l.dirnFlag == s.flags[l] && l.intf1 == s.first[l] && l.intf2 == s.second[l]
        && n.rtrId == s.ids[n] && n.isInstalled && SlotsAgree(n.intf, s.slots[n])
    {
      hide Xor;
      CanPlugOut(s, i);
      PlugOutOk(s, i);
      assert HalfOk(s, i);
      assert IntfAgrees(s, i) && LinkAgrees(s, s.linkOf[i]) && NodeAgrees(s, s.halves[i].at.value);
      PlugOutLocal(s, i);
      AgreementSpreads(s, PlugOut(s, i), i, s.linkOf[i], s.halves[i].at.value);
    }

    /** The assignments of ted_plug_out_interface. */
    static method WriteOut(i: TedIntf, l: TedLink, n: TedNode)
      requires i.link == l && i.attNode == n && i.slotNo < |n.intf|
      modifies i`attNode, i`slotNo, l`dirnFlag, n`intf
      ensures i.attNode == null && i.slotNo == 0 && n.intf == old(n.intf)[old(i.slotNo) := null]
      ensures l.dirnFlag == Xor(old(l.dirnFlag), n.rtrId.bits)
    {
      i.link.dirnFlag := Xor(i.link.dirnFlag, i.attNode.rtrId.bits);
      i.attNode.intf := i.attNode.intf[i.slotNo := null];
      i.attNode := null;
      i.slotNo := 0;
    }

    lemma PluggedOutNow(s: State, i: TedIntf, slots: seq<TedIntf?>)
      requires OutOk(s, i)
      requires var l, n, k := s.linkOf[i], s.halves[i].at.value, s.halves[i].slot;
        && SlotsAgree(slots, s.slots[n])
        && i.ifindex == s.halves[i].ifindex && i.link == l && i.attNode == null && i.slotNo == 0
        && l.dirnFlag == Xor(s.flags[l], s.ids[n].bits) && l.intf1 == s.first[l] && l.intf2 == s.second[l]
        && n.rtrId == s.ids[n] && n.isInstalled && n.intf == slots[k := null]
      ensures IntfAgrees(PlugOut(s, i), i) && LinkAgrees(PlugOut(s, i), s.linkOf[i])
        && NodeAgrees(PlugOut(s, i), s.halves[i].at.value)
    {
      hide Xor;
      SlotsAgreeToo(slots, s.slots[s.halves[i].at.value], s.halves[i].slot, null, None);
    }

    /** ted_plug_out_interface: the slot that became empty, or -1 for an interface that was not plugged in. */
    method PlugOutInterface(i: TedIntf) returns (slot: int)
      requires Linked() && i in st.halves
      modifies `st, i`attNode, i`slotNo, st.flags.Keys`dirnFlag, st.slots.Keys`intf
      ensures Linked()
      ensures !Attached(old(st), i) ==> slot == -1 && st == old(st)
      ensures Attached(old(st), i) ==> OutOk(old(st), i) && st == PlugOut(old(st), i) && slot == old(st).halves[i].slot
    {
      hide LinkAgrees, NodeAgrees, IntfAgrees, AgreeBut, AllAgree, Sound, SlotsAgree, OutOk, PlugOut;
      ghost var s := st;
      var pluggedIn := IsInterfacePluggedIn(i);
      if !pluggedIn {
        return -1;
      }
      PlugOutReady(s, i);
      OutSays(s, i);
      ghost var s' := PlugOut(s, i);
      ghost var l, n := s.linkOf[i], s.halves[i].at.value;
      ghost var slots := n.intf;
      slot := i.slotNo;
      assert AgreeBut(s', i, l, n);
      WriteOut(i, i.link, i.attNode);
      assert AgreeBut(s', i, l, n);
      PluggedOutNow(s, i, slots);
      st := s';
      AllAgreeNow(st, i, l, n);
    }

    // ---- links and nodes come and go ----

    lemma AddLinkAgrees(s: State, l: TedLink, i: TedIntf, j: TedIntf)
      requires Sound(s) && AllAgree(s) && l !in s.flags && i !in s.halves && j !in s.halves && i != j
      requires i.attNode == null && i.slotNo == 0 && i.link == l && j.attNode == null && j.slotNo == 0 && j.link == l
      requires l.intf1 == i && l.intf2 == j && l.dirnFlag == 0
      ensures AllAgree(AddLink(s, l, i, j, i.ifindex, j.ifindex))
    {
      var s' := AddLink(s, l, i, j, i.ifindex, j.ifindex);
      forall h | h in s'.halves ensures IntfAgrees(s', h) {
        if h in s.halves {
          assert IntfAgrees(s, h);
        }
      }
      forall h | h in s'.flags ensures LinkAgrees(s', h) {
        if h in s.flags {
          assert LinkAgrees(s, h);
        }
      }
      forall m | m in s'.slots ensures NodeAgrees(s', m) {
        assert NodeAgrees(s, m);
      }
    }

    /** ted_create_link. */
    method CreateLink(from: nat, to: nat) returns (l: TedLink)
      requires Linked()
      modifies `st
      ensures fresh(l) && fresh(l.intf1) && fresh(l.intf2) && Linked()
      ensures l.intf1 !in old(st).halves && l.intf2 !in old(st).halves && l.intf1 != l.intf2 && l !in old(st).flags
      ensures st == AddLink(old(st), l, l.intf1, l.intf2, from, to)
    {
      hide AllAgree, Sound;
      ghost var s := st;
      assert Sound(s);
      var i := new TedIntf(from);
      var j := new TedIntf(to);
      l := new TedLink(i, j);
      i.link := l;
      j.link := l;
      assert Linked();
      assert AllAgree(s);
      AddLinkOk(s, l, i, j, from, to);
      st := AddLink(s, l, i, j, from, to);
      AddLinkAgrees(s, l, i, j);
      assert st.db == s.db;
    }

    lemma DropLinkAgrees(s: State, l: TedLink)
      requires Sound(s) && AllAgree(s) && l in s.flags && LinkOk(s, l)
      ensures AllAgree(DropLink(s, l))
    {
      var s' := DropLink(s, l);
      forall h | h in s'.halves ensures IntfAgrees(s', h) {
        assert IntfAgrees(s, h);
      }
      forall h | h in s'.flags ensures LinkAgrees(s', h) {
        assert LinkAgrees(s, h);
      }
      forall m | m in s'.slots ensures NodeAgrees(s', m) {
        assert NodeAgrees(s, m);
      }
    }

    /** XFREE of a link with no end attached. */
    ghost method FreeLink(l: TedLink)
      requires Linked() && l in st.flags && LinkOk(st, l) && Loose(st, l)
      modifies `st
      ensures Linked() && st == DropLink(old(st), l)
    {
      hide Sound;
      ghost var s := st;
      assert Sound(s) && AllAgree(s);
      DropLinkOk(s, l);
      DropLinkAgrees(s, l);
      st := DropLink(s, l);
      assert st.db == s.db;
    }

    /** ted_lookup_node. */
    method LookupNode(id: RouterId) returns (n: TedNode?)
      requires Linked()
      ensures n == null <==> id !in st.db
      ensures n != null ==> n == st.db[id] && n in st.slots && n in st.ids && st.ids[n] == id
    {
      return if id in teddb then teddb[id] else null;
    }

    lemma AddNodeAgrees(s: State, n: TedNode, id: RouterId)
      requires Sound(s) && AllAgree(s) && n !in s.slots && n.rtrId == id && n.isInstalled
      requires |n.intf| == SLOTS && forall k | 0 <= k < SLOTS :: n.intf[k] == null
      ensures AllAgree(AddNode(s, n, id))
    {
      var s' := AddNode(s, n, id);
      forall h | h in s'.halves ensures IntfAgrees(s', h) {
        assert IntfAgrees(s, h);
      }
      forall h | h in s'.flags ensures LinkAgrees(s', h) {
        assert LinkAgrees(s, h);
      }
      forall m | m in s'.slots ensures NodeAgrees(s', m) {
        if m != n {
          assert NodeAgrees(s, m);
        }
      }
    }

    /** ted_create_node and ted_insert_node_in_teddb. */
    method CreateAndInsertNode(id: RouterId, isFake: bool) returns (n: TedNode)
      requires Linked() && id.bits != 0 && id !in st.db
      modifies this
      ensures fresh(n) && n !in old(st).slots && n.isFake == isFake && Linked()
      ensures st == AddNode(old(st), n, id)
    {
      hide Sound;
      ghost var s := st;
      n := new TedNode(id, isFake);
      n.isInstalled := true;
      assert Linked();
      assert Sound(s) && AllAgree(s) && teddb == s.db;
      teddb := teddb[id := n];
      AddNodeOk(s, n, id);
      AddNodeAgrees(s, n, id);
      st := AddNode(s, n, id);
      assert st.db == s.db[id := n];
    }

    /** One interface is unplugged, and its link given back if that was its last end. */
    method Unplug(i: TedIntf)
      requires Linked() && i in st.halves && Attached(st, i)
      modifies `st, i`attNode, i`slotNo, st.flags.Keys`dirnFlag, st.slots.Keys`intf
      ensures Linked() && Sound(old(st)) && st == Unplugged(old(st), i)
    {
      hide Attached, LinkAgrees, LinkOk, Loose, PointsToNode, Sound, Xor;
      ghost var s := st;
      assert Sound(s);
      CanPlugOut(s, i);
      PlugOutOk(s, i);
      var _ := PlugOutInterface(i);
      PluggedIn(st, i);
      assert i in st.halves && st.linkOf == s.linkOf;
      assert AllAgree(st);
      assert i.link == st.linkOf[i] by { assert IntfAgrees(st, i); }
      var link: TedLink := i.link;
      var dettached := IsLinkDettached(link);
      if dettached {
        FreeLink(link);
      }
    }

    /** What stands in slot k of node n. */
    lemma SlotSays(n: TedNode, k: nat)
      requires Linked() && n in st.slots && k < SLOTS
      ensures |st.slots[n]| == SLOTS == |n.intf| && PointsToIntf(n.intf[k], st.slots[n][k])
      ensures n.intf[k] != null ==>
        var i := n.intf[k];
          i in st.halves && st.halves[i].at == Some(n) && st.halves[i].slot == k && st.slots[n][k] == Some(i)
    {
      assert NodeAgrees(st, n) && NodeOk(st, n) && SlotOk(st, n, k);
    }

    /** One turn of ted_unplug_all_interfaces' loop. */
    method UnplugSlot(n: TedNode, k: nat)
      requires Linked() && n in st.slots && k < SLOTS
      modifies `st, st.halves.Keys, st.flags.Keys`dirnFlag, st.slots.Keys`intf
      ensures Linked() && n in old(st).slots && k < |old(st).slots[n]| && n in st.slots
      ensures st.slots[n] == old(st).slots[n][k := None] && OnlyUnplugged(old(st), st, n)
      ensures NoneLoose(old(st)) ==> NoneLoose(st)
    {
      SlotSays(n, k);
      ghost var t := st;
      var i := n.intf[k];
      if i != null {
        assert Attached(st, i);
        Unplug(i);
        UnpluggedOk(t, i, n);
      } else {
        assert t.slots[n][k] == None;
        assert t.slots[n][k := None] == t.slots[n];
      }
    }

    lemma UnpluggedSubset(s: State, t: State, n: TedNode)
      requires OnlyUnplugged(s, t, n)
      ensures t.halves.Keys <= s.halves.Keys && t.flags.Keys <= s.flags.Keys && t.slots.Keys == s.slots.Keys
    {
    }

    /** ted_unplug_all_interfaces. */
    method UnplugAllInterfaces(n: TedNode)
      requires Linked() && n in st.slots
      modifies `st, st.halves.Keys, st.flags.Keys`dirnFlag, st.slots.Keys`intf
      ensures Linked() && n in st.slots && Bare(st, n) && OnlyUnplugged(old(st), st, n)
      ensures NoneLoose(old(st)) ==> NoneLoose(st)
    {
      SlotSays(n, 0);
      hide PointsToIntf;
      ghost var s := st;
      assert OnlyUnplugged(s, s, n);
      UnpluggedSubset(s, s, n);
      var k := 0;
      while k < SLOTS
        invariant k <= SLOTS && Linked() && n in st.slots && |st.slots[n]| == SLOTS && OnlyUnplugged(s, st, n)
        invariant st.halves.Keys <= s.halves.Keys && st.flags.Keys <= s.flags.Keys && st.slots.Keys == s.slots.Keys
        invariant forall j | 0 <= j < k :: st.slots[n][j] == None
        invariant NoneLoose(s) ==> NoneLoose(st)
      {
        ghost var t := st;
        UnplugSlot(n, k);
        OnlyUnpluggedTwice(s, t, st, n);
        UnpluggedSubset(s, st, n);
        k := k + 1;
      }
    }

    lemma DropNodeAgrees(t: State, n: TedNode)
      requires Sound(t) && AllAgree(t) && n in t.slots && n in t.ids
      ensures AllAgree(DropNode(t, n))
    {
      var t' := DropNode(t, n);
      forall h | h in t'.halves ensures IntfAgrees(t', h) {
        assert IntfAgrees(t, h);
      }
      forall h | h in t'.flags ensures LinkAgrees(t', h) {
        assert LinkAgrees(t, h);
      }
      forall m | m in t'.slots ensures NodeAgrees(t', m) {
        assert NodeAgrees(t, m);
      }
    }

    /** The bare node leaves the tree. */
    method RemoveNode(n: TedNode, id: RouterId)
      requires Linked() && n in st.slots && n in st.ids && st.ids[n] == id && Bare(st, n)
      modifies `teddb, `st, n`isInstalled
      ensures Linked() && st == DropNode(old(st), n)
    {
      hide AllAgree, Bare, Sound;
      ghost var t := st;
      assert Sound(t) && AllAgree(t) && teddb == t.db;
      DropNodeOk(t, n);
      DropNodeAgrees(t, n);
      ghost var t' := DropNode(t, n);
      assert t'.db == t.db - {id} && n !in t'.slots;
      teddb := teddb - {id};
      n.isInstalled := false;
      assert AllAgree(t');
      st := t';
    }

    lemma DropNodeLoose(t: State, n: TedNode)
      requires NoneLoose(t) && n in t.ids
      ensures NoneLoose(DropNode(t, n))
    {
      forall l | l in DropNode(t, n).flags && LinkOk(DropNode(t, n), l) ensures !Loose(DropNode(t, n), l) {
        assert LinkOk(t, l) && !Loose(t, l);
      }
    }

    /** Node n is gone and nothing is attached to it; all else that was attached still is. */
    static ghost predicate OnlyLost(was: State, now: State, n: TedNode)
    {
      && n !in now.slots
      && (forall i | i in now.halves :: now.halves[i].at != Some(n))
      && (forall m | m in was.slots && m != n :: m in now.slots && now.slots[m] == was.slots[m])
      && (forall i | i in was.halves && was.halves[i].at.Some? && was.halves[i].at != Some(n) ::
        i in now.halves && now.halves[i] == was.halves[i])
      && (forall d | d in was.db && was.db[d] != n :: d in now.db && now.db[d] == was.db[d])
    }

    lemma OnlyLostNow(s: State, t: State, n: TedNode)
      requires Sound(t) && OnlyUnplugged(s, t, n) && n in t.slots && n in t.ids && Bare(t, n)
      ensures OnlyLost(s, DropNode(t, n), n)
    {
      DropNodeOk(t, n);
      assert NodeOk(t, n);
    }

    /** ted_delete_node: the node is gone, no interface is attached to it any more, and no link is left
        with both ends unplugged; what is attached to other nodes stays. */
    method DeleteNode(id: RouterId)
      requires Valid()
      modifies this, st.halves.Keys, st.flags.Keys`dirnFlag, st.slots.Keys`intf, st.slots.Keys`isInstalled
      ensures Valid()
      ensures id !in old(st).db ==> st == old(st)
      ensures id in old(st).db ==> id !in st.db && OnlyLost(old(st), st, old(st).db[id])
    {
      assert Linked() && NoneLoose(st);
      ghost var s := st;
      var n := LookupNode(id);
      if n == null {
        return;
      }
      UnplugAllInterfaces(n);
      ghost var t := st;
      assert n in t.ids && t.ids[n] == id;
      assert Sound(t);
      OnlyLostNow(s, t, n);
      DropNodeLoose(t, n);
      RemoveNode(n, id);
      assert id !in st.db;
    }

    // ---- bringing a link to life ----

    /** ted_link_get_other_interface. */
    method LinkGetOtherInterface(i: TedIntf) returns (o: TedIntf)
      requires Linked() && i in st.halves
      ensures i in st.linkOf && LinkOk(st, st.linkOf[i]) && o == Other(st, i) && o in st.halves && o != i
    {
      assert HalfOk(st, i) && IntfAgrees(st, i);
      assert LinkAgrees(st, i.link);
      var link := i.link;
      o := if link.intf1 == i then link.intf2 else link.intf1;
    }

    method LinkOf(i: TedIntf) returns (l: TedLink)
      requires Linked() && i in st.halves
      ensures i in st.linkOf && l == st.linkOf[i] && l in st.flags
    {
      assert HalfOk(st, i) && IntfAgrees(st, i);
      l := i.link;
    }

    lemma SetIndexAgrees(t: State, i: TedIntf, x: nat)
      requires Sound(t) && AllAgree(t) && i in t.halves
      ensures AgreeBut(SetIndex(t, i, x), i, null, null)
      ensures i in t.linkOf && i.slotNo == t.halves[i].slot && PointsToNode(i.attNode, t.halves[i].at)
        && i.link == t.linkOf[i]
    {
      var t' := SetIndex(t, i, x);
      assert IntfAgrees(t, i);
      forall j | j in t'.halves && j != i ensures SameHalf(t, t', j) {
        assert HalfOk(t, j);
      }
      forall h | h in t'.flags ensures SameLink(t, t', h) {
        assert FlagOk(t, h);
      }
      forall m | m in t'.slots ensures SameNode(t, t', m) {
        assert NodeOk(t, m);
      }
      AgreementSpreads(t, t', i, null, null);
    }

    lemma SetIndexNow(t: State, i: TedIntf, x: nat)
      requires i in t.halves && i in t.linkOf && i.slotNo == t.halves[i].slot && PointsToNode(i.attNode, t.halves[i].at)
        && i.link == t.linkOf[i]
      requires i.ifindex == x
      ensures IntfAgrees(SetIndex(t, i, x), i)
    {
    }

    /** The interface is given a new index. */
    method SetIfindex(i: TedIntf, x: nat)
      requires Linked() && i in st.halves && !Attached(st, i)
      modifies `st, i
      ensures Linked() && st == SetIndex(old(st), i, x)
    {
      hide Sound;
      ghost var t := st;
      assert Sound(t) && AllAgree(t) && teddb == t.db;
      SetIndexOk(t, i, x);
      SetIndexAgrees(t, i, x);
      ghost var t' := SetIndex(t, i, x);
      assert AgreeBut(t', i, null, null);
      i.ifindex := x;
      assert AgreeBut(t', i, null, null);
      SetIndexNow(t, i, x);
      st := t';
      AllAgreeNow(st, i, null, null);
      assert st.db == t.db;
    }

    /** The interface is taken out of its slot if it is in one, and given a new index. */
    method Loosen(i: TedIntf, x: nat)
      requires Linked() && i in st.halves
      modifies `st, i, st.flags.Keys`dirnFlag, st.slots.Keys`intf
      ensures Linked() && Sound(old(st)) && i in Loosened(old(st), i).halves
        && st == SetIndex(Loosened(old(st), i), i, x)
    {
      hide Sound;
      ghost var s := st;
      assert Sound(s);
      LoosenedOk(s, i);
      var pluggedIn := IsInterfacePluggedIn(i);
      if pluggedIn {
        var _ := PlugOutInterface(i);
      }
      assert st == Loosened(s, i);
      SetIfindex(i, x);
    }

    /** The two middle cases of ted_resurrect_link: `keep` is there, and the far end of its link is brought
        to node n under index x, wherever it was before. */
    method Reattach(keep: TedIntf, n: TedNode, x: nat) returns (link: TedLink)
      requires Linked() && LooseOnly(st, {}) && keep in st.halves && Attached(st, keep) && n in st.slots
      requires st.halves[keep].at != Some(n) && NoneAt(st, n, x)
      requires keep in st.linkOf && LinkOk(st, st.linkOf[keep])
      requires HasSlot(st, n) || st.halves[Other(st, keep)].at == Some(n)
      modifies `st, st.halves.Keys, st.flags.Keys`dirnFlag, st.slots.Keys`intf
      ensures Linked() && LooseOnly(st, {}) && st.db == old(st).db && st.slots.Keys == old(st).slots.Keys
      ensures Joins(st, link, old(st).halves[keep].at.value, old(st).halves[keep].ifindex, n, x)
      ensures Keeps(old(st), st, {Other(old(st), keep)}) && link == old(st).linkOf[keep]
        && IsEnd(st, link, Other(old(st), keep))
    {
      hide AllAgree, CanPlugIn, FirstEmpty, HasSlot, IsEnd, Joins, Keeps, LinkOk, LooseOnly, Loosened, NoneAt, Other,
        PlugIn, Sound;
      ghost var s := st;
      assert Sound(s);
      Reattachable(s, keep, n, x);
      link := LinkOf(keep);
      var o := LinkGetOtherInterface(keep);
      LoosenedOk(s, o);
      Loosen(o, x);
      ghost var t := st;
      assert Ready(t, o, n);
      assert t.flags.Keys == s.flags.Keys && t.slots.Keys == s.slots.Keys;
      var k := PlugInInterface(n, o);
      Reattached(s, keep, n, x, k);
      assert s.halves[keep].at.Some?;
    }

    /** A new link, with its first end in place. */
    method NewLinkFrom(n: TedNode, x: nat, m: TedNode, y: nat) returns (link: TedLink, k: nat)
      requires Linked() && Joinable(st, n, x, m, y) && n in st.slots
      modifies `st, st.flags.Keys`dirnFlag, st.slots.Keys`intf
      ensures Linked() && fresh(link) && fresh(link.intf1) && fresh(link.intf2) && link.intf1 != link.intf2
      ensures link !in old(st).flags && link.intf1 !in old(st).halves && link.intf2 !in old(st).halves
      ensures var t := AddLink(old(st), link, link.intf1, link.intf2, x, y);
        CanPlugIn(t, link.intf1, n, k) && st == PlugIn(t, link.intf1, n, k)
      ensures st.flags.Keys == old(st).flags.Keys + {link} && st.slots.Keys == old(st).slots.Keys
    {
      hide Joinable, LinkOk, Linked, Other, AddLink, PlugIn, CanPlugIn;
      ghost var s := st;
      link := CreateLink(x, y);
      AddLinkShape(s, link, link.intf1, link.intf2, x, y);
      NewLinkFirst(s, link, link.intf1, link.intf2, n, x, m, y);
      assert Ready(st, link.intf1, n);
      ghost var t := st;
      k := PlugInInterface(n, link.intf1);
      PlugInShape(t, link.intf1, n, k);
    }

    /** The last case: a new link between the two. */
    method JoinByNewLink(n: TedNode, x: nat, m: TedNode, y: nat) returns (link: TedLink)
      requires Linked() && LooseOnly(st, {}) && Joinable(st, n, x, m, y)
      modifies `st, st.flags.Keys`dirnFlag, st.slots.Keys`intf
      ensures Linked() && LooseOnly(st, {}) && st.db == old(st).db && st.slots.Keys == old(st).slots.Keys
      ensures fresh(link) && fresh(link.intf1) && fresh(link.intf2)
      ensures Joins(st, link, n, x, m, y) && Keeps(old(st), st, {link.intf1, link.intf2})
      ensures IsEnd(st, link, link.intf1) && IsEnd(st, link, link.intf2)
    {
      hide CanPlugIn, LooseOnly, NoneAt, PlugIn, Sound;
      ghost var s := st;
      assert n in s.slots && m in s.slots;
      var k;
      link, k := NewLinkFrom(n, x, m, y);
      NewLinkSecond(s, link, link.intf1, link.intf2, n, x, m, y, k);
      assert Ready(st, link.intf2, m);
      var h := PlugInInterface(m, link.intf2);
      NewLinkHalves(s, link, link.intf1, link.intf2, n, x, m, y, k, h);
      NewLinkKeeps(s, link, link.intf1, link.intf2, n, x, m, y, k, h);
    }

    method FreeIfLoose(l: TedLink)
      requires Linked() && l in st.flags && LinkOk(st, l)
      modifies `st
      ensures Linked() && st == FreedIfLoose(old(st), l)
    {
      var dettached := IsLinkDettached(l);
      if dettached {
        FreeLink(l);
      }
    }

    /** The first half of the case in which both interfaces are there, on different links. */
    method Separate(a: TedIntf, b: TedIntf)
      requires Linked() && LooseOnly(st, {}) && a in st.halves && b in st.halves
      requires a in st.linkOf && b in st.linkOf && st.linkOf[a] != st.linkOf[b]
      modifies `st, st.halves.Keys, st.flags.Keys`dirnFlag, st.slots.Keys`intf
      ensures Linked() && Sound(old(st)) && st == Separated(old(st), a, b)
    {
      hide AllAgree, Attached, FreedIfLoose, Keeps, LinkOk, LooseOnly, OutOk, PlugOut, Sound;
      ghost var s := st;
      assert Sound(s);
      LoosenedOk(s, a);
      var linkA := LinkOf(a);
      var linkB := LinkOf(b);
      var _ := PlugOutInterface(a);
      ghost var s1 := st;
      assert s1 == Loosened(s, a);
      LoosenedOk(s1, b);
      var _ := PlugOutInterface(b);
      ghost var s2 := st;
      assert s2 == Loosened(s1, b);
      PluggedIn(s2, a);
      PluggedIn(s2, b);
      FreedIfLooseOk(s2, linkA, {});
      FreeIfLoose(linkA);
      assert LinkOk(st, linkB);
      FreeIfLoose(linkB);
    }

    /** The node with this router id, made if it is not there. */
    method FindOrCreate(id: RouterId, isFake: bool) returns (n: TedNode, isNew: bool)
      requires Linked() && id.bits != 0 && LooseOnly(st, {})
      modifies this
      ensures Linked() && LooseOnly(st, {}) && Keeps(old(st), st, {}) && id in st.db && st.db[id] == n && n in st.slots
      ensures isNew <==> id !in old(st).db
      ensures !isNew ==> st == old(st)
      ensures isNew ==> fresh(n) && n.isFake == isFake && st == AddNode(old(st), n, id)
    {
      var found := LookupNode(id);
      if found != null {
        assert Keeps(st, st, {});
        return found, false;
      }
      isNew := true;
      n := CreateAndInsertNode(id, isFake);
      AddNodeEffect(old(st), n, id, {});
      assert id in st.db && st.db[id] == n && n in st.slots;
    }

    lemma NodeSays(s: State, n: TedNode)
      requires AllAgree(s) && n in s.slots
      ensures n in s.ids && n.isInstalled && n.rtrId == s.ids[n] && SlotsAgree(n.intf, s.slots[n])
    {
      assert NodeAgrees(s, n);
    }

    lemma NodeStillAgrees(s: State, n: TedNode)
      requires n in s.slots && n in s.ids && n.isInstalled && n.rtrId == s.ids[n] && SlotsAgree(n.intf, s.slots[n])
      ensures NodeAgrees(s, n)
    {
    }

    /** is_fake is cleared. */
    method MarkReal(n: TedNode)
      requires Linked() && n in st.slots
      modifies n`isFake
      ensures Linked() && !n.isFake
    {
      assert Sound(st) && AllAgree(st) && teddb == st.db;
      NodeSays(st, n);
      assert AgreeBut(st, null, null, n);
      n.isFake := false;
      assert AgreeBut(st, null, null, n);
      NodeStillAgrees(st, n);
      AllAgreeNow(st, null, null, n);
    }

    lemma NodesDiffer(s: State, d: RouterId, e: RouterId)
      requires Sound(s) && d in s.db && e in s.db && d != e
      ensures s.db[d] != s.db[e]
    {
    }

    lemma AtSays(s: State, i: TedIntf, n: TedNode, x: nat, m: TedNode)
      requires Sound(s) && At(s, i, n, x) && n != m
      ensures i in s.halves && Attached(s, i) && s.halves[i].at == Some(n) && s.halves[i].ifindex == x
        && s.halves[i].at != Some(m)
      ensures i in s.linkOf && s.linkOf[i] in s.flags
    {
      assert HalfOk(s, i);
    }

    /** Both interfaces are there, on different links: they leave them, and the two nodes get a new one. */
    method JoinAfresh(a: TedIntf, b: TedIntf, n: TedNode, x: nat, m: TedNode, y: nat) returns (link: TedLink)
      requires Linked() && LooseOnly(st, {}) && At(st, a, n, x) && At(st, b, m, y) && n != m
      requires a in st.halves && b in st.halves && a in st.linkOf && b in st.linkOf && st.linkOf[a] != st.linkOf[b]
      modifies `st, st.halves.Keys, st.flags.Keys`dirnFlag, st.slots.Keys`intf
      ensures Linked() && LooseOnly(st, {}) && st.db == old(st).db
      ensures Joins(st, link, n, x, m, y) && RestKept(old(st), st, link, n, x, m, y)
    {
      hide AllAgree, Keeps, RestKept, Sound;
      ghost var s := st;
      assert Sound(s);
      SeparatedOk(s, a, b);
      SeparatedJoinable(s, a, b, n, x, m, y);
      Separate(a, b);
      ghost var t := st;
      link := JoinByNewLink(n, x, m, y);
      RestKeptSeparated(s, t, st, link, a, b, n, x, m, y, {link.intf1, link.intf2});
    }

    /** The case in which both interfaces are there. */
    method ResurrectBoth(a: TedIntf, b: TedIntf, n: TedNode, x: nat, m: TedNode, y: nat) returns (link: TedLink)
      requires Linked() && LooseOnly(st, {}) && At(st, a, n, x) && At(st, b, m, y) && n != m
      requires a in st.halves && b in st.halves
      modifies `st, st.halves.Keys, st.flags.Keys`dirnFlag, st.slots.Keys`intf
      ensures Linked() && LooseOnly(st, {}) && st.db == old(st).db
      ensures Joins(st, link, n, x, m, y) && RestKept(old(st), st, link, n, x, m, y)
    {
      hide Sound;
      ghost var s := st;
      assert Sound(s);
      AtSays(s, a, n, x, m);
      AtSays(s, b, m, y, n);
      var linkA := LinkOf(a);
      var linkB := LinkOf(b);
      if linkA == linkB {
        SameLinkJoins(s, a, b, n, x, m, y);
        assert RestKept(s, s, linkA, n, x, m, y);
        return linkA;
      }
      link := JoinAfresh(a, b, n, x, m, y);
    }

    /** The cases in which one interface is there and the other is not. */
    method ResurrectHalf(keep: TedIntf, e: RouterId, m: TedNode, y: nat, d: RouterId, n: TedNode, x: nat)
      returns (link: TedLink)
      requires Linked() && LooseOnly(st, {}) && d != e && d in st.db && e in st.db && n == st.db[d] && m == st.db[e]
      requires keep in st.halves && At(st, keep, m, y) && NoneAt(st, n, x) && RoomFor(st, d, x, e, y)
      modifies `st, st.halves.Keys, st.flags.Keys`dirnFlag, st.slots.Keys`intf
      ensures Linked() && LooseOnly(st, {}) && st.db == old(st).db
      ensures Joins(st, link, n, x, m, y) && RestKept(old(st), st, link, n, x, m, y)
    {
      ghost var s := st;
      assert Sound(s);
      RoomForFarEnd(s, keep, d, x, e, y);
      AtSays(s, keep, m, y, n);
      link := Reattach(keep, n, x);
      JoinsSwap(st, link, m, y, n, x);
      RestKeptEnds(s, st, link, n, x, m, y, {Other(s, keep)});
    }

    /** The cases of ted_resurrect_link once both nodes are there. */
    method Resurrect(fromId: RouterId, fromIfindex: nat, toId: RouterId, toIfindex: nat, fromNode: TedNode,
      toNode: TedNode)
        returns (link: TedLink)
      requires Linked() && LooseOnly(st, {}) && fromId != toId && fromId in st.db && toId in st.db
      requires fromNode == st.db[fromId] && toNode == st.db[toId] && fromNode in st.slots && toNode in st.slots
      requires RoomFor(st, fromId, fromIfindex, toId, toIfindex) && RoomFor(st, toId, toIfindex, fromId, fromIfindex)
      modifies `st, st.halves.Keys, st.flags.Keys`dirnFlag, st.slots.Keys`intf
      ensures Linked() && LooseOnly(st, {}) && st.db == old(st).db
      ensures Joins(st, link, fromNode, fromIfindex, toNode, toIfindex)
      ensures RestKept(old(st), st, link, fromNode, fromIfindex, toNode, toIfindex)
    {
      hide AllAgree, IsEnd, Joinable, Joins, Keeps, LooseOnly, RestKept, RoomFor, Sound;
      ghost var s := st;
      assert Sound(s);
      var fromIntf := NodeLookupIntf(fromNode, fromIfindex);
      var toIntf := NodeLookupIntf(toNode, toIfindex);
      assert fromIntf != null ==> At(s, fromIntf, fromNode, fromIfindex);
      assert toIntf != null ==> At(s, toIntf, toNode, toIfindex);
      assert fromIntf == null ==> NoneAt(s, fromNode, fromIfindex);
      assert toIntf == null ==> NoneAt(s, toNode, toIfindex);
      NodesDiffer(s, fromId, toId);
      if fromIntf == null && toIntf != null {
        link := ResurrectHalf(toIntf, toId, toNode, toIfindex, fromId, fromNode, fromIfindex);
      } else if fromIntf != null && toIntf == null {
        link := ResurrectHalf(fromIntf, fromId, fromNode, fromIfindex, toId, toNode, toIfindex);
        JoinsSwap(st, link, toNode, toIfindex, fromNode, fromIfindex);
        RestKeptSwap(s, st, link, toNode, toIfindex, fromNode, fromIfindex);
      } else if fromIntf != null && toIntf != null {
        link := ResurrectBoth(fromIntf, toIntf, fromNode, fromIfindex, toNode, toIfindex);
      } else {
        RoomForNew(s, fromId, fromIfindex, toId, toIfindex);
        link := JoinByNewLink(fromNode, fromIfindex, toNode, toIfindex);
        RestKeptEnds(s, st, link, fromNode, fromIfindex, toNode, toIfindex, {link.intf1, link.intf2});
      }
    }

    /** Making the node takes room from none. */
    method FindOrCreateKeepsRoom(id: RouterId, isFake: bool, ghost d: RouterId, ghost x: nat, ghost e: RouterId,
      ghost y: nat)
        returns (n: TedNode)
      requires Linked() && id.bits != 0 && LooseOnly(st, {}) && RoomFor(st, d, x, e, y) && RoomFor(st, e, y, d, x)
      modifies this
      ensures Linked() && LooseOnly(st, {}) && Keeps(old(st), st, {}) && id in st.db && st.db[id] == n && n in st.slots
      ensures n in old(st).slots || fresh(n)
      ensures st.halves == old(st).halves && st.flags == old(st).flags && st.slots.Keys == old(st).slots.Keys + {n}
      ensures RoomFor(st, d, x, e, y) && RoomFor(st, e, y, d, x)
    {
      hide Sound;
      ghost var s := st;
      assert Sound(s);
      var isNew;
      n, isNew := FindOrCreate(id, isFake);
      if isNew {
        AddNodeRoom(s, n, id, d, x, e, y);
        AddNodeRoom(s, n, id, e, y, d, x);
      }
    }

    /** The first part of ted_resurrect_link: both nodes are there, the first not as a fake one. */
    method EnsureNodes(fromId: RouterId, fromIfindex: nat, toId: RouterId, toIfindex: nat)
      returns (fromNode: TedNode, toNode: TedNode)
      requires Linked() && LooseOnly(st, {}) && fromId.bits != 0 && toId.bits != 0
      requires RoomFor(st, fromId, fromIfindex, toId, toIfindex) && RoomFor(st, toId, toIfindex, fromId, fromIfindex)
      modifies this, st.slots.Keys`isFake
      ensures Linked() && LooseOnly(st, {}) && Keeps(old(st), st, {})
      ensures fromId in st.db && toId in st.db && fromNode == st.db[fromId] && toNode == st.db[toId]
      ensures fromNode in st.slots && toNode in st.slots && !fromNode.isFake
      ensures fromNode in old(st).slots || fresh(fromNode)
      ensures toNode in old(st).slots || fresh(toNode)
      ensures st.halves == old(st).halves && st.flags == old(st).flags
        && forall m | m in st.slots :: m in old(st).slots || m == fromNode || m == toNode
      ensures RoomFor(st, fromId, fromIfindex, toId, toIfindex) && RoomFor(st, toId, toIfindex, fromId, fromIfindex)
    {
      hide Linked;
      ghost var s := st;
      fromNode := FindOrCreateKeepsRoom(fromId, false, fromId, fromIfindex, toId, toIfindex);
      ghost var t := st;
      MarkReal(fromNode);
      toNode := FindOrCreateKeepsRoom(toId, true, fromId, fromIfindex, toId, toIfindex);
      ghost var none: set<TedIntf> := {};
      KeepsTwice(s, t, st, none, none);
      assert none + none == none;
      assert fromId in st.db && st.db[fromId] == fromNode;
    }

    /** ted_resurrect_link.  Whatever was there before, afterwards one link with both ends attached joins
        exactly the two interfaces asked for; indexes stay unique on every node, and everything else that
        was attached is as it was, except what had to give way, which is cleanly unplugged. */
    method ResurrectLink(fromId: RouterId, fromIfindex: nat, toId: RouterId, toIfindex: nat) returns (link: TedLink)
      requires Valid() && fromId.bits != 0 && toId.bits != 0 && fromId != toId
      requires RoomFor(st, fromId, fromIfindex, toId, toIfindex) && RoomFor(st, toId, toIfindex, fromId, fromIfindex)
      modifies this, st.halves.Keys, st.flags.Keys`dirnFlag, st.slots.Keys`intf, st.slots.Keys`isFake
      ensures Valid() && fromId in st.db && toId in st.db && !st.db[fromId].isFake
      ensures Joins(st, link, st.db[fromId], fromIfindex, st.db[toId], toIfindex)
      ensures LinkOk(st, link) && Attached(st, st.first[link]) && Attached(st, st.second[link])
      ensures RestKept(old(st), st, link, st.db[fromId], fromIfindex, st.db[toId], toIfindex)
    {
      hide Keeps, Linked, RestKept, RoomFor;
      ghost var s := st;
      assert Linked() && LooseOnly(s, {});
      var fromNode, toNode := EnsureNodes(fromId, fromIfindex, toId, toIfindex);
      ghost var u := st;
      link := Resurrect(fromId, fromIfindex, toId, toIfindex, fromNode, toNode);
      RestKeptAfter(s, u, st, link, fromNode, fromIfindex, toNode, toIfindex);
      JoinsBothWays(st, link, fromNode, fromIfindex, toNode, toIfindex);
    }
  }
}
