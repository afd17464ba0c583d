/** A VLAN-aware switch, server/Layer2/l2switch.c, the ingress rules of layer2.h and the VLAN tests of
    server/net.c (ingress and egress rules: IEEE 802.1Q-2018, clauses 8.6.2 and 8.6.4). */
module L2Switch {
  import opened Options
  import opened EthernetFrames
  import opened Lists

  type Mac = seq<Byte>

  const BROADCAST: Mac := [0xff, 0xff, 0xff, 0xff, 0xff, 0xff]

  /** How an interface operates.  An access port is configured with one VLAN, 0 for none; a trunk has
      MAX_VLAN_MEMBERSHIP places, 0 in those not in use. */
  datatype Mode =
    | Routed(mac: Mac)
    | Access(vlan: nat)
    | Trunk(vlans: seq<nat>)
    | NoMode

  const MAX_VLAN_MEMBERSHIP: nat := 10

  datatype L2Mode = ACCESS | TRUNK | UNKNOWN

  function DstMac(f: Frame): Mac
    requires 12 <= |f|
  {
    f[..6]
  }

  function SrcMac(f: Frame): Mac
    requires 12 <= |f|
  {
    f[6..12]
  }

  /** The last place in use, or the first of all if none is. */
  ghost predicate LastInUse(s: seq<nat>, p: nat)
  {
    p < |s| && (p > 0 ==> s[p] != 0) && forall i | p < i < |s| :: s[i] == 0
  }

  ghost predicate FirstFree(s: seq<nat>, p: nat)
  {
    p < |s| && s[p] == 0 && forall i | 0 <= i < p :: s[i] != 0
  }

  /** The port belongs to VLAN v; VLAN 0 is that of the ports that know of none. */
  predicate Carries(mode: Mode, v: nat)
  {
    match mode
    case Access(vlan) => vlan == v
    case Trunk(vlans) => v != 0 && v in vlans
    case _ => false
  }

  /** An interface as configured; vlans is intf_nw_props.vlans. */
  class Interface {
    var l3Mode: bool
    var l2Mode: L2Mode
    const vlans: array<nat>

    ghost predicate ConfigOk()
      reads this
    {
      vlans.Length == MAX_VLAN_MEMBERSHIP
    }

    constructor ()
      ensures fresh(vlans) && ConfigOk() && !l3Mode && l2Mode == UNKNOWN
      ensures forall i | 0 <= i < vlans.Length :: vlans[i] == 0
    {
      l3Mode, l2Mode := false, UNKNOWN;
      vlans := new nat[MAX_VLAN_MEMBERSHIP](_ => 0);
    }

    /** What the switching code makes of it. */
    ghost function Operates(): Mode
      requires ConfigOk() && !l3Mode
      reads this, vlans
    {
      match l2Mode
      case ACCESS => Access(vlans[0])
      case TRUNK => Trunk(vlans[..])
      case UNKNOWN => NoMode
    }

    /** interface_set_l2_mode.  Only the change from trunk to access of an interface without an IP address clears
        the VLANs; one that has an address gives it up and keeps them. */
    method SetL2Mode(mode: L2Mode)
      requires ConfigOk() && mode != UNKNOWN
      modifies this, vlans
      ensures ConfigOk() && l2Mode == mode && !l3Mode
      ensures !old(l3Mode) && old(l2Mode) == TRUNK && mode == ACCESS ==>
        forall i | 0 <= i < vlans.Length :: vlans[i] == 0
      ensures !(!old(l3Mode) && old(l2Mode) == TRUNK && mode == ACCESS) ==> vlans[..] == old(vlans[..])
    {
      if l3Mode {
        l3Mode, l2Mode := false, mode;
        return;
      }
      if l2Mode == UNKNOWN {
        l2Mode := mode;
        return;
      }
      if l2Mode == mode {
        return;
      }
      if l2Mode == ACCESS {
        l2Mode := mode;
        return;
      }
      l2Mode := mode;
      var i := 0;
      while i < vlans.Length
        invariant 0 <= i <= vlans.Length && l2Mode == mode && !l3Mode && forall j | 0 <= j < i :: vlans[j] == 0
      {
        vlans[i] := 0;
        i := i + 1;
      }
    }

    /** The mode part of node_set_intf_ip_address. */
    method SetIpAddress()
      modifies `l3Mode
      ensures l3Mode
    {
      l3Mode := true;
    }

    /** interface_set_vlan: on an access interface the last VLAN in use is overwritten, on a trunk the VLAN goes to
        the first place not in use, if there is one and it is not there yet. */
    method SetVlan(vlanId: nat)
      requires ConfigOk()
      modifies vlans
      ensures ConfigOk()
      ensures l3Mode || l2Mode == UNKNOWN ==> vlans[..] == old(vlans[..])
      ensures !l3Mode && l2Mode == ACCESS ==> exists p: nat ::
        LastInUse(old(vlans[..]), p) && vlans[..] == old(vlans[..])[p := vlanId]
      ensures !l3Mode && l2Mode == ACCESS ==>
        (Operates() == Access(vlanId) <==>
          old(vlans[0]) == vlanId || forall i | 0 < i < vlans.Length :: old(vlans[i]) == 0)
      ensures !l3Mode && l2Mode == TRUNK ==> forall v ::
        Carries(Operates(), v) <==> old(Carries(Operates(), v)) || (v == vlanId && v != 0 && 0 in old(vlans[..]))
      ensures !l3Mode && l2Mode == TRUNK && vlanId != 0 ==>
        if vlanId in old(vlans[..]) || 0 !in old(vlans[..]) then vlans[..] == old(vlans[..])
        else exists p: nat :: FirstFree(old(vlans[..]), p) && vlans[..] == old(vlans[..])[p := vlanId]
    {
      if l3Mode || l2Mode == UNKNOWN {
        return;
      }
      ghost var before := vlans[..];
      var place, i := -1, 0;
      if l2Mode == ACCESS {
        while i < vlans.Length
          invariant 0 <= i <= vlans.Length && -1 <= place < i && vlans[..] == before
          invariant forall j | place < j < i :: vlans[j] == 0
          invariant 0 <= place ==> vlans[place] != 0
        {
          if vlans[i] != 0 {
            place := i;
          }
          i := i + 1;
        }
        var p := if place == -1 then 0 else place;
        assert LastInUse(before, p);
        vlans[p] := vlanId;
        assert vlans[..] == before[p := vlanId];
        return;
      }
      while i < vlans.Length
        invariant 0 <= i <= vlans.Length && -1 <= place < i && vlans[..] == before
        invariant place == -1 ==> forall j | 0 <= j < i :: vlans[j] != 0 && vlans[j] != vlanId
        invariant 0 <= place ==> FirstFree(before, place) && forall j | 0 <= j < i && j != place :: vlans[j] != vlanId
      {
        if place == -1 && vlans[i] == 0 {
          place := i;
        } else if vlans[i] == vlanId {
          assert vlanId in before && (vlanId == 0 ==> 0 in before);
          return;
        }
        i := i + 1;
      }
      if place != -1 {
        vlans[place] := vlanId;
        assert vlans[..] == before[place := vlanId];
        forall v ensures v in vlans[..] && v != 0 <==> v != 0 && (v in before || v == vlanId) {
          if v in before && v != 0 {
            var j :| 0 <= j < |before| && before[j] == v;
            assert vlans[..][j] == v;
          }
          assert vlans[..][place] == vlanId;
        }
      }
    }
  }

  /** How the wrong place is overwritten: a trunk with two VLANs that becomes an access interface by way of an IP
      address keeps both, and goes on in the first whatever VLAN is set. */
  method StaleVlan(vlanId: nat) returns (intf: Interface)
    ensures fresh(intf) && fresh(intf.vlans) && intf.ConfigOk() && !intf.l3Mode && intf.Operates() == Access(10)
  {
    intf := new Interface();
    intf.SetL2Mode(TRUNK);
    assert intf.vlans[..][0] == 0 && 10 !in intf.vlans[..];
    intf.SetVlan(10);
    assert intf.vlans[..][0] == 10 && intf.vlans[..][1] == 0 && 20 !in intf.vlans[..];
    intf.SetVlan(20);
    assert intf.vlans[..][0] == 10 && intf.vlans[..][1] == 20;
    intf.SetIpAddress();
    intf.SetL2Mode(ACCESS);
    intf.SetVlan(vlanId);
  }

  // ---- ingress ----

  /** What a port does with a frame that arrives: reject it, or accept it and tag it with this id, 0 for not at all. */
  datatype Ingress = Rejected | Accepted(vlanToTag: nat)

  /** l2_frame_recv_qualify_on_interface, case by case. */
  function Qualify(mode: Mode, f: Frame): Ingress
    requires ETH_SIZE <= |f|
  {
    match mode
    case NoMode => Rejected
    case Access(vlan) =>
      if vlan == 0 then (if IsTagged(f) then Rejected else Accepted(0))
      else if !IsTagged(f) then Accepted(vlan)
      else if Vid(f) == vlan then Accepted(0) else Rejected
    case Trunk(vlans) => if IsTagged(f) && Vid(f) in vlans then Accepted(0) else Rejected
    case Routed(mac) =>
      if !IsTagged(f) && (mac == DstMac(f) || DstMac(f) == BROADCAST) then Accepted(0) else Rejected
  }

  /** The frame inside the switch: layer2_frame_recv tags what has to be tagged. */
  function Inside(f: Frame, vlanToTag: nat): Frame
    requires ETH_SIZE <= |f|
  {
    if vlanToTag == 0 then f else Tag(f, vlanToTag)
  }

  // ---- egress ----

  /** l2_switch_send_pkt_out: the frame as it leaves on a port, if it does. */
  function SendOut(mode: Mode, f: Frame): Option<Frame>
    requires WellFormed(f)
  {
    match mode
    case Access(vlan) =>
      if !IsTagged(f) then (if vlan == 0 then Some(f) else None)
      else if Vid(f) == vlan then Some(Untag(f)) else None
    case Trunk(vlans) => if IsTagged(f) && Vid(f) != 0 && Vid(f) in vlans then Some(f) else None
    case _ => None
  }

  /** A tagged frame leaves exactly on the ports of its VLAN: tagged on trunks, untagged on access ports. */
  lemma LeavesOnItsVlan(mode: Mode, f: Frame)
    requires WellFormed(f) && IsTagged(f) && Vid(f) != 0
    ensures SendOut(mode, f).Some? <==> Carries(mode, Vid(f))
    ensures SendOut(mode, f).Some? ==> SendOut(mode, f).value == if mode.Trunk? then f else Untag(f)
  {
  }

  // ---- the switch ----

  datatype MacEntry = MacEntry(mac: Mac, oif: nat)

  /** A frame on its way out of a port. */
  datatype Sent = Sent(port: nat, frame: Frame)

  /** What strncmp compares of an address: the bytes up to the first zero. */
  function Key(mac: Mac): Mac
  {
    if mac == [] || mac[0] == 0 then [] else [mac[0]] + Key(mac[1..])
  }

  predicate DifferFirst(a: Mac, b: Mac, i: int)
  {
    0 <= i < |a| && |a| == |b| && a[i] != b[i] && forall j | 0 <= j < i :: a[j] == b[j] && a[j] != 0
  }

  /** Two addresses are kept apart exactly when they differ at or before the first zero byte. */
  lemma {:induction false} KeptApart(a: Mac, b: Mac)
    requires |a| == |b|
    ensures Key(a) != Key(b) <==> exists i :: DifferFirst(a, b, i)
  {
    if a != [] {
      KeptApart(a[1..], b[1..]);
      if a[0] != b[0] {
        assert DifferFirst(a, b, 0);
        assert (a[0] != 0 ==> Key(a)[0] == a[0]) && (b[0] != 0 ==> Key(b)[0] == b[0]);
      } else if a[0] != 0 {
        assert Key(a)[1..] == Key(a[1..]) && Key(b)[1..] == Key(b[1..]);
        if i :| DifferFirst(a[1..], b[1..], i) {
          assert DifferFirst(a, b, i + 1);
        }
        if i :| DifferFirst(a, b, i) {
          assert DifferFirst(a[1..], b[1..], i - 1);
        }
      }
    }
  }

  ghost function Flooded(ports: seq<Mode>, except: nat, f: Frame, n: nat): seq<Sent>
    requires n <= |ports| && WellFormed(f)
  {
    if n == 0 then [] else
      var before := Flooded(ports, except, f, n - 1);
      if n - 1 != except && SendOut(ports[n - 1], f).Some?
      then before + [Sent(n - 1, SendOut(ports[n - 1], f).value)]
      else before
  }

  /** Flooding sends on exactly the ports, other than the one the frame came in on, that let it out. */
  lemma {:induction false} FloodedExactly(ports: seq<Mode>, except: nat, f: Frame, n: nat)
    requires n <= |ports| && WellFormed(f)
    ensures forall k | 0 <= k < |Flooded(ports, except, f, n)| :: var s := Flooded(ports, except, f, n)[k];
      s.port < n && s.port != except && SendOut(ports[s.port], f) == Some(s.frame)
    ensures forall p | 0 <= p < n && p != except && SendOut(ports[p], f).Some? ::
      Sent(p, SendOut(ports[p], f).value) in Flooded(ports, except, f, n)
    ensures forall j, k | 0 <= j < k < |Flooded(ports, except, f, n)| ::
      Flooded(ports, except, f, n)[j].port < Flooded(ports, except, f, n)[k].port
  {
    if n > 0 {
      FloodedExactly(ports, except, f, n - 1);
      var before, all := Flooded(ports, except, f, n - 1), Flooded(ports, except, f, n);
      if n - 1 != except && SendOut(ports[n - 1], f).Some? {
        assert all[|before|] == Sent(n - 1, SendOut(ports[n - 1], f).value);
        assert all[..|before|] == before;
      } else {
        assert all == before;
      }
    }
  }

  // ---- the MAC table ----

  /** No two entries are for the same address, and all are for ports that switch frames. */
  ghost predicate TableOk(es: seq<MacEntry>, ports: seq<Mode>)
  {
    && (forall i, j | 0 <= i < j < |es| :: Key(es[i].mac) != Key(es[j].mac))
    && (forall i | 0 <= i < |es| :: es[i].oif < |ports| && !ports[es[i].oif].Routed?)
  }

  /** The port of the first entry for an address. */
  function Find(es: seq<MacEntry>, mac: Mac): Option<nat>
  {
    if es == [] then None
    else if Key(es[0].mac) == Key(mac) then Some(es[0].oif)
    else Find(es[1..], mac)
  }

  lemma {:induction false} FindAt(es: seq<MacEntry>, mac: Mac, i: nat)
    requires i <= |es| && forall j | 0 <= j < i :: Key(es[j].mac) != Key(mac)
    requires i < |es| ==> Key(es[i].mac) == Key(mac)
    ensures Find(es, mac) == if i < |es| then Some(es[i].oif) else None
  {
    if i > 0 {
      FindAt(es[1..], mac, i - 1);
    }
  }

  lemma {:induction false} FindWithout(es: seq<MacEntry>, i: nat, mac: Mac)
    requires i < |es| && Key(es[i].mac) != Key(mac)
    ensures Find(Cut(es, i), mac) == Find(es, mac)
  {
    if i == 0 {
      assert Cut(es, i) == es[1..];
    } else {
      FindWithout(es[1..], i - 1, mac);
      assert Cut(es, i)[1..] == Cut(es[1..], i - 1);
    }
  }

  lemma TableWithout(es: seq<MacEntry>, i: nat, ports: seq<Mode>)
    requires TableOk(es, ports) && i < |es|
    ensures TableOk(Cut(es, i), ports)
    ensures forall j | 0 <= j < |es| - 1 :: Key(Cut(es, i)[j].mac) != Key(es[i].mac)
  {
  }

  lemma TableWith(es: seq<MacEntry>, e: MacEntry, ports: seq<Mode>)
    requires TableOk(es, ports) && e.oif < |ports| && !ports[e.oif].Routed?
    requires forall j | 0 <= j < |es| :: Key(es[j].mac) != Key(e.mac)
    ensures TableOk([e] + es, ports)
  {
  }

  lemma FindWith(es: seq<MacEntry>, e: MacEntry)
    ensures Find([e] + es, e.mac) == Some(e.oif)
    ensures forall m: Mac | Key(m) != Key(e.mac) :: Find([e] + es, m) == Find(es, m)
  {
  }

  /** An accepted frame teaches the port of its source, and nothing about other addresses. */
  ghost predicate Learns(ports: seq<Mode>, es: seq<MacEntry>, es': seq<MacEntry>, port: nat, f: Frame)
    requires port < |ports| && ETH_SIZE <= |f|
  {
    if Qualify(ports[port], f) == Rejected then es' == es
    else
      && Find(es', SrcMac(f)) == Some(port)
      && forall m: Mac | Key(m) != Key(SrcMac(f)) :: Find(es', m) == Find(es, m)
  }

  lemma InsideWellFormed(mode: Mode, f: Frame)
    requires WellFormed(f) && Qualify(mode, f).Accepted?
    ensures WellFormed(Inside(f, Qualify(mode, f).vlanToTag))
    ensures Plain(Inside(f, Qualify(mode, f).vlanToTag)) == Plain(f)
  {
  }

  lemma {:induction false} FindInTable(es: seq<MacEntry>, mac: Mac, ports: seq<Mode>)
    requires TableOk(es, ports) && Find(es, mac).Some?
    ensures Find(es, mac).value < |ports| && !ports[Find(es, mac).value].Routed?
  {
    if Key(es[0].mac) != Key(mac) {
      FindInTable(es[1..], mac, ports);
    }
  }

  /** Where a frame inside the switch goes: to all ports if its destination is everybody or not known,
      else to the port learned for it. */
  ghost function Forwarded(ports: seq<Mode>, es: seq<MacEntry>, port: nat, f: Frame): seq<Sent>
    requires WellFormed(f) && TableOk(es, ports)
  {
    if DstMac(f) == BROADCAST || Find(es, DstMac(f)) == None then Flooded(ports, port, f, |ports|)
    else
      FindInTable(es, DstMac(f), ports);
      var oif := Find(es, DstMac(f)).value;
      if SendOut(ports[oif], f).Some? then [Sent(oif, SendOut(ports[oif], f).value)] else []
  }

  /** What a switch sends when frame f arrives on a port, its table being es' after learning. */
  ghost function Received(ports: seq<Mode>, es': seq<MacEntry>, port: nat, f: Frame): seq<Sent>
    requires WellFormed(f) && TableOk(es', ports) && port < |ports| && !ports[port].Routed?
  {
    match Qualify(ports[port], f)
    case Rejected => []
    case Accepted(vlanToTag) =>
      InsideWellFormed(ports[port], f);
      Forwarded(ports, es', port, Inside(f, vlanToTag))
  }

  // ---- delivery ----

  /** Ids of twelve bits. */
  predicate VlansOk(m: Mode)
  {
    match m
    case Access(vlan) => vlan < 4096
    case Trunk(vlans) => forall i | 0 <= i < |vlans| :: vlans[i] < 4096
    case _ => true
  }

  /** Frame f is one of VLAN v to a port where it arrives: untagged or tagged with v on an access port of v,
      tagged with v on a trunk that carries v, and untagged on an access port without VLAN if v is 0. */
  predicate EntersOn(mode: Mode, f: Frame, v: nat)
    requires 16 <= |f|
  {
    if v == 0 then mode == Access(0) && Word(f, 12) != 0x8100
    else if mode == Access(v) then Word(f, 12) == 0x8100 ==> Word(f, 14) / 16 == v < 2048
    else mode.Trunk? && v in mode.vlans && Word(f, 12) == 0x8100 && Word(f, 14) / 16 == v < 2048
  }

  /** What leaves a port of VLAN v of the frame that has come in as f: in VLAN 0 the frame as it came; on a trunk
      the frame with a tag of v, on an access port without, and with its checksum cleared if a tag was put in
      or taken out on the way. */
  function Leaves(mode: Mode, f: Frame, v: nat): Frame
    requires VLAN_ETH_SIZE <= |f| || (ETH_SIZE <= |f| && Word(f, 12) != 0x8100)
  {
    var tagged := Word(f, 12) == 0x8100;
    if v == 0 || (mode.Trunk? && tagged) then f else
      f[..12] + (if mode.Trunk? then [0x00, 0x81, (v % 16 * 16) as Byte, (v / 16 % 256) as Byte] else [])
      + f[if tagged then 16 else 12..|f| - 4] + [0, 0, 0, 0]
  }

  /** A switching port lets in exactly the frames of one of its VLANs, and those tagged with id 0 on a trunk that has
      a place not in use. */
  predicate LetIn(mode: Mode, f: Frame)
    requires 16 <= |f|
  {
    || EntersOn(mode, f, if mode.Access? then mode.vlan else Word(f, 14) / 16)
    || (mode.Trunk? && 0 in mode.vlans && Word(f, 12) == 0x8100 && Word(f, 14) / 16 == 0)
  }

  lemma LetInExactly(mode: Mode, f: Frame)
    requires WellFormed(f) && !mode.Routed? && VlansOk(mode)
    ensures Qualify(mode, f).Accepted? <==> LetIn(mode, f)
    ensures forall v: nat | EntersOn(mode, f, v) ::
      Qualify(mode, f) == Accepted(if Word(f, 12) == 0x8100 then 0 else v) && LetIn(mode, f)
  {
    TagOnWire(f);
  }

  /** A routed interface takes untagged frames sent to its own address or to everybody. */
  lemma RoutedExactly(mac: Mac, f: Frame)
    requires WellFormed(f)
    ensures Qualify(Routed(mac), f) ==
      if Word(f, 12) != 0x8100 && (f[..6] == mac || forall i | 0 <= i < 6 :: f[i] == 0xff) then Accepted(0)
        else Rejected
  {
    TagOnWire(f);
    if forall i | 0 <= i < 6 :: f[i] == 0xff {
      assert f[..6] == BROADCAST;
    }
    if f[..6] == BROADCAST {
      assert forall i | 0 <= i < 6 :: f[i] == f[..6][i];
    }
  }

  /** What is inside the switch of a frame of VLAN v, and what leaves of it. */
  ghost predicate InsideAs(f: Frame, v: nat, g: Frame)
    requires WellFormed(f)
  {
    && WellFormed(g) && g[..12] == f[..12]
    && g == (if v == 0 || IsTagged(f) then f else Tag(f, v))
    && (IsTagged(g) <==> v != 0) && (v != 0 ==> Vid(g) == v)
  }

  lemma EntersInside(entry: Mode, f: Frame, v: nat)
    requires WellFormed(f) && VlansOk(entry) && v < 2048 && EntersOn(entry, f, v)
    ensures Qualify(entry, f).Accepted? && InsideAs(f, v, Inside(f, Qualify(entry, f).vlanToTag))
  {
    TagOnWire(f);
    LetInExactly(entry, f);
    if v != 0 && !IsTagged(f) {
      VidReadBack(f, v);
      TagWellFormed(f, v);
      TagPutsIn(f, v);
    }
  }

  lemma SentOf(mode: Mode, f: Frame, v: nat, g: Frame)
    requires WellFormed(f) && InsideAs(f, v, g) && VlansOk(mode)
    ensures SendOut(mode, g) == if Carries(mode, v) then Some(if v == 0 || mode.Trunk? then g else Untag(g)) else None
  {
  }

  lemma LeavesSo(mode: Mode, f: Frame, v: nat, g: Frame)
    requires WellFormed(f) && InsideAs(f, v, g) && v < 2048 && (mode.Trunk? ==> v != 0)
    ensures Leaves(mode, f, v) == if v == 0 || mode.Trunk? then g else Untag(g)
  {
    TagOnWire(f);
    hide WellFormed, Vid;
    if v != 0 && !IsTagged(f) {
      if mode.Trunk? {
        assert Leaves(mode, f, v) == Tag(f, v);
      } else {
        TagThenUntag(f, v);
        assert Leaves(mode, f, v) == ClearFcs(f);
      }
    } else if v != 0 && !mode.Trunk? {
      assert Leaves(mode, f, v) == Untag(f);
    }
  }

  /** What a port lets out of a frame that has come in as one of VLAN v. */
  lemma LeavesExactly(entry: Mode, mode: Mode, f: Frame, v: nat)
    requires WellFormed(f) && VlansOk(entry) && VlansOk(mode) && v < 2048 && EntersOn(entry, f, v)
    ensures Qualify(entry, f).Accepted?
    ensures var g := Inside(f, Qualify(entry, f).vlanToTag);
      && WellFormed(g) && g[..6] == f[..6]
      && SendOut(mode, g) == if Carries(mode, v) then Some(Leaves(mode, f, v)) else None
  {
    EntersInside(entry, f, v);
    var g := Inside(f, Qualify(entry, f).vlanToTag);
    hide Qualify, Inside, WellFormed, SendOut, Leaves, EntersOn;
    assert g[..6] == g[..12][..6];
    SentOf(mode, f, v, g);
    if Carries(mode, v) {
      LeavesSo(mode, f, v, g);
    }
  }

  predicate Everybody(f: Frame)
    requires 6 <= |f|
  {
    forall i | 0 <= i < 6 :: f[i] == 0xff
  }

  /** A frame for everybody, or for an address not in the table, goes out of every other port of its VLAN, once,
      and of no other port. */
  lemma FloodDelivers(ports: seq<Mode>, es: seq<MacEntry>, port: nat, f: Frame, v: nat, p: nat, g: Frame)
    requires WellFormed(f) && TableOk(es, ports) && port < |ports| && forall m | m in ports :: VlansOk(m)
    requires v < 2048 && EntersOn(ports[port], f, v)
    requires Everybody(f) || forall j | 0 <= j < |es| :: Key(es[j].mac) != Key(f[..6])
    ensures Sent(p, g) in Received(ports, es, port, f) <==>
      p < |ports| && p != port && Carries(ports[p], v) && g == Leaves(ports[p], f, v)
    ensures forall j, k | 0 <= j < k < |Received(ports, es, port, f)| ::
      Received(ports, es, port, f)[j].port < Received(ports, es, port, f)[k].port
  {
    LeavesExactly(ports[port], ports[port], f, v);
    var inside := Inside(f, Qualify(ports[port], f).vlanToTag);
    if Everybody(f) {
      assert inside[..6] == BROADCAST;
    } else {
      FindAt(es, f[..6], |es|);
    }
    FloodedExactly(ports, port, inside, |ports|);
    if p < |ports| {
      LeavesExactly(ports[port], ports[p], f, v);
    }
  }

  ghost predicate Listed(es: seq<MacEntry>, mac: Mac)
  {
    exists j | 0 <= j < |es| :: Key(es[j].mac) == Key(mac)
  }

  lemma {:induction false} NotFound(es: seq<MacEntry>, mac: Mac)
    ensures Find(es, mac) == None <==> forall j | 0 <= j < |es| :: Key(es[j].mac) != Key(mac)
  {
    if es != [] {
      NotFound(es[1..], mac);
      if forall j | 0 <= j < |es| :: Key(es[j].mac) != Key(mac) {
        assert forall j | 0 <= j < |es[1..]| :: es[1..][j] == es[j + 1];
      }
      if Key(es[0].mac) != Key(mac) && Find(es[1..], mac) == None {
        forall j | 0 <= j < |es| ensures Key(es[j].mac) != Key(mac) {
          assert j > 0 ==> es[j] == es[1..][j - 1];
        }
      }
    }
  }

  /** The same by the table as it was before the switch learnt where the frame came from. */
  lemma ArrivalDelivers(ports: seq<Mode>, es: seq<MacEntry>, es': seq<MacEntry>, port: nat, f: Frame, v: nat, p: nat,
    g: Frame)
    requires WellFormed(f) && TableOk(es', ports) && port < |ports| && forall m | m in ports :: VlansOk(m)
    requires Learns(ports, es, es', port, f) && v < 2048 && EntersOn(ports[port], f, v)
    requires Everybody(f)
      || (Key(f[..6]) != Key(f[6..12]) && forall j | 0 <= j < |es| :: Key(es[j].mac) != Key(f[..6]))
    ensures Sent(p, g) in Received(ports, es', port, f) <==>
      p < |ports| && p != port && Carries(ports[p], v) && g == Leaves(ports[p], f, v)
  {
    LetInExactly(ports[port], f);
    NotFound(es, f[..6]);
    NotFound(es', f[..6]);
    FloodDelivers(ports, es', port, f, v, p, g);
    hide *;
  }

  /** What has come in as f, for everybody or for an address not in table es, is sent as it should be. */
  ghost predicate DeliversRight(ports: seq<Mode>, es: seq<MacEntry>, port: nat, f: Frame, sent: seq<Sent>)
    requires WellFormed(f) && port < |ports|
  {
    forall v: nat, p: nat, g: Frame {:trigger EntersOn(ports[port], f, v), Sent(p, g)} |
      && v < 2048 && EntersOn(ports[port], f, v) && (forall m | m in ports :: VlansOk(m))
      && (Everybody(f) || (Key(f[..6]) != Key(f[6..12]) && !Listed(es, f[..6]))) ::
      Sent(p, g) in sent <==> p < |ports| && p != port && Carries(ports[p], v) && g == Leaves(ports[p], f, v)
  }

  lemma AllDelivered(ports: seq<Mode>, es: seq<MacEntry>, es': seq<MacEntry>, port: nat, f: Frame)
    requires WellFormed(f) && TableOk(es', ports) && port < |ports| && !ports[port].Routed?
    requires Learns(ports, es, es', port, f)
    ensures DeliversRight(ports, es, port, f, Received(ports, es', port, f))
  {
    hide Received, Learns, EntersOn, Everybody, Carries, Leaves, Key, TableOk, VlansOk;
    forall v: nat, p: nat, g: Frame |
      && v < 2048 && EntersOn(ports[port], f, v) && (forall m | m in ports :: VlansOk(m))
      && (Everybody(f) || (Key(f[..6]) != Key(f[6..12]) && !Listed(es, f[..6])))
      ensures Sent(p, g) in Received(ports, es', port, f) <==>
        p < |ports| && p != port && Carries(ports[p], v) && g == Leaves(ports[p], f, v)
    {
      ArrivalDelivers(ports, es, es', port, f, v, p, g);
    }
  }

  /** A frame for an address in the table goes out of the port listed for it, if that is one of its VLAN. */
  lemma KnownDelivers(ports: seq<Mode>, es: seq<MacEntry>, port: nat, f: Frame, v: nat, oif: nat)
    requires WellFormed(f) && TableOk(es, ports) && port < |ports| && forall m | m in ports :: VlansOk(m)
    requires v < 2048 && EntersOn(ports[port], f, v) && !Everybody(f)
    requires Find(es, f[..6]) == Some(oif)
    ensures oif < |ports|
    ensures Received(ports, es, port, f) == if Carries(ports[oif], v) then [Sent(oif, Leaves(ports[oif], f, v))] else []
  {
    FindInTable(es, f[..6], ports);
    LeavesExactly(ports[port], ports[oif], f, v);
    assert forall i | 0 <= i < 6 :: f[..6][i] == f[i];
  }

  /** A frame that has come to a port. */
  datatype Arrival = Arrival(port: nat, frame: Frame)

  ghost predicate ArrivesOk(ports: seq<Mode>, a: Arrival)
  {
    WellFormed(a.frame) && a.port < |ports| && !ports[a.port].Routed?
  }

  /** The MAC table of a switch while frames come in, from one arrival to the next. */
  ghost predicate TableRun(ports: seq<Mode>, tables: seq<seq<MacEntry>>, arrivals: seq<Arrival>)
  {
    && |tables| == |arrivals| + 1
    && (forall i | 0 <= i < |tables| :: TableOk(tables[i], ports))
    && (forall m | m in ports :: VlansOk(m))
    && (forall i | 0 <= i < |arrivals| :: ArrivesOk(ports, arrivals[i])
          && Learns(ports, tables[i], tables[i + 1], arrivals[i].port, arrivals[i].frame))
  }

  /** A frame from the same address has been let in at another port. */
  ghost predicate SeenElsewhere(ports: seq<Mode>, a: Arrival, b: Arrival)
  {
    && ArrivesOk(ports, a) && ArrivesOk(ports, b) && b.port != a.port
    && Key(b.frame[6..12]) == Key(a.frame[6..12]) && LetIn(ports[b.port], b.frame)
  }

  ghost predicate StaysAt(ports: seq<Mode>, arrivals: seq<Arrival>, i: nat, k: nat)
    requires i < k <= |arrivals|
  {
    forall j | i < j < k :: !SeenElsewhere(ports, arrivals[i], arrivals[j])
  }

  lemma {:induction false} SameKeySame(es: seq<MacEntry>, a: Mac, b: Mac)
    ensures Key(a) == Key(b) ==> Find(es, a) == Find(es, b)
  {
    if es != [] {
      SameKeySame(es[1..], a, b);
    }
  }

  lemma ListedStep(ports: seq<Mode>, es: seq<MacEntry>, es': seq<MacEntry>, a: Arrival, b: Arrival)
    requires ArrivesOk(ports, a) && ArrivesOk(ports, b) && Learns(ports, es, es', b.port, b.frame)
    requires VlansOk(ports[b.port])
    requires if a == b then LetIn(ports[a.port], a.frame)
             else Find(es, a.frame[6..12]) == Some(a.port) && !SeenElsewhere(ports, a, b)
    ensures Find(es', a.frame[6..12]) == Some(a.port)
  {
    LetInExactly(ports[b.port], b.frame);
    hide LetIn, Qualify;
    SameKeySame(es', b.frame[6..12], a.frame[6..12]);
  }

  lemma {:induction false} StillListed(ports: seq<Mode>, tables: seq<seq<MacEntry>>, arrivals: seq<Arrival>, i: nat,
    k: nat)
    requires TableRun(ports, tables, arrivals) && i < k <= |arrivals| && ArrivesOk(ports, arrivals[i])
    requires LetIn(ports[arrivals[i].port], arrivals[i].frame) && StaysAt(ports, arrivals, i, k)
    ensures Find(tables[k], arrivals[i].frame[6..12]) == Some(arrivals[i].port)
  {
    var j := k - 1;
    assert ArrivesOk(ports, arrivals[j]);
    if i < j {
      StillListed(ports, tables, arrivals, i, j);
    }
    hide LetIn, Learns, TableOk, SeenElsewhere, Find, VlansOk;
    ListedStep(ports, tables[j], tables[j + 1], arrivals[i], arrivals[j]);
  }

  /** A frame for the address another frame came from goes out of exactly the port that frame came in by, if that
      port is one of its VLAN and the address has not been seen elsewhere since. */
  lemma LearntDelivers(ports: seq<Mode>, tables: seq<seq<MacEntry>>, arrivals: seq<Arrival>, i: nat, k: nat, v: nat)
    requires TableRun(ports, tables, arrivals) && i < k < |arrivals|
    requires ArrivesOk(ports, arrivals[i]) && ArrivesOk(ports, arrivals[k])
    requires LetIn(ports[arrivals[i].port], arrivals[i].frame) && StaysAt(ports, arrivals, i, k + 1)
    requires v < 2048 && EntersOn(ports[arrivals[k].port], arrivals[k].frame, v)
    requires arrivals[k].frame[..6] == arrivals[i].frame[6..12] && !Everybody(arrivals[k].frame)
    ensures var to, f := arrivals[i].port, arrivals[k].frame;
      Received(ports, tables[k + 1], arrivals[k].port, f) ==
        if Carries(ports[to], v) then [Sent(to, Leaves(ports[to], f, v))] else []
  {
    StillListed(ports, tables, arrivals, i, k + 1);
    hide Qualify, LetIn, Key, EntersOn, Leaves, Received, Carries;
    KnownDelivers(ports, tables[k + 1], arrivals[k].port, arrivals[k].frame, v, arrivals[i].port);
  }

  class Switch {
    const ports: seq<Mode>
    var macEntries: seq<MacEntry>

    constructor (ports: seq<Mode>)
      ensures this.ports == ports && macEntries == [] && TableOk(macEntries, ports)
    {
      this.ports, macEntries := ports, [];
    }

    /** mac_table_lookup. */
    method MacTableLookup(mac: Mac) returns (i: int)
      ensures -1 <= i < |macEntries|
      ensures 0 <= i ==> Key(macEntries[i].mac) == Key(mac) && Find(macEntries, mac) == Some(macEntries[i].oif)
      ensures i < 0 ==>
        Find(macEntries, mac) == None && forall j | 0 <= j < |macEntries| :: Key(macEntries[j].mac) != Key(mac)
    {
      i := 0;
      while i < |macEntries|
        invariant 0 <= i <= |macEntries|
        invariant forall j | 0 <= j < i :: Key(macEntries[j].mac) != Key(mac)
      {
        if Key(macEntries[i].mac) == Key(mac) {
          FindAt(macEntries, mac, i);
          return;
        }
        i := i + 1;
      }
      FindAt(macEntries, mac, i);
      i := -1;
    }

    /** mac_table_entry_add: the newest entry for an address replaces an older one. */
    method MacTableEntryAdd(e: MacEntry) returns (added: bool)
      requires TableOk(macEntries, ports) && e.oif < |ports| && !ports[e.oif].Routed?
      modifies `macEntries
      ensures TableOk(macEntries, ports) && Find(macEntries, e.mac) == Some(e.oif)
      ensures forall m: Mac | Key(m) != Key(e.mac) :: Find(macEntries, m) == Find(old(macEntries), m)
    {
      var i := MacTableLookup(e.mac);
      if 0 <= i && macEntries[i].oif == e.oif {
        return false;
      }
      ghost var es := macEntries;
      if 0 <= i {
        TableWithout(es, i, ports);
        macEntries := Cut(macEntries, i);
        forall m: Mac | Key(m) != Key(e.mac) ensures Find(macEntries, m) == Find(es, m) {
          FindWithout(es, i, m);
        }
      }
      hide *;
      TableWith(macEntries, e, ports);
      FindWith(macEntries, e);
      macEntries := [e] + macEntries;
      added := true;
    }

    /** l2_switch_perform_mac_learning. */
    method PerformMacLearning(srcMac: Mac, port: nat)
      requires TableOk(macEntries, ports) && port < |ports| && !ports[port].Routed?
      modifies `macEntries
      ensures TableOk(macEntries, ports) && Find(macEntries, srcMac) == Some(port)
      ensures forall m: Mac | Key(m) != Key(srcMac) :: Find(macEntries, m) == Find(old(macEntries), m)
    {
      var _ := MacTableEntryAdd(MacEntry(srcMac, port));
    }

    /** l2_switch_send_pkt_out, on a copy of the packet at `start` in a buffer; what leaves is where it says. */
    method SendPktOut(buf: array<Byte>, start: nat, size: nat, oif: nat) returns (sent: Option<Frame>)
      requires start + size <= buf.Length && WellFormed(buf[start..start + size]) && oif < |ports|
        && !ports[oif].Routed?
      modifies buf
      ensures sent == SendOut(ports[oif], old(buf[start..start + size]))
    {
      ghost var f := buf[start..start + size];
      var mode := ports[oif];
      var pkt := buf[start..start + size];
      match mode
      case Access(vlan) =>
        if vlan == 0 && !IsTagged(pkt) {
          return Some(pkt);
        }
        if vlan != 0 && !IsTagged(pkt) {
          return None;
        }
        if IsTagged(pkt) && Vid(pkt) == vlan {
          var at, n := UntagPkt(buf, start, size);
          return Some(buf[at..at + n]);
        }
        return None;
      case Trunk(vlans) =>
        var pktVlan := if IsTagged(pkt) then Vid(pkt) else 0;
        if pktVlan != 0 && pktVlan in vlans {
          return Some(pkt);
        }
        return None;
      case _ =>
        return None;
    }

    /** l2_switch_flood_pkt_out: each port gets its own copy, at the end of a buffer of its own. */
    method FloodPktOut(exempted: nat, pkt: Frame) returns (sent: seq<Sent>)
      requires WellFormed(pkt)
      ensures sent == Flooded(ports, exempted, pkt, |ports|)
    {
      sent := [];
      var k := 0;
      while k < |ports|
        invariant k <= |ports| && sent == Flooded(ports, exempted, pkt, k)
      {
        if k != exempted && (ports[k].Access? || ports[k].Trunk?) {
          var buf := new Byte[|pkt|](i requires 0 <= i < |pkt| => pkt[i]);
          assert buf[0..|pkt|] == pkt;
          var out := SendPktOut(buf, 0, |pkt|, k);
          if out.Some? {
            sent := sent + [Sent(k, out.value)];
          }
        }
        k := k + 1;
      }
    }

    /** l2_switch_forward_frame. */
    method ForwardFrame(port: nat, pkt: Frame) returns (sent: seq<Sent>)
      requires WellFormed(pkt) && TableOk(macEntries, ports)
      ensures sent == Forwarded(ports, macEntries, port, pkt)
    {
      if DstMac(pkt) == BROADCAST {
        sent := FloodPktOut(port, pkt);
        return;
      }
      var i := MacTableLookup(DstMac(pkt));
      if i < 0 {
        sent := FloodPktOut(port, pkt);
        return;
      }
      var oif := macEntries[i].oif;
      var buf := new Byte[|pkt|](i requires 0 <= i < |pkt| => pkt[i]);
      assert buf[0..|pkt|] == pkt;
      var out := SendPktOut(buf, 0, |pkt|, oif);
      sent := if out.Some? then [Sent(oif, out.value)] else [];
    }

    /** The steps of FrameRecv: qualification, tagging, learning and forwarding. */
    method TakeIn(port: nat, buf: array<Byte>, start: nat, size: nat) returns (sent: seq<Sent>)
      requires 4 <= start && start + size <= buf.Length && WellFormed(buf[start..start + size])
      requires TableOk(macEntries, ports) && port < |ports| && !ports[port].Routed?
      modifies `macEntries, buf
      ensures TableOk(macEntries, ports)
      ensures sent == Received(ports, macEntries, port, old(buf[start..start + size]))
      ensures Learns(ports, old(macEntries), macEntries, port, old(buf[start..start + size]))
    {
      var pkt := buf[start..start + size];
      match Qualify(ports[port], pkt)
      case Rejected =>
        return [];
      case Accepted(vlanToTag) =>
        var at, n := start, size;
        if vlanToTag != 0 {
          TagWellFormed(pkt, vlanToTag);
          at, n := TagPkt(buf, start, size, vlanToTag);
        }
        var inside := buf[at..at + n];
        assert inside == Inside(pkt, vlanToTag);
        assert SrcMac(inside) == SrcMac(pkt);
        PerformMacLearning(SrcMac(inside), port);
        sent := ForwardFrame(port, inside);
    }

    /** layer2_frame_recv on a port that is not routed, and l2_switch_recv_frame.  The frame is at `start`
        in a buffer with room for a tag before it. */
    method FrameRecv(port: nat, buf: array<Byte>, start: nat, size: nat) returns (sent: seq<Sent>)
      requires 4 <= start && start + size <= buf.Length && WellFormed(buf[start..start + size])
      requires TableOk(macEntries, ports) && port < |ports| && !ports[port].Routed?
      modifies `macEntries, buf
      ensures TableOk(macEntries, ports)
      ensures sent == Received(ports, macEntries, port, old(buf[start..start + size]))
      ensures Learns(ports, old(macEntries), macEntries, port, old(buf[start..start + size]))
      ensures DeliversRight(ports, old(macEntries), port, old(buf[start..start + size]), sent)
    {
      ghost var f := buf[start..start + size];
      sent := TakeIn(port, buf, start, size);
      AllDelivered(ports, old(macEntries), macEntries, port, f);
    }
  }

  /** Whatever the table says, a frame leaves only on ports that let it out, as they let it out. */
  lemma ForwardedOnlyWhereAllowed(ports: seq<Mode>, es: seq<MacEntry>, port: nat, f: Frame, k: nat)
    requires WellFormed(f) && TableOk(es, ports) && k < |Forwarded(ports, es, port, f)|
    ensures var s := Forwarded(ports, es, port, f)[k]; s.port < |ports| && SendOut(ports[s.port], f) == Some(s.frame)
  {
    FloodedExactly(ports, port, f, |ports|);
    if Find(es, DstMac(f)).Some? {
      FindInTable(es, DstMac(f), ports);
    }
  }
}
