/** Any number of switches joined by links, and any run of frames through them: a frame stays in the
    VLAN it entered on. */
module VlanNetwork {
  import opened Options
  import opened EthernetFrames
  import opened L2Switch

  /** A port of a switch. */
  datatype At = At(switch: nat, port: nat)

  /** links leads from a port to the port at the other end; ports not in it lead out of the network. */
  datatype Net = Net(switches: seq<seq<Mode>>, links: map<At, At>)

  predicate IsPort(net: Net, a: At)
  {
    a.switch < |net.switches| && a.port < |net.switches[a.switch]|
  }

  function ModeAt(net: Net, a: At): Mode
    requires IsPort(net, a)
  {
    net.switches[a.switch][a.port]
  }

  predicate LinkOk(a: Mode, b: Mode)
  {
    (a.Trunk? && b.Trunk?) || (a.Access? && b.Access? && a.vlan == b.vlan)
  }

  /** Every link joins two trunks, or two access ports of one VLAN. */
  ghost predicate NetOk(net: Net)
  {
    && (forall a | IsPort(net, a) :: VlansOk(ModeAt(net, a)))
    && (forall a | a in net.links ::
      IsPort(net, a) && IsPort(net, net.links[a]) && LinkOk(ModeAt(net, a), ModeAt(net, net.links[a])))
  }

  /** A frame arriving at a port; vlan and origin record how it entered the network. */
  datatype Transit = Transit(at: At, frame: Frame, vlan: nat, origin: Frame)

  datatype State = State(
    tables: seq<seq<MacEntry>>,   // the MAC table of every switch
    transit: seq<Transit>,        // frames on links, delivered in any order
    gone: seq<Transit>)           // history: every frame that left the network, and where

  datatype Step =
    | Enter(at: At, frame: Frame)              // from outside, at a port that leads out
    | Arrive(i: nat, table: seq<MacEntry>)     // a frame in transit reaches its switch, whose table becomes this

  /** Frames come in on access ports, and tagged on trunks; what else reaches a trunk, no VLAN takes in. */
  predicate HasVlan(mode: Mode, f: Frame)
    requires WellFormed(f)
  {
    mode.Access? || (mode.Trunk? && IsTagged(f) && 0 < Vid(f) < 4096)
  }

  function EntryVlan(mode: Mode, f: Frame): nat
    requires WellFormed(f) && HasVlan(mode, f)
  {
    if mode.Access? then mode.vlan else Vid(f)
  }

  /** A trunk turns away every other frame, unless it is tagged with id 0 and the trunk has a place not in use. */
  lemma NoOtherEntry(mode: Mode, f: Frame)
    requires WellFormed(f) && VlansOk(mode) && mode.Trunk? && !HasVlan(mode, f)
    ensures Qualify(mode, f) != Rejected <==> IsTagged(f) && Vid(f) == 0 && 0 in mode.vlans
  {
  }

  /** Such a frame leaves the switch on access ports that have no VLAN and on no other. */
  lemma ZeroTagged(mode: Mode, f: Frame)
    requires WellFormed(f) && VlansOk(mode) && IsTagged(f) && Vid(f) == 0
    ensures SendOut(mode, f).Some? <==> mode == Access(0)
  {
  }

  ghost predicate Enabled(net: Net, s: State, e: Step)
  {
    match e
    case Enter(at, frame) => IsPort(net, at) && at !in net.links && WellFormed(frame) && HasVlan(ModeAt(net, at), frame)
    case Arrive(i, table) =>
      && i < |s.transit| && IsPort(net, s.transit[i].at) && WellFormed(s.transit[i].frame)
      && |s.tables| == |net.switches|
      && var t := s.transit[i];
      && !ModeAt(net, t.at).Routed? && TableOk(table, net.switches[t.at.switch])
      && Learns(net.switches[t.at.switch], s.tables[t.at.switch], table, t.at.port, t.frame)
  }

  /** Sent frames on links are in transit to the other end. */
  ghost function OnLinks(net: Net, switch: nat, sent: seq<Sent>, vlan: nat, origin: Frame): seq<Transit>
  {
    if sent == [] then [] else
      var from := At(switch, sent[0].port);
      (if from in net.links then [Transit(net.links[from], sent[0].frame, vlan, origin)] else [])
      + OnLinks(net, switch, sent[1..], vlan, origin)
  }

  /** The others leave the network. */
  ghost function OffNet(net: Net, switch: nat, sent: seq<Sent>, vlan: nat, origin: Frame): seq<Transit>
  {
    if sent == [] then [] else
      var from := At(switch, sent[0].port);
      (if from in net.links then [] else [Transit(from, sent[0].frame, vlan, origin)])
      + OffNet(net, switch, sent[1..], vlan, origin)
  }

  ghost function Apply(net: Net, s: State, e: Step): State
    requires Enabled(net, s, e)
  {
    match e
    case Enter(at, frame) => s.(transit := s.transit + [Transit(at, frame, EntryVlan(ModeAt(net, at), frame), frame)])
    case Arrive(i, table) =>
      var t := s.transit[i];
      var sent := Received(net.switches[t.at.switch], table, t.at.port, t.frame);
      State(s.tables[t.at.switch := table],
            s.transit[..i] + s.transit[i + 1..] + OnLinks(net, t.at.switch, sent, t.vlan, t.origin),
            s.gone + OffNet(net, t.at.switch, sent, t.vlan, t.origin))
  }

  // ---- isolation ----

  /** The frame is what it was but for tag and checksum, and it is in its VLAN: untagged or tagged with
      its id on an access port of that VLAN, tagged with its id on a trunk. */
  ghost predicate InPlace(net: Net, t: Transit)
  {
    && IsPort(net, t.at) && WellFormed(t.frame) && WellFormed(t.origin) && Plain(t.frame) == Plain(t.origin)
      && t.vlan < 4096
    && (t.vlan == 0 ==> t.frame == t.origin)
    && match ModeAt(net, t.at)
       case Access(vlan) => vlan == t.vlan
       case Trunk(_) => IsTagged(t.frame) && Vid(t.frame) == t.vlan && t.vlan != 0
       case _ => false
  }

  /** A frame that left did so on an access port of its VLAN, untagged, or tagged on a trunk that carries its VLAN. */
  ghost predicate LeftInPlace(net: Net, t: Transit)
  {
    && IsPort(net, t.at) && WellFormed(t.frame) && WellFormed(t.origin) && Plain(t.frame) == Plain(t.origin)
    && Carries(ModeAt(net, t.at), t.vlan)
    && match ModeAt(net, t.at)
       case Access(_) => !IsTagged(t.frame) && t.frame == if t.vlan == 0 then t.origin else Plain(t.origin)
       case _ => IsTagged(t.frame) && Vid(t.frame) == t.vlan
  }

  ghost predicate Isolated(net: Net, s: State)
  {
    && (forall i | 0 <= i < |s.transit| :: InPlace(net, s.transit[i]))
    && (forall i | 0 <= i < |s.gone| :: LeftInPlace(net, s.gone[i]))
  }

  /** Inside a switch: tagged with its id, or with one that no port can have, or untagged in no VLAN. */
  predicate InsideOk(f: Frame, vlan: nat)
    requires ETH_SIZE <= |f|
  {
    if IsTagged(f) then (Vid(f) == vlan && vlan != 0) || 4096 <= Vid(f) else vlan == 0
  }

  lemma AcceptedInside(mode: Mode, f: Frame, vlan: nat)
    requires WellFormed(f) && vlan < 4096 && Qualify(mode, f).Accepted?
    requires (mode.Access? && mode.vlan == vlan) || (mode.Trunk? && IsTagged(f) && Vid(f) == vlan && vlan != 0)
    ensures WellFormed(Inside(f, Qualify(mode, f).vlanToTag)) && InsideOk(Inside(f, Qualify(mode, f).vlanToTag), vlan)
    ensures Plain(Inside(f, Qualify(mode, f).vlanToTag)) == Plain(f)
    ensures vlan == 0 ==> Inside(f, Qualify(mode, f).vlanToTag) == f
  {
  }

  /** What a port lets out of a frame inside the switch is in place on that port. */
  lemma SentInPlace(mode: Mode, f: Frame, vlan: nat)
    requires WellFormed(f) && InsideOk(f, vlan) && VlansOk(mode) && SendOut(mode, f).Some?
    ensures Carries(mode, vlan) && WellFormed(SendOut(mode, f).value) && Plain(SendOut(mode, f).value) == Plain(f)
    ensures mode.Access? ==>
      !IsTagged(SendOut(mode, f).value) && SendOut(mode, f).value == if vlan == 0 then f else Plain(f)
    ensures mode.Trunk? ==> IsTagged(SendOut(mode, f).value) && Vid(SendOut(mode, f).value) == vlan && vlan != 0
  {
  }

  ghost predicate AllInPlace(net: Net, ts: seq<Transit>)
  {
    forall i | 0 <= i < |ts| :: InPlace(net, ts[i])
  }

  ghost predicate AllLeftInPlace(net: Net, ts: seq<Transit>)
  {
    forall i | 0 <= i < |ts| :: LeftInPlace(net, ts[i])
  }

  /** Frames that leave a switch's ports as its egress rules let out a frame inside it. */
  ghost predicate LetOut(net: Net, switch: nat, sent: seq<Sent>, inside: Frame)
    requires WellFormed(inside)
  {
    switch < |net.switches| && forall k | 0 <= k < |sent| ::
      sent[k].port < |net.switches[switch]|
        && SendOut(net.switches[switch][sent[k].port], inside) == Some(sent[k].frame)
  }

  lemma {:induction false} OnLinksInPlace(net: Net, switch: nat, sent: seq<Sent>, inside: Frame, vlan: nat,
    origin: Frame)
    requires NetOk(net) && WellFormed(inside) && InsideOk(inside, vlan) && LetOut(net, switch, sent, inside)
    requires WellFormed(origin) && Plain(inside) == Plain(origin) && vlan < 4096 && (vlan == 0 ==> inside == origin)
    ensures AllInPlace(net, OnLinks(net, switch, sent, vlan, origin))
    ensures AllLeftInPlace(net, OffNet(net, switch, sent, vlan, origin))
  {
    if sent != [] {
      OnLinksInPlace(net, switch, sent[1..], inside, vlan, origin);
      var from := At(switch, sent[0].port);
      assert IsPort(net, from) && VlansOk(ModeAt(net, from));
      SentInPlace(ModeAt(net, from), inside, vlan);
    }
  }

  lemma EnterIsolated(net: Net, s: State, e: Step)
    requires NetOk(net) && Isolated(net, s) && Enabled(net, s, e) && e.Enter?
    ensures Isolated(net, Apply(net, s, e))
  {
  }

  lemma RestInPlace(net: Net, ts: seq<Transit>, i: nat, more: seq<Transit>)
    requires AllInPlace(net, ts) && AllInPlace(net, more) && i < |ts|
    ensures AllInPlace(net, ts[..i] + ts[i + 1..] + more)
  {
  }

  lemma ArriveIsolated(net: Net, s: State, e: Step)
    requires NetOk(net) && Isolated(net, s) && Enabled(net, s, e) && e.Arrive?
    ensures Isolated(net, Apply(net, s, e))
  {
    var t := s.transit[e.i];
    var ports := net.switches[t.at.switch];
    var sent := Received(ports, e.table, t.at.port, t.frame);
    assert InPlace(net, t);
    if Qualify(ports[t.at.port], t.frame).Accepted? {
      var inside := Inside(t.frame, Qualify(ports[t.at.port], t.frame).vlanToTag);
      AcceptedInside(ports[t.at.port], t.frame, t.vlan);
      forall k | 0 <= k < |sent|
        ensures sent[k].port < |ports| && SendOut(ports[sent[k].port], inside) == Some(sent[k].frame)
      {
        ForwardedOnlyWhereAllowed(ports, e.table, t.at.port, inside, k);
      }
      OnLinksInPlace(net, t.at.switch, sent, inside, t.vlan, t.origin);
    }
    hide Received, InPlace, LeftInPlace;
    RestInPlace(net, s.transit, e.i, OnLinks(net, t.at.switch, sent, t.vlan, t.origin));
  }

  /** The states are passed through when the steps are taken one by one, from a network at rest with any tables. */
  ghost predicate IsRun(net: Net, ss: seq<State>, es: seq<Step>)
  {
    && |ss| == |es| + 1 && ss[0].transit == [] && ss[0].gone == []
    && (forall i | 0 <= i < |es| :: Enabled(net, ss[i], es[i]) && ss[i + 1] == Apply(net, ss[i], es[i]))
  }

  lemma {:induction false} RunIsolated(net: Net, ss: seq<State>, es: seq<Step>, k: nat)
    requires NetOk(net) && IsRun(net, ss, es) && k < |ss|
    ensures Isolated(net, ss[k])
  {
    if k > 0 {
      RunIsolated(net, ss, es, k - 1);
      if es[k - 1].Enter? {
        EnterIsolated(net, ss[k - 1], es[k - 1]);
      } else {
        ArriveIsolated(net, ss[k - 1], es[k - 1]);
      }
    }
  }

  /** In any run, a frame that entered as one of VLAN v leaves only on access ports of v, untagged, or on trunks
      that carry v, tagged with v; and if it came in untagged, it leaves an access port byte for byte as it
      came if and only if v is 0 or its checksum was clear. */
  lemma NoLeak(net: Net, ss: seq<State>, es: seq<Step>, k: nat, i: nat)
    requires NetOk(net) && IsRun(net, ss, es) && k < |ss| && i < |ss[k].gone|
    ensures var t := ss[k].gone[i];
      && LeftInPlace(net, t)
      && (ModeAt(net, t.at).Access? && !IsTagged(t.origin) ==>
            (t.frame == t.origin <==> t.vlan == 0 || t.origin[|t.origin| - 4..] == NO_FCS))
  {
    RunIsolated(net, ss, es, k);
    var t := ss[k].gone[i];
    assert LeftInPlace(net, t);
    assert t.origin == t.origin[..|t.origin| - 4] + t.origin[|t.origin| - 4..];
    if !IsTagged(t.origin) {
      assert Plain(t.origin)[|t.origin| - 4..] == NO_FCS;
    }
  }

  /** A frame that has come in untagged on VLAN v gets out of a port that carries v if and only if v is at most 2047. */
  lemma OutExactly(mode: Mode, f: Frame, v: nat)
    requires WellFormed(f) && !IsTagged(f) && 0 < v && VlansOk(mode) && Carries(mode, v)
    ensures WellFormed(Inside(f, v)) && (SendOut(mode, Inside(f, v)).Some? <==> v <= 2047)
  {
    TagWellFormed(f, v);
    VidReadBack(f, v);
  }

  /** Flooding a frame of VLAN v sends it on every port of v but the one it came in on, and on no other. */
  lemma FloodReachesItsVlan(ports: seq<Mode>, port: nat, f: Frame, p: nat)
    requires WellFormed(f) && IsTagged(f) && Vid(f) != 0 && p < |ports|
    ensures (exists k ::
      0 <= k < |Flooded(ports, port, f, |ports|)| && Flooded(ports, port, f, |ports|)[k].port == p) <==>
      p != port && Carries(ports[p], Vid(f))
  {
    FloodedExactly(ports, port, f, |ports|);
    LeavesOnItsVlan(ports[p], f);
    var flooded := Flooded(ports, port, f, |ports|);
    if p != port && Carries(ports[p], Vid(f)) {
      var s := Sent(p, SendOut(ports[p], f).value);
      var k :| 0 <= k < |flooded| && flooded[k] == s;
      assert flooded[k].port == p;
    }
  }

  lemma {:induction false} OnOrOff(net: Net, switch: nat, sent: seq<Sent>, vlan: nat, origin: Frame)
    ensures |OnLinks(net, switch, sent, vlan, origin)| + |OffNet(net, switch, sent, vlan, origin)| == |sent|
  {
    if sent != [] {
      OnOrOff(net, switch, sent[1..], vlan, origin);
    }
  }

  /** An arrival takes exactly the one frame out of transit; each frame the switch sends for it is in transit or has
      left the network, once. */
  lemma Conserved(net: Net, s: State, e: Step)
    requires Enabled(net, s, e) && e.Arrive?
    ensures var t, s' := s.transit[e.i], Apply(net, s, e);
      var sent := Received(net.switches[t.at.switch], e.table, t.at.port, t.frame);
      var onLinks := OnLinks(net, t.at.switch, sent, t.vlan, t.origin);
      && multiset(s'.transit) + multiset{t} == multiset(s.transit) + multiset(onLinks)
      && s.gone <= s'.gone && |onLinks| + |s'.gone| - |s.gone| == |sent|
  {
    var t := s.transit[e.i];
    var sent := Received(net.switches[t.at.switch], e.table, t.at.port, t.frame);
    OnOrOff(net, t.at.switch, sent, t.vlan, t.origin);
    hide Received, OnLinks, OffNet, Learns;
    assert s.transit == s.transit[..e.i] + [t] + s.transit[e.i + 1..];
  }

  // ---- delivery ----

  /** A way out of the network for frames of VLAN v at port `at`: by path[0] out of its switch and, if a link is there,
      on from the other end, each port on it being of the VLAN and other than the one the frame came in by. */
  ghost predicate WayOut(net: Net, v: nat, at: At, path: seq<At>)
    decreases |path|
  {
    && path != [] && IsPort(net, path[0]) && path[0].switch == at.switch && path[0].port != at.port
    && Carries(ModeAt(net, path[0]), v)
    && if path[0] in net.links then
         var far := net.links[path[0]];
         IsPort(net, far) && Carries(ModeAt(net, far), v) && WayOut(net, v, far, path[1..])
       else |path| == 1
  }

  /** In steps j up to k the address is in no table that a frame is forwarded by. */
  ghost predicate NeverListed(es: seq<Step>, mac: Mac)
  {
    forall m | 0 <= m < |es| && es[m].Arrive? :: !Listed(es[m].table, mac)
  }

  /** Frame t is on its way as one of VLAN v that switches flood. */
  ghost predicate OnItsWay(net: Net, es: seq<Step>, t: Transit)
  {
    && IsPort(net, t.at) && WellFormed(t.frame) && t.vlan < 2048 && EntersOn(ModeAt(net, t.at), t.frame, t.vlan)
    && (Everybody(t.frame) || NeverListed(es, t.frame[..6]))
  }

  lemma {:induction false} SentOn(net: Net, switch: nat, sent: seq<Sent>, vlan: nat, origin: Frame, s: Sent)
    requires s in sent
    ensures var from := At(switch, s.port);
      if from in net.links then Transit(net.links[from], s.frame, vlan, origin) in OnLinks(net, switch, sent,
        vlan, origin)
      else Transit(from, s.frame, vlan, origin) in OffNet(net, switch, sent, vlan, origin)
  {
    if s != sent[0] {
      assert s in sent[1..];
      SentOn(net, switch, sent[1..], vlan, origin, s);
    }
  }

  lemma StaysInTransit(net: Net, s: State, e: Step, t: Transit)
    requires Enabled(net, s, e) && t in s.transit && (e.Arrive? ==> s.transit[e.i] != t)
    ensures t in Apply(net, s, e).transit
  {
    hide Received, OnLinks, OffNet, Learns;
    var a :| 0 <= a < |s.transit| && s.transit[a] == t;
    if e.Arrive? {
      var rest := s.transit[..e.i] + s.transit[e.i + 1..];
      assert rest[if a < e.i then a else a - 1] == t;
    }
  }

  /** What is in transit at some step and no longer at a later one has arrived in between. */
  lemma {:induction false} Arrives(net: Net, ss: seq<State>, es: seq<Step>, j: nat, k: nat, t: Transit) returns (m: nat)
    requires IsRun(net, ss, es) && j <= k < |ss| && t in ss[j].transit && t !in ss[k].transit
    ensures j <= m < k && m < |es| && es[m].Arrive? && es[m].i < |ss[m].transit| && ss[m].transit[es[m].i] == t
    decreases k - j
  {
    hide Apply, Learns, TableOk;
    assert Enabled(net, ss[j], es[j]) && ss[j + 1] == Apply(net, ss[j], es[j]);
    if es[j].Arrive? && ss[j].transit[es[j].i] == t {
      m := j;
    } else {
      StaysInTransit(net, ss[j], es[j], t);
      m := Arrives(net, ss, es, j + 1, k, t);
    }
  }

  lemma {:induction false} GoneStays(net: Net, ss: seq<State>, es: seq<Step>, j: nat, k: nat, t: Transit)
    requires IsRun(net, ss, es) && j <= k < |ss| && t in ss[j].gone
    ensures t in ss[k].gone
  {
    if j < k {
      GoneStays(net, ss, es, j, k - 1, t);
      assert Enabled(net, ss[k - 1], es[k - 1]) && ss[k] == Apply(net, ss[k - 1], es[k - 1]);
    }
  }

  /** What a port of VLAN v sends into a link enters the switch at the other end as one of v again. */
  lemma EntersAgain(a: Mode, b: Mode, entry: Mode, f: Frame, v: nat)
    requires WellFormed(f) && v < 2048 && EntersOn(entry, f, v) && VlansOk(entry)
    requires Carries(a, v) && Carries(b, v) && LinkOk(a, b)
    ensures var g := Leaves(a, f, v);
      WellFormed(g) && EntersOn(b, g, v) && g[..6] == f[..6] && (Everybody(g) <==> Everybody(f))
  {
    TagOnWire(f);
    EntersInside(entry, f, v);
    var inside := Inside(f, Qualify(entry, f).vlanToTag);
    LeavesSo(a, f, v, inside);
    var g := Leaves(a, f, v);
    hide Leaves, Inside, Qualify;
    if v != 0 && !a.Trunk? {
      UntagWellFormed(inside);
      UntagTakesOut(inside);
    }
    TagOnWire(g);
    hide WellFormed, EntersOn, Vid;
    assert g[..6] == g[..12][..6] == f[..12][..6] == f[..6];
    assert forall i | 0 <= i < 6 :: g[i] == g[..6][i] && f[i] == f[..6][i];
  }

  /** The switch it arrives at sends it out of the first port of its way out. */
  lemma {:induction false} SentOnItsWay(net: Net, es: seq<Step>, table: seq<MacEntry>, t: Transit, path: seq<At>)
    requires NetOk(net) && OnItsWay(net, es, t) && WayOut(net, t.vlan, t.at, path)
    requires !ModeAt(net, t.at).Routed? && TableOk(table, net.switches[t.at.switch])
    requires Everybody(t.frame) || !Listed(table, t.frame[..6])
    ensures Sent(path[0].port, Leaves(ModeAt(net, path[0]), t.frame, t.vlan))
      in Received(net.switches[t.at.switch], table, t.at.port, t.frame)
  {
    var ports, to := net.switches[t.at.switch], path[0].port;
    forall mode | mode in ports ensures VlansOk(mode) {
      var a :| 0 <= a < |ports| && ports[a] == mode;
      assert IsPort(net, At(t.at.switch, a));
    }
    FloodDelivers(ports, table, t.at.port, t.frame, t.vlan, to, Leaves(ports[to], t.frame, t.vlan));
  }

  /** So it goes on into the link there, or leaves the network. */
  lemma {:induction false} GoesOn(net: Net, ss: seq<State>, es: seq<Step>, m: nat, t: Transit, path: seq<At>)
    requires NetOk(net) && IsRun(net, ss, es) && m < |es| && es[m].Arrive?
    requires es[m].i < |ss[m].transit| && ss[m].transit[es[m].i] == t
    requires OnItsWay(net, es, t) && WayOut(net, t.vlan, t.at, path)
    ensures var g := Leaves(ModeAt(net, path[0]), t.frame, t.vlan);
      if path[0] in net.links then Transit(net.links[path[0]], g, t.vlan, t.origin) in ss[m + 1].transit
      else Transit(path[0], g, t.vlan, t.origin) in ss[m + 1].gone
  {
    hide Received, Leaves, EntersOn, Learns, TableOk, NetOk, Carries, Listed;
    assert Enabled(net, ss[m], es[m]) && ss[m + 1] == Apply(net, ss[m], es[m]);
    SentOnItsWay(net, es, es[m].table, t, path);
    var sent := Received(net.switches[t.at.switch], es[m].table, t.at.port, t.frame);
    var to := path[0].port;
    SentOn(net, t.at.switch, sent, t.vlan, t.origin, Sent(to, Leaves(ModeAt(net, path[0]), t.frame, t.vlan)));
    assert path[0] == At(t.at.switch, to);
  }

  /** And is on its way again if a link is there. */
  lemma {:induction false} NextOnWay(net: Net, es: seq<Step>, t: Transit, path: seq<At>)
    requires NetOk(net) && OnItsWay(net, es, t) && WayOut(net, t.vlan, t.at, path) && path[0] in net.links
    ensures var g := Leaves(ModeAt(net, path[0]), t.frame, t.vlan);
      var t' := Transit(net.links[path[0]], g, t.vlan, t.origin);
      && OnItsWay(net, es, t') && |path| > 1 && WayOut(net, t.vlan, t'.at, path[1..])
  {
    hide Leaves, EntersOn, WellFormed, Carries, LinkOk;
    EntersAgain(ModeAt(net, path[0]), ModeAt(net, net.links[path[0]]), ModeAt(net, t.at), t.frame, t.vlan);
  }

  /** Delivery: in any run, once nothing is in transit any more, a frame that was on its way has left the network by
      every way out. */
  lemma {:induction false} DeliveredFrom(net: Net, ss: seq<State>, es: seq<Step>, j: nat, k: nat, t: Transit,
    path: seq<At>)
    requires NetOk(net) && IsRun(net, ss, es) && j <= k < |ss| && ss[k].transit == []
    requires t in ss[j].transit && OnItsWay(net, es, t) && WayOut(net, t.vlan, t.at, path)
    ensures exists x :: x in ss[k].gone && x.at == path[|path| - 1] && x.vlan == t.vlan && x.origin == t.origin
    decreases |path|
  {
    hide IsRun, Leaves, EntersOn, NetOk, Carries, NeverListed, Everybody;
    var m := Arrives(net, ss, es, j, k, t);
    GoesOn(net, ss, es, m, t, path);
    var out := path[0];
    var g := Leaves(ModeAt(net, out), t.frame, t.vlan);
    if out in net.links {
      NextOnWay(net, es, t, path);
      DeliveredFrom(net, ss, es, m + 1, k, Transit(net.links[out], g, t.vlan, t.origin), path[1..]);
      assert path[1..][|path[1..]| - 1] == path[|path| - 1];
    } else {
      GoneStays(net, ss, es, m + 1, k, Transit(out, g, t.vlan, t.origin));
    }
  }

  /** So a frame of VLAN v that enters the network for everybody, or for an address that no switch learns in the run,
      leaves it by every port of v to which links of v lead; NoLeak says that it leaves by no other. */
  lemma {:induction false} Delivered(net: Net, ss: seq<State>, es: seq<Step>, i: nat, k: nat, v: nat, path: seq<At>)
    requires NetOk(net) && IsRun(net, ss, es) && i < k < |ss| && ss[k].transit == [] && es[i].Enter?
    requires IsPort(net, es[i].at) && WellFormed(es[i].frame)
    requires v < 2048 && EntersOn(ModeAt(net, es[i].at), es[i].frame, v) && WayOut(net, v, es[i].at, path)
    requires Everybody(es[i].frame) || NeverListed(es, es[i].frame[..6])
    ensures exists x :: x in ss[k].gone && x.at == path[|path| - 1] && x.vlan == v && x.origin == es[i].frame
  {
    var f := es[i].frame;
    assert Enabled(net, ss[i], es[i]) && ss[i + 1] == Apply(net, ss[i], es[i]);
    TagOnWire(f);
    var t := Transit(es[i].at, f, v, f);
    assert t in ss[i + 1].transit;
    DeliveredFrom(net, ss, es, i + 1, k, t, path);
  }
}
