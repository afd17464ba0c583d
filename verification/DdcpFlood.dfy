/** The network of DDCP nodes as a transition system: any node may originate its next query at any
    time, or take a number and send nothing, and messages on the wire are delivered in any order.
    The moves of a node are those of Ddcp.DdcpNode: ProcessQueryMsg, TriggerQuery and TimerFires. */
module DdcpFlood {
  import opened Ddcp
  import opened Lists

  /** The interfaces and the loopback address of every node. */
  datatype Topology = Topology(intfs: seq<seq<Intf>>, addr: seq<int>)

  predicate IsPort(t: Topology, p: Port)
  {
    p.node < |t.intfs| && p.idx < |t.intfs[p.node]|
  }

  function IntfAt(t: Topology, p: Port): Intf
    requires IsPort(t, p)
  {
    t.intfs[p.node][p.idx]
  }

  ghost predicate WellFormed(t: Topology)
  {
    && |t.addr| == |t.intfs|
    && (forall i, j | 0 <= i < j < |t.addr| :: t.addr[i] != t.addr[j])
    && (forall n | 0 <= n < |t.intfs| :: |t.intfs[n]| <= MAX_INTF_PER_NODE)
    && (forall p {:trigger IntfAt(t, p)} | IsPort(t, p) ::
          IsPort(t, IntfAt(t, p).peer) && IntfAt(t, IntfAt(t, p).peer).peer == p)
  }

  /** Layer 2 passes a query up only on a layer 3 interface; DDCP then looks at its own switch. */
  predicate Hears(intf: Intf)
  {
    intf.l3 && intf.ddcp
  }

  /** A link end over which queries get through: sending is possible here and listening there. */
  ghost predicate Live(t: Topology, p: Port)
    requires WellFormed(t)
  {
    && IsPort(t, p)
    && var near, far := IntfAt(t, p), IntfAt(t, IntfAt(t, p).peer);
       near.up && near.l3 && near.ddcp && far.l3 && far.ddcp
  }

  datatype Key = Key(node: nat, originator: int)

  /** What every node has recorded, the messages on the wire, and the history: the last query every
      node sent out by originator, everything ever sent, and which node took up which query. */
  datatype Net = Net(
    last: map<Key, int>,
    flooded: map<Key, int>,
    wire: multiset<Msg>,
    sent: seq<Msg>,
    taken: seq<(nat, Query)>)
  {
    function Rec(n: nat, o: int): int
    {
      if Key(n, o) in last then last[Key(n, o)] else -1
    }

    function Flooded(n: nat, o: int): int
    {
      if Key(n, o) in flooded then flooded[Key(n, o)] else -1
    }

    /** Node n records query q and sends out. */
    function TakeUp(n: nat, q: Query, out: seq<Msg>): Net
    {
      Net(last[Key(n, q.originator) := q.seqNo], flooded[Key(n, q.originator) := q.seqNo],
          wire + multiset(out), sent + out, taken + [(n, q)])
    }
  }

  /** Originating is a query triggered without an interval, or a periodic one whose timer fires;
      Numbering is the request for periodic queries, which takes a number and sends nothing. */
  datatype Event = Originating(n: nat) | Numbering(n: nat) | Delivering(m: Msg)

  ghost predicate Enabled(t: Topology, net: Net, e: Event)
  {
    match e
    case Originating(n) => n < |t.intfs|
    case Numbering(n) => n < |t.intfs|
    case Delivering(m) => m in net.wire
  }

  function NextQuery(t: Topology, net: Net, n: nat): Query
    requires n < |t.addr|
  {
    Query(t.addr[n], (net.Rec(n, t.addr[n]) + 1) % SEQ_LIMIT)
  }

  /** The sequence number counter of the originator is not about to wrap around. */
  ghost predicate Fresh(t: Topology, net: Net, e: Event)
    requires !e.Delivering? ==> e.n < |t.addr|
  {
    !e.Delivering? ==> net.Rec(e.n, t.addr[e.n]) + 1 < SEQ_LIMIT
  }

  predicate Accepts(t: Topology, net: Net, m: Msg)
    requires IsPort(t, m.dst)
  {
    Hears(IntfAt(t, m.dst)) && net.Rec(m.dst.node, m.query.originator) < m.query.seqNo
  }

  function Apply(t: Topology, net: Net, e: Event): Net
    requires |t.addr| == |t.intfs|
    requires if e.Delivering? then IsPort(t, e.m.dst) else e.n < |t.intfs|
  {
    match e
    case Originating(n) =>
      var q := NextQuery(t, net, n);
      net.TakeUp(n, q, FloodFrom(n, t.intfs[n], 0, -1, q))
    case Numbering(n) =>
      var q := NextQuery(t, net, n);
      net.(last := net.last[Key(n, q.originator) := q.seqNo])
    case Delivering(m) =>
      var net' := net.(wire := net.wire - multiset{m});
      if Accepts(t, net, m) then
        net'.TakeUp(m.dst.node, m.query, FloodFrom(m.dst.node, t.intfs[m.dst.node], 0, m.dst.idx, m.query))
      else
        net'
  }

  // ---- the invariant ----

  ghost predicate Known(t: Topology, o: int)
  {
    exists j :: 0 <= j < |t.addr| && t.addr[j] == o
  }

  /** Node n has sent on what it has recorded, except that it may have numbers of its own in hand. */
  ghost predicate SentOn(t: Topology, net: Net, n: nat, o: int)
  {
    && -1 <= net.Flooded(n, o) <= net.Rec(n, o) < SEQ_LIMIT
    && (net.Flooded(n, o) == net.Rec(n, o) || (n < |t.addr| && t.addr[n] == o))
  }

  /** Whatever was ever sent had been recorded by its sender, and travels along a link. */
  ghost predicate SentOk(t: Topology, net: Net, m: Msg)
    requires WellFormed(t)
  {
    && IsPort(t, m.src) && m.dst == IntfAt(t, m.src).peer
    && IntfAt(t, m.src).up && IntfAt(t, m.src).l3 && IntfAt(t, m.src).ddcp
    && 0 <= m.query.seqNo < SEQ_LIMIT && Known(t, m.query.originator)
    && m.query.seqNo <= net.Flooded(m.src.node, m.query.originator)
  }

  /** No node is ahead of what the originator sent out. */
  ghost predicate OwnerLeads(t: Topology, net: Net, j: nat, n: nat)
    requires j < |t.addr|
  {
    net.Flooded(n, t.addr[j]) <= net.Flooded(j, t.addr[j])
  }

  /** The far end of a live link has sent on what this end has, or the query is on its way there. */
  ghost predicate CaughtUp(t: Topology, net: Net, p: Port, o: int)
    requires WellFormed(t) && IsPort(t, p)
  {
    var peer := IntfAt(t, p).peer;
    net.Flooded(p.node, o) <= net.Flooded(peer.node, o) || Msg(p, peer, Query(o, net.Flooded(p.node, o))) in net.wire
  }

  ghost predicate Inv(t: Topology, net: Net)
    requires WellFormed(t)
  {
    && (forall n, o {:trigger SentOn(t, net, n, o)} :: SentOn(t, net, n, o))
    && (forall m {:trigger SentOk(t, net, m)} | m in net.sent :: SentOk(t, net, m))
    && (forall m {:trigger net.wire[m]} | m in net.wire :: m in net.sent)
    && (forall j, n {:trigger OwnerLeads(t, net, j, n)} | 0 <= j < |t.addr| :: OwnerLeads(t, net, j, n))
    && (forall p, o {:trigger CaughtUp(t, net, p, o)} | Live(t, p) :: CaughtUp(t, net, p, o))
  }

  const EMPTY := Net(map[], map[], multiset{}, [], [])

  lemma InitInv(t: Topology)
    requires WellFormed(t)
    ensures Inv(t, EMPTY)
  {
  }

  // ---- the invariant, step by step ----

  /** Recording a newer query and sending it out keeps the invariant, as long as the originator is not
      overtaken and the one interface left out leads to a node that has the query already. */
  ghost predicate MayTakeUp(t: Topology, net: Net, n: nat, q: Query, except: int)
    requires WellFormed(t)
  {
    && n < |t.intfs| && 0 <= q.seqNo < SEQ_LIMIT && Known(t, q.originator)
    && net.Flooded(n, q.originator) <= net.Rec(n, q.originator) < q.seqNo
    && (forall j | 0 <= j < |t.addr| && t.addr[j] == q.originator :: j == n || q.seqNo <= net.Flooded(j, q.originator))
    && (0 <= except < |t.intfs[n]| ==>
          q.seqNo <= net.Flooded(IntfAt(t, Port(n, except)).peer.node, q.originator))
  }

  lemma SentAfterTakeUp(t: Topology, net: Net, n: nat, q: Query, except: int, m: Msg)
    requires WellFormed(t) && Inv(t, net) && MayTakeUp(t, net, n, q, except)
    requires m in net.sent || m in FloodFrom(n, t.intfs[n], 0, except, q)
    ensures SentOk(t, net.TakeUp(n, q, FloodFrom(n, t.intfs[n], 0, except, q)), m)
  {
    if m in net.sent {
      assert SentOk(t, net, m);
    } else {
      FloodIs(n, t.intfs[n], 0, except, q, m);
      assert m.dst == IntfAt(t, m.src).peer;
    }
  }

  lemma OwnerLeadsAfterTakeUp(t: Topology, net: Net, n: nat, q: Query, except: int, j: nat, n': nat)
    requires WellFormed(t) && MayTakeUp(t, net, n, q, except) && j < |t.addr|
    requires OwnerLeads(t, net, j, n')
    ensures OwnerLeads(t, net.TakeUp(n, q, FloodFrom(n, t.intfs[n], 0, except, q)), j, n')
  {
  }

  lemma CaughtUpAfterTakeUp(t: Topology, net: Net, n: nat, q: Query, except: int, p: Port, o: int)
    requires WellFormed(t) && MayTakeUp(t, net, n, q, except) && Live(t, p)
    requires CaughtUp(t, net, p, o)
      || (IntfAt(t, p).peer.node == n && o == q.originator && net.Flooded(p.node, o) <= q.seqNo)
    ensures CaughtUp(t, net.TakeUp(n, q, FloodFrom(n, t.intfs[n], 0, except, q)), p, o)
  {
    var out := FloodFrom(n, t.intfs[n], 0, except, q);
    var net' := net.TakeUp(n, q, out);
    var peer := IntfAt(t, p).peer;
    if p.node == n && o == q.originator && p.idx != except {
      FloodIs(n, t.intfs[n], 0, except, q, Msg(p, peer, q));
      assert Msg(p, peer, q) in multiset(out);
    } else if CaughtUp(t, net, p, o) {
      if p.node == n && o == q.originator {
        assert p == Port(n, except);
      } else if net.Flooded(p.node, o) > net.Flooded(peer.node, o) {
        assert Msg(p, peer, Query(o, net.Flooded(p.node, o))) in net'.wire;
      }
    }
  }

  lemma RecordsAfterOriginating(t: Topology, net: Net, n: nat, n': nat, o: int)
    requires WellFormed(t) && Inv(t, net) && n < |t.intfs| && Fresh(t, net, Originating(n))
    ensures SentOn(t, Apply(t, net, Originating(n)), n', o)
    ensures forall j | 0 <= j < |t.addr| :: OwnerLeads(t, Apply(t, net, Originating(n)), j, n')
    ensures MayTakeUp(t, net, n, NextQuery(t, net, n), -1)
  {
    assert SentOn(t, net, n, t.addr[n]) && SentOn(t, net, n', o);
    forall j | 0 <= j < |t.addr| ensures OwnerLeads(t, Apply(t, net, Originating(n)), j, n') {
      assert OwnerLeads(t, net, j, n') && OwnerLeads(t, net, j, n);
    }
  }

  lemma OriginatingKeepsInv(t: Topology, net: Net, n: nat)
    requires WellFormed(t) && Inv(t, net) && n < |t.intfs| && Fresh(t, net, Originating(n))
    ensures Inv(t, Apply(t, net, Originating(n)))
  {
    hide SentOk, SentOn, OwnerLeads, CaughtUp, MayTakeUp, FloodFrom;
    var q := NextQuery(t, net, n);
    var out := FloodFrom(n, t.intfs[n], 0, -1, q);
    var net' := Apply(t, net, Originating(n));
    RecordsAfterOriginating(t, net, n, n, 0);
    forall n', o ensures SentOn(t, net', n', o) {
      RecordsAfterOriginating(t, net, n, n', o);
    }
    forall m | m in net'.sent ensures SentOk(t, net', m) {
      SentAfterTakeUp(t, net, n, q, -1, m);
    }
    forall j, n' | 0 <= j < |t.addr| ensures OwnerLeads(t, net', j, n') {
      RecordsAfterOriginating(t, net, n, n', 0);
    }
    forall p, o | Live(t, p) ensures CaughtUp(t, net', p, o) {
      assert CaughtUp(t, net, p, o);
      CaughtUpAfterTakeUp(t, net, n, q, -1, p, o);
    }
    forall m | m in net'.wire ensures m in net'.sent {
      if m in net.wire {
        assert m in net.sent;
      } else {
        assert m in multiset(out);
      }
    }
  }

  lemma NumberingKeepsInv(t: Topology, net: Net, n: nat)
    requires WellFormed(t) && Inv(t, net) && n < |t.intfs| && Fresh(t, net, Numbering(n))
    ensures Inv(t, Apply(t, net, Numbering(n)))
  {
    var net' := Apply(t, net, Numbering(n));
    assert SentOn(t, net, n, t.addr[n]);
    forall n', o ensures SentOn(t, net', n', o) {
      assert SentOn(t, net, n', o);
    }
    forall m | m in net'.sent ensures SentOk(t, net', m) {
      assert SentOk(t, net, m);
    }
    forall j, n' | 0 <= j < |t.addr| ensures OwnerLeads(t, net', j, n') {
      assert OwnerLeads(t, net, j, n');
    }
    forall p, o | Live(t, p) ensures CaughtUp(t, net', p, o) {
      assert CaughtUp(t, net, p, o);
    }
  }

  /** Taking a delivered message off the wire costs at most the guarantee it stood for. */
  lemma CaughtUpWithout(t: Topology, net: Net, m: Msg, p: Port, o: int)
    requires WellFormed(t) && Live(t, p) && CaughtUp(t, net, p, o) && m in net.wire
    ensures CaughtUp(t, net.(wire := net.wire - multiset{m}), p, o)
      || (m.src == p && m.dst == IntfAt(t, p).peer && m.query == Query(o, net.Flooded(p.node, o)))
  {
  }

  lemma DroppingKeepsInv(t: Topology, net: Net, m: Msg)
    requires WellFormed(t) && Inv(t, net) && m in net.wire && IsPort(t, m.dst) && !Accepts(t, net, m)
    ensures Inv(t, Apply(t, net, Delivering(m)))
  {
    var net' := Apply(t, net, Delivering(m));
    forall n, o ensures SentOn(t, net', n, o) {
      assert SentOn(t, net, n, o);
    }
    forall m' | m' in net'.sent ensures SentOk(t, net', m') {
      assert SentOk(t, net, m');
    }
    forall j, n | 0 <= j < |t.addr| ensures OwnerLeads(t, net', j, n) {
      assert OwnerLeads(t, net, j, n);
    }
    forall p, o | Live(t, p) ensures CaughtUp(t, net', p, o) {
      var peer := IntfAt(t, p).peer;
      assert CaughtUp(t, net, p, o) && SentOn(t, net, peer.node, o);
      CaughtUpWithout(t, net, m, p, o);
      if t.addr[peer.node] == o {
        assert OwnerLeads(t, net, peer.node, p.node);
      }
    }
  }

  lemma AcceptedMayBeTakenUp(t: Topology, net: Net, m: Msg)
    requires WellFormed(t) && Inv(t, net) && m in net.wire && IsPort(t, m.dst) && Accepts(t, net, m)
    ensures MayTakeUp(t, net, m.dst.node, m.query, m.dst.idx)
  {
    assert m in net.sent && SentOk(t, net, m);
    assert IntfAt(t, IntfAt(t, m.src).peer).peer == m.src;
    assert SentOn(t, net, m.dst.node, m.query.originator);
    forall j | 0 <= j < |t.addr| && t.addr[j] == m.query.originator
      ensures m.query.seqNo <= net.Flooded(j, m.query.originator)
    {
      assert OwnerLeads(t, net, j, m.src.node) && SentOn(t, net, j, m.query.originator);
    }
  }

  lemma CaughtUpAfterAccept(t: Topology, net: Net, m: Msg, p: Port, o: int)
    requires WellFormed(t) && Inv(t, net) && m in net.wire && IsPort(t, m.dst) && Accepts(t, net, m) && Live(t, p)
    ensures CaughtUp(t, Apply(t, net, Delivering(m)), p, o)
  {
    var net0 := net.(wire := net.wire - multiset{m});
    AcceptedMayBeTakenUp(t, net, m);
    assert MayTakeUp(t, net0, m.dst.node, m.query, m.dst.idx);
    assert CaughtUp(t, net, p, o);
    CaughtUpWithout(t, net, m, p, o);
    CaughtUpAfterTakeUp(t, net0, m.dst.node, m.query, m.dst.idx, p, o);
  }

  lemma RecordsAfterAccept(t: Topology, net: Net, m: Msg, n: nat, o: int)
    requires WellFormed(t) && Inv(t, net) && m in net.wire && IsPort(t, m.dst) && Accepts(t, net, m)
    ensures SentOn(t, Apply(t, net, Delivering(m)), n, o)
    ensures forall j | 0 <= j < |t.addr| :: OwnerLeads(t, Apply(t, net, Delivering(m)), j, n)
  {
    var net0 := net.(wire := net.wire - multiset{m});
    AcceptedMayBeTakenUp(t, net, m);
    assert MayTakeUp(t, net0, m.dst.node, m.query, m.dst.idx);
    assert SentOn(t, net, n, o);
    forall j | 0 <= j < |t.addr| ensures OwnerLeads(t, Apply(t, net, Delivering(m)), j, n) {
      assert OwnerLeads(t, net, j, n);
      OwnerLeadsAfterTakeUp(t, net0, m.dst.node, m.query, m.dst.idx, j, n);
    }
  }

  lemma AcceptingKeepsInv(t: Topology, net: Net, m: Msg)
    requires WellFormed(t) && Inv(t, net) && m in net.wire && IsPort(t, m.dst) && Accepts(t, net, m)
    ensures Inv(t, Apply(t, net, Delivering(m)))
  {
    var n, q, except := m.dst.node, m.query, m.dst.idx;
    var out := FloodFrom(n, t.intfs[n], 0, except, q);
    var net' := Apply(t, net, Delivering(m));
    AcceptedMayBeTakenUp(t, net, m);
    hide CaughtUp, MayTakeUp, FloodFrom, Live, OwnerLeads, SentOn, Accepts;
    forall m' | m' in net'.sent ensures SentOk(t, net', m') {
      SentAfterTakeUp(t, net, n, q, except, m');
      assert SentOk(t, net.TakeUp(n, q, out), m');
    }
    forall n', o ensures SentOn(t, net', n', o) {
      RecordsAfterAccept(t, net, m, n', o);
    }
    forall j, n' | 0 <= j < |t.addr| ensures OwnerLeads(t, net', j, n') {
      RecordsAfterAccept(t, net, m, n', 0);
    }
    forall p, o | Live(t, p) ensures CaughtUp(t, net', p, o) {
      CaughtUpAfterAccept(t, net, m, p, o);
    }
    forall m' | m' in net'.wire ensures m' in net'.sent {
      if m' !in net.wire {
        assert m' in multiset(out);
      }
    }
  }

  /** Messages on the wire can be delivered: the destination is an interface of the topology. */
  lemma WireHasPorts(t: Topology, net: Net, m: Msg)
    requires WellFormed(t) && Inv(t, net) && m in net.wire
    ensures IsPort(t, m.dst) && IntfAt(t, m.dst).peer == m.src
  {
    assert net.wire[m] > 0;
    assert m in net.sent && SentOk(t, net, m);
    assert IsPort(t, IntfAt(t, m.src).peer);
  }

  lemma StepKeepsInv(t: Topology, net: Net, e: Event)
    requires WellFormed(t) && Inv(t, net) && Enabled(t, net, e) && Fresh(t, net, e)
    ensures e.Delivering? ==> IsPort(t, e.m.dst)
    ensures Inv(t, Apply(t, net, e))
  {
    match e
    case Originating(n) => OriginatingKeepsInv(t, net, n);
    case Numbering(n) => NumberingKeepsInv(t, net, n);
    case Delivering(m) =>
      WireHasPorts(t, net, m);
      if Accepts(t, net, m) {
        AcceptingKeepsInv(t, net, m);
      } else {
        DroppingKeepsInv(t, net, m);
      }
  }

  // ---- whole runs ----

  /** nets[0] is the empty network and every event leads from one state to the next. */
  ghost predicate IsRun(t: Topology, nets: seq<Net>, es: seq<Event>)
    requires WellFormed(t)
  {
    && |nets| == |es| + 1 && nets[0] == EMPTY
    && forall i {:trigger es[i]} | 0 <= i < |es| ::
         && Enabled(t, nets[i], es[i]) && Fresh(t, nets[i], es[i])
         && (es[i].Delivering? ==> IsPort(t, es[i].m.dst))
         && nets[i + 1] == Apply(t, nets[i], es[i])
  }

  lemma {:induction false} RunInv(t: Topology, nets: seq<Net>, es: seq<Event>, i: nat)
    requires WellFormed(t) && IsRun(t, nets, es) && i < |nets|
    ensures Inv(t, nets[i])
  {
    if i == 0 {
      InitInv(t);
    } else {
      RunInv(t, nets, es, i - 1);
      assert Enabled(t, nets[i - 1], es[i - 1]);
      StepKeepsInv(t, nets[i - 1], es[i - 1]);
    }
  }

  /** A chain of links, near ends first, over which queries get through: the near end of each is up, in layer 3
      mode and runs DDCP, the far end is in layer 3 mode and runs DDCP, and the next one starts at its node. */
  ghost predicate LivePath(t: Topology, path: seq<Port>, from: nat, to: nat)
    requires WellFormed(t)
  {
    if path == [] then from == to else
      && IsPort(t, path[0]) && path[0].node == from
      && IntfAt(t, path[0]).up && IntfAt(t, path[0]).l3 && IntfAt(t, path[0]).ddcp
      && var peer := IntfAt(t, path[0]).peer;
         IntfAt(t, peer).l3 && IntfAt(t, peer).ddcp && LivePath(t, path[1..], peer.node, to)
  }

  lemma {:induction false} RecordedAlongPath(t: Topology, net: Net, o: int, path: seq<Port>, from: nat, to: nat)
    requires WellFormed(t) && Inv(t, net) && LivePath(t, path, from, to)
    requires forall m | m in net.wire :: m.query.originator != o
    ensures net.Flooded(from, o) <= net.Flooded(to, o)
  {
    if path != [] {
      assert CaughtUp(t, net, path[0], o);
      RecordedAlongPath(t, net, o, path[1..], IntfAt(t, path[0]).peer.node, to);
    }
  }

  /** How many numbers node k has taken since it last sent out a query of its own, in the first i events. */
  ghost function InHand(es: seq<Event>, i: nat, k: nat): nat
    requires i <= |es|
  {
    if i == 0 then 0
    else if es[i - 1] == Originating(k) then 0
    else InHand(es, i - 1, k) + if es[i - 1] == Numbering(k) then 1 else 0
  }

  /** A query delivered to an interface is taken up and sent on if and only if the interface is in layer 3 mode and
      runs DDCP and the query is newer than what the node has; and never over the interface it came in on. */
  lemma DeliveredExactly(t: Topology, net: Net, m: Msg, m': Msg)
    requires WellFormed(t) && Inv(t, net) && m in net.wire
    ensures IsPort(t, m.dst)
    ensures var net', intf := Apply(t, net, Delivering(m)), IntfAt(t, m.dst);
      var accepted := intf.l3 && intf.ddcp && net.Rec(m.dst.node, m.query.originator) < m.query.seqNo;
      && (m' in net'.sent <==>
            || m' in net.sent
            || (accepted && m'.query == m.query && m'.src.node == m.dst.node
                && IsPort(t, m'.src) && m'.src != m.dst && m'.dst == IntfAt(t, m'.src).peer
                && IntfAt(t, m'.src).up && IntfAt(t, m'.src).l3 && IntfAt(t, m'.src).ddcp))
      && forall n, o :: net'.Rec(n, o) ==
           if accepted && n == m.dst.node && o == m.query.originator then m.query.seqNo else net.Rec(n, o)
  {
    WireHasPorts(t, net, m);
    var n := m.dst.node;
    FloodIs(n, t.intfs[n], 0, m.dst.idx, m.query, m');
    hide Inv, FloodFrom, WellFormed;
  }

  lemma NotOwnQuery(t: Topology, net: Net, m: Msg, k: nat)
    requires WellFormed(t) && Inv(t, net) && m in net.wire && IsPort(t, m.dst) && k < |t.addr|
    ensures Accepts(t, net, m) && m.dst.node == k ==> m.query.originator != t.addr[k]
  {
    hide CaughtUp, Live, Known;
    assert net.wire[m] > 0;
    assert SentOk(t, net, m) && OwnerLeads(t, net, k, m.src.node) && SentOn(t, net, k, t.addr[k]);
  }

  /** What an event does to node k's own number and to the last one it sent out. */
  lemma OwnNumberAfter(t: Topology, net: Net, e: Event, k: nat)
    requires WellFormed(t) && Inv(t, net) && Enabled(t, net, e) && Fresh(t, net, e) && k < |t.addr|
    requires e.Delivering? ==> IsPort(t, e.m.dst)
    ensures var a, net' := t.addr[k], Apply(t, net, e);
      && net'.Rec(k, a) == net.Rec(k, a) + (if e == Originating(k) || e == Numbering(k) then 1 else 0)
      && net'.Flooded(k, a) == if e == Originating(k) then net'.Rec(k, a) else net.Flooded(k, a)
  {
    hide CaughtUp, FloodFrom, Live, Hears, Known;
    assert SentOn(t, net, k, t.addr[k]);
    match e
    case Delivering(m) =>
      assert net.wire[m] > 0;
      NotOwnQuery(t, net, m, k);
    case _ =>
      assert e.n != k ==> t.addr[e.n] != t.addr[k];
  }

  lemma {:induction false} NumbersInHand(t: Topology, nets: seq<Net>, es: seq<Event>, i: nat, k: nat)
    requires WellFormed(t) && IsRun(t, nets, es) && i <= |es| && k < |t.addr|
    ensures nets[i].Rec(k, t.addr[k]) == nets[i].Flooded(k, t.addr[k]) + InHand(es, i, k)
  {
    hide Apply, Inv;
    if i > 0 {
      NumbersInHand(t, nets, es, i - 1, k);
      RunInv(t, nets, es, i - 1);
      assert Enabled(t, nets[i - 1], es[i - 1]);
      OwnNumberAfter(t, nets[i - 1], es[i - 1], k);
    }
  }

  /** Reliable flooding: in every reachable state in which no query of node k is on the wire, every other
      node that k reaches over live links has recorded exactly the last query that k sent out. */
  lemma FloodReachesAll(t: Topology, nets: seq<Net>, es: seq<Event>, i: nat, k: nat, n: nat, path: seq<Port>)
    requires WellFormed(t) && IsRun(t, nets, es) && i < |nets| && k < |t.addr| && n < |t.addr| && n != k
    requires LivePath(t, path, k, n)
    requires forall m | m in nets[i].wire :: m.query.originator != t.addr[k]
    ensures nets[i].Rec(n, t.addr[k]) == nets[i].Flooded(k, t.addr[k])
    ensures nets[i].Rec(n, t.addr[k]) == nets[i].Rec(k, t.addr[k]) <==> InHand(es, i, k) == 0
  {
    RunInv(t, nets, es, i);
    RecordedAlongPath(t, nets[i], t.addr[k], path, k, n);
    assert OwnerLeads(t, nets[i], k, n) && SentOn(t, nets[i], n, t.addr[k]);
    NumbersInHand(t, nets, es, i, k);
  }

  /** Where a request for periodic queries leaves the network: the node's own number is ahead of what its
      neighbours have, although nothing of it is on the wire, and stays so until it sends the next query. */
  lemma NumberingLeavesBehind(t: Topology, nets: seq<Net>, es: seq<Event>, i: nat, k: nat, p: Port)
    requires WellFormed(t) && IsRun(t, nets, es) && i < |es| && k < |t.addr| && es[i] == Numbering(k)
    requires forall m | m in nets[i].wire :: m.query.originator != t.addr[k]
    requires Live(t, p) && p.node == k && IntfAt(t, p).peer.node != k
    ensures forall m | m in nets[i + 1].wire :: m.query.originator != t.addr[k]
    ensures nets[i + 1].Rec(IntfAt(t, p).peer.node, t.addr[k]) < nets[i + 1].Rec(k, t.addr[k])
  {
    assert Enabled(t, nets[i], es[i]);
    assert LivePath(t, [p], k, IntfAt(t, p).peer.node);
    assert nets[i + 1].wire == nets[i].wire;
    FloodReachesAll(t, nets, es, i + 1, k, IntfAt(t, p).peer.node, [p]);
    RunInv(t, nets, es, i + 1);
    assert SentOn(t, nets[i + 1], k, t.addr[k]);
  }

  /** The shortest such run: a request for periodic queries in a network in which nothing has happened yet. */
  lemma AheadFromTheStart(t: Topology, k: nat, p: Port)
    requires WellFormed(t) && Live(t, p) && p.node == k && IntfAt(t, p).peer.node != k
    ensures var net := Apply(t, EMPTY, Numbering(k));
      && IsRun(t, [EMPTY, net], [Numbering(k)]) && net.wire == multiset{}
      && net.Rec(k, t.addr[k]) == 0 && net.Rec(IntfAt(t, p).peer.node, t.addr[k]) == -1
  {
    var net := Apply(t, EMPTY, Numbering(k));
    var nets, es := [EMPTY, net], [Numbering(k)];
    assert Enabled(t, nets[0], es[0]) && Fresh(t, nets[0], es[0]) && nets[1] == Apply(t, nets[0], es[0]);
  }

  /** The assertion in ddcp_db_should_process_ddcp_query never fails: a node that is handed its own query
      has a record of it. */
  lemma OwnQueryIsKnown(t: Topology, nets: seq<Net>, es: seq<Event>, i: nat, m: Msg, k: nat)
    requires WellFormed(t) && IsRun(t, nets, es) && i < |nets| && m in nets[i].wire
    requires k < |t.addr| && m.query.originator == t.addr[k]
    ensures nets[i].Rec(k, m.query.originator) >= m.query.seqNo >= 0
  {
    RunInv(t, nets, es, i);
    assert nets[i].wire[m] > 0;
    assert SentOk(t, nets[i], m) && OwnerLeads(t, nets[i], k, m.src.node) && SentOn(t, nets[i], k, m.query.originator);
  }

  /** A step lowers no recorded sequence number exactly when it does not wrap the originator's counter around. */
  lemma MonotoneUnlessWrapping(t: Topology, net: Net, e: Event)
    requires WellFormed(t) && Inv(t, net) && Enabled(t, net, e)
    ensures e.Delivering? ==> IsPort(t, e.m.dst)
    ensures (forall n, o {:trigger net.Rec(n, o)} :: net.Rec(n, o) <= Apply(t, net, e).Rec(n, o)) <==> Fresh(t, net, e)
  {
    hide FloodFrom, IsPort, Sends, Hears;
    match e
    case Delivering(m) =>
      WireHasPorts(t, net, m);
      hide Inv, WellFormed;
      var net' := Apply(t, net, e);
      forall n, o ensures net.Rec(n, o) <= net'.Rec(n, o) {}
    case _ =>
      var n, net' := e.n, Apply(t, net, e);
      var a := t.addr[n];
      assert SentOn(t, net, n, a);
      hide Inv, WellFormed;
      forall n', o ensures (n' != n || o != a) ==> net'.Rec(n', o) == net.Rec(n', o) {}
      assert net'.Rec(n, a) == (net.Rec(n, a) + 1) % SEQ_LIMIT;
  }

  /** What goes wrong otherwise: once the counter of n has wrapped, a neighbour that had caught up
      ignores the new query and stays with the number it has. */
  lemma WrappedQueryIsIgnored(t: Topology, net: Net, n: nat, p: Port)
    requires WellFormed(t) && Inv(t, net) && n < |t.intfs| && !Fresh(t, net, Originating(n))
    requires forall m | m in net.wire :: m.query.originator != t.addr[n]
    requires net.Flooded(n, t.addr[n]) >= 0
    requires Live(t, p) && p.node == n && IntfAt(t, p).peer.node != n
    ensures var peer := IntfAt(t, p).peer;
      var m := Msg(p, peer, Query(t.addr[n], 0));
      var net1 := Apply(t, net, Originating(n));
      && m in net1.wire && IsPort(t, peer)
      && var net2 := Apply(t, net1, Delivering(m));
         net2.Rec(n, t.addr[n]) == 0 && net2.Rec(peer.node, t.addr[n]) == net.Flooded(n, t.addr[n])
  {
    var o, peer := t.addr[n], IntfAt(t, p).peer;
    assert CaughtUp(t, net, p, o) && OwnerLeads(t, net, n, peer.node);
    assert SentOn(t, net, n, o) && SentOn(t, net, peer.node, o);
    var q := NextQuery(t, net, n);
    FloodIs(n, t.intfs[n], 0, -1, q, Msg(p, peer, q));
    assert Msg(p, peer, q) in multiset(FloodFrom(n, t.intfs[n], 0, -1, q));
    assert IntfAt(t, peer).peer == p;
  }

  // ---- how often ----

  /** The queries originated by the first i events of a run. */
  ghost function Queries(t: Topology, nets: seq<Net>, es: seq<Event>, i: nat): seq<Query>
    requires WellFormed(t) && IsRun(t, nets, es) && i <= |es|
  {
    if i == 0 then [] else
      Queries(t, nets, es, i - 1)
      + (match es[i - 1]
         case Originating(n) => assert Enabled(t, nets[i - 1], es[i - 1]); [NextQuery(t, nets[i - 1], n)]
         case _ => [])
  }

  ghost function Deliveries(es: seq<Event>, i: nat): nat
    requires i <= |es|
  {
    if i == 0 then 0 else Deliveries(es, i - 1) + if es[i - 1].Delivering? then 1 else 0
  }

  ghost predicate TakenOk(net: Net, x: (nat, Query))
  {
    x.1.seqNo <= net.Rec(x.0, x.1.originator)
  }

  /** Nothing is sent twice over one interface, nothing is taken up twice by one node, and every query
      about was once originated. */
  ghost predicate Hist(net: Net, qs: seq<Query>, delivered: nat)
  {
    && Distinct(net.sent) && Distinct(net.taken)
    && (forall x {:trigger TakenOk(net, x)} | x in net.taken :: TakenOk(net, x))
    && (forall m | m in net.sent :: m.query in qs)
    && |net.wire| + delivered == |net.sent|
  }

  lemma TakeUpKeepsHist(t: Topology, net: Net, n: nat, q: Query, except: int, qs: seq<Query>, delivered: nat)
    requires WellFormed(t) && n < |t.intfs| && q in qs
    requires net.Flooded(n, q.originator) <= net.Rec(n, q.originator) < q.seqNo
    requires forall m {:trigger SentOk(t, net, m)} | m in net.sent :: SentOk(t, net, m)
    requires Hist(net, qs, delivered)
    ensures Hist(net.TakeUp(n, q, FloodFrom(n, t.intfs[n], 0, except, q)), qs, delivered)
  {
    var out := FloodFrom(n, t.intfs[n], 0, except, q);
    var net' := net.TakeUp(n, q, out);
    FloodNoDup(n, t.intfs[n], 0, except, q);
    forall m | m in out ensures m !in net.sent && m.query == q {
      FloodIs(n, t.intfs[n], 0, except, q, m);
      assert m in net.sent ==> SentOk(t, net, m);
    }
    assert Distinct(net'.sent);
    assert (n, q) in net.taken ==> TakenOk(net, (n, q));
    assert Distinct(net'.taken);
    forall x | x in net'.taken ensures TakenOk(net', x) {
      assert x in net.taken ==> TakenOk(net, x);
    }
    assert |net'.wire| == |net.wire| + |out|;
  }

  lemma OriginatingKeepsHist(t: Topology, net: Net, n: nat, qs: seq<Query>, delivered: nat)
    requires WellFormed(t) && Inv(t, net) && n < |t.intfs| && Fresh(t, net, Originating(n)) && Hist(net, qs, delivered)
    ensures Hist(Apply(t, net, Originating(n)), qs + [NextQuery(t, net, n)], delivered)
  {
    var q := NextQuery(t, net, n);
    assert SentOn(t, net, n, t.addr[n]);
    assert Hist(net, qs + [q], delivered);
    TakeUpKeepsHist(t, net, n, q, -1, qs + [q], delivered);
  }

  lemma NumberingKeepsHist(t: Topology, net: Net, n: nat, qs: seq<Query>, delivered: nat)
    requires WellFormed(t) && Inv(t, net) && n < |t.intfs| && Fresh(t, net, Numbering(n)) && Hist(net, qs, delivered)
    ensures Hist(Apply(t, net, Numbering(n)), qs, delivered)
  {
    var net' := Apply(t, net, Numbering(n));
    assert SentOn(t, net, n, t.addr[n]);
    forall x | x in net'.taken ensures TakenOk(net', x) {
      assert TakenOk(net, x);
    }
  }

  lemma DeliveringKeepsHist(t: Topology, net: Net, m: Msg, qs: seq<Query>, delivered: nat)
    requires WellFormed(t) && Inv(t, net) && m in net.wire && IsPort(t, m.dst) && Hist(net, qs, delivered)
    ensures Hist(Apply(t, net, Delivering(m)), qs, delivered + 1)
  {
    var net0 := net.(wire := net.wire - multiset{m});
    assert |net0.wire| == |net.wire| - 1;
    assert net.wire[m] > 0;
    forall x | x in net0.taken ensures TakenOk(net0, x) {
      assert TakenOk(net, x);
    }
    assert Hist(net0, qs, delivered + 1);
    if Accepts(t, net, m) {
      assert SentOn(t, net, m.dst.node, m.query.originator);
      forall m' | m' in net0.sent ensures SentOk(t, net0, m') {
        assert SentOk(t, net, m');
      }
      TakeUpKeepsHist(t, net0, m.dst.node, m.query, m.dst.idx, qs, delivered + 1);
    }
  }

  lemma EmptyHist()
    ensures Hist(EMPTY, [], 0)
  {
  }

  lemma {:induction false} RunHist(t: Topology, nets: seq<Net>, es: seq<Event>, i: nat)
    requires WellFormed(t) && IsRun(t, nets, es) && i <= |es|
    ensures Hist(nets[i], Queries(t, nets, es, i), Deliveries(es, i))
  {
    hide Hist, Inv, Apply;
    if i > 0 {
      RunHist(t, nets, es, i - 1);
      RunInv(t, nets, es, i - 1);
      var net, qs, d := nets[i - 1], Queries(t, nets, es, i - 1), Deliveries(es, i - 1);
      assert Enabled(t, net, es[i - 1]) && nets[i] == Apply(t, net, es[i - 1]);
      match es[i - 1]
      case Originating(n) =>
        OriginatingKeepsHist(t, net, n, qs, d);
      case Numbering(n) =>
        NumberingKeepsHist(t, net, n, qs, d);
        assert Queries(t, nets, es, i) == qs;
      case Delivering(m) =>
        DeliveringKeepsHist(t, net, m, qs, d);
        assert Queries(t, nets, es, i) == qs;
    } else {
      EmptyHist();
    }
  }

  /** The interfaces a query was sent over, in order. */
  ghost function SentOver(sent: seq<Msg>, q: Query): seq<Port>
  {
    if sent == [] then [] else (if sent[0].query == q then [sent[0].src] else []) + SentOver(sent[1..], q)
  }

  ghost function DegreeSum(intfs: seq<seq<Intf>>): nat
  {
    if intfs == [] then 0 else DegreeSum(intfs[..|intfs| - 1]) + |intfs[|intfs| - 1]|
  }

  lemma {:induction false} SentOverPorts(sent: seq<Msg>, q: Query, p: Port)
    requires p in SentOver(sent, q)
    ensures exists m :: m in sent && m.src == p && m.query == q
  {
    if p in SentOver(sent[1..], q) {
      SentOverPorts(sent[1..], q, p);
      var m :| m in sent[1..] && m.src == p && m.query == q;
      assert m in sent;
    } else {
      assert sent[0] in sent;
    }
  }

  lemma {:induction false} NotSentOver(t: Topology, sent: seq<Msg>, m: Msg)
    requires WellFormed(t) && m !in sent && IsPort(t, m.src) && m.dst == IntfAt(t, m.src).peer
    requires forall m | m in sent :: IsPort(t, m.src) && m.dst == IntfAt(t, m.src).peer
    ensures m.src !in SentOver(sent, m.query)
  {
    if sent != [] {
      NotSentOver(t, sent[1..], m);
      assert sent[0] in sent;
    }
  }

  lemma {:induction false} SentOverNoDup(t: Topology, sent: seq<Msg>, q: Query)
    requires WellFormed(t) && Distinct(sent)
    requires forall m | m in sent :: IsPort(t, m.src) && m.dst == IntfAt(t, m.src).peer
    ensures Distinct(SentOver(sent, q))
  {
    if sent != [] {
      assert forall i, j | 0 <= i < j < |sent[1..]| :: sent[1..][i] == sent[i + 1] && sent[1..][j] == sent[j + 1];
      SentOverNoDup(t, sent[1..], q);
      assert sent[0] !in sent[1..];
      NotSentOver(t, sent[1..], sent[0]);
    }
  }

  ghost function PortsOfNode(n: nat, degree: nat): set<Port>
  {
    if degree == 0 then {} else PortsOfNode(n, degree - 1) + {Port(n, degree - 1)}
  }

  lemma {:induction false} PortsOfNodeCount(n: nat, degree: nat)
    ensures |PortsOfNode(n, degree)| == degree
    ensures forall p :: p in PortsOfNode(n, degree) <==> p.node == n && p.idx < degree
  {
    if degree > 0 {
      PortsOfNodeCount(n, degree - 1);
    }
  }

  ghost function AllPorts(intfs: seq<seq<Intf>>): set<Port>
  {
    if intfs == [] then {} else AllPorts(intfs[..|intfs| - 1]) + PortsOfNode(|intfs| - 1, |intfs[|intfs| - 1]|)
  }

  /** The sum of all degrees is the number of interfaces in the network. */
  lemma {:induction false} DegreeSumCounts(intfs: seq<seq<Intf>>)
    ensures |AllPorts(intfs)| == DegreeSum(intfs)
    ensures forall p :: p in AllPorts(intfs) <==> p.node < |intfs| && p.idx < |intfs[p.node]|
  {
    if intfs != [] {
      var last := |intfs| - 1;
      var before, here := AllPorts(intfs[..last]), PortsOfNode(last, |intfs[last]|);
      DegreeSumCounts(intfs[..last]);
      PortsOfNodeCount(last, |intfs[last]|);
      assert before !! here;
      assert |before + here| == |before| + |here|;
    }
  }

  lemma {:induction false} DistinctLength<T>(s: seq<T>, universe: set<T>)
    requires Distinct(s) && forall x | x in s :: x in universe
    ensures |s| <= |universe|
  {
    if s != [] {
      assert forall x | x in s[1..] :: x in s;
      assert s[0] !in s[1..];
      DistinctLength(s[1..], universe - {s[0]});
    }
  }

  /** One query: at most one transmission over every interface of the network, in any run. */
  lemma TransmissionsPerQuery(t: Topology, nets: seq<Net>, es: seq<Event>, i: nat, q: Query)
    requires WellFormed(t) && IsRun(t, nets, es) && i <= |es|
    ensures Distinct(SentOver(nets[i].sent, q))
    ensures |SentOver(nets[i].sent, q)| <= DegreeSum(t.intfs)
  {
    RunInv(t, nets, es, i);
    RunHist(t, nets, es, i);
    var sent := nets[i].sent;
    forall m | m in sent ensures IsPort(t, m.src) && m.dst == IntfAt(t, m.src).peer {
      assert SentOk(t, nets[i], m);
    }
    SentOverNoDup(t, sent, q);
    DegreeSumCounts(t.intfs);
    forall p | p in SentOver(sent, q) ensures p in AllPorts(t.intfs) {
      SentOverPorts(sent, q, p);
    }
    DistinctLength(SentOver(sent, q), AllPorts(t.intfs));
  }

  /** Every node takes up a query at most once, in any run. */
  lemma TakenOnce(t: Topology, nets: seq<Net>, es: seq<Event>, i: nat, j: nat, k: nat)
    requires WellFormed(t) && IsRun(t, nets, es) && i <= |es| && j < k < |nets[i].taken|
    ensures nets[i].taken[j] != nets[i].taken[k]
  {
    RunHist(t, nets, es, i);
  }

  ghost function TotalOver(sent: seq<Msg>, qs: seq<Query>): nat
  {
    if qs == [] then 0 else |SentOver(sent, qs[0])| + TotalOver(sent, qs[1..])
  }

  lemma {:induction false} TotalOverDrops(sent: seq<Msg>, qs: seq<Query>)
    requires sent != []
    ensures TotalOver(sent, qs) >= TotalOver(sent[1..], qs) + if sent[0].query in qs then 1 else 0
  {
    if qs != [] {
      TotalOverDrops(sent, qs[1..]);
    }
  }

  lemma {:induction false} TotalOverAll(sent: seq<Msg>, qs: seq<Query>)
    requires forall m | m in sent :: m.query in qs
    ensures |sent| <= TotalOver(sent, qs)
  {
    if sent != [] {
      TotalOverDrops(sent, qs);
      TotalOverAll(sent[1..], qs);
    }
  }

  lemma {:induction false} TotalOverBound(sent: seq<Msg>, qs: seq<Query>, bound: nat)
    requires forall q :: |SentOver(sent, q)| <= bound
    ensures TotalOver(sent, qs) <= |qs| * bound
  {
    if qs != [] {
      TotalOverBound(sent, qs[1..], bound);
    }
  }

  /** Every flood ends: however a run interleaves, the deliveries in it, and the transmissions, number
      at most the originated queries times the number of interfaces. */
  lemma {:induction false} FloodsTerminate(t: Topology, nets: seq<Net>, es: seq<Event>)
    requires WellFormed(t) && IsRun(t, nets, es)
    ensures Deliveries(es, |es|) <= |nets[|es|].sent| <= |Queries(t, nets, es, |es|)| * DegreeSum(t.intfs)
  {
    var n := |es|;
    var qs := Queries(t, nets, es, n);
    RunHist(t, nets, es, n);
    forall q ensures |SentOver(nets[n].sent, q)| <= DegreeSum(t.intfs) {
      TransmissionsPerQuery(t, nets, es, n, q);
    }
    TotalOverAll(nets[n].sent, qs);
    TotalOverBound(nets[n].sent, qs, DegreeSum(t.intfs));
  }
}
