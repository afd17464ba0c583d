/** The query flood of the Distributed Data Collection Protocol, server/Layer5/ddcp/ddcp.c.

    A node keeps the highest sequence number seen for every originator, passes a query on exactly
    when it is newer than that, and never back over the interface it came in on.  First the node,
    as an object; then the whole network, as steps over an arbitrary graph. */
module Ddcp {
  import opened Lists

  const MAX_INTF_PER_NODE: nat := 10
  const SEQ_LIMIT: int := 0x1_0000_0000

  /** One end of a link: the idx-th interface of a node. */
  datatype Port = Port(node: nat, idx: nat)

  datatype Intf = Intf(up: bool, l3: bool, ddcp: bool, peer: Port)

  datatype Query = Query(originator: int, seqNo: int)

  datatype Msg = Msg(src: Port, dst: Port, query: Query)

  datatype Entry = Entry(originator: int, seqNo: int)

  /** ddcp_send_ddcp_query_out and send_pkt_out let a query pass. */
  predicate Sends(intf: Intf)
  {
    intf.ddcp && intf.l3 && intf.up
  }

  // ---- one node ----

  /** The sequence number recorded for originator o, or -1. */
  function Last(db: seq<Entry>, o: int): int
  {
    if db == [] then -1 else if db[0].originator == o then db[0].seqNo else Last(db[1..], o)
  }

  ghost predicate Recorded(db: seq<Entry>)
  {
    && (forall i | 0 <= i < |db| :: 0 <= db[i].seqNo < SEQ_LIMIT)
    && (forall i, j | 0 <= i < j < |db| :: db[i].originator != db[j].originator)
  }

  /** The messages node n sends for a query over the interfaces from i on, except the one at index `except`. */
  function FloodFrom(n: nat, intfs: seq<Intf>, i: nat, except: int, q: Query): seq<Msg>
    requires i <= |intfs|
    decreases |intfs| - i
  {
    if i == |intfs| then [] else
      (if i != except && Sends(intfs[i]) then [Msg(Port(n, i), intfs[i].peer, q)] else [])
      + FloodFrom(n, intfs, i + 1, except, q)
  }

  /** A flood from interface i on holds the query on exactly the interfaces that are up, in layer 3 mode and run
      DDCP, the excluded one left out, addressed to the other end. */
  lemma {:induction false} FloodIs(n: nat, intfs: seq<Intf>, i: nat, except: int, q: Query, m: Msg)
    requires i <= |intfs|
    ensures m in FloodFrom(n, intfs, i, except, q) <==>
      && m.query == q && m.src.node == n && i <= m.src.idx < |intfs| && m.src.idx != except
      && intfs[m.src.idx].up && intfs[m.src.idx].l3 && intfs[m.src.idx].ddcp && m.dst == intfs[m.src.idx].peer
    decreases |intfs| - i
  {
    if i < |intfs| {
      FloodIs(n, intfs, i + 1, except, q, m);
    }
  }

  lemma {:induction false} FloodNoDup(n: nat, intfs: seq<Intf>, i: nat, except: int, q: Query)
    requires i <= |intfs|
    ensures Distinct(FloodFrom(n, intfs, i, except, q))
    ensures forall j, k | 0 <= j < k < |FloodFrom(n, intfs, i, except, q)| ::
      FloodFrom(n, intfs, i, except, q)[j].src.idx < FloodFrom(n, intfs, i, except, q)[k].src.idx
    decreases |intfs| - i
  {
    if i < |intfs| {
      FloodNoDup(n, intfs, i + 1, except, q);
      var rest := FloodFrom(n, intfs, i + 1, except, q);
      forall m | m in rest ensures i < m.src.idx {
        FloodIs(n, intfs, i + 1, except, q, m);
      }
      assert forall k | 0 <= k < |rest| :: rest[k] in rest;
    }
  }

  lemma {:induction false} LastAt(db: seq<Entry>, i: nat)
    requires Recorded(db) && i < |db|
    ensures Last(db, db[i].originator) == db[i].seqNo
  {
    if i > 0 {
      assert db[1..][i - 1] == db[i];
      LastAt(db[1..], i - 1);
    }
  }

  lemma {:induction false} LastAbsent(db: seq<Entry>, o: int)
    requires forall i | 0 <= i < |db| :: db[i].originator != o
    ensures Last(db, o) == -1
  {
    if db != [] {
      LastAbsent(db[1..], o);
    }
  }

  /** Raising one entry changes what is recorded for its originator and for no other. */
  lemma {:induction false} LastUpdated(db: seq<Entry>, i: nat, s: int, o: int)
    requires Recorded(db) && i < |db|
    ensures Last(db[i := db[i].(seqNo := s)], o) == if o == db[i].originator then s else Last(db, o)
  {
    var db' := db[i := db[i].(seqNo := s)];
    if i > 0 {
      assert db'[1..] == db[1..][i - 1 := db[i].(seqNo := s)];
      LastUpdated(db[1..], i - 1, s, o);
    } else {
      assert db'[1..] == db[1..];
      if o == db[0].originator {
      }
    }
  }

  lemma {:induction false} NotRecorded(db: seq<Entry>, o: int)
    requires Recorded(db) && Last(db, o) == -1
    ensures forall i | 0 <= i < |db| :: db[i].originator != o
  {
    forall i | 0 <= i < |db| ensures db[i].originator != o {
      LastAt(db, i);
    }
  }

  class DdcpNode {
    const id: nat
    const addr: int
    const intfs: seq<Intf>
    var queries: seq<Entry>
    var periodic: bool          // periodic_ddcp_query_wt_elem is set

    constructor (id: nat, addr: int, intfs: seq<Intf>)
      requires |intfs| <= MAX_INTF_PER_NODE
      ensures this.id == id && this.addr == addr && this.intfs == intfs && queries == [] && !periodic
    {
      this.id, this.addr, this.intfs, queries, periodic := id, addr, intfs, [], false;
    }

    /** ddcp_get_ddcp_db_query_info: the position of the originator's entry, -1 if there is none. */
    method GetQueryInfo(o: int) returns (i: int)
      requires Recorded(queries)
      ensures -1 <= i < |queries|
      ensures i >= 0 ==> queries[i].originator == o && Last(queries, o) == queries[i].seqNo
      ensures i < 0 <==> Last(queries, o) == -1
    {
      i := 0;
      while i < |queries|
        invariant 0 <= i <= |queries|
        invariant forall j | 0 <= j < i :: queries[j].originator != o
      {
        if queries[i].originator == o {
          LastAt(queries, i);
          return;
        }
        i := i + 1;
      }
      LastAbsent(queries, o);
      i := -1;
    }

    /** ddcp_update_ddcp_db_self_query_info: the next sequence number of the node's own queries. */
    method UpdateSelfQueryInfo() returns (s: int)
      requires Recorded(queries)
      modifies `queries
      ensures Recorded(queries)
      ensures s == (old(Last(queries, addr)) + 1) % SEQ_LIMIT
      ensures forall o :: Last(queries, o) == if o == addr then s else old(Last(queries, o))
    {
      var i := GetQueryInfo(addr);
      if i < 0 {
        queries := [Entry(addr, 0)] + queries;
        assert queries[1..] == old(queries);
        NotRecorded(old(queries), addr);
        return 0;
      }
      s := (queries[i].seqNo + 1) % SEQ_LIMIT;
      queries := queries[i := queries[i].(seqNo := s)];
      forall o ensures Last(queries, o) == if o == addr then s else old(Last(queries, o)) {
        LastUpdated(old(queries), i, s, o);
      }
    }

    /** ddcp_db_should_process_ddcp_query: accept, and record, exactly what is newer than everything seen. */
    method ShouldProcess(iif: nat, q: Query) returns (accepted: bool)
      requires Recorded(queries) && iif < |intfs| && 0 <= q.seqNo < SEQ_LIMIT
      requires q.originator == addr ==> Last(queries, addr) >= 0
      modifies `queries
      ensures Recorded(queries)
      ensures accepted <==> intfs[iif].ddcp && old(Last(queries, q.originator)) < q.seqNo
      ensures forall o :: Last(queries, o) == if accepted && o == q.originator then q.seqNo else old(Last(queries, o))
    {
      if !intfs[iif].ddcp {
        return false;
      }
      var i := GetQueryInfo(q.originator);
      if i < 0 {
        queries := [Entry(q.originator, q.seqNo)] + queries;
        assert queries[1..] == old(queries);
        NotRecorded(old(queries), q.originator);
        return true;
      }
      if queries[i].seqNo < q.seqNo {
        queries := queries[i := queries[i].(seqNo := q.seqNo)];
        forall o ensures Last(queries, o) == if o == q.originator then q.seqNo else old(Last(queries, o)) {
          LastUpdated(old(queries), i, q.seqNo, o);
        }
        return true;
      }
      return false;
    }

    /** ddcp_flood_ddcp_query_out. */
    method FloodQueryOut(except: int, q: Query) returns (out: seq<Msg>)
      ensures out == FloodFrom(id, intfs, 0, except, q)
      ensures forall m :: m in out <==>
        && m.query == q && m.src.node == id && m.src.idx < |intfs| && m.src.idx != except
        && intfs[m.src.idx].up && intfs[m.src.idx].l3 && intfs[m.src.idx].ddcp && m.dst == intfs[m.src.idx].peer
    {
      out := [];
      var i := 0;
      while i < |intfs|
        invariant 0 <= i <= |intfs|
        invariant out + FloodFrom(id, intfs, i, except, q) == FloodFrom(id, intfs, 0, except, q)
      {
        if i != except && Sends(intfs[i]) {
          out := out + [Msg(Port(id, i), intfs[i].peer, q)];
        }
        i := i + 1;
      }
      forall m {
        FloodIs(id, intfs, 0, except, q, m);
      }
    }

    /** ddcp_process_ddcp_query_msg, up to the unicast reply. */
    method ProcessQueryMsg(iif: nat, q: Query) returns (out: seq<Msg>)
      requires Recorded(queries) && iif < |intfs| && 0 <= q.seqNo < SEQ_LIMIT
      requires q.originator == addr ==> Last(queries, addr) >= 0
      modifies `queries
      ensures Recorded(queries)
      ensures var accepted := intfs[iif].ddcp && old(Last(queries, q.originator)) < q.seqNo;
        && out == (if accepted then FloodFrom(id, intfs, 0, iif, q) else [])
        && forall o :: Last(queries, o) == if accepted && o == q.originator then q.seqNo else old(Last(queries, o))
    {
      var accepted := ShouldProcess(iif, q);
      if !accepted {
        return [];
      }
      out := FloodQueryOut(iif, q);
    }

    /** ddcp_trigger_default_ddcp_query.  The node's next number is taken in any case; without an interval the
        query is flooded, with one nothing is sent and the timer for periodic queries runs from now on. */
    method TriggerQuery(interval: nat) returns (out: seq<Msg>)
      requires Recorded(queries)
      modifies `queries, `periodic
      ensures Recorded(queries)
      ensures periodic == (old(periodic) || interval != 0)
      ensures var s := (old(Last(queries, addr)) + 1) % SEQ_LIMIT;
        && out == (if interval == 0 then FloodFrom(id, intfs, 0, -1, Query(addr, s)) else [])
        && forall o :: Last(queries, o) == if o == addr then s else old(Last(queries, o))
    {
      var s := UpdateSelfQueryInfo();
      out := [];
      if interval == 0 {
        out := FloodQueryOut(-1, Query(addr, s));
      } else {
        if periodic {
          return;
        }
        periodic := true;
      }
    }

    /** wrapper_ddcp_flood_ddcp_query_out, when the timer of a periodic query fires: another number is taken
        and that query is flooded. */
    method TimerFires() returns (out: seq<Msg>)
      requires Recorded(queries) && periodic
      modifies `queries
      ensures Recorded(queries)
      ensures var s := (old(Last(queries, addr)) + 1) % SEQ_LIMIT;
        && out == FloodFrom(id, intfs, 0, -1, Query(addr, s))
        && forall o :: Last(queries, o) == if o == addr then s else old(Last(queries, o))
    {
      var s := UpdateSelfQueryInfo();
      out := FloodQueryOut(-1, Query(addr, s));
    }
  }
}
