/** The slot lists of a timing wheel as values: which element stands on which list, and where. */
module WheelSlots {
  import opened Arithmetic
  import opened Deadlines
  import opened Lists

  /** One slot list: exactly the elements due at a tick of this residue, each once, by cycle number. */
  ghost predicate SlotOk<E>(s: seq<E>, due: map<E, nat>, n: nat, i: nat)
    requires 0 < n
  {
    && (forall a | 0 <= a < |s| :: s[a] in due && due[s[a]] % n == i)
    && (forall a, b | 0 <= a < b < |s| :: s[a] != s[b] && due[s[a]] / n <= due[s[b]] / n)
    && (forall e | e in due && due[e] % n == i :: e in s)
  }

  ghost predicate SlotsOk<E>(slots: seq<seq<E>>, due: map<E, nat>, n: nat)
    requires 0 < n
  {
    |slots| == n && forall i {:trigger SlotOk(slots[i], due, n, i)} | 0 <= i < n :: SlotOk(slots[i], due, n, i)
  }

  /** The list of requests: exactly the elements with one, each once. */
  ghost predicate ListOk<E>(s: seq<E>, pending: map<E, Op>)
  {
    && (forall a | 0 <= a < |s| :: s[a] in pending)
    && (forall a, b | 0 <= a < b < |s| :: s[a] != s[b])
    && (forall e | e in pending :: e in s)
  }

  lemma CutSlot<E>(s: seq<E>, due: map<E, nat>, n: nat, i: nat, k: nat)
    requires 0 < n && SlotOk(s, due, n, i) && k < |s|
    ensures SlotOk(Cut(s, k), due - {s[k]}, n, i)
  {
  }

  lemma CutList<E>(s: seq<E>, pending: map<E, Op>, k: nat)
    requires ListOk(s, pending) && k < |s|
    ensures ListOk(Cut(s, k), pending - {s[k]})
  {
  }

  lemma WithoutSlot<E>(s: seq<E>, due: map<E, nat>, n: nat, i: nat, e: E)
    requires 0 < n && SlotOk(s, due, n, i) && e in due && due[e] % n == i
    ensures SlotOk(Without(s, e), due - {e}, n, i)
  {
    hide Cut, IndexOf;
    CutSlot(s, due, n, i, IndexOf(s, e));
  }

  lemma WithoutList<E>(s: seq<E>, pending: map<E, Op>, e: E)
    requires ListOk(s, pending)
    ensures ListOk(Without(s, e), pending - {e})
  {
    hide Cut, IndexOf;
    if e in s {
      CutList(s, pending, IndexOf(s, e));
    } else {
      assert pending - {e} == pending;
    }
  }

  lemma ConsList<E>(s: seq<E>, pending: map<E, Op>, e: E, op: Op)
    requires ListOk(s, pending) && e !in pending
    ensures ListOk([e] + s, pending[e := op])
  {
  }

  /** Where glthread_priority_insert puts an element: behind all those of the same or an earlier cycle. */
  ghost predicate Belongs<E>(s: seq<E>, due: map<E, nat>, n: nat, p: nat, d: nat)
    requires 0 < n && p <= |s| && forall a | 0 <= a < |s| :: s[a] in due
  {
    && (forall a | 0 <= a < p :: due[s[a]] / n <= d / n)
    && (forall a | p <= a < |s| :: d / n < due[s[a]] / n)
  }

  lemma InsertSlot<E>(s: seq<E>, due: map<E, nat>, n: nat, i: nat, p: nat, e: E, d: nat)
    requires 0 < n && SlotOk(s, due, n, i) && e !in due && d % n == i
    requires p <= |s| && Belongs(s, due, n, p, d)
    ensures SlotOk(Put(s, p, e), due[e := d], n, i)
  {
  }

  lemma OtherSlotWithout<E>(s: seq<E>, due: map<E, nat>, n: nat, i: nat, e: E)
    requires 0 < n && SlotOk(s, due, n, i) && e in due && due[e] % n != i
    ensures SlotOk(s, due - {e}, n, i)
  {
  }

  lemma OtherSlotInsert<E>(s: seq<E>, due: map<E, nat>, n: nat, i: nat, e: E, d: nat)
    requires 0 < n && SlotOk(s, due, n, i) && e !in due && d % n != i
    ensures SlotOk(s, due[e := d], n, i)
  {
  }

  lemma WithoutSlots<E>(slots: seq<seq<E>>, due: map<E, nat>, n: nat, e: E)
    requires 0 < n && SlotsOk(slots, due, n) && e in due
    ensures var i := due[e] % n; 0 <= i < n && SlotsOk(slots[i := Without(slots[i], e)], due - {e}, n)
  {
    var i := due[e] % n;
    var slots' := slots[i := Without(slots[i], e)];
    hide Without, SlotOk;
    assert SlotOk(slots[i], due, n, i);
    WithoutSlot(slots[i], due, n, i, e);
    forall j | 0 <= j < n ensures SlotOk(slots'[j], due - {e}, n, j) {
      assert SlotOk(slots[j], due, n, j);
      if j != i {
        OtherSlotWithout(slots[j], due, n, j, e);
      }
    }
  }

  lemma InsertSlots<E>(slots: seq<seq<E>>, due: map<E, nat>, n: nat, p: nat, e: E, d: nat)
    requires 0 < n && SlotsOk(slots, due, n) && e !in due
    requires SlotOk(slots[d % n], due, n, d % n) && p <= |slots[d % n]| && Belongs(slots[d % n], due, n, p, d)
    ensures var i := d % n; var s := slots[i]; SlotsOk(slots[i := Put(s, p, e)], due[e := d], n)
  {
    var i := d % n;
    var s := slots[i];
    var slots' := slots[i := Put(s, p, e)];
    hide Put, SlotOk, Belongs;
    InsertSlot(s, due, n, i, p, e, d);
    forall j | 0 <= j < n ensures SlotOk(slots'[j], due[e := d], n, j) {
      assert SlotOk(slots[j], due, n, j);
      if j != i {
        OtherSlotInsert(slots[j], due, n, j, e, d);
      }
    }
  }

  ghost predicate NothingDue<E>(s: seq<E>, due: map<E, nat>, now: nat)
  {
    forall a | 0 <= a < |s| :: s[a] in due && due[s[a]] != now
  }

  /** Same slot, later tick, later cycle. */
  lemma LaterCycle(d: nat, now: nat, n: nat)
    requires 0 < n && d % n == now % n
    ensures d > now <==> d / n > now / n
    ensures d == now <==> d / n == now / n
  {
  }

  /** A slot list whose head is not of the current cycle holds nothing to submit. */
  lemma HeadNotDue<E>(s: seq<E>, due: map<E, nat>, n: nat, now: nat)
    requires 0 < n && SlotOk(s, due, n, now % n) && s != []
    requires due[s[0]] > now
    ensures NothingDue(s, due, now)
  {
    LaterCycle(due[s[0]], now, n);
    forall a | 0 <= a < |s| ensures due[s[a]] != now {
      LaterCycle(due[s[a]], now, n);
    }
  }

  /** Where the walk along a slot list stands: at its head, or past everything to submit. */
  ghost predicate Walking<E>(s: seq<E>, due: map<E, nat>, now: nat, curr: E)
  {
    curr in s && (curr == s[0] || NothingDue(s, due, now))
  }

  /** When the head is taken off, and perhaps put back for a later tick, the walk goes on at what followed it. */
  lemma WalkOn<E>(s: seq<E>, s': seq<E>, due': map<E, nat>, n: nat, now: nat, at: nat)
    requires 0 < n && s != []
    requires s' == Without(s, s[0])
      || (at < |s| && s' == Put(Without(s, s[0]), at, s[0]) && s[0] in due' && now < due'[s[0]])
    requires SlotOk(s', due', n, now % n)
    ensures |s| > 1 ==> Walking(s', due', now, s[1])
    ensures |s| == 1 ==> NothingDue(s', due', now)
  {
    assert IndexOf(s, s[0]) == 0;
    assert Without(s, s[0]) == s[1..];
    hide Without, IndexOf;
    if s' == s[1..] {
    } else if at == 0 {
      assert s'[0] == s[0];
      HeadNotDue(s', due', n, now);
      assert |s| > 1 ==> s'[1] == s[1];
    } else {
      assert s'[0] == s[1];
    }
  }

  lemma StillThere<E>(s: seq<E>, p: Plain<E>, done: set<E>, n: nat, e: E)
    requires 0 < n && p.due.Keys <= p.every.Keys && SlotOk(s, Fired(p, done).due, n, p.now % n)
    requires e in DueNow(p) - done
    ensures !NothingDue(s, Fired(p, done).due, p.now)
  {
    assert e in Fired(p, done).due && e in s;
  }

  /** When nothing due stands on the slot of the current tick, everything due was submitted. */
  lemma AllSubmitted<E>(slots: seq<seq<E>>, p: Plain<E>, done: set<E>, n: nat)
    requires 0 < n && p.due.Keys <= p.every.Keys && SlotsOk(slots, Fired(p, done).due, n)
    requires 0 <= p.now % n < |slots|
    ensures NothingDue(slots[p.now % n], Fired(p, done).due, p.now) ==> DueNow(p) <= done
  {
    assert SlotOk(slots[p.now % n], Fired(p, done).due, n, p.now % n);
    hide SlotOk, SlotsOk, NothingDue, Fired, DueNow;
    if !(DueNow(p) <= done) {
      var e :| e in DueNow(p) && e !in done;
      StillThere(slots[p.now % n], p, done, n, e);
    }
  }

  /** The clock hand one tick further. */
  lemma NextHand(now: nat, n: nat)
    requires 0 < n
    ensures now % n + 1 == n ==> (now + 1) % n == 0 && (now + 1) / n == now / n + 1
    ensures now % n + 1 < n ==> (now + 1) % n == now % n + 1 && (now + 1) / n == now / n
  {
    assert now == now % n + n * (now / n);
    if now % n + 1 == n {
      Remainder(now + 1, n, now / n + 1, 0);
    } else {
      Remainder(now + 1, n, now / n, now % n + 1);
    }
  }

  /** Nothing is overdue, and what repeats does so after at least one tick. */
  ghost predicate OnTime<E>(p: Plain<E>)
    requires p.due.Keys <= p.every.Keys
  {
    forall e | e in p.due :: p.now <= p.due[e] && 0 < p.every[e]
  }

  lemma FiredOnTime<E>(p: Plain<E>, done: set<E>)
    requires p.due.Keys <= p.every.Keys && OnTime(p)
    ensures Fired(p, done).due.Keys <= Fired(p, done).every.Keys && OnTime(Fired(p, done))
  {
  }

  /** An element of the current cycle on the slot of the current tick is due, and stands at its head. */
  lemma AtHead<E>(s: seq<E>, p: Plain<E>, n: nat, curr: E)
    requires 0 < n && p.due.Keys <= p.every.Keys && OnTime(p)
    requires SlotOk(s, p.due, n, p.now % n) && Walking(s, p.due, p.now, curr)
    ensures curr in p.due
    ensures p.due[curr] / n == p.now / n ==> p.due[curr] == p.now && curr == s[0]
    ensures p.due[curr] / n != p.now / n ==> NothingDue(s, p.due, p.now)
  {
    LaterCycle(p.due[curr], p.now, n);
    if p.due[curr] / n != p.now / n && curr == s[0] {
      HeadNotDue(s, p.due, n, p.now);
    }
  }

  // ---- what happens to the elements one by one adds up ----

  lemma FiredOneMore<E>(p: Plain<E>, done: set<E>, e: E)
    requires p.due.Keys <= p.every.Keys && e in p.due && e !in done && done <= p.due.Keys
    ensures Fired(Fired(p, done), {e}) == Fired(p, done + {e})
  {
  }

  lemma SettledTwice<E>(p: Plain<E>, done: set<E>, e: E)
    requires e in p.pending && e !in done && done <= p.pending.Keys
    ensures var s := Settled(p, done);
      e in s.pending && s.pending[e] == p.pending[e] && s.now == p.now
  {
  }

  lemma SameLive<E>(p: Plain<E>, done: set<E>, e: E)
    requires e in p.pending && e !in done && done <= p.pending.Keys && e in Settled(p, done).pending
    ensures Settled(Settled(p, done), {e}).live == Settled(p, done + {e}).live
  {
  }

  lemma SameDue<E>(p: Plain<E>, done: set<E>, e: E)
    requires e in p.pending && e !in done && done <= p.pending.Keys && e in Settled(p, done).pending
    ensures Settled(Settled(p, done), {e}).due == Settled(p, done + {e}).due
  {
    SettledTwice(p, done, e);
    var q, r := Settled(Settled(p, done), {e}).due, Settled(p, done + {e}).due;
    assert forall x :: x in q <==> x in r;
    assert forall x | x in q :: q[x] == r[x];
  }

  lemma SameEvery<E>(p: Plain<E>, done: set<E>, e: E)
    requires e in p.pending && e !in done && done <= p.pending.Keys && e in Settled(p, done).pending
    ensures Settled(Settled(p, done), {e}).every == Settled(p, done + {e}).every
  {
  }

  lemma SettledOneMore<E>(p: Plain<E>, done: set<E>, e: E)
    requires e in p.pending && e !in done && done <= p.pending.Keys
    ensures e in Settled(p, done).pending
    ensures Settled(Settled(p, done), {e}) == Settled(p, done + {e})
  {
    SettledTwice(p, done, e);
    SameLive(p, done, e);
    SameDue(p, done, e);
    SameEvery(p, done, e);
    var q, r := Settled(Settled(p, done), {e}), Settled(p, done + {e});
    assert q.pending == r.pending;
  }

  lemma SettledSet<E>(p: Plain<E>, e: E)
    requires e in p.pending && p.pending[e].Set?
    ensures var k := p.pending[e].ticks;
      Settled(p, {e}) == p.(due := (p.due - {e})[e := p.now + k], every := p.every[e := k], pending := p.pending - {e})
  {
  }

  lemma SettledDelete<E>(p: Plain<E>, e: E)
    requires e in p.pending && p.pending[e].Delete?
    ensures Settled(p, {e}) == p.(due := p.due - {e}, live := p.live - {e}, pending := p.pending - {e})
  {
  }

  lemma ListTail<E>(s: seq<E>, pending: map<E, Op>)
    requires ListOk(s, pending) && s != []
    ensures ListOk(s[1..], pending - {s[0]})
  {
  }

  lemma FiredOne<E>(p: Plain<E>, e: E)
    requires p.due.Keys <= p.every.Keys && e in p.due
    ensures Fired(p, {e}) ==
      p.(due := if e in p.repeats then (p.due - {e})[e := p.now + p.every[e]] else p.due - {e})
  {
  }
}
