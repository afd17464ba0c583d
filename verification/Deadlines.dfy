/** What a timing wheel is for, with no wheel in it: a plain record of which element is due at which
    tick, and the operations asked for since the last tick. */
module Deadlines {
  import opened Arithmetic

  /** WTELEM_CREATE and WTELEM_RESCHED ask for a new interval, in ticks; WTELEM_DELETE for the end. */
  datatype Op = Set(ticks: nat) | Delete

  datatype Plain<E> = Plain(
    now: nat,                 // ticks since the start
    live: set<E>,             // elements registered and not yet freed
    repeats: set<E>,
    due: map<E, nat>,         // the tick at which each waiting element is submitted next
    every: map<E, nat>,       // the interval, in ticks, last put into effect
    pending: map<E, Op>,      // what was asked for since the last tick
    args: map<E, nat>)        // the application data, 0 for none

  ghost predicate Ok<E>(p: Plain<E>)
  {
    && p.due.Keys <= p.live && p.due.Keys <= p.every.Keys && p.pending.Keys <= p.live && p.live <= p.args.Keys
    && (forall e | e in p.due :: p.now < p.due[e] && 0 < p.every[e])
    && (forall e | e in p.pending && p.pending[e].Set? :: 0 < p.pending[e].ticks)
    && (forall e | e in p.live :: e in p.due || e in p.pending || e !in p.repeats)
  }

  // ---- one tick ----

  /** The elements submitted when the clock shows p.now. */
  ghost function DueNow<E>(p: Plain<E>): set<E>
  {
    set e | e in p.due && p.due[e] == p.now
  }

  /** The elements of done have been submitted: those that repeat are due again one interval later. */
  ghost function Fired<E>(p: Plain<E>, done: set<E>): Plain<E>
    requires p.due.Keys <= p.every.Keys
  {
    p.(due := map e | e in p.due && (e !in done || e in p.repeats) ::
                if e in done then p.now + p.every[e] else p.due[e])
  }

  /** What was asked for the elements of done has been put into effect. */
  ghost function Settled<E>(p: Plain<E>, done: set<E>): Plain<E>
    requires done <= p.pending.Keys
  {
    p.(live := p.live - (set e | e in done && p.pending[e].Delete?),
       due := map e | e in p.due.Keys + done && (e in done ==> p.pending[e].Set?) ::
                if e in done then p.now + p.pending[e].ticks else p.due[e],
       every := map e | e in p.every.Keys + done && (e in done && p.pending[e].Delete? ==> e in p.every) ::
                  if e in done && p.pending[e].Set? then p.pending[e].ticks else p.every[e],
       pending := map e | e in p.pending && e !in done :: p.pending[e])
  }

  ghost function Advanced<E>(p: Plain<E>): Plain<E>
  {
    p.(now := p.now + 1)
  }

  /** A whole tick: the clock advances, what is due is submitted, what was asked for takes effect. */
  ghost function Ticked<E>(p: Plain<E>): Plain<E>
    requires p.due.Keys <= p.every.Keys
  {
    var fired := Fired(Advanced(p), DueNow(Advanced(p)));
    Settled(fired, fired.pending.Keys)
  }

  // ---- the requests ----

  ghost function Registered<E>(p: Plain<E>, e: E, ticks: nat, repeat: bool, arg: nat): Plain<E>
  {
    p.(live := p.live + {e}, repeats := if repeat then p.repeats + {e} else p.repeats - {e},
       pending := p.pending[e := Set(ticks)], args := p.args[e := arg])
  }

  ghost function Rescheduled<E>(p: Plain<E>, e: E, ticks: nat): Plain<E>
  {
    p.(pending := p.pending[e := Set(ticks)])
  }

  ghost function DeRegistered<E>(p: Plain<E>, e: E): Plain<E>
  {
    p.(pending := p.pending[e := Delete], args := p.args[e := 0])
  }

  /** wt_elem_get_and_set_app_data. */
  ghost function Rearmed<E>(p: Plain<E>, e: E, arg: nat): Plain<E>
  {
    p.(args := p.args[e := arg])
  }

  // ---- whole runs ----

  datatype Event<E> =
    | Tick
    | Register(e: E, ticks: nat, repeat: bool, arg: nat)
    | Reschedule(e: E, ticks: nat)
    | DeRegister(e: E)
    | SetArg(e: E, arg: nat)

  ghost predicate Enabled<E>(p: Plain<E>, v: Event<E>)
  {
    match v
    case Tick => true
    case Register(e, ticks, _, _) => e !in p.live && 0 < ticks
    case Reschedule(e, ticks) => e in p.live && 0 < ticks
    case DeRegister(e) => e in p.live
    case SetArg(e, _) => e in p.live
  }

  ghost function Apply<E>(p: Plain<E>, v: Event<E>): Plain<E>
    requires Ok(p)
  {
    match v
    case Tick => Ticked(p)
    case Register(e, ticks, repeat, arg) => Registered(p, e, ticks, repeat, arg)
    case Reschedule(e, ticks) => Rescheduled(p, e, ticks)
    case DeRegister(e) => DeRegistered(p, e)
    case SetArg(e, arg) => Rearmed(p, e, arg)
  }

  /** The step from p to q is a move of the record, as event v. */
  ghost predicate Moves<E>(p: Plain<E>, q: Plain<E>, v: Event<E>)
  {
    Ok(p) && Enabled(p, v) && q == Apply(p, v)
  }

  lemma TickKeepsOk<E>(p: Plain<E>)
    requires Ok(p)
    ensures Ok(Ticked(p))
  {
  }

  lemma StepKeepsOk<E>(p: Plain<E>, v: Event<E>)
    requires Ok(p) && Enabled(p, v)
    ensures Ok(Apply(p, v))
  {
    if v.Tick? {
      TickKeepsOk(p);
    } else {
      hide Ticked;
    }
  }

  ghost predicate Follows<E>(ps: seq<Plain<E>>, vs: seq<Event<E>>, i: nat)
    requires i < |vs| < |ps|
  {
    Moves(ps[i], ps[i + 1], vs[i])
  }

  ghost predicate IsRun<E>(ps: seq<Plain<E>>, vs: seq<Event<E>>)
  {
    && |ps| == |vs| + 1
    && Ok(ps[0])
    && (forall i {:trigger Follows(ps, vs, i)} | 0 <= i < |vs| :: Follows(ps, vs, i))
  }

  lemma {:induction false} RunOk<E>(ps: seq<Plain<E>>, vs: seq<Event<E>>, j: nat)
    requires IsRun(ps, vs) && j <= |vs|
    ensures Ok(ps[j])
  {
    if j > 0 {
      assert Follows(ps, vs, j - 1);
      hide Ok, Enabled, Apply;
      StepKeepsOk(ps[j - 1], vs[j - 1]);
    }
  }

  /** In steps i up to j nothing is asked for element e. */
  ghost predicate Untouched<E>(vs: seq<Event<E>>, e: E, i: nat, j: nat)
    requires j <= |vs|
  {
    forall m | i <= m < j :: vs[m].Tick? || vs[m].e != e
  }

  ghost predicate Submitted<E>(p: Plain<E>, e: E)
  {
    e in DueNow(Advanced(p))
  }

  /** A tick as one element sees it. */
  lemma TickAt<E>(p: Plain<E>, e: E)
    requires Ok(p)
    ensures Ticked(p).now == p.now + 1
    ensures e !in Ticked(p).pending && Ticked(p).args == p.args && Ticked(p).repeats == p.repeats
    ensures e in p.pending && p.pending[e].Set? ==>
      e in Ticked(p).due && Ticked(p).due[e] == p.now + 1 + p.pending[e].ticks &&
      e in Ticked(p).every && Ticked(p).every[e] == p.pending[e].ticks
    ensures e in p.pending && p.pending[e].Delete? ==> e !in Ticked(p).due && e !in Ticked(p).live
    ensures e !in p.pending && e in p.due ==>
      && e in Ticked(p).every && Ticked(p).every[e] == p.every[e]
      && (p.now + 1 < p.due[e] ==> e in Ticked(p).due && Ticked(p).due[e] == p.due[e])
      && (p.due[e] == p.now + 1 && e in p.repeats ==> e in Ticked(p).due && Ticked(p).due[e] == p.due[e] + p.every[e])
      && (p.due[e] == p.now + 1 && e !in p.repeats ==> e !in Ticked(p).due)
    ensures e !in p.pending && e !in p.due ==> e !in Ticked(p).due
    ensures e !in p.pending ==> (e in Ticked(p).live <==> e in p.live)
  {
  }

  /** Any other step that does not concern element e. */
  lemma OtherAt<E>(p: Plain<E>, v: Event<E>, e: E)
    requires Ok(p) && Enabled(p, v) && !v.Tick? && v.e != e
    ensures var q := Apply(p, v);
      && q.now == p.now && q.due == p.due && q.every == p.every
      && (e in q.pending <==> e in p.pending) && (e in p.pending ==> q.pending[e] == p.pending[e])
      && (e in q.repeats <==> e in p.repeats) && (e in q.live <==> e in p.live)
      && (e in p.args ==> e in q.args && q.args[e] == p.args[e])
  {
  }

  /** Element e was put on the clock at tick base, to be submitted every k ticks, or once. */
  ghost predicate OnCourse<E>(p: Plain<E>, e: E, base: nat, k: nat)
    requires 0 < k
  {
    && base <= p.now && e !in p.pending
    && (e in p.repeats ==>
          e in p.due && e in p.every && p.every[e] == k && p.now < p.due[e] <= p.now + k && (p.due[e] - base) % k == 0)
    && (e !in p.repeats ==>
          if p.now < base + k then e in p.due && p.due[e] == base + k else e !in p.due)
  }

  lemma OnCourseTick<E>(p: Plain<E>, e: E, base: nat, k: nat)
    requires Ok(p) && 0 < k && OnCourse(p, e, base, k)
    ensures OnCourse(Ticked(p), e, base, k)
  {
    TickAt(p, e);
    hide Ticked;
    if e in p.due && p.due[e] == p.now + 1 {
      Periodic(p.due[e] - base, k);
    }
  }

  lemma OnCourseSubmitted<E>(p: Plain<E>, e: E, base: nat, k: nat)
    requires Ok(p) && 0 < k && OnCourse(p, e, base, k)
    ensures var t := p.now + 1;
      Submitted(p, e) <==> if e in p.repeats then (t - base) % k == 0 else t == base + k
  {
    var t := p.now + 1;
    if e in p.repeats && (t - base) % k == 0 && p.due[e] != t {
      Periodic(t - base, k);
      if p.due[e] - base <= t - base + k {
        NoneBetween(t - base, p.due[e] - base, k);
      }
    }
  }

  /** What holds of element e after step i asked for an interval of k ticks and nothing was asked since. */
  ghost predicate Asked<E>(p: Plain<E>, e: E, t: nat, k: nat)
    requires 0 < k
  {
    if p.now == t then e in p.pending && p.pending[e] == Set(k) else OnCourse(p, e, t + 1, k)
  }

  lemma AskedStep<E>(p: Plain<E>, v: Event<E>, e: E, t: nat, k: nat)
    requires Ok(p) && Enabled(p, v) && 0 < k && t <= p.now && Asked(p, e, t, k)
    requires v.Tick? || v.e != e
    ensures Asked(Apply(p, v), e, t, k)
    ensures e in p.repeats <==> e in Apply(p, v).repeats
    ensures p.now <= Apply(p, v).now
  {
    if v.Tick? {
      TickAt(p, e);
      if p.now > t {
        OnCourseTick(p, e, t + 1, k);
      } else {
        Remainder(k, k, 1, 0);
      }
    } else {
      OtherAt(p, v, e);
    }
    hide Ticked;
  }

  lemma {:induction false} AskedRun<E>(ps: seq<Plain<E>>, vs: seq<Event<E>>, e: E, i: nat, j: nat, t: nat, k: nat)
    requires IsRun(ps, vs) && i <= j <= |vs| && 0 < k
    requires Untouched(vs, e, i, j)
    requires t <= ps[i].now && Asked(ps[i], e, t, k)
    ensures t <= ps[j].now && Asked(ps[j], e, t, k)
    ensures e in ps[i].repeats <==> e in ps[j].repeats
  {
    if i < j {
      AskedRun(ps, vs, e, i, j - 1, t, k);
      assert Follows(ps, vs, j - 1);
      hide Apply, Enabled, Asked;
      AskedStep(ps[j - 1], vs[j - 1], e, t, k);
    }
  }

  /** When nothing is asked for an element after step i but ticks pass, it is not due before step i's
      successor says so, and is then submitted exactly then. */
  lemma {:induction false} UndisturbedRun<E>(ps: seq<Plain<E>>, vs: seq<Event<E>>, e: E, i: nat, j: nat)
    requires IsRun(ps, vs) && i <= j <= |vs| && Untouched(vs, e, i, j)
    requires e !in ps[i].pending
    ensures ps[i].now <= ps[j].now && e !in ps[j].pending
    ensures e in ps[i].due && ps[j].now < ps[i].due[e] ==> e in ps[j].due && ps[j].due[e] == ps[i].due[e]
    ensures e !in ps[i].due ==> e !in ps[j].due
  {
    if i < j {
      UndisturbedRun(ps, vs, e, i, j - 1);
      assert Follows(ps, vs, j - 1);
      if vs[j - 1].Tick? {
        TickAt(ps[j - 1], e);
      } else {
        OtherAt(ps[j - 1], vs[j - 1], e);
      }
      hide Apply, Enabled, Ticked;
    }
  }

  /** A waiting element for which nothing is asked is submitted next at the tick it is due, not earlier. */
  lemma SubmittedWhenDue<E>(ps: seq<Plain<E>>, vs: seq<Event<E>>, e: E, i: nat, j: nat)
    requires IsRun(ps, vs) && i <= j < |vs| && Untouched(vs, e, i, j) && vs[j].Tick?
    requires e in ps[i].due && e !in ps[i].pending
    requires ps[j].now + 1 <= ps[i].due[e]
    ensures Submitted(ps[j], e) <==> ps[j].now + 1 == ps[i].due[e]
  {
    UndisturbedRun(ps, vs, e, i, j);
  }

  /** While the clock stands still nothing becomes due or ceases to be. */
  lemma {:induction false} NotDueBeforeTick<E>(ps: seq<Plain<E>>, vs: seq<Event<E>>, e: E, i: nat, j: nat)
    requires IsRun(ps, vs) && i <= j <= |vs|
    ensures ps[i].now <= ps[j].now
    ensures ps[j].now == ps[i].now ==> ps[j].due == ps[i].due
  {
    if i < j {
      NotDueBeforeTick(ps, vs, e, i, j - 1);
      assert Follows(ps, vs, j - 1);
      hide Settled, Fired;
    }
  }

  /** The promise of the timing wheel.  An element registered with an interval of k ticks when the
      clock shows t, and not touched again, is submitted at tick t + 1 + k and at no other tick if it
      is one-shot, and at exactly t + 1 + k, t + 1 + 2k, ... if it repeats. */
  lemma SubmittedExactly<E>(ps: seq<Plain<E>>, vs: seq<Event<E>>, i: nat, j: nat)
    requires IsRun(ps, vs) && i < j < |vs| && vs[i].Register? && vs[j].Tick?
    requires Untouched(vs, vs[i].e, i + 1, j)
    ensures 0 < vs[i].ticks
    ensures var start := ps[i].now + 1; var now := ps[j].now + 1;
      Submitted(ps[j], vs[i].e) <==>
        if vs[i].repeat then now > start && (now - start) % vs[i].ticks == 0 else now == start + vs[i].ticks
  {
    var e, t, k := vs[i].e, ps[i].now, vs[i].ticks;
    assert Follows(ps, vs, i);
    AskedRun(ps, vs, e, i + 1, j, t, k);
    if ps[j].now == t {
      NotDueBeforeTick(ps, vs, e, i + 1, j);
    } else {
      assert Follows(ps, vs, j);
      OnCourseSubmitted(ps[j], e, t + 1, k);
    }
  }

  /** The same after any request for a new interval, which therefore supersedes all earlier ones: at
      the next tick the element is still submitted if it was due then, afterwards only as last asked. */
  lemma LastRequestCounts<E>(ps: seq<Plain<E>>, vs: seq<Event<E>>, i: nat, j: nat)
    requires IsRun(ps, vs) && i < j < |vs| && vs[i].Reschedule? && vs[j].Tick?
    requires Untouched(vs, vs[i].e, i + 1, j)
    ensures 0 < vs[i].ticks
    ensures var start := ps[i].now + 1; var now := ps[j].now + 1; var e := vs[i].e;
      Submitted(ps[j], e) <==>
        if now == start then e in ps[i].due && ps[i].due[e] == start
        else if e in ps[i].repeats then (now - start) % vs[i].ticks == 0 else now == start + vs[i].ticks
  {
    var e, t, k := vs[i].e, ps[i].now, vs[i].ticks;
    assert Follows(ps, vs, i);
    AskedRun(ps, vs, e, i + 1, j, t, k);
    if ps[j].now == t {
      NotDueBeforeTick(ps, vs, e, i + 1, j);
    } else {
      assert Follows(ps, vs, j);
      OnCourseSubmitted(ps[j], e, t + 1, k);
    }
  }

  // ---- the application data ----

  /** Element e is registered, nothing asks for its end, and its application data is arg. */
  ghost predicate Carries<E>(p: Plain<E>, e: E, arg: nat)
  {
    && e in p.live && (e in p.pending ==> p.pending[e].Set?)
    && e in p.args && p.args[e] == arg
  }

  /** In steps i up to j element e is neither given other data nor de-registered. */
  ghost predicate KeepsArg<E>(vs: seq<Event<E>>, e: E, i: nat, j: nat)
    requires j <= |vs|
  {
    forall m | i <= m < j && (vs[m].SetArg? || vs[m].DeRegister?) :: vs[m].e != e
  }

  lemma ArgStaysStep<E>(p: Plain<E>, v: Event<E>, e: E, arg: nat)
    requires Ok(p) && Enabled(p, v) && Carries(p, e, arg)
    requires v.SetArg? || v.DeRegister? ==> v.e != e
    ensures Carries(Apply(p, v), e, arg)
  {
    if v.Tick? {
      TickAt(p, e);
    } else if v.e != e {
      OtherAt(p, v, e);
    }
    hide Ticked;
  }

  lemma {:induction false} ArgStays<E>(ps: seq<Plain<E>>, vs: seq<Event<E>>, e: E, i: nat, j: nat, arg: nat)
    requires IsRun(ps, vs) && i <= j <= |vs| && KeepsArg(vs, e, i, j)
    requires Carries(ps[i], e, arg)
    ensures Carries(ps[j], e, arg)
  {
    if i < j {
      ArgStays(ps, vs, e, i, j - 1, arg);
      assert Follows(ps, vs, j - 1);
      hide Apply, Enabled, Carries;
      ArgStaysStep(ps[j - 1], vs[j - 1], e, arg);
    }
  }

  /** A registered element keeps the data it was registered with until it is given other data or de-registered. */
  lemma RegisteredArg<E>(ps: seq<Plain<E>>, vs: seq<Event<E>>, i: nat, j: nat)
    requires IsRun(ps, vs) && i < j <= |vs| && vs[i].Register? && KeepsArg(vs, vs[i].e, i + 1, j)
    ensures vs[i].e in ps[j].live && vs[i].e in ps[j].args && ps[j].args[vs[i].e] == vs[i].arg
  {
    assert Follows(ps, vs, i);
    ArgStays(ps, vs, vs[i].e, i + 1, j, vs[i].arg);
  }

  /** And data given to it later, unless its end has been asked for by then. */
  lemma GivenArg<E>(ps: seq<Plain<E>>, vs: seq<Event<E>>, i: nat, j: nat)
    requires IsRun(ps, vs) && i < j <= |vs| && vs[i].SetArg? && KeepsArg(vs, vs[i].e, i + 1, j)
    requires vs[i].e in ps[i].pending ==> ps[i].pending[vs[i].e].Set?
    ensures vs[i].e in ps[j].live && vs[i].e in ps[j].args && ps[j].args[vs[i].e] == vs[i].arg
  {
    assert Follows(ps, vs, i);
    ArgStays(ps, vs, vs[i].e, i + 1, j, vs[i].arg);
  }

  /** A de-registered element is submitted at most once more: only at the next tick, only if it was
      due then, and with no data; after that tick it is gone. */
  lemma {:induction false} GoneAfterDeRegister<E>(ps: seq<Plain<E>>, vs: seq<Event<E>>, i: nat, j: nat)
    requires IsRun(ps, vs) && i < j <= |vs| && vs[i].DeRegister?
    requires Untouched(vs, vs[i].e, i + 1, j)
    ensures var e := vs[i].e;
      && ps[i].now <= ps[j].now
      && (ps[j].now == ps[i].now ==>
            && e in ps[j].pending && ps[j].pending[e] == Delete
            && e in ps[j].args && ps[j].args[e] == 0
            && (Submitted(ps[j], e) <==> e in ps[i].due && ps[i].due[e] == ps[i].now + 1))
      && (ps[j].now > ps[i].now ==> e !in ps[j].live && !Submitted(ps[j], e))
  {
    var e := vs[i].e;
    assert Follows(ps, vs, i);
    if i + 1 < j {
      GoneAfterDeRegister(ps, vs, i, j - 1);
      assert Follows(ps, vs, j - 1);
      if vs[j - 1].Tick? {
        TickAt(ps[j - 1], e);
      } else {
        OtherAt(ps[j - 1], vs[j - 1], e);
      }
      hide Apply, Ticked;
    }
  }
}
