/** event_dispatcher_schedule_task on one packet-queue task, taken apart: it looks whether the task is queued and
    asserts that it is not before it takes the mutex, and inserts it afterwards. */
module ScheduleRace {
  type Thread = nat

  /** How often the task stands on the queue; the threads that have found it unqueued and not come to the assertion
      yet; those past the assertion that have not inserted it yet; whether the assertion has failed, which ends
      the program. */
  datatype State = State(queued: nat, looked: set<Thread>, inside: set<Thread>, failed: bool)

  const INITIAL := State(0, {}, {}, false)

  datatype Step = Look(th: Thread) | Confirm(th: Thread) | Insert(th: Thread) | Take

  predicate Enabled(s: State, e: Step)
  {
    && !s.failed
    && match e
       case Look(th) => th !in s.looked && th !in s.inside
       case Confirm(th) => th in s.looked
       case Insert(th) => th in s.inside
       case Take => s.queued > 0
  }

  function Apply(s: State, e: Step): State
    requires Enabled(s, e)
  {
    match e
    case Look(th) => if s.queued > 0 then s else s.(looked := s.looked + {th})
    case Confirm(th) =>
      if s.queued > 0 then s.(failed := true) else s.(looked := s.looked - {th}, inside := s.inside + {th})
    case Insert(th) => s.(queued := s.queued + 1, inside := s.inside - {th})
    case Take => s.(queued := s.queued - 1)
  }

  ghost predicate IsRun(ss: seq<State>, es: seq<Step>)
  {
    && |ss| == |es| + 1
    && ss[0] == INITIAL
    && (forall i | 0 <= i < |es| :: Enabled(ss[i], es[i]) && ss[i + 1] == Apply(ss[i], es[i]))
  }

  predicate NotTaken(es: seq<Step>, j: nat, k: nat)
    requires k <= |es|
  {
    forall m | j < m < k :: !es[m].Take?
  }

  /** Between events i and k somebody inserted the task and the dispatcher has not taken it since. */
  ghost predicate InsertedSince(es: seq<Step>, i: nat, k: nat)
    requires k <= |es|
  {
    exists j :: i < j < k && es[j].Insert? && NotTaken(es, j, k)
  }

  lemma {:induction false} QueuedExactly(ss: seq<State>, es: seq<Step>, i: nat, k: nat)
    requires IsRun(ss, es) && i < k <= |es| && (es[i].Look? || es[i].Confirm?) && ss[i].queued == 0
    requires forall j | 0 <= j <= k :: ss[j].queued <= 1
    ensures ss[k].queued == 1 <==> InsertedSince(es, i, k)
  {
    var p := k - 1;
    assert Enabled(ss[p], es[p]) && ss[k] == Apply(ss[p], es[p]);
    if i < p {
      QueuedExactly(ss, es, i, p);
      match es[p]
      case Insert(_) =>
        assert NotTaken(es, p, k);
      case Take =>
        forall j | i < j < k && es[j].Insert? ensures !NotTaken(es, j, k) {
          assert j < p && es[p].Take?;
        }
      case _ =>
        forall j | i < j < p ensures NotTaken(es, j, k) <==> NotTaken(es, j, p) {
        }
    }
  }

  /** Until something is queued twice: the assertion of a thread that has found the task unqueued fails if and only
      if, since its look, another thread has inserted it and the dispatcher not taken it. */
  lemma FailsExactly(ss: seq<State>, es: seq<Step>, i: nat, k: nat)
    requires IsRun(ss, es) && i < k < |es| && es[i].Look? && ss[i].queued == 0 && es[k] == Confirm(es[i].th)
    requires forall j | 0 <= j <= k :: ss[j].queued <= 1
    ensures ss[k + 1].failed <==> InsertedSince(es, i, k)
  {
    QueuedExactly(ss, es, i, k);
    assert Enabled(ss[k], es[k]) && ss[k + 1] == Apply(ss[k], es[k]);
  }

  /** And a thread past its assertion puts the task on the queue a second time if and only if that has happened
      since the assertion. */
  lemma DoubledExactly(ss: seq<State>, es: seq<Step>, i: nat, k: nat)
    requires IsRun(ss, es) && i < k < |es| && es[i].Confirm? && ss[i].queued == 0 && es[k] == Insert(es[i].th)
    requires forall j | 0 <= j <= k :: ss[j].queued <= 1
    ensures ss[k + 1].queued == 2 <==> InsertedSince(es, i, k)
  {
    QueuedExactly(ss, es, i, k);
    assert Enabled(ss[k], es[k]) && ss[k + 1] == Apply(ss[k], es[k]);
  }

  /** Were no look to fall between another thread's look and its insertion, as when all of it is done under the
      mutex, the assertion would hold and the task never be queued twice. */
  lemma {:induction false} NeverDoubled(ss: seq<State>, es: seq<Step>, k: nat)
    requires IsRun(ss, es) && k < |ss|
    requires forall i | 0 <= i < k && es[i].Look? :: ss[i].looked == {} && ss[i].inside == {}
    ensures !ss[k].failed && ss[k].queued + |ss[k].looked| + |ss[k].inside| <= 1
  {
    if k > 0 {
      NeverDoubled(ss, es, k - 1);
      assert Enabled(ss[k - 1], es[k - 1]) && ss[k] == Apply(ss[k - 1], es[k - 1]);
    }
  }

  /** As it is, two threads can both pass the assertion and both insert the task. */
  lemma DoubledRun() returns (ss: seq<State>, es: seq<Step>)
    ensures IsRun(ss, es) && ss[|es|].queued == 2
  {
    es := [Look(0), Confirm(0), Look(1), Confirm(1), Insert(0), Insert(1)];
    ss := [INITIAL, State(0, {0}, {}, false), State(0, {}, {0}, false), State(0, {1}, {0}, false),
           State(0, {}, {0, 1}, false), State(1, {}, {1}, false), State(2, {}, {}, false)];
    forall i | 0 <= i < |es| ensures Enabled(ss[i], es[i]) && ss[i + 1] == Apply(ss[i], es[i]) {
      if i == 4 {
        assert {0, 1} - {0} == {1};
      }
    }
  }

  /** Or the assertion of one fails after the other's insertion. */
  lemma FailedRun() returns (ss: seq<State>, es: seq<Step>)
    ensures IsRun(ss, es) && ss[|es|].failed
  {
    es := [Look(0), Look(1), Confirm(0), Insert(0), Confirm(1)];
    ss := [INITIAL, State(0, {0}, {}, false), State(0, {0, 1}, {}, false), State(0, {1}, {0}, false),
           State(1, {1}, {}, false), State(1, {1}, {}, true)];
    forall i | 0 <= i < |es| ensures Enabled(ss[i], es[i]) && ss[i + 1] == Apply(ss[i], es[i]) {
      if i == 2 {
        assert {0, 1} - {0} == {1};
      }
    }
  }
}
