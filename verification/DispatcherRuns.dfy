/** Producers and the dispatcher thread as a transition system.  Each step is one critical section;
    a packet producer passes through three of them, and so does the dispatcher between two tasks. */
module DispatcherRuns {
  import opened EventDispatcher
  import opened Lists
  import opened Options

  type Pkt = nat

  datatype Kind = OneShot | PktQJob | Background

  /** Where the dispatcher thread stands. */
  datatype Pc =
    | NotStarted
    | AtLoop              // about to look for the next task
    | Asleep              // in pthread_cond_wait
    | Running(t: Task)    // inside the task's callback
    | Posting(t: Task)    // callback done, eve_dis_process_task_post_call entered
    | Again(t: Task)      // the packet queue was seen non-empty, about to schedule the task again
    | Finishing
    | Stuck(t: Task)      // waiting for synchronous task t, which it has just scheduled again itself
    | Blocked(t: Task, on: Task)   // inside t's callback, which waits for a synchronous job it has created or scheduled

  /** The dispatcher waits for a task that only the dispatcher could run. */
  predicate Hung(pc: Pc)
  {
    pc.Stuck? || pc.Blocked?
  }

  datatype Sys = Sys(
    rec: Record,
    pc: Pc,
    wakeUp: bool,                     // a signal has reached the waiting dispatcher
    kinds: map<Task, Kind>,
    reSchedule: set<Task>,
    freed: set<Task>,
    waiting: set<Task>,               // synchronous tasks whose creator waits
    held: multiset<Task>,             // producers that wait for the condition variable of a task they scheduled
    packets: map<Task, seq<Pkt>>,     // the packet queue of every packet-queue task
    checking: multiset<Task>,         // producers that have added a packet and not yet looked at the task
    scheduling: multiset<Task>,       // producers that found the task unqueued and will schedule it
    scheduled: seq<Task>,             // history: every task ever put on the queue
    ran: seq<Task>,                   // history: every task ever taken off it
    entered: multiset<(Task, Pkt)>,   // history: every packet ever enqueued
    delivered: multiset<(Task, Pkt)>) // history: every packet ever handed to a callback

  const INITIAL := Sys(Record([], 0, true, false, None), NotStarted, false, map[], {}, {}, {}, multiset{}, map[],
                       multiset{}, multiset{}, [], [], multiset{}, multiset{})

  datatype Step =
    | CreateJob(t: Task, kind: Kind, sync: bool)
    | InitPktQ(t: Task)
    | Push(t: Task, pkt: Pkt)
    | Check(t: Task)
    | ScheduleIt(t: Task)
    | ScheduleAgain(t: Task)
    | Start
    | GoIdle
    | Wake
    | Take
    | CallbackCreates(t: Task, kind: Kind, sync: bool)
    | CallbackSchedules(t: Task)
    | GetPkt
    | Return
    | Post
    | PostAgain
    | Finish

  predicate ByProducer(e: Step)
  {
    e.CreateJob? || e.InitPktQ? || e.Push? || e.Check? || e.ScheduleIt? || e.ScheduleAgain?
  }

  predicate ByCallback(e: Step)
  {
    e.CallbackCreates? || e.CallbackSchedules?
  }

  predicate Enabled(s: Sys, e: Step)
  {
    match e
    case CreateJob(t, _, _) => t !in s.kinds
    case InitPktQ(t) => t !in s.kinds
    case Push(t, _) => t in s.packets
    case Check(t) => t in s.checking
    case ScheduleIt(t) => t in s.scheduling
    case ScheduleAgain(t) => t in s.kinds && s.kinds[t] == OneShot && t !in s.freed
    case Start => s.pc == NotStarted
    case GoIdle => s.pc == AtLoop && s.rec.queue == []
    case Wake => s.pc == Asleep
    case Take => s.pc == AtLoop && s.rec.queue != []
    case CallbackCreates(t, _, _) => s.pc.Running? && t !in s.kinds
    case CallbackSchedules(t) => s.pc.Running? && t in s.scheduling
    case GetPkt => s.pc.Running? && s.pc.t in s.packets
    case Return => s.pc.Running?
    case Post => s.pc.Posting? && s.pc.t in s.kinds && (s.kinds[s.pc.t] == PktQJob ==> s.pc.t in s.packets)
    case PostAgain => s.pc.Again?
    case Finish => s.pc.Finishing?
  }

  /** event_dispatcher_schedule_task on a task that is not queued: the signal wakes the dispatcher if it waits. */
  function Schedule(s: Sys, t: Task): Sys
  {
    s.(rec := Scheduled(s.rec, t), wakeUp := s.wakeUp || (NeedsSignal(s.rec) && s.pc == Asleep),
      scheduled := s.scheduled + [t])
  }

  /** The same for a packet-queue task, which may be queued. */
  function SchedulePktQ(s: Sys, t: Task): Sys
  {
    if t in s.rec.queue then s else Schedule(s, t)
  }

  /** task_create_new_job and its variants, up to the point where the caller of the synchronous one waits.
      A packet-queue job comes with a queue of its own. */
  function Created(s: Sys, t: Task, kind: Kind, sync: bool): Sys
  {
    Schedule(s.(kinds := s.kinds[t := kind],
                packets := if kind == PktQJob then s.packets[t := []] else s.packets,
                waiting := if sync then s.waiting + {t} else s.waiting), t)
  }

  /** A thread that puts a task with a condition variable on the queue waits for it: it is held if it is a producer. */
  function Held(s: Sys, t: Task): multiset<Task>
  {
    if t in s.waiting && t !in s.rec.queue then s.held + multiset{t} else s.held
  }

  function Apply(s: Sys, e: Step): Sys
    requires Enabled(s, e)
  {
    match e
    case CreateJob(t, kind, sync) => Created(s, t, kind, sync)
    case InitPktQ(t) => s.(kinds := s.kinds[t := PktQJob], packets := s.packets[t := []])
    case Push(t, pkt) =>
      s.(packets := s.packets[t := [pkt] + s.packets[t]], entered := s.entered + multiset{(t, pkt)},
        checking := s.checking + multiset{t})
    case Check(t) =>
      var s' := s.(checking := s.checking - multiset{t});
      if t in s.rec.queue then s' else s'.(scheduling := s.scheduling + multiset{t})
    case ScheduleIt(t) => SchedulePktQ(s.(scheduling := s.scheduling - multiset{t}, held := Held(s, t)), t)
    case ScheduleAgain(t) => s.(reSchedule := s.reSchedule + {t})
    case Start => s.(pc := AtLoop)
    case GoIdle => s.(rec := Idled(s.rec), pc := Asleep, wakeUp := false)
    case Wake => s.(pc := AtLoop, wakeUp := false)
    case Take => s.(rec := Taken(s.rec), pc := Running(s.rec.queue[0]), ran := s.ran + [s.rec.queue[0]])
    case CallbackCreates(t, kind, sync) =>
      if sync then Created(s, t, kind, true).(pc := Blocked(s.pc.t, t)) else Created(s, t, kind, false)
    case CallbackSchedules(t) =>
      var s' := s.(scheduling := s.scheduling - multiset{t});
      SchedulePktQ(if t in s.waiting && t !in s.rec.queue then s'.(pc := Blocked(s.pc.t, t)) else s', t)
    case GetPkt =>
      var t := s.pc.t;
      if s.packets[t] == [] then s else
        s.(packets := s.packets[t := s.packets[t][1..]], delivered := s.delivered + multiset{(t, s.packets[t][0])})
    case Return => s.(pc := Posting(s.pc.t))
    case Post =>
      var t := s.pc.t;
      var next := if t in s.waiting then Stuck(t) else Finishing;
      (match s.kinds[t]
       case OneShot =>
         if t in s.reSchedule then Schedule(s.(reSchedule := s.reSchedule - {t}, pc := next), t)
         else s.(freed := s.freed + {t}, waiting := s.waiting - {t}, pc := Finishing)
       case Background => Schedule(s.(pc := next), t)
       case PktQJob => if s.packets[t] == [] then s.(pc := Finishing) else s.(pc := Again(t)))
    case PostAgain =>
      var t := s.pc.t;
      SchedulePktQ(s.(pc := if t in s.waiting && t !in s.rec.queue then Stuck(t) else Finishing), t)
    case Finish => s.(rec := s.rec.(current := None), pc := AtLoop)
  }

  // ---- the invariant ----

  /** The dispatcher is at work on task t and has not yet decided whether it needs another turn. */
  predicate Active(s: Sys, t: Task)
  {
    match s.pc
    case Running(t') => t' == t
    case Posting(t') => t' == t
    case Again(t') => t' == t
    case Blocked(t', _) => t' == t
    case _ => false
  }

  /** No wake-up is lost. */
  ghost predicate Handshake(s: Sys)
  {
    && (s.pc == NotStarted || s.pc == Asleep ==> s.rec.idle)
    && (s.pc == Asleep ==> (s.rec.signalSent ==> s.wakeUp) && (s.rec.queue != [] ==> s.rec.signalSent))
    && (s.wakeUp ==> s.pc == Asleep)
  }

  /** Every task that is queued, at work or freed exists; packet-queue tasks are never freed. */
  ghost predicate Known(s: Sys, t: Task)
  {
    && (t in s.packets <==> t in s.kinds && s.kinds[t] == PktQJob)
    && (t in s.rec.queue || Active(s, t) ==> t in s.kinds && t !in s.freed)
    && (t in s.freed ==> t in s.kinds && s.kinds[t] != PktQJob)
    && (t in s.waiting ==> t in s.kinds && t !in s.freed)
    && (t in s.held ==> t in s.waiting && s.kinds[t] == PktQJob)
    && (t in s.checking || t in s.scheduling ==> t in s.packets)
    && (s.pc == Again(t) ==> t in s.packets)
  }

  /** Tasks are run in the order in which they were scheduled, each as often as it was scheduled. */
  ghost predicate InOrder(s: Sys)
  {
    && s.rec.pending == |s.rec.queue|
    && s.scheduled == s.ran + s.rec.queue
  }

  ghost predicate Counted(s: Sys)
  {
    && InOrder(s)
    && (s.rec.current == None <==> s.pc == NotStarted || s.pc == AtLoop || s.pc == Asleep)
  }

  /** While a task is at work it is the current one, and only packet-queue tasks can also be queued. */
  ghost predicate Alone(s: Sys, t: Task)
  {
    Active(s, t) ==> s.rec.current == Some(t) && (t in s.rec.queue ==> t in s.packets)
  }

  /** Whoever could be the last to notice the packets of queue t will notice them. */
  ghost predicate Covered(s: Sys, t: Task)
  {
    t in s.packets && s.packets[t] != [] ==>
      t in s.rec.queue || Active(s, t) || t in s.checking || t in s.scheduling
  }

  /** A job that was created and not freed is queued or at work. */
  ghost predicate Kept(s: Sys, t: Task)
  {
    t in s.kinds && s.kinds[t] != PktQJob && t !in s.freed ==> t in s.rec.queue || Active(s, t)
  }

  /** No packet of queue t is lost or handed over twice. */
  ghost predicate Conserved(s: Sys, t: Task, pkt: Pkt)
  {
    s.entered[(t, pkt)] == s.delivered[(t, pkt)] + if t in s.packets then multiset(s.packets[t])[pkt] else 0
  }

  ghost predicate TaskInv(s: Sys, t: Task)
  {
    Known(s, t) && Alone(s, t) && Covered(s, t) && Kept(s, t)
  }

  ghost predicate Inv(s: Sys)
  {
    && Handshake(s) && Counted(s) && Distinct(s.rec.queue)
    && (forall t {:trigger TaskInv(s, t)} :: TaskInv(s, t))
    && (forall t, pkt {:trigger Conserved(s, t, pkt)} :: Conserved(s, t, pkt))
  }

  lemma HandshakeByOthers(s: Sys, e: Step)
    requires Handshake(s) && Enabled(s, e) && (ByProducer(e) || ByCallback(e))
    ensures Handshake(Apply(s, e))
  {
  }

  lemma HandshakeKept(s: Sys, e: Step)
    requires Handshake(s) && Enabled(s, e)
    ensures Handshake(Apply(s, e))
  {
    if ByProducer(e) || ByCallback(e) {
      HandshakeByOthers(s, e);
    }
  }

  /** What Schedule does to every part of the state. */
  lemma ScheduleSets()
    ensures forall s: Sys, t {:trigger Schedule(s, t)} :: var s' := Schedule(s, t);
      && s'.rec.queue == s.rec.queue + [t] && s'.rec.current == s.rec.current && s'.pc == s.pc
      && s'.kinds == s.kinds && s'.reSchedule == s.reSchedule && s'.freed == s.freed && s'.waiting == s.waiting
        && s'.held == s.held
      && s'.packets == s.packets && s'.checking == s.checking && s'.scheduling == s.scheduling
      && s'.entered == s.entered && s'.delivered == s.delivered
  {
  }

  ghost predicate SameJobs(s: Sys, s': Sys)
  {
    s'.kinds == s.kinds && s'.reSchedule == s.reSchedule && s'.freed == s.freed && s'.waiting == s.waiting
  }

  ghost predicate SamePackets(s: Sys, s': Sys)
  {
    s'.packets == s.packets && s'.entered == s.entered && s'.delivered == s.delivered && s'.checking == s.checking
  }

  /** Task t is on the queue now, at the end if it was not there before. */
  ghost predicate Appended(s: Sys, s': Sys, t: Task)
  {
    && s'.rec.queue == (if t in s.rec.queue then s.rec.queue else s.rec.queue + [t])
    && s'.rec.pending - s.rec.pending == |s'.rec.queue| - |s.rec.queue|
    && s'.ran == s.ran && s'.scheduled == (if t in s.rec.queue then s.scheduled else s.scheduled + [t])
    && s'.rec.current == s.rec.current && SameJobs(s, s') && SamePackets(s, s')
  }

  lemma SchedulePktQSets()
    ensures forall s: Sys, t {:trigger SchedulePktQ(s, t)} :: var s' := SchedulePktQ(s, t);
      Appended(s, s', t) && s'.scheduling == s.scheduling && s'.pc == s.pc && s'.held == s.held
  {
    hide NeedsSignal;
  }

  lemma ScheduleItSets(s: Sys, t: Task)
    requires Enabled(s, ScheduleIt(t))
    ensures var s' := Apply(s, ScheduleIt(t));
      Appended(s, s', t) && s'.scheduling == s.scheduling - multiset{t} && s'.pc == s.pc && s'.held == Held(s, t)
  {
    hide SchedulePktQ, Held;
    SchedulePktQSets();
  }

  lemma CallbackSchedulesSets(s: Sys, t: Task)
    requires Enabled(s, CallbackSchedules(t))
    ensures var s' := Apply(s, CallbackSchedules(t));
      && Appended(s, s', t) && s'.scheduling == s.scheduling - multiset{t} && s'.held == s.held
      && s'.pc == if t in s.waiting && t !in s.rec.queue then Blocked(s.pc.t, t) else s.pc
  {
    hide SchedulePktQ;
    SchedulePktQSets();
  }

  lemma PostAgainSets(s: Sys)
    requires Enabled(s, PostAgain)
    ensures var s', t := Apply(s, PostAgain), s.pc.t;
      && Appended(s, s', t) && s'.scheduling == s.scheduling && s'.held == s.held
      && s'.pc == if t in s.waiting && t !in s.rec.queue then Stuck(t) else Finishing
  {
    hide SchedulePktQ;
    SchedulePktQSets();
  }

  /** The steps that put a packet-queue task on the queue unless it is there. */
  predicate Schedules(e: Step)
  {
    e.ScheduleIt? || e.CallbackSchedules? || e == PostAgain
  }

  lemma SchedulesAppends(s: Sys, e: Step) returns (t: Task)
    requires Enabled(s, e) && Schedules(e)
    ensures t == (if e == PostAgain then s.pc.t else e.t) && Appended(s, Apply(s, e), t)
    ensures (Apply(s, e).pc == NotStarted || Apply(s, e).pc == AtLoop || Apply(s, e).pc == Asleep) <==>
      (s.pc == NotStarted || s.pc == AtLoop || s.pc == Asleep)
  {
    if e.ScheduleIt? {
      ScheduleItSets(s, e.t);
    } else if e.CallbackSchedules? {
      CallbackSchedulesSets(s, e.t);
    } else {
      PostAgainSets(s);
    }
    t := if e == PostAgain then s.pc.t else e.t;
    hide Apply;
  }

  lemma ScheduleInOrder()
    ensures forall s: Sys, t {:trigger Schedule(s, t)} | InOrder(s) ::
      InOrder(Schedule(s, t)) && Schedule(s, t).rec.current == s.rec.current && Schedule(s, t).pc == s.pc
  {
  }

  lemma CountedTake(s: Sys)
    requires Counted(s) && Enabled(s, Take)
    ensures Counted(Apply(s, Take))
  {
    assert s.rec.queue == [s.rec.queue[0]] + s.rec.queue[1..];
    assert s.scheduled == (s.ran + [s.rec.queue[0]]) + s.rec.queue[1..];
  }

  lemma CountedScheduled(s: Sys, e: Step)
    requires Counted(s) && Enabled(s, e) && Schedules(e)
    ensures Counted(Apply(s, e))
  {
    hide Apply, Enabled;
    var _ := SchedulesAppends(s, e);
  }

  lemma CountedKept(s: Sys, e: Step)
    requires Counted(s) && Enabled(s, e) && e != Post && e != Take && !Schedules(e)
    ensures Counted(Apply(s, e))
  {
    ScheduleInOrder();
    hide Schedule;
  }

  lemma CountedPost(s: Sys)
    requires Counted(s) && Enabled(s, Post)
    ensures Counted(Apply(s, Post))
  {
    ScheduleInOrder();
    hide Schedule;
  }

  lemma QueueKept(s: Sys, e: Step)
    requires Distinct(s.rec.queue) && Enabled(s, e) && e != Post && !e.CreateJob? && !e.CallbackCreates?
      && !Schedules(e)
    ensures Distinct(Apply(s, e).rec.queue)
  {
  }

  lemma QueueScheduled(s: Sys, e: Step)
    requires Distinct(s.rec.queue) && Enabled(s, e) && Schedules(e)
    ensures Distinct(Apply(s, e).rec.queue)
  {
    hide Apply, Enabled;
    var _ := SchedulesAppends(s, e);
  }

  lemma QueueCreated(s: Sys, e: Step)
    requires Distinct(s.rec.queue) && Enabled(s, e) && (e.CreateJob? || e.CallbackCreates?) && Known(s, e.t)
    ensures Distinct(Apply(s, e).rec.queue)
  {
    hide Schedule, Active;
    ScheduleSets();
    assert e.t !in s.rec.queue;
    assert Apply(s, e).rec.queue == s.rec.queue + [e.t];
  }

  lemma QueuePost(s: Sys)
    requires Distinct(s.rec.queue) && Enabled(s, Post) && Known(s, s.pc.t) && Alone(s, s.pc.t)
    ensures Distinct(Apply(s, Post).rec.queue)
  {
  }

  lemma ProducerKeeps(s: Sys, e: Step, t: Task)
    requires Enabled(s, e) && ByProducer(e) && TaskInv(s, t)
    requires !e.Check? && !e.ScheduleIt?
    ensures TaskInv(Apply(s, e), t)
  {
  }

  lemma CheckKeeps(s: Sys, e: Step, t: Task)
    requires Enabled(s, e) && TaskInv(s, t) && e.Check?
    ensures TaskInv(Apply(s, e), t)
  {
  }

  lemma ScheduleKeeps(s: Sys, e: Step, t: Task)
    requires Enabled(s, e) && TaskInv(s, t) && e.ScheduleIt?
    ensures TaskInv(Apply(s, e), t)
  {
    ScheduleItSets(s, e.t);
    assert e.t in s.scheduling;
    hide Apply, Enabled;
  }

  lemma CallbackKeeps(s: Sys, e: Step, t: Task)
    requires Enabled(s, e) && e.CallbackCreates? && TaskInv(s, t)
    ensures TaskInv(Apply(s, e), t)
  {
  }

  lemma CallbackScheduleKeeps(s: Sys, e: Step, t: Task)
    requires Enabled(s, e) && e.CallbackSchedules? && TaskInv(s, t)
    ensures TaskInv(Apply(s, e), t)
  {
    CallbackSchedulesSets(s, e.t);
    assert e.t in s.scheduling;
    hide Apply, Enabled;
  }

  lemma DispatcherKeeps(s: Sys, e: Step, t: Task)
    requires Enabled(s, e) && !ByProducer(e) && e != Post && e != PostAgain && !ByCallback(e)
    requires TaskInv(s, t) && Distinct(s.rec.queue)
    ensures TaskInv(Apply(s, e), t)
  {
  }

  lemma AgainKeeps(s: Sys, t: Task)
    requires Enabled(s, PostAgain) && TaskInv(s, t)
    ensures TaskInv(Apply(s, PostAgain), t)
  {
    PostAgainSets(s);
    assert s.pc.Again?;
    hide Apply, Enabled;
  }

  lemma KnownPost(s: Sys, t: Task)
    requires Enabled(s, Post) && Known(s, t) && Alone(s, t) && Known(s, s.pc.t)
    ensures Known(Apply(s, Post), t)
  {
    hide Schedule;
    ScheduleSets();
  }

  lemma PostCovers(s: Sys, t: Task)
    requires Enabled(s, Post) && Covered(s, t) && Known(s, t)
    ensures Covered(Apply(s, Post), t)
  {
    hide Schedule;
    ScheduleSets();
  }

  lemma PostKeeps(s: Sys, t: Task)
    requires Enabled(s, Post) && TaskInv(s, t) && Known(s, s.pc.t)
    ensures TaskInv(Apply(s, Post), t)
  {
    hide Schedule, Known;
    ScheduleSets();
    PostCovers(s, t);
    KnownPost(s, t);
    hide Covered;
  }

  lemma ConservedByProducer(s: Sys, e: Step, t: Task, pkt: Pkt)
    requires Enabled(s, e) && ByProducer(e) && !e.ScheduleIt? && Known(s, t) && Conserved(s, t, pkt)
    ensures Conserved(Apply(s, e), t, pkt)
  {
  }

  lemma ConservedByGetPkt(s: Sys, t: Task, pkt: Pkt)
    requires Enabled(s, GetPkt) && Conserved(s, t, pkt)
    ensures Conserved(Apply(s, GetPkt), t, pkt)
  {
    if s.pc.t == t && s.packets[t] != [] {
      assert s.packets[t] == [s.packets[t][0]] + s.packets[t][1..];
    }
  }

  lemma ConservedByScheduling(s: Sys, e: Step, t: Task, pkt: Pkt)
    requires Enabled(s, e) && Schedules(e) && Conserved(s, t, pkt)
    ensures Conserved(Apply(s, e), t, pkt)
  {
    hide Apply, Enabled;
    var _ := SchedulesAppends(s, e);
  }

  lemma ConservedByCallback(s: Sys, e: Step, t: Task, pkt: Pkt)
    requires Enabled(s, e) && e.CallbackCreates? && Known(s, t) && Conserved(s, t, pkt)
    ensures Conserved(Apply(s, e), t, pkt)
  {
    hide Schedule;
    ScheduleSets();
  }

  lemma ConservedByDispatcher(s: Sys, e: Step, t: Task, pkt: Pkt)
    requires Enabled(s, e) && !ByProducer(e) && !ByCallback(e) && e != GetPkt && e != PostAgain && Conserved(s, t, pkt)
    ensures Conserved(Apply(s, e), t, pkt)
  {
    hide Schedule, Scheduled, Held;
    ScheduleSets();
    assert Apply(s, e).packets == s.packets && Apply(s, e).entered == s.entered && Apply(s, e).delivered == s.delivered;
  }

  lemma StepKeepsInv(s: Sys, e: Step)
    requires Inv(s) && Enabled(s, e)
    ensures Inv(Apply(s, e))
  {
    var s' := Apply(s, e);
    hide Apply, Handshake, Counted, Distinct, Known, Alone, Covered, Kept, Conserved;
    HandshakeKept(s, e);
    if e == Post {
      assert Posted: s.pc.Posting?;
      assert TaskInv(s, s.pc.t);
      CountedPost(s);
      QueuePost(s);
    } else {
      if e == Take {
        CountedTake(s);
      } else if Schedules(e) {
        CountedScheduled(s, e);
      } else {
        CountedKept(s, e);
      }
      if e.CreateJob? || e.CallbackCreates? {
        assert TaskInv(s, e.t);
        QueueCreated(s, e);
      } else if Schedules(e) {
        QueueScheduled(s, e);
      } else {
        QueueKept(s, e);
      }
    }
    forall t ensures TaskInv(s', t) {
      assert TaskInv(s, t);
      if e.Check? {
        CheckKeeps(s, e, t);
      } else if e.ScheduleIt? {
        ScheduleKeeps(s, e, t);
      } else if ByProducer(e) {
        ProducerKeeps(s, e, t);
      } else if e == Post {
        PostKeeps(s, t);
      } else if e == PostAgain {
        AgainKeeps(s, t);
      } else if e.CallbackCreates? {
        CallbackKeeps(s, e, t);
      } else if e.CallbackSchedules? {
        CallbackScheduleKeeps(s, e, t);
      } else {
        DispatcherKeeps(s, e, t);
      }
    }
    forall t, pkt ensures Conserved(s', t, pkt) {
      assert TaskInv(s, t) && Conserved(s, t, pkt);
      if Schedules(e) {
        ConservedByScheduling(s, e, t, pkt);
      } else if ByProducer(e) {
        ConservedByProducer(s, e, t, pkt);
      } else if e == GetPkt {
        ConservedByGetPkt(s, t, pkt);
      } else if ByCallback(e) {
        ConservedByCallback(s, e, t, pkt);
      } else {
        ConservedByDispatcher(s, e, t, pkt);
      }
    }
  }

  // ---- whole runs ----

  /** The states ss are passed through when the steps es are taken one by one from the initial state. */
  ghost predicate IsRun(ss: seq<Sys>, es: seq<Step>)
  {
    && |ss| == |es| + 1
    && ss[0] == INITIAL
    && (forall i | 0 <= i < |es| :: Enabled(ss[i], es[i]) && ss[i + 1] == Apply(ss[i], es[i]))
  }

  lemma {:induction false} RunInv(ss: seq<Sys>, es: seq<Step>, k: nat)
    requires IsRun(ss, es) && k < |ss|
    ensures Inv(ss[k])
  {
    if k > 0 {
      RunInv(ss, es, k - 1);
      StepKeepsInv(ss[k - 1], es[k - 1]);
    }
  }

  /** No wake-up is lost: whenever the dispatcher sleeps while a task is queued, a signal has reached it. */
  lemma NoLostWakeUp(ss: seq<Sys>, es: seq<Step>, k: nat)
    requires IsRun(ss, es) && k < |ss|
    ensures ss[k].pc == Asleep && ss[k].rec.queue != [] ==> ss[k].wakeUp
  {
    RunInv(ss, es, k);
  }

  /** The queue never holds a task twice, its counter is its length, and what was run is, in order,
      what was scheduled less what is still queued. */
  lemma FirstInFirstOut(ss: seq<Sys>, es: seq<Step>, k: nat)
    requires IsRun(ss, es) && k < |ss|
    ensures Distinct(ss[k].rec.queue)
    ensures ss[k].rec.pending == |ss[k].rec.queue|
    ensures ss[k].scheduled == ss[k].ran + ss[k].rec.queue
  {
    RunInv(ss, es, k);
  }

  /** Every waiting packet will be noticed: its task is queued or at work, or some producer still has
      to look at the task or to schedule it.  And every packet ever enqueued is waiting or was handed over, once. */
  lemma PacketsCovered(ss: seq<Sys>, es: seq<Step>, k: nat, t: Task, pkt: Pkt)
    requires IsRun(ss, es) && k < |ss|
    ensures Covered(ss[k], t)
    ensures Conserved(ss[k], t, pkt)
  {
    RunInv(ss, es, k);
    assert TaskInv(ss[k], t);
  }

  /** The assertion of event_dispatcher_schedule_task never fails: a new job, and a job that goes
      round again, is not on the queue. */
  lemma NeverQueuedTwice(ss: seq<Sys>, es: seq<Step>, k: nat)
    requires IsRun(ss, es) && k < |es|
    ensures es[k].CreateJob? || es[k].CallbackCreates? ==> es[k].t !in ss[k].rec.queue
    ensures es[k] == Post && ss[k].kinds[ss[k].pc.t] != PktQJob ==> ss[k].pc.t !in ss[k].rec.queue
  {
    RunInv(ss, es, k);
    if es[k].CreateJob? || es[k].CallbackCreates? {
      assert TaskInv(ss[k], es[k].t);
    }
    if es[k] == Post {
      assert TaskInv(ss[k], ss[k].pc.t);
    }
  }

  // ---- progress ----

  /** The dispatcher's own next step; a callback is taken to return. */
  function Next(s: Sys): Step
  {
    match s.pc
    case NotStarted => Start
    case AtLoop => if s.rec.queue == [] then GoIdle else Take
    case Asleep => Wake
    case Running(_) => Return
    case Posting(_) => Post
    case Again(_) => PostAgain
    case Finishing => Finish
    case _ => GoIdle
  }

  function StepsToTake(pc: Pc): nat
  {
    match pc
    case Running(_) => 5
    case Posting(_) => 4
    case Again(_) => 3
    case Finishing => 2
    case Asleep => 1
    case NotStarted => 1
    case _ => 0
  }

  /** While a task is queued the dispatcher can always go on, sleeping or not (asleep, because it was
      signalled), and each of its steps brings it nearer to taking a task, unless it gets stuck. */
  lemma Progress(ss: seq<Sys>, es: seq<Step>, k: nat)
    requires IsRun(ss, es) && k < |ss|
    requires ss[k].rec.queue != [] && !Hung(ss[k].pc)
    ensures Enabled(ss[k], Next(ss[k])) && !ByProducer(Next(ss[k]))
    ensures ss[k].pc == Asleep ==> ss[k].wakeUp
    ensures Next(ss[k]) == Take || Hung(Apply(ss[k], Next(ss[k])).pc) ||
            StepsToTake(Apply(ss[k], Next(ss[k])).pc) < StepsToTake(ss[k].pc)
  {
    RunInv(ss, es, k);
    if ss[k].pc.Posting? {
      assert TaskInv(ss[k], ss[k].pc.t);
    }
  }

  /** No producer takes that away: it neither moves the dispatcher nor shortens the queue. */
  lemma ProducersOnlyAdd(s: Sys, e: Step)
    requires Enabled(s, e) && ByProducer(e)
    ensures Apply(s, e).pc == s.pc && s.rec.queue <= Apply(s, e).rec.queue
  {
  }

  // ---- the dispatcher waiting for itself ----

  /** The dispatcher has run task t and enters eve_dis_process_task_post_call with it. */
  predicate Turn(ss: seq<Sys>, es: seq<Step>, i: nat, t: Task)
    requires i < |es| && i < |ss|
  {
    es[i] == Post && ss[i].pc == Posting(t)
  }

  predicate CreatesSync(e: Step, t: Task, kind: Kind)
  {
    e == CreateJob(t, kind, true)
  }

  /** A synchronous background job has had a turn. */
  ghost predicate SyncBackgroundRan(ss: seq<Sys>, es: seq<Step>, k: nat)
    requires k <= |es| < |ss|
  {
    exists i, j, t {:trigger CreatesSync(es[i], t, Background), Turn(ss, es, j, t)} :: 0 <= i < k && 0 <= j < k &&
      CreatesSync(es[i], t, Background) && Turn(ss, es, j, t)
  }

  /** A synchronous one-shot job has had a turn after it was marked for rescheduling. */
  ghost predicate MarkedSyncRan(ss: seq<Sys>, es: seq<Step>, k: nat)
    requires k <= |es| < |ss|
  {
    exists i, j, m, t {:trigger CreatesSync(es[i], t, OneShot), ScheduleAgain(t) == es[j], Turn(ss, es, m, t)} ::
      0 <= i < k && 0 <= j < m < k && CreatesSync(es[i], t, OneShot) && es[j] == ScheduleAgain(t) && Turn(ss, es, m, t)
  }

  /** The dispatcher has seen packets in the queue of task t after its turn and goes to schedule it; the task is not
      queued. */
  predicate AnotherTurn(ss: seq<Sys>, es: seq<Step>, i: nat, t: Task)
    requires i < |es| && i < |ss|
  {
    es[i] == PostAgain && ss[i].pc == Again(t) && t !in ss[i].rec.queue
  }

  /** A callback, having enqueued a packet, goes to schedule task t, which is not queued. */
  predicate CallbackEnqueues(ss: seq<Sys>, es: seq<Step>, i: nat, t: Task)
    requires i < |es| && i < |ss|
  {
    es[i] == CallbackSchedules(t) && t !in ss[i].rec.queue
  }

  /** A synchronous packet-queue job had packets left after a turn, or a callback enqueued one for it. */
  ghost predicate SyncPktQScheduled(ss: seq<Sys>, es: seq<Step>, k: nat)
    requires k <= |es| < |ss|
  {
    exists i, j, t {:trigger CreatesSync(es[i], t, PktQJob), AnotherTurn(ss, es, j, t)}
      {:trigger CreatesSync(es[i], t, PktQJob), CallbackEnqueues(ss, es, j, t)} ::
      0 <= i < k && 0 <= j < k && CreatesSync(es[i], t, PktQJob)
        && (AnotherTurn(ss, es, j, t) || CallbackEnqueues(ss, es, j, t))
  }

  /** A callback has created a synchronous job. */
  predicate SyncInCallback(es: seq<Step>, k: nat)
    requires k <= |es|
  {
    exists i | 0 <= i < k :: es[i].CallbackCreates? && es[i].sync
  }

  lemma StaysHung(s: Sys, e: Step)
    requires Enabled(s, e) && Hung(s.pc)
    ensures Apply(s, e).pc == s.pc && Apply(s, e).ran == s.ran
  {
  }

  /** Once it waits for itself it does so for good, running nothing any more. */
  lemma {:induction false} HungForever(ss: seq<Sys>, es: seq<Step>, k: nat, m: nat)
    requires IsRun(ss, es) && k <= m < |ss|
    requires Hung(ss[k].pc)
    ensures ss[m].pc == ss[k].pc && ss[m].ran == ss[k].ran
  {
    hide Apply, Enabled;
    if k < m {
      HungForever(ss, es, k, m - 1);
      StaysHung(ss[m - 1], es[m - 1]);
    }
  }

  lemma JobAfterScheduling(s: Sys, e: Step, t: Task)
    requires Enabled(s, e) && Schedules(e)
    ensures SameJobs(s, Apply(s, e))
  {
    hide Apply, Enabled;
    var _ := SchedulesAppends(s, e);
  }

  lemma JobAfterPost(s: Sys, t: Task)
    requires Enabled(s, Post) && t in s.kinds
    ensures var s' := Apply(s, Post);
      && t in s'.kinds && s'.kinds[t] == s.kinds[t]
      && (t in s.waiting || t in s.freed ==> t in s'.waiting || t in s'.freed)
      && (t in s.reSchedule ==> t in s'.reSchedule || s.pc == Posting(t))
  {
    hide Schedule;
    ScheduleSets();
  }

  /** What a step does to a job that exists: its kind stays, its creator waits until it is freed, and it
      stays marked until it has had a turn. */
  lemma JobAfter(s: Sys, e: Step, t: Task)
    requires Enabled(s, e) && t in s.kinds
    ensures var s' := Apply(s, e);
      && t in s'.kinds && s'.kinds[t] == s.kinds[t]
      && (t in s.waiting || t in s.freed ==> t in s'.waiting || t in s'.freed)
      && (t in s.reSchedule ==> t in s'.reSchedule || (e == Post && s.pc == Posting(t)))
  {
    hide Schedule;
    ScheduleSets();
    if e == Post {
      JobAfterPost(s, t);
    } else if Schedules(e) {
      JobAfterScheduling(s, e, t);
    }
  }

  lemma CreatedWaits(s: Sys, t: Task, kind: Kind)
    ensures var s' := Created(s, t, kind, true); t in s'.kinds && s'.kinds[t] == kind && t in s'.waiting
  {
  }

  /** A job created synchronously keeps its kind, and its creator waits until it is freed. */
  lemma {:induction false} WaitsUntilFreed(ss: seq<Sys>, es: seq<Step>, i: nat, k: nat, t: Task, kind: Kind)
    requires IsRun(ss, es) && i < k < |ss| && CreatesSync(es[i], t, kind)
    ensures t in ss[k].kinds && ss[k].kinds[t] == kind && (t in ss[k].waiting || t in ss[k].freed)
  {
    hide Schedule, Created, Enabled;
    var s := ss[k - 1];
    assert Enabled(s, es[k - 1]) && ss[k] == Apply(s, es[k - 1]);
    if i + 1 < k {
      WaitsUntilFreed(ss, es, i, k - 1, t, kind);
      JobAfter(s, es[k - 1], t);
    } else {
      CreatedWaits(s, t, kind);
    }
  }

  lemma Marked(s: Sys, t: Task)
    requires Enabled(s, ScheduleAgain(t))
    ensures t in s.kinds && t in Apply(s, ScheduleAgain(t)).reSchedule
  {
  }

  lemma {:induction false} KindsStay(ss: seq<Sys>, es: seq<Step>, i: nat, k: nat, t: Task)
    requires IsRun(ss, es) && i <= k < |ss| && t in ss[i].kinds
    ensures t in ss[k].kinds
  {
    hide Apply, Enabled;
    if i < k {
      KindsStay(ss, es, i, k - 1, t);
      assert Enabled(ss[k - 1], es[k - 1]) && ss[k] == Apply(ss[k - 1], es[k - 1]);
      JobAfter(ss[k - 1], es[k - 1], t);
    }
  }

  /** A mark stays until the task has had a turn. */
  lemma {:induction false} MarkedUntilTurn(ss: seq<Sys>, es: seq<Step>, j: nat, m: nat, t: Task)
    requires IsRun(ss, es) && j < m < |ss| && es[j] == ScheduleAgain(t)
    ensures t in ss[m].reSchedule || exists n :: j < n < m && Turn(ss, es, n, t)
  {
    hide Apply, Enabled;
    var s := ss[m - 1];
    assert Enabled(s, es[m - 1]) && ss[m] == Apply(s, es[m - 1]) && Enabled(ss[j], es[j]);
    Marked(ss[j], t);
    if j + 1 < m {
      MarkedUntilTurn(ss, es, j, m - 1, t);
      KindsStay(ss, es, j, m - 1, t);
      JobAfter(s, es[m - 1], t);
      if t in s.reSchedule && t !in ss[m].reSchedule {
        assert Turn(ss, es, m - 1, t);
      }
    }
  }

  lemma CreatedBefore(ss: seq<Sys>, es: seq<Step>, i: nat, j: nat, t: Task)
    requires IsRun(ss, es) && i < |es| && j < |es| && es[i].CreateJob? && es[i].t == t && t in ss[j].kinds
    ensures i < j
  {
    assert Enabled(ss[i], es[i]);
    if j <= i {
      KindsStay(ss, es, j, i, t);
    }
  }

  lemma CreatedBeforeTurn(ss: seq<Sys>, es: seq<Step>, i: nat, j: nat, t: Task)
    requires IsRun(ss, es) && i < |es| && j < |es| && es[i].CreateJob? && es[i].t == t && Turn(ss, es, j, t)
    ensures i < j
  {
    RunInv(ss, es, j);
    assert TaskInv(ss[j], t);
    CreatedBefore(ss, es, i, j, t);
  }

  /** The ways into it, each from the moment the task has its turn, the callback creates the job or it is
      scheduled again. */
  lemma SyncBackgroundHangs(ss: seq<Sys>, es: seq<Step>, k: nat, i: nat, j: nat, t: Task)
    requires IsRun(ss, es) && k < |ss| && i < k && j < k && CreatesSync(es[i], t, Background) && Turn(ss, es, j, t)
    ensures Hung(ss[k].pc)
  {
    CreatedBeforeTurn(ss, es, i, j, t);
    WaitsUntilFreed(ss, es, i, j, t, Background);
    RunInv(ss, es, j);
    assert TaskInv(ss[j], t) && ss[j + 1] == Apply(ss[j], es[j]);
    HungForever(ss, es, j + 1, k);
  }

  lemma {:induction false} MarkedSyncHangs(ss: seq<Sys>, es: seq<Step>, k: nat, i: nat, j: nat, m: nat, t: Task)
    requires IsRun(ss, es) && k < |ss| && i < k && j < m < k
    requires CreatesSync(es[i], t, OneShot) && es[j] == ScheduleAgain(t) && Turn(ss, es, m, t)
    ensures Hung(ss[k].pc)
    decreases m
  {
    CreatedBeforeTurn(ss, es, i, m, t);
    WaitsUntilFreed(ss, es, i, m, t, OneShot);
    MarkedUntilTurn(ss, es, j, m, t);
    if t in ss[m].reSchedule {
      RunInv(ss, es, m);
      assert TaskInv(ss[m], t) && ss[m + 1] == Apply(ss[m], es[m]);
      HungForever(ss, es, m + 1, k);
    } else {
      var n :| j < n < m && Turn(ss, es, n, t);
      MarkedSyncHangs(ss, es, k, i, j, n, t);
    }
  }

  lemma SyncPktQHangs(ss: seq<Sys>, es: seq<Step>, k: nat, i: nat, j: nat, t: Task)
    requires IsRun(ss, es) && k < |ss| && i < k && j < k && CreatesSync(es[i], t, PktQJob)
    requires AnotherTurn(ss, es, j, t) || CallbackEnqueues(ss, es, j, t)
    ensures Hung(ss[k].pc)
  {
    RunInv(ss, es, j);
    assert TaskInv(ss[j], t) && Enabled(ss[j], es[j]) && ss[j + 1] == Apply(ss[j], es[j]);
    CreatedBefore(ss, es, i, j, t);
    WaitsUntilFreed(ss, es, i, j, t, PktQJob);
    HungForever(ss, es, j + 1, k);
  }

  lemma SyncInCallbackHangs(ss: seq<Sys>, es: seq<Step>, k: nat, i: nat)
    requires IsRun(ss, es) && k < |ss| && i < k && es[i].CallbackCreates? && es[i].sync
    ensures Hung(ss[k].pc)
  {
    assert Enabled(ss[i], es[i]) && ss[i + 1] == Apply(ss[i], es[i]);
    HungForever(ss, es, i + 1, k);
  }

  lemma NewlyWaiting(s: Sys, e: Step, t: Task)
    requires Enabled(s, e) && t !in s.waiting && t in Apply(s, e).waiting
    ensures (e.CreateJob? || e.CallbackCreates?) && e.t == t && e.sync
    ensures t in Apply(s, e).kinds && Apply(s, e).kinds[t] == e.kind && (e.CallbackCreates? ==> Hung(Apply(s, e).pc))
  {
    hide NeedsSignal, Scheduled;
  }

  lemma NewlyMarked(s: Sys, e: Step, t: Task)
    requires Enabled(s, e) && t !in s.reSchedule && t in Apply(s, e).reSchedule
    ensures e == ScheduleAgain(t)
  {
    hide NeedsSignal, Scheduled;
  }

  /** Unless the dispatcher waits for itself already, whoever waits has called task_create_new_job_synchronous. */
  lemma {:induction false} CreatedBySomeone(ss: seq<Sys>, es: seq<Step>, k: nat, t: Task) returns (i: nat)
    requires IsRun(ss, es) && k < |ss| && !Hung(ss[k].pc) && t in ss[k].waiting
    ensures i < k && t in ss[k].kinds && CreatesSync(es[i], t, ss[k].kinds[t])
  {
    hide Apply, Enabled;
    var p := k - 1;
    assert Enabled(ss[p], es[p]) && ss[k] == Apply(ss[p], es[p]);
    if Hung(ss[p].pc) {
      StaysHung(ss[p], es[p]);
    }
    if t in ss[p].waiting {
      i := CreatedBySomeone(ss, es, p, t);
      JobAfter(ss[p], es[p], t);
    } else {
      NewlyWaiting(ss[p], es[p], t);
      i := p;
    }
  }

  lemma {:induction false} MarkedBySomeone(ss: seq<Sys>, es: seq<Step>, k: nat, t: Task) returns (j: nat)
    requires IsRun(ss, es) && k < |ss| && t in ss[k].reSchedule
    ensures j < k && es[j] == ScheduleAgain(t)
  {
    hide Apply, Enabled;
    var p := k - 1;
    assert Enabled(ss[p], es[p]) && ss[k] == Apply(ss[p], es[p]);
    if t in ss[p].reSchedule {
      j := MarkedBySomeone(ss, es, p, t);
    } else {
      NewlyMarked(ss[p], es[p], t);
      j := p;
    }
  }

  /** The steps that make the dispatcher wait for itself. */
  lemma HangsNow(s: Sys, e: Step)
    requires Enabled(s, e) && !Hung(s.pc) && Hung(Apply(s, e).pc)
    ensures if e == Post then
        s.pc.Posting? && s.pc.t in s.waiting && s.pc.t in s.kinds &&
        (s.kinds[s.pc.t] == Background || (s.kinds[s.pc.t] == OneShot && s.pc.t in s.reSchedule))
      else e == PostAgain || e.CallbackSchedules? || (e.CallbackCreates? && e.sync)
  {
    hide Schedule;
    ScheduleSets();
  }

  lemma HungByPost(ss: seq<Sys>, es: seq<Step>, p: nat)
    requires IsRun(ss, es) && p < |es| && es[p] == Post && ss[p].pc.Posting? && ss[p].pc.t in ss[p].waiting
      && ss[p].pc.t in ss[p].kinds
    requires var t := ss[p].pc.t; ss[p].kinds[t] == Background || (ss[p].kinds[t] == OneShot && t in ss[p].reSchedule)
    ensures SyncBackgroundRan(ss, es, p + 1) || MarkedSyncRan(ss, es, p + 1)
  {
    hide Apply, Enabled;
    var t := ss[p].pc.t;
    assert Turn(ss, es, p, t);
    var i := CreatedBySomeone(ss, es, p, t);
    if ss[p].kinds[t] == Background {
      assert CreatesSync(es[i], t, Background);
    } else {
      assert CreatesSync(es[i], t, OneShot);
      var j := MarkedBySomeone(ss, es, p, t);
      assert es[j] == ScheduleAgain(t);
    }
  }

  lemma HungByPktQ(ss: seq<Sys>, es: seq<Step>, p: nat)
    requires IsRun(ss, es) && p < |es| && (es[p] == PostAgain || es[p].CallbackSchedules?)
    requires !Hung(ss[p].pc) && Hung(ss[p + 1].pc)
    ensures SyncPktQScheduled(ss, es, p + 1)
  {
    assert Enabled(ss[p], es[p]) && ss[p + 1] == Apply(ss[p], es[p]);
    var t := if es[p] == PostAgain then ss[p].pc.t else es[p].t;
    assert t in ss[p].waiting && t !in ss[p].rec.queue;
    RunInv(ss, es, p);
    assert TaskInv(ss[p], t);
    var i := CreatedBySomeone(ss, es, p, t);
    assert CreatesSync(es[i], t, PktQJob) && (AnotherTurn(ss, es, p, t) || CallbackEnqueues(ss, es, p, t));
  }

  lemma {:induction false} HungHasCause(ss: seq<Sys>, es: seq<Step>, k: nat)
    requires IsRun(ss, es) && k < |ss| && Hung(ss[k].pc)
    ensures SyncBackgroundRan(ss, es, k) || MarkedSyncRan(ss, es, k) || SyncInCallback(es, k)
      || SyncPktQScheduled(ss, es, k)
  {
    hide Apply, Enabled;
    var p := k - 1;
    assert Enabled(ss[p], es[p]) && ss[k] == Apply(ss[p], es[p]);
    if Hung(ss[p].pc) {
      HungHasCause(ss, es, p);
    } else {
      HangsNow(ss[p], es[p]);
      if es[p] == Post {
        HungByPost(ss, es, p);
      } else if es[p] == PostAgain || es[p].CallbackSchedules? {
        HungByPktQ(ss, es, p);
      }
    }
  }

  lemma HungIfBackground(ss: seq<Sys>, es: seq<Step>, k: nat)
    requires IsRun(ss, es) && k < |ss| && SyncBackgroundRan(ss, es, k)
    ensures Hung(ss[k].pc)
  {
    hide Apply, Enabled, Hung, Turn, CreatesSync;
    var i, j, t :| 0 <= i < k && 0 <= j < k && CreatesSync(es[i], t, Background) && Turn(ss, es, j, t);
    SyncBackgroundHangs(ss, es, k, i, j, t);
  }

  lemma HungIfMarked(ss: seq<Sys>, es: seq<Step>, k: nat)
    requires IsRun(ss, es) && k < |ss| && MarkedSyncRan(ss, es, k)
    ensures Hung(ss[k].pc)
  {
    hide Apply, Enabled, Hung, Turn, CreatesSync;
    var i, j, m, t :| 0 <= i < k && 0 <= j < m < k && CreatesSync(es[i], t, OneShot) && es[j] == ScheduleAgain(t)
      && Turn(ss, es, m, t);
    MarkedSyncHangs(ss, es, k, i, j, m, t);
  }

  lemma HungIfPktQ(ss: seq<Sys>, es: seq<Step>, k: nat)
    requires IsRun(ss, es) && k < |ss| && SyncPktQScheduled(ss, es, k)
    ensures Hung(ss[k].pc)
  {
    hide Apply, Enabled, Hung, AnotherTurn, CallbackEnqueues, CreatesSync;
    var i, j, t :| 0 <= i < k && 0 <= j < k && CreatesSync(es[i], t, PktQJob)
      && (AnotherTurn(ss, es, j, t) || CallbackEnqueues(ss, es, j, t));
    SyncPktQHangs(ss, es, k, i, j, t);
  }

  lemma HungIfInCallback(ss: seq<Sys>, es: seq<Step>, k: nat)
    requires IsRun(ss, es) && k < |ss| && SyncInCallback(es, k)
    ensures Hung(ss[k].pc)
  {
    hide Apply, Enabled, Hung;
    var i :| 0 <= i < k && es[i].CallbackCreates? && es[i].sync;
    SyncInCallbackHangs(ss, es, k, i);
  }

  /** Over any run, the dispatcher has come to wait for itself if and only if a synchronous background job
      has had a turn, or a synchronous one-shot job had one after task_schedule_again, or a callback has
      created a synchronous job, or a synchronous packet-queue job had packets left after a turn or was
      scheduled by a callback. */
  lemma StuckExactlyWhen(ss: seq<Sys>, es: seq<Step>, k: nat)
    requires IsRun(ss, es) && k < |ss|
    ensures Hung(ss[k].pc) <==>
      SyncBackgroundRan(ss, es, k) || MarkedSyncRan(ss, es, k) || SyncInCallback(es, k) || SyncPktQScheduled(ss, es, k)
  {
    hide Apply, Enabled, Hung, SyncBackgroundRan, MarkedSyncRan, SyncInCallback, SyncPktQScheduled;
    if Hung(ss[k].pc) {
      HungHasCause(ss, es, k);
    } else if SyncBackgroundRan(ss, es, k) {
      HungIfBackground(ss, es, k);
    } else if MarkedSyncRan(ss, es, k) {
      HungIfMarked(ss, es, k);
    } else if SyncInCallback(es, k) {
      HungIfInCallback(ss, es, k);
    } else if SyncPktQScheduled(ss, es, k) {
      HungIfPktQ(ss, es, k);
    }
  }

  /** So callers keep it going who never create a background or packet-queue job synchronously, nor mark a
      synchronous job for rescheduling, nor create a synchronous job in a callback. */
  lemma NeverStuck(ss: seq<Sys>, es: seq<Step>, k: nat)
    requires IsRun(ss, es) && k < |ss|
    requires forall i, t {:trigger CreatesSync(es[i], t, Background)} | 0 <= i < |es| ::
      !CreatesSync(es[i], t, Background)
    requires forall i, t {:trigger CreatesSync(es[i], t, PktQJob)} | 0 <= i < |es| :: !CreatesSync(es[i], t, PktQJob)
    requires forall i, j, t {:trigger CreatesSync(es[i], t, OneShot), es[j]} | 0 <= i < |es| && 0 <= j < |es| ::
      CreatesSync(es[i], t, OneShot) ==> es[j] != ScheduleAgain(t)
    requires forall i | 0 <= i < |es| :: es[i].CallbackCreates? ==> !es[i].sync
    ensures !Hung(ss[k].pc)
  {
    StuckExactlyWhen(ss, es, k);
  }

  lemma ScheduledGrows(s: Sys, e: Step)
    requires Enabled(s, e)
    ensures s.scheduled <= Apply(s, e).scheduled
  {
  }

  lemma {:induction false} ScheduledOnce(ss: seq<Sys>, es: seq<Step>, i: nat, k: nat, t: Task)
    requires IsRun(ss, es) && i < k < |ss| && es[i].CreateJob? && es[i].t == t
    ensures t in ss[k].scheduled
  {
    var p := k - 1;
    assert Enabled(ss[p], es[p]) && ss[k] == Apply(ss[p], es[p]);
    if i < p {
      ScheduledOnce(ss, es, i, p, t);
      ScheduledGrows(ss[p], es[p]);
    }
  }

  /** Whom the dispatcher leaves waiting. */
  lemma WaitingWhenQuiet(ss: seq<Sys>, es: seq<Step>, k: nat, t: Task)
    requires IsRun(ss, es) && k < |ss| && ss[k].pc == Asleep && ss[k].rec.queue == []
    ensures t in ss[k].waiting <==> exists i :: 0 <= i < k && CreatesSync(es[i], t, PktQJob)
    ensures t in ss[k].waiting ==> t in ss[k].ran
  {
    RunInv(ss, es, k);
    assert TaskInv(ss[k], t);
    if t in ss[k].waiting {
      var i := CreatedBySomeone(ss, es, k, t);
      assert CreatesSync(es[i], t, PktQJob);
      ScheduledOnce(ss, es, i, k, t);
    }
    if i :| 0 <= i < k && CreatesSync(es[i], t, PktQJob) {
      WaitsUntilFreed(ss, es, i, k, t, PktQJob);
    }
  }

  // ---- which jobs get another turn ----

  /** A background job, or a one-shot job that was marked for rescheduling, goes to the end of the queue when its turn
      is over; any other one-shot job is freed; a packet-queue job is on its way there if packets are left. */
  lemma AfterTurn(ss: seq<Sys>, es: seq<Step>, j: nat, t: Task)
    requires IsRun(ss, es) && j < |es| && Turn(ss, es, j, t)
    ensures t in ss[j].kinds
    ensures ss[j].kinds[t] == Background || (ss[j].kinds[t] == OneShot && t in ss[j].reSchedule) ==>
      ss[j + 1].rec.queue == ss[j].rec.queue + [t] && ss[j + 1].freed == ss[j].freed
    ensures ss[j].kinds[t] == OneShot && t !in ss[j].reSchedule ==>
      ss[j + 1].rec.queue == ss[j].rec.queue && ss[j + 1].freed == ss[j].freed + {t}
    ensures ss[j].kinds[t] == PktQJob ==>
      && t in ss[j].packets && ss[j + 1].rec.queue == ss[j].rec.queue && ss[j + 1].freed == ss[j].freed
      && ss[j + 1].pc == if ss[j].packets[t] == [] then Finishing else Again(t)
  {
    RunInv(ss, es, j);
    assert TaskInv(ss[j], t) && Enabled(ss[j], es[j]) && ss[j + 1] == Apply(ss[j], es[j]);
    hide NeedsSignal;
  }

  /** Turn j of task t is its last. */
  ghost predicate LastTurn(ss: seq<Sys>, es: seq<Step>, j: nat, t: Task)
    requires j < |es| && j < |ss|
  {
    Turn(ss, es, j, t) && t in ss[j].kinds && ss[j].kinds[t] == OneShot && t !in ss[j].reSchedule
  }

  /** What the end of a turn does to a job's mark and whether it is freed, and what other steps do. */
  lemma JobByPost(s: Sys, t: Task)
    requires Enabled(s, Post)
    ensures var s', mine := Apply(s, Post), s.pc == Posting(t);
      && (t in s'.freed <==> t in s.freed || (mine && s.kinds[t] == OneShot && t !in s.reSchedule))
      && (t in s'.reSchedule <==> t in s.reSchedule && !(mine && s.kinds[t] == OneShot))
      && s'.kinds == s.kinds
  {
    hide Schedule;
    ScheduleSets();
  }

  lemma JobByCreation(s: Sys, e: Step)
    requires Enabled(s, e) && (e.CreateJob? || e.CallbackCreates?)
    ensures var s' := Apply(s, e);
      s'.freed == s.freed && s'.reSchedule == s.reSchedule && s'.kinds == s.kinds[e.t := e.kind]
  {
    hide Schedule;
    ScheduleSets();
  }

  lemma JobByProducer(s: Sys, e: Step, t: Task)
    requires Enabled(s, e) && (e.InitPktQ? || e.Push? || e.Check? || e.ScheduleAgain?)
    ensures var s' := Apply(s, e);
      && s'.freed == s.freed && (t in s'.reSchedule <==> t in s.reSchedule || e == ScheduleAgain(t))
      && (t in s.kinds ==> t in s'.kinds && s'.kinds[t] == s.kinds[t])
  {
  }

  lemma JobByDispatcher(s: Sys, e: Step)
    requires Enabled(s, e) && !ByProducer(e) && !ByCallback(e) && e != Post && e != PostAgain
    ensures SameJobs(s, Apply(s, e))
  {
  }

  lemma JobByOther(s: Sys, e: Step, t: Task)
    requires Enabled(s, e) && e != Post && !Schedules(e)
    ensures var s' := Apply(s, e);
      && s'.freed == s.freed && (t in s'.reSchedule <==> t in s.reSchedule || e == ScheduleAgain(t))
      && (t in s.kinds ==> t in s'.kinds && s'.kinds[t] == s.kinds[t])
  {
    hide Apply;
    if e.CreateJob? || e.CallbackCreates? {
      JobByCreation(s, e);
    } else if ByProducer(e) {
      JobByProducer(s, e, t);
    } else {
      JobByDispatcher(s, e);
    }
  }

  lemma FreedByTurn(s: Sys, e: Step, t: Task)
    requires Enabled(s, e)
    ensures t in Apply(s, e).freed <==>
      t in s.freed || (e == Post && s.pc == Posting(t) && s.kinds[t] == OneShot && t !in s.reSchedule)
  {
    hide Apply, Enabled;
    if e == Post {
      JobByPost(s, t);
    } else if Schedules(e) {
      JobAfterScheduling(s, e, t);
    } else {
      JobByOther(s, e, t);
    }
  }

  /** A job is freed if and only if it is one-shot and has had a turn for which it was not marked: so a background
      job never is, and runs again and again. */
  lemma {:induction false} FreedExactly(ss: seq<Sys>, es: seq<Step>, k: nat, t: Task)
    requires IsRun(ss, es) && k < |ss|
    ensures t in ss[k].freed <==> exists j :: 0 <= j < k && LastTurn(ss, es, j, t)
  {
    hide Apply;
    if k > 0 {
      FreedExactly(ss, es, k - 1, t);
      assert Enabled(ss[k - 1], es[k - 1]) && ss[k] == Apply(ss[k - 1], es[k - 1]);
      FreedByTurn(ss[k - 1], es[k - 1], t);
      assert LastTurn(ss, es, k - 1, t) <==>
        es[k - 1] == Post && ss[k - 1].pc == Posting(t) && ss[k - 1].kinds[t] == OneShot && t !in ss[k - 1].reSchedule;
    }
  }

  /** Until then it is queued, or the dispatcher is at work on it or waits for it. */
  lemma NotForgotten(ss: seq<Sys>, es: seq<Step>, k: nat, t: Task)
    requires IsRun(ss, es) && k < |ss| && t in ss[k].kinds && ss[k].kinds[t] != PktQJob
    requires forall j | 0 <= j < k :: !LastTurn(ss, es, j, t)
    ensures t in ss[k].rec.queue || Active(ss[k], t)
  {
    FreedExactly(ss, es, k, t);
    RunInv(ss, es, k);
    assert TaskInv(ss[k], t);
  }

  ghost predicate MarkedSince(ss: seq<Sys>, es: seq<Step>, i: nat, k: nat, t: Task)
    requires k <= |es| < |ss|
  {
    i < k && es[i] == ScheduleAgain(t) && forall j | i < j < k :: !Turn(ss, es, j, t)
  }

  lemma MarkedByCall(s: Sys, e: Step, t: Task)
    requires Enabled(s, e) && (t in s.reSchedule ==> t in s.kinds && s.kinds[t] == OneShot)
    requires t in s.kinds || e != ScheduleAgain(t)
    ensures t in Apply(s, e).reSchedule <==>
      e == ScheduleAgain(t) || (t in s.reSchedule && !(e == Post && s.pc == Posting(t)))
    ensures t in s.kinds ==> t in Apply(s, e).kinds && Apply(s, e).kinds[t] == s.kinds[t]
  {
    hide Apply, Enabled;
    if e == Post {
      JobByPost(s, t);
    } else if Schedules(e) {
      JobAfterScheduling(s, e, t);
    } else {
      JobByOther(s, e, t);
    }
  }

  /** A job is marked if and only if task_schedule_again was called for it and it has had no turn since. */
  lemma {:induction false} MarkedExactly(ss: seq<Sys>, es: seq<Step>, k: nat, t: Task)
    requires IsRun(ss, es) && k < |ss|
    ensures t in ss[k].reSchedule <==> exists i :: 0 <= i && MarkedSince(ss, es, i, k, t)
    ensures t in ss[k].reSchedule ==> t in ss[k].kinds && ss[k].kinds[t] == OneShot
  {
    hide Apply;
    if k > 0 {
      var p := k - 1;
      MarkedExactly(ss, es, p, t);
      assert Enabled(ss[p], es[p]) && ss[k] == Apply(ss[p], es[p]);
      MarkedByCall(ss[p], es[p], t);
      if es[p] == ScheduleAgain(t) {
        assert MarkedSince(ss, es, p, k, t);
      } else if Turn(ss, es, p, t) {
        assert forall i | 0 <= i < p :: !MarkedSince(ss, es, i, k, t);
      } else {
        assert forall i | 0 <= i < p :: MarkedSince(ss, es, i, k, t) <==> MarkedSince(ss, es, i, p, t);
      }
    }
  }

  // ---- who waits ----

  predicate CreatesWaiting(e: Step, t: Task)
  {
    (e.CreateJob? || e.CallbackCreates?) && e.t == t && e.sync
  }

  lemma WaitingByPost(s: Sys, t: Task)
    requires Enabled(s, Post)
    ensures t in Apply(s, Post).waiting <==>
      t in s.waiting && !(s.pc == Posting(t) && s.kinds[t] == OneShot && t !in s.reSchedule)
  {
    hide Schedule;
    ScheduleSets();
  }

  lemma WaitingByOther(s: Sys, e: Step, t: Task)
    requires Enabled(s, e) && e != Post && !Schedules(e)
    ensures t in Apply(s, e).waiting <==> t in s.waiting || CreatesWaiting(e, t)
  {
    hide Schedule;
    ScheduleSets();
  }

  lemma WaitingAfter(s: Sys, e: Step, t: Task)
    requires Enabled(s, e)
    ensures t in Apply(s, e).waiting <==>
      || CreatesWaiting(e, t)
      || (t in s.waiting && !(e == Post && s.pc == Posting(t) && s.kinds[t] == OneShot && t !in s.reSchedule))
  {
    hide Apply, Enabled;
    if e == Post {
      WaitingByPost(s, t);
    } else if Schedules(e) {
      JobAfterScheduling(s, e, t);
    } else {
      WaitingByOther(s, e, t);
    }
  }

  /** Over any run: someone waits for a job from the moment it is created synchronously until it is freed. */
  lemma {:induction false} WaitingExactly(ss: seq<Sys>, es: seq<Step>, k: nat, t: Task)
    requires IsRun(ss, es) && k < |ss|
    ensures t in ss[k].waiting <==> t !in ss[k].freed && exists i :: 0 <= i < k && CreatesWaiting(es[i], t)
  {
    RunInv(ss, es, k);
    assert TaskInv(ss[k], t);
    hide Inv, Apply;
    if k > 0 {
      var p := k - 1;
      WaitingExactly(ss, es, p, t);
      RunInv(ss, es, p);
      assert TaskInv(ss[p], t) && Enabled(ss[p], es[p]) && ss[k] == Apply(ss[p], es[p]);
      WaitingAfter(ss[p], es[p], t);
      FreedByTurn(ss[p], es[p], t);
    }
  }

  /** In step i a producer puts task t, for which someone waits, on the queue. */
  predicate HoldsUp(ss: seq<Sys>, es: seq<Step>, i: nat, t: Task)
    requires i < |es| && i < |ss|
  {
    es[i] == ScheduleIt(t) && t in ss[i].waiting && t !in ss[i].rec.queue
  }

  lemma HeldByOther(s: Sys, e: Step)
    requires Enabled(s, e) && !Schedules(e)
    ensures Apply(s, e).held == s.held
  {
    hide Schedule;
    ScheduleSets();
  }

  lemma HeldAfter(s: Sys, e: Step, t: Task)
    requires Enabled(s, e)
    ensures t in Apply(s, e).held <==> t in s.held || (e == ScheduleIt(t) && t in s.waiting && t !in s.rec.queue)
  {
    hide Apply, Enabled;
    match e
    case ScheduleIt(x) => ScheduleItSets(s, x);
    case CallbackSchedules(x) => CallbackSchedulesSets(s, x);
    case PostAgain => PostAgainSets(s);
    case _ => HeldByOther(s, e);
  }

  /** And the producers that wait, for good, are those that put such a job on the queue themselves. */
  lemma {:induction false} HeldExactly(ss: seq<Sys>, es: seq<Step>, k: nat, t: Task)
    requires IsRun(ss, es) && k < |ss|
    ensures t in ss[k].held <==> exists i :: 0 <= i < k && HoldsUp(ss, es, i, t)
  {
    hide Apply;
    if k > 0 {
      HeldExactly(ss, es, k - 1, t);
      assert Enabled(ss[k - 1], es[k - 1]) && ss[k] == Apply(ss[k - 1], es[k - 1]);
      HeldAfter(ss[k - 1], es[k - 1], t);
      assert HoldsUp(ss, es, k - 1, t) <==>
        es[k - 1] == ScheduleIt(t) && t in ss[k - 1].waiting && t !in ss[k - 1].rec.queue;
    }
  }

  // ---- when the dispatcher sleeps ----

  predicate AsleepSince(es: seq<Step>, i: nat, k: nat)
    requires k <= |es|
  {
    i < k && es[i] == GoIdle && forall j | i < j < k :: es[j] != Wake
  }

  lemma SleepByOther(s: Sys, e: Step)
    requires Enabled(s, e) && !Schedules(e)
    ensures Apply(s, e).pc == Asleep <==> e == GoIdle || (s.pc == Asleep && e != Wake)
  {
    hide Schedule;
    ScheduleSets();
  }

  lemma SleepAfter(s: Sys, e: Step)
    requires Enabled(s, e)
    ensures Apply(s, e).pc == Asleep <==> e == GoIdle || (s.pc == Asleep && e != Wake)
  {
    hide Apply;
    match e
    case ScheduleIt(x) => ScheduleItSets(s, x);
    case CallbackSchedules(x) => CallbackSchedulesSets(s, x);
    case PostAgain => PostAgainSets(s);
    case _ => SleepByOther(s, e);
  }

  /** The dispatcher sleeps from the moment it finds nothing queued until it wakes up. */
  lemma {:induction false} AsleepExactly(ss: seq<Sys>, es: seq<Step>, k: nat)
    requires IsRun(ss, es) && k < |ss|
    ensures ss[k].pc == Asleep <==> exists i :: 0 <= i && AsleepSince(es, i, k)
  {
    hide Apply;
    if k > 0 {
      var p := k - 1;
      AsleepExactly(ss, es, p);
      assert Enabled(ss[p], es[p]) && ss[k] == Apply(ss[p], es[p]);
      SleepAfter(ss[p], es[p]);
      if es[p] == GoIdle {
        assert AsleepSince(es, p, k);
      } else if es[p] != Wake {
        assert forall i | 0 <= i < p :: AsleepSince(es, i, k) <==> AsleepSince(es, i, p);
      }
    }
  }

  // ---- packets and signals ----

  /** In steps i up to k nothing is enqueued for task t and nothing taken out of its queue. */
  predicate QueueAlone(ss: seq<Sys>, es: seq<Step>, i: nat, k: nat, t: Task)
    requires k <= |es| < |ss|
  {
    forall j | i <= j < k :: !(es[j].Push? && es[j].t == t) && !(es[j] == GetPkt && ss[j].pc == Running(t))
  }

  lemma PacketsAfterScheduling(s: Sys, e: Step)
    requires Enabled(s, e) && Schedules(e)
    ensures Apply(s, e).packets == s.packets
  {
    hide Apply, Enabled;
    var _ := SchedulesAppends(s, e);
  }

  lemma PacketsAfter(s: Sys, e: Step, t: Task)
    requires Enabled(s, e) && t in s.packets && t in s.kinds
    requires !(e.Push? && e.t == t) && !(e == GetPkt && s.pc == Running(t))
    ensures t in Apply(s, e).packets && Apply(s, e).packets[t] == s.packets[t]
  {
    hide Schedule;
    ScheduleSets();
    if Schedules(e) {
      PacketsAfterScheduling(s, e);
    }
  }

  lemma {:induction false} PacketStays(ss: seq<Sys>, es: seq<Step>, i: nat, k: nat, t: Task)
    requires IsRun(ss, es) && i <= k <= |es| && t in ss[i].packets && QueueAlone(ss, es, i, k, t)
    ensures t in ss[k].packets && ss[k].packets[t] == ss[i].packets[t]
  {
    hide Apply, Enabled, Handshake, Counted, Covered, Kept, Conserved, Alone;
    if i < k {
      PacketStays(ss, es, i, k - 1, t);
      RunInv(ss, es, k - 1);
      assert TaskInv(ss[k - 1], t);
      assert Enabled(ss[k - 1], es[k - 1]) && ss[k] == Apply(ss[k - 1], es[k - 1]);
      PacketsAfter(ss[k - 1], es[k - 1], t);
    }
  }

  /** A packet queue is a stack: a callback that takes a packet gets the one enqueued last. */
  lemma LastInFirstOut(ss: seq<Sys>, es: seq<Step>, i: nat, k: nat, t: Task, pkt: Pkt)
    requires IsRun(ss, es) && i < k < |es| && es[i] == Push(t, pkt) && QueueAlone(ss, es, i + 1, k, t)
    requires es[k] == GetPkt && ss[k].pc == Running(t)
    ensures ss[k + 1].delivered == ss[k].delivered + multiset{(t, pkt)}
    ensures t in ss[i].packets && t in ss[k + 1].packets && ss[k + 1].packets[t] == ss[i].packets[t]
  {
    assert Enabled(ss[i], es[i]) && ss[i + 1] == Apply(ss[i], es[i]);
    PacketStays(ss, es, i + 1, k, t);
    assert Enabled(ss[k], es[k]) && ss[k + 1] == Apply(ss[k], es[k]);
  }

  lemma WokenByOthers(s: Sys, e: Step)
    requires Enabled(s, e) && (ByProducer(e) || ByCallback(e)) && (s.wakeUp ==> s.rec.queue != [])
    ensures Apply(s, e).wakeUp ==> Apply(s, e).rec.queue != []
  {
    hide NeedsSignal;
  }

  lemma WokenByDispatcher(s: Sys, e: Step)
    requires Enabled(s, e) && !ByProducer(e) && !ByCallback(e) && Handshake(s) && (s.wakeUp ==> s.rec.queue != [])
    ensures Apply(s, e).wakeUp ==> Apply(s, e).rec.queue != []
  {
    hide NeedsSignal;
  }

  /** While the dispatcher sleeps a signal is on its way to it if and only if a task is queued. */
  lemma {:induction false} WokenExactly(ss: seq<Sys>, es: seq<Step>, k: nat)
    requires IsRun(ss, es) && k < |ss|
    ensures ss[k].wakeUp ==> ss[k].rec.queue != []
    ensures ss[k].pc == Asleep ==> (ss[k].wakeUp <==> ss[k].rec.queue != [])
  {
    hide Apply, Enabled, Conserved, TaskInv;
    RunInv(ss, es, k);
    if k > 0 {
      WokenExactly(ss, es, k - 1);
      RunInv(ss, es, k - 1);
      assert Enabled(ss[k - 1], es[k - 1]) && ss[k] == Apply(ss[k - 1], es[k - 1]);
      if ByProducer(es[k - 1]) || ByCallback(es[k - 1]) {
        WokenByOthers(ss[k - 1], es[k - 1]);
      } else {
        WokenByDispatcher(ss[k - 1], es[k - 1]);
      }
    }
  }

  lemma ScheduleKeepsIdle()
    ensures forall s: Sys, t {:trigger Schedule(s, t)} ::
      Schedule(s, t).rec.current == s.rec.current && Schedule(s, t).rec.idle == s.rec.idle
  {
  }

  lemma PktQKeepsIdle()
    ensures forall s: Sys, t {:trigger SchedulePktQ(s, t)} ::
      SchedulePktQ(s, t).rec.current == s.rec.current && SchedulePktQ(s, t).rec.idle == s.rec.idle
  {
    ScheduleKeepsIdle();
    hide Schedule;
  }

  lemma IdleByOthers(s: Sys, e: Step)
    requires Enabled(s, e) && (ByProducer(e) || ByCallback(e))
    ensures Apply(s, e).rec.current == s.rec.current && Apply(s, e).rec.idle == s.rec.idle
  {
    hide Schedule, SchedulePktQ, Held;
    ScheduleKeepsIdle();
    PktQKeepsIdle();
  }

  lemma IdleByDispatcher(s: Sys, e: Step)
    requires Enabled(s, e) && !ByProducer(e) && !ByCallback(e) && (s.rec.current != None ==> !s.rec.idle)
    requires s.rec.current == None || e != GoIdle
    ensures Apply(s, e).rec.current != None ==> !Apply(s, e).rec.idle
  {
    hide Schedule, SchedulePktQ, Held;
    ScheduleKeepsIdle();
    PktQKeepsIdle();
  }

  /** The dispatcher counts as idle before its first task and while it sleeps, and not while it has a task. */
  lemma {:induction false} IdleExactly(ss: seq<Sys>, es: seq<Step>, k: nat)
    requires IsRun(ss, es) && k < |ss|
    ensures ss[k].pc == NotStarted || ss[k].pc == Asleep ==> ss[k].rec.idle
    ensures ss[k].rec.current != None ==> !ss[k].rec.idle
  {
    hide Apply, Conserved, TaskInv;
    RunInv(ss, es, k);
    if k > 0 {
      IdleExactly(ss, es, k - 1);
      RunInv(ss, es, k - 1);
      assert Enabled(ss[k - 1], es[k - 1]) && ss[k] == Apply(ss[k - 1], es[k - 1]);
      if ByProducer(es[k - 1]) || ByCallback(es[k - 1]) {
        IdleByOthers(ss[k - 1], es[k - 1]);
      } else {
        IdleByDispatcher(ss[k - 1], es[k - 1]);
      }
    }
  }

  /** When the dispatcher sleeps, nothing has signalled it and no producer is half way through an
      enqueue, all work is done: every task scheduled was run, every packet was handed over, every other
      job has been freed; and those who still wait are exactly the creators of synchronous packet-queue
      jobs, which have had their turn, and the producers that put such a task on the queue. */
  lemma QuietMeansDone(ss: seq<Sys>, es: seq<Step>, k: nat)
    requires IsRun(ss, es) && k < |ss|
    requires ss[k].pc == Asleep && !ss[k].wakeUp
    requires ss[k].checking == multiset{} && ss[k].scheduling == multiset{}
    ensures ss[k].ran == ss[k].scheduled
    ensures forall t | t in ss[k].packets :: ss[k].packets[t] == []
    ensures forall t, pkt :: ss[k].entered[(t, pkt)] == ss[k].delivered[(t, pkt)]
    ensures forall t | t in ss[k].kinds && ss[k].kinds[t] != PktQJob :: t in ss[k].freed
    ensures forall t :: t in ss[k].waiting <==> exists i :: 0 <= i < k && CreatesSync(es[i], t, PktQJob)
    ensures forall t | t in ss[k].waiting :: t in ss[k].ran
    ensures forall t | t in ss[k].held :: t in ss[k].waiting
  {
    RunInv(ss, es, k);
    var s := ss[k];
    assert s.rec.queue == [];
    forall t ensures t in s.packets ==> s.packets[t] == []
      ensures t in s.kinds && s.kinds[t] != PktQJob ==> t in s.freed
      ensures t in s.held ==> t in s.waiting
    {
      assert TaskInv(s, t);
    }
    forall t ensures t in s.waiting <==> exists i :: 0 <= i < k && CreatesSync(es[i], t, PktQJob)
      ensures t in s.waiting ==> t in s.ran
    {
      WaitingWhenQuiet(ss, es, k, t);
    }
    forall t, pkt ensures s.entered[(t, pkt)] == s.delivered[(t, pkt)] {
      assert Conserved(s, t, pkt);
    }
  }

  lemma Extend(ss: seq<Sys>, es: seq<Step>, e: Step) returns (ss': seq<Sys>, es': seq<Step>)
    requires IsRun(ss, es) && Enabled(ss[|es|], e)
    ensures IsRun(ss', es') && ss'[|es'|] == Apply(ss[|es|], e) && ss <= ss' && es' == es + [e]
  {
    hide Apply, Enabled;
    ss', es' := ss + [Apply(ss[|es|], e)], es + [e];
  }

  ghost function StepsLeft(s: Sys): nat
  {
    2 * |s.checking| + |s.scheduling|
  }

  lemma ProducerStep(s: Sys) returns (e: Step)
    requires s.checking != multiset{} || s.scheduling != multiset{}
    ensures (e.Check? || e.ScheduleIt?) && Enabled(s, e) && StepsLeft(Apply(s, e)) < StepsLeft(s)
  {
    hide SchedulePktQ, Held;
    if s.checking != multiset{} {
      var t :| t in s.checking;
      assert |s.checking - multiset{t}| == |s.checking| - 1;
      assert |s.scheduling + multiset{t}| == |s.scheduling| + 1;
      e := Check(t);
    } else {
      var t :| t in s.scheduling;
      assert |s.scheduling - multiset{t}| == |s.scheduling| - 1;
      SchedulePktQSets();
      e := ScheduleIt(t);
    }
  }

  /** Every producer half way through an enqueue can finish it, wherever the dispatcher stands: the run goes on with
      their looks at the tasks, and with what they schedule, until none is left. */
  lemma {:induction false} ProducersFinish(ss: seq<Sys>, es: seq<Step>) returns (ss': seq<Sys>, es': seq<Step>)
    requires IsRun(ss, es)
    ensures IsRun(ss', es') && ss <= ss' && es <= es'
    ensures forall j | |es| <= j < |es'| :: es'[j].Check? || es'[j].ScheduleIt?
    ensures ss'[|es'|].checking == multiset{} && ss'[|es'|].scheduling == multiset{}
    decreases StepsLeft(ss[|es|])
  {
    hide Apply, Enabled;
    var s := ss[|es|];
    ss', es' := ss, es;
    if s.checking != multiset{} || s.scheduling != multiset{} {
      var e := ProducerStep(s);
      var ss1, es1 := Extend(ss, es, e);
      ss', es' := ProducersFinish(ss1, es1);
      assert es'[|es|] == es1[|es|] == e;
    }
  }

  /** What the first turn of a synchronous background job comes to, step by step. */
  lemma FirstTurn(s: Sys)
    requires s == Apply(INITIAL, CreateJob(0, Background, true))
    ensures Enabled(s, Start) && Enabled(Apply(s, Start), Take)
    ensures var s' := Apply(Apply(s, Start), Take);
      s'.pc == Running(0) && s'.kinds == map[0 := Background] && s'.waiting == {0} && s'.rec.queue == []
  {
    hide NeedsSignal;
  }

  lemma SecondHalf(s: Sys)
    requires s.pc == Running(0) && s.kinds == map[0 := Background] && s.waiting == {0}
    ensures Enabled(s, Return) && Enabled(Apply(s, Return), Post)
    ensures var s' := Apply(Apply(s, Return), Post); s'.pc == Stuck(0) && s'.rec.queue != []
  {
    hide Schedule;
    ScheduleSets();
  }

  /** This does happen: a synchronous background task is created, run once, and nothing runs again. */
  lemma StuckIsReachable() returns (ss: seq<Sys>, es: seq<Step>)
    ensures IsRun(ss, es) && Hung(ss[|es|].pc) && ss[|es|].rec.queue != []
  {
    var create := CreateJob(0, Background, true);
    assert IsRun([INITIAL], []) && Enabled(INITIAL, create);
    FirstTurn(Apply(INITIAL, create));
    SecondHalf(Apply(Apply(Apply(INITIAL, create), Start), Take));
    hide Apply;
    ss, es := Extend([INITIAL], [], create);
    ss, es := Extend(ss, es, Start);
    ss, es := Extend(ss, es, Take);
    ss, es := Extend(ss, es, Return);
    ss, es := Extend(ss, es, Post);
  }
}
