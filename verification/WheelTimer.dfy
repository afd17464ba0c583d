/** The timing wheel, server/libtimer/WheelTimer.c and WheelTimer.h.  The wheel's ghost field `plain`
    is the record of due ticks it stands for; every operation is specified by what it does to that. */
module WheelTimers {
  import opened Arithmetic
  import opened Deadlines
  import opened Lists
  import opened WheelSlots

  datatype Opcode = CREATE | RESCHED | DELETE | SCHEDULED

  datatype Resolution = Seconds | MilliSeconds

  /** What task_create_new_job is given. */
  datatype Task = Task(callback: nat, arg: nat)

  class WheelElem {
    const appCallback: nat       // 0 is the null pointer, here and in arg; it is never changed
    var opcode: Opcode
    var timeInterval: int        // milliseconds
    var newTimeInterval: int
    var executeCycleNo: int
    var slotNo: int
    var arg: nat
    var isRecurrence: bool

    constructor (callback: nat, arg: nat, recurring: bool)
      ensures opcode == CREATE && timeInterval == 0 && newTimeInterval == 0 && executeCycleNo == 0 && slotNo == 0
      ensures appCallback == callback && this.arg == arg && isRecurrence == recurring
    {
      opcode, timeInterval, newTimeInterval, executeCycleNo, slotNo := CREATE, 0, 0, 0, 0;
      appCallback, this.arg, isRecurrence := callback, arg, recurring;
    }
  }

  class WheelTimer {
    const clockTicInterval: int
    const wheelSize: int
    const resolution: Resolution
    var currentClockTic: int
    var currentCycleNo: int
    var reschdList: seq<WheelElem>
    var slots: seq<seq<WheelElem>>
    ghost var plain: Plain<WheelElem>

    /** wt_get_clock_interval_in_milli_sec. */
    function TickLength(): int
    {
      if resolution == MilliSeconds then clockTicInterval else clockTicInterval * 1000
    }

    /** GET_WT_CURRENT_ABS_SLOT_NO. */
    function AbsSlotNo(): int
      reads `currentCycleNo, `currentClockTic
    {
      currentCycleNo * wheelSize + currentClockTic
    }

    ghost predicate ClockOk()
      reads `currentCycleNo, `currentClockTic, `plain
    {
      && 0 < wheelSize && 0 < clockTicInterval
      && currentClockTic == plain.now % wheelSize && currentCycleNo == plain.now / wheelSize
    }

    /** The fields of element e say about it what p says, leaving aside what is pending. */
    ghost predicate AgreesApart(p: Plain<WheelElem>, e: WheelElem)
      requires 0 < wheelSize
      reads e
    {
      && 0 <= e.slotNo < wheelSize
      && e.appCallback != 0
      && (e.isRecurrence <==> e in p.repeats)
      && e in p.args && e.arg == p.args[e]
      && (e in p.due ==> e.slotNo == p.due[e] % wheelSize && e.executeCycleNo == p.due[e] / wheelSize)
      && (e in p.every ==> e.timeInterval == p.every[e] * TickLength())
    }

    ghost predicate Asks(opcode: Opcode, interval: int, op: Op)
    {
      match op
      case Set(ticks) => (opcode == CREATE || opcode == RESCHED) && interval == ticks * TickLength()
      case Delete => opcode == DELETE
    }

    ghost predicate OpAgrees(e: WheelElem, op: Op)
      reads e
    {
      Asks(e.opcode, e.newTimeInterval, op)
    }

    ghost predicate Agrees(p: Plain<WheelElem>, e: WheelElem)
      requires 0 < wheelSize
      reads e
    {
      AgreesApart(p, e) && if e in p.pending then OpAgrees(e, p.pending[e]) else e.opcode == SCHEDULED
    }

    ghost predicate AllAgree(p: Plain<WheelElem>)
      requires 0 < wheelSize
      reads p.live
    {
      forall e {:trigger Agrees(p, e)} | e in p.live :: Agrees(p, e)
    }

    ghost predicate KeysOk(p: Plain<WheelElem>)
    {
      p.due.Keys <= p.live && p.due.Keys <= p.every.Keys && p.pending.Keys <= p.live && p.live <= p.args.Keys
    }

    ghost predicate Linked()
      reads this, plain.live
    {
      && ClockOk()
      && SlotsOk(slots, plain.due, wheelSize)
      && ListOk(reschdList, plain.pending)
      && KeysOk(plain)
      && AllAgree(plain)
    }

    ghost predicate Valid()
      reads this, plain.live
    {
      Linked() && Ok(plain)
    }

    /** p and q say the same about element e. */
    static ghost predicate SameAt(p: Plain<WheelElem>, q: Plain<WheelElem>, e: WheelElem)
    {
      && (e in q.due ==> e in p.due && q.due[e] == p.due[e])
      && (e in q.every ==> e in p.every && q.every[e] == p.every[e])
      && (e in q.pending <==> e in p.pending) && (e in p.pending ==> q.pending[e] == p.pending[e])
      && (e in q.repeats <==> e in p.repeats)
      && (e in p.args ==> e in q.args && q.args[e] == p.args[e])
    }

    lemma AgreesToo(p: Plain<WheelElem>, q: Plain<WheelElem>, e: WheelElem)
      requires 0 < wheelSize && Agrees(p, e) && SameAt(p, q, e)
      ensures Agrees(q, e)
    {
    }

    /** What is said of all live elements but perhaps x carries over from p to q. */
    lemma AllAgreeToo(p: Plain<WheelElem>, q: Plain<WheelElem>, x: WheelElem)
      requires 0 < wheelSize && q.live <= p.live + {x}
      requires forall e {:trigger Agrees(p, e)} | e in p.live && e != x :: Agrees(p, e)
      requires forall e {:trigger SameAt(p, q, e)} | e in p.live && e != x :: SameAt(p, q, e)
      requires x in q.live ==> Agrees(q, x)
      ensures AllAgree(q)
    {
      forall e | e in q.live ensures Agrees(q, e) {
        if e != x {
          assert Agrees(p, e) && SameAt(p, q, e);
          AgreesToo(p, q, e);
        }
      }
    }

    /** init_wheel_timer. */
    constructor (size: int, interval: int, res: Resolution)
      requires 0 < size && 0 < interval
      ensures Valid()
      ensures plain == Plain(0, {}, {}, map[], map[], map[], map[])
      ensures wheelSize == size && clockTicInterval == interval && resolution == res
    {
      clockTicInterval, wheelSize, resolution := interval, size, res;
      currentClockTic, currentCycleNo := 0, 0;
      reschdList, slots := [], seq(size, _ => []);
      plain := Plain(0, {}, {}, map[], map[], map[], map[]);
    }

    // ---- the slot lists ----

    lemma SlotHas(e: WheelElem)
      requires Linked() && e in plain.live
      ensures 0 <= e.slotNo < |slots|
      ensures e in plain.due ==> e.slotNo == plain.due[e] % wheelSize
      ensures e in plain.due <==> e in slots[e.slotNo]
    {
      assert Agrees(plain, e);
      assert SlotOk(slots[e.slotNo], plain.due, wheelSize, e.slotNo);
    }

    /** remove_glthread(&wt_elem->glue). */
    method Unlink(e: WheelElem)
      requires Linked() && e in plain.live
      modifies `slots, `plain
      ensures plain == old(plain).(due := old(plain).due - {e})
      ensures Linked()
      ensures |slots| == |old(slots)|
      ensures forall i | 0 <= i < |slots| :: slots[i] == if i == e.slotNo then Without(old(slots)[i], e)
        else old(slots)[i]
    {
      ghost var p := plain;
      SlotHas(e);
      if e in p.due {
        WithoutSlots(slots, p.due, wheelSize, e);
      } else {
        assert p.due - {e} == p.due;
        assert Without(slots[e.slotNo], e) == slots[e.slotNo];
      }
      hide SlotOk, SlotsOk, Without, Agrees;
      if e in slots[e.slotNo] {
        slots := slots[e.slotNo := Without(slots[e.slotNo], e)];
      }
      plain := plain.(due := plain.due - {e});
      assert AllAgree(plain) by {
        assert Agrees(p, e);
        AgreesToo(p, plain, e);
        AllAgreeToo(p, plain, e);
      }
    }

    /** The elements of list s are in their places for the ticks in due. */
    static ghost predicate Cycled(s: seq<WheelElem>, due: map<WheelElem, nat>, n: nat)
      requires 0 < n
      reads s
    {
      && (forall a | 0 <= a < |s| :: s[a] in due && s[a].executeCycleNo == due[s[a]] / n)
      && (forall a, b | 0 <= a < b < |s| :: due[s[a]] / n <= due[s[b]] / n)
    }

    lemma SlotCycled(i: nat)
      requires Linked() && i < wheelSize
      ensures Cycled(slots[i], plain.due, wheelSize)
    {
      assert SlotOk(slots[i], plain.due, wheelSize, i);
      hide SlotsOk;
      forall a | 0 <= a < |slots[i]| ensures slots[i][a].executeCycleNo == plain.due[slots[i][a]] / wheelSize {
        assert Agrees(plain, slots[i][a]);
      }
    }

    /** The place of e, due at tick d, on a slot list. */
    method FirstLater(s: seq<WheelElem>, e: WheelElem, ghost due: map<WheelElem, nat>, ghost n: nat, ghost d: nat)
        returns (k: nat)
      requires 0 < n && Cycled(s, due, n) && e.executeCycleNo == d / n
      ensures k <= |s| && Belongs(s, due, n, k, d)
    {
      k := 0;
      while k < |s| && e.executeCycleNo >= s[k].executeCycleNo
        invariant k <= |s|
        invariant forall a | 0 <= a < k :: due[s[a]] / n <= d / n
      {
        k := k + 1;
      }
    }

    /** glthread_priority_insert into the slot of tick d, in its cycle. */
    method Insert(e: WheelElem, d: nat) returns (ghost at: nat)
      requires Linked() && e in plain.live && e !in plain.due && e in plain.every
      modifies `slots, `plain, e`executeCycleNo, e`slotNo
      ensures plain == old(plain).(due := old(plain).due[e := d])
      ensures Linked()
      ensures 0 <= d % wheelSize < |slots| == |old(slots)| && at <= |old(slots)[d % wheelSize]|
      ensures forall i | 0 <= i < |slots| ::
        slots[i] == if i == d % wheelSize then Put(old(slots)[i], at, e) else old(slots)[i]
    {
      ghost var p := plain;
      assert Agrees(p, e);
      SlotCycled(d % wheelSize);
      assert SlotOk(slots[d % wheelSize], plain.due, wheelSize, d % wheelSize);
      hide SlotOk, SlotsOk;
      e.executeCycleNo := d / wheelSize;
      e.slotNo := d % wheelSize;
      var s := slots[e.slotNo];
      var k := FirstLater(s, e, p.due, wheelSize, d);
      at := k;
      InsertSlots(slots, p.due, wheelSize, at, e, d);
      hide Belongs, Cycled, Put;
      slots := slots[e.slotNo := Put(s, k, e)];
      plain := plain.(due := plain.due[e := d]);
      assert AllAgree(plain) by {
        AllAgreeToo(p, plain, e);
      }
    }

    // ---- one tick ----

    lemma AbsSlotIsNow()
      requires ClockOk()
      ensures AbsSlotNo() == plain.now
    {
    }

    lemma TicksOf(ms: int, k: nat)
      requires 0 < clockTicInterval && ms == k * TickLength()
      ensures ms / TickLength() == k
    {
      Remainder(ms, TickLength(), k, 0);
    }

    /** Element e has left list s, or has been put back on it behind the first `at` of the others. */
    static ghost predicate Moved(s: seq<WheelElem>, s': seq<WheelElem>, p: Plain<WheelElem>, e: WheelElem, at: nat)
    {
      s' == Without(s, e) || (at < |s| && s' == Put(Without(s, e), at, e) && e in p.due && p.now < p.due[e])
    }

    lemma NextSubmission(e: WheelElem)
      requires Linked() && e in plain.live && e in plain.every
      ensures TickLength() != 0 && AbsSlotNo() + e.timeInterval / TickLength() == plain.now + plain.every[e]
    {
      assert Agrees(plain, e);
      AbsSlotIsNow();
      TicksOf(e.timeInterval, plain.every[e]);
    }

    lemma SlotSizes(e: WheelElem)
      requires Linked() && e in plain.due && e.slotNo == plain.now % wheelSize < |slots| && e in slots[e.slotNo]
      ensures e in plain.live && e in plain.every && e !in plain.due - {e}
      ensures |Without(slots[e.slotNo], e)| < |slots[e.slotNo]|
    {
    }

    /** A repeating element leaves its place and gets the one for its next submission. */
    method Relocate(e: WheelElem) returns (ghost at: nat)
      requires Linked() && e in plain.due && e in plain.repeats && 0 < plain.every[e]
      requires e.slotNo == plain.now % wheelSize < |slots| && e in slots[e.slotNo]
      modifies `slots, `plain, e`executeCycleNo, e`slotNo
      ensures plain == Fired(old(plain), {e})
      ensures Linked()
      ensures |slots| == |old(slots)| && 0 <= plain.now % wheelSize < |slots|
      ensures Moved(old(slots)[plain.now % wheelSize], slots[plain.now % wheelSize], plain, e, at)
    {
      SlotSizes(e);
      NextSubmission(e);
      FiredOne(plain, e);
      var next := AbsSlotNo() + e.timeInterval / TickLength();
      Unlink(e);
      at := Insert(e, next);
    }

    /** The body of wheel_fn's loop for an element that is due: its task is submitted, and it leaves
        the wheel or, if it repeats, moves on. */
    method FireOne(e: WheelElem) returns (task: Task, ghost at: nat)
      requires Linked() && e in plain.due && plain.due[e] == plain.now && 0 < plain.every[e]
      modifies `slots, `plain, e`executeCycleNo, e`slotNo
      ensures plain == Fired(old(plain), {e})
      ensures Linked()
      ensures task == Task(e.appCallback, old(plain).args[e])
      ensures |slots| == |old(slots)|
      ensures 0 <= plain.now % wheelSize < |slots| && e in old(slots)[plain.now % wheelSize]
      ensures Moved(old(slots)[plain.now % wheelSize], slots[plain.now % wheelSize], plain, e, at)
    {
      SlotHas(e);
      assert Agrees(plain, e);
      FiredOne(plain, e);
      hide IndexOf, Without, SlotsOk, AllAgree, ListOk, Put, Fired;
      task := Task(e.appCallback, e.arg);
      at := 0;
      if e.isRecurrence {
        at := Relocate(e);
      } else {
        Unlink(e);
      }
    }

    ghost predicate Walk(curr: WheelElem?)
      requires 0 < wheelSize == |slots|
      reads `slots, `plain
    {
      var s := slots[plain.now % wheelSize];
      if curr == null then NothingDue(s, plain.due, plain.now) else Walking(s, plain.due, plain.now, curr)
    }

    /** An element is submitted exactly when it is of the current cycle; another one ends the walk. */
    lemma DueExactlyThisCycle(curr: WheelElem)
      requires Linked() && OnTime(plain) && Walk(curr)
      ensures curr in plain.due && curr in slots[plain.now % wheelSize]
      ensures curr.executeCycleNo == currentCycleNo ==>
        plain.due[curr] == plain.now && curr == slots[currentClockTic][0]
      ensures curr.executeCycleNo != currentCycleNo ==> Walk(null)
    {
      assert SlotOk(slots[currentClockTic], plain.due, wheelSize, currentClockTic);
      AtHead(slots[currentClockTic], plain, wheelSize, curr);
      assert Agrees(plain, curr);
    }

    method StepWalk(curr: WheelElem) returns (task: Task, next: WheelElem?)
      requires Linked() && OnTime(plain) && Walk(curr) && curr.executeCycleNo == currentCycleNo
      modifies `slots, `plain, curr`executeCycleNo, curr`slotNo
      ensures Linked() && Walk(next)
      ensures curr in old(plain).due && old(plain).due[curr] == plain.now
      ensures plain == Fired(old(plain), {curr})
      ensures task == Task(curr.appCallback, old(plain).args[curr])
    {
      DueExactlyThisCycle(curr);
      var s := slots[currentClockTic];
      var k := IndexOf(s, curr);
      next := if k + 1 < |s| then s[k + 1] else null;
      hide AllAgree, ListOk, Agrees, Fired, Without, Put;
      ghost var at;
      task, at := FireOne(curr);
      assert SlotOk(slots[currentClockTic], plain.due, wheelSize, currentClockTic);
      WalkOn(s, slots[currentClockTic], plain.due, wheelSize, plain.now, at);
    }

    /** The same when the elements of done were submitted already. */
    method StepOn(curr: WheelElem, ghost p: Plain<WheelElem>, ghost done: set<WheelElem>)
        returns (task: Task, next: WheelElem?)
      requires Linked() && Walk(curr) && curr.executeCycleNo == currentCycleNo
      requires KeysOk(p) && OnTime(p) && plain == Fired(p, done) && done <= DueNow(p)
      modifies `slots, `plain, curr`executeCycleNo, curr`slotNo
      ensures Linked() && |slots| == wheelSize && Walk(next)
      ensures OnTime(plain) && plain.live == p.live
      ensures curr !in done && curr in DueNow(p) && curr in p.args && plain == Fired(p, done + {curr})
      ensures task == Task(curr.appCallback, p.args[curr])
    {
      FiredOnTime(p, done);
      hide Linked, Walk, OnTime;
      task, next := StepWalk(curr);
      FiredOneMore(p, done, curr);
      FiredOnTime(p, done + {curr});
    }

    /** Each element of due was submitted once, with its callback and its data. */
    static ghost predicate Submits(tasks: seq<Task>, who: seq<WheelElem>, p: Plain<WheelElem>, due: set<WheelElem>)
      reads who
    {
      && |tasks| == |who|
      && (forall a, b | 0 <= a < b < |who| :: who[a] != who[b])
      && (forall e | e in due :: e in who)
      && (forall a | 0 <= a < |who| ::
        who[a] in due && who[a] in p.args && tasks[a] == Task(who[a].appCallback, p.args[who[a]]))
    }

    /** What an element was registered with is what it is submitted with: in any run, until the element is given
        other data or de-registered, a tick submits its callback with its data once if the element is due at
        that tick, and not at all otherwise. */
    static lemma SubmittedWith(ps: seq<Plain<WheelElem>>, vs: seq<Event<WheelElem>>, i: nat, j: nat,
      tasks: seq<Task>, who: seq<WheelElem>)
      requires IsRun(ps, vs) && i < j < |vs| && vs[i].Register? && vs[j].Tick?
      requires KeepsArg(vs, vs[i].e, i + 1, j)
      requires Submits(tasks, who, ps[j], DueNow(Advanced(ps[j])))
      ensures |tasks| == |who|
      ensures (exists a | 0 <= a < |who| :: who[a] == vs[i].e) <==> Submitted(ps[j], vs[i].e)
      ensures forall a | 0 <= a < |who| && who[a] == vs[i].e :: tasks[a] == Task(vs[i].e.appCallback, vs[i].arg)
      ensures forall a, b | 0 <= a < b < |who| :: who[a] != vs[i].e || who[b] != vs[i].e
    {
      RegisteredArg(ps, vs, i, j);
    }

    /** The same after other data was given. */
    static lemma SubmittedWithGiven(ps: seq<Plain<WheelElem>>, vs: seq<Event<WheelElem>>, i: nat, j: nat,
      tasks: seq<Task>, who: seq<WheelElem>)
      requires IsRun(ps, vs) && i < j < |vs| && vs[i].SetArg? && vs[j].Tick?
      requires KeepsArg(vs, vs[i].e, i + 1, j) && (vs[i].e in ps[i].pending ==> ps[i].pending[vs[i].e].Set?)
      requires Submits(tasks, who, ps[j], DueNow(Advanced(ps[j])))
      ensures |tasks| == |who|
      ensures (exists a | 0 <= a < |who| :: who[a] == vs[i].e) <==> Submitted(ps[j], vs[i].e)
      ensures forall a | 0 <= a < |who| && who[a] == vs[i].e :: tasks[a] == Task(vs[i].e.appCallback, vs[i].arg)
      ensures forall a, b | 0 <= a < b < |who| :: who[a] != vs[i].e || who[b] != vs[i].e
    {
      GivenArg(ps, vs, i, j);
    }

    lemma SubmitsOneMore(tasks: seq<Task>, who: seq<WheelElem>, p: Plain<WheelElem>, due: set<WheelElem>, task: Task,
      e: WheelElem)
      requires Submits(tasks, who, p, due) && e !in due && e in p.args && task == Task(e.appCallback, p.args[e])
      ensures Submits(tasks + [task], who + [e], p, due + {e})
    {
    }

    /** The walk of wheel_fn along the slot list of the current tick, from curr on. */
    method WalkFrom(start: WheelElem?) returns (tasks: seq<Task>, ghost who: seq<WheelElem>, ghost done: set<WheelElem>)
      requires Linked() && OnTime(plain) && Walk(start)
      modifies `slots, `plain, plain.live`executeCycleNo, plain.live`slotNo
      ensures Linked() && Walk(null)
      ensures done <= DueNow(old(plain)) && plain == Fired(old(plain), done)
      ensures Submits(tasks, who, old(plain), done)
    {
      ghost var p := plain;
      done := {};
      tasks, who := [], [];
      var curr := start;
      assert plain.due == Fired(p, done).due;
      hide Linked, Walk, DueNow, Fired, OnTime;
      assert Submits(tasks, who, p, done);
      while curr != null
        invariant Linked() && 0 < wheelSize == |slots| && OnTime(plain) && Walk(curr)
        invariant done <= DueNow(p) && plain == Fired(p, done) && plain.live == p.live
        invariant Submits(tasks, who, p, done)
        decreases DueNow(p) - done
      {
        DueExactlyThisCycle(curr);
        if currentCycleNo != curr.executeCycleNo {
          curr := null;
          break;
        }
        ghost var e := curr;
        var task, next := StepOn(curr, p, done);
        SubmitsOneMore(tasks, who, p, done, task, e);
        tasks, who := tasks + [task], who + [e];
        done := done + {e};
        curr := next;
      }
    }

    method FireDue() returns (tasks: seq<Task>, ghost who: seq<WheelElem>)
      requires Linked() && OnTime(plain)
      modifies `slots, `plain, plain.live`executeCycleNo, plain.live`slotNo
      ensures plain == Fired(old(plain), DueNow(old(plain)))
      ensures Linked()
      ensures Submits(tasks, who, old(plain), DueNow(old(plain)))
    {
      ghost var p := plain;
      ghost var done;
      var s := slots[currentClockTic];
      hide SlotsOk, AllAgree, ListOk, Agrees, Fired, Without, Put, Submits, OnTime;
      tasks, who, done := WalkFrom(if s == [] then null else s[0]);
      AllSubmitted(slots, p, done, wheelSize);
    }

    // ---- the requests ----

    /** The element is on no list; it goes into the slot its new interval leads to. */
    method PutOnCourse(e: WheelElem, ghost p: Plain<WheelElem>)
      requires Linked() && e in plain.live && e !in plain.due && e !in plain.pending
      requires e in plain.every && plain.pending == p.pending - {e} && plain.live == p.live && plain.now == p.now
      requires e in p.pending && p.pending[e].Set?
        && Settled(p, {e}) == plain.(due := plain.due[e := p.now + p.pending[e].ticks])
      requires plain.every[e] == p.pending[e].ticks
      modifies `slots, `plain, e`executeCycleNo, e`slotNo
      ensures plain == Settled(p, {e}) && Linked()
    {
      NextSubmission(e);
      hide Agrees, AllAgree, SlotsOk, ListOk, Settled;
      ghost var at := Insert(e, AbsSlotNo() + e.timeInterval / TickLength());
    }

    /** The element is given the interval asked for and nothing is asked any more; it is on no list. */
    method TakeInterval(e: WheelElem)
      requires ClockOk() && SlotsOk(slots, plain.due, wheelSize) && KeysOk(plain) && AllAgree(plain)
      requires e in plain.pending && plain.pending[e].Set? && e !in plain.due
      requires ListOk(reschdList, plain.pending - {e})
      modifies `plain, e`opcode, e`timeInterval
      ensures plain == old(plain.(pending := plain.pending - {e}, every := plain.every[e := plain.pending[e].ticks]))
      ensures Linked()
    {
      ghost var q := plain;
      assert Agrees(q, e);
      hide SlotsOk, ListOk;
      e.timeInterval := e.newTimeInterval;
      e.opcode := SCHEDULED;
      plain := plain.(pending := plain.pending - {e}, every := plain.every[e := plain.pending[e].ticks]);
      assert AllAgree(plain) by { AllAgreeToo(q, plain, e); }
    }

    /** One turn of process_wt_reschedule_slotlist's loop, for the element e at the head of the list. */
    method SettleFirst(e: WheelElem)
      requires Linked() && reschdList != [] && e == reschdList[0]
      modifies `slots, `plain, `reschdList, e`opcode, e`timeInterval, e`executeCycleNo, e`slotNo
      ensures e in old(plain).pending && plain == Settled(old(plain), {e})
      ensures Linked()
      ensures reschdList == old(reschdList)[1..]
    {
      ghost var p := plain;
      assert Agrees(p, e);
      Unlink(e);
      ListTail(reschdList, p.pending);
      hide SlotsOk, ListOk, Settled, AgreesApart;
      reschdList := reschdList[1..];
      if e.opcode == CREATE || e.opcode == RESCHED {
        SettledSet(p, e);
        TakeInterval(e);
        PutOnCourse(e, p);
      } else {
        SettledDelete(p, e);
        ghost var q := plain;
        plain := plain.(pending := plain.pending - {e}, live := plain.live - {e});
        assert AllAgree(plain) by { AllAgreeToo(q, plain, e); }
      }
    }

    /** process_wt_reschedule_slotlist; every turn takes the element it settles off the list. */
    method Settle()
      requires Linked()
      modifies `slots, `plain, `reschdList
      modifies plain.live`opcode, plain.live`timeInterval, plain.live`executeCycleNo, plain.live`slotNo
      ensures plain == Settled(old(plain), old(plain).pending.Keys)
      ensures Linked() && reschdList == []
    {
      ghost var p := plain;
      ghost var done: set<WheelElem> := {};
      assert plain == Settled(p, done) by {
        assert Settled(p, done).due == p.due && Settled(p, done).every == p.every;
        assert Settled(p, done).pending == p.pending && Settled(p, done).live == p.live;
      }
      hide SlotsOk, AllAgree, Agrees;
      while reschdList != []
        invariant Linked() && done <= p.pending.Keys && plain == Settled(p, done) && plain.live <= p.live
        decreases |reschdList|
      {
        ghost var q := plain;
        var e := reschdList[0];
        SettleFirst(e);
        assert e in p.pending && e !in done;
        SettledOneMore(p, done, e);
        done := done + {e};
        assert plain.live <= q.live;
      }
      assert plain.pending.Keys == {};
      assert done == p.pending.Keys;
    }

    lemma AllAgreeNow(p: Plain<WheelElem>, q: Plain<WheelElem>)
      requires 0 < wheelSize && AllAgree(p) && q == p.(now := q.now)
      ensures AllAgree(q)
    {
      forall e | e in q.live ensures Agrees(q, e) {
        assert Agrees(p, e);
        AgreesToo(p, q, e);
      }
    }

    method Advance()
      requires Valid()
      modifies `currentClockTic, `currentCycleNo, `plain
      ensures plain == Advanced(old(plain)) && Linked() && OnTime(plain)
    {
      ghost var p := plain;
      NextHand(p.now, wheelSize);
      hide SlotsOk, ListOk, AllAgree;
      currentClockTic := currentClockTic + 1;
      if currentClockTic == wheelSize {
        currentClockTic := 0;
        currentCycleNo := currentCycleNo + 1;
      }
      plain := Advanced(plain);
      AllAgreeNow(p, plain);
    }

    /** wheel_fn: the clock advances, what is due is submitted, what was asked for takes effect. */
    method OnTick() returns (tasks: seq<Task>, ghost who: seq<WheelElem>)
      requires Valid()
      modifies this
      modifies plain.live`opcode, plain.live`timeInterval, plain.live`executeCycleNo, plain.live`slotNo
      ensures plain == Ticked(old(plain)) && Moves(old(plain), plain, Event.Tick)
      ensures Valid()
      ensures Submits(tasks, who, old(plain), DueNow(Advanced(old(plain))))
    {
      ghost var p := plain;
      Advance();
      hide Linked, Ok, Settled, OnTime;
      tasks, who := FireDue();
      assert Submits(tasks, who, p, DueNow(Advanced(p)));
      Settle();
      assert Submits(tasks, who, p, DueNow(Advanced(p)));
      TickKeepsOk(p);
    }

    /** Everything is linked, but for what is asked for e. */
    ghost predicate LinkedApart(e: WheelElem)
      reads this, plain.live
    {
      && ClockOk()
      && SlotsOk(slots, plain.due, wheelSize)
      && ListOk(reschdList, plain.pending)
      && KeysOk(plain)
      && e in plain.live && AgreesApart(plain, e)
      && forall x {:trigger Agrees(plain, x)} | x in plain.live && x != e :: Agrees(plain, x)
    }

    lemma LinkedIsLinkedApart(e: WheelElem)
      requires Linked() && e in plain.live
      ensures LinkedApart(e)
    {
      assert Agrees(plain, e);
    }

    lemma RequestList(s: seq<WheelElem>, pending: map<WheelElem, Op>, e: WheelElem, op: Op)
      requires ListOk(s, pending)
      ensures ListOk([e] + Without(s, e), pending[e := op])
    {
      WithoutList(s, pending, e);
      ConsList(Without(s, e), pending - {e}, e, op);
      assert (pending - {e})[e := op] == pending[e := op];
    }

    /** _timer_reschedule: the request goes to the head of the list, in place of an earlier one. */
    method Request(e: WheelElem, interval: int, opcode: Opcode, ghost op: Op)
      requires LinkedApart(e) && Asks(opcode, interval, op)
      modifies `reschdList, `plain, e`opcode, e`newTimeInterval
      ensures plain == old(plain).(pending := old(plain).pending[e := op])
      ensures Linked()
    {
      ghost var p := plain;
      RequestList(reschdList, p.pending, e, op);
      hide SlotsOk, ListOk, AllAgree, Without, Asks;
      e.opcode := opcode;
      e.newTimeInterval := interval;
      reschdList := Without(reschdList, e);
      reschdList := [e] + reschdList;
      plain := plain.(pending := plain.pending[e := op]);
      AllAgreeToo(p, plain, e);
    }

    /** An interval in milliseconds is so many ticks. */
    lemma InTicks(interval: int) returns (ticks: nat)
      requires 0 < clockTicInterval && 0 < interval && interval % TickLength() == 0
      ensures 0 < ticks && interval == ticks * TickLength() && ticks == interval / TickLength()
      ensures interval == ticks * clockTicInterval * (if resolution == Seconds then 1000 else 1)
    {
      ticks := interval / TickLength();
      if resolution == Seconds {
        assert ticks * (clockTicInterval * 1000) == ticks * clockTicInterval * 1000;
      }
    }

    lemma NewElement(p: Plain<WheelElem>, q: Plain<WheelElem>, e: WheelElem)
      requires 0 < wheelSize && AllAgree(p) && e !in p.live
      requires q.live == p.live + {e} && q.now == p.now && q.due == p.due && q.every == p.every
        && q.pending == p.pending
      requires q.args == p.args[e := e.arg] && q.repeats - {e} == p.repeats - {e}
      ensures forall x {:trigger Agrees(q, x)} | x in p.live :: Agrees(q, x)
    {
      forall x | x in p.live ensures Agrees(q, x) {
        assert Agrees(p, x);
        assert x in q.repeats - {e} <==> x in p.repeats - {e};
        AgreesToo(p, q, x);
      }
    }

    /** timer_register_app_event; the assertion of the original is a precondition. */
    method Register(callback: nat, arg: nat, argSize: nat, interval: int, recurring: bool)
        returns (elem: WheelElem?, ghost ticks: nat)
      requires Valid()
      requires callback != 0 ==> 0 < interval && interval % TickLength() == 0
      modifies `reschdList, `plain
      ensures Valid()
      ensures elem == null <==> callback == 0
      ensures elem == null ==> plain == old(plain)
      ensures elem != null ==>
        && fresh(elem) && elem !in old(plain).live && elem.appCallback == callback
        && Moves(old(plain), plain, Event.Register(elem, ticks, recurring, if arg != 0 && argSize != 0 then arg else 0))
      ensures elem != null ==> interval == ticks * clockTicInterval * (if resolution == Seconds then 1000 else 1)
    {
      ticks := 0;
      if callback == 0 {
        return null, 0;
      }
      ghost var p := plain;
      var data := if arg != 0 && argSize != 0 then arg else 0;
      ticks := InTicks(interval);
      var e := new WheelElem(callback, data, recurring);
      hide SlotsOk, ListOk, TickLength;
      plain := p.(live := p.live + {e}, args := p.args[e := data],
                  repeats := if recurring then p.repeats + {e} else p.repeats - {e});
      NewElement(p, plain, e);
      assert LinkedApart(e);
      Request(e, interval, CREATE, Set(ticks));
      elem := e;
    }

    /** timer_reschedule. */
    method Reschedule(e: WheelElem, interval: int) returns (ghost ticks: nat)
      requires Valid() && e in plain.live && 0 < interval && interval % TickLength() == 0
      modifies `reschdList, `plain, e`opcode, e`newTimeInterval
      ensures Valid() && plain == Rescheduled(old(plain), e, ticks)
      ensures Moves(old(plain), plain, Event.Reschedule(e, ticks))
      ensures interval == ticks * clockTicInterval * (if resolution == Seconds then 1000 else 1)
    {
      ticks := InTicks(interval);
      LinkedIsLinkedApart(e);
      hide SlotsOk, ListOk, AllAgree, AgreesApart, TickLength;
      Request(e, interval, RESCHED, Set(ticks));
    }

    /** wt_elem_get_and_set_app_data. */
    method GetAndSetAppData(e: WheelElem, arg: nat) returns (was: nat)
      requires Valid() && e in plain.live
      modifies `plain, e`arg
      ensures Valid() && plain == Rearmed(old(plain), e, arg) && was == old(plain).args[e]
      ensures Moves(old(plain), plain, Event.SetArg(e, arg))
    {
      ghost var p := plain;
      assert Agrees(p, e);
      hide SlotsOk, ListOk;
      was := e.arg;
      e.arg := arg;
      plain := plain.(args := plain.args[e := arg]);
      assert AllAgree(plain) by { AllAgreeToo(p, plain, e); }
    }

    /** timer_de_register_app_event. */
    method DeRegister(e: WheelElem)
      requires Valid() && e in plain.live
      modifies `reschdList, `plain, e`arg, e`opcode, e`newTimeInterval
      ensures Valid() && plain == DeRegistered(old(plain), e)
      ensures Moves(old(plain), plain, Event.DeRegister(e))
    {
      var _ := GetAndSetAppData(e, 0);
      LinkedIsLinkedApart(e);
      hide SlotsOk, ListOk, AllAgree, AgreesApart;
      Request(e, 0, DELETE, Delete);
    }

    /** wt_get_remaining_time: for an element with a new interval still to take effect that interval,
        for one that waits on the wheel the time to the tick at which it is submitted next. */
    method RemainingTime(e: WheelElem) returns (ms: int)
      requires Valid() && e in plain.live
      ensures e in plain.pending && plain.pending[e].Set? ==>
        ms == plain.pending[e].ticks * clockTicInterval * (if resolution == Seconds then 1000 else 1)
      ensures !(e in plain.pending && plain.pending[e].Set?) && e in plain.due ==>
        ms == (plain.due[e] - plain.now) * clockTicInterval * (if resolution == Seconds then 1000 else 1)
    {
      assert Agrees(plain, e);
      AbsSlotIsNow();
      if e.opcode == CREATE || e.opcode == RESCHED {
        return e.newTimeInterval;
      }
      var diff := e.executeCycleNo * wheelSize + e.slotNo - AbsSlotNo();
      return diff * TickLength();
    }
  }
}
