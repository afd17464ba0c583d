/** The event dispatcher's own record, server/EventDispatcher/event_dispatcher.c: the queue of tasks
    and the idle/signal handshake.  Every method is one stretch of code between taking and giving up
    the dispatcher's mutex; what it does to the record is given by a function of the old record. */
module EventDispatcher {
  import opened Options

  type Task = nat

  /** event_dispatcher_t; idle is EV_DIS_IDLE, the opposite EV_DIS_TASK_FIN_WAIT. */
  datatype Record = Record(queue: seq<Task>, pending: int, idle: bool, signalSent: bool, current: Option<Task>)

  /** The condition variable is signalled when a task is added in this state. */
  predicate NeedsSignal(r: Record)
  {
    r.idle && !r.signalSent
  }

  function Scheduled(r: Record, t: Task): Record
  {
    Record(r.queue + [t], r.pending + 1, r.idle, r.signalSent || NeedsSignal(r), r.current)
  }

  function Idled(r: Record): Record
  {
    r.(idle := true, signalSent := false)
  }

  function Taken(r: Record): Record
    requires r.queue != []
  {
    Record(r.queue[1..], r.pending - 1, false, r.signalSent, Some(r.queue[0]))
  }

  class Dispatcher {
    var taskArray: seq<Task>
    var pendingTaskCount: int
    var idle: bool
    var signalSent: bool
    var signalSentCnt: nat
    var currentTask: Option<Task>

    /** The record as a value. */
    ghost function Now(): Record
      reads this
    {
      Record(taskArray, pendingTaskCount, idle, signalSent, currentTask)
    }

    /** event_dispatcher_init. */
    constructor ()
      ensures Now() == Record([], 0, true, false, None)
    {
      taskArray, pendingTaskCount, idle, signalSent, signalSentCnt, currentTask := [], 0, true, false, 0, None;
    }

    /** event_dispatcher_schedule_task: a packet-queue task that is queued already is left alone, any
        other task must not be queued.  Returns whether the condition variable was signalled. */
    method ScheduleTask(t: Task, isPktQJob: bool) returns (signalled: bool)
      requires isPktQJob || t !in taskArray
      modifies this
      ensures Now() == (if isPktQJob && t in old(taskArray) then old(Now()) else Scheduled(old(Now()), t))
      ensures signalled <==> !(isPktQJob && t in old(taskArray)) && old(idle) && !old(signalSent)
      ensures signalSent == (old(signalSent) || signalled)
    {
      signalled := false;
      if isPktQJob && t in taskArray {
        return;
      }
      taskArray := taskArray + [t];
      pendingTaskCount := pendingTaskCount + 1;
      if idle && !signalSent {
        signalled := true;
        signalSent := true;
        signalSentCnt := signalSentCnt + 1;
      }
    }

    /** One pass of event_dispatcher_thread's loop under the mutex: the next task to run, or none
        and the dispatcher goes to wait. */
    method NextTask() returns (t: Option<Task>)
      modifies this
      ensures old(taskArray) == [] ==> t == None && Now() == Idled(old(Now()))
      ensures old(taskArray) != [] ==> t == Some(old(taskArray)[0]) && Now() == Taken(old(Now()))
    {
      if taskArray == [] {
        idle := true;
        signalSent := false;
        return None;
      }
      t := Some(taskArray[0]);
      taskArray := taskArray[1..];
      pendingTaskCount := pendingTaskCount - 1;
      currentTask := t;
      if idle {
        idle := false;
      }
    }

    /** The end of a pass: no current task any more. */
    method TaskDone()
      modifies this
      ensures Now() == old(Now()).(current := None)
    {
      currentTask := None;
    }
  }

  class PktQueue<Pkt> {
    var packets: seq<Pkt>

    constructor ()
      ensures packets == []
    {
      packets := [];
    }

    /** The first half of pkt_q_enqueue: the newest packet goes to the front. */
    method Enqueue(pkt: Pkt)
      modifies this
      ensures packets == [pkt] + old(packets)
    {
      packets := [pkt] + packets;
    }

    /** task_get_next_pkt. */
    method GetNextPkt() returns (pkt: Option<Pkt>)
      modifies this
      ensures old(packets) == [] ==> pkt == None && packets == []
      ensures old(packets) != [] ==> pkt == Some(old(packets)[0]) && packets == old(packets)[1..]
    {
      if packets == [] {
        return None;
      }
      pkt := Some(packets[0]);
      packets := packets[1..];
    }
  }
}
