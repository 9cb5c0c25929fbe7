/** The timers: a queue by timeout, advanced by the timer interrupt, which also makes the task manager switch tasks. */
module Timers {
  import opened Scheduler
  import opened TaskSpec
  import opened Tasks
  import TaskOrder

  const TASK_TIMER_PERIOD: nat := 2
  const TASK_TIMER_VALUE: int := 0x7fffffff
  const NEVER: nat := 0xffff_ffff_ffff_ffff
  const TIMER_TIMEOUT: nat := 1

  datatype Timer = Timer(timeout: nat, value: int, task: nat)

  function TaskTimer(tick: nat): Timer {
    Timer(tick + TASK_TIMER_PERIOD, TASK_TIMER_VALUE, 1)
  }

  function TimeoutMessage(t: Timer): Message {
    Message(TIMER_TIMEOUT, [t.timeout, t.value])
  }

  ghost predicate Due(t: Timer, tick: nat) {
    t.timeout <= tick
  }

  /** The task manager after it was sent the messages of some timers, one after the other. */
  ghost function AllSent(m: Manager, fired: seq<Timer>): Manager {
    if fired == [] then m
    else
      var m1, last := AllSent(m, fired[..|fired| - 1]), fired[|fired| - 1];
      if Works(m1) && last.task in m1.sched.tasks then Sent(m1, last.task, TimeoutMessage(last)) else m1
  }

  lemma {:induction false} AllSentValid(m: Manager, fired: seq<Timer>, idle: nat)
    requires Valid(m, idle)
    ensures Valid(AllSent(m, fired), idle) && Works(AllSent(m, fired))
  {
    hide Valid, Sent, Works;
    if fired == [] {
      ValidWorks(m, idle);
    } else {
      var m1, last := AllSent(m, fired[..|fired| - 1]), fired[|fired| - 1];
      AllSentValid(m, fired[..|fired| - 1], idle);
      if last.task in m1.sched.tasks {
        SentValid(m1, last.task, TimeoutMessage(last), idle);
      }
      ValidWorks(AllSent(m, fired), idle);
    }
  }

  lemma AllSentNext(m: Manager, fired: seq<Timer>, t: Timer)
    ensures AllSent(m, fired + [t])
            == if Works(AllSent(m, fired)) && t.task in AllSent(m, fired).sched.tasks
               then Sent(AllSent(m, fired), t.task, TimeoutMessage(t)) else AllSent(m, fired)
  {
    assert (fired + [t])[..|fired|] == fired;
  }

  /** The messages of a task's own timers: kind, when they were due, and their values. */
  ghost function MailOf(fired: seq<Timer>, t: nat): seq<Message> {
    if fired == [] then []
    else
      var last := fired[|fired| - 1];
      MailOf(fired[..|fired| - 1], t) + if last.task == t then [Message(kind := TIMER_TIMEOUT, args := [last.timeout, last.value])] else []
  }

  /** Every task gets the messages of its own timers, in the order in which they fired, after those that it had. */
  lemma {:induction false} AllSentMail(m: Manager, fired: seq<Timer>, t: nat, idle: nat)
    requires Valid(m, idle) && t in m.sched.tasks
    ensures t in AllSent(m, fired).sched.tasks
    ensures AllSent(m, fired).sched.tasks[t].msgs == m.sched.tasks[t].msgs + MailOf(fired, t)
  {
    hide Valid, Sent, Works;
    if fired != [] {
      var front, last := fired[..|fired| - 1], fired[|fired| - 1];
      var m1 := AllSent(m, front);
      AllSentMail(m, front, t, idle);
      AllSentValid(m, front, idle);
      if last.task in m1.sched.tasks {
        TaskOrder.SendOrder(m1, last.task, TimeoutMessage(last), idle);
        TaskOrder.SentIds(m1, last.task, TimeoutMessage(last), idle);
      }
    }
  }

  // ----- the queue of timers, as a list in no particular order -----

  function Popped(ts: seq<Timer>, i: nat): seq<Timer>
    requires i < |ts|
  {
    ts[..i] + ts[i + 1..]
  }

  lemma RemovedBag(ts: seq<Timer>, i: nat)
    requires i < |ts|
    ensures multiset(ts) == multiset(Popped(ts, i)) + multiset{ts[i]}
  {
    assert ts == ts[..i] + [ts[i]] + ts[i + 1..];
  }

  ghost function DueCount(ts: seq<Timer>, tick: nat): nat {
    if ts == [] then 0 else DueCount(ts[..|ts| - 1], tick) + if Due(ts[|ts| - 1], tick) then 1 else 0
  }

  lemma {:induction false} DueAppend(a: seq<Timer>, b: seq<Timer>, tick: nat)
    ensures DueCount(a + b, tick) == DueCount(a, tick) + DueCount(b, tick)
  {
    if b == [] {
      assert a + b == a;
    } else {
      DueAppend(a, b[..|b| - 1], tick);
      assert (a + b)[..|a + b| - 1] == a + b[..|b| - 1];
    }
  }

  lemma DueRemoved(ts: seq<Timer>, i: nat, tick: nat)
    requires i < |ts| && Due(ts[i], tick)
    ensures DueCount(Popped(ts, i), tick) + 1 == DueCount(ts, tick)
  {
    assert ts == ts[..i] + ([ts[i]] + ts[i + 1..]);
    DueAppend(ts[..i], [ts[i]] + ts[i + 1..], tick);
    DueAppend([ts[i]], ts[i + 1..], tick);
    assert [ts[i]][..0] == [];
    DueAppend(ts[..i], ts[i + 1..], tick);
  }

  lemma DueAdded(ts: seq<Timer>, t: Timer, tick: nat)
    requires !Due(t, tick)
    ensures DueCount(ts + [t], tick) == DueCount(ts, tick)
  {
  }

  // ----- the account of one tick -----

  /** While a tick handles due timers: what was queued is still queued, has fired, or was a task timer that is armed again. */
  ghost predicate Accounts(old_: seq<Timer>, ts: seq<Timer>, fired: seq<Timer>, switches: seq<Timer>, tick: nat) {
    && (forall t | t in fired :: Due(t, tick) && t.value != TASK_TIMER_VALUE)
    && (forall t | t in switches :: Due(t, tick) && t.value == TASK_TIMER_VALUE)
    && (forall i, j | 0 <= i < j < |fired| :: fired[i].timeout <= fired[j].timeout)
    && (forall t, u | t in fired && u in ts :: t.timeout <= u.timeout)
    && (forall t :: multiset(old_)[t] + (if t == TaskTimer(tick) then |switches| else 0)
                    == multiset(ts)[t] + multiset(fired)[t] + multiset(switches)[t])
  }

  lemma AccountsStart(ts: seq<Timer>, tick: nat)
    ensures Accounts(ts, ts, [], [], tick)
  {
  }

  lemma AccountsFire(was: seq<Timer>, ts: seq<Timer>, fired: seq<Timer>, switches: seq<Timer>, tick: nat, i: nat)
    requires Accounts(was, ts, fired, switches, tick) && i < |ts| && Due(ts[i], tick) && ts[i].value != TASK_TIMER_VALUE
    requires forall u | u in ts :: ts[i].timeout <= u.timeout
    ensures Accounts(was, Popped(ts, i), fired + [ts[i]], switches, tick)
  {
    RemovedBag(ts, i);
    assert forall u | u in Popped(ts, i) :: u in ts;
    forall j | 0 <= j < |fired| ensures fired[j].timeout <= ts[i].timeout {
      assert fired[j] in fired && ts[i] in ts;
    }
  }

  lemma AccountsSwitch(was: seq<Timer>, ts: seq<Timer>, fired: seq<Timer>, switches: seq<Timer>, tick: nat, i: nat)
    requires Accounts(was, ts, fired, switches, tick) && i < |ts| && Due(ts[i], tick) && ts[i].value == TASK_TIMER_VALUE
    ensures Accounts(was, Popped(ts, i) + [TaskTimer(tick)], fired, switches + [ts[i]], tick)
  {
    RemovedBag(ts, i);
    assert forall u | u in Popped(ts, i) :: u in ts;
  }

  lemma AccountsDue(was: seq<Timer>, ts: seq<Timer>, fired: seq<Timer>, switches: seq<Timer>, tick: nat)
    requires Accounts(was, ts, fired, switches, tick)
    ensures forall t | t in fired || t in switches :: t.timeout <= tick && (t in switches <==> t.value == TASK_TIMER_VALUE)
  {
  }

  class TimerManager {
    var tick: nat
    var timers: seq<Timer>

    /** Some timer never fires: the queue is never empty. */
    ghost predicate Ready()
      reads this
    {
      tick < NEVER && Timer(NEVER, 0, 0) in timers
    }

    constructor ()
      ensures Ready() && tick == 0 && timers == [Timer(NEVER, 0, 0)]
    {
      tick, timers := 0, [Timer(NEVER, 0, 0)];
    }

    method AddTimer(t: Timer)
      requires Ready()
      modifies this`timers
      ensures Ready() && multiset(timers) == multiset(old(timers)) + multiset{t}
    {
      timers := timers + [t];
    }

    /** A timer with the least timeout; which one, if there are several, is left open. */
    method Top() returns (i: nat)
      requires timers != []
      ensures i < |timers| && forall u | u in timers :: timers[i].timeout <= u.timeout
    {
      i := 0;
      for j := 1 to |timers|
        invariant i < |timers| && forall k | 0 <= k < j :: timers[i].timeout <= timers[k].timeout
      {
        if timers[j].timeout < timers[i].timeout {
          i := j;
        }
      }
    }

    /** One tick: due timers fire in the order of their timeouts and send their messages; a due task timer is armed again
        and reported. */
    method Tick(manager: TaskManager) returns (taskTimerTimeout: bool, ghost fired: seq<Timer>, ghost switches: seq<Timer>)
      requires Ready() && tick + 1 < NEVER && Valid(manager.State(), 2)
      modifies this, manager
      ensures Ready() && tick == old(tick) + 1 && (forall t | t in timers :: !Due(t, tick)) && forall t | t in timers :: tick < t.timeout
      ensures forall t | t in fired || t in switches :: t.timeout <= tick && (t in switches <==> t.value == TASK_TIMER_VALUE)
      ensures Accounts(old(timers), timers, fired, switches, tick) && (taskTimerTimeout <==> switches != [])
      ensures manager.State() == AllSent(old(manager.State()), fired)
    {
      tick := tick + 1;
      taskTimerTimeout, fired, switches := false, [], [];
      ghost var was, m := timers, manager.State();
      AccountsStart(timers, tick);
      AllSentValid(m, [], 2);
      hide Valid, Works, Accounts, Sent, DueCount, TaskManager.State, AllSent;
      while true
        invariant Ready() && tick == old(tick) + 1 && tick < NEVER
        invariant Accounts(was, timers, fired, switches, tick) && (taskTimerTimeout <==> switches != [])
        invariant manager.State() == AllSent(m, fired) && Works(manager.State())
        decreases DueCount(timers, tick)
      {
        var i := Top();
        var t := timers[i];
        if t.timeout > tick {
          break;
        }
        DueRemoved(timers, i, tick);
        if t.value == TASK_TIMER_VALUE {
          taskTimerTimeout := true;
          AccountsSwitch(was, timers, fired, switches, tick, i);
          DueAdded(Popped(timers, i), TaskTimer(tick), tick);
          StillReady(timers, i);
          timers := Popped(timers, i) + [TaskTimer(tick)];
          switches := switches + [t];
          continue;
        }
        var _ := manager.SendMessage(t.task, TimeoutMessage(t));
        AccountsFire(was, timers, fired, switches, tick, i);
        AllSentNext(m, fired, t);
        StillReady(timers, i);
        timers := Popped(timers, i);
        fired := fired + [t];
        AllSentValid(m, fired, 2);
      }
      AccountsDue(was, timers, fired, switches, tick);
    }
  }

  lemma StillReady(ts: seq<Timer>, i: nat)
    requires Timer(NEVER, 0, 0) in ts && i < |ts| && ts[i].timeout < NEVER
    ensures Timer(NEVER, 0, 0) in Popped(ts, i)
  {
    var k :| 0 <= k < |ts| && ts[k] == Timer(NEVER, 0, 0);
    if k < i {
      assert Popped(ts, i)[k] == ts[k];
    } else {
      assert Popped(ts, i)[k - 1] == ts[k];
    }
  }
}
