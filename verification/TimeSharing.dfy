/** The timer interrupt and the task manager together: undisturbed tasks of the top level share the processor in turn. */
module TimeSharing {
  import opened Scheduler
  import opened TaskSpec
  import opened Tasks
  import opened Timers

  // ----- the task timer -----

  /** There is one task timer; it is due after one or two more ticks. */
  ghost predicate Armed(timers: seq<Timer>, tick: nat, next: nat) {
    && tick < next <= tick + TASK_TIMER_PERIOD
    && multiset(timers)[Timer(next, TASK_TIMER_VALUE, 1)] == 1
    && (forall t | t in timers && t.value == TASK_TIMER_VALUE :: t == Timer(next, TASK_TIMER_VALUE, 1))
  }

  /** The task timer fires exactly at its tick and is then armed two ticks ahead. */
  lemma ArmedTick(was: seq<Timer>, ts: seq<Timer>, fired: seq<Timer>, switches: seq<Timer>, tick: nat, next: nat)
    requires Armed(was, tick, next) && Accounts(was, ts, fired, switches, tick + 1)
    requires forall t | t in ts :: !Due(t, tick + 1)
    ensures switches != [] <==> tick + 1 == next
    ensures Armed(ts, tick + 1, if tick + 1 == next then next + TASK_TIMER_PERIOD else next)
  {
    var timer, again := Timer(next, TASK_TIMER_VALUE, 1), TaskTimer(tick + 1);
    forall t | t in switches ensures t == timer && tick + 1 == next {
      assert multiset(switches)[t] > 0;
      assert multiset(was)[t] > 0 || t == again;
    }
    forall i | 0 <= i < |switches| ensures switches[i] == timer {
      assert switches[i] in switches;
    }
    BagOfOne(switches, timer);
    assert multiset(was)[timer] == 1;
    assert multiset(fired)[timer] == 0;
    forall t | t in ts && t.value == TASK_TIMER_VALUE
      ensures t == Timer(if tick + 1 == next then next + TASK_TIMER_PERIOD else next, TASK_TIMER_VALUE, 1)
    {
      assert multiset(ts)[t] > 0;
      assert multiset(was)[t] > 0 || t == again;
    }
  }

  lemma {:induction false} BagOfOne(ts: seq<Timer>, t: Timer)
    requires forall i :: 0 <= i < |ts| ==> ts[i] == t
    ensures multiset(ts)[t] == |ts|
  {
    if ts != [] {
      var front := ts[..|ts| - 1];
      assert ts == front + [ts[|ts| - 1]];
      assert forall i :: 0 <= i < |front| ==> front[i] == ts[i];
      BagOfOne(front, t);
      assert multiset(ts) == multiset(front) + multiset{t};
    }
  }

  // ----- undisturbed queues -----

  /** The same queues, whatever messages the tasks have. */
  ghost predicate SameShape(s: Sched, r: Sched) {
    s.queues == r.queues && s.current == r.current && s.changed == r.changed
  }

  ghost predicate AllRunning(m: Manager, timers: seq<Timer>) {
    forall t | t in timers && t.task in m.sched.tasks :: m.sched.tasks[t.task].running
  }

  ghost predicate SameRunning(m: Manager, m': Manager) {
    m'.sched.tasks.Keys == m.sched.tasks.Keys
    && forall t | t in m.sched.tasks :: m'.sched.tasks[t].running == m.sched.tasks[t].running
  }

  lemma SentRunning(m: Manager, t: nat, msg: Message)
    requires Works(m) && t in m.sched.tasks && m.sched.tasks[t].running
    ensures SameShape(m.sched, Sent(m, t, msg).sched) && SameRunning(m, Sent(m, t, msg))
  {
  }

  /** Messages to tasks that run already move no task. */
  lemma {:induction false} AllSentRunning(m: Manager, fired: seq<Timer>)
    requires AllRunning(m, fired)
    ensures SameShape(m.sched, AllSent(m, fired).sched) && SameRunning(m, AllSent(m, fired))
  {
    hide Works, Sent;
    if fired != [] {
      var front, last := fired[..|fired| - 1], fired[|fired| - 1];
      AllSentRunning(m, front);
      var m1 := AllSent(m, front);
      if Works(m1) && last.task in m1.sched.tasks {
        assert last in fired;
        SentRunning(m1, last.task, TimeoutMessage(last));
      }
    }
  }

  lemma RotatedShape(s: Sched, r: Sched, sleep: bool)
    requires SameShape(s, r) && |s.queues| == LEVELS && s.current < LEVELS && s.queues[s.current] != []
    ensures SameShape(Rotated(s, sleep), Rotated(r, sleep))
  {
  }

  /** How many of the next n ticks switch tasks. */
  ghost function SwitchCount(tick: nat, next: nat, n: nat): nat
    decreases n
  {
    if n == 0 then 0
    else if tick + 1 == next then 1 + SwitchCount(tick + 1, next + TASK_TIMER_PERIOD, n - 1)
    else SwitchCount(tick + 1, next, n - 1)
  }

  /** Every second tick switches. */
  lemma {:induction false} SwitchEverySecond(tick: nat, next: nat, i: nat)
    requires tick < next <= tick + TASK_TIMER_PERIOD
    ensures SwitchCount(tick, next, 2 * i) == i
    decreases i
  {
    if i > 0 {
      SwitchEverySecond(tick + 2, next + 2, i - 1);
      if tick + 1 == next {
        assert SwitchCount(tick + 1, next + 2, 2 * i - 1) == SwitchCount(tick + 2, next + 2, 2 * i - 2);
      } else {
        assert SwitchCount(tick + 1, next, 2 * i - 1) == 1 + SwitchCount(tick + 2, next + 2, 2 * i - 2);
      }
    }
  }

  lemma {:induction false} SwitchedFirst(s: Sched, n: nat)
    requires Settled(s)
    ensures Switched(s, n + 1) == Switched(Switched(s, 1), n)
  {
    if n > 0 {
      SwitchedFirst(s, n - 1);
    } else {
      assert Switched(s, 0) == s;
    }
  }

  lemma {:induction false} SwitchedShape(s: Sched, r: Sched, n: nat)
    requires Settled(s) && SameShape(s, r)
    ensures SameShape(Switched(s, n), Switched(r, n))
  {
    if n > 0 {
      SwitchedShape(s, r, n - 1);
      RotatedShape(Switched(s, n - 1), Switched(r, n - 1), false);
    }
  }

  /** The interrupt handler of the timer: a tick and, when the task timer fired, a switch. */
  method OnTimerInterrupt(timer: TimerManager, manager: TaskManager)
      returns (switched: bool, ghost fired: seq<Timer>, ghost switches: seq<Timer>)
    requires timer.Ready() && timer.tick + 1 < NEVER && Valid(manager.State(), 2)
    modifies timer, manager
    ensures timer.Ready() && timer.tick == old(timer.tick) + 1 && forall t | t in timer.timers :: !Due(t, timer.tick)
    ensures Accounts(old(timer.timers), timer.timers, fired, switches, timer.tick) && (switched <==> switches != [])
    ensures Works(AllSent(old(manager.State()), fired)) && Valid(manager.State(), 2)
    ensures manager.State() == if switched then Switch(AllSent(old(manager.State()), fired))
                               else AllSent(old(manager.State()), fired)
  {
    hide *;
    ghost var m := manager.State();
    switched, fired, switches := timer.Tick(manager);
    AllSentValid(m, fired, 2);
    if switched {
      SwitchValid(AllSent(m, fired), 2);
      manager.SwitchTask();
    }
  }

  /** Nothing but the task timer moves tasks: no level change is pending, and every timer belongs to a running task. */
  ghost predicate Quiet(m: Manager, timers: seq<Timer>, tick: nat, next: nat) {
    Valid(m, 2) && !m.sched.changed && Armed(timers, tick, next) && AllRunning(m, timers)
  }

  /** Timers that are left or armed again belong to tasks that had timers before. */
  lemma StillRunning(m: Manager, m': Manager, was: seq<Timer>, ts: seq<Timer>, fired: seq<Timer>, switches: seq<Timer>, tick: nat, next: nat)
    requires AllRunning(m, was) && SameRunning(m, m') && Armed(was, tick, next) && Accounts(was, ts, fired, switches, tick + 1)
    ensures AllRunning(m', ts) && AllRunning(m, fired)
  {
    var timer, again := Timer(next, TASK_TIMER_VALUE, 1), TaskTimer(tick + 1);
    assert timer in was;
    forall t | t in ts && t.task in m'.sched.tasks ensures m'.sched.tasks[t.task].running {
      assert multiset(ts)[t] > 0;
      assert multiset(was)[t] > 0 || t == again;
    }
    FiredQueued(was, ts, fired, switches, tick + 1);
  }

  lemma FiredQueued(was: seq<Timer>, ts: seq<Timer>, fired: seq<Timer>, switches: seq<Timer>, tick: nat)
    requires Accounts(was, ts, fired, switches, tick)
    ensures forall t | t in fired :: t in was
  {
    forall t | t in fired ensures t in was {
      assert multiset(fired)[t] > 0;
      assert Due(t, tick) && !Due(TaskTimer(tick), tick);
    }
  }

  lemma FiredRunning(m: Manager, was: seq<Timer>, ts: seq<Timer>, fired: seq<Timer>, switches: seq<Timer>, tick: nat)
    requires AllRunning(m, was) && Accounts(was, ts, fired, switches, tick)
    ensures AllRunning(m, fired)
  {
    FiredQueued(was, ts, fired, switches, tick);
  }

  /** A switch without a pending level change leaves the level and what runs as they are. */
  lemma SwitchQuietly(m: Manager)
    requires Works(m) && !m.sched.changed
    ensures SameRunning(m, Switch(m)) && !Switch(m).sched.changed
  {
  }

  lemma QuietTop(m: Manager, timers: seq<Timer>, tick: nat, next: nat)
    requires Quiet(m, timers, tick, next)
    ensures Settled(m.sched) && Valid(m, 2)
  {
    hide Armed, AllRunning;
  }

  /** What one undisturbed tick does: it rotates the queue of the current level at the task timer's tick, or nothing. */
  lemma QuietStep(m: Manager, was: seq<Timer>, tick: nat, next: nat, ts: seq<Timer>, fired: seq<Timer>, switches: seq<Timer>,
                  m': Manager) returns (next': nat)
    requires Quiet(m, was, tick, next) && Accounts(was, ts, fired, switches, tick + 1) && Settled(m.sched)
    requires (forall t | t in ts :: !Due(t, tick + 1)) && Works(AllSent(m, fired)) && Valid(m', 2)
    requires m' == if switches != [] then Switch(AllSent(m, fired)) else AllSent(m, fired)
    ensures next' == if tick + 1 == next then next + TASK_TIMER_PERIOD else next
    ensures Quiet(m', ts, tick + 1, next')
    ensures SameShape(if tick + 1 == next then Rotated(m.sched, false) else m.sched, m'.sched)
  {
    hide Valid, Works, Armed, AllRunning, AllSent, Accounts, Rotated, SameRunning;
    next' := if tick + 1 == next then next + TASK_TIMER_PERIOD else next;
    var m1 := AllSent(m, fired);
    ArmedTick(was, ts, fired, switches, tick, next);
    FiredRunning(m, was, ts, fired, switches, tick + 1);
    AllSentRunning(m, fired);
    if switches != [] {
      SwitchQuietly(m1);
      RotatedShape(m.sched, m1.sched, false);
      SameRunningAcross(m, m1, m');
    }
    StillRunning(m, m', was, ts, fired, switches, tick, next);
  }

  lemma SameRunningAcross(m: Manager, m1: Manager, m2: Manager)
    requires SameRunning(m, m1) && SameRunning(m1, m2)
    ensures SameRunning(m, m2)
  {
  }

  /** One tick fewer to go, from queues that the tick has turned or left alone. */
  lemma TickDone(r: Sched, tick: nat, at: nat, left: nat, r': Sched, at': nat)
    requires Settled(r) && Settled(r') && left > 0
    requires at' == if tick + 1 == at then at + TASK_TIMER_PERIOD else at
    requires SameShape(if tick + 1 == at then Rotated(r, false) else r, r')
    ensures SameShape(Switched(r, SwitchCount(tick, at, left)), Switched(r', SwitchCount(tick + 1, at', left - 1)))
  {
    var c := SwitchCount(tick + 1, at', left - 1);
    if tick + 1 == at {
      assert SwitchCount(tick, at, left) == c + 1;
      SwitchedFirst(r, c);
      assert Switched(r, 1) == Rotated(r, false) by {
        assert Switched(r, 0) == r;
      }
      SwitchedShape(Switched(r, 1), r', c);
    } else {
      SwitchedShape(r, r', c);
    }
  }

  lemma SameShapeAcross(s: Sched, r: Sched, q: Sched)
    requires SameShape(s, r) && SameShape(r, q)
    ensures SameShape(s, q)
  {
  }

  /** One undisturbed tick. */
  method QuietTick(timer: TimerManager, manager: TaskManager, ghost at: nat) returns (ghost at': nat)
    requires timer.Ready() && timer.tick + 1 < NEVER && Quiet(manager.State(), timer.timers, timer.tick, at)
    modifies timer, manager
    ensures timer.Ready() && timer.tick == old(timer.tick) + 1 && Quiet(manager.State(), timer.timers, timer.tick, at')
    ensures at' == if timer.tick == at then at + TASK_TIMER_PERIOD else at
    ensures Settled(old(manager.State()).sched) && Settled(manager.State().sched)
    ensures SameShape(if timer.tick == at then Rotated(old(manager.State()).sched, false) else old(manager.State()).sched,
                      manager.State().sched)
  {
    hide *;
    ghost var m, was, tick := manager.State(), timer.timers, timer.tick;
    QuietTop(m, was, tick, at);
    var switched, fired, switches := OnTimerInterrupt(timer, manager);
    at' := QuietStep(m, was, tick, at, timer.timers, fired, switches, manager.State());
    QuietTop(manager.State(), timer.timers, timer.tick, at');
  }

  /** n undisturbed ticks: as many switches as there are ticks of the task timer among them. */
  method QuietTicks(timer: TimerManager, manager: TaskManager, n: nat, ghost next: nat)
    requires timer.Ready() && timer.tick + n < NEVER && Quiet(manager.State(), timer.timers, timer.tick, next)
    modifies timer, manager
    ensures Settled(old(manager.State()).sched) && Valid(manager.State(), 2)
    ensures SameShape(Switched(old(manager.State()).sched, SwitchCount(old(timer.tick), next, n)), manager.State().sched)
  {
    hide *;
    ghost var at, tick := next, timer.tick;
    QuietTop(manager.State(), timer.timers, timer.tick, next);
    ghost var goal := Switched(manager.State().sched, SwitchCount(timer.tick, next, n));
    SameShapeSelf(goal);
    for i := 0 to n
      invariant timer.Ready() && timer.tick == tick + i && Quiet(manager.State(), timer.timers, timer.tick, at)
      invariant Settled(manager.State().sched)
      invariant SameShape(goal, Switched(manager.State().sched, SwitchCount(tick + i, at, n - i)))
    {
      ghost var s := manager.State().sched;
      ghost var at' := QuietTick(timer, manager, at);
      TickDone(s, tick + i, at, n - i, manager.State().sched, at');
      SameShapeAcross(goal, Switched(s, SwitchCount(tick + i, at, n - i)),
                      Switched(manager.State().sched, SwitchCount(tick + i + 1, at', n - i - 1)));
      at := at';
    }
    NoTicks(goal, manager.State().sched, timer.tick, at);
    QuietTop(manager.State(), timer.timers, timer.tick, at);
  }

  lemma SameShapeSelf(s: Sched)
    ensures SameShape(s, s)
  {
  }

  lemma NoTicks(goal: Sched, r: Sched, tick: nat, at: nat)
    requires Settled(r) && SameShape(goal, Switched(r, SwitchCount(tick, at, 0)))
    ensures SameShape(goal, r)
  {
  }

  /** With k undisturbed tasks at the top level, the one at place i of its queue is current after 2i ticks: every one of
      them is dispatched within 2k ticks. */
  method Dispatched(timer: TimerManager, manager: TaskManager, i: nat, ghost next: nat)
    requires timer.Ready() && timer.tick + 2 * i < NEVER && Quiet(manager.State(), timer.timers, timer.tick, next)
    requires manager.currentLevel < |manager.queues| && i < |manager.queues[manager.currentLevel]|
    modifies timer, manager
    ensures Works(manager.State()) && Current(manager.Queues()) == old(manager.queues[manager.currentLevel])[i]
  {
    ghost var s := manager.Queues();
    QuietTop(manager.State(), timer.timers, timer.tick, next);
    NextSoon(timer.timers, timer.tick, next);
    SwitchEverySecond(timer.tick, next, i);
    GetsTurn(s, i);
    hide Quiet, Valid, Works, Switched, SwitchCount, TimerManager.Ready;
    QuietTicks(timer, manager, 2 * i, next);
    ValidWorks(manager.State(), 2);
  }

  lemma NextSoon(timers: seq<Timer>, tick: nat, next: nat)
    requires Armed(timers, tick, next)
    ensures tick < next <= tick + TASK_TIMER_PERIOD
  {
  }
}
