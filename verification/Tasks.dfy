/** The task manager: its queues and tables, changed step by step. Each call is one step with interrupts disabled. */
module Tasks {
  import opened Scheduler
  import opened TaskSpec

  /** Two tasks: the first one at the highest level, the idle task at the lowest. */
  ghost function Initial(): Manager {
    Manager(Sched(map[1 := Task(MAX_LEVEL, true, []), 2 := Task(0, true, [])], [[2], [], [], [1]], MAX_LEVEL, false),
            2, map[], map[], map[1 := Ready, 2 := Ready], {}, [])
  }

  lemma InitialQueues(s: Sched)
    requires s == Initial().sched
    ensures ValidSched(s, 2)
  {
    assert s.queues[0] == [2] && s.queues[1] == [] && s.queues[2] == [] && s.queues[3] == [1];
  }

  lemma InitialValid(m: Manager)
    requires m == Initial()
    ensures Valid(m, 2)
  {
    InitialQueues(m.sched);
    assert m.trace == [] && m.finished == map[] && m.waiter == map[];
    hide ValidSched;
  }

  class TaskManager {
    var tasks: map<nat, Task>
    var latestId: nat
    var queues: seq<seq<nat>>
    var currentLevel: nat
    var levelChanged: bool
    var finishTasks: map<nat, int>
    var finishWaiter: map<nat, nat>
    ghost var reason: map<nat, Reason>
    ghost var halted: set<nat>
    ghost var trace: seq<Event>

    ghost function Queues(): Sched
      reads this
    {
      Sched(tasks, queues, currentLevel, levelChanged)
    }

    ghost function State(): Manager
      reads this
    {
      Manager(Queues(), latestId, finishTasks, finishWaiter, reason, halted, trace)
    }

    /** The first task, at the highest level, and the idle task, number 2. */
    constructor ()
      ensures Valid(State(), 2) && tasks.Keys == {1, 2} && currentLevel == MAX_LEVEL && queues[MAX_LEVEL] == [1] && trace == []
    {
      tasks := map[1 := Task(MAX_LEVEL, true, []), 2 := Task(0, true, [])];
      latestId, queues, currentLevel, levelChanged := 2, [[2], [], [], [1]], MAX_LEVEL, false;
      finishTasks, finishWaiter := map[], map[];
      reason, halted, trace := map[1 := Ready, 2 := Ready], {}, [];
      new;
      InitialValid(State());
    }

    /** Removes a task from a queue. */
    static method Erase(q: seq<nat>, x: nat) returns (r: seq<nat>)
      ensures r == Without(q, x)
    {
      r := [];
      assert q[0..] == q;
      for i := 0 to |q|
        invariant r + Without(q[i..], x) == Without(q, x)
      {
        assert q[i..] == [q[i]] + q[i + 1..];
        if q[i] != x {
          r := r + [q[i]];
        }
      }
    }

    method CurrentTask() returns (t: nat)
      requires Works(State())
      ensures t == Current(Queues())
    {
      t := queues[currentLevel][0];
    }

    method NewTask() returns (id: nat)
      modifies this
      ensures State() == Started(old(State())) && id == old(latestId) + 1
    {
      latestId := latestId + 1;
      id := latestId;
      tasks := tasks[id := Task(DEFAULT_LEVEL, false, [])];
      reason := reason[id := Ready];
    }

    method RotateCurrentRunQueue(currentSleep: bool) returns (t: nat)
      requires |queues| == LEVELS && currentLevel < LEVELS && queues[currentLevel] != []
      modifies this`queues, this`currentLevel, this`levelChanged
      ensures Queues() == Rotated(old(Queues()), currentSleep) && t == Current(old(Queues()))
    {
      var q := queues[currentLevel];
      t := q[0];
      q := q[1..];
      if !currentSleep {
        q := q + [t];
      }
      assert q == queues[currentLevel][1..] + (if currentSleep then [] else [t]);
      queues := queues[currentLevel := q];
      if q == [] {
        levelChanged := true;
      }
      if levelChanged {
        levelChanged := false;
        currentLevel := HighestLevel(queues, currentLevel);
      }
    }

    /** The search for the highest level with work. */
    static method HighestLevel(queues: seq<seq<nat>>, current: nat) returns (lv: nat)
      requires |queues| == LEVELS
      ensures lv == Highest(queues, LEVELS, current)
    {
      var i: int := MAX_LEVEL;
      while i >= 0
        invariant -1 <= i <= MAX_LEVEL && Highest(queues, LEVELS, current) == Highest(queues, i + 1, current)
        decreases i
      {
        if queues[i] != [] {
          return i;
        }
        i := i - 1;
      }
      return current;
    }

    method SwitchTask()
      requires Works(State())
      modifies this`queues, this`currentLevel, this`levelChanged
      ensures State() == Switch(old(State()))
    {
      var _ := RotateCurrentRunQueue(false);
    }

    /** Puts a task to sleep: the current one, by giving up the processor, or another. */
    method Sleep(t: nat)
      requires Works(State()) && t in tasks
      modifies this`tasks, this`queues, this`currentLevel, this`levelChanged
      ensures Queues() == Slept(old(Queues()), t)
    {
      if !tasks[t].running {
        return;
      }
      tasks := tasks[t := tasks[t].(running := false)];
      if t == queues[currentLevel][0] {
        var _ := RotateCurrentRunQueue(true);
        return;
      }
      var q := Erase(queues[tasks[t].level], t);
      queues := queues[tasks[t].level := q];
    }

    method ChangeLevelRunning(t: nat, level: int)
      requires Works(State()) && t in tasks && level < LEVELS
      modifies this`tasks, this`queues, this`currentLevel, this`levelChanged
      ensures Queues() == Relevelled(old(Queues()), t, level)
    {
      if level < 0 || level == tasks[t].level {
        return;
      }
      if t != queues[currentLevel][0] {
        var q := Erase(queues[tasks[t].level], t);
        queues := queues[tasks[t].level := q];
        queues := queues[level := queues[level] + [t]];
        tasks := tasks[t := tasks[t].(level := level)];
        if level > currentLevel {
          levelChanged := true;
        }
        return;
      }
      queues := queues[currentLevel := queues[currentLevel][1..]];
      queues := queues[level := [t] + queues[level]];
      tasks := tasks[t := tasks[t].(level := level)];
      if level >= currentLevel {
        currentLevel := level;
      } else {
        currentLevel := level;
        levelChanged := true;
      }
    }

    /** Puts the task with a number to sleep, if there is one. */
    method SleepById(t: nat) returns (found: bool)
      requires Works(State())
      modifies this`tasks, this`queues, this`currentLevel, this`levelChanged, this`halted
      ensures found <==> t in old(tasks)
      ensures State() == if found then Suspended(old(State()), t) else old(State())
    {
      if t !in tasks {
        return false;
      }
      if tasks[t].running {
        halted := halted + {t};
      }
      Sleep(t);
      return true;
    }

    method Wakeup(t: nat, level0: int)
      requires Works(State()) && t in tasks && level0 < LEVELS
      modifies this`tasks, this`queues, this`currentLevel, this`levelChanged, this`halted
      ensures State() == WokenUp(old(State()), t, level0)
    {
      halted := halted - {t};
      if tasks[t].running {
        ChangeLevelRunning(t, level0);
        return;
      }
      var level := level0;
      if level < 0 {
        level := tasks[t].level;
      }
      tasks := tasks[t := tasks[t].(level := level, running := true)];
      queues := queues[level := queues[level] + [t]];
      if level > currentLevel {
        levelChanged := true;
      }
    }

    /** Sends a message to a task, if there is such a task. */
    method SendMessage(t: nat, msg: Message) returns (found: bool)
      requires Works(State())
      modifies this`tasks, this`queues, this`currentLevel, this`levelChanged, this`halted
      ensures found <==> t in old(tasks)
      ensures State() == if found then Sent(old(State()), t, msg) else old(State())
    {
      if t !in tasks {
        return false;
      }
      tasks := tasks[t := tasks[t].(msgs := tasks[t].msgs + [msg])];
      Wakeup(t, -1);
      return true;
    }

    /** The current task takes a message or, if there is none, sleeps: what every message loop does. */
    method ReceiveOrSleep() returns (msg: seq<Message>)
      requires Works(State())
      modifies this`tasks, this`queues, this`currentLevel, this`levelChanged, this`reason
      ensures State() == Received(old(State()))
      ensures msg == var msgs := old(tasks)[Current(old(Queues()))].msgs; if msgs == [] then [] else [msgs[0]]
    {
      var t := CurrentTask();
      var msgs := tasks[t].msgs;
      if msgs == [] {
        reason := reason[t := OnQueue];
        Sleep(t);
        return [];
      }
      tasks := tasks[t := tasks[t].(msgs := msgs[1..])];
      reason := reason[t := Ready];
      return [msgs[0]];
    }

    /** One pass of the loop of WaitFinish. */
    method WaitFinish(target: nat) returns (done: bool, exitCode: int)
      requires Works(State())
      modifies this`tasks, this`queues, this`currentLevel, this`levelChanged, this`reason, this`finishTasks, this`finishWaiter, this`trace
      ensures State() == Waited(old(State()), target)
      ensures done <==> target in old(finishTasks)
      ensures done ==> exitCode == old(finishTasks)[target] && trace == old(trace) + [Delivered(target, exitCode)]
    {
      var t := CurrentTask();
      exitCode := 0;
      if target in finishTasks {
        exitCode := finishTasks[target];
        finishTasks := finishTasks - {target};
        reason := reason[t := Ready];
        trace := trace + [Delivered(target, exitCode)];
        return true, exitCode;
      }
      finishWaiter := finishWaiter[target := t];
      reason := reason[t := OnFinish(target)];
      Sleep(t);
      return false, exitCode;
    }

    /** Ends the current task. */
    method Finish(exitCode: int)
      requires Works(State()) && Works(Leave(State()))
      requires Current(Queues()) in finishWaiter ==> finishWaiter[Current(Queues())] in Leave(State()).sched.tasks
      modifies this`tasks, this`queues, this`currentLevel, this`levelChanged, this`finishTasks, this`finishWaiter, this`halted
      modifies this`trace
      ensures State() == Exited(old(State()), exitCode)
    {
      var t := RotateCurrentRunQueue(true);
      tasks := tasks - {t};
      trace := trace + [Ended(t, exitCode)];
      finishTasks := finishTasks[t := exitCode];
      if t in finishWaiter {
        var waiter := finishWaiter[t];
        finishWaiter := finishWaiter - {t};
        Wakeup(waiter, -1);
      }
    }
  
    /** One step of any kind. */
    method Perform(op: Op)
      requires Works(State()) && Allowed(State(), op, 2) && Valid(State(), 2)
      modifies this
      ensures State() == Step(old(State()), op, 2) && Valid(State(), 2)
    {
      StepValid(State(), op, 2);
      hide Valid;
      match op
      case Create => var _ := NewTask();
      case Wake(t, level) => Wakeup(t, level);
      case Send(t, msg) => var _ := SendMessage(t, msg);
      case Receive => var _ := ReceiveOrSleep();
      case Wait(target) => var _, _ := WaitFinish(target);
      case Exit(code) => Finish(code);
      case Preempt => SwitchTask();
      case Suspend(t) => var _ := SleepById(t);
    }
  }

  /** What happens: the current task calls the manager, another task or an interrupt wakes, sends or puts to sleep, or
      the timer fires. */
  datatype Op = Create | Wake(t: nat, level: int) | Send(t: nat, msg: Message) | Receive | Wait(target: nat) | Exit(code: int)
              | Preempt | Suspend(t: nat)

  /** What callers keep to: the idle task neither sleeps nor ends, a task that waits does nothing else until it has its
      code, and only one task waits for another. */
  ghost predicate Allowed(m: Manager, op: Op, idle: nat) {
    Works(m)
    && match op {
      case Wake(t, level) => t in m.sched.tasks && level < LEVELS
      case Receive => Current(m.sched) != idle && !m.reason[Current(m.sched)].OnFinish?
      case Wait(target) => Current(m.sched) != idle && MayWait(m, target)
      case Exit(code) => Current(m.sched) != idle && !m.reason[Current(m.sched)].OnFinish?
      case Suspend(t) => t != idle
      case _ => true
    }
  }

  ghost predicate MayWait(m: Manager, target: nat)
    requires Works(m)
  {
    && (m.reason[Current(m.sched)].OnFinish? ==> m.reason[Current(m.sched)].target == target)
    && (forall w | w in m.sched.tasks && w in m.reason && m.reason[w] == OnFinish(target) :: w == Current(m.sched))
  }

  lemma AllowedExit(m: Manager, code: int, idle: nat)
    requires Valid(m, idle) && Allowed(m, Exit(code), idle)
    ensures Works(Leave(m)) && (Current(m.sched) in m.waiter ==> m.waiter[Current(m.sched)] in Leave(m).sched.tasks)
  {
    ExitedValid(m, code, idle);
  }

  ghost function Step(m: Manager, op: Op, idle: nat): Manager
    requires Valid(m, idle) && Allowed(m, op, idle)
  {
    match op
    case Create => Started(m)
    case Wake(t, level) => WokenUp(m, t, level)
    case Send(t, msg) => if t in m.sched.tasks then Sent(m, t, msg) else m
    case Receive => Received(m)
    case Wait(target) => Waited(m, target)
    case Exit(code) => AllowedExit(m, code, idle); Exited(m, code)
    case Preempt => Switch(m)
    case Suspend(t) => if t in m.sched.tasks then Suspended(m, t) else m
  }

  lemma StepValid(m: Manager, op: Op, idle: nat)
    requires Valid(m, idle) && Allowed(m, op, idle)
    ensures Valid(Step(m, op, idle), idle)
    ensures op.Exit? ==> Works(Leave(m)) && (Current(m.sched) in m.waiter ==> m.waiter[Current(m.sched)] in Leave(m).sched.tasks)
  {
    hide Valid, Started, WokenUp, Sent, Received, Waited, Exited, Switch, Leave, Suspended;
    match op
    case Create => StartedValid(m, idle);
    case Wake(t, level) => WokenUpValid(m, t, level, idle);
    case Send(t, msg) => if t in m.sched.tasks { SentValid(m, t, msg, idle); }
    case Receive => ReceivedValid(m, idle);
    case Wait(target) => WaitedValid(m, target, idle);
    case Exit(code) => ExitedValid(m, code, idle);
    case Preempt => SwitchValid(m, idle);
    case Suspend(t) => if t in m.sched.tasks { SuspendedValid(m, t, idle); }
  }

  /** A run: steps one after the other, each allowed where it happens. */
  ghost predicate Run(m: Manager, ops: seq<Op>, m': Manager, idle: nat)
    requires Valid(m, idle)
    decreases |ops|
  {
    if ops == [] then m' == m
    else Allowed(m, ops[0], idle) && (StepValid(m, ops[0], idle); Run(Step(m, ops[0], idle), ops[1..], m', idle))
  }

  /** Every run of the system keeps its tasks in order. */
  lemma {:induction false} RunValid(m: Manager, ops: seq<Op>, m': Manager, idle: nat)
    requires Valid(m, idle) && Run(m, ops, m', idle)
    ensures Valid(m', idle)
    decreases |ops|
  {
    hide Valid, Step;
    if ops != [] {
      StepValid(m, ops[0], idle);
      RunValid(Step(m, ops[0], idle), ops[1..], m', idle);
    }
  }

  lemma StepHistory(m: Manager, op: Op, idle: nat)
    requires Valid(m, idle) && Allowed(m, op, idle)
    ensures m.trace <= Step(m, op, idle).trace
  {
    if op.Exit? {
      AllowedExit(m, op.code, idle);
      ExitedRest(m, op.code);
    }
    hide Valid, Woken, Slept, Rotated, Leave;
  }

  /** History only grows: what WaitFinish returned and who ended is never taken back. */
  lemma {:induction false} RunHistory(m: Manager, ops: seq<Op>, m': Manager, idle: nat)
    requires Valid(m, idle) && Run(m, ops, m', idle)
    ensures m.trace <= m'.trace
    decreases |ops|
  {
    hide Valid, Step, Allowed;
    if ops != [] {
      StepValid(m, ops[0], idle);
      StepHistory(m, ops[0], idle);
      RunHistory(Step(m, ops[0], idle), ops[1..], m', idle);
    }
  }
}
