/** The task manager as a whole: run queues, messages, exit codes and who waits for them. */
module TaskSpec {
  import opened Scheduler

  /** What a task last gave up the processor for. */
  datatype Reason = Ready | OnQueue | OnFinish(target: nat)

  /** A task ended with a code; or WaitFinish returned a task's code. */
  datatype Event = Ended(task: nat, code: int) | Delivered(task: nat, code: int)

  /** halted holds the tasks that others put to sleep and nobody woke up since. */
  datatype Manager = Manager(sched: Sched, latestId: nat, finished: map<nat, int>, waiter: map<nat, nat>,
                             reason: map<nat, Reason>, halted: set<nat>, trace: seq<Event>)

  // ----- the invariant -----

  ghost predicate Ids(m: Manager) {
    && (forall t | t in m.sched.tasks :: t <= m.latestId && t in m.reason)
    && (forall i | 0 <= i < |m.trace| :: m.trace[i].task <= m.latestId && m.trace[i].task !in m.sched.tasks)
  }

  /** Whoever waits is registered until the awaited task ends; only one task waits for another. */
  ghost predicate Waits(m: Manager) { Registered(m) && Awaited(m) && Single(m) }

  ghost predicate Registered(m: Manager) {
    forall t | t in m.waiter :: m.waiter[t] in m.sched.tasks && m.waiter[t] in m.reason
                                && m.reason[m.waiter[t]] == OnFinish(t) && t !in m.finished
  }

  ghost predicate Awaited(m: Manager) {
    forall w | w in m.sched.tasks && w in m.reason && m.reason[w].OnFinish? && !m.sched.tasks[w].running && w !in m.halted ::
      m.reason[w].target in m.waiter && m.waiter[m.reason[w].target] == w
  }

  ghost predicate Single(m: Manager) {
    forall v, w | v in m.sched.tasks && w in m.sched.tasks && v in m.reason && w in m.reason
                  && m.reason[v].OnFinish? && m.reason[v] == m.reason[w] :: v == w
  }

  /** A task that went to sleep for want of a message still has none. */
  ghost predicate Listens(m: Manager) {
    forall t | t in m.sched.tasks && t in m.reason && m.reason[t] == OnQueue && !m.sched.tasks[t].running && t !in m.halted ::
      m.sched.tasks[t].msgs == []
  }

  /** What was put to sleep sleeps. */
  ghost predicate Halts(m: Manager) {
    forall t | t in m.halted :: t in m.sched.tasks && !m.sched.tasks[t].running
  }

  /** The codes kept are those of the tasks that ended and whose code was not delivered yet. */
  ghost predicate Codes(m: Manager) {
    && (forall t | t in m.finished :: exists i :: 0 <= i < |m.trace| && m.trace[i] == Ended(t, m.finished[t]))
    && (forall i | 0 <= i < |m.trace| && m.trace[i].Delivered? :: m.trace[i].task !in m.finished)
    && OnceEach(m.trace) && Backed(m.trace)
  }

  /** No task ends twice, and no code is delivered twice. */
  ghost predicate OnceEach(trace: seq<Event>) {
    forall i, j | 0 <= i < j < |trace| && trace[i].task == trace[j].task :: trace[i].Ended? && trace[j].Delivered?
  }

  /** A code is delivered only after its task ended with it. */
  ghost predicate Backed(trace: seq<Event>) {
    forall j | 0 <= j < |trace| && trace[j].Delivered? ::
      exists i :: 0 <= i < j && trace[i] == Ended(trace[j].task, trace[j].code)
  }

  ghost predicate Valid(m: Manager, idle: nat) {
    && ValidSched(m.sched, idle) && Ids(m) && Waits(m) && Listens(m) && Halts(m) && Codes(m)
    && idle in m.reason && m.reason[idle] == Ready
  }

  // ----- the steps -----

  function Started(m: Manager): Manager {
    var id := m.latestId + 1;
    m.(latestId := id, sched := m.sched.(tasks := m.sched.tasks[id := Task(DEFAULT_LEVEL, false, [])]),
       reason := m.reason[id := Ready])
  }

  ghost predicate Works(m: Manager) {
    |m.sched.queues| == LEVELS && m.sched.current < LEVELS && m.sched.queues[m.sched.current] != []
    && Current(m.sched) in m.sched.tasks && Current(m.sched) in m.reason
    && forall t | t in m.sched.tasks :: m.sched.tasks[t].level < LEVELS
  }

  function WokenUp(m: Manager, t: nat, level: int): Manager
    requires Works(m) && t in m.sched.tasks && level < LEVELS
  {
    m.(sched := Woken(m.sched, t, level), halted := m.halted - {t})
  }

  /** A task is put to sleep, wherever it runs. */
  function Suspended(m: Manager, t: nat): Manager
    requires Works(m) && t in m.sched.tasks
  {
    if !m.sched.tasks[t].running then m else m.(sched := Slept(m.sched, t), halted := m.halted + {t})
  }

  /** A message goes to the end of a task's queue, and the task wakes up. */
  function Sent(m: Manager, t: nat, msg: Message): Manager
    requires Works(m) && t in m.sched.tasks
  {
    var task := m.sched.tasks[t];
    m.(sched := Woken(m.sched.(tasks := m.sched.tasks[t := task.(msgs := task.msgs + [msg])]), t, -1), halted := m.halted - {t})
  }

  /** The current task takes its first message, or sleeps until there is one. */
  function Received(m: Manager): Manager
    requires Works(m)
  {
    var t := Current(m.sched);
    var task := m.sched.tasks[t];
    if task.msgs != []
    then m.(sched := m.sched.(tasks := m.sched.tasks[t := task.(msgs := task.msgs[1..])]), reason := m.reason[t := Ready])
    else m.(sched := Slept(m.sched, t), reason := m.reason[t := OnQueue])
  }

  /** One pass of WaitFinish: the code is there and is taken, or the current task registers and sleeps. */
  function Waited(m: Manager, target: nat): Manager
    requires Works(m)
  {
    var t := Current(m.sched);
    if target in m.finished
    then m.(finished := m.finished - {target}, reason := m.reason[t := Ready],
            trace := m.trace + [Delivered(target, m.finished[target])])
    else m.(waiter := m.waiter[target := t], reason := m.reason[t := OnFinish(target)], sched := Slept(m.sched, t))
  }

  /** The current task is gone. */
  function Removed(s: Sched): Sched
    requires |s.queues| == LEVELS && s.current < LEVELS && s.queues[s.current] != []
  {
    Rotated(s, true).(tasks := s.tasks - {Current(s)})
  }

  /** The current task ends with a code; whoever waits for it wakes up. */
  function Exited(m: Manager, code: int): Manager
    requires Works(m) && Works(Leave(m))
    requires Current(m.sched) in m.waiter ==> m.waiter[Current(m.sched)] in Leave(m).sched.tasks
  {
    var t := Current(m.sched);
    var m1 := Leave(m).(finished := m.finished[t := code], trace := m.trace + [Ended(t, code)]);
    if t in m.waiter then m1.(waiter := m.waiter - {t}, sched := Woken(m1.sched, m.waiter[t], -1), halted := m.halted - {m.waiter[t]})
    else m1
  }

  function Leave(m: Manager): Manager
    requires |m.sched.queues| == LEVELS && m.sched.current < LEVELS && m.sched.queues[m.sched.current] != []
  {
    m.(sched := Removed(m.sched))
  }

  function Switch(m: Manager): Manager
    requires Works(m)
  {
    m.(sched := Rotated(m.sched, false))
  }

  // ----- every step keeps the invariant -----

  lemma ValidParts(m: Manager, idle: nat)
    requires Valid(m, idle)
    ensures ValidSched(m.sched, idle) && Ids(m) && Waits(m) && Listens(m) && Halts(m) && Codes(m)
    ensures idle in m.reason && m.reason[idle] == Ready
  {
  }

  lemma MakesValid(m: Manager, idle: nat)
    requires ValidSched(m.sched, idle) && Ids(m) && Waits(m) && Listens(m) && Halts(m) && Codes(m)
    requires idle in m.reason && m.reason[idle] == Ready
    ensures Valid(m, idle)
  {
  }

  lemma ValidWorks(m: Manager, idle: nat)
    requires Valid(m, idle)
    ensures Works(m)
  {
    InOwnQueue(m.sched, Current(m.sched), m.sched.current);
  }

  lemma StartedValid(m: Manager, idle: nat)
    requires Valid(m, idle)
    ensures Valid(Started(m), idle)
  {
    hide *;
    ValidParts(m, idle);
    StartedSched(m, idle);
    StartedWaits(m);
    StartedRest(m, idle);
    MakesValid(Started(m), idle);
  }

  lemma StartedWaits(m: Manager)
    requires Ids(m) && Waits(m)
    ensures Waits(Started(m))
  {
  }

  lemma StartedRest(m: Manager, idle: nat)
    requires Ids(m) && Listens(m) && Halts(m) && Codes(m) && idle in m.sched.tasks && idle in m.reason && m.reason[idle] == Ready
    ensures Ids(Started(m)) && Listens(Started(m)) && Halts(Started(m)) && Codes(Started(m))
    ensures idle in Started(m).reason && Started(m).reason[idle] == Ready
  {
    hide Codes;
    SameCodes(m, Started(m));
  }

  lemma SameCodes(m: Manager, m': Manager)
    requires m'.finished == m.finished && m'.trace == m.trace
    ensures Codes(m) ==> Codes(m')
  {
  }

  lemma StartedSched(m: Manager, idle: nat)
    requires ValidSched(m.sched, idle) && Ids(m)
    ensures ValidSched(Started(m).sched, idle) && idle in m.sched.tasks
  {
    assert m.latestId + 1 !in m.sched.tasks;
    hide Once;
  }

  /** One task changes: it runs, or it was put to sleep, or it went to sleep for want of a message; who it waits for stays
      the same. */
  ghost predicate Harmless(m: Manager, m': Manager, t: nat, task': Task, reason': Reason) {
    && t in m.sched.tasks && t in m.reason
    && m' == m.(sched := m'.sched, reason := m.reason[t := reason'], halted := m'.halted)
    && m'.sched.tasks == m.sched.tasks[t := task']
    && m'.halted - {t} == m.halted - {t} && (t in m'.halted ==> !task'.running)
    && (reason' == m.reason[t] || (!m.reason[t].OnFinish? && !reason'.OnFinish?))
    && (task'.running || t in m'.halted || (reason'.OnQueue? && task'.msgs == []))
  }

  lemma HarmlessIds(m: Manager, m': Manager, t: nat, task': Task, reason': Reason)
    requires Ids(m) && Harmless(m, m', t, task', reason')
    ensures Ids(m')
  {
  }

  lemma HarmlessWaits(m: Manager, m': Manager, t: nat, task': Task, reason': Reason)
    requires Waits(m) && Harmless(m, m', t, task', reason')
    ensures Waits(m')
  {
    HarmlessRegistered(m, m', t, task', reason');
    OthersHalted(m, m', t);
    hide Registered;
  }

  lemma HarmlessRegistered(m: Manager, m': Manager, t: nat, task': Task, reason': Reason)
    requires Registered(m) && Harmless(m, m', t, task', reason')
    ensures Registered(m')
  {
  }

  lemma OthersHalted(m: Manager, m': Manager, t: nat)
    requires m'.halted - {t} == m.halted - {t}
    ensures forall x | x != t :: x in m'.halted <==> x in m.halted
  {
    forall x | x != t ensures x in m'.halted <==> x in m.halted {
      assert x in m'.halted - {t} <==> x in m.halted - {t};
    }
  }

  lemma HarmlessHalts(m: Manager, m': Manager, t: nat, task': Task, reason': Reason)
    requires Halts(m) && Harmless(m, m', t, task', reason')
    ensures Halts(m')
  {
    OthersHalted(m, m', t);
  }

  lemma HarmlessListens(m: Manager, m': Manager, t: nat, task': Task, reason': Reason)
    requires Listens(m) && Harmless(m, m', t, task', reason')
    ensures Listens(m')
  {
    OthersHalted(m, m', t);
  }

  lemma HarmlessValid(m: Manager, m': Manager, t: nat, task': Task, reason': Reason, idle: nat)
    requires Valid(m, idle) && Harmless(m, m', t, task', reason') && ValidSched(m'.sched, idle)
    requires t == idle ==> reason' == Ready
    ensures Valid(m', idle)
  {
    hide Codes, ValidSched, Waits, Listens, Halts, Ids;
    HarmlessIds(m, m', t, task', reason');
    HarmlessHalts(m, m', t, task', reason');
    HarmlessWaits(m, m', t, task', reason');
    HarmlessListens(m, m', t, task', reason');
    SameCodes(m, m');
  }

  lemma ReasonKept(m: Manager, m': Manager, t: nat)
    requires t in m.reason && m' == m.(sched := m'.sched, halted := m'.halted)
    ensures m' == m.(sched := m'.sched, reason := m.reason[t := m.reason[t]], halted := m'.halted)
  {
    assert m.reason[t := m.reason[t]] == m.reason;
  }

  lemma WokenUpValid(m: Manager, t: nat, level: int, idle: nat)
    requires Valid(m, idle) && t in m.sched.tasks && level < LEVELS
    ensures Works(m) && Valid(WokenUp(m, t, level), idle)
  {
    ValidWorks(m, idle);
    WokenValid(m.sched, t, level, idle);
    var m' := WokenUp(m, t, level);
    ReasonKept(m, m', t);
    hide Codes, ValidSched, Waits, Listens, Woken;
    HarmlessValid(m, m', t, m'.sched.tasks[t], m.reason[t], idle);
  }

  /** Any task but the idle one can be put to sleep. */
  lemma SuspendedValid(m: Manager, t: nat, idle: nat)
    requires Valid(m, idle) && t in m.sched.tasks && t != idle
    ensures Works(m) && Valid(Suspended(m, t), idle)
  {
    ValidWorks(m, idle);
    ValidParts(m, idle);
    if m.sched.tasks[t].running {
      SuspendedHarmless(m, Suspended(m, t), t);
      assert Suspended(m, t).sched == Slept(m.sched, t) && t in m.reason;
      hide *;
      SleptValid(m.sched, t, idle);
      HarmlessValid(m, Suspended(m, t), t, m.sched.tasks[t].(running := false), m.reason[t], idle);
    }
  }

  lemma SuspendedHarmless(m: Manager, m': Manager, t: nat)
    requires t in m.sched.tasks && t in m.reason && m' == m.(sched := m'.sched, halted := m.halted + {t})
    ensures m'.sched.tasks == m.sched.tasks[t := m.sched.tasks[t].(running := false)] ==>
              Harmless(m, m', t, m.sched.tasks[t].(running := false), m.reason[t])
  {
    ReasonKept(m, m', t);
  }

  lemma SwitchValid(m: Manager, idle: nat)
    requires Valid(m, idle)
    ensures Works(m) && Valid(Switch(m), idle)
  {
    ValidWorks(m, idle);
    RotatedValid(m.sched, idle);
    RotatedTop(m.sched, false, idle);
    SameTasks(m, Switch(m), idle);
  }

  lemma SameTasks(m: Manager, m': Manager, idle: nat)
    requires Valid(m, idle) && m' == m.(sched := m'.sched) && m'.sched.tasks == m.sched.tasks && ValidSched(m'.sched, idle)
    ensures Valid(m', idle)
  {
    hide ValidSched;
  }

  /** Changing a task's messages does not touch the queues. */
  lemma NewMessages(s: Sched, t: nat, msgs: seq<Message>, idle: nat)
    requires ValidSched(s, idle) && t in s.tasks
    ensures ValidSched(s.(tasks := s.tasks[t := s.tasks[t].(msgs := msgs)]), idle)
  {
    hide Once;
  }

  lemma SentValid(m: Manager, t: nat, msg: Message, idle: nat)
    requires Valid(m, idle) && t in m.sched.tasks
    ensures Works(m) && Valid(Sent(m, t, msg), idle)
    ensures t in Sent(m, t, msg).sched.tasks && Sent(m, t, msg).sched.tasks[t].running
    ensures Sent(m, t, msg).sched.tasks[t].msgs == m.sched.tasks[t].msgs + [msg]
  {
    ValidWorks(m, idle);
    var task := m.sched.tasks[t];
    var s1 := m.sched.(tasks := m.sched.tasks[t := task.(msgs := task.msgs + [msg])]);
    var m' := Sent(m, t, msg);
    assert m' == m.(sched := Woken(s1, t, -1), halted := m.halted - {t}) && ValidSched(m.sched, idle) && t in m.reason;
    assert t == idle ==> m.reason[t] == Ready;
    hide *;
    NewMessages(m.sched, t, task.msgs + [msg], idle);
    WokenValid(s1, t, -1, idle);
    SentHarmless(m, m', s1, t, msg);
    HarmlessValid(m, m', t, m'.sched.tasks[t], m.reason[t], idle);
  }

  lemma SentHarmless(m: Manager, m': Manager, s1: Sched, t: nat, msg: Message)
    requires t in m.sched.tasks && t in m.reason && m' == m.(sched := m'.sched, halted := m.halted - {t})
    requires s1.tasks == m.sched.tasks[t := m.sched.tasks[t].(msgs := m.sched.tasks[t].msgs + [msg])]
    requires m'.sched.tasks == s1.tasks[t := s1.tasks[t].(running := true, level := s1.tasks[t].level)]
    ensures t in m'.sched.tasks && Harmless(m, m', t, m'.sched.tasks[t], m.reason[t])
    ensures m'.sched.tasks[t].running && m'.sched.tasks[t].msgs == m.sched.tasks[t].msgs + [msg]
  {
    ReasonKept(m, m', t);
  }

  lemma Awake(m: Manager, t: nat)
    requires Halts(m) && t in m.sched.tasks && m.sched.tasks[t].running
    ensures t !in m.halted
  {
  }

  lemma ReceivedValid(m: Manager, idle: nat)
    requires Valid(m, idle) && Works(m) && Current(m.sched) != idle && !m.reason[Current(m.sched)].OnFinish?
    ensures Valid(Received(m), idle)
  {
    var t := Current(m.sched);
    var task, m' := m.sched.tasks[t], Received(m);
    InOwnQueue(m.sched, t, m.sched.current);
    ValidParts(m, idle);
    assert if task.msgs != []
           then m' == m.(sched := m.sched.(tasks := m.sched.tasks[t := task.(msgs := task.msgs[1..])]), reason := m.reason[t := Ready])
           else m' == m.(sched := Slept(m.sched, t), reason := m.reason[t := OnQueue]);
    Awake(m, t);
    hide Valid, ValidSched, Received, Slept, Ids, Waits, Listens, Halts, Codes;
    if task.msgs != [] {
      NewMessages(m.sched, t, task.msgs[1..], idle);
      HarmlessValid(m, m', t, task.(msgs := task.msgs[1..]), Ready, idle);
    } else {
      SleptValid(m.sched, t, idle);
      HarmlessValid(m, m', t, task.(running := false), OnQueue, idle);
    }
  }

  /** A task that slept for want of a message is runnable as soon as it has one, unless another put it to sleep. */
  lemma NoLostMessage(m: Manager, idle: nat, t: nat)
    requires Valid(m, idle) && t in m.sched.tasks && t in m.reason && m.reason[t] == OnQueue && m.sched.tasks[t].msgs != []
    ensures m.sched.tasks[t].running && t in m.sched.queues[m.sched.tasks[t].level] <==> t !in m.halted
  {
    QueuedFacts(m.sched, t);
  }

  // ----- exit codes -----

  lemma WaitedValid(m: Manager, target: nat, idle: nat)
    requires Valid(m, idle) && Works(m) && Current(m.sched) != idle
    requires m.reason[Current(m.sched)].OnFinish? ==> m.reason[Current(m.sched)].target == target
    requires forall w | w in m.sched.tasks && w in m.reason && m.reason[w] == OnFinish(target) :: w == Current(m.sched)
    ensures Valid(Waited(m, target), idle)
  {
    var t := Current(m.sched);
    InOwnQueue(m.sched, t, m.sched.current);
    if target in m.finished {
      Delivers(m, target, idle);
    } else {
      SleptValid(m.sched, t, idle);
      var m' := Waited(m, target);
      hide Codes, ValidSched, Slept, Waits, Listens, Halts, Ids, Queued;
      SameCodes(m, m');
      WaitsFor(m, m', target, t);
      WaitsRest(m, m', target, t);
      assert m'.reason[idle] == Ready;
    }
  }

  lemma WaitsRest(m: Manager, m': Manager, target: nat, t: nat)
    requires Ids(m) && Listens(m) && Halts(m) && t in m.sched.tasks && t in m.reason
    requires m' == m.(waiter := m.waiter[target := t], reason := m.reason[t := OnFinish(target)], sched := m'.sched)
    requires m'.sched.tasks == m.sched.tasks[t := m.sched.tasks[t].(running := false)]
    ensures Ids(m') && Listens(m') && Halts(m')
  {
  }

  lemma WaitsFor(m: Manager, m': Manager, target: nat, t: nat)
    requires Waits(m) && target !in m.finished && t in m.sched.tasks && t in m.reason
    requires m.reason[t].OnFinish? ==> m.reason[t].target == target
    requires forall w | w in m.sched.tasks && w in m.reason && m.reason[w] == OnFinish(target) :: w == t
    requires m' == m.(waiter := m.waiter[target := t], reason := m.reason[t := OnFinish(target)], sched := m'.sched)
    requires m'.sched.tasks == m.sched.tasks[t := m.sched.tasks[t].(running := false)]
    ensures Waits(m')
  {
    WaitsRegistered(m, m', target, t);
    WaitsSingle(m, m', target, t);
    hide Registered, Single;
  }

  lemma WaitsRegistered(m: Manager, m': Manager, target: nat, t: nat)
    requires Registered(m) && target !in m.finished && t in m.sched.tasks && t in m.reason
    requires m.reason[t].OnFinish? ==> m.reason[t].target == target
    requires m' == m.(waiter := m.waiter[target := t], reason := m.reason[t := OnFinish(target)], sched := m'.sched)
    requires m'.sched.tasks == m.sched.tasks[t := m.sched.tasks[t].(running := false)]
    ensures Registered(m')
  {
  }

  lemma WaitsSingle(m: Manager, m': Manager, target: nat, t: nat)
    requires Single(m) && t in m.sched.tasks && t in m.reason
    requires forall w | w in m.sched.tasks && w in m.reason && m.reason[w] == OnFinish(target) :: w == t
    requires m'.reason == m.reason[t := OnFinish(target)] && m'.sched.tasks.Keys == m.sched.tasks.Keys
    ensures Single(m')
  {
  }

  lemma Delivers(m: Manager, target: nat, idle: nat)
    requires Valid(m, idle) && Works(m) && Current(m.sched) != idle && target in m.finished
    requires m.reason[Current(m.sched)].OnFinish? ==> m.reason[Current(m.sched)].target == target
    requires m.sched.tasks[Current(m.sched)].running
    ensures Valid(Waited(m, target), idle)
  {
    var t, m' := Current(m.sched), Waited(m, target);
    hide Codes, ValidSched, Waits, Listens, Halts, Ids;
    EndedBefore(m, target);
    DeliversWaits(m, m', target, t);
    DeliversCodes(m, m', target);
    DeliversRest(m, m', target, t);
    assert m'.reason[idle] == Ready;
  }

  lemma DeliversRest(m: Manager, m': Manager, target: nat, t: nat)
    requires Ids(m) && Listens(m) && Halts(m) && t in m.sched.tasks && m.sched.tasks[t].running && target in m.finished
    requires target <= m.latestId && target !in m.sched.tasks
    requires m' == m.(finished := m.finished - {target}, reason := m.reason[t := Ready],
                      trace := m.trace + [Delivered(target, m.finished[target])])
    ensures Ids(m') && Listens(m') && Halts(m')
  {
  }

  lemma EndedBefore(m: Manager, target: nat)
    requires Codes(m) && Ids(m) && target in m.finished
    ensures target <= m.latestId && target !in m.sched.tasks
  {
  }

  lemma DeliversWaits(m: Manager, m': Manager, target: nat, t: nat)
    requires Waits(m) && target in m.finished && t in m.sched.tasks && t in m.reason && m.sched.tasks[t].running
    requires m.reason[t].OnFinish? ==> m.reason[t].target == target
    requires m'.sched == m.sched && m'.waiter == m.waiter && m'.halted == m.halted && m'.finished == m.finished - {target} && m'.reason == m.reason[t := Ready]
    ensures Waits(m')
  {
  }

  lemma DeliversCodes(m: Manager, m': Manager, target: nat)
    requires Codes(m) && target in m.finished && m'.finished == m.finished - {target}
    requires m'.trace == m.trace + [Delivered(target, m.finished[target])]
    ensures Codes(m')
  {
    var i :| 0 <= i < |m.trace| && m.trace[i] == Ended(target, m.finished[target]);
    DeliversOnce(m, m', target);
    DeliversBacked(m.trace, i, target, m.finished[target]);
    hide OnceEach, Backed;
    forall t | t in m'.finished ensures exists k :: 0 <= k < |m'.trace| && m'.trace[k] == Ended(t, m'.finished[t]) {
      var k :| 0 <= k < |m.trace| && m.trace[k] == Ended(t, m.finished[t]);
      assert m'.trace[k] == m.trace[k];
    }
    forall k | 0 <= k < |m'.trace| && m'.trace[k].Delivered? ensures m'.trace[k].task !in m'.finished {
      assert k < |m.trace| ==> m'.trace[k] == m.trace[k];
    }
  }

  lemma DeliversBacked(trace: seq<Event>, i: nat, target: nat, code: int)
    requires Backed(trace) && i < |trace| && trace[i] == Ended(target, code)
    ensures Backed(trace + [Delivered(target, code)])
  {
    var trace' := trace + [Delivered(target, code)];
    forall j | 0 <= j < |trace'| && trace'[j].Delivered?
      ensures exists k :: 0 <= k < j && trace'[k] == Ended(trace'[j].task, trace'[j].code)
    {
      if j < |trace| {
        var k :| 0 <= k < j && trace[k] == Ended(trace[j].task, trace[j].code);
        assert trace'[k] == trace[k];
      } else {
        assert trace'[i] == trace[i];
      }
    }
  }

  lemma DeliversOnce(m: Manager, m': Manager, target: nat)
    requires Codes(m) && target in m.finished
    requires m'.trace == m.trace + [Delivered(target, m.finished[target])]
    ensures OnceEach(m'.trace)
  {
    forall i, j | 0 <= i < j < |m'.trace| && m'.trace[i].task == m'.trace[j].task
      ensures m'.trace[i].Ended? && m'.trace[j].Delivered?
    {
      if j == |m.trace| {
        assert m.trace[i].task == target;
      } else {
        assert m.trace[i].task == m.trace[j].task;
      }
    }
  }

  // ----- the end of a task -----

  lemma RemovedValid(s: Sched, idle: nat)
    requires ValidSched(s, idle) && Current(s) != idle
    ensures ValidSched(Removed(s), idle) && Removed(s).tasks == s.tasks - {Current(s)}
  {
    var t := Current(s);
    RotatedTop(s, true, idle);
    InOwnQueue(s, t, s.current);
    var tasks := s.tasks[t := s.tasks[t].(running := false)];
    var r := Rotated(s, true).(tasks := tasks);
    assert Removed(s) == r.(tasks := s.tasks - {t});
    SleptCurrent(s, idle);
    hide *;
    WithoutTask(s.tasks, t, s.tasks[t].(running := false));
    SleeperGone(r, t, idle);
  }

  lemma WithoutTask(tasks: map<nat, Task>, t: nat, task: Task)
    requires t in tasks
    ensures tasks[t := task] - {t} == tasks - {t}
  {
  }

  /** A sleeping task is in no queue, and can go. */
  lemma SleeperGone(s: Sched, t: nat, idle: nat)
    requires ValidSched(s, idle) && t in s.tasks && !s.tasks[t].running
    ensures ValidSched(s.(tasks := s.tasks - {t}), idle)
  {
    hide Once;
  }

  /** The codes after the current task's end. */
  lemma EndsCodes(m: Manager, m': Manager, t: nat, code: int)
    requires Codes(m) && Ids(m) && t in m.sched.tasks
    requires m'.finished == m.finished[t := code] && m'.trace == m.trace + [Ended(t, code)]
    ensures Codes(m')
  {
    forall i | 0 <= i < |m.trace| ensures m.trace[i].task != t && m'.trace[i] == m.trace[i] {
    }
    EndsBacked(m.trace, t, code);
    EndsOnce(m.trace, t, code);
    hide OnceEach, Backed, Ids;
    forall x | x in m'.finished ensures exists k :: 0 <= k < |m'.trace| && m'.trace[k] == Ended(x, m'.finished[x]) {
      if x == t {
        assert m'.trace[|m.trace|] == Ended(t, code);
      } else {
        var k :| 0 <= k < |m.trace| && m.trace[k] == Ended(x, m.finished[x]);
        assert m'.trace[k] == m.trace[k];
      }
    }
  }

  lemma EndsOnce(trace: seq<Event>, t: nat, code: int)
    requires OnceEach(trace) && forall i | 0 <= i < |trace| :: trace[i].task != t
    ensures OnceEach(trace + [Ended(t, code)])
  {
  }

  lemma EndsBacked(trace: seq<Event>, t: nat, code: int)
    requires Backed(trace)
    ensures Backed(trace + [Ended(t, code)])
  {
    var trace' := trace + [Ended(t, code)];
    forall j | 0 <= j < |trace'| && trace'[j].Delivered?
      ensures exists k :: 0 <= k < j && trace'[k] == Ended(trace'[j].task, trace'[j].code)
    {
      var k :| 0 <= k < j && trace[k] == Ended(trace[j].task, trace[j].code);
      assert trace'[k] == trace[k];
    }
  }

  /** Whoever waited for the task that ends is awake afterwards, and the others still wait for others. */
  lemma EndsWaits(m: Manager, m': Manager, t: nat, code: int)
    requires Waits(m) && t in m.sched.tasks && t in m.reason && !m.reason[t].OnFinish?
    requires m'.waiter == m.waiter - {t} && m'.reason == m.reason && m'.finished == m.finished[t := code]
    requires OthersLeft(m.sched.tasks, m'.sched.tasks, t)
    requires t in m.waiter ==> m.waiter[t] in m'.sched.tasks && m'.sched.tasks[m.waiter[t]].running
    requires HaltedLeft(m, m')
    ensures Waits(m')
  {
    EndsRegistered(m, m', t, code);
    hide Registered;
  }

  lemma EndsRegistered(m: Manager, m': Manager, t: nat, code: int)
    requires Registered(m) && t in m.sched.tasks && t in m.reason && !m.reason[t].OnFinish?
    requires m'.waiter == m.waiter - {t} && m'.reason == m.reason && m'.finished == m.finished[t := code]
    requires OthersLeft(m.sched.tasks, m'.sched.tasks, t)
    ensures Registered(m')
  {
  }

  lemma EndsRest(m: Manager, m': Manager, t: nat, code: int)
    requires Ids(m) && Listens(m) && t in m.sched.tasks && m'.latestId == m.latestId && m'.reason == m.reason
    requires HaltedLeft(m, m')
    requires m'.trace == m.trace + [Ended(t, code)]
    requires OthersLeft(m.sched.tasks, m'.sched.tasks, t)
    ensures Ids(m') && Listens(m')
  {
  }

  lemma LeaveWorks(m: Manager, idle: nat)
    requires Valid(m, idle) && Works(m) && Current(m.sched) != idle
    ensures ValidSched(Leave(m).sched, idle) && Works(Leave(m)) && Leave(m).sched.tasks == m.sched.tasks - {Current(m.sched)}
    ensures Current(m.sched) in m.waiter && !m.reason[Current(m.sched)].OnFinish?
            ==> m.waiter[Current(m.sched)] in Leave(m).sched.tasks
  {
    RemovedValid(m.sched, idle);
    InOwnQueue(Leave(m).sched, Current(Leave(m).sched), Leave(m).sched.current);
  }

  /** The tasks after t has ended: all others are there, with their messages, and none has gone to sleep. */
  ghost predicate OthersLeft(tasks: map<nat, Task>, tasks': map<nat, Task>, t: nat) {
    && (forall w | w in tasks' :: w in tasks && w != t)
    && (forall w | w in tasks && w != t :: w in tasks')
    && (forall w | w in tasks' :: (tasks'[w].running == tasks[w].running || tasks'[w].running) && tasks'[w].msgs == tasks[w].msgs)
  }

  /** Whoever is no longer halted runs; whoever still is still sleeps. */
  ghost predicate HaltedLeft(m: Manager, m': Manager) {
    && (forall w | w in m.halted && w !in m'.halted :: w in m'.sched.tasks && m'.sched.tasks[w].running)
    && (forall w | w in m'.halted :: w in m'.sched.tasks && !m'.sched.tasks[w].running)
  }

  lemma HaltedLeftBy(m: Manager, m': Manager, t: nat, w: nat, task: Task)
    requires Halts(m) && t in m.sched.tasks && m.sched.tasks[t].running && m'.halted == m.halted - {w}
    requires m'.sched.tasks == (m.sched.tasks - {t})[w := task] && task.running
    ensures HaltedLeft(m, m')
  {
  }

  lemma HaltedLeftAlone(m: Manager, m': Manager, t: nat)
    requires Halts(m) && t in m.sched.tasks && m.sched.tasks[t].running && m'.halted == m.halted
    requires m'.sched.tasks == m.sched.tasks - {t}
    ensures HaltedLeft(m, m')
  {
  }

  lemma HaltedLeftHalts(m: Manager, m': Manager)
    requires HaltedLeft(m, m')
    ensures Halts(m')
  {
  }

  lemma OthersLeftBy(tasks: map<nat, Task>, left: map<nat, Task>, t: nat, w: nat, level: nat)
    requires left == tasks - {t} && w in left
    ensures OthersLeft(tasks, left, t) && OthersLeft(tasks, left[w := left[w].(running := true, level := level)], t)
  {
  }

  lemma OthersLeftAlone(tasks: map<nat, Task>, t: nat)
    ensures OthersLeft(tasks, tasks - {t}, t)
  {
  }

  lemma ExitedTasks(m: Manager, code: int, idle: nat)
    requires Valid(m, idle) && Works(m) && Current(m.sched) != idle && !m.reason[Current(m.sched)].OnFinish?
    ensures Works(Leave(m)) && (Current(m.sched) in m.waiter ==> m.waiter[Current(m.sched)] in Leave(m).sched.tasks)
    ensures ValidSched(Exited(m, code).sched, idle)
    ensures OthersLeft(m.sched.tasks, Exited(m, code).sched.tasks, Current(m.sched))
    ensures Current(m.sched) in m.waiter ==>
              && m.waiter[Current(m.sched)] in Exited(m, code).sched.tasks
              && Exited(m, code).sched.tasks[m.waiter[Current(m.sched)]].running
  {
    var t, left := Current(m.sched), Leave(m).sched;
    hide *;
    LeaveWorks(m, idle);
    ExitedSched(m, code);
    if t in m.waiter {
      var w := m.waiter[t];
      WokenValid(left, w, -1, idle);
      OthersLeftBy(m.sched.tasks, left.tasks, t, w, left.tasks[w].level);
    } else {
      OthersLeftAlone(m.sched.tasks, t);
    }
  }

  lemma CurrentRuns(m: Manager, idle: nat)
    requires ValidSched(m.sched, idle) && Works(m)
    ensures m.sched.tasks[Current(m.sched)].running
  {
    InOwnQueue(m.sched, Current(m.sched), m.sched.current);
  }

  lemma ExitedHalted(m: Manager, code: int, idle: nat)
    requires Valid(m, idle) && Works(m) && Current(m.sched) != idle && !m.reason[Current(m.sched)].OnFinish?
    ensures Works(Leave(m)) && (Current(m.sched) in m.waiter ==> m.waiter[Current(m.sched)] in Leave(m).sched.tasks)
    ensures HaltedLeft(m, Exited(m, code))
  {
    var t, left := Current(m.sched), Leave(m).sched;
    hide *;
    ValidParts(m, idle);
    CurrentRuns(m, idle);
    LeaveWorks(m, idle);
    ExitedSched(m, code);
    if t in m.waiter {
      var w := m.waiter[t];
      WokenValid(left, w, -1, idle);
      HaltedLeftBy(m, Exited(m, code), t, w, left.tasks[w].(running := true, level := left.tasks[w].level));
    } else {
      HaltedLeftAlone(m, Exited(m, code), t);
    }
  }

  lemma ExitedSched(m: Manager, code: int)
    requires Works(m) && Works(Leave(m))
    requires Current(m.sched) in m.waiter ==> m.waiter[Current(m.sched)] in Leave(m).sched.tasks
    ensures Exited(m, code).sched == if Current(m.sched) in m.waiter then Woken(Leave(m).sched, m.waiter[Current(m.sched)], -1)
                                     else Leave(m).sched
    ensures Exited(m, code).halted == if Current(m.sched) in m.waiter then m.halted - {m.waiter[Current(m.sched)]} else m.halted
  {
    hide Woken, Removed;
  }

  lemma ExitedValid(m: Manager, code: int, idle: nat)
    requires Valid(m, idle) && Works(m) && Current(m.sched) != idle && !m.reason[Current(m.sched)].OnFinish?
    ensures Works(Leave(m)) && (Current(m.sched) in m.waiter ==> m.waiter[Current(m.sched)] in Leave(m).sched.tasks)
    ensures Valid(Exited(m, code), idle)
  {
    var t := Current(m.sched);
    ExitedTasks(m, code, idle);
    ExitedHalted(m, code, idle);
    ValidParts(m, idle);
    ExitedRest(m, code);
    hide *;
    var m' := Exited(m, code);
    EndsCodes(m, m', t, code);
    EndsWaits(m, m', t, code);
    EndsRest(m, m', t, code);
    HaltedLeftHalts(m, m');
    MakesValid(m', idle);
  }

  lemma ExitedRest(m: Manager, code: int)
    requires Works(m) && Works(Leave(m))
    requires Current(m.sched) in m.waiter ==> m.waiter[Current(m.sched)] in Leave(m).sched.tasks
    ensures Exited(m, code).latestId == m.latestId && Exited(m, code).reason == m.reason
    ensures Exited(m, code).waiter == m.waiter - {Current(m.sched)}
    ensures Exited(m, code).finished == m.finished[Current(m.sched) := code]
    ensures Exited(m, code).trace == m.trace + [Ended(Current(m.sched), code)]
  {
    hide Woken, Removed;
    if Current(m.sched) !in m.waiter {
      assert m.waiter - {Current(m.sched)} == m.waiter;
    }
  }

  // ----- what it means -----

  /** No exit code is lost: a task that waits for one that has ended is not asleep, whatever woke it up before, unless
      another put it to sleep. */
  lemma NoLostExit(m: Manager, idle: nat, w: nat, target: nat)
    requires Valid(m, idle) && w in m.sched.tasks && w in m.reason && m.reason[w] == OnFinish(target) && target in m.finished
    ensures m.sched.tasks[w].running <==> w !in m.halted
  {
  }

  /** WaitFinish returns a code only if its task ended with it, and returns no task's code twice. */
  lemma DeliveredOnce(m: Manager, idle: nat, j: nat) returns (i: nat)
    requires Valid(m, idle) && j < |m.trace| && m.trace[j].Delivered?
    ensures i < j && m.trace[i] == Ended(m.trace[j].task, m.trace[j].code)
    ensures forall k | 0 <= k < |m.trace| && k != j && m.trace[k].Delivered? :: m.trace[k].task != m.trace[j].task
  {
    i :| i < j && m.trace[i] == Ended(m.trace[j].task, m.trace[j].code);
    forall k | 0 <= k < |m.trace| && k != j && m.trace[k].Delivered? ensures m.trace[k].task != m.trace[j].task {
    }
  }
}
