/** The order of tasks and of messages: nobody is overtaken but by being moved, only the current task gives up the processor,
    and messages arrive in the order in which they were sent. */
module TaskOrder {
  import opened Scheduler
  import opened TaskSpec
  import opened Tasks

  // ----- order in a queue -----

  ghost predicate Before(q: seq<nat>, x: nat, y: nat) {
    exists i, j :: 0 <= i < j < |q| && q[i] == x && q[j] == y
  }

  /** Two queues hold the same tasks in the same order, but for those in a set. */
  ghost predicate SameOrder(q: seq<nat>, r: seq<nat>, moved: set<nat>) {
    && (forall x {:trigger x in q} {:trigger x in r} :: x !in moved ==> (x in q <==> x in r))
    && (forall x, y :: x !in moved && y !in moved ==> (Before(q, x, y) <==> Before(r, x, y)))
  }

  lemma SameOrderAcross(q: seq<nat>, r: seq<nat>, a: set<nat>, s: seq<nat>, b: set<nat>)
    requires SameOrder(q, r, a) && SameOrder(r, s, b)
    ensures SameOrder(q, s, a + b)
  {
    forall x | x !in a + b
      ensures x in q <==> x in s
    {
    }
    forall x, y | x !in a + b && y !in a + b
      ensures Before(q, x, y) <==> Before(s, x, y)
    {
    }
  }

  lemma BeforeJoin(a: seq<nat>, b: seq<nat>, x: nat, y: nat)
    ensures Before(a + b, x, y) <==> Before(a, x, y) || Before(b, x, y) || (x in a && y in b)
  {
    if i, j :| 0 <= i < j < |a + b| && (a + b)[i] == x && (a + b)[j] == y {
      if i >= |a| {
        assert b[i - |a|] == x && b[j - |a|] == y;
      }
    }
    if i, j :| 0 <= i < j < |a| && a[i] == x && a[j] == y {
      assert (a + b)[i] == x && (a + b)[j] == y;
    }
    if i, j :| 0 <= i < j < |b| && b[i] == x && b[j] == y {
      assert (a + b)[|a| + i] == x && (a + b)[|a| + j] == y;
    }
    if i, j :| 0 <= i < |a| && 0 <= j < |b| && a[i] == x && b[j] == y {
      assert (a + b)[i] == x && (a + b)[|a| + j] == y;
    }
  }

  /** A task that joins at either end, or leaves the front, moves no other. */
  lemma EndsOrder(q: seq<nat>, t: nat)
    ensures SameOrder(q, q + [t], {t}) && SameOrder(q, [t] + q, {t}) && SameOrder([t] + q, q, {t})
  {
    forall x, y | x != t && y != t
      ensures Before(q + [t], x, y) <==> Before(q, x, y)
      ensures Before([t] + q, x, y) <==> Before(q, x, y)
    {
      BeforeJoin(q, [t], x, y);
      BeforeJoin([t], q, x, y);
    }
  }

  lemma FrontOrder(q: seq<nat>)
    requires q != []
    ensures SameOrder(q, q[1..], {q[0]}) && SameOrder(q, q[1..] + [q[0]], {q[0]})
  {
    EndsOrder(q[1..], q[0]);
    assert q == [q[0]] + q[1..];
    SameOrderAcross(q, q[1..], {q[0]}, q[1..] + [q[0]], {q[0]});
  }

  lemma {:induction false} WithoutOrder(q: seq<nat>, t: nat)
    ensures SameOrder(q, Without(q, t), {t}) && t !in Without(q, t)
  {
    WithoutIs(q, t);
    if q != [] {
      WithoutOrder(q[1..], t);
      forall x, y | x != t && y != t
        ensures Before(q, x, y) <==> Before(Without(q, t), x, y)
      {
        BeforeJoin([q[0]], q[1..], x, y);
        assert q == [q[0]] + q[1..];
        WithoutIs(q[1..], t);
        BeforeJoin(if q[0] == t then [] else [q[0]], Without(q[1..], t), x, y);
      }
    }
  }

  // ----- order in all queues -----

  /** Tasks keep their queues and their order, but for those in a set. */
  ghost predicate OrderKept(s: Sched, r: Sched, moved: set<nat>) {
    |s.queues| == |r.queues| == LEVELS && forall lv {:trigger s.queues[lv]} {:trigger r.queues[lv]} | 0 <= lv < LEVELS ::
      SameOrder(s.queues[lv], r.queues[lv], moved)
  }

  lemma OrderAcross(s: Sched, r: Sched, a: set<nat>, u: Sched, b: set<nat>)
    requires OrderKept(s, r, a) && OrderKept(r, u, b)
    ensures OrderKept(s, u, a + b)
  {
    hide SameOrder;
    forall lv | 0 <= lv < LEVELS
      ensures SameOrder(s.queues[lv], u.queues[lv], a + b)
    {
      SameOrderAcross(s.queues[lv], r.queues[lv], a, u.queues[lv], b);
    }
  }

  lemma OrderSame(s: Sched, r: Sched, moved: set<nat>)
    requires |s.queues| == LEVELS && r.queues == s.queues
    ensures OrderKept(s, r, moved)
  {
  }

  lemma OneQueue(s: Sched, r: Sched, lv: nat, moved: set<nat>)
    requires |s.queues| == |r.queues| == LEVELS && lv < LEVELS && r.queues == s.queues[lv := r.queues[lv]]
    requires SameOrder(s.queues[lv], r.queues[lv], moved)
    ensures OrderKept(s, r, moved)
  {
    forall i | 0 <= i < LEVELS
      ensures SameOrder(s.queues[i], r.queues[i], moved)
    {
      if i != lv {
        assert r.queues[i] == s.queues[i];
      }
    }
  }

  /** A switch moves the task that was running, and no other; it comes last, or leaves. */
  lemma RotatedOrder(s: Sched, sleep: bool, idle: nat)
    requires ValidSched(s, idle) && (sleep ==> Current(s) != idle)
    ensures OrderKept(s, Rotated(s, sleep), {Current(s)})
    ensures var q := Rotated(s, sleep).queues[s.current]; if sleep then Current(s) !in q else q != [] && q[|q| - 1] == Current(s)
  {
    var q, t := s.queues[s.current], Current(s);
    RotatedTop(s, sleep, idle);
    FrontOrder(q);
    assert Once(q);
    OnceRotated(q);
    hide Rotated, SameOrder, Queued, Once, Without;
    var r := Rotated(s, sleep);
    assert r.queues[s.current] == if sleep then q[1..] else q[1..] + [q[0]];
    OneQueue(s, r, s.current, {t});
  }

  /** A task that is put to sleep leaves its queue and moves no other; only the current one gives up the processor. */
  lemma SleptOrder(s: Sched, t: nat, idle: nat)
    requires ValidSched(s, idle) && t in s.tasks && t != idle
    ensures OrderKept(s, Slept(s, t), {t})
    ensures t != Current(s) ==> Slept(s, t).current == s.current && Levelled(Slept(s, t)) && Current(Slept(s, t)) == Current(s)
  {
    QueuedFacts(s, t);
    SleptValid(s, t, idle);
    if !s.tasks[t].running {
      OrderSame(s, s, {t});
    } else if t == Current(s) {
      SleptSwitches(s, t, idle);
    } else {
      var lv := s.tasks[t].level;
      WithoutOrder(s.queues[lv], t);
      hide SameOrder, Queued, Once, Without;
      OneQueue(s, Slept(s, t), lv, {t});
      FirstStays(s.queues[s.current], t);
    }
  }

  lemma FirstStays(q: seq<nat>, t: nat)
    requires q != [] && q[0] != t
    ensures Without(q, t) != [] && Without(q, t)[0] == q[0]
  {
  }

  lemma SleptSwitches(s: Sched, t: nat, idle: nat)
    requires ValidSched(s, idle) && t in s.tasks && t != idle && s.tasks[t].running && t == Current(s)
    ensures OrderKept(s, Slept(s, t), {t})
  {
    QueuedFacts(s, t);
    RotatedOrder(s, true, idle);
    RotatedTop(s, true, idle);
    hide SameOrder, Queued, Once, OrderKept;
    assert Slept(s, t).queues == Rotated(s, true).queues;
    SameQueuesOrder(s, Rotated(s, true), Slept(s, t), {t});
  }

  lemma SameQueuesOrder(s: Sched, r: Sched, u: Sched, moved: set<nat>)
    requires OrderKept(s, r, moved) && u.queues == r.queues
    ensures OrderKept(s, u, moved)
  {
  }

  /** A task that is woken up or changes its level moves no other and displaces no current one: it comes last in the queue of
      its level, unless it is the current task, which stays that, or has nothing to change. */
  lemma WokenOrder(s: Sched, t: nat, level: int, idle: nat)
    requires ValidSched(s, idle) && t in s.tasks && level < LEVELS
    ensures OrderKept(s, Woken(s, t, level), {t})
    ensures Levelled(Woken(s, t, level)) && Current(Woken(s, t, level)) == Current(s)
    ensures t != Current(s) ==> Woken(s, t, level).current == s.current
    ensures var was, now := s.tasks[t], Woken(s, t, level).tasks[t];
            var q := Woken(s, t, level).queues[now.level];
            t != Current(s) && (!was.running || now.level != was.level) ==> q != [] && q[|q| - 1] == t
    ensures s.tasks[t].running && (level < 0 || level == s.tasks[t].level) ==> Woken(s, t, level) == s
  {
    WokenValid(s, t, level, idle);
    hide SameOrder, Queued, Once;
    if s.tasks[t].running {
      if level >= 0 && level != s.tasks[t].level {
        RelevelledOrder(s, t, level, idle);
      } else {
        OrderSame(s, s, {t});
      }
    } else {
      JoinedOrder(s, t, level, idle);
    }
  }

  lemma JoinedOrder(s: Sched, t: nat, level: int, idle: nat)
    requires ValidSched(s, idle) && t in s.tasks && !s.tasks[t].running && level < LEVELS
    ensures s.tasks[t].level < LEVELS && t != Current(s) && OrderKept(s, Woken(s, t, level), {t})
    ensures var r, lv := Woken(s, t, level), if level < 0 then s.tasks[t].level else level;
      && Levelled(r) && Current(r) == Current(s) && r.current == s.current
      && r.tasks[t].level == lv && r.queues[lv] != [] && r.queues[lv][|r.queues[lv]| - 1] == t
  {
    QueuedFacts(s, t);
    var lv := if level < 0 then s.tasks[t].level else level;
    EndsOrder(s.queues[lv], t);
    CurrentRuns(s, idle);
    hide SameOrder, Queued, Once;
    OneQueue(s, Woken(s, t, level), lv, {t});
  }

  lemma CurrentRuns(s: Sched, idle: nat)
    requires ValidSched(s, idle)
    ensures Current(s) in s.tasks && s.tasks[Current(s)].running && s.tasks[Current(s)].level == s.current
  {
    InOwnQueue(s, Current(s), s.current);
  }

  lemma RelevelledOrder(s: Sched, t: nat, level: nat, idle: nat)
    requires ValidSched(s, idle) && t in s.tasks && s.tasks[t].running && level < LEVELS && level != s.tasks[t].level
    ensures OrderKept(s, Relevelled(s, t, level), {t})
    ensures var r := Relevelled(s, t, level);
      && Levelled(r) && Current(r) == Current(s) && r.queues[level] != []
      && (t != Current(s) ==> r.current == s.current && r.queues[level][|r.queues[level]| - 1] == t)
  {
    RelevelledValid(s, t, level, idle);
    CurrentRuns(s, idle);
    QueuedFacts(s, t);
    var lv, r := s.tasks[t].level, Relevelled(s, t, level);
    var q := s.queues[lv];
    WithoutOrder(q, t);
    EndsOrder(s.queues[level], t);
    if t == Current(s) {
      FrontOrder(q);
    } else {
      FirstStays(s.queues[s.current], t);
    }
    hide SameOrder, Queued, Once, Without;
    var half := s.(queues := s.queues[lv := if t == Current(s) then q[1..] else Without(q, t)]);
    OneQueue(s, half, lv, {t});
    assert half.queues[level] == s.queues[level];
    OneQueue(half, r, level, {t});
    OrderAcross(s, half, {t}, r, {t});
    assert {t} + {t} == {t};
  }

  // ----- every step -----

  /** The tasks that a step moves: the caller, or whoever it wakes up or puts to sleep. */
  ghost function Moved(m: Manager, op: Op): set<nat>
    requires Works(m)
  {
    match op
    case Create => {}
    case Wake(t, _) => {t}
    case Send(t, _) => {t}
    case Suspend(t) => {t}
    case Exit(_) => {Current(m.sched)} + if Current(m.sched) in m.waiter then {m.waiter[Current(m.sched)]} else {}
    case _ => {Current(m.sched)}
  }

  /** The current task gives up the processor: it ends, sleeps, has to wait, or its time is over. */
  ghost predicate Yields(m: Manager, op: Op)
    requires Works(m)
  {
    match op
    case Preempt => true
    case Exit(_) => true
    case Suspend(t) => t == Current(m.sched)
    case Receive => m.sched.tasks[Current(m.sched)].msgs == []
    case Wait(target) => target !in m.finished
    case _ => false
  }

  ghost predicate SameCurrent(s: Sched, r: Sched) {
    Levelled(s) && Levelled(r) && Current(r) == Current(s)
  }

  /** The messages of all tasks but one stay. */
  ghost predicate OthersMail(s: Sched, r: Sched, t: nat) {
    forall u | u in s.tasks && u in r.tasks && u != t :: r.tasks[u].msgs == s.tasks[u].msgs
  }

  ghost predicate SameMail(s: Sched, r: Sched) {
    forall u | u in s.tasks && u in r.tasks :: r.tasks[u].msgs == s.tasks[u].msgs
  }

  lemma Parts(m: Manager, idle: nat)
    requires Valid(m, idle)
    ensures Works(m) && ValidSched(m.sched, idle) && Levelled(m.sched) && |m.sched.queues| == LEVELS
    ensures Current(m.sched) in m.sched.tasks && m.sched.tasks[Current(m.sched)].running
  {
    ValidWorks(m, idle);
    CurrentRuns(m.sched, idle);
  }

  lemma CreateOrder(m: Manager, idle: nat)
    requires Valid(m, idle)
    ensures OrderKept(m.sched, Started(m).sched, {}) && SameCurrent(m.sched, Started(m).sched) && SameMail(m.sched, Started(m).sched)
  {
    Parts(m, idle);
    OrderSame(m.sched, Started(m).sched, {});
    StartedSched(m, idle);
    hide OrderKept, Queued;
  }

  /** A new task has a number of its own and the default level, and sleeps in no queue and without messages until it is woken. */
  lemma StartsAsleep(m: Manager, idle: nat)
    requires Valid(m, idle)
    ensures var id, r := m.latestId + 1, Started(m).sched;
      && id !in m.sched.tasks && id in r.tasks && !r.tasks[id].running && r.tasks[id].level == 1 && r.tasks[id].msgs == []
      && (forall lv | 0 <= lv < LEVELS :: id !in r.queues[lv])
      && forall t | t in m.sched.tasks :: t in r.tasks && r.tasks[t] == m.sched.tasks[t]
  {
    hide Valid;
    IdsOf(m, idle);
    ValidParts(m, idle);
    NotQueued(m.sched, m.latestId + 1);
    hide Queued, Levelled;
  }

  lemma NotQueued(s: Sched, t: nat)
    requires Queued(s) && t !in s.tasks
    ensures |s.queues| == LEVELS && forall lv | 0 <= lv < LEVELS :: t !in s.queues[lv]
  {
  }

  lemma WakeOrder(m: Manager, t: nat, level: int, idle: nat)
    requires Valid(m, idle) && t in m.sched.tasks && level < LEVELS
    ensures Works(m) && OrderKept(m.sched, WokenUp(m, t, level).sched, {t})
    ensures SameCurrent(m.sched, WokenUp(m, t, level).sched) && SameMail(m.sched, WokenUp(m, t, level).sched)
  {
    Parts(m, idle);
    hide OrderKept, Queued, Levelled, Woken, Valid;
    WokenOrder(m.sched, t, level, idle);
    WokenValid(m.sched, t, level, idle);
  }

  lemma SendOrder(m: Manager, t: nat, msg: Message, idle: nat)
    requires Valid(m, idle) && t in m.sched.tasks
    ensures Works(m) && OrderKept(m.sched, Sent(m, t, msg).sched, {t}) && SameCurrent(m.sched, Sent(m, t, msg).sched)
    ensures t in Sent(m, t, msg).sched.tasks && Sent(m, t, msg).sched.tasks[t].msgs == m.sched.tasks[t].msgs + [msg]
    ensures OthersMail(m.sched, Sent(m, t, msg).sched, t)
  {
    hide *;
    Parts(m, idle);
    var s1 := WithMail(m, t, m.sched.tasks[t].msgs + [msg], idle);
    SentIs(m, t, msg, s1);
    WokenOrder(s1, t, -1, idle);
    WokenValid(s1, t, -1, idle);
    OrderAcross(m.sched, s1, {}, Woken(s1, t, -1), {t});
    assert {} + {t} == {t};
    SentMail(m.sched, s1, Woken(s1, t, -1), t, msg);
    CurrentAcross(m.sched, s1, Woken(s1, t, -1));
  }

  lemma CurrentAcross(s: Sched, s1: Sched, r: Sched)
    requires SameCurrent(s, s1) && Levelled(r) && Current(r) == Current(s1)
    ensures SameCurrent(s, r)
  {
  }

  lemma SentIs(m: Manager, t: nat, msg: Message, s1: Sched)
    requires Works(m) && t in m.sched.tasks
    requires s1 == m.sched.(tasks := m.sched.tasks[t := m.sched.tasks[t].(msgs := m.sched.tasks[t].msgs + [msg])])
    requires |s1.queues| == LEVELS && s1.current < LEVELS && s1.queues[s1.current] != [] && s1.tasks[t].level < LEVELS
    ensures Sent(m, t, msg).sched == Woken(s1, t, -1)
  {
    hide Woken;
  }

  lemma SentMail(s: Sched, s1: Sched, r: Sched, t: nat, msg: Message)
    requires t in s.tasks && s1.tasks == s.tasks[t := s.tasks[t].(msgs := s.tasks[t].msgs + [msg])]
    requires r.tasks == s1.tasks[t := s1.tasks[t].(running := true, level := s1.tasks[t].level)]
    ensures t in r.tasks && r.tasks[t].msgs == s.tasks[t].msgs + [msg] && OthersMail(s, r, t)
  {
  }

  /** Other messages for a task: queues and levels are as before. */
  lemma WithMail(m: Manager, t: nat, msgs: seq<Message>, idle: nat) returns (s1: Sched)
    requires Valid(m, idle) && t in m.sched.tasks
    ensures s1 == m.sched.(tasks := m.sched.tasks[t := m.sched.tasks[t].(msgs := msgs)])
    ensures ValidSched(s1, idle) && Levelled(s1) && |s1.queues| == LEVELS && s1.tasks[t].level < LEVELS
    ensures OrderKept(m.sched, s1, {}) && OrderKept(m.sched, s1, {t}) && SameCurrent(m.sched, s1)
  {
    Parts(m, idle);
    s1 := m.sched.(tasks := m.sched.tasks[t := m.sched.tasks[t].(msgs := msgs)]);
    QueuedFacts(m.sched, t);
    hide Queued, OrderKept, Valid;
    NewMessages(m.sched, t, msgs, idle);
    OrderSame(m.sched, s1, {});
    OrderSame(m.sched, s1, {t});
  }

  lemma TakeOrder(m: Manager, idle: nat)
    requires Valid(m, idle) && Works(m) && Current(m.sched) != idle
    ensures var t, r := Current(m.sched), Received(m).sched;
      && t in m.sched.tasks && OrderKept(m.sched, r, {t}) && (m.sched.tasks[t].msgs != [] ==> SameCurrent(m.sched, r))
      && t in r.tasks && OthersMail(m.sched, r, t)
      && m.sched.tasks[t].msgs == (if m.sched.tasks[t].msgs == [] then [] else [m.sched.tasks[t].msgs[0]]) + r.tasks[t].msgs
  {
    hide *;
    Parts(m, idle);
    ReceivedIs(m);
    var t := Current(m.sched);
    if m.sched.tasks[t].msgs == [] {
      SleptOrder(m.sched, t, idle);
      SleptValid(m.sched, t, idle);
      ChangedMail(m.sched, Slept(m.sched, t), t);
    } else {
      var s1 := WithMail(m, t, m.sched.tasks[t].msgs[1..], idle);
      ChangedMail(m.sched, s1, t);
    }
  }

  lemma ReceivedIs(m: Manager)
    requires Works(m)
    ensures var t := Current(m.sched);
            t in m.sched.tasks && t in m.reason && m.sched.tasks[t].level < LEVELS && |m.sched.queues| == LEVELS
            && m.sched.current < LEVELS && m.sched.queues[m.sched.current] != []
            && Received(m).sched == if m.sched.tasks[t].msgs == [] then Slept(m.sched, t)
                                    else m.sched.(tasks := m.sched.tasks[t := m.sched.tasks[t].(msgs := m.sched.tasks[t].msgs[1..])])
    ensures var msgs := m.sched.tasks[Current(m.sched)].msgs; msgs == if msgs == [] then [] + msgs else [msgs[0]] + msgs[1..]
  {
    hide Slept;
  }

  lemma ChangedMail(s: Sched, r: Sched, t: nat)
    requires t in s.tasks && t in r.tasks && r.tasks == s.tasks[t := r.tasks[t]]
    ensures OthersMail(s, r, t) && (r.tasks[t].msgs == s.tasks[t].msgs ==> SameMail(s, r))
  {
  }

  lemma WaitOrder(m: Manager, target: nat, idle: nat)
    requires Valid(m, idle) && Works(m) && Current(m.sched) != idle
    ensures OrderKept(m.sched, Waited(m, target).sched, {Current(m.sched)}) && SameMail(m.sched, Waited(m, target).sched)
    ensures target in m.finished ==> SameCurrent(m.sched, Waited(m, target).sched)
  {
    Parts(m, idle);
    var t := Current(m.sched);
    if target in m.finished {
      OrderSame(m.sched, Waited(m, target).sched, {t});
      hide OrderKept, Queued, Valid;
    } else {
      SleptOrder(m.sched, t, idle);
      SleptValid(m.sched, t, idle);
      hide OrderKept, Queued, Levelled, Slept, Valid;
    }
  }

  lemma ExitOrder(m: Manager, code: int, idle: nat)
    requires Valid(m, idle) && Works(m) && Current(m.sched) != idle && !m.reason[Current(m.sched)].OnFinish?
    ensures Works(Leave(m)) && (Current(m.sched) in m.waiter ==> m.waiter[Current(m.sched)] in Leave(m).sched.tasks)
    ensures OrderKept(m.sched, Exited(m, code).sched, Moved(m, Exit(code))) && SameMail(m.sched, Exited(m, code).sched)
  {
    Parts(m, idle);
    hide *;
    LeaveWorks(m, idle);
    RotatedOrder(m.sched, true, idle);
    LeaveQueues(m);
    ExitedSched(m, code);
    SameQueuesOrder(m.sched, Rotated(m.sched, true), Leave(m).sched, {Current(m.sched)});
    MovedExit(m, code);
    LeftMail(m.sched, Leave(m).sched, Current(m.sched));
    if Current(m.sched) in m.waiter {
      var w := m.waiter[Current(m.sched)];
      WokenOrder(Leave(m).sched, w, -1, idle);
      WokenValid(Leave(m).sched, w, -1, idle);
      WokenMail(m.sched, Leave(m).sched, Woken(Leave(m).sched, w, -1), w);
      OrderAcross(m.sched, Leave(m).sched, {Current(m.sched)}, Woken(Leave(m).sched, w, -1), {w});
    }
  }

  lemma MovedExit(m: Manager, code: int)
    requires Works(m)
    ensures Moved(m, Exit(code)) == {Current(m.sched)} + if Current(m.sched) in m.waiter then {m.waiter[Current(m.sched)]} else {}
    ensures {Current(m.sched)} + {} == {Current(m.sched)}
  {
  }

  lemma LeaveQueues(m: Manager)
    requires |m.sched.queues| == LEVELS && m.sched.current < LEVELS && m.sched.queues[m.sched.current] != []
    ensures Leave(m).sched.queues == Rotated(m.sched, true).queues
  {
    hide Rotated;
  }

  lemma LeftMail(s: Sched, r: Sched, t: nat)
    requires r.tasks == s.tasks - {t}
    ensures SameMail(s, r)
  {
  }

  lemma WokenMail(s: Sched, r: Sched, u: Sched, w: nat)
    requires SameMail(s, r) && w in r.tasks && r.tasks.Keys <= s.tasks.Keys
    requires exists level :: u.tasks == r.tasks[w := r.tasks[w].(running := true, level := level)]
    ensures SameMail(s, u)
  {
  }

  lemma PreemptOrder(m: Manager, idle: nat)
    requires Valid(m, idle)
    ensures Works(m) && OrderKept(m.sched, Switch(m).sched, {Current(m.sched)}) && SameMail(m.sched, Switch(m).sched)
  {
    Parts(m, idle);
    hide OrderKept, Queued, Levelled, Rotated, Valid;
    RotatedOrder(m.sched, false, idle);
    RotatedTop(m.sched, false, idle);
  }

  lemma SuspendOrder(m: Manager, t: nat, idle: nat)
    requires Valid(m, idle) && t in m.sched.tasks && t != idle
    ensures Works(m) && OrderKept(m.sched, Suspended(m, t).sched, {t}) && SameMail(m.sched, Suspended(m, t).sched)
    ensures t != Current(m.sched) ==> SameCurrent(m.sched, Suspended(m, t).sched)
  {
    hide *;
    Parts(m, idle);
    SuspendedIs(m, t);
    if m.sched.tasks[t].running {
      SleptOrder(m.sched, t, idle);
      SleptValid(m.sched, t, idle);
      ChangedMail(m.sched, Slept(m.sched, t), t);
      NowCurrent(m.sched, Slept(m.sched, t));
    } else {
      OrderSame(m.sched, m.sched, {t});
      ChangedMail(m.sched, m.sched, t);
      NowCurrent(m.sched, m.sched);
    }
  }

  lemma NowCurrent(s: Sched, r: Sched)
    requires Levelled(s)
    ensures Levelled(r) && Current(r) == Current(s) ==> SameCurrent(s, r)
  {
  }

  lemma SuspendedIs(m: Manager, t: nat)
    requires Works(m) && t in m.sched.tasks
    ensures m.sched.tasks[t].level < LEVELS && |m.sched.queues| == LEVELS
    ensures m.sched.current < LEVELS && m.sched.queues[m.sched.current] != []
    ensures Suspended(m, t).sched == if m.sched.tasks[t].running then Slept(m.sched, t) else m.sched
    ensures m.sched.tasks[t := m.sched.tasks[t]] == m.sched.tasks
  {
    hide Slept;
  }

  /** A step moves no task but those it is about, and takes the processor from the current one only if that gives it up. */
  lemma StepOrder(m: Manager, op: Op, idle: nat)
    requires Valid(m, idle) && Allowed(m, op, idle)
    ensures Works(m) && OrderKept(m.sched, Step(m, op, idle).sched, Moved(m, op))
    ensures !Yields(m, op) ==> SameCurrent(m.sched, Step(m, op, idle).sched)
  {
    hide Valid, Started, WokenUp, Sent, Received, Waited, Exited, Switch, Leave, Suspended, OrderKept, Levelled, MayWait;
    Parts(m, idle);
    match op
    case Create => CreateOrder(m, idle);
    case Wake(t, level) => WakeOrder(m, t, level, idle);
    case Send(t, msg) => if t in m.sched.tasks { SendOrder(m, t, msg, idle); } else { OrderSame(m.sched, m.sched, {t}); }
    case Receive => TakeOrder(m, idle);
    case Wait(target) => WaitOrder(m, target, idle);
    case Exit(code) => ExitOrder(m, code, idle);
    case Preempt => PreemptOrder(m, idle);
    case Suspend(t) => if t in m.sched.tasks { SuspendOrder(m, t, idle); } else { OrderSame(m.sched, m.sched, {t}); }
  }

  // ----- messages -----

  /** What a step gives to task t, and what task t takes in it. */
  ghost function Given(op: Op, t: nat): seq<Message> { if op.Send? && op.t == t then [op.msg] else [] }

  ghost function Taken(m: Manager, op: Op, t: nat): seq<Message>
    requires Works(m)
  {
    if op.Receive? && Current(m.sched) == t && m.sched.tasks[t].msgs != [] then [m.sched.tasks[t].msgs[0]] else []
  }

  lemma StepMail(m: Manager, op: Op, t: nat, idle: nat)
    requires Valid(m, idle) && Allowed(m, op, idle) && t in m.sched.tasks && t in Step(m, op, idle).sched.tasks
    ensures Works(m) && m.sched.tasks[t].msgs + Given(op, t) == Taken(m, op, t) + Step(m, op, idle).sched.tasks[t].msgs
  {
    hide Valid, Started, WokenUp, Sent, Received, Waited, Exited, Switch, Leave, Suspended, OrderKept, Levelled, MayWait, SameCurrent;
    Parts(m, idle);
    match op
    case Create => CreateOrder(m, idle);
    case Wake(u, level) => WakeOrder(m, u, level, idle);
    case Send(u, msg) => if u in m.sched.tasks { SendOrder(m, u, msg, idle); }
    case Receive => TakeOrder(m, idle);
    case Wait(target) => WaitOrder(m, target, idle);
    case Exit(code) => ExitOrder(m, code, idle);
    case Preempt => PreemptOrder(m, idle);
    case Suspend(u) => if u in m.sched.tasks { SuspendOrder(m, u, idle); }
  }

  // ----- every run -----

  ghost function RunGiven(ops: seq<Op>, t: nat): seq<Message> {
    if ops == [] then [] else Given(ops[0], t) + RunGiven(ops[1..], t)
  }

  ghost function RunTaken(m: Manager, ops: seq<Op>, t: nat, idle: nat): seq<Message>
    requires Valid(m, idle)
    decreases |ops|
  {
    if ops == [] || !Allowed(m, ops[0], idle) then []
    else
      StepValid(m, ops[0], idle);
      Taken(m, ops[0], t) + RunTaken(Step(m, ops[0], idle), ops[1..], t, idle)
  }

  ghost function RunMoved(m: Manager, ops: seq<Op>, idle: nat): set<nat>
    requires Valid(m, idle)
    decreases |ops|
  {
    if ops == [] || !Allowed(m, ops[0], idle) then {}
    else
      StepValid(m, ops[0], idle);
      Moved(m, ops[0]) + RunMoved(Step(m, ops[0], idle), ops[1..], idle)
  }

  /** In every run, whoever is not moved itself keeps its place among all that are not. */
  lemma {:induction false} RunOrder(m: Manager, ops: seq<Op>, m': Manager, idle: nat)
    requires Valid(m, idle) && Run(m, ops, m', idle)
    ensures OrderKept(m.sched, m'.sched, RunMoved(m, ops, idle))
    decreases |ops|
  {
    hide Valid, Step, Allowed, OrderKept, Moved;
    if ops == [] {
      Parts(m, idle);
      OrderSame(m.sched, m'.sched, {});
    } else {
      StepValid(m, ops[0], idle);
      StepOrder(m, ops[0], idle);
      var m1 := Step(m, ops[0], idle);
      RunOrder(m1, ops[1..], m', idle);
      OrderAcross(m.sched, m1.sched, Moved(m, ops[0]), m'.sched, RunMoved(m1, ops[1..], idle));
    }
  }

  /** Numbers of tasks are not used again. */
  lemma StepIds(m: Manager, op: Op, idle: nat)
    requires Valid(m, idle) && Allowed(m, op, idle)
    ensures m.latestId <= Step(m, op, idle).latestId
    ensures forall u | u in Step(m, op, idle).sched.tasks :: u in m.sched.tasks || m.latestId < u
  {
    hide Valid, Started, WokenUp, Sent, Received, Waited, Exited, Switch, Leave, Suspended, OrderKept, Levelled, MayWait;
    Parts(m, idle);
    match op
    case Create => StartedIds(m);
    case Wake(u, level) => WokenUpIds(m, u, level, idle);
    case Send(u, msg) => if u in m.sched.tasks { SentIds(m, u, msg, idle); }
    case Receive => ReceivedIds(m, idle);
    case Wait(target) => WaitedIds(m, target, idle);
    case Exit(code) => ExitedIds(m, code, idle);
    case Preempt => SwitchIds(m, idle);
    case Suspend(u) => if u in m.sched.tasks { SuspendedIds(m, u, idle); }
  }

  lemma StartedIds(m: Manager)
    ensures Started(m).latestId == m.latestId + 1 && Started(m).sched.tasks.Keys == m.sched.tasks.Keys + {m.latestId + 1}
  {
  }

  lemma WokenUpIds(m: Manager, t: nat, level: int, idle: nat)
    requires Valid(m, idle) && t in m.sched.tasks && level < LEVELS
    ensures Works(m) && WokenUp(m, t, level).latestId == m.latestId && WokenUp(m, t, level).sched.tasks.Keys == m.sched.tasks.Keys
  {
    Parts(m, idle);
    hide Valid, ValidSched, Levelled, Woken;
    WokenValid(m.sched, t, level, idle);
  }

  lemma SentIds(m: Manager, t: nat, msg: Message, idle: nat)
    requires Valid(m, idle) && t in m.sched.tasks
    ensures Works(m) && Sent(m, t, msg).latestId == m.latestId && Sent(m, t, msg).sched.tasks.Keys == m.sched.tasks.Keys
  {
    Parts(m, idle);
    hide Valid, ValidSched, Levelled, Woken, OrderKept;
    var s1 := WithMail(m, t, m.sched.tasks[t].msgs + [msg], idle);
    WokenValid(s1, t, -1, idle);
  }

  lemma ReceivedIds(m: Manager, idle: nat)
    requires Valid(m, idle) && Works(m) && Current(m.sched) != idle
    ensures Received(m).latestId == m.latestId && Received(m).sched.tasks.Keys == m.sched.tasks.Keys
  {
    Parts(m, idle);
    hide Valid, ValidSched, Levelled, Slept;
    if m.sched.tasks[Current(m.sched)].msgs == [] {
      SleptValid(m.sched, Current(m.sched), idle);
    }
  }

  lemma WaitedIds(m: Manager, target: nat, idle: nat)
    requires Valid(m, idle) && Works(m) && Current(m.sched) != idle
    ensures Waited(m, target).latestId == m.latestId && Waited(m, target).sched.tasks.Keys == m.sched.tasks.Keys
  {
    Parts(m, idle);
    hide Valid, ValidSched, Levelled, Slept;
    if target !in m.finished {
      SleptValid(m.sched, Current(m.sched), idle);
    }
  }

  lemma ExitedIds(m: Manager, code: int, idle: nat)
    requires Valid(m, idle) && Works(m) && Current(m.sched) != idle && !m.reason[Current(m.sched)].OnFinish?
    ensures Works(Leave(m)) && (Current(m.sched) in m.waiter ==> m.waiter[Current(m.sched)] in Leave(m).sched.tasks)
    ensures Exited(m, code).latestId == m.latestId && Exited(m, code).sched.tasks.Keys <= m.sched.tasks.Keys
  {
    Parts(m, idle);
    hide *;
    LeaveWorks(m, idle);
    ExitedRest(m, code);
    ExitedSched(m, code);
    if Current(m.sched) in m.waiter {
      WokenValid(Leave(m).sched, m.waiter[Current(m.sched)], -1, idle);
    }
  }

  lemma SwitchIds(m: Manager, idle: nat)
    requires Valid(m, idle)
    ensures Works(m) && Switch(m).latestId == m.latestId && Switch(m).sched.tasks == m.sched.tasks
  {
    Parts(m, idle);
    hide Valid, ValidSched, Levelled, Rotated;
    RotatedTop(m.sched, false, idle);
  }

  lemma SuspendedIds(m: Manager, t: nat, idle: nat)
    requires Valid(m, idle) && t in m.sched.tasks && t != idle
    ensures Works(m) && Suspended(m, t).latestId == m.latestId && Suspended(m, t).sched.tasks.Keys == m.sched.tasks.Keys
  {
    Parts(m, idle);
    hide Valid, ValidSched, Levelled, Slept;
    SleptValid(m.sched, t, idle);
  }

  lemma {:induction false} StaysGone(m: Manager, ops: seq<Op>, m': Manager, t: nat, idle: nat)
    requires Valid(m, idle) && Run(m, ops, m', idle) && t !in m.sched.tasks && t <= m.latestId
    ensures t !in m'.sched.tasks
    decreases |ops|
  {
    hide Valid, Step, Allowed;
    if ops != [] {
      StepValid(m, ops[0], idle);
      StepIds(m, ops[0], idle);
      StaysGone(Step(m, ops[0], idle), ops[1..], m', t, idle);
    }
  }

  /** Messages arrive in the order in which they were sent, each once: over any run, what a task had and was sent is what it
      took, followed by what it still has. */
  lemma {:induction false} RunMail(m: Manager, ops: seq<Op>, m': Manager, t: nat, idle: nat)
    requires Valid(m, idle) && Run(m, ops, m', idle) && t in m.sched.tasks && t in m'.sched.tasks
    ensures m.sched.tasks[t].msgs + RunGiven(ops, t) == RunTaken(m, ops, t, idle) + m'.sched.tasks[t].msgs
    decreases |ops|
  {
    IdsOf(m, idle);
    hide Valid, Step, Allowed, Given, Taken, Ids;
    if ops != [] {
      StepValid(m, ops[0], idle);
      StepIds(m, ops[0], idle);
      var m1 := Step(m, ops[0], idle);
      if t !in m1.sched.tasks {
        StaysGone(m1, ops[1..], m', t, idle);
        assert false;
      }
      StepMail(m, ops[0], t, idle);
      RunMail(m1, ops[1..], m', t, idle);
      Regroup(m.sched.tasks[t].msgs, Given(ops[0], t), RunGiven(ops[1..], t), Taken(m, ops[0], t), m1.sched.tasks[t].msgs,
              RunTaken(m1, ops[1..], t, idle), m'.sched.tasks[t].msgs);
    }
  }

  lemma IdsOf(m: Manager, idle: nat)
    requires Valid(m, idle)
    ensures forall t | t in m.sched.tasks :: t <= m.latestId
  {
    hide ValidSched;
  }

  lemma Regroup(a: seq<Message>, g: seq<Message>, gs: seq<Message>, t: seq<Message>, b: seq<Message>, ts: seq<Message>, c: seq<Message>)
    requires a + g == t + b && b + gs == ts + c
    ensures a + (g + gs) == (t + ts) + c
  {
    assert a + (g + gs) == (a + g) + gs;
    assert (t + b) + gs == t + (b + gs);
    assert t + (ts + c) == (t + ts) + c;
  }
}
