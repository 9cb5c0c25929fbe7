/** The run queues of the task manager: one queue per level, and what sleeping, waking, changing levels and switching
    tasks do to them. */
module Scheduler {
  const MAX_LEVEL: nat := 3
  const LEVELS: nat := 4
  const DEFAULT_LEVEL: nat := 1

  datatype Message = Message(kind: nat, args: seq<int>)

  datatype Task = Task(level: nat, running: bool, msgs: seq<Message>)

  /** Tasks by id, the run queues by level, the level of the current task, and whether a higher level may have work. */
  datatype Sched = Sched(tasks: map<nat, Task>, queues: seq<seq<nat>>, current: nat, changed: bool)

  // ----- queues -----

  function Without(q: seq<nat>, x: nat): seq<nat> {
    if q == [] then [] else (if q[0] == x then [] else [q[0]]) + Without(q[1..], x)
  }

  lemma {:induction false} WithoutIs(q: seq<nat>, x: nat)
    ensures forall y: nat :: y in Without(q, x) <==> y in q && y != x
  {
    if q != [] {
      WithoutIs(q[1..], x);
      assert q == [q[0]] + q[1..];
    }
  }

  ghost predicate Once(q: seq<nat>) {
    forall i, j | 0 <= i < |q| && 0 <= j < |q| && q[i] == q[j] :: i == j
  }

  lemma {:induction false} WithoutOnce(q: seq<nat>, x: nat)
    requires Once(q)
    ensures Once(Without(q, x))
  {
    if q != [] {
      var rest := q[1..];
      forall i, j | 0 <= i < |rest| && 0 <= j < |rest| && rest[i] == rest[j] ensures i == j {
        assert q[i + 1] == q[j + 1];
      }
      WithoutOnce(rest, x);
      WithoutIs(rest, x);
      if q[0] != x {
        assert forall k :: 0 <= k < |rest| ==> rest[k] == q[k + 1];
        OnceAdd([q[0]], Without(rest, x));
      }
    }
  }

  lemma OnceAdd(a: seq<nat>, b: seq<nat>)
    requires Once(a) && Once(b) && forall x: nat :: !(x in a && x in b)
    ensures Once(a + b)
  {
    forall i, j | 0 <= i < |a + b| && 0 <= j < |a + b| && (a + b)[i] == (a + b)[j] ensures i == j {
      assert (a + b)[i] in a || (a + b)[i] in b;
      assert i < |a| ==> (a + b)[i] in a;
      assert j < |a| ==> (a + b)[j] in a;
      assert i >= |a| ==> (a + b)[i] == b[i - |a|] && b[i - |a|] in b;
      assert j >= |a| ==> (a + b)[j] == b[j - |a|] && b[j - |a|] in b;
    }
  }

  /** The highest level below end whose queue is not empty; without one, the level stays what it was. */
  function Highest(queues: seq<seq<nat>>, end: nat, current: nat): nat
    requires end <= |queues|
  {
    if end == 0 then current else if queues[end - 1] != [] then end - 1 else Highest(queues, end - 1, current)
  }

  lemma {:induction false} HighestIs(queues: seq<seq<nat>>, end: nat, current: nat)
    requires end <= |queues| && exists k :: 0 <= k < end && queues[k] != []
    ensures Highest(queues, end, current) < end && queues[Highest(queues, end, current)] != []
    ensures forall k :: Highest(queues, end, current) < k < end ==> queues[k] == []
  {
    if queues[end - 1] == [] {
      var k :| 0 <= k < end && queues[k] != [];
      assert 0 <= k < end - 1;
      HighestIs(queues, end - 1, current);
    }
  }

  // ----- the invariant -----

  /** Every running task is in exactly the queue of its level, once; a task that sleeps is in none. */
  ghost predicate Queued(s: Sched) {
    && |s.queues| == LEVELS
    && (forall lv, t | 0 <= lv < LEVELS && t in s.queues[lv] :: t in s.tasks && s.tasks[t].running && s.tasks[t].level == lv)
    && (forall t | t in s.tasks :: s.tasks[t].level < LEVELS && (s.tasks[t].running ==> t in s.queues[s.tasks[t].level]))
    && (forall lv | 0 <= lv < LEVELS :: Once(s.queues[lv]))
  }

  /** The current level has a task, and if any higher level has one, that is known. */
  ghost predicate Levelled(s: Sched) {
    && |s.queues| == LEVELS && s.current < LEVELS && s.queues[s.current] != []
    && (forall lv | s.current < lv < LEVELS && s.queues[lv] != [] :: s.changed)
  }

  ghost predicate ValidSched(s: Sched, idle: nat) {
    Queued(s) && Levelled(s) && idle in s.tasks && s.tasks[idle].running
  }

  function Current(s: Sched): nat
    requires s.current < |s.queues| && s.queues[s.current] != []
  {
    s.queues[s.current][0]
  }

  // ----- switching -----

  /** The choice of the next level. */
  function Choose(s: Sched): Sched
    requires |s.queues| == LEVELS && s.current < LEVELS
  {
    if s.changed || s.queues[s.current] == [] then s.(current := Highest(s.queues, LEVELS, s.current), changed := false) else s
  }

  /** The current task leaves the front of its queue, for its end or altogether, and the next one is chosen. */
  function Rotated(s: Sched, sleep: bool): Sched
    requires |s.queues| == LEVELS && s.current < LEVELS && s.queues[s.current] != []
  {
    var q := s.queues[s.current];
    Choose(s.(queues := s.queues[s.current := q[1..] + (if sleep then [] else [q[0]])]))
  }

  /** Whatever the queues were, the chosen level is the highest with work. */
  lemma ChooseTop(s: Sched)
    requires |s.queues| == LEVELS && s.current < LEVELS
    requires exists lv :: 0 <= lv < LEVELS && s.queues[lv] != []
    requires forall lv | s.current < lv < LEVELS && s.queues[lv] != [] :: s.changed
    ensures Choose(s).queues == s.queues && Choose(s).tasks == s.tasks && Choose(s).current < LEVELS
    ensures s.queues[Choose(s).current] != [] && forall lv :: Choose(s).current < lv < LEVELS ==> s.queues[lv] == []
  {
    HighestIs(s.queues, LEVELS, s.current);
  }

  /** After a switch the current task is the first of the highest level that has one. */
  lemma RotatedTop(s: Sched, sleep: bool, idle: nat)
    requires ValidSched(s, idle) && (sleep ==> Current(s) != idle)
    ensures var r := Rotated(s, sleep);
            && r.current < LEVELS && |r.queues| == LEVELS && r.queues[r.current] != []
            && (forall lv :: r.current < lv < LEVELS ==> r.queues[lv] == [])
            && r.tasks == s.tasks
            && r.queues == s.queues[s.current := s.queues[s.current][1..] + if sleep then [] else [Current(s)]]
  {
    var q := s.queues[s.current];
    var moved := s.(queues := s.queues[s.current := q[1..] + (if sleep then [] else [q[0]])]);
    var lv := s.tasks[idle].level;
    assert idle in s.queues[lv];
    assert moved.queues[lv] != [] by {
      if lv == s.current && sleep {
        assert idle in q && idle != q[0];
        assert q == [q[0]] + q[1..];
        assert idle in q[1..];
      }
    }
    ChooseTop(moved);
  }

  /** Rotating a queue of distinct tasks keeps them distinct. */
  lemma OnceRotated(q: seq<nat>)
    requires q != [] && Once(q)
    ensures Once(q[1..]) && Once(q[1..] + [q[0]]) && q[0] !in q[1..]
    ensures forall t: nat :: t in q[1..] + [q[0]] <==> t in q
  {
    var rest := q[1..];
    assert q == [q[0]] + rest;
    forall i, j | 0 <= i < |rest| && 0 <= j < |rest| && rest[i] == rest[j] ensures i == j {
      assert q[i + 1] == q[j + 1];
    }
    assert forall k :: 0 <= k < |rest| ==> rest[k] == q[k + 1];
    OnceAdd(rest, [q[0]]);
  }

  // ----- sleeping, waking, levels -----

  /** Task t sleeps: the current one gives up the processor, any other only leaves its queue. */
  function Slept(s: Sched, t: nat): Sched
    requires t in s.tasks && |s.queues| == LEVELS && s.current < LEVELS && s.queues[s.current] != [] && s.tasks[t].level < LEVELS
  {
    if !s.tasks[t].running then s
    else
      var s1 := s.(tasks := s.tasks[t := s.tasks[t].(running := false)]);
      if t == Current(s) then Rotated(s1, true)
      else s1.(queues := s.queues[s.tasks[t].level := Without(s.queues[s.tasks[t].level], t)])
  }

  /** A running task changes its level: the current one stays current, any other goes to the end of its new queue. */
  function Relevelled(s: Sched, t: nat, level: int): Sched
    requires t in s.tasks && |s.queues| == LEVELS && s.current < LEVELS && s.queues[s.current] != [] && s.tasks[t].level < LEVELS
    requires level < LEVELS
  {
    if level < 0 || level == s.tasks[t].level then s
    else
      var tasks := s.tasks[t := s.tasks[t].(level := level)];
      if t != Current(s) then
        var queues := s.queues[s.tasks[t].level := Without(s.queues[s.tasks[t].level], t)];
        Sched(tasks, queues[level := queues[level] + [t]], s.current, s.changed || level > s.current)
      else
        var queues := s.queues[s.current := s.queues[s.current][1..]];
        Sched(tasks, queues[level := [t] + queues[level]], level, s.changed || level < s.current)
  }

  /** Task t wakes up at a level, or at its own if that is negative. */
  function Woken(s: Sched, t: nat, level: int): Sched
    requires t in s.tasks && |s.queues| == LEVELS && s.current < LEVELS && s.queues[s.current] != [] && s.tasks[t].level < LEVELS
    requires level < LEVELS
  {
    if s.tasks[t].running then Relevelled(s, t, level)
    else
      var lv := if level < 0 then s.tasks[t].level else level;
      Sched(s.tasks[t := s.tasks[t].(level := lv, running := true)], s.queues[lv := s.queues[lv] + [t]], s.current,
            s.changed || lv > s.current)
  }

  // ----- what keeps the queues in order -----

  /** A task leaves its queue and sleeps. */
  lemma Leaves(s: Sched, t: nat, q: seq<nat>)
    requires Queued(s) && t in s.tasks && s.tasks[t].running && Once(q)
    requires forall x: nat :: x in q <==> x in s.queues[s.tasks[t].level] && x != t
    ensures Queued(s.(tasks := s.tasks[t := s.tasks[t].(running := false)], queues := s.queues[s.tasks[t].level := q]))
  {
  }

  /** A sleeping task joins a queue and runs. */
  lemma Joins(s: Sched, t: nat, lv: nat, q: seq<nat>)
    requires Queued(s) && t in s.tasks && !s.tasks[t].running && lv < LEVELS && Once(q)
    requires forall x: nat :: x in q <==> x in s.queues[lv] || x == t
    ensures Queued(s.(tasks := s.tasks[t := s.tasks[t].(level := lv, running := true)], queues := s.queues[lv := q]))
  {
  }

  /** The tasks of one queue change places. */
  lemma Reorders(s: Sched, lv: nat, q: seq<nat>)
    requires Queued(s) && lv < LEVELS && Once(q) && forall x: nat :: x in q <==> x in s.queues[lv]
    ensures Queued(s.(queues := s.queues[lv := q]))
  {
  }

  lemma InOwnQueue(s: Sched, t: nat, lv: nat)
    requires Queued(s) && lv < LEVELS && t in s.queues[lv]
    ensures t in s.tasks && s.tasks[t].running && s.tasks[t].level == lv
  {
  }

  lemma QueuedFacts(s: Sched, t: nat)
    requires Queued(s) && t in s.tasks
    ensures |s.queues| == LEVELS && s.tasks[t].level < LEVELS && Once(s.queues[s.tasks[t].level])
    ensures s.tasks[t].running <==> t in s.queues[s.tasks[t].level]
  {
  }

  lemma SameQueues(s: Sched, r: Sched)
    requires Queued(s) && r.tasks == s.tasks && r.queues == s.queues
    ensures Queued(r)
  {
  }

  lemma RotatedValid(s: Sched, idle: nat)
    requires ValidSched(s, idle)
    ensures ValidSched(Rotated(s, false), idle)
  {
    var q := s.queues[s.current];
    RotatedTop(s, false, idle);
    InOwnQueue(s, Current(s), s.current);
    QueuedFacts(s, Current(s));
    hide Queued, Once;
    OnceRotated(q);
    Reorders(s, s.current, q[1..] + [q[0]]);
    SameQueues(s.(queues := s.queues[s.current := q[1..] + [q[0]]]), Rotated(s, false));
  }

  lemma SleptCurrent(s: Sched, idle: nat)
    requires ValidSched(s, idle) && Current(s) != idle
    ensures ValidSched(Rotated(s, true).(tasks := s.tasks[Current(s) := s.tasks[Current(s)].(running := false)]), idle)
  {
    var q, t := s.queues[s.current], Current(s);
    RotatedTop(s, true, idle);
    InOwnQueue(s, t, s.current);
    QueuedFacts(s, t);
    assert idle in s.tasks && s.tasks[idle].running;
    var r := Rotated(s, true).(tasks := s.tasks[t := s.tasks[t].(running := false)]);
    hide Queued, Once, Rotated;
    OnceRotated(q);
    HeadGone(q);
    Leaves(s, t, q[1..]);
    SameQueues(s.(tasks := r.tasks, queues := s.queues[s.current := q[1..]]), r);
  }

  lemma HeadGone(q: seq<nat>)
    requires q != []
    ensures q == [q[0]] + q[1..] && q[1..] + [] == q[1..]
  {
  }

  lemma SleptValid(s: Sched, t: nat, idle: nat)
    requires ValidSched(s, idle) && t in s.tasks && t != idle
    ensures ValidSched(Slept(s, t), idle)
    ensures Slept(s, t).tasks == s.tasks[t := s.tasks[t].(running := false)]
  {
    QueuedFacts(s, t);
    if !s.tasks[t].running {
      assert s.tasks[t := s.tasks[t].(running := false)] == s.tasks;
    } else if t == Current(s) {
      InOwnQueue(s, t, s.current);
      RotatedTop(s, true, idle);
      SleptCurrent(s, idle);
      hide Queued;
      assert Slept(s, t) == Rotated(s, true).(tasks := s.tasks[t := s.tasks[t].(running := false)]);
    } else {
      var q := s.queues[s.tasks[t].level];
      hide Queued, Once;
      WithoutIs(q, t);
      WithoutOnce(q, t);
      Leaves(s, t, Without(q, t));
      assert s.tasks[t].level == s.current ==> Current(s) in Without(q, t);
    }
  }

  /** A running task moves to another queue. */
  lemma Moves(s: Sched, t: nat, q: seq<nat>, level: nat, q': seq<nat>)
    requires Queued(s) && t in s.tasks && s.tasks[t].running && level < LEVELS && level != s.tasks[t].level
    requires Once(q) && forall x: nat :: x in q <==> x in s.queues[s.tasks[t].level] && x != t
    requires Once(q') && forall x: nat :: x in q' <==> x in s.queues[level] || x == t
    ensures Queued(s.(tasks := s.tasks[t := s.tasks[t].(level := level)],
                      queues := s.queues[s.tasks[t].level := q][level := q']))
  {
    QueuedFacts(s, t);
    hide Once;
    Leaves(s, t, q);
    var s1 := s.(tasks := s.tasks[t := s.tasks[t].(running := false)], queues := s.queues[s.tasks[t].level := q]);
    hide Queued;
    assert s1.queues[level] == s.queues[level];
    Joins(s1, t, level, q');
    assert s1.tasks[t := s1.tasks[t].(level := level, running := true)] == s.tasks[t := s.tasks[t].(level := level)];
  }

  lemma OnceAppended(q: seq<nat>, t: nat)
    requires Once(q) && t !in q
    ensures Once(q + [t]) && Once([t] + q)
    ensures forall x: nat :: (x in q + [t] <==> x in q || x == t) && (x in [t] + q <==> x in q || x == t)
  {
    OnceAdd(q, [t]);
    OnceAdd([t], q);
  }

  lemma RelevelledQueued(s: Sched, t: nat, level: nat)
    requires Queued(s) && t in s.tasks && s.tasks[t].running && level < LEVELS && level != s.tasks[t].level
    requires s.current < LEVELS && s.queues[s.current] != [] && t != Current(s)
    ensures Queued(Relevelled(s, t, level))
  {
    var lv := s.tasks[t].level;
    var q, q' := Without(s.queues[lv], t), s.queues[level] + [t];
    QueuedFacts(s, t);
    NotIn(s, t, level);
    hide Queued, Once, Without;
    WithoutIs(s.queues[lv], t);
    WithoutOnce(s.queues[lv], t);
    OnceAppended(s.queues[level], t);
    Moves(s, t, q, level, q');
    var r := Relevelled(s, t, level);
    SameQueues(s.(tasks := r.tasks, queues := s.queues[lv := q][level := q']), r);
  }

  lemma RelevelledOther(s: Sched, t: nat, level: nat, idle: nat)
    requires ValidSched(s, idle) && t in s.tasks && s.tasks[t].running && level < LEVELS && level != s.tasks[t].level
    requires t != Current(s)
    ensures ValidSched(Relevelled(s, t, level), idle)
  {
    QueuedFacts(s, t);
    RelevelledQueued(s, t, level);
    hide Queued, Once, Without;
    var lv := s.tasks[t].level;
    var r := Relevelled(s, t, level);
    assert r.current == s.current && r.changed == (s.changed || level > s.current);
    assert r.queues == s.queues[lv := Without(s.queues[lv], t)][level := s.queues[level] + [t]];
    assert idle in r.tasks && r.tasks[idle].running;
    hide Relevelled;
    WithoutIs(s.queues[lv], t);
    MovedLevelled(s, r, t, lv, Without(s.queues[lv], t), level);
  }

  lemma MovedLevelled(s: Sched, r: Sched, t: nat, lv: nat, q: seq<nat>, level: nat)
    requires Levelled(s) && lv < LEVELS && level < LEVELS && r.current == s.current && r.changed == (s.changed || level > s.current)
    requires r.queues == s.queues[lv := q][level := s.queues[level] + [t]] && t != Current(s)
    requires forall x :: x in q <==> x in s.queues[lv] && x != t
    ensures Levelled(r)
  {
    assert lv == s.current ==> Current(s) in q;
    assert q != [] ==> q[0] in s.queues[lv];
  }

  lemma NotIn(s: Sched, t: nat, level: nat)
    requires Queued(s) && t in s.tasks && level < LEVELS && (level != s.tasks[t].level || !s.tasks[t].running)
    ensures t !in s.queues[level] && Once(s.queues[level])
  {
  }

  lemma RelevelledCurrent(s: Sched, level: nat, idle: nat)
    requires ValidSched(s, idle) && level < LEVELS && Current(s) in s.tasks && level != s.tasks[Current(s)].level
    ensures ValidSched(Relevelled(s, Current(s), level), idle)
  {
    var t := Current(s);
    var q, q', r := s.queues[s.current][1..], [t] + s.queues[level], Relevelled(s, t, level);
    InOwnQueue(s, t, s.current);
    QueuedFacts(s, t);
    NotIn(s, t, level);
    assert s.queues[s.current] == [t] + q && Once(s.queues[s.current]);
    hide Queued, Once;
    assert r == Sched(s.tasks[t := s.tasks[t].(level := level)], s.queues[s.current := q][level := q'], level,
                      s.changed || level < s.current);
    assert idle in r.tasks && r.tasks[idle].running;
    hide Relevelled;
    OnceRotated(s.queues[s.current]);
    OnceAppended(s.queues[level], t);
    Moves(s, t, q, level, q');
    SameQueues(s.(tasks := r.tasks, queues := r.queues), r);
    TopLevelled(s, r, q, level, q');
  }

  lemma TopLevelled(s: Sched, r: Sched, q: seq<nat>, level: nat, q': seq<nat>)
    requires Levelled(s) && level < LEVELS && q' != [] && r.current == level && r.changed == (s.changed || level < s.current)
    requires r.queues == s.queues[s.current := q][level := q']
    ensures Levelled(r)
  {
  }

  lemma RelevelledValid(s: Sched, t: nat, level: int, idle: nat)
    requires ValidSched(s, idle) && t in s.tasks && s.tasks[t].running && level < LEVELS
    ensures ValidSched(Relevelled(s, t, level), idle)
    ensures Relevelled(s, t, level).tasks
            == s.tasks[t := s.tasks[t].(level := if level < 0 then s.tasks[t].level else level)]
  {
    if level >= 0 && level != s.tasks[t].level {
      if t != Current(s) {
        RelevelledOther(s, t, level, idle);
      } else {
        RelevelledCurrent(s, level, idle);
      }
    } else {
      assert s.tasks[t := s.tasks[t].(level := s.tasks[t].level)] == s.tasks;
    }
  }

  lemma WokenQueued(s: Sched, t: nat, level: int)
    requires Queued(s) && t in s.tasks && !s.tasks[t].running && level < LEVELS
    requires s.current < LEVELS && s.queues[s.current] != []
    ensures s.tasks[t].level < LEVELS && Queued(Woken(s, t, level))
  {
    QueuedFacts(s, t);
    var lv := if level < 0 then s.tasks[t].level else level;
    NotIn(s, t, lv);
    hide Queued, Once;
    OnceAppended(s.queues[lv], t);
    Joins(s, t, lv, s.queues[lv] + [t]);
    var r := Woken(s, t, level);
    SameQueues(s.(tasks := r.tasks, queues := s.queues[lv := s.queues[lv] + [t]]), r);
  }

  lemma WokenValid(s: Sched, t: nat, level: int, idle: nat)
    requires ValidSched(s, idle) && t in s.tasks && level < LEVELS
    ensures ValidSched(Woken(s, t, level), idle)
    ensures Woken(s, t, level).tasks
            == s.tasks[t := s.tasks[t].(running := true, level := if level < 0 then s.tasks[t].level else level)]
  {
    QueuedFacts(s, t);
    if s.tasks[t].running {
      RelevelledValid(s, t, level, idle);
    } else {
      WokenQueued(s, t, level);
      hide Queued;
    }
  }

  // ----- round robin -----

  /** The current level has a task, and no change of level is pending. */
  ghost predicate Settled(s: Sched) {
    |s.queues| == LEVELS && s.current < LEVELS && s.queues[s.current] != [] && !s.changed
  }

  /** n undisturbed switches. */
  ghost function Switched(s: Sched, n: nat): Sched
    requires Settled(s)
    ensures Settled(Switched(s, n)) && Switched(s, n).current == s.current
  {
    if n == 0 then s else Rotated(Switched(s, n - 1), false)
  }

  /** A place counted round a queue of k tasks. */
  function Place(x: nat, k: nat): (p: nat)
    requires k > 0
    ensures p < k
  {
    x % k
  }

  lemma SwitchStep(s: Sched, n: nat)
    requires Settled(s) && n > 0
    ensures var q := Switched(s, n - 1).queues[s.current];
            q != [] && Switched(s, n).queues == Switched(s, n - 1).queues[s.current := q[1..] + [q[0]]]
  {
  }

  /** The queue of the current level after n switches: each task has moved up n places, round and round. */
  lemma {:induction false} RoundRobin(s: Sched, n: nat, i: nat)
    requires Settled(s)
    requires i < |s.queues[s.current]|
    ensures |Switched(s, n).queues[s.current]| == |s.queues[s.current]|
    ensures Switched(s, n).queues[s.current][i] == s.queues[s.current][Place(i + n, |s.queues[s.current]|)]
  {
    var k := |s.queues[s.current]|;
    if n == 0 {
      Remainder(i, 0, i, k);
    } else {
      hide Switched, Place;
      SwitchStep(s, n);
      if i < k - 1 {
        RoundRobin(s, n - 1, i + 1);
      } else {
        RoundRobin(s, n - 1, 0);
        Wraps(i, n, k);
      }
    }
  }

  lemma Wraps(i: nat, n: nat, k: nat)
    requires k > 0 && i == k - 1 && n > 0
    ensures Place(i + n, k) == Place(n - 1, k)
  {
    var q, r := (n - 1) / k, (n - 1) % k;
    assert (q + 1) * k == q * k + k;
    Remainder(i + n, q + 1, r, k);
  }

  lemma Remainder(x: int, q: int, r: int, k: int)
    requires x == q * k + r && 0 <= r < k
    ensures x % k == r
  {
    var z := x / k - q;
    assert z * k == r - x % k;
    assert z >= 1 ==> z * k >= k;
    assert z <= -1 ==> z * k <= -k;
  }

  lemma PlaceIs(j: nat, k: nat)
    requires j < k
    ensures Place(j, k) == j && Place(j + k, k) == j
  {
    Remainder(j, 0, j, k);
    Remainder(j + k, 1, j, k);
  }

  /** Every task of the current level gets its turn within as many switches as there are tasks at that level. */
  lemma GetsTurn(s: Sched, i: nat)
    requires Settled(s)
    requires i < |s.queues[s.current]|
    ensures Current(Switched(s, i)) == s.queues[s.current][i]
  {
    hide Switched, Place;
    RoundRobin(s, i, 0);
    PlaceIs(i, |s.queues[s.current]|);
  }

  lemma BackInPlace(s: Sched, k: nat, j: nat)
    requires Settled(s)
    requires k == |s.queues[s.current]| && j < k
    ensures |Switched(s, k).queues[s.current]| == k && Switched(s, k).queues[s.current][j] == s.queues[s.current][j]
  {
    hide Switched, Place;
    RoundRobin(s, k, j);
    PlaceIs(j, k);
  }

  /** After as many switches all queues are as they were. */
  lemma FullRound(s: Sched)
    requires Settled(s)
    ensures Switched(s, |s.queues[s.current]|).queues == s.queues
  {
    var q, k := s.queues[s.current], |s.queues[s.current]|;
    hide Switched;
    var r := Switched(s, k);
    OnlyCurrent(s, k);
    forall j: nat | j < k ensures |r.queues[s.current]| == k && r.queues[s.current][j] == q[j] {
      BackInPlace(s, k, j);
    }
    BackInPlace(s, k, 0);
    assert r.queues[s.current] == q;
  }

  lemma {:induction false} OnlyCurrent(s: Sched, n: nat)
    requires Settled(s)
    ensures forall lv | 0 <= lv < LEVELS && lv != s.current :: Switched(s, n).queues[lv] == s.queues[lv]
  {
    if n > 0 {
      OnlyCurrent(s, n - 1);
    }
  }
}
