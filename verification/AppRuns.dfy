/** Whole runs: any interleaving of launches, stores, loads, system calls and exits of any
    number of tasks, against a machine in which every application simply has its own memory. */
module AppRuns {
  import opened PageTree
  import opened Ownership
  import opened PageNumbers
  import opened AppLoader
  import opened ProgramImages
  import opened MappedPages
  import opened Applications
  import opened FatFiles

  /** One thing a task does. */
  datatype Op =
    | Exec(task: int, file: int, segments: seq<Segment>, args: Frame)
    | StoreWord(task: int, page: nat, word: nat, value: Word)
    | FetchWord(task: int, page: nat, word: nat)
    | Demand(task: int, numPages: nat)
    | Map(task: int, fd: int)
    | Quit(task: int)

  /** How it went: all done, with the word that was loaded or the page that the system call returned; not at all; or, when
      memory ran out, halfway: the image is cached but not launched, or the page came in but was not stored to. */
  datatype Outcome = Done | Fetched(word: Word) | Returned(page: nat) | Failed | Halfway

  predicate Went(o: Outcome) { o.Done? || o.Fetched? || o.Returned? }

  ghost predicate Possible(op: Op) {
    match op
    case Exec(_, _, segments, _) => Loadable(segments)
    case StoreWord(_, page, word, _) => UPPER <= page < LIMIT && word < ENTRIES
    case FetchWord(_, page, word) => UPPER <= page < LIMIT && word < ENTRIES
    case Demand(_, _) => true
    case Map(_, _) => true
    case Quit(_) => true
  }

  /** What is mapped can be loaded as the files are. */
  ghost predicate FilesInReach(w: World) { forall t | t in w.areas :: AreasInReach(w.areas[t], w.files) }

  ghost predicate Running(w: World, t: int) { App(t) in w.spaces && t in w.areas }

  /** Application t's memory becomes `space`. */
  ghost function WithSpace(w: World, t: int, space: Space): World { w.(spaces := w.spaces[App(t) := space]) }

  /** What an operation does to the world of private memories. */
  ghost function Step(w: World, op: Op, o: Outcome): World
    requires Possible(op)
  {
    match op
    case Exec(t, file, segments, args) => StepExec(w, t, file, segments, args, o)
    case StoreWord(t, page, word, value) => if Running(w, t) then StepStore(w, t, page, word, value, o) else w
    case FetchWord(t, page, _) =>
      if Running(w, t) && Went(o) then WithSpace(w, t, Touched(w.spaces[App(t)], w.areas[t], w.files, page)) else w
    case Demand(t, n) =>
      if Running(w, t) && Went(o) then w.(areas := w.areas[t := Extended(w.areas[t], n)]) else w
    case Map(t, fd) => if Running(w, t) && Went(o) && CanMap(w, t, fd) then Mapped(w, t, fd) else w
    case Quit(t) => if o.Done? then w.(spaces := w.spaces - {App(t)}, areas := w.areas - {t}) else w
  }

  /** An open file is no longer than the addresses left for mappings. */
  ghost predicate CanMap(w: World, t: int, fd: int)
    requires t in w.areas
  {
    fd in w.files && PageCount(w.files[fd].size) <= w.areas[t].fileMapEnd
  }

  ghost function Mapped(w: World, t: int, fd: int): World
    requires t in w.areas && CanMap(w, t, fd)
  {
    w.(areas := w.areas[t := WithMapping(w.areas[t], fd, PageCount(w.files[fd].size))])
  }

  /** A launch starts from the cached image and its end, whatever the file holds by now. */
  ghost function StepExec(w: World, t: int, file: int, segments: seq<Segment>, args: Frame, o: Outcome): World {
    var loaded, ends := WithImage(w.spaces, file, segments), WithEnd(w.ends, file, segments);
    if o.Failed? then w
    else if o.Halfway? then w.(spaces := loaded, ends := ends)
    else w.(spaces := loaded[App(t) := LaunchedSpace(loaded[Image(file)], args)], ends := ends,
            areas := w.areas[t := LaunchAreas(ends[file])])
  }

  ghost function StepStore(w: World, t: int, page: nat, word: nat, value: Word, o: Outcome): World
    requires Running(w, t) && word < ENTRIES
  {
    var space := Touched(w.spaces[App(t)], w.areas[t], w.files, page);
    if o.Failed? then w
    else if o.Done? && page in space then WithSpace(w, t, Written(w.spaces[App(t)], w.areas[t], w.files, page, word, value))
    else WithSpace(w, t, space)
  }

  /** What a task is told is what the world of private memories holds: the loaded word, the old end of the demand-paged range,
      and the first page of a new mapping. */
  ghost predicate Tells(w: World, op: Op, o: Outcome) {
    match op
    case FetchWord(t, page, word) =>
      Went(o) ==> o.Fetched? && Running(w, t) && page in Touched(w.spaces[App(t)], w.areas[t], w.files, page) && word < ENTRIES
                  && o.word == Touched(w.spaces[App(t)], w.areas[t], w.files, page)[page][word]
    case Demand(t, _) => Went(o) ==> o.Returned? && Running(w, t) && o.page == w.areas[t].dpagingEnd
    case Map(t, fd) =>
      Went(o) ==> o.Returned? && Running(w, t) && CanMap(w, t, fd) && o.page == w.areas[t].fileMapEnd - PageCount(w.files[fd].size)
    case StoreWord(t, page, _, _) =>
      Went(o) ==> o.Done? && Running(w, t) && page in Touched(w.spaces[App(t)], w.areas[t], w.files, page)
    case Exec(t, _, _, _) => Went(o) ==> o.Done? && !Running(w, t)
    case Quit(t) => Went(o) ==> o.Done? && Running(w, t)
  }

  /** A run of the private-memory machine. */
  ghost function Fold(w: World, ops: seq<Op>, outcomes: seq<Outcome>): World
    requires |outcomes| == |ops| && forall op | op in ops :: Possible(op)
  {
    if |ops| == 0 then w
    else Step(Fold(w, ops[..|ops| - 1], outcomes[..|ops| - 1]), ops[|ops| - 1], outcomes[|ops| - 1])
  }

  /** A store or load that no fault handler can make possible. */
  ghost predicate StoreRefused(w: World, t: int, page: nat) {
    Running(w, t) ==> page !in Touched(w.spaces[App(t)], w.areas[t], w.files, page)
  }

  /** Operations that do nothing whatever memory there is: a launch on a task that already runs
      an application, an access to a page that is in no area, a call by a task without one. */
  ghost predicate Refused(w: World, op: Op) {
    if op.Exec? then Running(w, op.task)
    else if op.StoreWord? || op.FetchWord? then StoreRefused(w, op.task, op.page)
    else Running(w, op.task) ==> op.Map? && !CanMap(w, op.task, op.fd)
  }

  // ------------------------------------------------------------------ the run itself

  method PerformExec(system: AppSystem, t: int, file: int, segments: seq<Segment>, args: Frame, ghost table: map<int, FileData>) returns (o: Outcome)
    requires system.Valid() && Loadable(segments)
    modifies system, system.paging`mem, system.paging.manager.allocMap
    ensures system.Valid() && system.Now(table) == StepExec(old(system.Now(table)), t, file, segments, args, o)
    ensures o.Done? || Running(old(system.Now(table)), t) || system.paging.Exhausted()
    ensures Went(o) ==> o.Done?
    ensures o.Done? ==> !Running(old(system.Now(table)), t)
    ensures o.Done? ==> t !in old(system.contexts) && FeetKept(old(system.state), system.state, t)
  {
    hide Ownership.Valid, Views, Agree, LaunchedSpace, FeetKept, LoadedView;
    system.WhoIsThere(t, file);
    o := Failed;
    if t !in system.contexts {
      var ok := system.ExecuteFile(t, file, segments, args);
      system.WhoIsThere(t, file);
      o := if ok then Done else if file in system.appLoads then Halfway else Failed;
    }
  }

  method PerformStore(system: AppSystem, t: int, page: nat, word: nat, value: Word, ghost table: map<int, FileData>) returns (o: Outcome)
    requires system.Valid() && UPPER <= page < LIMIT && word < ENTRIES
    requires system.FilesHold(table) && FilesInReach(system.Now(table))
    modifies system, system.paging`mem, system.paging.manager.allocMap
    ensures system.Valid() && FeetKept(old(system.state), system.state, t)
    ensures o.Done? || StoreRefused(old(system.Now(table)), t, page) || system.paging.Exhausted()
    ensures Went(o) ==> o.Done? && Running(old(system.Now(table)), t)
    ensures Went(o) ==> var w := old(system.Now(table)); page in Touched(w.spaces[App(t)], w.areas[t], w.files, page)
    ensures system.Now(table) == if Running(old(system.Now(table)), t) then StepStore(old(system.Now(table)), t, page, word, value, o)
                            else old(system.Now(table))
  {
    hide Ownership.Valid, Views, Agree, Touched, Written, FeetKept;
    FeetLaws(t);
    system.WhoIsThere(t, 0);
    o := Failed;
    if t in system.contexts {
      var ok, touched := system.Store(t, page, word, value, table);
      o := if ok then Done else if touched then Halfway else Failed;
    }
  }

  method PerformMap(system: AppSystem, t: int, fd: int, ghost table: map<int, FileData>) returns (o: Outcome)
    requires system.Valid() && system.FilesHold(table)
    modifies system`areas
    ensures system.Valid() && (o.Returned? || o.Failed?) && Tells(old(system.Now(table)), Map(t, fd), o)
    ensures o.Failed? ==> Refused(old(system.Now(table)), Map(t, fd))
    ensures system.Now(table) == Step(old(system.Now(table)), Map(t, fd), o)
  {
    hide Ownership.Valid, Views, Agree, Touched, Written, LaunchedSpace, WithImage, FeetKept, AppSystem.FilesHold;
    system.WhoIsThere(t, 0);
    system.OpenFile(table, fd);
    o := Failed;
    if t in system.contexts && fd in system.files && t in system.areas
       && PageCount(system.files[fd].entry.fileSize) <= system.areas[t].fileMapEnd {
      var vaddr := system.MapFile(t, fd, table);
      o := Returned(vaddr.value);
    }
  }

  method Perform(system: AppSystem, op: Op, ghost table: map<int, FileData>) returns (o: Outcome)
    requires system.Valid() && Possible(op) && system.FilesHold(table) && FilesInReach(system.Now(table))
    modifies system, system.paging`mem, system.paging.manager.allocMap
    ensures system.Valid() && system.Now(table) == Step(old(system.Now(table)), op, o) && Tells(old(system.Now(table)), op, o)
    ensures Went(o) || Refused(old(system.Now(table)), op) || system.paging.Exhausted()
    ensures !op.Exec? || Went(o) ==> FeetKept(old(system.state), system.state, op.task)
  {
    hide Ownership.Valid, Views, Agree, Touched, Written, LaunchedSpace, WithImage, FeetKept;
    system.WhoIsThere(op.task, 0);
    FeetLaws(op.task);
    match op
    case Exec(t, file, segments, args) =>
      o := PerformExec(system, t, file, segments, args, table);
    case StoreWord(t, page, word, value) =>
      o := PerformStore(system, t, page, word, value, table);
    case FetchWord(t, page, word) =>
      o := Failed;
      if t in system.contexts {
        var v := system.Fetch(t, page, word, table);
        o := if v.Some? then Fetched(v.value) else Failed;
      }
    case Demand(t, n) =>
      o := Failed;
      if t in system.contexts {
        var dpEnd := system.DemandPages(t, n);
        o := Returned(dpEnd);
      }
    case Map(t, fd) =>
      o := PerformMap(system, t, fd, table);
    case Quit(t) =>
      o := Failed;
      if t in system.contexts {
        system.Exit(t);
        o := Done;
      }
  }

  /** Refinement over whole runs: whatever the tasks do and in whatever order, what they can
      observe is what the private-memory machine computes. */
  method Run(system: AppSystem, ops: seq<Op>, ghost table: map<int, FileData>) returns (outcomes: seq<Outcome>)
    requires system.Valid() && forall op | op in ops :: Possible(op)
    requires system.FilesHold(table) && FilesInReach(system.Now(table))
    modifies system, system.paging`mem, system.paging.manager.allocMap
    ensures system.Valid() && |outcomes| == |ops|
    ensures system.Now(table) == Fold(old(system.Now(table)), ops, outcomes)
    ensures AllTold(old(system.Now(table)), ops, outcomes) && FilesInReach(system.Now(table))
  {
    hide Ownership.Valid, Views, Agree, Step, FilesInReach, AppSystem.FilesHold, AppSystem.Now, Tells, AllTold;
    outcomes := [];
    NothingTold(system.Now(table));
    for i := 0 to |ops|
      invariant system.Valid() && |outcomes| == i && system.FilesHold(table) && FilesInReach(system.Now(table))
      invariant system.Now(table) == Fold(old(system.Now(table)), ops[..i], outcomes)
      invariant AllTold(old(system.Now(table)), ops[..i], outcomes)
    {
      assert ops[i] in ops;
      StepInReach(system, table, ops[i]);
      var o := Perform(system, ops[i], table);
      assert ops[..i + 1][..i] == ops[..i] && (outcomes + [o])[..i] == outcomes;
      ToldNext(old(system.Now(table)), ops[..i], outcomes, ops[i], o);
      assert ops[..i] + [ops[i]] == ops[..i + 1];
      outcomes := outcomes + [o];
    }
    assert ops[..|ops|] == ops;
  }

  /** All that the tasks were told in a run. */
  ghost predicate AllTold(w: World, ops: seq<Op>, outcomes: seq<Outcome>) {
    |outcomes| == |ops| && (forall op | op in ops :: Possible(op))
    && forall i | 0 <= i < |ops| :: Tells(Fold(w, ops[..i], outcomes[..i]), ops[i], outcomes[i])
  }

  lemma NothingTold(w: World)
    ensures AllTold(w, [], [])
  {
  }

  lemma ToldNext(w: World, ops: seq<Op>, outcomes: seq<Outcome>, op: Op, o: Outcome)
    requires AllTold(w, ops, outcomes) && Possible(op) && Tells(Fold(w, ops, outcomes), op, o)
    ensures AllTold(w, ops + [op], outcomes + [o])
  {
    hide Tells, Fold, Possible;
    var ops', outcomes' := ops + [op], outcomes + [o];
    forall i | 0 <= i < |ops'|
      ensures Tells(Fold(w, ops'[..i], outcomes'[..i]), ops'[i], outcomes'[i])
    {
      assert ops'[..i] == ops[..i] && outcomes'[..i] == outcomes[..i];
      if i == |ops| {
        assert ops[..i] == ops && outcomes[..i] == outcomes;
      }
    }
  }

  /** After a step, too, what is mapped can be loaded. */
  lemma StepInReach(system: AppSystem, table: map<int, FileData>, op: Op)
    requires system.FilesHold(table) && FilesInReach(system.Now(table)) && Possible(op)
    ensures forall o :: FilesInReach(Step(system.Now(table), op, o))
  {
    var w := system.Now(table);
    if op.Map? {
      system.OpenFile(table, op.fd);
    }
    forall o, t | t in Step(w, op, o).areas
      ensures AreasInReach(Step(w, op, o).areas[t], Step(w, op, o).files)
    {
      AreaInReach(w, op, o, t);
    }
  }

  lemma NothingMapped(files: map<int, FileData>, endPage: nat)
    ensures AreasInReach(LaunchAreas(endPage), files)
  {
  }

  lemma AreaInReach(w: World, op: Op, o: Outcome, t: int)
    requires FilesInReach(w) && Possible(op) && t in Step(w, op, o).areas
    requires op.Map? && op.fd in w.files ==> w.files[op.fd].size <= |w.files[op.fd].chain| && w.files[op.fd].size < SIZE_LIMIT
    ensures AreasInReach(Step(w, op, o).areas[t], Step(w, op, o).files)
  {
    hide Touched, Written, LaunchedSpace, LoadedView, AreasInReach, WithMapping;
    if t in w.areas && op.Demand? {
      AreasReached(w.areas[t], w.files, op.numPages);
    }
    if op.Exec? {
      NothingMapped(w.files, WithEnd(w.ends, op.file, op.segments)[op.file]);
    }
    if t in w.areas && op.Map? && CanMap(w, t, op.fd) {
      MappingReached(w.areas[t], w.files, op.fd);
    }
  }

  // ------------------------------------------------------------------ what runs have in common

  /** Copy-on-write isolation over every run: a task that does nothing itself finds its memory
      exactly as it left it, whatever all the others do. */
  lemma {:induction false} RunIsolation(w: World, ops: seq<Op>, outcomes: seq<Outcome>, t: int)
    requires |outcomes| == |ops| && forall op | op in ops :: Possible(op) && op.task != t
    ensures App(t) in w.spaces <==> App(t) in Fold(w, ops, outcomes).spaces
    ensures App(t) in w.spaces ==> Fold(w, ops, outcomes).spaces[App(t)] == w.spaces[App(t)]
  {
    if |ops| > 0 {
      var n := |ops| - 1;
      assert ops[n] in ops;
      RunIsolation(w, ops[..n], outcomes[..n], t);
      StepIsolation(Fold(w, ops[..n], outcomes[..n]), ops[n], outcomes[n], t);
    }
  }

  lemma StepIsolation(w: World, op: Op, o: Outcome, t: int)
    requires Possible(op) && op.task != t
    ensures App(t) in w.spaces <==> App(t) in Step(w, op, o).spaces
    ensures App(t) in w.spaces ==> Step(w, op, o).spaces[App(t)] == w.spaces[App(t)]
  {
    hide Touched, Written, LaunchedSpace, LoadedView, StepExec, StepStore, WithMapping, Extended;
    if op.Exec? {
      ExecElsewhere(w, op.task, op.file, op.segments, op.args, o, t);
    }
    if op.StoreWord? && Running(w, op.task) {
      StoreElsewhere(w, op.task, op.page, op.word, op.value, o, App(t));
    }
  }

  lemma ExecElsewhere(w: World, t: int, file: int, segments: seq<Segment>, args: Frame, o: Outcome, u: int)
    requires u != t
    ensures var spaces := StepExec(w, t, file, segments, args, o).spaces;
      (App(u) in w.spaces <==> App(u) in spaces) && (App(u) in w.spaces ==> spaces[App(u)] == w.spaces[App(u)])
  {
    hide LaunchedSpace, LoadedView;
  }

  lemma StoreElsewhere(w: World, t: int, page: nat, word: nat, value: Word, o: Outcome, owner: Owner)
    requires Running(w, t) && word < ENTRIES && owner != App(t)
    ensures var w' := StepStore(w, t, page, word, value, o);
      && w'.ends == w.ends && (owner in w.spaces <==> owner in w'.spaces)
      && (owner in w.spaces ==> w'.spaces[owner] == w.spaces[owner])
  {
    hide Touched, Written;
  }

  /** A cached image never changes: whatever all tasks do, it holds what its first load put there. */
  lemma {:induction false} RunKeepsImages(w: World, ops: seq<Op>, outcomes: seq<Outcome>, file: int)
    requires |outcomes| == |ops| && (forall op | op in ops :: Possible(op)) && Image(file) in w.spaces
    ensures Image(file) in Fold(w, ops, outcomes).spaces
    ensures Fold(w, ops, outcomes).spaces[Image(file)] == w.spaces[Image(file)]
    ensures file in w.ends ==> file in Fold(w, ops, outcomes).ends && Fold(w, ops, outcomes).ends[file] == w.ends[file]
  {
    if |ops| > 0 {
      var n := |ops| - 1;
      assert ops[n] in ops;
      RunKeepsImages(w, ops[..n], outcomes[..n], file);
      StepKeepsImages(Fold(w, ops[..n], outcomes[..n]), ops[n], outcomes[n], file);
    }
  }

  lemma StepKeepsImages(w: World, op: Op, o: Outcome, file: int)
    requires Possible(op) && Image(file) in w.spaces
    ensures Image(file) in Step(w, op, o).spaces && Step(w, op, o).spaces[Image(file)] == w.spaces[Image(file)]
    ensures file in w.ends ==> file in Step(w, op, o).ends && Step(w, op, o).ends[file] == w.ends[file]
  {
    hide Touched, Written, LaunchedSpace, LoadedView, StepExec, StepStore, WithMapping, Extended;
    if op.Exec? {
      ExecKeepsImages(w, op.task, op.file, op.segments, op.args, o, file);
    }
    if op.StoreWord? && Running(w, op.task) {
      StoreElsewhere(w, op.task, op.page, op.word, op.value, o, Image(file));
    }
  }

  lemma ExecKeepsImages(w: World, t: int, name: int, segments: seq<Segment>, args: Frame, o: Outcome, file: int)
    requires Image(file) in w.spaces
    ensures var w' := StepExec(w, t, name, segments, args, o);
      && Image(file) in w'.spaces && w'.spaces[Image(file)] == w.spaces[Image(file)]
      && (file in w.ends ==> file in w'.ends && w'.ends[file] == w.ends[file])
  {
    hide LaunchedSpace, LoadedView;
  }

  /** Every launch of a file, however late in a run and whatever the file holds by then, starts from the memory that the
      first load built from its segments, and demands pages from the end of those on. */
  lemma LaunchSeesFirstLoad(w: World, first: Op, o1: Outcome, ops: seq<Op>, outcomes: seq<Outcome>, again: Op)
    requires first.Exec? && again.Exec? && again.file == first.file && !o1.Failed?
    requires Possible(first) && Possible(again) && Image(first.file) !in w.spaces && first.file !in w.ends
    requires |outcomes| == |ops| && forall op | op in ops :: Possible(op)
    ensures var w1 := Fold(Step(w, first, o1), ops, outcomes);
            Step(w1, again, Done).spaces[App(again.task)] == LaunchedSpace(LoadedView(first.segments), again.args)
    ensures var w1 := Fold(Step(w, first, o1), ops, outcomes);
            var a := Step(w1, again, Done).areas[again.task];
            && a == LaunchAreas(EndPage(first.segments)) && EndsAt(first.segments, a.dpagingBegin)
            && a.dpagingEnd == a.dpagingBegin && a.fileMapEnd == STACK_START && a.fileMaps == []
  {
    EndRightBehind(first.segments);
    hide LaunchedSpace, LoadedView, Fold, EndsAt, EndPage;
    var w0 := Step(w, first, o1);
    assert Image(first.file) in w0.spaces && w0.spaces[Image(first.file)] == LoadedView(first.segments);
    RunKeepsImages(w0, ops, outcomes, first.file);
  }

  // ------------------------------------------------------------------ frames over a lifetime

  /** The taken frames are determined by who owns what: if nobody else's changed, they are the same. */
  lemma SameFeetSameUsed(s: State, s': State, t: int, file: int)
    requires Ownership.Valid(s) && Ownership.Valid(s') && FeetKept(s, s', t) && App(t) !in s.roots
    requires s'.roots.Keys == s.roots.Keys + {Image(file)} && Image(file) in s'.roots
    ensures Image(file) in s.roots ==> s'.used == s.used
    ensures Image(file) !in s.roots ==> s'.used == s.used + Foot(s', Image(file)) && s.used !! Foot(s', Image(file))
  {
    hide Foot, Ownership.GoodOwner, Reach;
    if Image(file) in s.roots {
      FootUsed(s, Image(file));
    }
    FootUsed(s', Image(file));
    BaseUsed(s);
    BaseUsed(s');
    forall x
      ensures x in s'.used ==> x in s.used || x in Foot(s', Image(file))
      ensures x in s.used ==> x in s'.used
      ensures Image(file) !in s.roots && x in s.used ==> x !in Foot(s', Image(file))
    {
      if x in s.used && x !in s.base {
        var o :| o in s.roots && x in Foot(s, o);
        FootUsed(s', o);
        assert Apart(s', o, Image(file));
      }
      if x in s'.used && x !in s'.base {
        var o :| o in s'.roots && x in Foot(s', o);
        assert o in s.roots || o == Image(file);
        if o in s.roots {
          FootUsed(s, o);
        }
      }
    }
  }

  /** What a running task does itself neither ends it nor takes frames from others. */
  method OwnWork(system: AppSystem, t: int, file: int, ops: seq<Op>, ghost s0: State, ghost table: map<int, FileData>)
    requires system.Valid() && FeetKept(s0, system.state, t) && t in system.contexts
    requires system.Spaces().Keys == s0.roots.Keys + {Image(file), App(t)}
    requires system.FilesHold(table) && FilesInReach(system.Now(table))
    requires forall op | op in ops :: Possible(op) && op.task == t && !op.Exec? && !op.Quit?
    modifies system, system.paging`mem, system.paging.manager.allocMap
    ensures system.Valid() && FeetKept(s0, system.state, t) && t in system.contexts
    ensures system.Spaces().Keys == s0.roots.Keys + {Image(file), App(t)}
  {
    hide Ownership.Valid, Views, Agree, FeetKept, Foot, Step, StepExec, Touched, FilesInReach, AppSystem.FilesHold;
    FeetLaws(t);
    for i := 0 to |ops|
      invariant system.Valid() && FeetKept(s0, system.state, t) && t in system.contexts
      invariant system.FilesHold(table) && FilesInReach(system.Now(table))
      invariant system.Spaces().Keys == s0.roots.Keys + {Image(file), App(t)}
    {
      assert ops[i] in ops;
      StepKeys(system.Now(table), ops[i]);
      StepInReach(system, table, ops[i]);
      var o' := Perform(system, ops[i], table);
      system.WhoIsThere(t, file);
    }
  }

  /** A task that runs no application launches one. */
  method LaunchFirst(system: AppSystem, t: int, file: int, segments: seq<Segment>, args: Frame, ghost table: map<int, FileData>)
      returns (ok: bool)
    requires system.Valid() && Loadable(segments) && t !in system.contexts
    requires system.FilesHold(table) && FilesInReach(system.Now(table))
    modifies system, system.paging`mem, system.paging.manager.allocMap
    ensures system.Valid() && system.FilesHold(table)
    ensures !ok ==> system.paging.Exhausted()
    ensures ok ==> FeetKept(old(system.state), system.state, t) && t in system.contexts && FilesInReach(system.Now(table))
    ensures ok ==> system.Spaces().Keys == old(system.state).roots.Keys + {Image(file), App(t)}
    ensures App(t) !in old(system.state).roots && (file in old(system.appLoads) <==> Image(file) in old(system.state).roots)
  {
    hide Ownership.Valid, Views, Agree, FeetKept, Foot, Step, StepExec, Touched, FilesInReach, AppSystem.FilesHold;
    system.WhoIsThere(t, file);
    ViewKeys(system.state);
    ExecKeys(system.Now(table), t, file, segments, args);
    StepInReach(system, table, Exec(t, file, segments, args));
    ExecIsStep(system.Now(table), t, file, segments, args);
    var o := PerformExec(system, t, file, segments, args, table);
    system.WhoIsThere(t, file);
    ok := o.Done?;
  }

  /** Frame conservation over a lifetime: a task launches a cached file, does whatever it does and
      quits, and the allocator is as before; a first launch leaves exactly the image's frames taken. */
  method Lifetime(system: AppSystem, t: int, file: int, segments: seq<Segment>, args: Frame, ops: seq<Op>,
                  ghost table: map<int, FileData>) returns (ok: bool)
    requires system.Valid() && Loadable(segments) && t !in system.contexts
    requires system.FilesHold(table) && FilesInReach(system.Now(table))
    requires forall op | op in ops :: Possible(op) && op.task == t && !op.Exec? && !op.Quit?
    modifies system, system.paging`mem, system.paging.manager.allocMap
    ensures system.Valid()
    ensures !ok ==> system.paging.Exhausted()
    ensures ok ==> Image(file) in system.state.roots
    ensures ok && file in old(system.appLoads) ==> system.paging.Allocated() == old(system.paging.Allocated())
    ensures ok && file !in old(system.appLoads) ==>
              && system.paging.Allocated() == old(system.paging.Allocated()) + Foot(system.state, Image(file))
              && old(system.paging.Allocated()) !! Foot(system.state, Image(file))
  {
    hide Ownership.Valid, Views, Agree, FeetKept, Foot, Step, StepExec, Touched, FilesInReach, AppSystem.FilesHold, AppSystem.Now;
    FeetLaws(t);
    ghost var s0 := system.state;
    ok := LaunchFirst(system, t, file, segments, args, table);
    if !ok {
      return;
    }
    OwnWork(system, t, file, ops, s0, table);
    system.Exit(t);
    ViewKeys(system.state);
    SameFeetSameUsed(s0, system.state, t, file);
  }

  lemma ExecIsStep(w: World, t: int, file: int, segments: seq<Segment>, args: Frame)
    requires Loadable(segments)
    ensures Step(w, Exec(t, file, segments, args), Done) == StepExec(w, t, file, segments, args, Done)
  {
  }

  lemma ExecKeys(w: World, t: int, file: int, segments: seq<Segment>, args: Frame)
    ensures StepExec(w, t, file, segments, args, Done).spaces.Keys == w.spaces.Keys + {Image(file), App(t)}
  {
    hide LaunchedSpace, LoadedView;
  }

  lemma StepKeys(w: World, op: Op)
    requires Possible(op) && !op.Exec? && !op.Quit?
    ensures forall o :: Step(w, op, o).spaces.Keys == w.spaces.Keys
  {
    hide Touched, Written;
  }
}
