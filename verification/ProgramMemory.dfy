/** What a program finds in its memory, however much happens in between: what it stored, zeroes where it demanded pages, and
    the bytes of the files it mapped. */
module ProgramMemory {
  import opened PageTree
  import opened Ownership
  import opened PageNumbers
  import opened AppSteps
  import opened AppLoader
  import opened ProgramImages
  import opened MappedPages
  import opened Applications
  import opened AppRuns
  import FileRuns
  import LatePages
  import FatFiles

  // ----- every world of a run -----

  /** Images end behind their pages, demand-paged ranges are ranges, and mappings do not overlap. */
  ghost predicate Sound(w: World) {
    && (forall f :: f in w.ends <==> Image(f) in w.spaces)
    && (forall f | f in w.ends :: Behind(w.spaces[Image(f)], w.ends[f]))
    && (forall t | t in w.areas :: GoodAreas(w.areas[t]) && w.areas[t].dpagingBegin <= w.areas[t].dpagingEnd)
  }

  lemma {:induction false} SoundRun(w: World, ops: seq<Op>, outcomes: seq<Outcome>)
    requires Sound(w) && |outcomes| == |ops| && forall op | op in ops :: Possible(op)
    ensures Sound(Fold(w, ops, outcomes))
  {
    hide Sound, Step;
    if ops != [] {
      var n := |ops| - 1;
      assert ops[n] in ops;
      SoundRun(w, ops[..n], outcomes[..n]);
      SoundStep(Fold(w, ops[..n], outcomes[..n]), ops[n], outcomes[n]);
    }
  }

  lemma SoundStep(w: World, op: Op, o: Outcome)
    requires Sound(w) && Possible(op)
    ensures Sound(Step(w, op, o))
  {
    var w' := Step(w, op, o);
    forall f
      ensures f in w'.ends <==> Image(f) in w'.spaces
      ensures f in w'.ends ==> Behind(w'.spaces[Image(f)], w'.ends[f])
    {
      SoundImage(w, op, o, f);
    }
    forall t | t in w'.areas
      ensures GoodAreas(w'.areas[t]) && w'.areas[t].dpagingBegin <= w'.areas[t].dpagingEnd
    {
      SoundAreas(w, op, o, t);
    }
  }

  lemma SoundImage(w: World, op: Op, o: Outcome, f: int)
    requires Sound(w) && Possible(op)
    ensures var w' := Step(w, op, o);
      (f in w'.ends <==> Image(f) in w'.spaces) && (f in w'.ends ==> Behind(w'.spaces[Image(f)], w'.ends[f]))
  {
    hide Touched, Written, LaunchedSpace, LoadedView, WithMapping, Extended, Behind, EndPage, Loadable;
    if op.Exec? {
      EndRightBehind(op.segments);
    }
  }

  lemma SoundAreas(w: World, op: Op, o: Outcome, t: int)
    requires Sound(w) && Possible(op) && t in Step(w, op, o).areas
    ensures var a := Step(w, op, o).areas[t]; GoodAreas(a) && a.dpagingBegin <= a.dpagingEnd
  {
    hide Touched, Written, LaunchedSpace, LoadedView, Behind, EndPage, Loadable, PageCount;
  }

  // ----- while a program runs -----

  /** Task t neither launches a program nor ends. */
  ghost predicate GoesOn(op: Op, t: int) { op.task == t ==> !op.Exec? && !op.Quit? }

  ghost predicate Touches(op: Op, t: int, n: nat) {
    op.task == t && (op.StoreWord? || op.FetchWord?) && op.page == n
  }

  ghost predicate Stores(op: Op, t: int, n: nat, k: nat) { op.StoreWord? && op.task == t && op.page == n && op.word == k }

  /** Areas only get more. */
  ghost predicate Grown(a: Areas, b: Areas) {
    b.dpagingBegin == a.dpagingBegin && a.dpagingEnd <= b.dpagingEnd && a.fileMaps <= b.fileMaps && b.fileMapEnd <= a.fileMapEnd
  }

  /** What stays of task t's memory while others run and it stores elsewhere. */
  ghost predicate Stays(w: World, w': World, t: int, n: nat, k: nat) {
    && Running(w, t) && Running(w', t) && w'.files == w.files && Grown(w.areas[t], w'.areas[t]) && k < ENTRIES
    && (n in w.spaces[App(t)] ==> n in w'.spaces[App(t)] && w'.spaces[App(t)][n][k] == w.spaces[App(t)][n][k])
  }

  lemma StepStays(w: World, op: Op, o: Outcome, t: int, n: nat, k: nat)
    requires Running(w, t) && Possible(op) && GoesOn(op, t) && !Stores(op, t, n, k) && k < ENTRIES
    ensures Stays(w, Step(w, op, o), t, n, k)
    ensures n !in w.spaces[App(t)] && !Touches(op, t, n) ==> n !in Step(w, op, o).spaces[App(t)]
  {
    hide FaultedIn, LaunchedSpace, LoadedView, EndPage, PageCount, StepStore, StepExec, Grown, GoesOn, Loadable, Touched;
    StepGrown(w, op, o, t);
    FileRuns.StepFiles(w, op, o);
    if op.Exec? {
      ElsewhereGoesOn(op, t);
      ExecElsewhere(w, op.task, op.file, op.segments, op.args, o, t);
    } else if op.StoreWord? && Running(w, op.task) {
      if op.task == t {
        StoreStays(w, op, o, n, k);
      } else {
        StoreElsewhere(w, op.task, op.page, op.word, op.value, o, App(t));
      }
    } else if op.FetchWord? && Running(w, op.task) {
      FetchStays(w, op, n, k);
    } else {
      ElsewhereGoesOn(op, t);
    }
  }

  lemma ElsewhereGoesOn(op: Op, t: int)
    requires GoesOn(op, t)
    ensures op.Exec? || op.Quit? ==> op.task != t
  {
  }

  lemma StoreStays(w: World, op: Op, o: Outcome, n: nat, k: nat)
    requires op.StoreWord? && Running(w, op.task) && Possible(op) && !Stores(op, op.task, n, k) && k < ENTRIES
    ensures var space, space' := w.spaces[App(op.task)], Step(w, op, o).spaces[App(op.task)];
      && (n in space ==> n in space' && space'[n][k] == space[n][k])
      && (n !in space && !Touches(op, op.task, n) ==> n !in space')
  {
    hide FaultedIn;
  }

  lemma FetchStays(w: World, op: Op, n: nat, k: nat)
    requires op.FetchWord? && Running(w, op.task) && k < ENTRIES
    ensures var space := w.spaces[App(op.task)];
            var space' := Touched(space, w.areas[op.task], w.files, op.page);
      && (n in space ==> n in space' && space'[n][k] == space[n][k])
      && (n !in space && !Touches(op, op.task, n) ==> n !in space')
  {
    hide FaultedIn;
  }

  lemma {:induction false} RunStays(w: World, ops: seq<Op>, outcomes: seq<Outcome>, t: int, n: nat, k: nat)
    requires Running(w, t) && |outcomes| == |ops| && k < ENTRIES
    requires forall op | op in ops :: Possible(op) && GoesOn(op, t) && !Stores(op, t, n, k)
    ensures Stays(w, Fold(w, ops, outcomes), t, n, k)
    ensures n !in w.spaces[App(t)] && (forall op | op in ops :: !Touches(op, t, n)) ==> n !in Fold(w, ops, outcomes).spaces[App(t)]
  {
    hide Step, GoesOn, Stores, Touches, Possible;
    if ops != [] {
      var i := |ops| - 1;
      assert ops[i] in ops;
      RunStays(w, ops[..i], outcomes[..i], t, n, k);
      StepStays(Fold(w, ops[..i], outcomes[..i]), ops[i], outcomes[i], t, n, k);
    }
  }

  /** What a program stored it loads again, whatever others do and wherever else it stores, as long as it runs. */
  lemma StoreThenFetch(w: World, t: int, n: nat, k: nat, v: Word, o: Outcome, ops: seq<Op>, outcomes: seq<Outcome>, told: Outcome)
    requires Possible(StoreWord(t, n, k, v)) && Tells(w, StoreWord(t, n, k, v), o) && Went(o)
    requires |outcomes| == |ops| && forall op | op in ops :: Possible(op) && GoesOn(op, t) && !Stores(op, t, n, k)
    requires Tells(Fold(Step(w, StoreWord(t, n, k, v), o), ops, outcomes), FetchWord(t, n, k), told) && Went(told)
    ensures told == Fetched(v)
  {
    var w1 := Step(w, StoreWord(t, n, k, v), o);
    assert Running(w1, t) && n in w1.spaces[App(t)] && w1.spaces[App(t)][n][k] == v;
    hide Step, GoesOn, Stores, Possible, FaultedIn;
    RunStays(w1, ops, outcomes, t, n, k);
  }

  /** Pages that a program demands are as many as it asked for, none of them demanded before, and read as zeroes until it stores
      there. */
  lemma DemandThenFetch(w: World, t: int, size: nat, o: Outcome, ops: seq<Op>, outcomes: seq<Outcome>, i: nat, k: nat, told: Outcome)
    requires Sound(w) && Tells(w, Demand(t, size), o) && Went(o) && i < size && o.page + i !in w.spaces[App(t)]
    requires |outcomes| == |ops| && k < ENTRIES
    requires forall op | op in ops :: Possible(op) && GoesOn(op, t) && !Touches(op, t, o.page + i)
    requires Tells(Fold(Step(w, Demand(t, size), o), ops, outcomes), FetchWord(t, o.page + i, k), told) && Went(told)
    ensures told == Fetched(ZERO)
  {
    hide *;
    DemandedNow(w, t, size, o);
    NotStored(ops, t, o.page + i, k);
    var w1 := Step(w, Demand(t, size), o);
    RunStays(w1, ops, outcomes, t, o.page + i, k);
    ZeroFetch(w1, Fold(w1, ops, outcomes), t, o.page + i, k, told);
  }

  lemma NotStored(ops: seq<Op>, t: int, n: nat, k: nat)
    ensures forall op | op in ops && !Touches(op, t, n) :: !Stores(op, t, n, k)
  {
  }

  lemma DemandedNow(w: World, t: int, size: nat, o: Outcome)
    requires Sound(w) && Tells(w, Demand(t, size), o) && Went(o)
    ensures Running(w, t) && Possible(Demand(t, size))
    ensures var w1 := Step(w, Demand(t, size), o);
      && o.Returned? && w1.areas.Keys == w.areas.Keys && Running(w1, t) && w1.spaces == w.spaces
      && w1.areas[t].dpagingBegin <= o.page && w1.areas[t].dpagingEnd == o.page + size
  {
    hide GoodAreas, Behind;
  }

  lemma ZeroFetch(w1: World, w2: World, t: int, n: nat, k: nat, told: Outcome)
    requires Stays(w1, w2, t, n, k) && n !in w2.spaces[App(t)] && w1.areas[t].dpagingBegin <= n < w1.areas[t].dpagingEnd
    requires Tells(w2, FetchWord(t, n, k), told) && Went(told)
    ensures told == Fetched(ZERO)
  {
  }

  /** Later demands get pages behind all earlier ones. */
  lemma DemandsApart(w: World, t: int, size: nat, o: Outcome, ops: seq<Op>, outcomes: seq<Outcome>, more: nat, o': Outcome)
    requires Tells(w, Demand(t, size), o) && Went(o) && |outcomes| == |ops|
    requires forall op | op in ops :: Possible(op) && GoesOn(op, t)
    requires Tells(Fold(Step(w, Demand(t, size), o), ops, outcomes), Demand(t, more), o') && Went(o')
    ensures o.page + size <= o'.page
  {
    var w1 := Step(w, Demand(t, size), o);
    hide Step, Possible;
    RunGrown(w1, ops, outcomes, t);
  }

  lemma {:induction false} RunGrown(w: World, ops: seq<Op>, outcomes: seq<Outcome>, t: int)
    requires Running(w, t) && |outcomes| == |ops| && forall op | op in ops :: Possible(op) && GoesOn(op, t)
    ensures Running(Fold(w, ops, outcomes), t) && Grown(w.areas[t], Fold(w, ops, outcomes).areas[t])
  {
    hide Step, GoesOn, Possible;
    if ops != [] {
      var i := |ops| - 1;
      assert ops[i] in ops;
      RunGrown(w, ops[..i], outcomes[..i], t);
      StepGrown(Fold(w, ops[..i], outcomes[..i]), ops[i], outcomes[i], t);
    }
  }

  lemma StepGrown(w: World, op: Op, o: Outcome, t: int)
    requires Running(w, t) && Possible(op) && GoesOn(op, t)
    ensures Running(Step(w, op, o), t) && Grown(w.areas[t], Step(w, op, o).areas[t])
  {
    hide Touched, Written, LaunchedSpace, LoadedView, EndPage, PageCount;
  }

  /** The mapping of a file holds all of its bytes, each at its distance from the returned address, and the program loads them
      from there, if it has not stored there and the demand-paged range has not grown so far. */
  lemma MapThenFetch(w: World, t: int, fd: int, o: Outcome, ops: seq<Op>, outcomes: seq<Outcome>, x: nat, told: Outcome)
    requires Sound(w) && FileRuns.Sized(w.files) && Tells(w, Map(t, fd), o) && Went(o) && x < w.files[fd].size
    requires o.page + x / PAGE_BYTES !in w.spaces[App(t)]
    requires |outcomes| == |ops|
    requires forall op | op in ops :: Possible(op) && GoesOn(op, t) && !Touches(op, t, o.page + x / PAGE_BYTES)
    requires var w2 := Fold(Step(w, Map(t, fd), o), ops, outcomes);
      && Running(w2, t) && w2.areas[t].dpagingEnd <= o.page
      && Tells(w2, FetchWord(t, o.page + x / PAGE_BYTES, x % PAGE_BYTES / WORD_BYTES), told) && Went(told)
    ensures o.page + x / PAGE_BYTES < w.areas[t].fileMapEnd
    ensures ByteOf(Value(told.word), x % WORD_BYTES) == w.files[fd].chain[x] as nat
  {
    hide Step, Fold, Tells, Went, Possible, GoesOn, Touches, Sound, LoadedPage, Value, ByteOf, InReach, PageCount, GoodAreas,
         WithMapping, FileRuns.Sized;
    MappedNow(w, t, fd, o);
    PageOfFile(w.files[fd], x);
    MappedWord(w, t, fd, o, ops, outcomes, x / PAGE_BYTES, x % PAGE_BYTES / WORD_BYTES, told);
  }

  /** The word k of page i of a mapping. */
  lemma MappedWord(w: World, t: int, fd: int, o: Outcome, ops: seq<Op>, outcomes: seq<Outcome>, i: nat, k: nat, told: Outcome)
    requires Sound(w) && FileRuns.Sized(w.files) && Tells(w, Map(t, fd), o) && Went(o)
    requires Running(w, t) && i < PageCount(w.files[fd].size) && k < ENTRIES && InReach(w.files[fd], i * PAGE_BYTES)
    requires o.page + i !in w.spaces[App(t)] && |outcomes| == |ops|
    requires forall op | op in ops :: Possible(op) && GoesOn(op, t) && !Touches(op, t, o.page + i)
    requires var w2 := Fold(Step(w, Map(t, fd), o), ops, outcomes);
      Running(w2, t) && w2.areas[t].dpagingEnd <= o.page && Tells(w2, FetchWord(t, o.page + i, k), told) && Went(told)
    ensures o.page + i < w.areas[t].fileMapEnd && told.Fetched? && told.word == LoadedPage(w.files[fd], i * PAGE_BYTES)[k]
  {
    hide Step, Fold, Tells, Went, Possible, GoesOn, Touches, Stores, Stays, Sound, LoadedPage, InReach, PageCount,
         FindFileMapping, GoodAreas, WithMapping, FileRuns.Sized;
    MappedNow(w, t, fd, o);
    NotStored(ops, t, o.page + i, k);
    var w1 := Step(w, Map(t, fd), o);
    FirstMapped(w.areas[t], fd, PageCount(w.files[fd].size), i);
    RunStays(w1, ops, outcomes, t, o.page + i, k);
    LaterFetch(w1, Fold(w1, ops, outcomes), t, FileMapping(o.page, w.areas[t].fileMapEnd, fd), i, k, told);
  }

  lemma MappedNow(w: World, t: int, fd: int, o: Outcome)
    requires Sound(w) && FileRuns.Sized(w.files) && Tells(w, Map(t, fd), o) && Went(o)
    ensures Running(w, t) && fd in w.files && Possible(Map(t, fd))
    ensures var w1, pages := Step(w, Map(t, fd), o), PageCount(w.files[fd].size);
      && pages <= w.areas[t].fileMapEnd && o.Returned? && o.page == w.areas[t].fileMapEnd - pages && GoodAreas(w.areas[t])
      && Running(w1, t) && w1.spaces == w.spaces && w1.files == w.files && w1.areas[t] == WithMapping(w.areas[t], fd, pages)
    ensures w.files[fd].size <= |w.files[fd].chain| && w.files[fd].size < FatFiles.SIZE_LIMIT
  {
    hide PageCount, GoodAreas, Behind;
  }

  lemma LaterFetch(w1: World, w2: World, t: int, m: FileMapping, i: nat, k: nat, told: Outcome)
    requires Stays(w1, w2, t, m.begin + i, k) && m.begin + i !in w2.spaces[App(t)] && w2.areas[t].dpagingEnd <= m.begin
    requires m.fd in w1.files && InReach(w1.files[m.fd], i * PAGE_BYTES)
    requires FindFileMapping(w1.areas[t].fileMaps, m.begin + i) == Some(m)
    requires Tells(w2, FetchWord(t, m.begin + i, k), told) && Went(told)
    ensures told.Fetched? && told.word == LoadedPage(w1.files[m.fd], i * PAGE_BYTES)[k]
  {
    hide LoadedPage, InReach, FindFileMapping;
    StillMapped(w1.areas[t].fileMaps, w2.areas[t].fileMaps, m.begin + i);
  }

  /** A page that holds a byte of a file is one of those that the file needs, and shows it there. */
  lemma PageOfFile(f: FileData, x: nat)
    requires x < f.size <= |f.chain| && f.size < FatFiles.SIZE_LIMIT
    ensures x / PAGE_BYTES < PageCount(f.size) && InReach(f, x / PAGE_BYTES * PAGE_BYTES)
    ensures x % PAGE_BYTES / WORD_BYTES < ENTRIES
    ensures ByteOf(Value(LoadedPage(f, x / PAGE_BYTES * PAGE_BYTES)[x % PAGE_BYTES / WORD_BYTES]), x % WORD_BYTES) == f.chain[x] as nat
  {
    var i, a := x / PAGE_BYTES, x % PAGE_BYTES;
    assert a % WORD_BYTES == x % WORD_BYTES;
    hide Value, ByteOf, LoadedPage;
    LoadedByte(f, i * PAGE_BYTES);
    assert PageByte(LoadedPage(f, i * PAGE_BYTES), a) == f.chain[x] as nat;
  }

  lemma FirstMapped(a: Areas, fd: int, pages: nat, i: nat)
    requires GoodAreas(a) && i < pages <= a.fileMapEnd
    ensures var n := a.fileMapEnd - pages;
            FindFileMapping(WithMapping(a, fd, pages).fileMaps, n + i) == Some(FileMapping(n, a.fileMapEnd, fd))
  {
    hide FindFileMapping;
    var n := a.fileMapEnd - pages;
    if m :| m in a.fileMaps && m.begin <= n + i {
      assert false;
    }
    LatePages.MappedNext(a, fd, pages, i);
  }

  /** Mappings made later do not hide earlier ones. */
  lemma {:induction false} StillMapped(maps: seq<FileMapping>, more: seq<FileMapping>, n: nat)
    requires maps <= more && FindFileMapping(maps, n).Some?
    ensures FindFileMapping(more, n) == FindFileMapping(maps, n)
  {
    if !(maps[0].begin <= n < maps[0].end) {
      StillMapped(maps[1..], more[1..], n);
    }
  }

  // ----- a program's start and end -----

  /** A launch that went well leaves a program running with an empty demand-paged range and no mapping; one that did not leaves
      none, and all memories but the image's as they were. */
  lemma ExecStarts(w: World, t: int, file: int, segments: seq<Segment>, args: Frame, o: Outcome)
    requires Possible(Exec(t, file, segments, args)) && Tells(w, Exec(t, file, segments, args), o)
    ensures var w' := Step(w, Exec(t, file, segments, args), o);
      && (Went(o) ==> !Running(w, t) && Running(w', t) && w'.areas[t].dpagingBegin == w'.areas[t].dpagingEnd
                      && w'.areas[t].fileMaps == [] && w'.areas[t].fileMapEnd == STACK_START)
      && (!Went(o) ==> w'.areas == w.areas && (w'.spaces == w.spaces || w'.spaces - {Image(file)} == w.spaces - {Image(file)}))
  {
    hide LaunchedSpace, LoadedView, EndPage;
  }

  /** A program that has ended has no memory and no areas, and all others have what they had. */
  lemma QuitEnds(w: World, t: int, o: Outcome)
    requires Tells(w, Quit(t), o)
    ensures var w' := Step(w, Quit(t), o);
      && (Went(o) ==> Running(w, t) && App(t) !in w'.spaces && t !in w'.areas)
      && w'.ends == w.ends && w'.spaces - {App(t)} == w.spaces - {App(t)} && w'.areas - {t} == w.areas - {t}
      && (!Went(o) ==> w' == w)
  {
  }

  /** A launched program's memory, page by page. */
  lemma LaunchedPages(image: Space, args: Frame, n: nat)
    requires BelowStack(image)
    ensures var space := LaunchedSpace(image, args);
      && (n in image ==> n in space && space[n] == image[n])
      && (n == ARGS_PAGE ==> n in space && space[n] == args)
      && (ARGS_PAGE - STACK_PAGES <= n < ARGS_PAGE ==> n in space && space[n] == ZeroFrame())
      && (n in space ==> n in image || ARGS_PAGE - STACK_PAGES <= n <= ARGS_PAGE)
  {
  }
}
