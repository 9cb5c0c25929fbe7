/** Applications over their whole lives: launching (LoadApp and ExecuteFile), page faults,
    stores and the end (CleanPageMaps and FreePML4), for any number of tasks interleaved. */
module Applications {
  import opened PageTree
  import opened PageSetup
  import opened PageCopy
  import opened Paging
  import opened Ownership
  import opened AppMemory
  import opened PageNumbers
  import opened AppSteps
  import opened AppLoader
  import opened ProgramImages
  import opened MappedPages
  import FatFiles

  /** A mapped file: page numbers begin .. end, and the descriptor its pages are loaded through. */
  datatype FileMapping = FileMapping(begin: nat, end: nat, fd: int)

  /** A task's demand-paged range, the low end of its file mappings, and the mappings. */
  datatype Areas = Areas(dpagingBegin: nat, dpagingEnd: nat, fileMapEnd: nat, fileMaps: seq<FileMapping>)

  /** A cached image: its map, and the page after its last one. */
  datatype AppLoad = AppLoad(root: nat, endPage: nat)

  /** Everything applications can observe: memories, areas, where cached images end, and open files. */
  datatype World = World(spaces: map<Owner, Space>, areas: map<int, Areas>, ends: map<int, nat>, files: map<int, FileData>)

  /** The first mapping that holds a page. */
  function FindFileMapping(maps: seq<FileMapping>, n: nat): (m: Option<FileMapping>)
    ensures m.Some? ==> m.value in maps && m.value.begin <= n < m.value.end
    ensures m.None? ==> forall x | x in maps :: !(x.begin <= n < x.end)
  {
    if |maps| == 0 then None
    else if maps[0].begin <= n < maps[0].end then Some(maps[0])
    else FindFileMapping(maps[1..], n)
  }

  /** Page n of a mapping can be loaded from its file as the file is now. */
  ghost predicate MappingInReach(m: FileMapping, files: map<int, FileData>, n: nat)
    requires m.begin <= n
  {
    m.fd in files && InReach(files[m.fd], (n - m.begin) * PAGE_BYTES)
  }

  lemma ReachIs(m: FileMapping, files: map<int, FileData>, n: nat)
    requires m.begin <= n && MappingInReach(m, files, n)
    ensures (n - m.begin) * PAGE_BYTES >= 0 && m.fd in files && InReach(files[m.fd], (n - m.begin) * PAGE_BYTES)
  {
  }

  /** A fault on page n is not on a mapped page that has no part of its file's chain any more. */
  ghost predicate PageInReach(areas: Areas, files: map<int, FileData>, n: nat) {
    var m := FindFileMapping(areas.fileMaps, n);
    areas.dpagingBegin <= n < areas.dpagingEnd || m.None? || MappingInReach(m.value, files, n)
  }

  /** What a fault on an unmapped page brings in, if anything: zeroes, or a part of a file as the file is at the fault. */
  ghost function FaultedIn(areas: Areas, files: map<int, FileData>, n: nat): Option<Frame> {
    if areas.dpagingBegin <= n < areas.dpagingEnd then Some(ZeroFrame())
    else
      var m := FindFileMapping(areas.fileMaps, n);
      if m.Some? && MappingInReach(m.value, files, n) then Some(LoadedPage(files[m.value.fd], (n - m.value.begin) * PAGE_BYTES))
      else None
  }

  /** An application's memory after it has touched page n: unmapped pages come in on the way. */
  ghost function Touched(space: Space, areas: Areas, files: map<int, FileData>, n: nat): Space {
    if n in space || FaultedIn(areas, files, n).None? then space else Put(space, n, FaultedIn(areas, files, n).value)
  }

  /** An application's memory after a store to word k of page n. */
  ghost function Written(space: Space, areas: Areas, files: map<int, FileData>, n: nat, k: nat, v: Word): Space
    requires n in Touched(space, areas, files, n) && k < ENTRIES
  {
    Put(Touched(space, areas, files, n), n, Touched(space, areas, files, n)[n][k := v])
  }

  function Extended(a: Areas, n: nat): Areas { a.(dpagingEnd := a.dpagingEnd + n) }

  function PageCount(size: nat): nat { (size + 4095) / 4096 }

  /** The areas after mapping an open file to so many pages. */
  function WithMapping(a: Areas, fd: int, pages: nat): Areas
    requires pages <= a.fileMapEnd
  {
    a.(fileMapEnd := a.fileMapEnd - pages,
       fileMaps := a.fileMaps + [FileMapping(a.fileMapEnd - pages, a.fileMapEnd, fd)])
  }

  lemma {:induction false} OneMoreMapping(maps: seq<FileMapping>, m: FileMapping, n: nat)
    ensures FindFileMapping(maps + [m], n) ==
            if FindFileMapping(maps, n).Some? then FindFileMapping(maps, n) else if m.begin <= n < m.end then Some(m) else None
  {
    if maps != [] {
      assert (maps + [m])[1..] == maps[1..] + [m];
      OneMoreMapping(maps[1..], m, n);
    } else {
      assert maps + [m] == [m];
    }
  }

  /** Every page of a task's areas can be loaded as the files are now. */
  ghost predicate AreasInReach(a: Areas, files: map<int, FileData>) { forall n: nat :: PageInReach(a, files, n) }

  /** The pages of a newly mapped file start inside it. */
  lemma MappingReached(a: Areas, files: map<int, FileData>, fd: int)
    requires fd in files && files[fd].size <= |files[fd].chain| && files[fd].size < FatFiles.SIZE_LIMIT
    requires AreasInReach(a, files) && PageCount(files[fd].size) <= a.fileMapEnd
    ensures AreasInReach(WithMapping(a, fd, PageCount(files[fd].size)), files)
  {
    var pages := PageCount(files[fd].size);
    var m := FileMapping(a.fileMapEnd - pages, a.fileMapEnd, fd);
    forall n: nat
      ensures PageInReach(WithMapping(a, fd, pages), files, n)
    {
      OneMoreMapping(a.fileMaps, m, n);
      assert PageInReach(a, files, n);
    }
  }

  /** New demand-paged pages do not depend on files. */
  lemma AreasReached(a: Areas, files: map<int, FileData>, n: nat)
    requires AreasInReach(a, files)
    ensures AreasInReach(Extended(a, n), files)
  {
    forall p: nat
      ensures PageInReach(Extended(a, n), files, p)
    {
      assert PageInReach(a, files, p);
    }
  }

  /** A freshly launched application's memory: the image, a zeroed stack and the arguments. */
  ghost function LaunchedSpace(image: Space, args: Frame): Space {
    Put(image + ZeroPages(ARGS_PAGE, 1), ARGS_PAGE, args) + ZeroPages(STACK_START, STACK_PAGES)
  }

  lemma AboveStackFree(image: Space, args: Frame)
    requires BelowStack(image)
    ensures forall p | InPages(p, STACK_START, STACK_PAGES) :: p !in Put(image + ZeroPages(ARGS_PAGE, 1), ARGS_PAGE, args)
    ensures Put(image + ZeroPages(ARGS_PAGE, 1), ARGS_PAGE, args) + ZeroPages(STACK_START, STACK_PAGES) == LaunchedSpace(image, args)
  {
  }

  /** Changing one owner's memory over and over is changing it once. */
  lemma ChangedAgain(s0: map<Owner, Space>, s1: map<Owner, Space>, s2: map<Owner, Space>, o: Owner, a: Space, b: Space)
    requires s1 == s0[o := a] && s2 == s1[o := b]
    ensures s2 == s0[o := b] && s1 - {o} == s0 - {o} && s1[o] == a && s2[o] == b
  {
  }

  /** A new application's areas: an empty demand-paged range after the image, no mapped file. */
  function LaunchAreas(endPage: nat): Areas {
    Areas(endPage, endPage, STACK_START, [])
  }

  lemma OneZeroPage(space: Space, n: nat)
    ensures space + ZeroPages(n, 1) == Put(space, n, ZeroFrame())
    ensures space + ZeroPages(n, 0) == space
    ensures forall page :: Put(Put(space, n, ZeroFrame()), n, page) == Put(space, n, page)
  {
    hide ZeroFrame;
    assert forall p: nat :: InPages(p, n, 1) <==> p == n;
    assert forall p: nat :: !InPages(p, n, 0);
  }

  lemma OnePage(s0: map<Owner, Space>, s1: map<Owner, Space>, o: Owner, n: nat, done: nat)
    requires o in s0 && done <= 1 && s1 == s0[o := s0[o] + ZeroPages(n, done)]
    ensures s1 == if done == 1 then s0[o := Put(s0[o], n, ZeroFrame())] else s0
  {
    OneZeroPage(s0[o], n);
    hide *;
    if done == 0 {
      assert s0[o := s0[o]] == s0;
    }
  }

  lemma LaunchAreasGood(endPage: nat)
    ensures GoodAreas(LaunchAreas(endPage))
  {
  }

  ghost function WithImage(spaces: map<Owner, Space>, file: int, segments: seq<Segment>): map<Owner, Space> {
    if Image(file) in spaces then spaces else spaces[Image(file) := LoadedView(segments)]
  }

  /** Where cached images end, once a file's is among them. */
  ghost function WithEnd(ends: map<int, nat>, file: int, segments: seq<Segment>): map<int, nat> {
    if file in ends then ends else ends[file := EndPage(segments)]
  }

  function EndsOf(appLoads: map<int, AppLoad>): map<int, nat> { map f | f in appLoads :: appLoads[f].endPage }

  lemma OneMoreEnd(appLoads: map<int, AppLoad>, file: int, load: AppLoad)
    ensures EndsOf(appLoads[file := load]) == EndsOf(appLoads)[file := load.endPage]
  {
  }

  ghost predicate BelowStack(space: Space) { forall n | n in space :: n < STACK_START }

  /** Loading an image keeps the invariant and adds what the image holds. */
  lemma ImageLoaded(s: State, m': Memory, file: int, root: nat, f: set<nat>)
    requires Ownership.Valid(s) && Image(file) !in s.roots && root in f && f !! s.used
    requires NewMap(s.mem, m', s.kernel, root, f - {root}) && AllReadOnly(m', root) && Below(m', root, 4, All) == f - {root}
    ensures Ownership.Valid(Cached(s, m', file, root, f))
    ensures Views(Cached(s, m', file, root, f)) == Views(s)[Image(file) := View(m', root)]
    ensures forall t :: FeetKept(s, Cached(s, m', file, root, f), t)
    ensures Foot(Cached(s, m', file, root, f), Image(file)) == f
  {
    hide Ownership.Valid, Views, View, Added, NewMap, Below, AllReadOnly, FeetKept, Foot;
    LoadStep(s, m', file, root, f);
    AddedFeetKept(s, Cached(s, m', file, root, f), Image(file), f);
    AddedViews(s, Cached(s, m', file, root, f), Image(file), f);
  }

  lemma AppLaunched(s: State, m1: Memory, m': Memory, t: int, file: int, root: nat, f: set<nat>)
    requires Ownership.Valid(s) && App(t) !in s.roots && Image(file) in s.roots
    requires root in f && f !! s.used && FreshRoot(s.mem, m1, s.kernel, root) && SameOutside(s.mem, m', f)
    requires Copied(m1, m', root, s.roots[Image(file)], 4, f - {root})
    ensures Ownership.Valid(Launched(s, m', t, file, root, f))
    ensures Views(Launched(s, m', t, file, root, f)) == Views(s)[App(t) := Views(s)[Image(file)]]
    ensures FeetKept(s, Launched(s, m', t, file, root, f), t)
  {
    hide Ownership.Valid, View, Added, FreshRoot, Copied, SameOutside, FeetKept;
    LaunchStep(s, m1, m', t, file, root, f);
    AddedFeetKept(s, Launched(s, m', t, file, root, f), App(t), f);
    AddedViews(s, Launched(s, m', t, file, root, f), App(t), f);
  }

  /** The map of an image or application is a tree of taken frames. */
  lemma OwnerReady(s: State, o: Owner)
    requires Ownership.Valid(s) && o in s.roots
    ensures Tree(s.mem, s.roots[o], 4) && {s.roots[o]} + Below(s.mem, s.roots[o], 4, All) <= s.used
    ensures s.roots[o] < |s.mem|
  {
    hide Below, Ownership.Valid, Reach;
    FootUsed(s, o);
    ReachCovers(s, o);
  }

  /** Page n is mapped and writable. */
  ghost predicate CanWrite(m: Memory, root: nat, n: nat) {
    Walk(m, root, 4, AddressOf(n)).Some? && Walk(m, root, 4, AddressOf(n)).value.writable
  }

  lemma FirstPageWritable(m: Memory, m': Memory, root: nat, from: nat, n: nat, f: set<nat>)
    requires UPPER <= from < LIMIT && SetUp(m, m', root, 4, AddressOf(from), n, true, f)
    ensures n > 0 ==> CanWrite(m', root, from)
  {
    hide Tree, Below, Walk, AddressOf;
    AddressOfNumber(from);
    assert PageSetUp(m, m', root, 4, AddressOf(from), n, true, f, AddressOf(from));
  }

  /** New zeroed pages in an application's memory. */
  lemma PagesAdded(s: State, m': Memory, t: int, from: nat, n: nat, f: set<nat>)
    requires Ownership.Valid(s) && App(t) in s.roots && f !! s.used && UPPER <= from < LIMIT && from + n <= LIMIT
    requires SetUp(s.mem, m', s.roots[App(t)], 4, AddressOf(from), n, true, f)
    requires forall p | InPages(p, from, n) :: p !in View(s.mem, s.roots[App(t)])
    ensures Ownership.Valid(Next(s, m', f)) && |m'| == |s.mem|
    ensures Views(Next(s, m', f)) == Views(s)[App(t) := View(s.mem, s.roots[App(t)]) + ZeroPages(from, n)]
    ensures n > 0 ==> CanWrite(m', s.roots[App(t)], from)
    ensures FeetKept(s, Next(s, m', f), t)
  {
    hide Ownership.Valid, View, AppChanged, SetUp, Views, AddressOf, FeetKept;
    FirstPageWritable(s.mem, m', s.roots[App(t)], from, n, f);
    SetUpFrames(s.mem, m', s.roots[App(t)], AddressOf(from), n, f);
    SetUpStep(s, m', t, from, n, f);
    AppFeetKept(s, Next(s, m', f), t, f);
    AppChangedViews(s, Next(s, m', f), t, f);
  }

  lemma PagePrivate(s: State, m': Memory, t: int, n: nat, p: nat, f: set<nat>)
    requires Ownership.Valid(s) && App(t) in s.roots && f == {p} && f !! s.used && UPPER <= n < LIMIT
    requires Privatized(s.mem, m', s.roots[App(t)], AddressOf(n), p)
    requires !Walk(s.mem, s.roots[App(t)], 4, AddressOf(n)).value.writable
    ensures Ownership.Valid(Next(s, m', f)) && Views(Next(s, m', f)) == Views(s)
    ensures CanWrite(m', s.roots[App(t)], n) && |m'| == |s.mem| && FeetKept(s, Next(s, m', f), t)
  {
    hide Ownership.Valid, View, AppChanged, AddressOf, Tree, Below, Seen;
    PrivatizedSeen(s.mem, m', s.roots[App(t)], AddressOf(n), p);
    hide Walk, Privatized, FeetKept;
    PrivatizeStep(s, m', t, n, p, f);
    AppFeetKept(s, Next(s, m', f), t, f);
    AppChangedViews(s, Next(s, m', f), t, f);
  }

  lemma PageStored(s: State, m': Memory, t: int, n: nat, content: Frame)
    requires Ownership.Valid(s) && App(t) in s.roots && UPPER <= n < LIMIT
    requires PageWritten(s.mem, m', s.roots[App(t)], AddressOf(n), content)
    requires CanWrite(s.mem, s.roots[App(t)], n)
    ensures Ownership.Valid(Next(s, m', {})) && Next(s, m', {}) == s.(mem := m')
    ensures Views(Next(s, m', {})) == Views(s)[App(t) := Put(View(s.mem, s.roots[App(t)]), n, content)]
    ensures FeetKept(s, Next(s, m', {}), t)
  {
    hide Ownership.Valid, View, AppChanged, AddressOf, Tree, Below, Walk, Views, PageWritten, FeetKept;
    StoreStep(s, m', t, n, content);
    AppFeetKept(s, Next(s, m', {}), t, {});
    AppChangedViews(s, Next(s, m', {}), t, {});
  }

  /** Page n of an application is mapped iff it is in the application's memory. */
  lemma MappedPage(s: State, t: int, n: nat)
    requires Ownership.Valid(s) && App(t) in s.roots && UPPER <= n < LIMIT
    ensures Inside(AddressOf(n), 4) && Tree(s.mem, s.roots[App(t)], 4)
    ensures n in View(s.mem, s.roots[App(t)]) <==> Walk(s.mem, s.roots[App(t)], 4, AddressOf(n)).Some?
    ensures Walk(s.mem, s.roots[App(t)], 4, AddressOf(n)).Some? ==>
              && Walk(s.mem, s.roots[App(t)], 4, AddressOf(n)).value.frame < |s.mem|
              && View(s.mem, s.roots[App(t)])[n] == s.mem[Walk(s.mem, s.roots[App(t)], 4, AddressOf(n)).value.frame]
  {
    hide Tree, Below, Walk, AddressOf, Ownership.Valid;
    OwnerReady(s, App(t));
    AddressOfNumber(n);
    if Walk(s.mem, s.roots[App(t)], 4, AddressOf(n)).Some? {
      LeafFrame(s.mem, s.roots[App(t)], AddressOf(n));
    }
  }

  /** Nobody but application t gained or lost frames, nor did the kernel. */
  ghost predicate FeetKept(s: State, s': State, t: int) {
    && s'.base == s.base
    && forall o | o in s.roots && o != App(t) :: o in s'.roots && Foot(s', o) == Foot(s, o)
  }

  lemma FeetLaws(t: int)
    ensures forall s :: FeetKept(s, s, t)
    ensures forall s, s1, s2 :: FeetKept(s, s1, t) && FeetKept(s1, s2, t) ==> FeetKept(s, s2, t)
  {
    hide Foot;
  }

  lemma AppFeetKept(s: State, s': State, t: int, f: set<nat>)
    requires AppChanged(s, s', t, f)
    ensures FeetKept(s, s', t)
  {
    AppChangedRoots(s, s', t, f);
    forall o | o in s.roots && o != App(t)
      ensures Foot(s', o) == Foot(s, o)
    {
      AppChangedOther(s, s', t, f, o);
    }
    hide Foot, Ownership.Valid;
  }

  lemma AddedFeetKept(s: State, s': State, o: Owner, f: set<nat>)
    requires Added(s, s', o, f)
    ensures forall t :: FeetKept(s, s', t)
    ensures o in s'.roots && Foot(s', o) == f
  {
    forall p | p in s.roots
      ensures Foot(s', p) == Foot(s, p)
    {
      AddedOther(s, s', o, f, p);
    }
    hide Foot, Ownership.Valid;
  }

  lemma ViewKeys(s: State)
    ensures Views(s).Keys == s.roots.Keys
    ensures forall o | o in s.roots :: Views(s)[o] == View(s.mem, s.roots[o])
  {
  }

  /** The state with application t given up, its frames staying taken. */
  ghost function Abandoned(s: State, t: int): State
    requires App(t) in s.roots
  {
    s.(roots := s.roots - {App(t)}, base := s.base + Foot(s, App(t)))
  }

  lemma AppAbandoned(s: State, t: int)
    requires Ownership.Valid(s) && App(t) in s.roots
    ensures Ownership.Valid(Abandoned(s, t)) && Views(Abandoned(s, t)) == Views(s) - {App(t)}
  {
    hide Ownership.Valid, Views, Foot;
    RemovedViews(s, Abandoned(s, t), t, false);
  }

  /** The state with application t ended and its frames free. */
  ghost function Ended(s: State, m': Memory, t: int): State
    requires App(t) in s.roots
  {
    s.(mem := m', roots := s.roots - {App(t)}, used := s.used - Foot(s, App(t)))
  }

  /** Cleaning an application's map and freeing its top-level table frees exactly its own frames. */
  lemma AppEnded(s: State, m': Memory, t: int)
    requires Ownership.Valid(s) && App(t) in s.roots
    requires CleanedUpTo(s.mem, m', s.roots[App(t)], 4, ENTRIES)
    ensures s.roots[App(t)] in s.used && |m'| == |s.mem|
    ensures Ended(s, m', t).used == s.used - Below(s.mem, s.roots[App(t)], 4, Writable) - {s.roots[App(t)]}
    ensures Ownership.Valid(Ended(s, m', t)) && Views(Ended(s, m', t)) == Views(s) - {App(t)}
    ensures FeetKept(s, Ended(s, m', t), t)
  {
    hide Ownership.Valid, Views, Tree, Below, UpTo;
    OwnRoot(s, t);
    FootUsed(s, App(t));
    UpToAll(s.mem, s.roots[App(t)], 4, PageTree.Tables);
    WritableFrames(s.mem, s.roots[App(t)], 4);
    RemovedViews(s, Ended(s, m', t), t, true);
    forall o | o in s.roots && o != App(t)
      ensures Foot(Ended(s, m', t), o) == Foot(s, o)
    {
      RemovedOther(s, Ended(s, m', t), t, true, o);
    }
  }

  lemma KernelFrame(s: State)
    requires Ownership.Valid(s)
    ensures s.kernel in s.used
  {
    BaseUsed(s);
  }

  /** Mappings lie below one another and above the next free address. */
  ghost predicate GoodAreas(a: Areas) {
    && (forall i | 0 <= i < |a.fileMaps| ::
          a.fileMapEnd <= a.fileMaps[i].begin <= a.fileMaps[i].end)
    && (forall i, j | 0 <= i < j < |a.fileMaps| :: a.fileMaps[j].end <= a.fileMaps[i].begin)
  }

  /** The executable tables agree with who owns which map. */
  ghost predicate Agree(contexts: map<int, nat>, appLoads: map<int, AppLoad>, areas: map<int, Areas>,
                        roots: map<Owner, nat>, spaces: map<Owner, Space>)
  {
    && (forall t :: t in contexts <==> App(t) in roots)
    && (forall t | t in contexts :: contexts[t] == roots[App(t)])
    && (forall f :: f in appLoads <==> Image(f) in roots)
    && (forall f | f in appLoads :: appLoads[f].root == roots[Image(f)])
    && contexts.Keys == areas.Keys
    && (forall t | t in areas :: GoodAreas(areas[t]))
    && (forall f | f in appLoads :: Image(f) in spaces && BelowStack(spaces[Image(f)]))
  }

  lemma AgreeLoaded(contexts: map<int, nat>, appLoads: map<int, AppLoad>, areas: map<int, Areas>, roots: map<Owner, nat>,
                    spaces: map<Owner, Space>, file: int, load: AppLoad, space: Space)
    requires Agree(contexts, appLoads, areas, roots, spaces) && file !in appLoads && BelowStack(space)
    ensures Image(file) !in roots
    ensures Agree(contexts, appLoads[file := load], areas, roots[Image(file) := load.root], spaces[Image(file) := space])
  {
  }

  lemma AgreeLaunched(contexts: map<int, nat>, appLoads: map<int, AppLoad>, areas: map<int, Areas>, roots: map<Owner, nat>,
                      spaces: map<Owner, Space>, t: int, root: nat, space: Space, a: Areas)
    requires Agree(contexts, appLoads, areas, roots, spaces) && t !in contexts && GoodAreas(a)
    ensures App(t) !in roots && contexts[t := root] - {t} == contexts && areas[t := a] - {t} == areas
    ensures Agree(contexts[t := root], appLoads, areas[t := a], roots[App(t) := root], spaces[App(t) := space])
  {
  }

  lemma AgreeApp(contexts: map<int, nat>, appLoads: map<int, AppLoad>, areas: map<int, Areas>, roots: map<Owner, nat>,
                 spaces: map<Owner, Space>, t: int)
    requires Agree(contexts, appLoads, areas, roots, spaces) && t in contexts
    ensures App(t) in roots && contexts[t] == roots[App(t)] && t in areas && GoodAreas(areas[t])
    ensures Agree(contexts - {t}, appLoads, areas - {t}, roots - {App(t)}, spaces - {App(t)})
    ensures forall a | GoodAreas(a) :: Agree(contexts, appLoads, areas[t := a], roots, spaces)
  {
  }

  lemma AgreeChanged(contexts: map<int, nat>, appLoads: map<int, AppLoad>, areas: map<int, Areas>, roots: map<Owner, nat>,
                     spaces: map<Owner, Space>, t: int, space: Space)
    requires Agree(contexts, appLoads, areas, roots, spaces) && t in contexts
    ensures Agree(contexts, appLoads, areas, roots, spaces[App(t) := space])
  {
  }

  lemma AgreeImage(contexts: map<int, nat>, appLoads: map<int, AppLoad>, areas: map<int, Areas>, roots: map<Owner, nat>,
                   spaces: map<Owner, Space>, file: int)
    requires Agree(contexts, appLoads, areas, roots, spaces)
    ensures file in appLoads <==> Image(file) in roots
    ensures file in appLoads ==>
              appLoads[file].root == roots[Image(file)] && Image(file) in spaces && BelowStack(spaces[Image(file)])
  {
  }

  class AppSystem {
    const paging: PagedMemory
    /** The frame of the kernel's own top-level map. */
    const kernelRoot: nat
    /** The open files. */
    const files: map<int, FatFiles.FileDescriptor>
    /** CR3 of the tasks that run an application, and the cached images by file. */
    var contexts: map<int, nat>
    var appLoads: map<int, AppLoad>
    var areas: map<int, Areas>
    ghost var state: State

    ghost predicate Valid()
      reads this, paging, paging.manager, paging.manager.allocMap
    {
      && paging.Valid() && state.mem == paging.mem && state.used == paging.Allocated() && state.kernel == kernelRoot
      && Ownership.Valid(state) && kernelRoot < |paging.mem|
      && Agree(contexts, appLoads, areas, state.roots, Views(state))
    }

    ghost function Spaces(): map<Owner, Space>
      reads this
    {
      Views(state)
    }

    ghost function Now(table: map<int, FileData>): World
      reads this
    {
      World(Spaces(), areas, EndsOf(appLoads), table)
    }

    /** The open files hold what a table says. */
    ghost predicate FilesHold(table: map<int, FileData>)
      reads set i | i in files :: files[i].volume, set i | i in files :: files[i].volume.fat
      reads set i | i in files :: files[i].volume.data, set i | i in files :: files[i].entry
    {
      && (forall i :: i in table <==> i in files)
      && forall i | i in files :: files[i].Mounted() && DataOf(files[i]) == table[i]
    }

    lemma OpenFile(table: map<int, FileData>, fd: int)
      requires FilesHold(table)
      ensures fd in table <==> fd in files
      ensures fd in files ==> files[fd].Mounted() && DataOf(files[fd]) == table[fd]
      ensures fd in files ==> files[fd].entry.fileSize == table[fd].size <= |table[fd].chain| && table[fd].size < FatFiles.SIZE_LIMIT
    {
      if fd in files {
        DataIs(files[fd]);
      }
    }

    /** A task runs an application iff it has a memory and areas; a file is cached iff its image is. */
    lemma WhoIsThere(t: int, file: int)
      requires Valid()
      ensures t in contexts <==> App(t) in Spaces()
      ensures t in contexts <==> t in areas
      ensures file in appLoads <==> Image(file) in Spaces()
    {
      ViewKeys(state);
      assert t in contexts.Keys <==> t in areas.Keys;
    }

    /** Task t had no application before, and the other tasks' entries are as they were. */
    ghost predicate OnlyTask(t: int, spaces: map<Owner, Space>, areasBefore: map<int, Areas>, was: map<int, nat>)
      reads this
    {
      App(t) !in spaces && contexts - {t} == was && areas - {t} == areasBefore
    }

    constructor (paging: PagedMemory, kernelRoot: nat, files: map<int, FatFiles.FileDescriptor>)
      requires paging.Valid() && kernelRoot in paging.Allocated() && kernelRoot < |paging.mem|
      ensures Valid() && Spaces() == map[] && areas == map[]
      ensures this.paging == paging && this.files == files && state.base == paging.Allocated()
    {
      this.paging, this.kernelRoot, this.files := paging, kernelRoot, files;
      contexts, appLoads, areas := map[], map[], map[];
      state := State(paging.mem, paging.Allocated(), paging.Allocated(), kernelRoot, map[], map[]);
    }

    // ---------------------------------------------------------------- launching

    /** The first half of LoadApp on a file that is not cached: loads and caches its image. */
    method LoadImage(file: int, segments: seq<Segment>) returns (ok: bool)
      requires Valid() && file !in appLoads && Loadable(segments)
      modifies this`appLoads, this`state, paging`mem, paging.manager.allocMap
      ensures Valid()
      ensures ok ==> file in appLoads && Spaces() == old(Spaces())[Image(file) := LoadedView(segments)]
      ensures EndsOf(appLoads) == if ok then old(EndsOf(appLoads))[file := EndPage(segments)] else old(EndsOf(appLoads))
      ensures !ok ==> Spaces() == old(Spaces()) && paging.Exhausted()
      ensures ok ==> (forall t :: FeetKept(old(state), state, t))
      ensures ok ==> Image(file) in state.roots && paging.Allocated() == old(paging.Allocated()) + Foot(state, Image(file))
    {
      hide Ownership.Valid, Views, View, AllReadOnly, Tree, Below, LoadedView, Loadable, NewMap, SameOutside, Agree, FeetKept;
      KernelFrame(state);
      AgreeImage(contexts, appLoads, areas, state.roots, Views(state), file);
      var root, last;
      ghost var f;
      root, last, ok, f := BuildImage(paging, kernelRoot, segments);
      if !ok {
        TakenStep(state, paging.mem, f);
        state := Taken(state, paging.mem, f);
        return;
      }
      var load := AppLoad(root, last);
      ImageLoaded(state, paging.mem, file, root, f);
      AgreeLoaded(contexts, appLoads, areas, state.roots, Views(state), file, load, View(paging.mem, root));
      OneMoreEnd(appLoads, file, load);
      appLoads := appLoads[file := load];
      state := Cached(state, paging.mem, file, root, f);
    }
  
    /** The second half of LoadApp: a task's own copy of the image's map. */
    method LaunchFrom(t: int, file: int) returns (ok: bool)
      requires Valid() && t !in contexts && file in appLoads
      modifies this`contexts, this`areas, this`state, paging`mem, paging.manager.allocMap
      ensures Valid()
      ensures ok ==> t in contexts && Spaces() == old(Spaces())[App(t) := old(Spaces())[Image(file)]]
      ensures ok ==> areas == old(areas)[t := Areas(0, 0, 0, [])] && OnlyTask(t, old(Spaces()), old(areas), old(contexts))
      ensures !ok ==> Spaces() == old(Spaces()) && areas == old(areas) && contexts == old(contexts)
      ensures !ok ==> paging.Exhausted()
      ensures ok ==> FeetKept(old(state), state, t)
    {
      hide Ownership.Valid, View, Views, Tree, Below, FreshRoot, Copied, SameOutside, Agree, FeetKept;
      KernelFrame(state);
      ViewKeys(state);
      AgreeImage(contexts, appLoads, areas, state.roots, Views(state), file);
      OwnerReady(state, Image(file));
      var root;
      ghost var m1, f;
      root, ok, m1, f := BuildCopy(paging, kernelRoot, appLoads[file].root);
      if !ok {
        TakenStep(state, paging.mem, f);
        state := Taken(state, paging.mem, f);
        return;
      }
      AgreeLaunched(contexts, appLoads, areas, state.roots, Views(state), t, root, Views(state)[Image(file)], Areas(0, 0, 0, []));
      AppLaunched(state, m1, paging.mem, t, file, root, f);
      contexts, areas := contexts[t := root], areas[t := Areas(0, 0, 0, [])];
      state := Launched(state, paging.mem, t, file, root, f);
    }

    /** LoadApp: the image comes from the cache or is loaded and cached; the application gets
        a copy of its map. */
    method LoadApp(t: int, file: int, segments: seq<Segment>) returns (ok: bool)
      requires Valid() && t !in contexts && Loadable(segments)
      modifies this`appLoads, this`contexts, this`areas, this`state, paging`mem, paging.manager.allocMap
      ensures Valid()
      ensures ok ==> t in contexts && areas == old(areas)[t := Areas(0, 0, 0, [])] && OnlyTask(t, old(Spaces()), old(areas), old(contexts))
      ensures ok ==> var loaded := WithImage(old(Spaces()), file, segments);
                     Image(file) in loaded && Spaces() == loaded[App(t) := loaded[Image(file)]]
      ensures EndsOf(appLoads) == if file in appLoads then WithEnd(old(EndsOf(appLoads)), file, segments)
                                  else old(EndsOf(appLoads))
      ensures ok ==> file in appLoads
      ensures ok ==> BelowStack(Spaces()[App(t)])
      ensures !ok ==> areas == old(areas) && contexts == old(contexts) && paging.Exhausted()
      ensures !ok ==> Spaces() == old(Spaces()) || Spaces() == WithImage(old(Spaces()), file, segments)
      ensures ok ==> FeetKept(old(state), state, t)
    {
      hide Ownership.Valid, Views, LoadedView, Agree, FeetKept;
      FeetLaws(t);
      ViewKeys(state);
      AgreeImage(contexts, appLoads, areas, state.roots, Views(state), file);
      if file !in appLoads {
        ok := LoadImage(file, segments);
        if !ok {
          return;
        }
      }
      AgreeImage(contexts, appLoads, areas, state.roots, Views(state), file);
      ok := LaunchFrom(t, file);
    }
  
    /** SetupPageMaps for application t: n zeroed writable pages, or, when memory runs out, fewer. */
    method SetupPages(t: int, from: nat, n: nat) returns (ok: bool, ghost done: nat)
      requires Valid() && t in contexts && UPPER <= from < LIMIT && from + n <= LIMIT
      requires App(t) in Spaces() && forall p | InPages(p, from, n) :: p !in Spaces()[App(t)]
      modifies this`state, paging`mem, paging.manager.allocMap
      ensures Valid() && if ok then done == n else done < n && paging.Exhausted()
      ensures Spaces() == old(Spaces())[App(t) := old(Spaces())[App(t)] + ZeroPages(from, done)]
      ensures App(t) in state.roots && (done > 0 ==> CanWrite(state.mem, state.roots[App(t)], from))
      ensures FeetKept(old(state), state, t)
    {
      hide Ownership.Valid, View, Views, Tree, Below, Agree, SetUp, AddressOf, Span, Index, ZeroPages, FeetKept;
      AgreeApp(contexts, appLoads, areas, state.roots, Views(state), t);
      ViewKeys(state);
      OwnerReady(state, App(t));
      AddressOfNumber(from);
      Spans();
      var remain;
      ghost var f;
      remain, ok, done, f := paging.SetupPageMap(contexts[t], 4, AddressOf(from), n, true);
      assert forall p | InPages(p, from, done) :: InPages(p, from, n);
      PagesAdded(state, paging.mem, t, from, done, f);
      AgreeChanged(contexts, appLoads, areas, state.roots, Views(state), t,
                   View(state.mem, state.roots[App(t)]) + ZeroPages(from, done));
      state := Next(state, paging.mem, f);
    }

    /** The kernel or the processor overwrites a page that application t may write. */
    method StorePage(t: int, n: nat, content: Frame)
      requires Valid() && t in contexts && UPPER <= n < LIMIT && App(t) in state.roots
      requires CanWrite(state.mem, state.roots[App(t)], n)
      modifies this`state, paging`mem
      ensures Valid() && App(t) in old(Spaces()) && App(t) in state.roots
      ensures Spaces() == old(Spaces())[App(t) := Put(old(Spaces())[App(t)], n, content)]
      ensures FeetKept(old(state), state, t)
    {
      hide Ownership.Valid, View, Views, Tree, Below, Agree, AddressOf, Walk, FeetKept;
      AgreeApp(contexts, appLoads, areas, state.roots, Views(state), t);
      ViewKeys(state);
      MappedPage(state, t, n);
      var page := paging.Translate(contexts[t], 4, AddressOf(n));
      paging.mem := paging.mem[page := content];
      PageStored(state, paging.mem, t, n, content);
      AgreeChanged(contexts, appLoads, areas, state.roots, Views(state), t,
                   Put(View(state.mem, state.roots[App(t)]), n, content));
      state := Next(state, paging.mem, {});
    }

    /** The task ends: CleanPageMaps from the start of the upper half, then FreePML4. All frames
        that were the application's alone are free again, and no others. */
    method Exit(t: int)
      requires Valid() && t in contexts
      modifies this`contexts, this`areas, this`state, paging`mem, paging.manager.allocMap
      ensures Valid() && contexts == old(contexts) - {t} && areas == old(areas) - {t}
      ensures Spaces() == old(Spaces()) - {App(t)}
      ensures App(t) in old(state).roots && paging.Allocated() == old(paging.Allocated()) - Foot(old(state), App(t))
      ensures state.base == old(state).base
      ensures FeetKept(old(state), state, t)
    {
      hide Ownership.Valid, View, Views, Tree, Below, Agree, CleanedUpTo, UpTo, Foot, FeetKept;
      AgreeApp(contexts, appLoads, areas, state.roots, Views(state), t);
      OwnerReady(state, App(t));
      BelowSubset(paging.mem, contexts[t], 4, Writable);
      paging.CleanPageMap(contexts[t], 4, Address(256, 0, 0, 0));
      AppEnded(state, paging.mem, t);
      paging.manager.Free(contexts[t], 1);
      contexts, areas := contexts - {t}, areas - {t};
      state := Ended(state, paging.mem, t);
    }
  
    /** ExecuteFile up to the jump into the application: the image's copy, one page of arguments
        (written by the kernel), the stack, and the task's areas. A launch that runs out of
        memory on the way leaves no application; frames it took stay taken. */
    method ExecuteFile(t: int, file: int, segments: seq<Segment>, args: Frame) returns (ok: bool)
      requires Valid() && t !in contexts && Loadable(segments)
      modifies this, paging`mem, paging.manager.allocMap
      ensures Valid()
      ensures EndsOf(appLoads) == if file in appLoads then WithEnd(old(EndsOf(appLoads)), file, segments)
                                  else old(EndsOf(appLoads))
      ensures ok ==> t in contexts && file in EndsOf(appLoads) && areas == old(areas)[t := LaunchAreas(EndsOf(appLoads)[file])]
      ensures ok && file !in old(appLoads) ==> EndsAt(segments, EndsOf(appLoads)[file])
      ensures ok ==> var loaded := WithImage(old(Spaces()), file, segments);
                     Image(file) in loaded && Spaces() == loaded[App(t) := LaunchedSpace(loaded[Image(file)], args)]
      ensures !ok ==> areas == old(areas) && contexts == old(contexts) && paging.Exhausted()
      ensures !ok ==> Spaces() == old(Spaces()) || Spaces() == WithImage(old(Spaces()), file, segments)
      ensures ok ==> FeetKept(old(state), state, t)
    {
      hide Ownership.Valid, Views, View, LoadedView, Agree, LaunchedSpace, LaunchAreas, FeetKept, EndsAt, EndPage;
      FeetLaws(t);
      EndRightBehind(segments);
      ok := LoadApp(t, file, segments);
      if !ok {
        return;
      }
      ok := SetupUserPages(t, args);
      if !ok {
        GiveUp(t);
        return;
      }
      LaunchAreasGood(appLoads[file].endPage);
      SetAreas(t, LaunchAreas(appLoads[file].endPage));
    }

    /** The arguments' page, which the kernel fills, and the stack. */
    method SetupUserPages(t: int, args: Frame) returns (ok: bool)
      requires Valid() && t in contexts && App(t) in Spaces() && BelowStack(Spaces()[App(t)])
      modifies this`state, paging`mem, paging.manager.allocMap
      ensures Valid()
      ensures ok ==> Spaces() == old(Spaces())[App(t) := LaunchedSpace(old(Spaces())[App(t)], args)]
      ensures !ok ==> Spaces() - {App(t)} == old(Spaces()) - {App(t)} && paging.Exhausted()
      ensures FeetKept(old(state), state, t)
    {
      hide Ownership.Valid, Views, View, Agree, AddressOf, CanWrite, FeetKept, ZeroPages, Put, LaunchedSpace;
      FeetLaws(t);
      ghost var done;
      ghost var s0 := Spaces();
      AboveStackFree(s0[App(t)], args);
      ok, done := SetupPages(t, ARGS_PAGE, 1);
      ghost var s1 := Spaces();
      ChangedAgain(s0, s1, s1, App(t), s1[App(t)], s1[App(t)]);
      if !ok {
        return;
      }
      StorePage(t, ARGS_PAGE, args);
      ghost var s2 := Spaces();
      ChangedAgain(s0, s1, s2, App(t), s1[App(t)], s2[App(t)]);
      ok, done := SetupPages(t, STACK_START, STACK_PAGES);
      ChangedAgain(s0, s2, Spaces(), App(t), s2[App(t)], Spaces()[App(t)]);
      ChangedAgain(s0, Spaces(), Spaces(), App(t), Spaces()[App(t)], Spaces()[App(t)]);
    }

    /** The application's map is left behind. */
    method GiveUp(t: int)
      requires Valid() && t in contexts
      modifies this`contexts, this`areas, this`state
      ensures Valid() && contexts == old(contexts) - {t} && areas == old(areas) - {t}
      ensures Spaces() == old(Spaces()) - {App(t)}
    {
      hide Ownership.Valid, Views, View, Agree, Foot;
      AgreeApp(contexts, appLoads, areas, state.roots, Views(state), t);
      AppAbandoned(state, t);
      contexts, areas := contexts - {t}, areas - {t};
      state := Abandoned(state, t);
    }

    method SetAreas(t: int, a: Areas)
      requires Valid() && t in contexts && GoodAreas(a)
      modifies this`areas
      ensures Valid() && areas == old(areas)[t := a]
    {
      hide Ownership.Valid, Views, View, Agree;
      AgreeApp(contexts, appLoads, areas, state.roots, Views(state), t);
      areas := areas[t := a];
    }
  
    // ---------------------------------------------------------------- page faults

    /** The fault on a store to a page that is mapped read-only. */
    method CopyPage(t: int, n: nat) returns (ok: bool)
      requires Valid() && t in contexts && App(t) in state.roots && UPPER <= n < LIMIT && n in View(state.mem, state.roots[App(t)])
      requires !CanWrite(state.mem, state.roots[App(t)], n)
      modifies this`state, paging`mem, paging.manager.allocMap
      ensures Valid() && Spaces() == old(Spaces()) && App(t) in state.roots
      ensures if ok then CanWrite(state.mem, state.roots[App(t)], n) else paging.Exhausted()
      ensures FeetKept(old(state), state, t)
    {
      hide Ownership.Valid, Views, View, Tree, Below, Agree, AddressOf, Walk, Privatized, FeetKept;
      FeetLaws(t);
      AgreeApp(contexts, appLoads, areas, state.roots, Views(state), t);
      OwnerReady(state, App(t));
      MappedPage(state, t, n);
      var p := paging.CopyOnePage(contexts[t], AddressOf(n));
      if p.None? {
        return false;
      }
      PagePrivate(state, paging.mem, t, n, p.value, {p.value});
      state := Next(state, paging.mem, {p.value});
      ok := true;
    }

    /** HandlePageFault. A present page was stored to: it is copied. A page that is not present
        is given zeroes, or its part of a mapped file, if it lies in one of the task's areas. */
    method HandlePageFault(t: int, n: nat, present: bool, rw: bool, ghost table: map<int, FileData>) returns (ok: bool)
      requires Valid() && t in contexts && App(t) in state.roots && UPPER <= n < LIMIT
      requires present <==> n in View(state.mem, state.roots[App(t)])
      requires FilesHold(table) && (t in areas ==> PageInReach(areas[t], table, n))
      requires present && rw ==> !CanWrite(state.mem, state.roots[App(t)], n)
      modifies this`state, paging`mem, paging.manager.allocMap
      ensures Valid() && App(t) in old(Spaces()) && t in areas && App(t) in state.roots
      ensures present && !rw ==> !ok
      ensures !ok && (present ==> rw) && (present || FaultedIn(areas[t], table, n).Some?) ==> paging.Exhausted()
      ensures present || !ok ==> Spaces() == old(Spaces())
      ensures ok && present ==> CanWrite(state.mem, state.roots[App(t)], n)
      ensures ok && !present ==>
                && FaultedIn(areas[t], table, n).Some?
                && Spaces() == old(Spaces())[App(t) := Put(old(Spaces())[App(t)], n, FaultedIn(areas[t], table, n).value)]
      ensures FeetKept(old(state), state, t)
    {
      hide Ownership.Valid, Views, View, Tree, Below, Agree, AddressOf, CanWrite, FeetKept, FilesHold, MappingInReach, InReach, LoadedPage;
      FeetLaws(t);
      AgreeApp(contexts, appLoads, areas, state.roots, Views(state), t);
      ViewKeys(state);
      if present && rw {
        ok := CopyPage(t, n);
        return;
      } else if present {
        return false;
      }
      var a := areas[t];
      if a.dpagingBegin <= n < a.dpagingEnd {
        ok := SetupZeroPage(t, n);
        return;
      }
      var m := FindFileMapping(a.fileMaps, n);
      if m.None? {
        return false;
      }
      ok := PreparePageCache(t, n, m.value, table);
    }

    /** A page of an open file. */
    method LoadFrom(fd: int, offset: nat, ghost table: map<int, FileData>) returns (page: Frame)
      requires FilesHold(table) && fd in table && InReach(table[fd], offset)
      ensures page == LoadedPage(table[fd], offset)
    {
      hide FilesHold, InReach, LoadedPage, DataOf, FatFiles.FileDescriptor.Mounted;
      OpenFile(table, fd);
      page := LoadPage(files[fd], offset);
    }

    /** A page of a mapped file: a zeroed page into which the file's bytes are loaded. */
    method PreparePageCache(t: int, n: nat, m: FileMapping, ghost table: map<int, FileData>) returns (ok: bool)
      requires Valid() && t in contexts && UPPER <= n < LIMIT && m.begin <= n
      requires FilesHold(table) && MappingInReach(m, table, n)
      requires App(t) in Spaces() && n !in Spaces()[App(t)]
      modifies this`state, paging`mem, paging.manager.allocMap
      ensures Valid() && App(t) in state.roots
      ensures Spaces() == if ok then old(Spaces())[App(t) := Put(old(Spaces())[App(t)], n, LoadedPage(table[m.fd], (n - m.begin) * PAGE_BYTES))]
                          else old(Spaces())
      ensures !ok ==> paging.Exhausted()
      ensures FeetKept(old(state), state, t)
    {
      hide *;
      FeetLaws(t);
      ReachIs(m, table, n);
      ghost var s0 := Spaces();
      ok := SetupZeroPage(t, n);
      OneZeroPage(s0[App(t)], n);
      if ok {
        var page := LoadFrom(m.fd, (n - m.begin) * PAGE_BYTES, table);
        ghost var s1 := Spaces();
        StorePage(t, n, page);
        ChangedAgain(s0, s1, Spaces(), App(t), s1[App(t)], Spaces()[App(t)]);
      }
    }

    /** SetupPageMaps for one page. */
    method SetupZeroPage(t: int, n: nat) returns (ok: bool)
      requires Valid() && t in contexts && UPPER <= n < LIMIT && App(t) in Spaces() && n !in Spaces()[App(t)]
      modifies this`state, paging`mem, paging.manager.allocMap
      ensures Valid() && App(t) in state.roots && (if ok then CanWrite(state.mem, state.roots[App(t)], n) else paging.Exhausted())
      ensures Spaces() == if ok then old(Spaces())[App(t) := Put(old(Spaces())[App(t)], n, ZeroFrame())] else old(Spaces())
      ensures FeetKept(old(state), state, t)
    {
      hide Ownership.Valid, Views, View, Agree, AddressOf, CanWrite, FeetKept, Put, ZeroFrame, ZeroPages;
      ghost var done;
      ghost var s0 := Spaces();
      ok, done := SetupPages(t, n, 1);
      OnePage(s0, Spaces(), App(t), n, done);
    }
  
    // ---------------------------------------------------------------- what applications do

    /** Brings page n of a running application in if it is not mapped. */
    method TouchPage(t: int, n: nat, rw: bool, ghost table: map<int, FileData>) returns (ok: bool)
      requires Valid() && t in contexts && UPPER <= n < LIMIT
      requires FilesHold(table) && (t in areas ==> PageInReach(areas[t], table, n))
      modifies this`state, paging`mem, paging.manager.allocMap
      ensures Valid() && App(t) in old(Spaces()) && t in areas && App(t) in Spaces() && App(t) in state.roots
      ensures !ok ==> Spaces() == old(Spaces())
      ensures !ok ==> n !in old(Spaces())[App(t)] && (FaultedIn(areas[t], table, n).Some? ==> paging.Exhausted())
      ensures !ok && n in Touched(old(Spaces())[App(t)], areas[t], table, n) ==> paging.Exhausted()
      ensures ok ==> Spaces() == old(Spaces())[App(t) := Touched(old(Spaces())[App(t)], areas[t], table, n)]
      ensures ok ==> n in Spaces()[App(t)] && Spaces()[App(t)] == View(state.mem, state.roots[App(t)])
      ensures FeetKept(old(state), state, t)
    {
      hide Ownership.Valid, Views, View, Tree, Below, Agree, AddressOf, CanWrite, Walk, FeetKept, FilesHold, PageInReach, FaultedIn;
      FeetLaws(t);
      AgreeApp(contexts, appLoads, areas, state.roots, Views(state), t);
      ViewKeys(state);
      OwnerReady(state, App(t));
      MappedPage(state, t, n);
      var e := paging.Lookup(contexts[t], AddressOf(n));
      ok := true;
      if e.None? {
        ok := HandlePageFault(t, n, false, rw, table);
        ViewKeys(state);
      }
    }

    /** A store by task t's application to word k of page n: the page is brought in, and copied
        if it is shared, as needed. */
    method Store(t: int, n: nat, k: nat, v: Word, ghost table: map<int, FileData>) returns (ok: bool, touched: bool)
      requires Valid() && t in contexts && UPPER <= n < LIMIT && k < ENTRIES
      requires FilesHold(table) && (t in areas ==> PageInReach(areas[t], table, n))
      modifies this`state, paging`mem, paging.manager.allocMap
      ensures Valid() && App(t) in old(Spaces()) && t in areas
      ensures ok ==> n in Touched(old(Spaces())[App(t)], areas[t], table, n)
      ensures ok ==> Spaces() == old(Spaces())[App(t) := Written(old(Spaces())[App(t)], areas[t], table, n, k, v)]
      ensures !ok ==> Spaces() == if touched then old(Spaces())[App(t) := Touched(old(Spaces())[App(t)], areas[t], table, n)]
                                  else old(Spaces())
      ensures !ok && n in Touched(old(Spaces())[App(t)], areas[t], table, n) ==> paging.Exhausted()
      ensures FeetKept(old(state), state, t)
    {
      hide Ownership.Valid, Views, View, Tree, Below, Agree, AddressOf, Walk, FeetKept, FilesHold, PageInReach, FaultedIn, Touched;
      FeetLaws(t);
      ok := TouchPage(t, n, true, table);
      touched := ok;
      if ok {
        ok := MakeWritable(t, n, table);
      }
      if ok {
        StoreWord(t, n, k, v);
      }
    }

    /** A store to a mapped page faults, and the page is copied, if it is mapped read-only. */
    method MakeWritable(t: int, n: nat, ghost table: map<int, FileData>) returns (ok: bool)
      requires Valid() && t in contexts && UPPER <= n < LIMIT && FilesHold(table)
      requires App(t) in state.roots && n in View(state.mem, state.roots[App(t)]) && (t in areas ==> PageInReach(areas[t], table, n))
      modifies this`state, paging`mem, paging.manager.allocMap
      ensures Valid() && Spaces() == old(Spaces()) && App(t) in state.roots
      ensures if ok then CanWrite(state.mem, state.roots[App(t)], n) else paging.Exhausted()
      ensures FeetKept(old(state), state, t)
    {
      hide Ownership.Valid, Views, View, Tree, Below, Agree, AddressOf, Walk, FeetKept, FilesHold, PageInReach, FaultedIn;
      FeetLaws(t);
      AgreeApp(contexts, appLoads, areas, state.roots, Views(state), t);
      OwnerReady(state, App(t));
      MappedPage(state, t, n);
      var e := paging.Lookup(contexts[t], AddressOf(n));
      ok := true;
      if !e.value.writable {
        ok := HandlePageFault(t, n, true, true, table);
      }
    }

    /** The store itself, to a page that is mapped writable. */
    method StoreWord(t: int, n: nat, k: nat, v: Word)
      requires Valid() && t in contexts && UPPER <= n < LIMIT && k < ENTRIES && App(t) in state.roots
      requires CanWrite(state.mem, state.roots[App(t)], n)
      modifies this`state, paging`mem
      ensures Valid() && App(t) in old(Spaces()) && n in old(Spaces())[App(t)]
      ensures Spaces() == old(Spaces())[App(t) := Put(old(Spaces())[App(t)], n, old(Spaces())[App(t)][n][k := v])]
      ensures FeetKept(old(state), state, t)
    {
      hide Ownership.Valid, Views, View, Tree, Below, Agree, AddressOf, Walk, FeetKept;
      AgreeApp(contexts, appLoads, areas, state.roots, Views(state), t);
      ViewKeys(state);
      OwnerReady(state, App(t));
      MappedPage(state, t, n);
      var page := paging.Translate(contexts[t], 4, AddressOf(n));
      StorePage(t, n, paging.mem[page][k := v]);
    }

    /** A load by task t's application from word k of page n. */
    method Fetch(t: int, n: nat, k: nat, ghost table: map<int, FileData>) returns (v: Option<Word>)
      requires Valid() && t in contexts && UPPER <= n < LIMIT && k < ENTRIES
      requires FilesHold(table) && (t in areas ==> PageInReach(areas[t], table, n))
      modifies this`state, paging`mem, paging.manager.allocMap
      ensures Valid() && App(t) in old(Spaces()) && t in areas
      ensures v.None? ==> Spaces() == old(Spaces())
      ensures v.None? && n in Touched(old(Spaces())[App(t)], areas[t], table, n) ==> paging.Exhausted()
      ensures v.Some? ==> var space := Touched(old(Spaces())[App(t)], areas[t], table, n);
                          n in space && v.value == space[n][k] && Spaces() == old(Spaces())[App(t) := space]
      ensures FeetKept(old(state), state, t)
    {
      hide Ownership.Valid, Views, View, Tree, Below, Agree, AddressOf, Walk, FeetKept, FilesHold, PageInReach, FaultedIn, Touched;
      FeetLaws(t);
      var ok := TouchPage(t, n, false, table);
      if !ok {
        return None;
      }
      AgreeApp(contexts, appLoads, areas, state.roots, Views(state), t);
      OwnerReady(state, App(t));
      MappedPage(state, t, n);
      var e := paging.Lookup(contexts[t], AddressOf(n));
      v := Some(paging.mem[e.value.frame][k]);
    }

    /** The system call that extends the demand-paged range; returns its old end. */
    method DemandPages(t: int, numPages: nat) returns (dpEnd: nat)
      requires Valid() && t in contexts
      modifies this`areas
      ensures Valid() && t in old(areas) && dpEnd == old(areas)[t].dpagingEnd
      ensures areas == old(areas)[t := Extended(old(areas)[t], numPages)]
    {
      hide Ownership.Valid, Views, View, Agree;
      AgreeApp(contexts, appLoads, areas, state.roots, Views(state), t);
      dpEnd := areas[t].dpagingEnd;
      SetAreas(t, areas[t].(dpagingEnd := dpEnd + numPages));
    }

    /** The system call that maps an open file below the mappings made so far; None stands for EBADF. */
    method MapFile(t: int, fd: int, ghost table: map<int, FileData>) returns (vaddrBegin: Option<nat>)
      requires Valid() && t in contexts && FilesHold(table)
      requires t in areas && fd in table ==> PageCount(table[fd].size) <= areas[t].fileMapEnd
      modifies this`areas
      ensures Valid() && t in old(areas) && (vaddrBegin.Some? <==> fd in table)
      ensures vaddrBegin.None? ==> areas == old(areas)
      ensures vaddrBegin.Some? ==>
                && vaddrBegin.value + PageCount(table[fd].size) == old(areas)[t].fileMapEnd
                && areas == old(areas)[t := WithMapping(old(areas)[t], fd, PageCount(table[fd].size))]
    {
      hide Ownership.Valid, Views, View, Agree, FilesHold;
      AgreeApp(contexts, appLoads, areas, state.roots, Views(state), t);
      OpenFile(table, fd);
      if fd !in files {
        return None;
      }
      var a := areas[t];
      var fileSize, vaddrEnd := files[fd].entry.fileSize, a.fileMapEnd * 4096;
      var begin := (vaddrEnd - fileSize) / 4096;
      SetAreas(t, a.(fileMapEnd := begin, fileMaps := a.fileMaps + [FileMapping(begin, a.fileMapEnd, fd)]));
      vaddrBegin := Some(begin);
    }
  }
}
