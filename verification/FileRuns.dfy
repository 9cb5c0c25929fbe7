/** Runs in which files are written while tasks have them mapped. */
module FileRuns {
  import opened PageTree
  import opened Ownership
  import opened PageNumbers
  import opened MappedPages
  import opened Applications
  import opened AppRuns
  import LatePages
  import FatFiles
  import FatChains
  import FatPlacement
  import FatRuns

  /** The tasks do something, or an open file is opened once more and rewritten by a series of writes. */
  datatype Event = Apps(ops: seq<Op>) | WriteFile(fd: int, bufs: seq<seq<bv8>>)

  // ----- mappings whose pages stay within their files' chains -----

  function Span(m: FileMapping): int { (m.end - m.begin) * PAGE_BYTES }

  /** The last page of a mapping starts inside the file, or the file's chain is as long as the mapping. */
  ghost predicate MapWithin(m: FileMapping, f: FileData) {
    && m.begin <= m.end && Span(m) < FatFiles.WORD && f.size <= |f.chain|
    && (Span(m) <= |f.chain| || Span(m) < f.size + PAGE_BYTES)
  }

  ghost predicate MapsWithin(a: Areas, files: map<int, FileData>) {
    forall m | m in a.fileMaps :: m.fd in files && MapWithin(m, files[m.fd])
  }

  /** Files are no longer than their chains, and have a size that a directory entry can hold. */
  ghost predicate Sized(files: map<int, FileData>) {
    forall i | i in files :: files[i].size <= |files[i].chain| && files[i].size < FatFiles.SIZE_LIMIT
  }

  ghost predicate AllWithin(w: World) {
    Sized(w.files) && forall t | t in w.areas :: MapsWithin(w.areas[t], w.files)
  }

  lemma WithinReach(a: Areas, files: map<int, FileData>)
    requires MapsWithin(a, files)
    ensures AreasInReach(a, files)
  {
    hide MapWithin;
    forall n: nat
      ensures PageInReach(a, files, n)
    {
      var m := FindFileMapping(a.fileMaps, n);
      if m.Some? {
        PageWithin(m.value, files[m.value.fd], n);
      }
    }
  }

  lemma PageWithin(m: FileMapping, f: FileData, n: nat)
    requires m.begin <= n < m.end && MapWithin(m, f)
    ensures InReach(f, (n - m.begin) * PAGE_BYTES)
  {
    assert (n - m.begin) * PAGE_BYTES + PAGE_BYTES <= Span(m);
  }

  lemma AllInReach(w: World)
    requires AllWithin(w)
    ensures FilesInReach(w)
  {
    hide MapsWithin, AreasInReach;
    forall t | t in w.areas
      ensures AreasInReach(w.areas[t], w.files)
    {
      WithinReach(w.areas[t], w.files);
    }
  }

  /** A new mapping ends within a page of its file's end. */
  lemma PagesFit(size: nat)
    requires size < FatFiles.SIZE_LIMIT
    ensures PageCount(size) * PAGE_BYTES < size + PAGE_BYTES && PageCount(size) * PAGE_BYTES < FatFiles.WORD
  {
  }

  lemma MappedWithin(a: Areas, files: map<int, FileData>, fd: int)
    requires MapsWithin(a, files) && Sized(files) && fd in files && PageCount(files[fd].size) <= a.fileMapEnd
    ensures MapsWithin(WithMapping(a, fd, PageCount(files[fd].size)), files)
  {
    PagesFit(files[fd].size);
    hide PageCount;
  }

  lemma StepWithin(w: World, op: Op, o: Outcome)
    requires AllWithin(w) && Possible(op)
    ensures AllWithin(Step(w, op, o))
  {
    forall t | t in Step(w, op, o).areas
      ensures MapsWithin(Step(w, op, o).areas[t], w.files)
    {
      AreaWithin(w, op, o, t);
    }
    hide MapsWithin, Touched, Written, LaunchedSpace;
  }

  lemma AreaWithin(w: World, op: Op, o: Outcome, t: int)
    requires AllWithin(w) && Possible(op) && t in Step(w, op, o).areas
    ensures MapsWithin(Step(w, op, o).areas[t], w.files) && Step(w, op, o).files == w.files
  {
    hide Touched, Written, LaunchedSpace, WithMapping;
    if t in w.areas && op.Map? && CanMap(w, t, op.fd) {
      MappedWithin(w.areas[t], w.files, op.fd);
    }
  }

  lemma {:induction false} FoldWithin(w: World, ops: seq<Op>, outcomes: seq<Outcome>)
    requires AllWithin(w) && |outcomes| == |ops| && forall op | op in ops :: Possible(op)
    ensures AllWithin(Fold(w, ops, outcomes)) && Fold(w, ops, outcomes).files == w.files
  {
    if ops != [] {
      var n := |ops| - 1;
      FoldWithin(w, ops[..n], outcomes[..n]);
      StepWithin(Fold(w, ops[..n], outcomes[..n]), ops[n], outcomes[n]);
      StepFiles(Fold(w, ops[..n], outcomes[..n]), ops[n], outcomes[n]);
      hide AllWithin, Step;
    }
  }

  lemma StepFiles(w: World, op: Op, o: Outcome)
    requires Possible(op)
    ensures Step(w, op, o).files == w.files
  {
    hide Touched, Written, LaunchedSpace;
  }

  // ----- writing -----

  ghost predicate Contains(f: FileData, bytes: seq<bv8>) {
    f.size == |bytes| <= |f.chain| && f.chain[..f.size] == bytes
  }

  /** A file of a world is rewritten: its chain gets no shorter, and nothing else changes. */
  ghost predicate Rewrites(w: World, fd: int, bytes: seq<bv8>, w': World) {
    && fd in w.files && fd in w'.files && w' == w.(files := w.files[fd := w'.files[fd]])
    && Contains(w'.files[fd], bytes) && |w'.files[fd].chain| >= |w.files[fd].chain|
  }

  /** Chains are whole pages. */
  ghost predicate WholePages(files: map<int, FileData>) {
    forall i | i in files :: |files[i].chain| % PAGE_BYTES == 0
  }

  /** Mappings stay within the file if it gets no smaller, or its chain is whole pages. */
  lemma RewritesWithin(w: World, fd: int, bytes: seq<bv8>, w': World)
    requires AllWithin(w) && Rewrites(w, fd, bytes, w') && Sized(w'.files) && (WholePages(w.files) || |bytes| >= w.files[fd].size)
    ensures AllWithin(w')
  {
    hide MapWithin;
    forall t, m | t in w'.areas && m in w'.areas[t].fileMaps
      ensures m.fd in w'.files && MapWithin(m, w'.files[m.fd])
    {
      assert MapsWithin(w.areas[t], w.files);
      if m.fd == fd {
        StaysWithin(m, w.files[fd], w'.files[fd]);
      }
    }
  }

  lemma StaysWithin(m: FileMapping, f: FileData, f': FileData)
    requires MapWithin(m, f) && |f'.chain| >= |f.chain| && f'.size <= |f'.chain| && (|f.chain| % PAGE_BYTES == 0 || f'.size >= f.size)
    ensures MapWithin(m, f')
  {
  }

  /** Writes of no more than a cluster each need no more than one new cluster each. */
  lemma {:induction false} SmallWrites(b: nat, n: nat, size: nat, bufs: seq<seq<bv8>>)
    requires b > 0 && size <= n * b && forall buf | buf in bufs :: |buf| <= b
    ensures FatRuns.Gradual(b, n, size, bufs) && FatRuns.ClustersAfter(b, n, size, bufs) <= n + |bufs|
    decreases |bufs|
  {
    if bufs != [] {
      var len := |bufs[0]|;
      assert bufs[0] in bufs;
      SmallWrite(b, n, size, len);
      var n' := FatRuns.ClustersFor(b, n, size, len);
      hide FatRuns.ClustersFor;
      SmallWrites(b, n', size + len, bufs[1..]);
    }
  }

  lemma NoCluster(b: nat)
    requires b > 0
    ensures FatPlacement.NumCluster(0, b) == 0
  {
  }

  lemma SmallWrite(b: nat, n: nat, size: nat, len: nat)
    requires b > 0 && size <= n * b && len <= b
    ensures var n' := FatRuns.ClustersFor(b, n, size, len); size + len <= n' * b && n <= n' <= n + 1
  {
    if n == 0 {
      if len > 0 {
        FatRuns.Clusters(len, b);
      } else {
        NoCluster(b);
      }
    } else {
      assert (n + 1) * b == n * b + b;
    }
  }

  /** The open files are different ones on one volume. */
  ghost predicate Separate(system: AppSystem, volume: FatChains.Volume)
    reads set i | i in system.files :: system.files[i].entry
  {
    && (forall i | i in system.files :: system.files[i].volume == volume)
    && (forall i, j | i in system.files && j in system.files && i != j ::
          && system.files[i].entry != system.files[j].entry
          && FatRuns.Apart(system.files[i].entry.clusters, system.files[j].entry.clusters))
  }

  /** What the open files hold, as a world sees it. */
  lemma FilesSized(system: AppSystem, volume: FatChains.Volume, table: map<int, FileData>)
    requires system.FilesHold(table) && Separate(system, volume)
    ensures Sized(table) && (volume.bytesPerCluster % PAGE_BYTES == 0 ==> WholePages(table))
  {
    forall i | i in table
      ensures table[i].size <= |table[i].chain| && table[i].size < FatFiles.SIZE_LIMIT
      ensures volume.bytesPerCluster % PAGE_BYTES == 0 ==> |table[i].chain| % PAGE_BYTES == 0
    {
      system.OpenFile(table, i);
      system.files[i].RawIs();
      if volume.bytesPerCluster % PAGE_BYTES == 0 {
        Multiple(|system.files[i].entry.clusters|, volume.bytesPerCluster);
      }
    }
  }

  lemma Multiple(n: nat, b: nat)
    requires b % PAGE_BYTES == 0
    ensures (n * b) % PAGE_BYTES == 0
  {
    var k := b / PAGE_BYTES;
    assert n * b == (n * k) * PAGE_BYTES;
    Whole(n * k);
  }

  lemma Whole(k: nat)
    ensures (k * PAGE_BYTES) % PAGE_BYTES == 0
  {
  }

  /** One of the files is rewritten. */
  method PerformWrite(system: AppSystem, volume: FatChains.Volume, fd: int, bufs: seq<seq<bv8>>, ghost table: map<int, FileData>)
      returns (ghost table': map<int, FileData>)
    requires system.FilesHold(table) && Separate(system, volume) && fd in system.files && bufs != []
    requires (forall buf | buf in bufs :: |buf| <= volume.bytesPerCluster) && |FatRuns.Flatten(bufs)| < FatFiles.SIZE_LIMIT
    requires |bufs| <= |FatChains.Free(volume.fat[..])|
    modifies volume.fat, volume.data, system.files[fd].entry
    ensures system.FilesHold(table') && Separate(system, volume) && fd in table && fd in table' && table' == table[fd := table'[fd]]
    ensures Contains(table'[fd], FatRuns.Flatten(bufs)) && |table'[fd].chain| >= |table[fd].chain|
    ensures |FatChains.Free(volume.fat[..])| + |bufs| >= |FatChains.Free(old(volume.fat[..]))|
  {
    hide *;
    OpenNow(system, volume, fd, table);
    var writer := new FatFiles.FileDescriptor(volume, system.files[fd].entry);
    WriterStreams(writer, system.files[fd], bufs);
    OthersApart(system, volume, fd, writer);
    ghost var d, c, free := writer.Image(), writer.entry.clusters, |FatChains.Free(volume.fat[..])|;
    ImageIs(writer);
    Remember(system, volume, fd, d, table);
    LatePages.Rewrite(system, fd, writer, bufs, table);
    table' := LatePages.Rewritten(system, table, writer);
    ImageIs(writer);
    OneRewritten(system, fd, table, writer, bufs);
    StillSeparate(system, volume, fd, d, c, writer);
  }

  lemma OpenNow(system: AppSystem, volume: FatChains.Volume, fd: int, table: map<int, FileData>)
    requires system.FilesHold(table) && Separate(system, volume) && fd in system.files
    ensures fd in table && system.files[fd].Mounted() && system.files[fd].volume == volume
  {
  }

  lemma WriterStreams(writer: FatFiles.FileDescriptor, file: FatFiles.FileDescriptor, bufs: seq<seq<bv8>>)
    requires file.Mounted() && file.volume == writer.volume && file.entry == writer.entry
    requires writer.wrOff == 0 && writer.wrCluster == 0 && writer.wrClusterOff == 0 && writer.written == []
    requires forall buf | buf in bufs :: |buf| <= writer.volume.bytesPerCluster
    requires |bufs| <= |FatChains.Free(writer.volume.fat[..])|
    ensures FatRuns.Streaming(writer, bufs) && LatePages.SameFile(file, writer)
    ensures FatRuns.ClustersAfter(writer.volume.bytesPerCluster, |writer.entry.clusters|, 0, bufs) <= |writer.entry.clusters| + |bufs|
  {
    hide FatRuns.Streaming, FatRuns.Gradual, FatRuns.ClustersAfter, FatChains.Free;
    SmallWrites(writer.volume.bytesPerCluster, |writer.entry.clusters|, 0, bufs);
    FatRuns.FreshStreams(writer, bufs);
  }

  lemma OthersApart(system: AppSystem, volume: FatChains.Volume, fd: int, writer: FatFiles.FileDescriptor)
    requires Separate(system, volume) && fd in system.files && LatePages.SameFile(system.files[fd], writer)
    ensures LatePages.OneVolume(system, writer)
  {
    hide FatRuns.Apart;
  }

  /** The other files' chains, on the disk as it was. */
  ghost predicate Chains(system: AppSystem, volume: FatChains.Volume, fd: int, d: FatPlacement.Disk)
    reads set i | i in system.files && i != fd :: system.files[i].entry
  {
    && fd in system.files
    && (forall i | i in system.files :: system.files[i].volume == volume)
    && (forall i | i in system.files && i != fd ::
          system.files[i].entry != system.files[fd].entry && OnDisk(system.files[i].entry.clusters, d))
    && (forall i, j | i in system.files && j in system.files && i != fd && j != fd && i != j ::
          && system.files[i].entry != system.files[j].entry
          && FatRuns.Apart(system.files[i].entry.clusters, system.files[j].entry.clusters))
  }

  ghost predicate OnDisk(c: seq<nat>, d: FatPlacement.Disk) {
    c == [] || (FatChains.Chain(d.fat, c) && FatPlacement.Within(d.data, c))
  }

  /** Chains apart from the written file's, as it was. */
  ghost predicate ApartFrom(system: AppSystem, fd: int, c: seq<nat>)
    reads set i | i in system.files && i != fd :: system.files[i].entry
  {
    forall i | i in system.files && i != fd :: FatRuns.Apart(system.files[i].entry.clusters, c)
  }

  lemma Remember(system: AppSystem, volume: FatChains.Volume, fd: int, d: FatPlacement.Disk, table: map<int, FileData>)
    requires system.FilesHold(table) && Separate(system, volume) && fd in system.files
    requires d.fat == volume.fat[..] && d.data == volume.data[..]
    ensures Chains(system, volume, fd, d) && ApartFrom(system, fd, system.files[fd].entry.clusters)
    ensures forall i | i in system.files && i != fd :: system.files[i].entry != system.files[fd].entry
  {
    hide FatChains.Chain, FatPlacement.Within, FatRuns.Apart;
    forall i | i in system.files && i != fd
      ensures OnDisk(system.files[i].entry.clusters, d)
    {
      ClustersOnDisk(system.files[i]);
    }
  }

  lemma ClustersOnDisk(file: FatFiles.FileDescriptor)
    requires file.Mounted()
    ensures OnDisk(file.entry.clusters, FatPlacement.Disk(file.volume.fat[..], file.volume.data[..]))
  {
    LatePages.DataParts(file);
  }

  lemma ImageIs(fd: FatFiles.FileDescriptor)
    ensures fd.Image() == FatPlacement.Disk(fd.volume.fat[..], fd.volume.data[..])
  {
  }

  lemma OneRewritten(system: AppSystem, fd: int, table: map<int, FileData>, writer: FatFiles.FileDescriptor, bufs: seq<seq<bv8>>)
    requires system.files.Keys == table.Keys && fd in table && LatePages.SameFile(system.files[fd], writer) && writer.Mounted()
    requires forall i | i in system.files && i != fd :: system.files[i].entry != system.files[fd].entry
    requires DataOf(writer).size <= |DataOf(writer).chain|
    requires DataOf(writer).chain[..DataOf(writer).size] == FatRuns.Flatten(bufs)
    ensures LatePages.Rewritten(system, table, writer) == table[fd := DataOf(writer)]
    ensures Contains(DataOf(writer), FatRuns.Flatten(bufs))
  {
    hide FatRuns.Flatten, DataOf;
    var left, right := LatePages.Rewritten(system, table, writer), table[fd := DataOf(writer)];
    assert left.Keys == right.Keys;
    forall i | i in left.Keys
      ensures left[i] == right[i]
    {
    }
  }

  lemma StillSeparate(system: AppSystem, volume: FatChains.Volume, fd: int, d: FatPlacement.Disk, c: seq<nat>,
                      writer: FatFiles.FileDescriptor)
    requires Chains(system, volume, fd, d) && ApartFrom(system, fd, c) && LatePages.SameFile(system.files[fd], writer)
    requires FatRuns.OthersKept(d, c, writer.Image(), writer.entry.clusters)
    ensures Separate(system, volume)
  {
    hide FatRuns.OthersKept, FatRuns.Apart;
    forall i | i in system.files && i != fd
      ensures FatRuns.Apart(system.files[i].entry.clusters, writer.entry.clusters)
      ensures FatRuns.Apart(writer.entry.clusters, system.files[i].entry.clusters)
    {
      StaysApart(system.files[i].entry.clusters, d, c, writer.Image(), writer.entry.clusters);
    }
    forall i, j | i in system.files && j in system.files && i != j
      ensures system.files[i].entry != system.files[j].entry
      ensures FatRuns.Apart(system.files[i].entry.clusters, system.files[j].entry.clusters)
    {
    }
  }

  lemma StaysApart(g: seq<nat>, d: FatPlacement.Disk, c: seq<nat>, d': FatPlacement.Disk, c': seq<nat>)
    requires OnDisk(g, d) && FatRuns.Apart(g, c) && FatRuns.OthersKept(d, c, d', c')
    ensures FatRuns.Apart(g, c') && FatRuns.Apart(c', g)
  {
    hide FatChains.Chain, FatPlacement.Within;
  }

  // ----- the run -----

  /** What an event asks of the files. */
  ghost predicate Can(event: Event, system: AppSystem, volume: FatChains.Volume) {
    match event
    case Apps(ops) => forall op | op in ops :: Possible(op)
    case WriteFile(fd, bufs) =>
      && fd in system.files && bufs != [] && |FatRuns.Flatten(bufs)| < FatFiles.SIZE_LIMIT
      && forall buf | buf in bufs :: |buf| <= volume.bytesPerCluster
  }

  /** As many clusters as the writes of all events may take. */
  ghost function Needed(events: seq<Event>): nat {
    if events == [] then 0 else (if events[0].WriteFile? then |events[0].bufs| else 0) + Needed(events[1..])
  }

  function Sizes(files: map<int, FileData>): map<int, nat> { map i | i in files :: files[i].size }

  /** No file gets smaller. */
  ghost predicate Growing(events: seq<Event>, sizes: map<int, nat>) {
    events != [] ==>
      match events[0]
      case Apps(_) => Growing(events[1..], sizes)
      case WriteFile(fd, bufs) =>
        var size := |FatRuns.Flatten(bufs)|;
        (fd in sizes ==> size >= sizes[fd]) && Growing(events[1..], sizes[fd := size])
  }

  /** Clusters are whole pages, or no file gets smaller. */
  ghost predicate Lasting(volume: FatChains.Volume, w: World, rest: seq<Event>) {
    volume.bytesPerCluster % PAGE_BYTES == 0 || Growing(rest, Sizes(w.files))
  }

  lemma LastsRun(volume: FatChains.Volume, w: World, rest: seq<Event>, w': World)
    requires Lasting(volume, w, rest) && rest != [] && rest[0].Apps? && w'.files == w.files
    ensures Lasting(volume, w', rest[1..])
  {
  }

  lemma LastsWrite(volume: FatChains.Volume, w: World, rest: seq<Event>, w': World)
    requires Lasting(volume, w, rest) && rest != [] && rest[0].WriteFile?
    requires Rewrites(w, rest[0].fd, FatRuns.Flatten(rest[0].bufs), w')
    ensures Lasting(volume, w', rest[1..])
    ensures volume.bytesPerCluster % PAGE_BYTES == 0 || |FatRuns.Flatten(rest[0].bufs)| >= w.files[rest[0].fd].size
  {
    var fd, size := rest[0].fd, |FatRuns.Flatten(rest[0].bufs)|;
    hide FatRuns.Flatten;
    if volume.bytesPerCluster % PAGE_BYTES != 0 {
      assert Sizes(w.files)[fd] == w.files[fd].size;
      assert Sizes(w'.files) == Sizes(w.files)[fd := size];
    }
  }

  /** An event in the world of private memories. */
  ghost predicate Happened(w: World, event: Event, outcomes: seq<Outcome>, w': World) {
    match event
    case Apps(ops) => AllTold(w, ops, outcomes) && w' == Fold(w, ops, outcomes)
    case WriteFile(fd, bufs) => Rewrites(w, fd, FatRuns.Flatten(bufs), w')
  }

  /** The worlds before, between and after the events. */
  ghost predicate History(events: seq<Event>, outcomes: seq<seq<Outcome>>, worlds: seq<World>) {
    |outcomes| == |events| && |worlds| == |events| + 1
    && forall i | 0 <= i < |events| :: Happened(worlds[i], events[i], outcomes[i], worlds[i + 1])
  }

  lemma HistoryNext(events: seq<Event>, outcomes: seq<seq<Outcome>>, worlds: seq<World>, event: Event, told: seq<Outcome>, w': World)
    requires History(events, outcomes, worlds) && Happened(worlds[|events|], event, told, w')
    ensures History(events + [event], outcomes + [told], worlds + [w'])
  {
    hide Happened;
  }

  lemma HistoryBefore(events: seq<Event>, outcomes: seq<seq<Outcome>>, worlds: seq<World>)
    requires History(events, outcomes, worlds) && events != []
    ensures var n := |events| - 1;
      History(events[..n], outcomes[..n], worlds[..n + 1]) && Happened(worlds[n], events[n], outcomes[n], worlds[n + 1])
  {
    hide Happened;
  }

  /** The system is as a world says, and clusters enough are free for the events to come. */
  ghost predicate Ready(system: AppSystem, volume: FatChains.Volume, w: World, rest: seq<Event>)
    reads system, system.paging, system.paging.manager, system.paging.manager.allocMap, volume, volume.fat, volume.data
    reads set i | i in system.files :: system.files[i].entry
    reads set i | i in system.files :: system.files[i].volume
    reads set i | i in system.files :: system.files[i].volume.fat
    reads set i | i in system.files :: system.files[i].volume.data
  {
    && system.Valid() && system.FilesHold(w.files) && Separate(system, volume) && system.Now(w.files) == w && AllWithin(w)
    && Lasting(volume, w, rest) && Needed(rest) <= |FatChains.Free(volume.fat[..])| && forall e | e in rest :: Can(e, system, volume)
  }

  /** One event. */
  method PerformEvent(system: AppSystem, volume: FatChains.Volume, event: Event, ghost w: World, ghost rest: seq<Event>)
      returns (told: seq<Outcome>, ghost w': World)
    requires Ready(system, volume, w, rest) && rest != [] && event == rest[0]
    modifies system, system.paging`mem, system.paging.manager.allocMap, volume.fat, volume.data
    modifies set i | i in system.files :: system.files[i].entry
    ensures Ready(system, volume, w', rest[1..]) && Happened(w, event, told, w')
  {
    hide *;
    ReadyIs(system, volume, w, rest);
    match event
    case Apps(ops) =>
      RunReady(w, ops, event, system, volume);
      told := Run(system, ops, w.files);
      w' := Fold(w, ops, told);
      RunEnds(system, volume, w, ops, event, told, rest);
    case WriteFile(fd, bufs) =>
      WriteReady(event, fd, bufs, system, volume, rest);
      ghost var free := |FatChains.Free(volume.fat[..])|;
      ghost var files := PerformWrite(system, volume, fd, bufs, w.files);
      told := [];
      w' := w.(files := files);
      WriteEnds(system, volume, w, fd, bufs, event, w', rest, free);
  }

  lemma ReadyIs(system: AppSystem, volume: FatChains.Volume, w: World, rest: seq<Event>)
    requires Ready(system, volume, w, rest) && rest != []
    ensures system.Valid() && system.FilesHold(w.files) && Separate(system, volume) && system.Now(w.files) == w && AllWithin(w)
    ensures (volume.bytesPerCluster % PAGE_BYTES == 0 ==> WholePages(w.files)) && Lasting(volume, w, rest)
    ensures FilesInReach(w) && Can(rest[0], system, volume) && Needed(rest) <= |FatChains.Free(volume.fat[..])|
    ensures Needed(rest) == (if rest[0].WriteFile? then |rest[0].bufs| else 0) + Needed(rest[1..])
    ensures forall e | e in rest[1..] :: Can(e, system, volume)
  {
    hide AppSystem.Valid, AppSystem.FilesHold, Separate, AppSystem.Now, AllWithin, FilesInReach, Can, FatChains.Free, WholePages, Lasting;
    AllInReach(w);
    FilesSized(system, volume, w.files);
  }

  lemma RunReady(w: World, ops: seq<Op>, event: Event, system: AppSystem, volume: FatChains.Volume)
    requires event == Apps(ops) && Can(event, system, volume)
    ensures forall op | op in ops :: Possible(op)
  {
  }

  lemma RunEnds(system: AppSystem, volume: FatChains.Volume, w: World, ops: seq<Op>, event: Event, told: seq<Outcome>, rest: seq<Event>)
    requires event == Apps(ops) && AllTold(w, ops, told) && AllWithin(w) && rest != [] && event == rest[0]
    requires |told| == |ops| && (forall op | op in ops :: Possible(op)) && system.Now(w.files) == Fold(w, ops, told)
    requires system.Valid() && system.FilesHold(w.files) && Separate(system, volume)
    requires Needed(rest[1..]) <= |FatChains.Free(volume.fat[..])| && forall e | e in rest[1..] :: Can(e, system, volume)
    requires Lasting(volume, w, rest)
    ensures Ready(system, volume, Fold(w, ops, told), rest[1..]) && Happened(w, event, told, Fold(w, ops, told))
  {
    FoldWithin(w, ops, told);
    LastsRun(volume, w, rest, Fold(w, ops, told));
    hide Lasting, AppSystem.Valid, AppSystem.FilesHold, Separate, AppSystem.Now, AllWithin, Can, FatChains.Free, AllTold, Fold, Possible, Needed;
  }

  lemma WriteReady(event: Event, fd: int, bufs: seq<seq<bv8>>, system: AppSystem, volume: FatChains.Volume, rest: seq<Event>)
    requires event == WriteFile(fd, bufs) && Can(event, system, volume)
    ensures fd in system.files && bufs != [] && |FatRuns.Flatten(bufs)| < FatFiles.SIZE_LIMIT
    ensures forall buf | buf in bufs :: |buf| <= volume.bytesPerCluster
  {
  }

  lemma WriteEnds(system: AppSystem, volume: FatChains.Volume, w: World, fd: int, bufs: seq<seq<bv8>>, event: Event, w': World,
                  rest: seq<Event>, free: nat)
    requires event == WriteFile(fd, bufs) && AllWithin(w) && rest != [] && event == rest[0] && w' == w.(files := w'.files)
    requires system.Valid() && system.FilesHold(w'.files) && Separate(system, volume) && system.Now(w.files) == w
    requires fd in w.files && fd in w'.files && w'.files == w.files[fd := w'.files[fd]]
    requires Contains(w'.files[fd], FatRuns.Flatten(bufs)) && |w'.files[fd].chain| >= |w.files[fd].chain|
    requires |FatChains.Free(volume.fat[..])| + |bufs| >= free >= |bufs| + Needed(rest[1..])
    requires forall e | e in rest[1..] :: Can(e, system, volume)
    requires Lasting(volume, w, rest) && (volume.bytesPerCluster % PAGE_BYTES == 0 ==> WholePages(w.files))
    ensures Ready(system, volume, w', rest[1..]) && Happened(w, event, [], w')
  {
    NowOf(system, w.files, w'.files);
    FilesSized(system, volume, w'.files);
    hide AppSystem.Valid, AppSystem.FilesHold, Separate, AppSystem.Now, AllWithin, Can, FatChains.Free, Contains, WholePages, Sized, Needed, Lasting,
         FatRuns.Flatten;
    LastsWrite(volume, w, rest, w');
    RewritesWithin(w, fd, FatRuns.Flatten(bufs), w');
  }

  lemma NowOf(system: AppSystem, files: map<int, FileData>, files': map<int, FileData>)
    ensures system.Now(files') == system.Now(files).(files := files')
  {
  }

  /** Refinement over whole runs with writes: whatever the tasks do, and whenever files are rewritten in between, even while they
      are mapped, all that the tasks observe and are told is what the world of private memories and files makes of it. */
  method Session(system: AppSystem, volume: FatChains.Volume, events: seq<Event>, ghost w: World)
      returns (outcomes: seq<seq<Outcome>>, ghost worlds: seq<World>)
    requires Ready(system, volume, w, events)
    modifies system, system.paging`mem, system.paging.manager.allocMap, volume.fat, volume.data
    modifies set i | i in system.files :: system.files[i].entry
    ensures |outcomes| == |events| && History(events, outcomes, worlds) && worlds[0] == w
    ensures var w' := worlds[|events|]; system.Valid() && system.FilesHold(w'.files) && system.Now(w'.files) == w'
  {
    hide *;
    outcomes := [];
    ghost var now := w;
    worlds := [w];
    NoHistory(w);
    assert events[..0] == [] && events[0..] == events;
    for i := 0 to |events|
      invariant |outcomes| == i && |worlds| == i + 1 && worlds[0] == w && worlds[i] == now
      invariant Ready(system, volume, now, events[i..]) && History(events[..i], outcomes, worlds)
    {
      var told;
      ghost var before := now;
      told, now := PerformEvent(system, volume, events[i], before, events[i..]);
      HistoryNext(events[..i], outcomes, worlds, events[i], told, now);
      assert events[..i] + [events[i]] == events[..i + 1] && events[i..][1..] == events[i + 1..];
      outcomes := outcomes + [told];
      worlds := worlds + [now];
    }
    assert events[..|events|] == events;
    ReadyEnds(system, volume, now, events[|events|..]);
  }

  lemma NoHistory(w: World)
    ensures History([], [], [w])
  {
  }

  lemma ReadyEnds(system: AppSystem, volume: FatChains.Volume, w: World, rest: seq<Event>)
    requires Ready(system, volume, w, rest)
    ensures system.Valid() && system.FilesHold(w.files) && system.Now(w.files) == w
  {
  }

  // ----- what runs with writes have in common -----

  /** A task does nothing itself in any event. */
  ghost predicate Idle(event: Event, t: int) {
    event.Apps? ==> forall op | op in event.ops :: op.task != t
  }

  /** Isolation: neither what other tasks do nor what is written to files, mapped or not, changes the memory of a task that does
      nothing itself. */
  lemma {:induction false} SessionIsolation(events: seq<Event>, outcomes: seq<seq<Outcome>>, worlds: seq<World>, t: int)
    requires History(events, outcomes, worlds) && forall e | e in events :: Idle(e, t)
    ensures App(t) in worlds[0].spaces <==> App(t) in worlds[|events|].spaces
    ensures App(t) in worlds[0].spaces ==> worlds[|events|].spaces[App(t)] == worlds[0].spaces[App(t)]
    decreases |events|
  {
    hide Happened, Idle, History;
    if events == [] {
      return;
    }
    var n := |events| - 1;
    HistoryBefore(events, outcomes, worlds);
    HistorySizes(events, outcomes, worlds);
    SessionIsolation(events[..n], outcomes[..n], worlds[..n + 1], t);
    EventIsolation(worlds[n], events[n], outcomes[n], worlds[n + 1], t);
  }

  lemma HistorySizes(events: seq<Event>, outcomes: seq<seq<Outcome>>, worlds: seq<World>)
    requires History(events, outcomes, worlds)
    ensures |outcomes| == |events| && |worlds| == |events| + 1
  {
  }

  lemma EventIsolation(w: World, event: Event, outcomes: seq<Outcome>, w': World, t: int)
    requires Happened(w, event, outcomes, w') && Idle(event, t)
    ensures App(t) in w.spaces <==> App(t) in w'.spaces
    ensures App(t) in w.spaces ==> w'.spaces[App(t)] == w.spaces[App(t)]
  {
    hide Tells, Fold, Possible;
    if event.Apps? {
      RunIsolation(w, event.ops, outcomes, t);
    }
  }

  /** A word that a task loads from a page of a mapping that it touches for the first time is the file's, as it was written
      last: the page shows what was written, exactly if it starts inside that or the chain is zero there. */
  lemma FirstLoad(w: World, t: int, page: nat, word: nat, o: Outcome, m: FileMapping, bytes: seq<bv8>)
    requires Tells(w, FetchWord(t, page, word), o) && Went(o) && AllWithin(w) && page !in w.spaces[App(t)]
    requires FindFileMapping(w.areas[t].fileMaps, page) == Some(m) && !(w.areas[t].dpagingBegin <= page < w.areas[t].dpagingEnd)
    requires m.fd in w.files && Contains(w.files[m.fd], bytes)
    ensures LatePages.ReadsLate(w.files[m.fd], bytes, (page - m.begin) * PAGE_BYTES, word, Some(o.word))
  {
    WithinReach(w.areas[t], w.files);
    assert PageInReach(w.areas[t], w.files, page);
    LatePages.ReadsLateIf(w.files[m.fd], bytes, (page - m.begin) * PAGE_BYTES, word, Some(o.word));
    hide InReach, LoadedPage, FindFileMapping;
  }
}
