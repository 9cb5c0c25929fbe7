/** A file that is written between the call that maps it and the first access to a mapped page. */
module LatePages {
  import opened PageTree
  import opened Ownership
  import opened PageNumbers
  import opened MappedPages
  import opened Applications
  import FatFiles
  import FatChains
  import FatPlacement
  import FatRuns
  import FatWrites

  /** Task t has not touched page n, which is neither demand-paged nor mapped to a file so far. */
  ghost predicate Untouched(system: AppSystem, t: int, n: nat)
    reads system
  {
    App(t) in system.Spaces() && n !in system.Spaces()[App(t)] && t in system.areas
    && !(system.areas[t].dpagingBegin <= n < system.areas[t].dpagingEnd)
    && FindFileMapping(system.areas[t].fileMaps, n).None?
  }

  /** Page i of the mapping that is made next. */
  lemma MappedNext(a: Areas, fd: int, pages: nat, i: nat)
    requires i < pages <= a.fileMapEnd && FindFileMapping(a.fileMaps, a.fileMapEnd - pages + i).None?
    ensures FindFileMapping(WithMapping(a, fd, pages).fileMaps, a.fileMapEnd - pages + i)
            == Some(FileMapping(a.fileMapEnd - pages, a.fileMapEnd, fd))
  {
    OneMoreMapping(a.fileMaps, FileMapping(a.fileMapEnd - pages, a.fileMapEnd, fd), a.fileMapEnd - pages + i);
  }

  /** What a first access to page i of a new mapping brings in. */
  lemma FaultsIn(a: Areas, fd: int, pages: nat, i: nat, files: map<int, FileData>, space: Space)
    requires i < pages <= a.fileMapEnd && FindFileMapping(a.fileMaps, a.fileMapEnd - pages + i).None?
    requires !(a.dpagingBegin <= a.fileMapEnd - pages + i < a.dpagingEnd) && a.fileMapEnd - pages + i !in space
    requires fd in files && InReach(files[fd], i * PAGE_BYTES)
    ensures PageInReach(WithMapping(a, fd, pages), files, a.fileMapEnd - pages + i)
    ensures var n := a.fileMapEnd - pages + i;
            var after := Touched(space, WithMapping(a, fd, pages), files, n);
            n in after && after[n] == LoadedPage(files[fd], i * PAGE_BYTES)
  {
    MappedNext(a, fd, pages, i);
  }

  /** What the open files hold after one of them was written. */
  ghost function Rewritten(system: AppSystem, table: map<int, FileData>, writer: FatFiles.FileDescriptor): map<int, FileData>
    requires writer.Mounted() && system.files.Keys == table.Keys
    reads writer.volume, writer.volume.fat, writer.volume.data, writer.entry
  {
    map i | i in table :: if system.files[i].entry == writer.entry then DataOf(writer) else table[i]
  }

  /** All open files are on one volume, and different ones share no cluster. */
  ghost predicate OneVolume(system: AppSystem, writer: FatFiles.FileDescriptor)
    reads writer.entry, set i | i in system.files :: system.files[i].entry
  {
    forall i | i in system.files ::
      && system.files[i].volume == writer.volume
      && (system.files[i].entry == writer.entry || FatRuns.Apart(system.files[i].entry.clusters, writer.entry.clusters))
  }

  /** A file with other clusters than the written one is as it was. */
  lemma OtherFile(fd: FatFiles.FileDescriptor, writer: FatFiles.FileDescriptor, d: FatPlacement.Disk, c: seq<nat>, f: FileData)
    requires fd.volume == writer.volume && writer.Mounted() && HeldOf(fd.entry, f, d, writer.volume.bytesPerCluster, c)
    requires FatRuns.OthersKept(d, c, writer.Image(), writer.entry.clusters)
    ensures fd.Mounted() && DataOf(fd) == f
  {
    hide FatPlacement.Concat, FatPlacement.Within, FatChains.Chain, FatRuns.Apart;
  }

  lemma DataParts(fd: FatFiles.FileDescriptor)
    requires fd.Mounted()
    ensures fd.volume.Valid() && fd.entry.Valid(fd.volume.fat[..], fd.volume.bytesPerCluster)
    ensures |fd.volume.fat[..]| == |fd.volume.data[..]| && DataOf(fd).size == fd.entry.fileSize
    ensures fd.entry.clusters == [] ==> DataOf(fd).chain == []
    ensures fd.entry.clusters != [] ==>
              && FatPlacement.Within(fd.volume.data[..], fd.entry.clusters)
              && DataOf(fd).chain == FatPlacement.Concat(fd.volume.data[..], fd.entry.clusters)
  {
    if fd.entry.clusters != [] {
      FatFiles.ContentsWithin(fd.volume, fd.entry);
    }
  }

  /** A file is written; the other open files stay. */
  method Rewrite(system: AppSystem, fd: int, writer: FatFiles.FileDescriptor, bufs: seq<seq<bv8>>, ghost table: map<int, FileData>)
    requires system.FilesHold(table) && fd in table && fd in system.files && SameFile(system.files[fd], writer)
    requires OneVolume(system, writer)
    requires FatRuns.Streaming(writer, bufs) && writer.written == [] && bufs != [] && |FatRuns.Flatten(bufs)| < FatFiles.SIZE_LIMIT
    modifies writer`wrOff, writer`wrCluster, writer`wrClusterOff, writer`spots, writer`written
    modifies writer.entry, writer.volume.fat, writer.volume.data
    ensures writer.Mounted() && FatFiles.Contents(writer.volume, writer.entry) == FatRuns.Flatten(bufs)
    ensures system.files.Keys == table.Keys && system.FilesHold(Rewritten(system, table, writer))
    ensures |DataOf(writer).chain| >= |table[fd].chain| && DataOf(writer).size <= |DataOf(writer).chain|
    ensures DataOf(writer).chain[..DataOf(writer).size] == FatRuns.Flatten(bufs)
    ensures FatRuns.OthersKept(old(writer.Image()), old(writer.entry.clusters), writer.Image(), writer.entry.clusters)
    ensures writer.volume.bytesPerCluster > 0
    ensures |writer.entry.clusters|
            == FatRuns.ClustersAfter(writer.volume.bytesPerCluster, |old(writer.entry.clusters)|, 0, bufs)
    ensures |FatChains.Free(writer.Image().fat)| + |writer.entry.clusters|
            == |FatChains.Free(old(writer.Image()).fat)| + |old(writer.entry.clusters)|
  {
    hide *;
    ghost var d, c := writer.Image(), writer.entry.clusters;
    ghost var n := |c|;
    SameParts(system, table, fd, writer);
    HeldBefore(system, table, writer);
    FatRuns.WriteAll(writer, bufs);
    LongerChain(writer, n, |table[fd].chain|);
    HeldAfter(system, table, writer, d, c);
  }

  /** What held of the other files before the write, said of the disk as it was. */
  ghost predicate Holds(system: AppSystem, table: map<int, FileData>, writer: FatFiles.FileDescriptor, d: FatPlacement.Disk, c: seq<nat>)
    reads set i | i in system.files && system.files[i].entry != writer.entry :: system.files[i].entry
  {
    && system.files.Keys == table.Keys && (forall i | i in system.files :: system.files[i].volume == writer.volume)
    && forall i | i in system.files && system.files[i].entry != writer.entry ::
         HeldOf(system.files[i].entry, table[i], d, writer.volume.bytesPerCluster, c)
  }

  ghost predicate HeldOf(e: FatFiles.DirectoryEntry, f: FileData, d: FatPlacement.Disk, b: nat, c: seq<nat>)
    reads e
  {
    && e.Valid(d.fat, b) && f.size == e.fileSize && FatRuns.Apart(e.clusters, c)
    && (e.clusters == [] ==> f.chain == [])
    && (e.clusters != [] ==> FatPlacement.Within(d.data, e.clusters) && f.chain == FatPlacement.Concat(d.data, e.clusters))
  }

  lemma HeldBefore(system: AppSystem, table: map<int, FileData>, writer: FatFiles.FileDescriptor)
    requires system.FilesHold(table) && OneVolume(system, writer)
    ensures Holds(system, table, writer, writer.Image(), writer.entry.clusters)
  {
    assert forall i :: i in table.Keys <==> i in system.files.Keys;
    forall i | i in system.files && system.files[i].entry != writer.entry
      ensures HeldOf(system.files[i].entry, table[i], writer.Image(), writer.volume.bytesPerCluster, writer.entry.clusters)
    {
      DataParts(system.files[i]);
    }
  }

  lemma HeldAfter(system: AppSystem, table: map<int, FileData>, writer: FatFiles.FileDescriptor, d: FatPlacement.Disk, c: seq<nat>)
    requires Holds(system, table, writer, d, c) && FatRuns.OthersKept(d, c, writer.Image(), writer.entry.clusters)
    requires writer.Mounted()
    ensures system.files.Keys == table.Keys && system.FilesHold(Rewritten(system, table, writer))
  {
    hide HeldOf, FatRuns.OthersKept;
    forall i | i in system.files
      ensures system.files[i].Mounted() && DataOf(system.files[i]) == Rewritten(system, table, writer)[i]
    {
      if system.files[i].entry != writer.entry {
        OtherFile(system.files[i], writer, d, c, table[i]);
      } else {
        SameData(system.files[i], writer);
      }
    }
  }

  lemma SameData(fd: FatFiles.FileDescriptor, writer: FatFiles.FileDescriptor)
    requires SameFile(fd, writer) && writer.Mounted()
    ensures fd.Mounted() && DataOf(fd) == DataOf(writer)
  {
  }

  ghost predicate SameFile(a: FatFiles.FileDescriptor, b: FatFiles.FileDescriptor) {
    a.volume == b.volume && a.entry == b.entry
  }

  /** Word k of the page is what the file, as it is now, has at an offset, exactly if the page starts inside it, or its chain
      is zero there. */
  ghost predicate ReadsLate(f: FileData, contents: seq<bv8>, offset: nat, k: nat, v: Option<Word>) {
    && InReach(f, offset) && f.size == |contents| && k < ENTRIES && (v.Some? ==> v.value == LoadedPage(f, offset)[k])
    && (ShowsFile(LoadedPage(f, offset), contents, offset) <==> offset <= |contents| || Zeroes(f.chain, offset))
  }

  lemma ReadsLateIf(f: FileData, contents: seq<bv8>, offset: nat, k: nat, v: Option<Word>)
    requires InReach(f, offset) && f.chain[..f.size] == contents && k < ENTRIES
    requires v.Some? ==> v.value == LoadedPage(f, offset)[k]
    ensures ReadsLate(f, contents, offset, k, v)
  {
    LoadedShows(f, offset);
  }

  /** Task t maps a file, the file is written, and only then does the task read a word of page i of the mapping. It reads the
      file as written since, if the page starts in what was written, or in its chain as it was. */
  method MapWriteFetch(system: AppSystem, t: int, fd: int, writer: FatFiles.FileDescriptor, bufs: seq<seq<bv8>>, i: nat, k: nat,
                       ghost table: map<int, FileData>) returns (v: Option<Word>)
    requires system.Valid() && t in system.contexts && system.FilesHold(table) && fd in system.files && OneVolume(system, writer)
    requires SameFile(system.files[fd], writer) && FatRuns.Streaming(writer, bufs) && writer.written == []
    requires bufs != [] && |FatRuns.Flatten(bufs)| < FatFiles.SIZE_LIMIT
    requires t in system.areas && fd in table && i < PageCount(table[fd].size) <= system.areas[t].fileMapEnd && k < ENTRIES
    requires var n := system.areas[t].fileMapEnd - PageCount(table[fd].size) + i; UPPER <= n < LIMIT && Untouched(system, t, n)
    requires i * PAGE_BYTES + PAGE_BYTES < FatFiles.WORD
    requires i * PAGE_BYTES <= |FatRuns.Flatten(bufs)| || i * PAGE_BYTES + PAGE_BYTES <= |table[fd].chain|
    modifies system, system.paging`mem, system.paging.manager.allocMap
    modifies writer`wrOff, writer`wrCluster, writer`wrClusterOff, writer`spots, writer`written
    modifies writer.entry, writer.volume.fat, writer.volume.data
    ensures system.Valid() && writer.Mounted() && FatFiles.Contents(writer.volume, writer.entry) == FatRuns.Flatten(bufs)
    ensures ReadsLate(DataOf(writer), FatRuns.Flatten(bufs), i * PAGE_BYTES, k, v)
    ensures v.None? ==> system.paging.Exhausted()
  {
    hide *;
    ghost var a, spaces := system.areas[t], system.Spaces();
    SpacesIs(system, t);
    UntouchedIs(system, t, a.fileMapEnd - PageCount(table[fd].size) + i);
    var begin := system.MapFile(t, fd, table);
    Rewrite(system, fd, writer, bufs, table);
    ghost var after := Rewritten(system, table, writer);
    RewrittenAt(system, table, writer, fd);
    WrittenReach(DataOf(writer), FatRuns.Flatten(bufs), i);
    FaultsIn(a, fd, PageCount(table[fd].size), i, after, spaces[App(t)]);
    SpacesIs(system, t);
    assert system.Spaces() == spaces;
    v := system.Fetch(t, begin.value + i, k, after);
    ReadsLateIf(DataOf(writer), FatRuns.Flatten(bufs), i * PAGE_BYTES, k, v);
  }

  lemma RewrittenAt(system: AppSystem, table: map<int, FileData>, writer: FatFiles.FileDescriptor, fd: int)
    requires system.files.Keys == table.Keys && fd in table && SameFile(system.files[fd], writer) && writer.Mounted()
    ensures fd in Rewritten(system, table, writer) && Rewritten(system, table, writer)[fd] == DataOf(writer)
  {
  }

  lemma WrittenReach(f: FileData, contents: seq<bv8>, i: nat)
    requires f.size <= |f.chain| && f.chain[..f.size] == contents && i * PAGE_BYTES + PAGE_BYTES < FatFiles.WORD
    requires i * PAGE_BYTES <= |contents| || i * PAGE_BYTES + PAGE_BYTES <= |f.chain|
    ensures i * PAGE_BYTES >= 0 && InReach(f, i * PAGE_BYTES)
  {
  }

  lemma SpacesIs(system: AppSystem, t: int)
    requires system.Valid() && t in system.contexts
    ensures system.Spaces() == Views(system.state) && App(t) in system.Spaces() && t in system.areas
  {
    system.WhoIsThere(t, 0);
  }

  lemma UntouchedIs(system: AppSystem, t: int, n: nat)
    requires Untouched(system, t, n)
    ensures App(t) in system.Spaces() && n !in system.Spaces()[App(t)] && t in system.areas
    ensures !(system.areas[t].dpagingBegin <= n < system.areas[t].dpagingEnd)
    ensures FindFileMapping(system.areas[t].fileMaps, n).None?
  {
  }

  lemma SameParts(system: AppSystem, table: map<int, FileData>, fd: int, writer: FatFiles.FileDescriptor)
    requires system.FilesHold(table) && fd in table && fd in system.files && SameFile(system.files[fd], writer)
    ensures |table[fd].chain| == |writer.entry.clusters| * writer.volume.bytesPerCluster
  {
    system.files[fd].RawIs();
  }

  lemma LongerChain(writer: FatFiles.FileDescriptor, n: nat, length: nat)
    requires writer.Mounted() && n <= |writer.entry.clusters| && length == n * writer.volume.bytesPerCluster
    ensures |DataOf(writer).chain| >= length && DataOf(writer).size <= |DataOf(writer).chain|
    ensures DataOf(writer).chain[..DataOf(writer).size] == FatFiles.Contents(writer.volume, writer.entry)
  {
    DataIs(writer);
    writer.RawIs();
    hide FatFiles.FileDescriptor.Mounted, FatFiles.FileDescriptor.Raw;
    FatWrites.Multiply(n, |writer.entry.clusters|, writer.volume.bytesPerCluster);
  }
}
