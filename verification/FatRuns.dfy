/** A file refines a sequence of bytes: whole series of writes, and of reads in chunks of any size. */
module FatRuns {
  import opened FatChains
  import opened FatPlacement
  import opened FatWrites
  import opened FatFiles

  ghost predicate Apart(g: seq<nat>, c: seq<nat>) {
    forall x <- g :: x !in c
  }

  /** Every other chain of the volume, hence every other file, keeps its clusters and its bytes. */
  ghost predicate OthersKept(d: Disk, c: seq<nat>, d': Disk, c': seq<nat>) {
    forall g | Chain(d.fat, g) && Apart(g, c) && Within(d.data, g) ::
      Chain(d'.fat, g) && Apart(g, c') && Within(d'.data, g) && Concat(d'.data, g) == Concat(d.data, g)
  }

  lemma OthersKeptAcross(d: Disk, c: seq<nat>, d1: Disk, c1: seq<nat>, d2: Disk, c2: seq<nat>)
    requires OthersKept(d, c, d1, c1) && OthersKept(d1, c1, d2, c2)
    ensures OthersKept(d, c, d2, c2)
  {
  }

  lemma AllocationKeeps(d: Disk, fat: seq<nat>, n: nat)
    requires 0 < n <= |Free(d.fat)| && Allocated(d.fat, fat, Free(d.fat)[..n])
    ensures OthersKept(d, [], Disk(fat, d.data), Free(d.fat)[..n])
  {
    forall g | Chain(d.fat, g) && Apart(g, []) && Within(d.data, g)
      ensures Chain(fat, g) && Apart(g, Free(d.fat)[..n])
    {
      AllocatedOther(d.fat, fat, n, g);
    }
  }

  lemma WriteKeeps(b: nat, d0: Disk, f0: Cursor, buf: seq<bv8>, d: Disk, f: Cursor)
    requires Wrote(b, d0, f0, buf, d, f)
    ensures OthersKept(d0, f0.clusters, d, f.clusters)
  {
    forall g | Chain(d0.fat, g) && Apart(g, f0.clusters) && Within(d0.data, g)
      ensures Chain(d.fat, g) && Apart(g, f.clusters) && Within(d.data, g) && Concat(d.data, g) == Concat(d0.data, g)
    {
      WroteOther(b, d0, f0, buf, d, f, g);
    }
  }

  /** The file's bytes from the end of its first n clusters on are those of one block. */
  ghost predicate Stale(data: seq<seq<bv8>>, clusters: seq<nat>, b: nat, n: nat, block: seq<bv8>) {
    && Within(data, clusters)
    && var at := n * b;
       at + b <= |Concat(data, clusters)| && Concat(data, clusters)[at..at + b] == block
  }

  /** Exactly what a write makes of a file that was in order. With at most one new cluster the file reads back as
      written. With more, the bytes from the old end of the chain on are those that the first free cluster held before. */
  lemma WriteExactly(b: nat, d0: Disk, f0: Cursor, buf: seq<bv8>, d: Disk, f: Cursor)
    requires Wrote(b, d0, f0, buf, d, f) && InOrder(f0.spots)
    ensures Within(d.data, f.clusters) && |f.written| <= |Concat(d.data, f.clusters)| && f.written == f0.written + buf
    ensures NewClusters(b, f0, |buf|) <= 1 ==> Concat(d.data, f.clusters)[..|f.written|] == f.written
    ensures NewClusters(b, f0, |buf|) > 1 ==>
              && Free(d0.fat) != [] && Free(d0.fat)[0] < |d0.data| && (|f0.clusters| + 1) * b <= |f.written|
              && Stale(d.data, f.clusters, b, |f0.clusters|, d0.data[Free(d0.fat)[0]])
  {
    hide *;
    WroteFile(b, d0, f0, buf, d, f);
    PlacedOff(d.data, b, f);
    PlacedBlocks(d.data, b, f);
    ConcatLength(d.data, f.clusters, b);
    if NewClusters(b, f0, |buf|) <= 1 {
      WroteReadsBack(b, d0, f0, buf, d, f);
    } else {
      WroteHole(b, d0, f0, buf, d, f);
      ConcatSlice(d.data, f.clusters, b, |f0.clusters|, 0, b);
      StaleIs(d.data, f.clusters, b, |f0.clusters|);
    }
  }

  lemma StaleIs(data: seq<seq<bv8>>, clusters: seq<nat>, b: nat, n: nat)
    requires Within(data, clusters) && n < |clusters| && n * b + 0 + b <= |Concat(data, clusters)|
    requires Concat(data, clusters)[n * b + 0..n * b + 0 + b] == data[clusters[n]]
    ensures Stale(data, clusters, b, n, data[clusters[n]])
  {
  }

  lemma PlacedBlocks(data: seq<seq<bv8>>, b: nat, f: Cursor)
    requires Placed(data, b, f)
    ensures Blocks(data, b) && forall c :: 0 <= c < |data| ==> data[c][0..0 + b] == data[c]
  {
  }

  // ----- which series of writes keep the file in order -----

  /** The clusters of the file after a write of len bytes at offset size that needs at most one new cluster. */
  function ClustersFor(b: nat, n: nat, size: nat, len: nat): nat
    requires b > 0
  {
    if n == 0 then Max(1, NumCluster(len, b)) else if size + len <= n * b then n else n + 1
  }

  /** Each write that grows an existing chain needs at most one new cluster. */
  ghost predicate Gradual(b: nat, n: nat, size: nat, bufs: seq<seq<bv8>>)
    requires b > 0
    decreases |bufs|
  {
    bufs == [] ||
    (var n' := ClustersFor(b, n, size, |bufs[0]|);
     size + |bufs[0]| <= n' * b && Gradual(b, n', size + |bufs[0]|, bufs[1..]))
  }

  ghost function ClustersAfter(b: nat, n: nat, size: nat, bufs: seq<seq<bv8>>): nat
    requires b > 0
    decreases |bufs|
  {
    if bufs == [] then n else ClustersAfter(b, ClustersFor(b, n, size, |bufs[0]|), size + |bufs[0]|, bufs[1..])
  }

  lemma {:induction false} ClustersGrow(b: nat, n: nat, size: nat, bufs: seq<seq<bv8>>)
    requires b > 0
    ensures ClustersAfter(b, n, size, bufs) >= n
    decreases |bufs|
  {
    if bufs != [] {
      ClustersGrow(b, ClustersFor(b, n, size, |bufs[0]|), size + |bufs[0]|, bufs[1..]);
    }
  }

  ghost function Flatten(bufs: seq<seq<bv8>>): seq<bv8> {
    if bufs == [] then [] else Flatten(bufs[..|bufs| - 1]) + bufs[|bufs| - 1]
  }

  /** How many new clusters a write in order needs: none within the chain, one in the next cluster's worth. */
  lemma InOrderNeeds(data: seq<seq<bv8>>, b: nat, f: Cursor, len: nat)
    requires Placed(data, b, f) && InOrder(f.spots)
    ensures NewClusters(b, f, len) == 0 <==> |f.written| + len <= |f.clusters| * b
    ensures NewClusters(b, f, len) <= 1 <==> |f.written| + len <= (|f.clusters| + 1) * b
  {
    PlacedOff(data, b, f);
    InOrderLast(f.spots);
    PlacedLength(data, b, f);
    var n, p := |f.clusters|, |f.spots| - 1;
    hide Placed, InOrder, InChain, Within, NumCluster;
    assert (n - p) * b - f.off == n * b - |f.written|;
    assert (n + 1) * b == n * b + b;
    var more := |f.written| + len - n * b;
    if more > 0 {
      Clusters(more, b);
    }
  }

  lemma Clusters(bytes: nat, b: nat)
    requires b > 0 && bytes > 0
    ensures NumCluster(bytes, b) >= 1 && (NumCluster(bytes, b) == 1 <==> bytes <= b)
  {
    if bytes <= b {
      NumClusterOf(0, bytes, b);
    } else {
      NumClusterBelow(bytes, 1, b);
    }
  }

  lemma FlattenNext(bufs: seq<seq<bv8>>, i: nat)
    requires i < |bufs|
    ensures Flatten(bufs[..i + 1]) == Flatten(bufs[..i]) + bufs[i]
  {
    assert bufs[..i + 1][..i] == bufs[..i];
  }

  /** A descriptor in the middle of a series of writes: what was written is in the chain, in order; the rest of the
      series is gradual, and enough clusters are free for it. */
  ghost predicate Streaming(fd: FileDescriptor, rest: seq<seq<bv8>>)
    reads fd, fd.volume, fd.volume.fat, fd.volume.data, fd.entry
  {
    var b, n := fd.volume.bytesPerCluster, |fd.entry.clusters|;
    && fd.CanWrite() && (fd.wrCluster == 0 ==> fd.written == []) && (fd.wrCluster != 0 ==> InOrder(fd.spots))
    && Gradual(b, n, |fd.written|, rest) && ClustersAfter(b, n, |fd.written|, rest) - n <= |Free(fd.volume.fat[..])|
  }

  /** The next write of the series finds its clusters, at most one of them new if the file has a chain already. */
  lemma StreamingWrites(fd: FileDescriptor, rest: seq<seq<bv8>>)
    requires Streaming(fd, rest) && rest != []
    ensures fd.CanWrite() && fd.Enough(|rest[0]|)
    ensures fd.entry.clusters != [] ==>
              && InOrder(fd.WriteStart().spots) && fd.WriteStart().written == fd.written
              && NewClusters(fd.volume.bytesPerCluster, fd.WriteStart(), |rest[0]|) <= 1
              && |fd.entry.clusters| + NewClusters(fd.volume.bytesPerCluster, fd.WriteStart(), |rest[0]|)
                 == ClustersFor(fd.volume.bytesPerCluster, |fd.entry.clusters|, |fd.written|, |rest[0]|)
  {
    var b, n, len := fd.volume.bytesPerCluster, |fd.entry.clusters|, |rest[0]|;
    var free := |Free(fd.volume.fat[..])|;
    ClustersGrow(b, ClustersFor(b, n, |fd.written|, len), |fd.written| + len, rest[1..]);
    if n > 0 {
      if fd.wrCluster == 0 {
        fd.StartOfFile();
      }
      var f := fd.WriteStart();
      assert Placed(fd.volume.data[..], b, f) && InOrder(f.spots) && f.written == fd.written;
      hide Placed, InOrder, Free, NewClusters, Gradual, ClustersAfter, InPlace, Chain;
      InOrderNeeds(fd.volume.data[..], b, f, len);
      assert Triangle(0) == 0 && Triangle(1) == 1;
    }
  }

  lemma StreamingNext(fd: FileDescriptor, rest: seq<seq<bv8>>, n: nat, size: nat, free: nat)
    requires fd.CanWrite() && fd.wrCluster != 0 && InOrder(fd.spots) && rest != []
    requires Gradual(fd.volume.bytesPerCluster, n, size, rest) && ClustersAfter(fd.volume.bytesPerCluster, n, size, rest) - n <= free
    requires |fd.entry.clusters| == ClustersFor(fd.volume.bytesPerCluster, n, size, |rest[0]|)
    requires |fd.written| == size + |rest[0]| && |Free(fd.volume.fat[..])| == free - (|fd.entry.clusters| - n)
    ensures Streaming(fd, rest[1..])
  {
  }

  /** What the write of the next buffer of a series adds to a file that had chain c on disk d. */
  lemma Appended(b: nat, d: Disk, c: seq<nat>, size: nat, buf: seq<bv8>, d0: Disk, f0: Cursor, d': Disk, f': Cursor, m: nat)
    requires Wrote(b, d0, f0, buf, d', f') && InOrder(f0.spots) && b > 0
    requires c == [] ==> m == Max(1, NumCluster(|buf|, b)) <= |Free(d.fat)| && d0.data == d.data
                         && Allocated(d.fat, d0.fat, Free(d.fat)[..m]) && f0 == Cursor(Free(d.fat)[..m], [0], 0, [])
    requires c != [] ==> d0 == d && f0.clusters == c && NewClusters(b, f0, |buf|) <= 1
                         && |c| + NewClusters(b, f0, |buf|) == ClustersFor(b, |c|, size, |buf|)
    ensures InOrder(f'.spots) && |f'.clusters| == ClustersFor(b, |c|, size, |buf|) && |f'.clusters| >= |c|
    ensures |Free(d'.fat)| == |Free(d.fat)| - (|f'.clusters| - |c|)
    ensures OthersKept(d, c, d', f'.clusters)
  {
    hide Wrote, NewClusters, NumCluster, Free, Allocated, OthersKept, InOrder, Chain;
    if c == [] {
      NewFileFits(f0.clusters, |buf|, b);
      AllocatedFree(d.fat, d0.fat, m);
      AllocationKeeps(d, d0.fat, m);
      assert ClustersFor(b, 0, size, |buf|) == m;
    }
    WroteInOrder(b, d0, f0, buf, d', f');
    WroteGrowth(b, d0, f0, buf, d', f');
    assert Triangle(0) == 0 && Triangle(1) == 1;
    WriteKeeps(b, d0, f0, buf, d', f');
    OthersKeptAcross(d, c, d0, f0.clusters, d', f'.clusters);
  }

  lemma OthersSame(d: Disk, c: seq<nat>)
    ensures OthersKept(d, c, d, c)
  {
  }

  /** One write of a gradual series appends to the file and leaves every other file alone. */
  method StreamWrite(fd: FileDescriptor, rest: seq<seq<bv8>>)
    requires Streaming(fd, rest) && rest != []
    modifies fd`wrOff, fd`wrCluster, fd`wrClusterOff, fd`spots, fd`written, fd.entry, fd.volume.fat, fd.volume.data
    ensures Streaming(fd, rest[1..]) && fd.wrCluster != 0 && fd.written == old(fd.written) + rest[0]
    ensures fd.entry.fileSize == |fd.written| % SIZE_LIMIT && |fd.entry.clusters| >= |old(fd.entry.clusters)|
    ensures fd.volume.bytesPerCluster > 0
    ensures |fd.entry.clusters| == ClustersFor(fd.volume.bytesPerCluster, |old(fd.entry.clusters)|, |old(fd.written)|, |rest[0]|)
    ensures |Free(fd.Image().fat)| + |fd.entry.clusters| == |Free(old(fd.Image()).fat)| + |old(fd.entry.clusters)|
    ensures OthersKept(old(fd.Image()), old(fd.entry.clusters), fd.Image(), fd.entry.clusters)
  {
    ghost var b, d, c, size := fd.volume.bytesPerCluster, fd.Image(), fd.entry.clusters, |fd.written|;
    ghost var m := StreamingFacts(fd, rest);
    StreamingWrites(fd, rest);
    hide Streaming, Wrote, Chain, Free, Allocated, Placed, InPlace, InOrder, NewClusters, NumCluster, Gradual, ClustersAfter,
         ClustersFor, OthersKept, Volume.Valid, DirectoryEntry.Valid, FileDescriptor.Mounted, FileDescriptor.CanWrite,
         FileDescriptor.Enough, Max;
    var total, d0, f0 := fd.Write(rest[0]);
    OthersSame(d, c);
    InOrderStart();
    Appended(b, d, c, size, rest[0], d0, f0, fd.Image(), fd.Here(), m);
    WrittenSize(fd);
    StreamingNext(fd, rest, |c|, size, |Free(d.fat)|);
  }

  lemma InOrderStart()
    ensures InOrder([0])
  {
  }

  lemma WrittenSize(fd: FileDescriptor)
    requires fd.CanWrite()
    ensures fd.wrOff == |fd.written|
  {
  }

  lemma StreamingFacts(fd: FileDescriptor, rest: seq<seq<bv8>>) returns (m: nat)
    requires Streaming(fd, rest) && rest != []
    ensures var b, n := fd.volume.bytesPerCluster, |fd.entry.clusters|;
            && b > 0 && Gradual(b, n, |fd.written|, rest)
            && ClustersAfter(b, n, |fd.written|, rest) - n <= |Free(fd.volume.fat[..])|
    ensures fd.Mounted() && (fd.wrCluster == 0 ==> fd.written == [])
    ensures fd.entry.clusters == [] ==>
              && fd.wrCluster == 0 && m == Max(1, NumCluster(|rest[0]|, fd.volume.bytesPerCluster)) <= |Free(fd.volume.fat[..])|
              && fd.Enough(|rest[0]|) && fd.FirstChain(|rest[0]|) == Free(fd.volume.fat[..])[..m]
  {
    StreamingWrites(fd, rest);
    m := Max(1, NumCluster(|rest[0]|, fd.volume.bytesPerCluster));
  }

  /** In order, the file as it reads back is what was written. */
  lemma StreamContents(fd: FileDescriptor, rest: seq<seq<bv8>>)
    requires Streaming(fd, rest) && fd.wrCluster != 0 && fd.entry.fileSize == |fd.written|
    ensures fd.Mounted() && Contents(fd.volume, fd.entry) == fd.written
  {
    PlacedInOrder(fd.volume.data[..], fd.volume.bytesPerCluster, fd.Here());
  }

  /** A series of writes through one descriptor, each of which needs at most one new cluster if the file has a chain:
      the file is the concatenation of what was written, and every other file is as it was. */
  method WriteAll(fd: FileDescriptor, bufs: seq<seq<bv8>>)
    requires Streaming(fd, bufs) && fd.written == [] && bufs != [] && |Flatten(bufs)| < SIZE_LIMIT
    modifies fd`wrOff, fd`wrCluster, fd`wrClusterOff, fd`spots, fd`written, fd.entry, fd.volume.fat, fd.volume.data
    ensures fd.Mounted() && Contents(fd.volume, fd.entry) == Flatten(bufs) && |fd.entry.clusters| >= |old(fd.entry.clusters)|
    ensures OthersKept(old(fd.Image()), old(fd.entry.clusters), fd.Image(), fd.entry.clusters)
    ensures fd.volume.bytesPerCluster > 0
    ensures |fd.entry.clusters| == ClustersAfter(fd.volume.bytesPerCluster, |old(fd.entry.clusters)|, 0, bufs)
    ensures |Free(fd.Image().fat)| + |fd.entry.clusters| == |Free(old(fd.Image()).fat)| + |old(fd.entry.clusters)|
  {
    hide *;
    ghost var d, c := fd.Image(), fd.entry.clusters;
    ProgressStarts(fd, bufs, d, c);
    var i := 0;
    while i < |bufs|
      invariant i <= |bufs| && Progress(fd, bufs, i, d, c)
      decreases |bufs| - i
    {
      ghost var d1, c1, w := fd.Image(), fd.entry.clusters, fd.written;
      ProgressFacts(fd, bufs, i, d, c);
      StreamWrite(fd, bufs[i..]);
      ProgressSteps(fd, bufs, i, d, c, d1, c1, w);
      i := i + 1;
    }
    ProgressEnds(fd, bufs, d, c);
  }

  /** The first i writes of a series have been made; d and c are the disk and the file's chain before them. */
  ghost predicate Progress(fd: FileDescriptor, bufs: seq<seq<bv8>>, i: nat, d: Disk, c: seq<nat>)
    reads fd, fd.volume, fd.volume.fat, fd.volume.data, fd.entry
  {
    && i <= |bufs| && Streaming(fd, bufs[i..]) && fd.written == Flatten(bufs[..i])
    && (i > 0 ==> fd.wrCluster != 0 && fd.entry.fileSize == |fd.written| % SIZE_LIMIT)
    && OthersKept(d, c, fd.Image(), fd.entry.clusters) && |c| <= |fd.entry.clusters|
    && Counted(fd.volume.bytesPerCluster, fd.entry.clusters, |fd.written|, bufs[i..], fd.Image().fat, bufs, d.fat, c)
  }

  /** How many clusters the file will have after the rest of a series does not change on the way, nor does the number of the
      clusters that are the file's or free. */
  ghost predicate Counted(b: nat, clusters: seq<nat>, size: nat, rest: seq<seq<bv8>>, fat: seq<nat>, bufs: seq<seq<bv8>>,
                          fat0: seq<nat>, c: seq<nat>) {
    && b > 0 && ClustersAfter(b, |clusters|, size, rest) == ClustersAfter(b, |c|, 0, bufs)
    && |Free(fat)| + |clusters| == |Free(fat0)| + |c|
  }

  lemma CountedNext(b: nat, c1: seq<nat>, size: nat, rest: seq<seq<bv8>>, fat1: seq<nat>, bufs: seq<seq<bv8>>, fat0: seq<nat>,
                    c: seq<nat>, c2: seq<nat>, fat2: seq<nat>)
    requires Counted(b, c1, size, rest, fat1, bufs, fat0, c) && rest != [] && |c2| == ClustersFor(b, |c1|, size, |rest[0]|)
    requires |Free(fat2)| + |c2| == |Free(fat1)| + |c1|
    ensures Counted(b, c2, size + |rest[0]|, rest[1..], fat2, bufs, fat0, c)
  {
  }

  lemma ProgressStarts(fd: FileDescriptor, bufs: seq<seq<bv8>>, d: Disk, c: seq<nat>)
    requires Streaming(fd, bufs) && fd.written == [] && d == fd.Image() && c == fd.entry.clusters
    ensures Progress(fd, bufs, 0, d, c)
  {
    OthersSame(d, c);
    StreamingBytes(fd, bufs);
    hide Streaming, OthersKept;
    assert bufs[0..] == bufs && bufs[..0] == [];
  }

  lemma StreamingBytes(fd: FileDescriptor, rest: seq<seq<bv8>>)
    requires Streaming(fd, rest)
    ensures fd.volume.bytesPerCluster > 0
  {
  }

  lemma ProgressFacts(fd: FileDescriptor, bufs: seq<seq<bv8>>, i: nat, d: Disk, c: seq<nat>)
    requires Progress(fd, bufs, i, d, c) && i < |bufs|
    ensures Streaming(fd, bufs[i..]) && fd.written == Flatten(bufs[..i]) && OthersKept(d, c, fd.Image(), fd.entry.clusters)
    ensures |c| <= |fd.entry.clusters|
    ensures Counted(fd.volume.bytesPerCluster, fd.entry.clusters, |fd.written|, bufs[i..], fd.Image().fat, bufs, d.fat, c)
  {
  }

  lemma ProgressSteps(fd: FileDescriptor, bufs: seq<seq<bv8>>, i: nat, d: Disk, c: seq<nat>, d1: Disk, c1: seq<nat>,
                      w: seq<bv8>)
    requires i < |bufs| && w == Flatten(bufs[..i]) && OthersKept(d, c, d1, c1)
    requires Streaming(fd, bufs[i..][1..]) && fd.wrCluster != 0 && fd.written == w + bufs[i..][0]
    requires fd.entry.fileSize == |fd.written| % SIZE_LIMIT && OthersKept(d1, c1, fd.Image(), fd.entry.clusters)
    requires |c| <= |c1| <= |fd.entry.clusters| && Counted(fd.volume.bytesPerCluster, c1, |w|, bufs[i..], d1.fat, bufs, d.fat, c)
    requires |fd.entry.clusters| == ClustersFor(fd.volume.bytesPerCluster, |c1|, |w|, |bufs[i..][0]|)
    requires |Free(fd.Image().fat)| + |fd.entry.clusters| == |Free(d1.fat)| + |c1|
    ensures Progress(fd, bufs, i + 1, d, c)
  {
    OthersKeptAcross(d, c, d1, c1, fd.Image(), fd.entry.clusters);
    CountedNext(fd.volume.bytesPerCluster, c1, |w|, bufs[i..], d1.fat, bufs, d.fat, c, fd.entry.clusters, fd.Image().fat);
    hide Streaming, OthersKept, Flatten, Counted, ClustersFor, Free;
    assert bufs[i..][0] == bufs[i] && bufs[i..][1..] == bufs[i + 1..];
    FlattenNext(bufs, i);
  }

  lemma ProgressEnds(fd: FileDescriptor, bufs: seq<seq<bv8>>, d: Disk, c: seq<nat>)
    requires Progress(fd, bufs, |bufs|, d, c) && bufs != [] && |Flatten(bufs)| < SIZE_LIMIT
    ensures fd.Mounted() && Contents(fd.volume, fd.entry) == Flatten(bufs)
    ensures OthersKept(d, c, fd.Image(), fd.entry.clusters) && |c| <= |fd.entry.clusters|
    ensures fd.volume.bytesPerCluster > 0 && |fd.entry.clusters| == ClustersAfter(fd.volume.bytesPerCluster, |c|, 0, bufs)
    ensures |Free(fd.Image().fat)| + |fd.entry.clusters| == |Free(d.fat)| + |c|
  {
    hide Streaming, OthersKept, Contents, FileDescriptor.Mounted, Flatten;
    assert bufs[..|bufs|] == bufs;
    StreamContents(fd, bufs[|bufs|..]);
  }

  ghost function Sum(lens: seq<nat>): nat {
    if lens == [] then 0 else Sum(lens[..|lens| - 1]) + lens[|lens| - 1]
  }

  lemma SumNext(lens: seq<nat>, i: nat)
    requires i < |lens|
    ensures Sum(lens[..i + 1]) == Sum(lens[..i]) + lens[i]
  {
    assert lens[..i + 1][..i] == lens[..i];
  }

  lemma ChunksJoin(bytes: seq<bv8>, all: seq<bv8>, from: nat, mid: nat, to: nat, chunks: seq<seq<bv8>>, chunk: seq<bv8>)
    requires from <= mid <= to <= |all| && bytes == all && Flatten(chunks) == all[from..mid] && chunk == bytes[mid..to]
    ensures Flatten(chunks + [chunk]) == all[from..to]
  {
    assert (chunks + [chunk])[..|chunks|] == chunks;
  }

  /** n bytes were asked for since the cursor was at `from`; what was read of the file is in chunks. */
  ghost predicate ReadSoFar(fd: FileDescriptor, file: seq<bv8>, from: nat, n: nat, chunks: seq<seq<bv8>>)
    reads fd, fd.volume, fd.volume.fat, fd.volume.data, fd.entry
  {
    && fd.CanRead() && Contents(fd.volume, fd.entry) == file && |file| == fd.entry.fileSize
    && from <= fd.rdOff == Min(from + n, |file|) && Flatten(chunks) == file[from..fd.rdOff]
  }

  lemma ReadingStarts(fd: FileDescriptor)
    requires fd.CanRead()
    ensures ReadSoFar(fd, Contents(fd.volume, fd.entry), fd.rdOff, Sum([]), []) && fd.Mounted()
  {
    ContentsIs(fd.volume, fd.entry);
  }

  lemma ReadingIs(fd: FileDescriptor, file: seq<bv8>, from: nat, n: nat, chunks: seq<seq<bv8>>)
    requires ReadSoFar(fd, file, from, n, chunks)
    ensures fd.CanRead() && fd.Mounted() && |file| == fd.entry.fileSize && Contents(fd.volume, fd.entry) == file
    ensures from <= fd.rdOff == Min(from + n, |file|) <= |file| && Flatten(chunks) == file[from..fd.rdOff]
  {
  }

  lemma ReadingGoesOn(fd: FileDescriptor, file: seq<bv8>, from: nat, mid: nat, n: nat, len: nat, chunks: seq<seq<bv8>>, chunk: seq<bv8>)
    requires fd.CanRead() && Contents(fd.volume, fd.entry) == file && |file| == fd.entry.fileSize
    requires from <= mid == Min(from + n, |file|) && fd.rdOff == Min(mid + len, |file|) && Flatten(chunks) == file[from..mid]
    requires chunk == file[mid..fd.rdOff]
    ensures ReadSoFar(fd, file, from, n + len, chunks + [chunk])
  {
    hide Flatten, FileDescriptor.CanRead, Contents;
    ChunksJoin(file, file, from, mid, fd.rdOff, chunks, chunk);
  }

  /** One more read. */
  method ReadChunk(fd: FileDescriptor, len: nat, ghost file: seq<bv8>, ghost from: nat, ghost n: nat, ghost chunks: seq<seq<bv8>>)
      returns (chunk: seq<bv8>)
    requires ReadSoFar(fd, file, from, n, chunks)
    modifies fd`rdOff, fd`rdCluster, fd`rdClusterOff, fd`rdIndex
    ensures ReadSoFar(fd, file, from, n + len, chunks + [chunk])
  {
    hide FileDescriptor.CanRead, FileDescriptor.Overrun, Contents, Flatten, Volume.Valid, DirectoryEntry.Valid, ReadSoFar;
    ReadingIs(fd, file, from, n, chunks);
    ghost var mid := fd.rdOff;
    chunk := fd.Read(len);
    ReadingGoesOn(fd, file, from, mid, n, len, chunks, chunk);
  }

  /** Reading in chunks of any lengths gives the file from the cursor on, chunk after chunk, up to its end. */
  method ReadAll(fd: FileDescriptor, lens: seq<nat>) returns (chunks: seq<seq<bv8>>)
    requires fd.CanRead()
    modifies fd`rdOff, fd`rdCluster, fd`rdClusterOff, fd`rdIndex
    ensures fd.CanRead() && fd.rdOff == Min(old(fd.rdOff) + Sum(lens), fd.entry.fileSize) <= |Contents(fd.volume, fd.entry)|
    ensures Flatten(chunks) == Contents(fd.volume, fd.entry)[old(fd.rdOff)..fd.rdOff]
  {
    hide FileDescriptor.CanRead, Contents, Sum, Flatten, Volume.Valid, DirectoryEntry.Valid, ReadSoFar;
    ReadingStarts(fd);
    ghost var file, from := Contents(fd.volume, fd.entry), fd.rdOff;
    assert lens[..0] == [] && lens[..|lens|] == lens;
    chunks := [];
    var i := 0;
    while i < |lens|
      invariant i <= |lens| && ReadSoFar(fd, file, from, Sum(lens[..i]), chunks)
      decreases |lens| - i
    {
      SumNext(lens, i);
      var chunk := ReadChunk(fd, lens[i], file, from, Sum(lens[..i]), chunks);
      chunks := chunks + [chunk];
      i := i + 1;
    }
    ReadingIs(fd, file, from, Sum(lens), chunks);
  }

  /** A file saved by any gradual series of writes and then opened again reads back as what was written, whatever the
      lengths of the writes and of the reads. */
  method SaveAndLoad(volume: Volume, entry: DirectoryEntry, bufs: seq<seq<bv8>>, lens: seq<nat>) returns (chunks: seq<seq<bv8>>)
    requires volume.Valid() && entry.Valid(volume.fat[..], volume.bytesPerCluster) && bufs != [] && |Flatten(bufs)| < SIZE_LIMIT
    requires Gradual(volume.bytesPerCluster, |entry.clusters|, 0, bufs)
    requires ClustersAfter(volume.bytesPerCluster, |entry.clusters|, 0, bufs) - |entry.clusters| <= |Free(volume.fat[..])|
    modifies entry, volume.fat, volume.data
    ensures volume.Valid() && entry.Valid(volume.fat[..], volume.bytesPerCluster) && Contents(volume, entry) == Flatten(bufs)
    ensures Flatten(chunks) == Flatten(bufs)[..Min(Sum(lens), |Flatten(bufs)|)]
  {
    hide Volume.Valid, DirectoryEntry.Valid, Gradual, ClustersAfter, Free, Contents, Streaming, FileDescriptor.CanRead,
         OthersKept, Flatten, Sum;
    var writer := new FileDescriptor(volume, entry);
    FreshStreams(writer, bufs);
    WriteAll(writer, bufs);
    var reader := new FileDescriptor(volume, entry);
    ContentsIs(volume, entry);
    FreshReads(reader);
    chunks := ReadAll(reader, lens);
  }

  lemma FreshStreams(fd: FileDescriptor, bufs: seq<seq<bv8>>)
    requires fd.Mounted() && fd.wrOff == 0 && fd.wrCluster == 0 && fd.wrClusterOff == 0 && fd.written == []
    requires Gradual(fd.volume.bytesPerCluster, |fd.entry.clusters|, 0, bufs)
    requires ClustersAfter(fd.volume.bytesPerCluster, |fd.entry.clusters|, 0, bufs) - |fd.entry.clusters|
             <= |Free(fd.volume.fat[..])|
    ensures Streaming(fd, bufs)
  {
  }

  lemma FreshReads(fd: FileDescriptor)
    requires fd.Mounted() && fd.rdOff == 0 && fd.rdCluster == 0 && fd.rdClusterOff == 0
    ensures fd.CanRead()
  {
  }

  /** An empty file on a volume of six free one-byte clusters. */
  method OneByteVolume() returns (fd: FileDescriptor)
    ensures fresh(fd) && fresh(fd.entry) && fresh(fd.volume.fat) && fresh(fd.volume.data)
    ensures fd.CanWrite() && fd.Enough(1) && fd.entry.clusters == [] && fd.volume.bytesPerCluster == 1
    ensures Free(fd.volume.fat[..]) == [2, 3, 4, 5, 6, 7] && fd.FirstChain(1) == [2]
    ensures |fd.volume.data[..]| == 8 && fd.volume.data[..][3] == [9]
  {
    var fat := new nat[8][END_OF_CHAIN, END_OF_CHAIN, 0, 0, 0, 0, 0, 0];
    var data := new seq<bv8>[8][[9], [9], [9], [9], [9], [9], [9], [9]];
    var volume := new Volume(fat, data, 1);
    var entry := new DirectoryEntry.Empty();
    SixFree(fat[..]);
    OneByte();
    hide Free;
    fd := new FileDescriptor(volume, entry);
  }

  /** A write that needs two new clusters, through an in-order descriptor: to a file of one full one-byte cluster two
      more bytes are written, and the second byte of the file reads back as what was on the disk before. */
  method GrowByTwo() returns (volume: Volume, entry: DirectoryEntry)
    ensures volume.Valid() && entry.Valid(volume.fat[..], volume.bytesPerCluster)
    ensures |Contents(volume, entry)| == 3 && Contents(volume, entry)[1] == 9 && Contents(volume, entry) != [1, 2, 3]
  {
    var fd := OneByteVolume();
    var second := FirstWrite(fd);
    hide *;
    var _, d, f := fd.Write([2, 3]);
    WriteExactly(1, d, f, [2, 3], fd.Image(), fd.Here());
    ThreeBytes(fd, second);
    volume, entry := fd.volume, fd.entry;
    MountedParts(fd);
  }

  lemma MountedParts(fd: FileDescriptor)
    requires fd.Mounted()
    ensures fd.volume.Valid() && fd.entry.Valid(fd.volume.fat[..], fd.volume.bytesPerCluster)
  {
  }

  /** The file's first byte is written; the next write of two bytes needs two new clusters. */
  method FirstWrite(fd: FileDescriptor) returns (ghost second: seq<bv8>)
    requires fd.CanWrite() && fd.Enough(1) && fd.entry.clusters == [] && fd.volume.bytesPerCluster == 1
    requires Free(fd.volume.fat[..]) == [2, 3, 4, 5, 6, 7] && fd.FirstChain(1) == [2]
    requires |fd.volume.data[..]| == 8 && fd.volume.data[..][3] == [9]
    modifies fd`wrOff, fd`wrCluster, fd`wrClusterOff, fd`spots, fd`written, fd.entry, fd.volume.fat, fd.volume.data
    ensures fd.CanWrite() && fd.Enough(2) && fd.entry.clusters != [] && fd.WriteStart() == fd.Here()
    ensures NewClusters(1, fd.Here(), 2) == 2 && InOrder(fd.Here().spots) && |fd.Here().written| == 1
    ensures var free := Free(fd.Image().fat); free != [] && free[0] == 3 && |fd.Image().data| == 8 && fd.Image().data[3] == second
    ensures second == [9] && fd.entry.clusters == [2] && fd.entry.fileSize == 1 && fd.wrCluster != 0
  {
    hide *;
    ghost var fat0, data0 := fd.volume.fat[..], fd.volume.data[..];
    assert Free(fat0)[..1] == [2];
    var _, d0, f0 := fd.Write([1]);
    AllocatedFree(fat0, d0.fat, 1);
    FirstByte(data0, Free(fat0), d0, f0, fd.Image(), fd.Here());
    SecondWrite(fd);
    OneByteLong(fd);
    second := [9];
  }

  lemma OneByteLong(fd: FileDescriptor)
    requires fd.CanWrite() && fd.entry.fileSize == fd.wrOff % SIZE_LIMIT && fd.Here().written == [1] && fd.Here().clusters == [2]
    ensures fd.entry.fileSize == 1 && fd.entry.clusters == [2] && fd.written == [1]
  {
  }

  lemma SecondWrite(fd: FileDescriptor)
    requires fd.CanWrite() && fd.wrCluster != 0 && fd.volume.bytesPerCluster == 1 && fd.entry.clusters != []
    requires NewClusters(1, fd.Here(), 2) == 2 && |Free(fd.Image().fat)| == 5
    ensures fd.Enough(2) && fd.WriteStart() == fd.Here()
  {
  }

  lemma ThreeBytes(fd: FileDescriptor, block: seq<bv8>)
    requires fd.CanWrite() && fd.volume.bytesPerCluster == 1 && fd.entry.clusters != [] && |fd.written| == 3
    requires fd.entry.fileSize == fd.wrOff % SIZE_LIMIT && block == [9] && Stale(fd.volume.data[..], fd.entry.clusters, 1, 1, block)
    ensures fd.Mounted() && |Contents(fd.volume, fd.entry)| == 3 && Contents(fd.volume, fd.entry)[1] == 9
  {
    var all := Concat(fd.volume.data[..], fd.entry.clusters);
    ContentsWithin(fd.volume, fd.entry);
    assert all[1..2][0] == all[1] == all[..3][1];
  }

  lemma SixFree(fat: seq<nat>)
    requires fat == [END_OF_CHAIN, END_OF_CHAIN, 0, 0, 0, 0, 0, 0]
    ensures Free(fat) == [2, 3, 4, 5, 6, 7]
  {
    assert FreeFrom(fat, 8) == [];
    assert FreeFrom(fat, 7) == [7];
    assert FreeFrom(fat, 6) == [6, 7];
    assert FreeFrom(fat, 5) == [5, 6, 7];
    assert FreeFrom(fat, 4) == [4, 5, 6, 7];
    assert FreeFrom(fat, 3) == [3, 4, 5, 6, 7];
  }

  lemma FirstByte(data: seq<seq<bv8>>, free: seq<nat>, d0: Disk, f0: Cursor, d: Disk, f: Cursor)
    requires Wrote(1, d0, f0, [1], d, f) && f0 == Cursor([2], [0], 0, []) && d0.data == data && |free| == 6 && free[1] == 3
    requires |data| == 8 && data[3] == [9] && Free(d0.fat) == free[1..]
    ensures InOrder(f.spots) && f.clusters == [2] && Free(d.fat) == free[1..] && |d.data| == 8 && d.data[3] == [9]
    ensures NewClusters(1, f, 2) == 2 && f.written == [1]
  {
    hide *;
    OneByte();
    InOrderStart();
    WroteGrowth(1, d0, f0, [1], d, f);
    WroteInOrder(1, d0, f0, [1], d, f);
    WroteFile(1, d0, f0, [1], d, f);
    var m := WroteVisited(1, d0, f0, [1], d, f);
    OnlyFirst(d0.data, d.data, f, m);
    TwoMore(d.data, f);
    StepsAll(0);
  }

  lemma OneByte()
    ensures NewClusters(1, Cursor([2], [0], 0, []), 1) == 0 && Triangle(0) == 0
  {
  }

  lemma OnlyFirst(data: seq<seq<bv8>>, data': seq<seq<bv8>>, f: Cursor, m: nat)
    requires InChain(f) && OnlyVisited(data, data', f, m) && f.clusters == [2] && |data| == 8
    ensures |data'| == 8 && data'[3] == data[3]
  {
  }

  lemma TwoMore(data: seq<seq<bv8>>, f: Cursor)
    requires Placed(data, 1, f) && InOrder(f.spots) && f.clusters == [2] && f.written == [1]
    ensures NewClusters(1, f, 2) == 2
  {
    PlacedLength(data, 1, f);
    PlacedOff(data, 1, f);
    InOrderLast(f.spots);
    hide Placed, InOrder;
    assert Last(f.spots) == 0 && f.off == 1;
    assert NumCluster(2, 1) == 2;
  }
}
