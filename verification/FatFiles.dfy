/** Files on a FAT32 volume: directory entries and the descriptors that read and write through them. */
module FatFiles {
  import opened FatChains
  import opened FatPlacement
  import opened FatWrites

  const SIZE_LIMIT: nat := 0x1_0000_0000

  function Min(a: nat, b: nat): nat {
    if a <= b then a else b
  }

  function Max(a: nat, b: nat): nat {
    if a >= b then a else b
  }

  // ----- reading -----

  const WORD: nat := 0x1_0000_0000_0000_0000

  /** How many bytes are read: the difference of size and offset is one of 64-bit words. */
  function ReadLength(len: nat, size: nat, off: nat): nat {
    Min(len, (size - off) % WORD)
  }

  /** Reads stop at the end of the file exactly if they do not start behind it; from there on nothing stops them. */
  lemma ReadLengthExact(len: nat, size: nat, off: nat)
    requires size < SIZE_LIMIT && off + len < WORD
    ensures off <= size ==> ReadLength(len, size, off) == Min(len, size - off)
    ensures off > size ==> ReadLength(len, size, off) == len
    ensures ReadLength(len, size, off) == (if off <= size then Min(len, size - off) else 0) <==> off <= size || len == 0
  {
  }

  lemma ReadLengthInside(len: nat, size: nat, off: nat)
    requires size < SIZE_LIMIT && off <= size
    ensures ReadLength(len, size, off) == Min(len, size - off)
  {
  }

  /** Where the read cursor of a file is: in the cluster with index q of its chain, or behind the chain. */
  ghost predicate Located(b: nat, clusters: seq<nat>, q: nat, off: nat, cluster: nat, clusterOff: nat) {
    && clusterOff < b && off == Bytes(q, b) + clusterOff && q <= |clusters|
    && cluster == if q < |clusters| then clusters[q] else END_OF_CHAIN
  }

  /** Bytes that lie ahead in the file lie in the cursor's cluster, which is then one of the chain. */
  lemma LocatedInChain(b: nat, clusters: seq<nat>, q: nat, off: nat, cluster: nat, clusterOff: nat)
    requires Located(b, clusters, q, off, cluster, clusterOff) && off < |clusters| * b
    ensures q < |clusters| && cluster == clusters[q] && clusterOff < b
  {
    BytesIs(q, b);
  }

  /** A read cursor: cluster 0 stands for a file that no byte was read from yet. */
  ghost predicate ReadCursor(b: nat, clusters: seq<nat>, q: nat, off: nat, cluster: nat, clusterOff: nat) {
    if cluster == 0 then off == 0 && clusterOff == 0
    else clusters != [] && Located(b, clusters, q, off, cluster, clusterOff)
  }

  lemma ReadCursorStarts(fat: seq<nat>, b: nat, clusters: seq<nat>, q: nat, off: nat, cluster: nat, clusterOff: nat)
    requires ReadCursor(b, clusters, q, off, cluster, clusterOff) && Chain(fat, clusters) && b > 0
    ensures if cluster == 0 then Located(b, clusters, 0, off, clusters[0], clusterOff)
            else Located(b, clusters, q, off, cluster, clusterOff)
  {
    BytesIs(0, b);
  }

  lemma ReadCursorStays(fat: seq<nat>, b: nat, clusters: seq<nat>, q: nat, off: nat, cluster: nat, clusterOff: nat)
    requires Located(b, clusters, q, off, cluster, clusterOff) && Chain(fat, clusters)
    ensures ReadCursor(b, clusters, q, off, cluster, clusterOff)
  {
  }

  lemma LocatedOff(b: nat, clusters: seq<nat>, q: nat, off: nat, cluster: nat, clusterOff: nat)
    requires Located(b, clusters, q, off, cluster, clusterOff)
    ensures clusterOff < b
  {
  }

  lemma LocatedMoves(b: nat, clusters: seq<nat>, q: nat, off: nat, cluster: nat, clusterOff: nat, n: nat, next: nat)
    requires Located(b, clusters, q, off, cluster, clusterOff) && q < |clusters| && clusterOff + n <= b
    requires next == if q < |clusters| - 1 then clusters[q + 1] else END_OF_CHAIN
    ensures if clusterOff + n == b then Located(b, clusters, q + 1, off + n, next, 0)
                                   else Located(b, clusters, q, off + n, cluster, clusterOff + n)
  {
    BytesNext(q, b);
  }

  /** The bytes at the cursor, in its cluster, are those of the file at its offset. */
  lemma LocatedBytes(data: seq<seq<bv8>>, b: nat, clusters: seq<nat>, q: nat, off: nat, cluster: nat, clusterOff: nat, n: nat)
    requires Located(b, clusters, q, off, cluster, clusterOff) && q < |clusters| && clusterOff + n <= b
    requires Within(data, clusters) && Blocks(data, b)
    ensures cluster < |data| && |data[cluster]| == b && off + n <= |Concat(data, clusters)|
    ensures data[cluster][clusterOff..clusterOff + n] == Concat(data, clusters)[off..off + n]
  {
    ConcatSlice(data, clusters, b, q, clusterOff, n);
    BytesIs(q, b);
  }

  /** One step of the reading loop: m more bytes, all in the cursor's cluster. */
  lemma ReadStep(fat: seq<nat>, data: seq<seq<bv8>>, b: nat, clusters: seq<nat>, q: nat, off: nat, cluster: nat,
                 clusterOff: nat, m: nat, from: nat, bytes: seq<bv8>)
    requires Readable(fat, data, b, clusters, from, off + m) && from <= off
    requires Located(b, clusters, q, off, cluster, clusterOff) && m > 0 && clusterOff + m <= b
    requires bytes == Concat(data, clusters)[from..off]
    ensures q < |clusters| && cluster == clusters[q] && cluster < |data| && |data[cluster]| == b
    ensures bytes + data[cluster][clusterOff..clusterOff + m] == Concat(data, clusters)[from..off + m]
    ensures if clusterOff + m == b
            then Located(b, clusters, q + 1, off + m, if q < |clusters| - 1 then clusters[q + 1] else END_OF_CHAIN, 0)
            else Located(b, clusters, q, off + m, cluster, clusterOff + m)
  {
    hide *;
    ReadableLength(fat, data, b, clusters, from, off + m);
    LocatedInChain(b, clusters, q, off, cluster, clusterOff);
    LocatedBytes(data, b, clusters, q, off, cluster, clusterOff, m);
    LocatedMoves(b, clusters, q, off, cluster, clusterOff, m, if q < |clusters| - 1 then clusters[q + 1] else END_OF_CHAIN);
  }

  /** The file has bytes up to an offset. */
  ghost predicate Readable(fat: seq<nat>, data: seq<seq<bv8>>, b: nat, clusters: seq<nat>, from: nat, to: nat) {
    && Chain(fat, clusters) && Within(data, clusters) && Blocks(data, b) && from <= to <= |Concat(data, clusters)|
  }

  lemma ReadableLength(fat: seq<nat>, data: seq<seq<bv8>>, b: nat, clusters: seq<nat>, from: nat, to: nat)
    requires Readable(fat, data, b, clusters, from, to)
    ensures Within(data, clusters) && Blocks(data, b) && from <= to <= |Concat(data, clusters)| == |clusters| * b
  {
    ConcatLength(data, clusters, b);
  }

  lemma ReadableLess(fat: seq<nat>, data: seq<seq<bv8>>, b: nat, clusters: seq<nat>, from: nat, to: nat, less: nat)
    requires Readable(fat, data, b, clusters, from, to) && from <= less <= to
    ensures Readable(fat, data, b, clusters, from, less) && Within(data, clusters) && to <= |Concat(data, clusters)|
    ensures Chain(fat, clusters)
  {
  }

  /** A chain that grows keeps a read cursor in place, unless the cursor has already run off its end. */
  lemma LocatedGrows(b: nat, clusters: seq<nat>, more: seq<nat>, q: nat, off: nat, cluster: nat, clusterOff: nat)
    requires Located(b, clusters, q, off, cluster, clusterOff)
    requires forall c <- clusters + more :: c < END_MARKS
    ensures Located(b, clusters + more, q, off, cluster, clusterOff) <==> more == [] || cluster != END_OF_CHAIN
  {
    if q < |clusters| {
      assert (clusters + more)[q] == clusters[q] && clusters[q] in clusters + more;
    } else if more != [] {
      assert (clusters + more)[q] == more[0] && more[0] in clusters + more;
    } else {
      assert clusters + more == clusters;
    }
  }

  /** A directory entry: the split first cluster number and the size, as on disk. */
  class DirectoryEntry {
    var firstClusterLow: nat
    var firstClusterHigh: nat
    var fileSize: nat
    ghost var clusters: seq<nat>

    constructor Empty()
      ensures clusters == [] && fileSize == 0 && firstClusterLow == 0 && firstClusterHigh == 0
    {
      firstClusterLow, firstClusterHigh, fileSize, clusters := 0, 0, 0, [];
    }

    /** The entry of a file that has a chain. */
    constructor OfChain(clusters: seq<nat>, fileSize: nat)
      requires clusters != []
      ensures this.clusters == clusters && this.fileSize == fileSize
      ensures firstClusterLow == clusters[0] % 0x10000 && firstClusterHigh == clusters[0] / 0x10000
    {
      firstClusterLow, firstClusterHigh := clusters[0] % 0x10000, clusters[0] / 0x10000;
      this.fileSize, this.clusters := fileSize, clusters;
    }

    function FirstCluster(): nat
      reads this
    {
      firstClusterLow + firstClusterHigh * 0x10000
    }

    ghost predicate Valid(fat: seq<nat>, b: nat)
      reads this
    {
      && firstClusterLow < 0x10000 && fileSize < SIZE_LIMIT
      && if clusters == [] then FirstCluster() == 0 && fileSize == 0
         else Chain(fat, clusters) && FirstCluster() == clusters[0] && fileSize <= |clusters| * b
    }
  }

  lemma EntryChain(e: DirectoryEntry, fat: seq<nat>, b: nat)
    requires e.Valid(fat, b) && e.clusters != []
    ensures Chain(fat, e.clusters) && e.FirstCluster() == e.clusters[0] && e.clusters[0] >= FIRST_CLUSTER
    ensures e.fileSize <= |e.clusters| * b
  {
  }

  /** The halves of a cluster number give the number back. */
  lemma SplitCluster(cluster: nat)
    ensures cluster % 0x10000 + (cluster / 0x10000) * 0x10000 == cluster && cluster % 0x10000 < 0x10000
    ensures cluster < SIZE_LIMIT ==> cluster / 0x10000 == (cluster / 0x10000) % 0x10000
  {
  }

  /** A file as a sequence of bytes: those of its chain, up to its size. */
  ghost function Contents(v: Volume, e: DirectoryEntry): seq<bv8>
    requires v.Valid() && e.Valid(v.fat[..], v.bytesPerCluster)
    reads v, v.fat, v.data, e
  {
    if e.clusters == [] then [] else
    ContentsWithin(v, e);
    Concat(v.data[..], e.clusters)[..e.fileSize]
  }

  lemma ContentsWithin(v: Volume, e: DirectoryEntry)
    requires v.Valid() && e.Valid(v.fat[..], v.bytesPerCluster) && e.clusters != []
    ensures Within(v.data[..], e.clusters) && Blocks(v.data[..], v.bytesPerCluster)
    ensures |Concat(v.data[..], e.clusters)| == |e.clusters| * v.bytesPerCluster >= e.fileSize
  {
    ConcatLength(v.data[..], e.clusters, v.bytesPerCluster);
  }

  /** The contents of a file that has a chain. */
  lemma ContentsIs(v: Volume, e: DirectoryEntry)
    requires v.Valid() && e.Valid(v.fat[..], v.bytesPerCluster)
    ensures |Contents(v, e)| == e.fileSize && v.bytesPerCluster > 0
    ensures e.clusters != [] ==>
              && Readable(v.fat[..], v.data[..], v.bytesPerCluster, e.clusters, 0, e.fileSize)
              && e.FirstCluster() == e.clusters[0] && Contents(v, e) == Concat(v.data[..], e.clusters)[..e.fileSize]
    ensures e.clusters == [] ==> e.FirstCluster() == 0 && e.fileSize == 0
  {
    if e.clusters != [] {
      ContentsWithin(v, e);
    }
  }

  /** A range of a file's contents, in its chain. */
  lemma ContentsSlice(v: Volume, e: DirectoryEntry, from: nat, to: nat)
    requires v.Valid() && e.Valid(v.fat[..], v.bytesPerCluster) && from <= to <= e.fileSize
    ensures |Contents(v, e)| == e.fileSize && Contents(v, e)[from..from] == []
    ensures e.clusters == [] ==> to == 0
    ensures e.clusters != [] ==>
              && Readable(v.fat[..], v.data[..], v.bytesPerCluster, e.clusters, from, to)
              && Within(v.data[..], e.clusters) && to <= |Concat(v.data[..], e.clusters)|
              && Concat(v.data[..], e.clusters)[from..to] == Contents(v, e)[from..to]
  {
    ContentsIs(v, e);
    if e.clusters != [] {
      TakeSlice(Concat(v.data[..], e.clusters), e.fileSize, from, to);
    }
  }

  lemma TakeSlice(a: seq<bv8>, size: nat, from: nat, to: nat)
    requires from <= to <= size <= |a|
    ensures a[..size][from..to] == a[from..to]
  {
  }

  class FileDescriptor {
    const volume: Volume
    const entry: DirectoryEntry
    var rdOff: nat
    var rdCluster: nat
    var rdClusterOff: nat
    var wrOff: nat
    var wrCluster: nat
    var wrClusterOff: nat
    ghost var rdIndex: nat
    ghost var spots: seq<nat>
    ghost var written: seq<bv8>

    ghost predicate Mounted()
      reads volume, volume.fat, volume.data, entry
    {
      volume.Valid() && entry.Valid(volume.fat[..], volume.bytesPerCluster)
    }

    /** The read cursor is in the file. */
    ghost predicate CanRead()
      reads this, volume, volume.fat, volume.data, entry
    {
      && Mounted() && rdOff <= entry.fileSize
      && ReadCursor(volume.bytesPerCluster, entry.clusters, rdIndex, rdOff, rdCluster, rdClusterOff)
    }

    /** The read cursor is behind the end of the file, in its chain, which has len bytes more. */
    ghost predicate Overrun(len: nat)
      reads this, volume, volume.fat, volume.data, entry
    {
      && Mounted() && entry.clusters != [] && entry.fileSize < rdOff && rdOff + len < WORD
      && rdOff + len <= |entry.clusters| * volume.bytesPerCluster
      && ReadCursor(volume.bytesPerCluster, entry.clusters, rdIndex, rdOff, rdCluster, rdClusterOff)
    }

    /** The chain's bytes, of which the file is the first part. */
    ghost function Raw(): seq<bv8>
      requires Mounted()
      reads volume, volume.fat, volume.data, entry
    {
      if entry.clusters == [] then [] else
      ContentsWithin(volume, entry);
      Concat(volume.data[..], entry.clusters)
    }

    constructor (volume: Volume, entry: DirectoryEntry)
      ensures this.volume == volume && this.entry == entry
      ensures rdOff == 0 && rdCluster == 0 && rdClusterOff == 0
      ensures wrOff == 0 && wrCluster == 0 && wrClusterOff == 0 && written == []
    {
      this.volume, this.entry := volume, entry;
      rdOff, rdCluster, rdClusterOff, wrOff, wrCluster, wrClusterOff := 0, 0, 0, 0, 0, 0;
      rdIndex, spots, written := 0, [], [];
    }

    /** Copies the next bytes of the file, up to its end. A cursor behind the end gets the bytes of the chain instead. */
    method Read(len: nat) returns (bytes: seq<bv8>)
      requires CanRead() || Overrun(len)
      modifies this`rdOff, this`rdCluster, this`rdClusterOff, this`rdIndex
      ensures Mounted()
      ensures old(CanRead()) ==> CanRead() && rdOff == Min(old(rdOff) + len, entry.fileSize) <= |Contents(volume, entry)|
      ensures old(CanRead()) ==> bytes == Contents(volume, entry)[old(rdOff)..rdOff]
      ensures !old(CanRead()) ==> rdOff == old(rdOff) + len <= |Raw()| && bytes == Raw()[old(rdOff)..rdOff]
    {
      hide *;
      ghost var off := rdOff;
      ReadBegins(len);
      if rdCluster == 0 {
        rdCluster, rdIndex := entry.FirstCluster(), 0;
      }
      var n := ReadLength(len, entry.fileSize, rdOff);
      bytes := [];
      if n > 0 {
        ReadRange(len, n);
        bytes := ReadClusters(n);
      }
      RawSlice(off, off + n);
      rdOff := rdOff + |bytes|;
      ReadEnds(off, len, n);
    }

    lemma ReadBegins(len: nat)
      requires CanRead() || Overrun(len)
      ensures Mounted() && (CanRead() <==> rdOff <= entry.fileSize)
      ensures if rdOff <= entry.fileSize then ReadLength(len, entry.fileSize, rdOff) == Min(len, entry.fileSize - rdOff)
              else ReadLength(len, entry.fileSize, rdOff) == len && rdOff + len <= |Raw()|
      ensures entry.clusters == [] ==> entry.FirstCluster() == 0 && entry.fileSize == 0 && rdOff == 0
      ensures entry.clusters != [] ==>
                if rdCluster == 0
                then Located(volume.bytesPerCluster, entry.clusters, 0, rdOff, entry.FirstCluster(), rdClusterOff)
                else Located(volume.bytesPerCluster, entry.clusters, rdIndex, rdOff, rdCluster, rdClusterOff)
      ensures entry.clusters == [] ==> rdCluster == 0 && rdClusterOff == 0
      ensures rdOff + ReadLength(len, entry.fileSize, rdOff) <= |Raw()|
    {
      RawIs();
      if rdOff <= entry.fileSize {
        ReadLengthInside(len, entry.fileSize, rdOff);
      } else {
        ReadLengthExact(len, entry.fileSize, rdOff);
        ContentsWithin(volume, entry);
      }
      if entry.clusters != [] {
        ReadCursorStarts(volume.fat[..], volume.bytesPerCluster, entry.clusters, rdIndex, rdOff, rdCluster, rdClusterOff);
      }
    }

    /** What is read lies in the chain. */
    lemma ReadRange(len: nat, n: nat)
      requires Mounted() && n > 0 && n == ReadLength(len, entry.fileSize, rdOff)
      requires rdOff <= entry.fileSize ==> n == Min(len, entry.fileSize - rdOff)
      requires rdOff > entry.fileSize ==> n == len && rdOff + len <= |Raw()|
      ensures entry.clusters != []
      ensures Readable(volume.fat[..], volume.data[..], volume.bytesPerCluster, entry.clusters, rdOff, rdOff + n)
    {
      if rdOff <= entry.fileSize {
        ContentsSlice(volume, entry, rdOff, rdOff + n);
      } else {
        ContentsIs(volume, entry);
      }
    }

    lemma RawSlice(from: nat, to: nat)
      requires Mounted() && from <= to <= |Raw()|
      ensures entry.clusters == [] ==> from == to == 0
      ensures entry.clusters != [] ==>
                && Within(volume.data[..], entry.clusters) && to <= |Concat(volume.data[..], entry.clusters)|
                && Raw()[from..to] == Concat(volume.data[..], entry.clusters)[from..to]
      ensures from == to ==> Raw()[from..to] == []
    {
    }

    /** The file is the first part of its chain's bytes. */
    lemma RawIs()
      requires Mounted()
      ensures |Raw()| == |entry.clusters| * volume.bytesPerCluster && entry.fileSize <= |Raw()|
      ensures Contents(volume, entry) == Raw()[..entry.fileSize]
    {
      if entry.clusters != [] {
        ContentsWithin(volume, entry);
      }
    }

    lemma ReadEnds(off: nat, len: nat, n: nat)
      requires Mounted() && n == ReadLength(len, entry.fileSize, off) && rdOff == off + n
      requires entry.clusters == [] ==> rdCluster == 0 && rdClusterOff == 0 && off == 0
      requires entry.clusters != [] ==>
                 Located(volume.bytesPerCluster, entry.clusters, rdIndex, rdOff, rdCluster, rdClusterOff)
      requires off > entry.fileSize ==> n == len && off + len <= |Raw()|
      ensures |Contents(volume, entry)| == entry.fileSize
      ensures off <= entry.fileSize ==> CanRead() && rdOff == Min(off + len, entry.fileSize) <= |Raw()|
      ensures off <= entry.fileSize ==> Raw()[off..rdOff] == Contents(volume, entry)[off..rdOff]
    {
      RawIs();
      if entry.clusters != [] {
        ReadCursorStays(volume.fat[..], volume.bytesPerCluster, entry.clusters, rdIndex, rdOff, rdCluster, rdClusterOff);
      }
      if off <= entry.fileSize {
        ReadLengthInside(len, entry.fileSize, off);
        TakeSlice(Raw(), entry.fileSize, off, rdOff);
      }
    }

    /** The loop of Read: n bytes, cluster by cluster. */
    method ReadClusters(n: nat) returns (bytes: seq<bv8>)
      requires Readable(volume.fat[..], volume.data[..], volume.bytesPerCluster, entry.clusters, rdOff, rdOff + n)
      requires Located(volume.bytesPerCluster, entry.clusters, rdIndex, rdOff, rdCluster, rdClusterOff)
      modifies this`rdCluster, this`rdClusterOff, this`rdIndex
      ensures Within(volume.data[..], entry.clusters) && rdOff + n <= |Concat(volume.data[..], entry.clusters)|
      ensures bytes == Concat(volume.data[..], entry.clusters)[rdOff..rdOff + n]
      ensures Located(volume.bytesPerCluster, entry.clusters, rdIndex, rdOff + n, rdCluster, rdClusterOff)
    {
      hide *;
      ghost var cs, fat, data := entry.clusters, volume.fat[..], volume.data[..];
      var b := volume.bytesPerCluster;
      bytes := [];
      ReadableLess(fat, data, b, cs, rdOff, rdOff + n, rdOff);
      while |bytes| < n
        invariant |bytes| <= n && Located(b, cs, rdIndex, rdOff + |bytes|, rdCluster, rdClusterOff)
        invariant bytes == Concat(data, cs)[rdOff..rdOff + |bytes|]
        decreases n - |bytes|
      {
        LocatedOff(b, cs, rdIndex, rdOff + |bytes|, rdCluster, rdClusterOff);
        var m := if n - |bytes| <= b - rdClusterOff then n - |bytes| else b - rdClusterOff;
        ReadableLess(fat, data, b, cs, rdOff, rdOff + n, rdOff + |bytes| + m);
        ReadStep(fat, data, b, cs, rdIndex, rdOff + |bytes|, rdCluster, rdClusterOff, m, rdOff, bytes);
        bytes := bytes + volume.data[rdCluster][rdClusterOff..rdClusterOff + m];
        rdClusterOff := rdClusterOff + m;
        if rdClusterOff == b {
          rdCluster := volume.NextCluster(rdCluster, cs, rdIndex);
          rdClusterOff, rdIndex := 0, rdIndex + 1;
        }
      }
    }
  
    /** The file's bytes from an offset on, or, if the file has become shorter than that, its chain's. This descriptor's own
        cursors stay where they are. */
    method Load(len: nat, offset: nat) returns (bytes: seq<bv8>)
      requires Mounted() && offset + len < WORD && (offset <= entry.fileSize || offset + len <= |Raw()|)
      ensures Min(offset + len, entry.fileSize) <= |Contents(volume, entry)|
      ensures offset <= entry.fileSize ==> bytes == Contents(volume, entry)[offset..Min(offset + len, entry.fileSize)]
      ensures offset > entry.fileSize ==> bytes == Raw()[offset..offset + len]
    {
      hide Volume.Valid, DirectoryEntry.Valid, Contents, ReadCursor, CanRead, Overrun, Concat, Chain, Within;
      RawIs();
      var fd := new FileDescriptor(volume, entry);
      fd.rdOff := offset;
      fd.rdCluster, fd.rdClusterOff := FindCluster(offset);
      fd.rdIndex := IndexOf(offset);
      CanReadAt(fd, len);
      bytes := fd.Read(len);
    }

    /** The walk of Load to the cluster that holds an offset. */
    method FindCluster(offset: nat) returns (cluster: nat, off: nat)
      requires Mounted() && offset <= |Raw()|
      ensures ReadCursor(volume.bytesPerCluster, entry.clusters, IndexOf(offset), offset, cluster, off)
    {
      ghost var cs, b := entry.clusters, volume.bytesPerCluster;
      ghost var q := 0;
      RawIs();
      cluster, off := entry.FirstCluster(), offset;
      while off >= volume.bytesPerCluster
        invariant offset == q * b + off && (cs == [] ==> offset == 0 && cluster == 0)
        invariant cs != [] ==> q <= |cs| && cluster == if q < |cs| then cs[q] else END_OF_CHAIN
        decreases off
      {
        WalkOn(q, off, |cs|, b);
        cluster := volume.NextCluster(cluster, cs, q);
        off, q := off - volume.bytesPerCluster, q + 1;
      }
      Divide(offset, q, off, b);
    }

    /** The index in the chain of the cluster that holds an offset. */
    ghost function IndexOf(offset: nat): nat
      requires Mounted()
      reads this, volume, volume.fat, volume.data, entry
    {
      offset / volume.bytesPerCluster
    }

    // ----- writing -----

    /** The file as the write cursor sees it. */
    ghost function Here(): Cursor
      reads this, entry
    {
      Cursor(entry.clusters, spots, wrClusterOff, written)
    }

    ghost function Image(): Disk
      reads this, volume, volume.fat, volume.data
    {
      Disk(volume.fat[..], volume.data[..])
    }

    /** The write cursor is in place; cluster 0 stands for a descriptor that nothing was written through yet. */
    ghost predicate CanWrite()
      reads this, volume, volume.fat, volume.data, entry
    {
      && Mounted() && wrOff == |written|
      && if wrCluster == 0 then wrOff == 0 && wrClusterOff == 0
         else Placed(volume.data[..], volume.bytesPerCluster, Here()) && InPlace(wrCluster, Here())
    }

    /** The cursor that a write starts from: a first write through this descriptor starts at the file's first byte. */
    ghost function WriteStart(): Cursor
      reads this, entry
    {
      if wrCluster == 0 then Cursor(entry.clusters, [0], 0, []) else Here()
    }

    /** Free clusters for all that a write will allocate. */
    ghost predicate Enough(len: nat)
      reads this, volume, volume.fat, volume.data, entry
    {
      volume.bytesPerCluster > 0
      && var b, free := volume.bytesPerCluster, |Free(volume.fat[..])|;
      if entry.clusters == [] then Max(1, NumCluster(len, b)) <= free
      else Triangle(NewClusters(b, WriteStart(), len)) <= free
    }

    lemma StartOfFile()
      requires Mounted() && entry.clusters != []
      ensures Placed(volume.data[..], volume.bytesPerCluster, Cursor(entry.clusters, [0], 0, []))
      ensures InPlace(entry.clusters[0], Cursor(entry.clusters, [0], 0, []))
    {
      var f := Cursor(entry.clusters, [0], 0, []);
      ContentsWithin(volume, entry);
      assert f.spots[..0] == [] && At(f.clusters, []) == [];
    }
  
    /** The chain that a file gets on the first write to it. */
    ghost function FirstChain(len: nat): seq<nat>
      requires Mounted() && Enough(len) && entry.clusters == []
      reads this, volume, volume.fat, volume.data, entry
    {
      Free(volume.fat[..])[..Max(1, NumCluster(len, volume.bytesPerCluster))]
    }

    /** An empty file gets its chain: enough clusters for the first write, and at least one. */
    method MakeChain(len: nat)
      requires Mounted() && Enough(len) && entry.clusters == []
      modifies this`wrCluster, entry, volume.fat
      ensures Mounted() && entry.fileSize == 0 && entry.clusters == old(FirstChain(len)) && entry.clusters != []
      ensures Allocated(old(volume.fat[..]), volume.fat[..], entry.clusters) && wrCluster == entry.clusters[0]
      ensures wrCluster != 0
    {
      hide Chain, Free, Allocated, NumCluster;
      ghost var fat := volume.fat[..];
      wrCluster := volume.AllocateClusterChain(NumCluster(len, volume.bytesPerCluster));
      entry.firstClusterLow := wrCluster % 0x10000;
      entry.firstClusterHigh := (wrCluster / 0x10000) % 0x10000;
      entry.clusters := Free(fat)[..Max(1, NumCluster(len, volume.bytesPerCluster))];
      AllocatedFirst(fat, volume.fat[..], entry.clusters);
      SplitCluster(wrCluster);
    }

    lemma WriteBegins(len: nat)
      requires CanWrite() && Enough(len) && entry.clusters != []
      ensures Writable(volume.bytesPerCluster, Image(), WriteStart(), len) && entry.FirstCluster() == entry.clusters[0] != 0
      ensures InPlace(if wrCluster == 0 then entry.clusters[0] else wrCluster, WriteStart())
    {
      EntryChain(entry, volume.fat[..], volume.bytesPerCluster);
      if wrCluster == 0 {
        StartOfFile();
      }
      assert volume.fat.Length == volume.data.Length;
      assert Placed(volume.data[..], volume.bytesPerCluster, WriteStart());
      WritableIs(volume.bytesPerCluster, Image(), WriteStart(), len);
    }

    /** The first part of Write: finds the file's first cluster, or gives an empty file its chain. */
    method BeginWrite(len: nat)
      requires CanWrite() && Enough(len)
      modifies this`wrCluster, this`spots, entry, volume.fat
      ensures Mounted() && entry.fileSize == old(entry.fileSize) && entry.clusters != []
      ensures InPlace(wrCluster, Here()) && wrCluster != 0
      ensures Writable(volume.bytesPerCluster, Image(), Here(), len)
      ensures if old(entry.clusters) == []
              then Allocated(old(volume.fat[..]), volume.fat[..], old(FirstChain(len)))
                   && Here() == Cursor(old(FirstChain(len)), [0], 0, [])
              else volume.fat[..] == old(volume.fat[..]) && Here() == old(WriteStart())
    {
      CanWriteIs();
      hide Volume.Valid, DirectoryEntry.Valid, CanWrite, Mounted, Enough, Placed, InPlace, Writable, NumCluster, Allocated, Image, DirectoryEntry.FirstCluster;
      if wrCluster == 0 {
        if entry.FirstCluster() != 0 {
          WriteBegins(len);
          wrCluster := entry.FirstCluster();
          spots := [0];
        } else {
          MakeChain(len);
          spots := [0];
          NewFile(len);
        }
      } else {
        WriteBegins(len);
      }
    }

    /** The loop of Write: from the state d0, f0, total bytes of buf are copied, with so many moves to other clusters. */
    ghost predicate Looping(buf: seq<bv8>, total: nat, moved: nat, d0: Disk, f0: Cursor)
      reads this, volume, volume.fat, volume.data, entry
    {
      && volume.Valid() && InPlace(wrCluster, Here()) && wrClusterOff <= volume.bytesPerCluster
      && Writable(volume.bytesPerCluster, d0, f0, |buf|)
      && Linked(StartOf(volume.bytesPerCluster, d0, f0, |buf|), moved, volume.fat[..], entry.clusters, spots)
      && Filled(volume.bytesPerCluster, d0.data, f0, buf, total, moved, volume.data[..], Here())
    }

    /** The loop's move: to the next cluster of the chain, or to the end of a chain grown by all that is missing. */
    method MoveOn(buf: seq<bv8>, total: nat, ghost moved: nat, ghost d0: Disk, ghost f0: Cursor)
      requires Looping(buf, total, moved, d0, f0) && total < |buf| && wrClusterOff == volume.bytesPerCluster
      modifies this`wrCluster, this`wrClusterOff, this`spots, entry`clusters, volume.fat
      ensures Looping(buf, total, moved + 1, d0, f0) && wrClusterOff == 0
    {
      hide InPlace, Writable, Linked, Filled, Chain, Extended, Free, Within, InChain, NumCluster, NewClusters, Growth, Grown;
      ghost var b, s, f, fat, data := volume.bytesPerCluster, StartOf(volume.bytesPerCluster, d0, f0, |buf|), Here(), volume.fat[..], volume.data[..];
      WritableFacts(b, d0, f0, |buf|);
      AtEnd(s, moved, fat, f.clusters, f.spots);
      FilledFacts(b, d0.data, f0, buf, total, moved, data, f);
      InPlaceIs(wrCluster, f);
      var next := volume.NextCluster(wrCluster, f.clusters, Last(f.spots));
      if next == END_OF_CHAIN {
        ghost var t := MissingHere(b, d0, f0, buf, total, moved, fat, data, f);
        ghost var taken := Free(fat)[..NumCluster(|buf| - total, b)];
        wrCluster := volume.ExtendCluster(wrCluster, NumCluster(|buf| - total, volume.bytesPerCluster), f.clusters);
        entry.clusters := f.clusters + taken;
        spots := f.spots + [|f.clusters + taken| - 1];
        LinkedGrows(s, moved, fat, f.clusters, f.spots, t, taken, volume.fat[..]);
        ExtendedChain(fat, volume.fat[..], f.clusters, taken, data);
        FilledMoves(b, d0.data, f0, buf, total, moved, data, f, f.clusters + taken, |f.clusters + taken| - 1);
      } else {
        wrCluster := next;
        spots := f.spots + [Last(f.spots) + 1];
        LinkedMoves(s, moved, fat, f.clusters, f.spots);
        FilledMoves(b, d0.data, f0, buf, total, moved, data, f, f.clusters, Last(f.spots) + 1);
      }
      wrClusterOff := 0;
      InPlaceAgain(f, Last(spots), Here());
    }

    /** The loop's copy: as much of buf as the current cluster still takes. */
    method CopyChunk(buf: seq<bv8>, total: nat, ghost moved: nat, ghost d0: Disk, ghost f0: Cursor) returns (n: nat)
      requires Looping(buf, total, moved, d0, f0) && total < |buf| && wrClusterOff < volume.bytesPerCluster
      modifies this`wrClusterOff, this`written, volume.data
      ensures 0 < n <= |buf| - total && Looping(buf, total + n, moved, d0, f0) && wrClusterOff > 0
    {
      hide InPlace, Filled, Within, InChain, Distinct, Linked, Writable, Chain, Free, Steps, NewClusters, Grown, Landing;
      ghost var b, f, data, data0 := volume.bytesPerCluster, Here(), volume.data[..], d0.data;
      ghost var _ := LinkedChain(StartOf(b, d0, f0, |buf|), moved, volume.fat[..], entry.clusters, spots);
      FilledFacts(b, data0, f0, buf, total, moved, data, f);
      InPlaceIs(wrCluster, f);
      var off := wrClusterOff;
      n := Min(|buf| - total, volume.bytesPerCluster - off);
      var chunk, block := buf[total..total + n], volume.data[wrCluster];
      volume.data[wrCluster] := block[..off] + chunk + block[off + n..];
      assert volume.data[..] == data[wrCluster := volume.data[wrCluster]];
      wrClusterOff := off + n;
      written := written + chunk;
      FilledCopies(b, data0, f0, buf, total, moved, data, f, chunk, wrCluster, volume.data[wrCluster]);
      StillInPlace(wrCluster, f, Here());
    }

    /** The loop of Write. */
    method WriteClusters(buf: seq<bv8>) returns (total: nat)
      requires volume.Valid() && InPlace(wrCluster, Here())
      requires Writable(volume.bytesPerCluster, Image(), Here(), |buf|)
      modifies this`wrCluster, this`wrClusterOff, this`spots, this`written, entry`clusters, volume.fat, volume.data
      ensures volume.Valid() && InPlace(wrCluster, Here()) && total == |buf|
      ensures Wrote(volume.bytesPerCluster, old(Image()), old(Here()), buf, Image(), Here())
    {
      hide *;
      ghost var d0, f0 := Image(), Here();
      total := 0;
      ghost var moved := 0;
      LoopStarts(buf);
      while total < |buf|
        invariant total <= |buf| && Looping(buf, total, moved, d0, f0) && (moved > 0 ==> wrClusterOff > 0)
        decreases |buf| - total
      {
        LoopFacts(buf, total, moved, d0, f0);
        if wrClusterOff == volume.bytesPerCluster {
          MoveOn(buf, total, moved, d0, f0);
          moved := moved + 1;
        }
        var n := CopyChunk(buf, total, moved, d0, f0);
        total := total + n;
      }
      LoopEnds(buf, moved, d0, f0);
    }

    lemma LoopStarts(buf: seq<bv8>)
      requires volume.Valid() && InPlace(wrCluster, Here()) && Writable(volume.bytesPerCluster, Image(), Here(), |buf|)
      ensures Looping(buf, 0, 0, Image(), Here())
    {
      WriteClustersStart(volume.bytesPerCluster, Image(), Here(), buf);
      WritableFacts(volume.bytesPerCluster, Image(), Here(), |buf|);
    }

    lemma LoopFacts(buf: seq<bv8>, total: nat, moved: nat, d0: Disk, f0: Cursor)
      requires Looping(buf, total, moved, d0, f0)
      ensures 0 < volume.bytesPerCluster && wrClusterOff <= volume.bytesPerCluster
    {
    }

    lemma LoopEnds(buf: seq<bv8>, moved: nat, d0: Disk, f0: Cursor)
      requires Looping(buf, |buf|, moved, d0, f0) && (moved > 0 ==> wrClusterOff > 0)
      ensures Wrote(volume.bytesPerCluster, d0, f0, buf, Image(), Here()) && volume.Valid() && InPlace(wrCluster, Here())
    {
      WriteClustersEnd(volume.bytesPerCluster, d0, f0, buf, moved, Image(), Here());
    }

    /** Writes buf at the write cursor. The file then ends where this descriptor's writes end. */
    method Write(buf: seq<bv8>) returns (total: nat, ghost d0: Disk, ghost f0: Cursor)
      requires CanWrite() && Enough(|buf|)
      modifies this`wrOff, this`wrCluster, this`wrClusterOff, this`spots, this`written, entry, volume.fat, volume.data
      ensures CanWrite() && wrCluster != 0 && entry.clusters != []
      ensures total == |buf| && written == f0.written + buf && entry.fileSize == wrOff % SIZE_LIMIT
      ensures if old(entry.clusters) == []
              then Allocated(old(volume.fat[..]), d0.fat, old(FirstChain(|buf|))) && d0.data == old(volume.data[..])
                   && f0 == Cursor(old(FirstChain(|buf|)), [0], 0, [])
              else d0 == old(Image()) && f0 == old(WriteStart())
      ensures Wrote(volume.bytesPerCluster, d0, f0, buf, Image(), Here())
    {
      hide Volume.Valid, DirectoryEntry.Valid, Mounted, Enough, CanWrite, Chain, Free, Allocated, Wrote, Writable, InPlace, Placed, NumCluster, Max;
      CanWriteIs();
      BeginWrite(|buf|);
      d0, f0 := Image(), Here();
      MountedIs();
      total := WriteClusters(buf);
      WroteFile(volume.bytesPerCluster, d0, f0, buf, Image(), Here());
      wrOff := wrOff + total;
      entry.fileSize := wrOff % SIZE_LIMIT;
      WriteEnds();
    }

    lemma MountedIs()
      requires Mounted() && entry.clusters != []
      ensures volume.Valid() && entry.FirstCluster() == entry.clusters[0] && entry.firstClusterLow < 0x10000
    {
    }

    lemma WriteEnds()
      requires volume.Valid() && InPlace(wrCluster, Here()) && Placed(volume.data[..], volume.bytesPerCluster, Here())
      requires wrOff == |written| && entry.fileSize == wrOff % SIZE_LIMIT && Chain(volume.fat[..], entry.clusters)
      requires entry.FirstCluster() == entry.clusters[0] && entry.firstClusterLow < 0x10000
      requires |written| <= |entry.clusters| * volume.bytesPerCluster
      ensures CanWrite() && wrCluster != 0 && entry.clusters != []
    {
      hide Placed, Volume.Valid, InPlace, Chain, DirectoryEntry.Valid;
      InPlaceIs(wrCluster, Here());
      ChainStep(volume.fat[..], entry.clusters, Last(spots));
      SizeIs(wrOff);
      EntryIs(volume.fat[..], volume.bytesPerCluster);
    }

    lemma EntryIs(fat: seq<nat>, b: nat)
      requires entry.clusters != [] && Chain(fat, entry.clusters) && entry.FirstCluster() == entry.clusters[0]
      requires entry.firstClusterLow < 0x10000 && entry.fileSize < SIZE_LIMIT && entry.fileSize <= |entry.clusters| * b
      ensures entry.Valid(fat, b)
    {
    }

    lemma CanWriteIs()
      requires CanWrite()
      ensures Mounted() && wrOff == |written| && (wrCluster == 0 ==> written == [] && wrClusterOff == 0)
      ensures wrCluster != 0 ==> entry.clusters != []
      ensures entry.clusters == [] <==> entry.FirstCluster() == 0
    {
    }

    lemma NewFile(len: nat)
      requires Mounted() && entry.clusters != [] && |entry.clusters| == Max(1, NumCluster(len, volume.bytesPerCluster))
      requires Here() == Cursor(entry.clusters, [0], 0, []) && wrCluster == entry.clusters[0]
      ensures Writable(volume.bytesPerCluster, Image(), Here(), len) && InPlace(wrCluster, Here())
    {
      StartOfFile();
      EntryChain(entry, volume.fat[..], volume.bytesPerCluster);
      NewFileFits(entry.clusters, len, volume.bytesPerCluster);
      assert volume.fat.Length == volume.data.Length;
      WritableIs(volume.bytesPerCluster, Image(), Here(), len);
    }
  }

  lemma SizeIs(off: nat)
    ensures off % SIZE_LIMIT <= off && off % SIZE_LIMIT < SIZE_LIMIT
  {
  }

  lemma WalkOn(q: nat, off: nat, n: nat, b: nat)
    requires off >= b > 0
    ensures q * b + off <= n * b ==> q < n
    ensures (q + 1) * b + (off - b) == q * b + off
  {
    if q >= n {
      Multiply(n, q, b);
    }
  }

  lemma CanReadAt(fd: FileDescriptor, len: nat)
    requires fd.Mounted() && fd.rdOff + len < WORD && (fd.rdOff <= fd.entry.fileSize || fd.rdOff + len <= |fd.Raw()|)
    requires ReadCursor(fd.volume.bytesPerCluster, fd.entry.clusters, fd.rdIndex, fd.rdOff, fd.rdCluster, fd.rdClusterOff)
    ensures if fd.rdOff <= fd.entry.fileSize then fd.CanRead() else !fd.CanRead() && fd.Overrun(len)
  {
    fd.RawIs();
  }

  lemma StillInPlace(cluster: nat, f: Cursor, f': Cursor)
    requires InPlace(cluster, f) && f'.clusters == f.clusters && f'.spots == f.spots
    ensures InPlace(cluster, f')
  {
  }

  lemma WriteClustersStart(b: nat, d0: Disk, f0: Cursor, buf: seq<bv8>)
    requires Writable(b, d0, f0, |buf|)
    ensures Linked(StartOf(b, d0, f0, |buf|), 0, d0.fat, f0.clusters, f0.spots)
    ensures Filled(b, d0.data, f0, buf, 0, 0, d0.data, f0) && b > 0
  {
    hide Growth, Chain, Free, Placed, Concat;
    LinkedStarts(StartOf(b, d0, f0, |buf|));
    PlacedOff(d0.data, b, f0);
    BytesIs(0, b);
    assert f0.written + buf[..0] == f0.written;
  }

  lemma WriteClustersEnd(b: nat, d0: Disk, f0: Cursor, buf: seq<bv8>, moved: nat, d: Disk, f: Cursor)
    requires Writable(b, d0, f0, |buf|) && Linked(StartOf(b, d0, f0, |buf|), moved, d.fat, f.clusters, f.spots)
    requires Filled(b, d0.data, f0, buf, |buf|, moved, d.data, f) && (moved > 0 ==> f.off > 0)
    ensures Wrote(b, d0, f0, buf, d, f)
  {
    hide Linked, Filled, Writable, Chain, Free, Steps, Grown, FatGrown, NewClusters;
    LinkedParts(StartOf(b, d0, f0, |buf|), moved, d.fat, f.clusters, f.spots);
    assert |f.spots| - |f0.spots| == moved;
  }

  lemma WritableFacts(b: nat, d: Disk, f: Cursor, len: nat)
    requires Writable(b, d, f, len)
    ensures b > 0 && f.spots != [] && Last(f.spots) < |f.clusters| && f.off <= b && |d.fat| == |d.data|
  {
  }

  lemma MissingHere(b: nat, d0: Disk, f0: Cursor, buf: seq<bv8>, total: nat, moved: nat, fat: seq<nat>, data: seq<seq<bv8>>,
                    f: Cursor) returns (t: nat)
    requires Linked(StartOf(b, d0, f0, |buf|), moved, fat, f.clusters, f.spots) && f.off == b
    requires Filled(b, d0.data, f0, buf, total, moved, data, f) && total < |buf|
    requires f0.spots != [] && Last(f0.spots) + moved + 1 >= |f0.clusters| && b > 0 && f0.off <= b
    ensures Last(f0.spots) < |f0.clusters| && t == Grown(|f0.clusters|, Last(f0.spots), moved) < NewClusters(b, f0, |buf|)
    ensures 0 < NumCluster(|buf| - total, b) == NewClusters(b, f0, |buf|) - t <= |Free(fat)|
  {
    assert total + f0.off == Bytes(moved, b) + b;
    hide *;
    t := Missing(b, d0, f0, |buf|, total, moved, fat, f.clusters, f.spots);
  }

  lemma AllocatedFirst(fat: seq<nat>, fat': seq<nat>, taken: seq<nat>)
    requires Allocated(fat, fat', taken)
    ensures |fat'| == |fat| && Chain(fat', taken) && taken != [] && FIRST_CLUSTER <= taken[0] < END_MARKS
  {
  }

  lemma WritableIs(b: nat, d: Disk, f: Cursor, len: nat)
    requires Placed(d.data, b, f) && |d.fat| == |d.data| && Chain(d.fat, f.clusters)
    requires Triangle(NewClusters(b, f, len)) <= |Free(d.fat)|
    ensures Writable(b, d, f, len)
  {
    PlacedOff(d.data, b, f);
    hide Placed, Chain, Free;
    StepsAll(NewClusters(b, f, len));
  }

  /** A chain made for len bytes needs no more clusters for them. */
  lemma NewFileFits(clusters: seq<nat>, len: nat, b: nat)
    requires b > 0 && |clusters| == Max(1, NumCluster(len, b))
    ensures NewClusters(b, Cursor(clusters, [0], 0, []), len) == 0
  {
    var n := NumCluster(len, b);
    assert len + b - 1 < (n + 1) * b;
    assert len <= n * b;
  }
}
