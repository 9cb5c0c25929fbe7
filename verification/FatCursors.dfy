/** Reading a file while it is written: when a read cursor survives a write. */
module FatCursors {
  import opened FatChains
  import opened FatPlacement
  import opened FatWrites
  import opened FatFiles
  import opened FatRuns

  /** A chain that grows keeps a read cursor, unless the cursor has run off the chain's old end. */
  lemma ReadSurvives(fat: seq<nat>, b: nat, c: seq<nat>, c': seq<nat>, q: nat, off: nat, cluster: nat, clusterOff: nat)
    requires ReadCursor(b, c, q, off, cluster, clusterOff) && c <= c' && Chain(fat, c')
    ensures ReadCursor(b, c', q, off, cluster, clusterOff) <==> cluster != END_OF_CHAIN || |c'| == |c|
  {
    if cluster != 0 {
      var more := c'[|c|..];
      assert c' == c + more;
      forall x <- c + more
        ensures x < END_MARKS
      {
        var i :| 0 <= i < |c'| && c'[i] == x;
      }
      LocatedGrows(b, c, more, q, off, cluster, clusterOff);
    }
  }

  /** A file is written through one descriptor while it is read through another, or the same. The reader can go on exactly
      if its cursor is not behind the file's new end, and is not the end mark of a chain that has grown. */
  method WriteWhileReading(reader: FileDescriptor, writer: FileDescriptor, buf: seq<bv8>)
    requires reader.volume == writer.volume && reader.entry == writer.entry
    requires reader.CanRead() && writer.CanWrite() && writer.Enough(|buf|)
    modifies writer`wrOff, writer`wrCluster, writer`wrClusterOff, writer`spots, writer`written
    modifies writer.entry, writer.volume.fat, writer.volume.data
    ensures writer.CanWrite() && reader.Mounted() && writer.entry.fileSize == |writer.written| % SIZE_LIMIT
    ensures writer.written == old(writer.WriteStart().written) + buf
    ensures old(writer.entry.clusters) <= writer.entry.clusters
    ensures old(writer.entry.clusters) != [] ==>
              |writer.entry.clusters| == |old(writer.entry.clusters)|
                + Triangle(NewClusters(writer.volume.bytesPerCluster, old(writer.WriteStart()), |buf|))
    ensures reader.CanRead() <==>
            && reader.rdOff <= reader.entry.fileSize
            && (reader.rdCluster != END_OF_CHAIN || |reader.entry.clusters| == |old(reader.entry.clusters)|)
  {
    hide *;
    ghost var c := reader.entry.clusters;
    CanReadIs(reader);
    StartsWith(writer);
    var _, d0, f0 := writer.Write(buf);
    WroteGrowth(writer.volume.bytesPerCluster, d0, f0, buf, writer.Image(), writer.Here());
    HereIs(writer);
    Survives(reader, writer, c);
  }

  lemma CanReadIs(fd: FileDescriptor)
    requires fd.CanRead()
    ensures fd.Mounted()
    ensures ReadCursor(fd.volume.bytesPerCluster, fd.entry.clusters, fd.rdIndex, fd.rdOff, fd.rdCluster, fd.rdClusterOff)
  {
  }

  lemma StartsWith(fd: FileDescriptor)
    ensures fd.WriteStart().clusters == fd.entry.clusters
    ensures fd.CanWrite() ==> fd.WriteStart().written == fd.written
    ensures fd.CanWrite() && fd.entry.clusters == [] ==> fd.WriteStart().written == []
  {
    if fd.CanWrite() {
      fd.CanWriteIs();
    }
  }

  lemma HereIs(fd: FileDescriptor)
    ensures fd.Here().clusters == fd.entry.clusters && fd.Here().written == fd.written && fd.Image().fat == fd.volume.fat[..]
    ensures fd.CanWrite() ==> fd.wrOff == |fd.written| && fd.Mounted()
  {
  }

  lemma Survives(reader: FileDescriptor, writer: FileDescriptor, c: seq<nat>)
    requires reader.volume == writer.volume && reader.entry == writer.entry && writer.Mounted()
    requires ReadCursor(reader.volume.bytesPerCluster, c, reader.rdIndex, reader.rdOff, reader.rdCluster, reader.rdClusterOff)
    requires c <= reader.entry.clusters && Chain(reader.volume.fat[..], reader.entry.clusters)
    ensures reader.Mounted()
    ensures reader.CanRead() <==>
            && reader.rdOff <= reader.entry.fileSize
            && (reader.rdCluster != END_OF_CHAIN || |reader.entry.clusters| == |c|)
  {
    ReadSurvives(reader.volume.fat[..], reader.volume.bytesPerCluster, c, reader.entry.clusters, reader.rdIndex, reader.rdOff,
                 reader.rdCluster, reader.rdClusterOff);
  }

  /** A reader that has read a file of one full cluster to its end cannot go on when the file has grown: its cursor is the
      end mark, though the file has two bytes more. */
  method ReadRunsOff() returns (reader: FileDescriptor)
    ensures reader.Mounted() && reader.rdOff == 1 < reader.entry.fileSize == 3
    ensures reader.rdCluster == END_OF_CHAIN && !reader.CanRead()
  {
    hide *;
    var writer := OneByteVolume();
    var _ := FirstWrite(writer);
    HereIs(writer);
    reader := new FileDescriptor(writer.volume, writer.entry);
    NewReader(reader, writer);
    var _ := reader.Read(1);
    AtEndMark(reader);
    StartsWith(writer);
    WriteWhileReading(reader, writer, [2, 3]);
    Grew(reader, writer);
  }

  lemma NewReader(fd: FileDescriptor, writer: FileDescriptor)
    requires fd.volume == writer.volume && fd.entry == writer.entry && writer.Mounted()
    requires fd.rdOff == 0 && fd.rdCluster == 0 && fd.rdClusterOff == 0
    ensures fd.CanRead()
  {
  }

  lemma AtEndMark(fd: FileDescriptor)
    requires fd.CanRead() && fd.rdOff == Min(0 + 1, fd.entry.fileSize) && fd.entry.fileSize == 1 && fd.entry.clusters == [2]
    requires fd.volume.bytesPerCluster == 1
    ensures fd.rdOff == 1 && fd.rdCluster == END_OF_CHAIN
  {
    BytesIs(fd.rdIndex, 1);
  }

  lemma Grew(reader: FileDescriptor, writer: FileDescriptor)
    requires reader.entry == writer.entry && writer.entry.fileSize == |writer.written| % SIZE_LIMIT && |writer.written| == 3
    requires |writer.entry.clusters| == 1 + Triangle(2)
    ensures reader.entry.fileSize == 3 && |reader.entry.clusters| > 1
  {
  }
}
