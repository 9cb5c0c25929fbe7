/** Bytes in memory words, and the pages into which a file is loaded. */
module MappedPages {
  import opened PageTree
  import opened FatChains
  import opened FatPlacement
  import opened FatWrites
  import opened FatFiles

  const PAGE_BYTES: nat := 4096
  const WORD_BYTES: nat := 8

  // ----- words as numbers -----

  /** The 64 bits of a word, bit by bit field from the lowest. */
  function Value(w: Word): nat {
    (if w.present then 1 else 0) + (if w.writable then 2 else 0) + (if w.user then 4 else 0)
    + w.attributes * 8 + w.frame * 0x1000 + w.reserved * 0x10_0000_0000_0000
  }

  function WordOf(v: nat): Word {
    Word(v % 2 == 1, v / 2 % 2 == 1, v / 4 % 2 == 1, v / 8 % 0x200, v / 0x1000 % 0x100_0000_0000, v / 0x10_0000_0000_0000)
  }

  lemma ValueOfWord(v: nat)
    ensures Value(WordOf(v)) == v
  {
    LowBits(v);
    MiddleBits(v);
  }

  lemma LowBits(v: nat)
    ensures v % 2 + v / 2 % 2 * 2 + v / 4 % 2 * 4 + v / 8 * 8 == v
  {
    Halves(v);
    Halves(v / 2);
    Halves(v / 4);
    Quotients(v);
    FourParts(v, v % 2, v / 2, v / 2 % 2, v / 4, v / 4 % 2, v / 8);
  }

  lemma Halves(v: nat)
    ensures v == v % 2 + 2 * (v / 2)
  {
  }

  lemma Quotients(v: nat)
    ensures v / 2 / 2 == v / 4 && v / 4 / 2 == v / 8
  {
  }

  lemma FourParts(v: nat, b0: nat, v1: nat, b1: nat, v2: nat, b2: nat, v3: nat)
    requires v == b0 + 2 * v1 && v1 == b1 + 2 * v2 && v2 == b2 + 2 * v3
    ensures b0 + b1 * 2 + b2 * 4 + v3 * 8 == v
  {
  }

  lemma MiddleBits(v: nat)
    ensures v / 8 % 0x200 * 8 + v / 0x1000 % 0x100_0000_0000 * 0x1000 + v / 0x10_0000_0000_0000 * 0x10_0000_0000_0000 == v / 8 * 8
  {
    var a := v / 8;
    assert a / 0x200 == v / 0x1000;
    var b := v / 0x1000;
    assert b / 0x100_0000_0000 == v / 0x10_0000_0000_0000;
    assert a == a / 0x200 * 0x200 + a % 0x200;
    assert b == b / 0x100_0000_0000 * 0x100_0000_0000 + b % 0x100_0000_0000;
  }

  /** The bits of an entry that the processor reads: present, writable and user are the lowest three, and the frame has the forty
      from the twelfth on. */
  lemma BitsOfWord(w: Word)
    requires w.attributes < 0x200 && w.frame < 0x100_0000_0000
    ensures Value(w) % 2 == 1 <==> w.present
    ensures Value(w) / 2 % 2 == 1 <==> w.writable
    ensures Value(w) / 4 % 2 == 1 <==> w.user
    ensures Value(w) / 0x1000 % 0x100_0000_0000 == w.frame
  {
    var b0, b1, b2 := if w.present then 1 else 0, if w.writable then 1 else 0, if w.user then 1 else 0;
    var low, high := b0 + 2 * b1 + 4 * b2 + 8 * w.attributes, w.frame + 0x100_0000_0000 * w.reserved;
    assert Value(w) == low + 0x1000 * high;
    hide Value;
    LowThree(Value(w), b0, b1, b2, w.attributes + 0x200 * high);
    AboveTwelve(Value(w), low, high);
    AboveForty(high, w.frame, w.reserved);
  }

  lemma LowThree(v: nat, b0: nat, b1: nat, b2: nat, rest: nat)
    requires b0 < 2 && b1 < 2 && b2 < 2 && v == b0 + 2 * b1 + 4 * b2 + 8 * rest
    ensures v % 2 == b0 && v / 2 % 2 == b1 && v / 4 % 2 == b2
  {
    assert v / 2 == b1 + 2 * b2 + 4 * rest;
    assert v / 4 == b2 + 2 * rest;
  }

  lemma AboveTwelve(v: nat, low: nat, high: nat)
    requires low < 0x1000 && v == low + 0x1000 * high
    ensures v / 0x1000 == high
  {
  }

  lemma AboveForty(v: nat, low: nat, high: nat)
    requires low < 0x100_0000_0000 && v == low + 0x100_0000_0000 * high
    ensures v % 0x100_0000_0000 == low
  {
  }

  /** The eight bytes of a word, the lowest first, make its value. */
  lemma BytesOfWord(v: nat)
    requires v < 0x1_0000_0000_0000_0000
    ensures v == ByteOf(v, 0) + 0x100 * ByteOf(v, 1) + 0x1_0000 * ByteOf(v, 2) + 0x100_0000 * ByteOf(v, 3)
                 + 0x1_0000_0000 * ByteOf(v, 4) + 0x100_0000_0000 * ByteOf(v, 5) + 0x1_0000_0000_0000 * ByteOf(v, 6)
                 + 0x100_0000_0000_0000 * ByteOf(v, 7)
    ensures forall i: nat | i < 8 :: ByteOf(v, i) < 0x100
  {
    hide ByteOf;
    var w := FourBytes(v);
    var z := FourBytes(w);
    assert z == 0;
  }

  lemma FourBytes(v: nat) returns (w: nat)
    ensures v == ByteOf(v, 0) + 0x100 * ByteOf(v, 1) + 0x1_0000 * ByteOf(v, 2) + 0x100_0000 * ByteOf(v, 3) + 0x1_0000_0000 * w
    ensures forall i: nat | i < 4 :: ByteOf(v, i) < 0x100 && ByteOf(v, i + 4) == ByteOf(w, i)
  {
    hide ByteOf;
    var v1 := FirstByte(v);
    var v2 := FirstByte(v1);
    var v3 := FirstByte(v2);
    w := FirstByte(v3);
    forall i: nat | i < 4
      ensures ByteOf(v, i) < 0x100 && ByteOf(v, i + 4) == ByteOf(w, i)
    {
      assert ByteOf(v, i + 4) == ByteOf(v1, i + 3) == ByteOf(v2, i + 2) == ByteOf(v3, i + 1) == ByteOf(w, i);
    }
  }

  lemma FirstByte(v: nat) returns (w: nat)
    ensures v == ByteOf(v, 0) + 0x100 * w && ByteOf(v, 0) < 0x100
    ensures forall i: nat {:trigger ByteOf(v, i + 1)} {:trigger ByteOf(w, i)} :: ByteOf(v, i + 1) == ByteOf(w, i)
  {
    w := v / 0x100;
  }

  /** A number from its bytes, the lowest first. */
  function Number(bytes: seq<bv8>): nat {
    if bytes == [] then 0 else bytes[0] as nat + 0x100 * Number(bytes[1..])
  }

  /** Byte i of a number. */
  function ByteOf(v: nat, i: nat): nat {
    if i == 0 then v % 0x100 else ByteOf(v / 0x100, i - 1)
  }

  lemma {:induction false} ByteOfNumber(bytes: seq<bv8>, i: nat)
    ensures ByteOf(Number(bytes), i) == if i < |bytes| then bytes[i] as nat else 0
    decreases i
  {
    if bytes == [] {
      ZeroBytes(i);
    } else {
      var n := Number(bytes[1..]);
      assert (bytes[0] as nat + 0x100 * n) % 0x100 == bytes[0] as nat && (bytes[0] as nat + 0x100 * n) / 0x100 == n;
      if i > 0 {
        ByteOfNumber(bytes[1..], i - 1);
      }
    }
  }

  lemma {:induction false} ZeroBytes(i: nat)
    ensures ByteOf(0, i) == 0
    decreases i
  {
    if i > 0 {
      ZeroBytes(i - 1);
    }
  }

  // ----- pages -----

  /** Byte a of a page. */
  function PageByte(page: Frame, a: nat): nat
    requires a < PAGE_BYTES
  {
    ByteOf(Value(page[a / WORD_BYTES]), a % WORD_BYTES)
  }

  /** The bytes that make word k of a page. */
  function WordBytes(bytes: seq<bv8>, k: nat): seq<bv8> {
    if WORD_BYTES * k >= |bytes| then []
    else bytes[WORD_BYTES * k..Min(WORD_BYTES * (k + 1), |bytes|)]
  }

  /** A zeroed page with bytes written at its start. */
  function PageOf(bytes: seq<bv8>): Frame {
    seq(ENTRIES, k requires 0 <= k < ENTRIES => WordOf(Number(WordBytes(bytes, k))))
  }

  lemma PageOfByte(bytes: seq<bv8>, a: nat)
    requires |bytes| <= PAGE_BYTES && a < PAGE_BYTES
    ensures PageByte(PageOf(bytes), a) == if a < |bytes| then bytes[a] as nat else 0
  {
    var k, i := a / WORD_BYTES, a % WORD_BYTES;
    var word := WordBytes(bytes, k);
    ValueOfWord(Number(word));
    ByteOfNumber(word, i);
    assert a == WORD_BYTES * k + i;
    hide WordOf, Value, Number, ByteOf;
  }

  /** Byte a of a page is the file's byte there, or zero after its end. */
  ghost predicate ShowsFile(page: Frame, contents: seq<bv8>, offset: nat) {
    forall a: nat | a < PAGE_BYTES :: PageByte(page, a) == if offset + a < |contents| then contents[offset + a] as nat else 0
  }

  /** A file: the bytes of its chain, of which the first are its contents. */
  datatype FileData = FileData(chain: seq<bv8>, size: nat)

  ghost function DataOf(fd: FileDescriptor): FileData
    requires fd.Mounted()
    reads fd.volume, fd.volume.fat, fd.volume.data, fd.entry
  {
    FileData(fd.Raw(), fd.entry.fileSize)
  }

  /** A page that starts in the file, or lies in its chain. */
  ghost predicate InReach(f: FileData, offset: nat) {
    f.size <= |f.chain| && offset + PAGE_BYTES < WORD && (offset <= f.size || offset + PAGE_BYTES <= |f.chain|)
  }

  /** What a page shows of a file: the size stops the loading only if the page starts before it. */
  ghost function LoadedPage(f: FileData, offset: nat): Frame
    requires InReach(f, offset)
  {
    PageOf(f.chain[offset..if offset <= f.size then Min(offset + PAGE_BYTES, f.size) else offset + PAGE_BYTES])
  }

  ghost predicate Zeroes(chain: seq<bv8>, offset: nat)
    requires offset + PAGE_BYTES <= |chain|
  {
    forall i | offset <= i < offset + PAGE_BYTES :: chain[i] == 0
  }

  /** A loaded page shows the file if it starts inside, and otherwise exactly if its part of the file's chain is zero. */
  lemma LoadedShows(f: FileData, offset: nat)
    requires InReach(f, offset)
    ensures ShowsFile(LoadedPage(f, offset), f.chain[..f.size], offset) <==> offset <= f.size || Zeroes(f.chain, offset)
  {
    var to := if offset <= f.size then Min(offset + PAGE_BYTES, f.size) else offset + PAGE_BYTES;
    LoadedByte(f, offset);
    hide LoadedPage, PageByte;
    var page := LoadedPage(f, offset);
    if offset > f.size && ShowsFile(page, f.chain[..f.size], offset) {
      forall i | offset <= i < offset + PAGE_BYTES
        ensures f.chain[i] == 0
      {
        assert PageByte(page, i - offset) == 0 && f.chain[offset + (i - offset)] as nat == 0;
      }
    }
  }

  lemma LoadedByte(f: FileData, offset: nat)
    requires InReach(f, offset)
    ensures var to := if offset <= f.size then Min(offset + PAGE_BYTES, f.size) else offset + PAGE_BYTES;
            forall a: nat | a < PAGE_BYTES ::
              PageByte(LoadedPage(f, offset), a) == if offset + a < to then f.chain[offset + a] as nat else 0
  {
    var to := if offset <= f.size then Min(offset + PAGE_BYTES, f.size) else offset + PAGE_BYTES;
    forall a: nat | a < PAGE_BYTES
      ensures PageByte(LoadedPage(f, offset), a) == if offset + a < to then f.chain[offset + a] as nat else 0
    {
      PageOfByte(f.chain[offset..to], a);
    }
  }

  /** The loading of a page: a zeroed page, over which the bytes at an offset of the file are written. No cursor moves. */
  method LoadPage(fd: FileDescriptor, offset: nat) returns (page: Frame)
    requires fd.Mounted() && InReach(DataOf(fd), offset)
    ensures |Contents(fd.volume, fd.entry)| == fd.entry.fileSize && page == LoadedPage(DataOf(fd), offset)
    ensures ShowsFile(page, Contents(fd.volume, fd.entry), offset) <==>
            offset <= fd.entry.fileSize || Zeroes(fd.Raw(), offset)
  {
    hide FileDescriptor.Raw, FileDescriptor.Mounted, PageOf, ShowsFile, Zeroes;
    DataIs(fd);
    var bytes := fd.Load(PAGE_BYTES, offset);
    page := PageOf(bytes);
    LoadedShows(DataOf(fd), offset);
    LoadedIs(DataOf(fd), offset, bytes);
  }

  lemma LoadedIs(f: FileData, offset: nat, bytes: seq<bv8>)
    requires InReach(f, offset)
    requires offset <= f.size ==> bytes == f.chain[..f.size][offset..Min(offset + PAGE_BYTES, f.size)]
    requires offset > f.size ==> bytes == f.chain[offset..offset + PAGE_BYTES]
    ensures LoadedPage(f, offset) == PageOf(bytes)
  {
    if offset <= f.size {
      TakeSlice(f.chain, f.size, offset, Min(offset + PAGE_BYTES, f.size));
    }
    hide PageOf;
  }

  lemma DataIs(fd: FileDescriptor)
    requires fd.Mounted()
    ensures |fd.Raw()| >= fd.entry.fileSize && Contents(fd.volume, fd.entry) == fd.Raw()[..fd.entry.fileSize]
    ensures fd.volume.Valid() && fd.entry.Valid(fd.volume.fat[..], fd.volume.bytesPerCluster)
    ensures DataOf(fd) == FileData(fd.Raw(), fd.entry.fileSize)
  {
    fd.RawIs();
  }

  // ----- where a mapped page does not show the file -----

  function Sevens(): seq<bv8> { seq(PAGE_BYTES, k => 7) }

  /** A file of two clusters of a page each, full of sevens. */
  method TwoPages() returns (fd: FileDescriptor)
    ensures fresh(fd) && fresh(fd.entry) && fresh(fd.volume) && fresh(fd.volume.fat) && fresh(fd.volume.data)
    ensures fd.Mounted() && fd.volume.bytesPerCluster == PAGE_BYTES && fd.entry.clusters == [2, 3] && fd.entry.fileSize == 8192
    ensures |fd.volume.data[..]| == 4 && fd.volume.data[..][3] == Sevens()
  {
    var fat := new nat[4][END_OF_CHAIN, END_OF_CHAIN, 3, END_OF_CHAIN];
    var data := new seq<bv8>[4](i => Sevens());
    var volume := new Volume(fat, data, PAGE_BYTES);
    var entry := new DirectoryEntry.OfChain([2, 3], 8192);
    fd := new FileDescriptor(volume, entry);
  }

  /** What the file's second page holds. */
  lemma SecondPage(fd: FileDescriptor)
    requires fd.Mounted() && fd.volume.bytesPerCluster == PAGE_BYTES && fd.entry.clusters == [2, 3] && |fd.volume.data[..]| == 4
    ensures |fd.Raw()| == 8192 && |fd.volume.data[..][3]| == PAGE_BYTES
    ensures forall a :: 0 <= a < PAGE_BYTES ==> fd.Raw()[4096 + a] == fd.volume.data[..][3][a]
  {
    fd.RawIs();
    var data := fd.volume.data[..];
    assert [2, 3][1..] == [3] && [3][1..] == [];
    assert Concat(data, [3]) == data[3] + Concat(data, []);
    assert Concat(data, [2, 3]) == data[2] + Concat(data, [3]);
  }

  /** The file is opened again and one byte is written, which makes it as long as that. */
  method WriteOne(fd: FileDescriptor)
    requires fd.Mounted() && fd.volume.bytesPerCluster == PAGE_BYTES && fd.entry.clusters == [2, 3] && |fd.volume.data[..]| == 4
    requires fd.wrCluster == 0 && fd.wrOff == 0 && fd.wrClusterOff == 0 && fd.written == []
    modifies fd, fd.entry, fd.volume.fat, fd.volume.data
    ensures fd.Mounted() && fd.entry.clusters == [2, 3] && fd.entry.fileSize == 1 && fd.volume.data[..][3] == old(fd.volume.data[..])[3]
  {
    ghost var data := fd.volume.data[..];
    OneMoreByte(fd);
    hide *;
    var _, d0, f0 := fd.Write([1]);
    OneByteWritten(d0, f0, fd.Image(), fd.Here());
    OneByteSize(fd);
  }

  lemma OneMoreByte(fd: FileDescriptor)
    requires fd.Mounted() && fd.volume.bytesPerCluster == PAGE_BYTES && fd.entry.clusters == [2, 3]
    requires fd.wrCluster == 0 && fd.wrOff == 0 && fd.wrClusterOff == 0 && fd.written == []
    ensures fd.CanWrite() && fd.Enough(1) && fd.WriteStart() == Cursor([2, 3], [0], 0, [])
  {
  }

  lemma OneByteWritten(d0: Disk, f0: Cursor, d: Disk, f: Cursor)
    requires Wrote(PAGE_BYTES, d0, f0, [1], d, f) && f0 == Cursor([2, 3], [0], 0, []) && |d0.data| == 4
    ensures f.clusters == [2, 3] && f.written == [1] && |d.data| == 4 && d.data[3] == d0.data[3]
  {
    hide *;
    NoneMissing();
    WroteGrowth(PAGE_BYTES, d0, f0, [1], d, f);
    WroteInOrder(PAGE_BYTES, d0, f0, [1], d, f);
    WroteFile(PAGE_BYTES, d0, f0, [1], d, f);
    PlacedInOrder(d.data, PAGE_BYTES, f);
    PlacedOff(d.data, PAGE_BYTES, f);
    var m := WroteVisited(PAGE_BYTES, d0, f0, [1], d, f);
    OneVisited(d0.data, d.data, f, m);
  }

  lemma NoneMissing()
    ensures NewClusters(PAGE_BYTES, Cursor([2, 3], [0], 0, []), 1) == 0 && Triangle(0) == 0 && InOrder([0])
  {
  }

  lemma OneVisited(data: seq<seq<bv8>>, data': seq<seq<bv8>>, f: Cursor, m: nat)
    requires InChain(f) && OnlyVisited(data, data', f, m) && f.clusters == [2, 3] && |data| == 4 && InOrder(f.spots)
    requires f.spots != [] && (|f.spots| - 1) * PAGE_BYTES + f.off == 1
    ensures |data'| == 4 && data'[3] == data[3]
  {
    assert |f.spots| == 1;
  }

  lemma OneByteSize(fd: FileDescriptor)
    requires fd.CanWrite() && |fd.written| == 1 && fd.entry.fileSize == fd.wrOff % SIZE_LIMIT
    ensures fd.Mounted() && fd.entry.fileSize == 1
  {
  }

  lemma SecondInReach(fd: FileDescriptor)
    requires fd.Mounted() && fd.volume.bytesPerCluster == PAGE_BYTES && fd.entry.clusters == [2, 3] && |fd.volume.data[..]| == 4
    ensures InReach(DataOf(fd), 4096)
  {
    SecondPage(fd);
    fd.RawIs();
  }

  lemma SecondStale(fd: FileDescriptor, page: Frame)
    requires fd.Mounted() && fd.volume.bytesPerCluster == PAGE_BYTES && fd.entry.clusters == [2, 3] && |fd.volume.data[..]| == 4
    requires fd.entry.fileSize == 1 && fd.volume.data[..][3] == Sevens()
    requires InReach(DataOf(fd), 4096) && page == LoadedPage(DataOf(fd), 4096)
    requires ShowsFile(page, Contents(fd.volume, fd.entry), 4096) <==> Zeroes(fd.Raw(), 4096)
    ensures PageByte(page, 0) == 7 && !ShowsFile(page, Contents(fd.volume, fd.entry), 4096)
  {
    SecondPage(fd);
    LoadedByte(DataOf(fd), 4096);
    hide PageByte, LoadedPage, ShowsFile, FileDescriptor.Mounted, FileDescriptor.Raw, Contents;
    assert fd.Raw()[4096 + 0] == 7;
  }

  /** Two pages of a file are mapped, the file is written again and shorter, and the second page, touched only now, shows
      what the file held before: its byte 0 is 7, though the file is one byte long. */
  method ShrunkFile() returns (fd: FileDescriptor, page: Frame)
    ensures fd.Mounted() && |Contents(fd.volume, fd.entry)| == 1
    ensures PageByte(page, 0) == 7 && !ShowsFile(page, Contents(fd.volume, fd.entry), 4096)
  {
    hide Volume.Valid, DirectoryEntry.Valid, FileDescriptor.Raw, Contents, InReach, DataOf, LoadedPage, ShowsFile, PageByte, Zeroes, Sevens;
    fd := TwoPages();
    var again := new FileDescriptor(fd.volume, fd.entry);
    WriteOne(again);
    SecondInReach(fd);
    page := LoadPage(fd, 4096);
    SecondStale(fd, page);
  }
}
