/** Building an application's page map: src/kernel/terminal.cpp's SetupPML4 and CopyLoadSegments. */
module AppLoader {
  import opened PageTree
  import opened PageSetup
  import opened Paging
  import opened Ownership
  import opened AppMemory
  import opened PageNumbers
  import opened AppSteps

  /** A loadable segment: its first page number and, page by page, the words it stores there.
      The words it does not store stay as they are (zero in a page that was not mapped). */
  datatype Segment = Segment(start: nat, pages: seq<map<nat, Word>>)

  /** First page of the user stack and the page of the arguments, the last of the address space. */
  const ARGS_PAGE: nat := LIMIT - 1
  const STACK_PAGES: nat := 16
  const STACK_START: nat := ARGS_PAGE - STACK_PAGES

  /** An executable is loaded into the upper half, below the stack. */
  ghost predicate Loadable(segments: seq<Segment>) {
    forall g | g in segments :: UPPER <= g.start && g.start + |g.pages| <= STACK_START
  }

  /** The contents of a page after some of its words have been stored. */
  function Stored(page: Frame, words: map<nat, Word>): Frame {
    seq(ENTRIES, i requires 0 <= i < ENTRIES => if i in words then words[i] else page[i])
  }

  /** What a segment makes of the memory at page n. */
  ghost function OneLoaded(was: Option<Frame>, g: Segment, n: nat): Option<Frame> {
    if g.start <= n < g.start + |g.pages|
    then Some(Stored(if was.Some? then was.value else ZeroFrame(), g.pages[n - g.start]))
    else was
  }

  /** The memory image of an executable: its segments stored one after the other. */
  ghost function Loaded(segments: seq<Segment>, n: nat): Option<Frame> {
    if |segments| == 0 then None
    else OneLoaded(Loaded(segments[..|segments| - 1], n), segments[|segments| - 1], n)
  }

  /** The page after the last loaded one. */
  function EndPage(segments: seq<Segment>): nat {
    if |segments| == 0 then 0
    else
      var last := segments[|segments| - 1].start + |segments[|segments| - 1].pages|;
      var before := EndPage(segments[..|segments| - 1]);
      if before < last then last else before
  }

  ghost function LoadedView(segments: seq<Segment>): Space {
    imap n: nat | UPPER <= n < LIMIT && Loaded(segments, n).Some? :: Loaded(segments, n).value
  }

  lemma LoadedBelowStack(segments: seq<Segment>, n: nat)
    requires Loadable(segments) && Loaded(segments, n).Some?
    ensures n < STACK_START
  {
    if |segments| > 0 {
      var last := segments[|segments| - 1];
      assert last in segments;
      if !(last.start <= n < last.start + |last.pages|) {
        LoadedBelowStack(segments[..|segments| - 1], n);
      }
    }
  }

  /** What page n of a map holds. */
  ghost function PageAt(m: Memory, root: nat, n: nat): Option<Frame> {
    Seen(m, root, AddressOf(n))
  }

  /** An image being built: a read-only tree in the new frames f, holding what `held` says. */
  ghost predicate Building(m: Memory, m': Memory, root: nat, f: set<nat>) {
    && |m'| == |m| && root < |m| && Tree(m', root, 4) && AllReadOnly(m', root) && Below(m', root, 4, All) == f
    && (forall x | 0 <= x < |m| && x != root && x !in f :: m'[x] == m[x])
    && (forall i | 0 <= i < 256 :: m'[root][i] == m[root][i])
  }

  lemma BuildStart(m: Memory, root: nat)
    requires root < |m| && forall i | 256 <= i < ENTRIES :: !m[root][i].present
    ensures Building(m, m, root, {})
    ensures forall n: nat | UPPER <= n < LIMIT :: PageAt(m, root, n) == None
  {
    EmptyTree(m, root, 4);
    forall n: nat | UPPER <= n < LIMIT
      ensures PageAt(m, root, n) == None
    {
      AddressOfNumber(n);
    }
  }

  lemma BuildPages(m: Memory, m1: Memory, m2: Memory, root: nat, f: set<nat>, from: nat, n: nat, f2: set<nat>)
    requires Building(m, m1, root, f) && UPPER <= from < LIMIT && from + n <= LIMIT
    requires SetUp(m1, m2, root, 4, AddressOf(from), n, false, f2)
    ensures Building(m, m2, root, f + f2)
    ensures forall p: nat | UPPER <= p < LIMIT ::
              PageAt(m2, root, p) ==
              if InPages(p, from, n) && PageAt(m1, root, p).None? then Some(ZeroFrame()) else PageAt(m1, root, p)
  {
    hide Tree, Below, Walk, Seen, AddressOf, Index, AllReadOnly;
    BelowSubset(m1, root, 4, Tables);
    SetUpReadOnly(m1, m2, root, AddressOf(from), n, f2);
    forall p: nat | UPPER <= p < LIMIT
      ensures PageAt(m2, root, p) ==
              if InPages(p, from, n) && PageAt(m1, root, p).None? then Some(ZeroFrame()) else PageAt(m1, root, p)
    {
      AddressOfNumber(p);
      AddressOfNumber(from);
      SetUpSeen(m1, m2, root, AddressOf(from), n, false, f2, AddressOf(p));
    }
  }

  lemma BuildStore(m: Memory, m1: Memory, m2: Memory, root: nat, f: set<nat>, n: nat, content: Frame)
    requires Building(m, m1, root, f) && UPPER <= n < LIMIT
    requires PageWritten(m1, m2, root, AddressOf(n), content)
    ensures Building(m, m2, root, f)
    ensures forall p: nat | UPPER <= p < LIMIT ::
              PageAt(m2, root, p) == if p == n then Some(content) else PageAt(m1, root, p)
  {
    hide Tree, Below, Walk, Seen, AddressOf, Index;
    LeafFrame(m1, root, AddressOf(n));
    WriteKeepsMap(m1, m2, root, AddressOf(n), content);
    forall p: nat | UPPER <= p < LIMIT
      ensures PageAt(m2, root, p) == if p == n then Some(content) else PageAt(m1, root, p)
    {
      AddressOfNumber(p);
      AddressOfNumber(n);
      WriteSeen(m1, m2, root, AddressOf(n), content, AddressOf(p));
    }
  }

  lemma PageIsMapped(m: Memory, root: nat, n: nat)
    requires Tree(m, root, 4) && UPPER <= n < LIMIT && PageAt(m, root, n).Some?
    ensures Inside(AddressOf(n), 4) && Walk(m, root, 4, AddressOf(n)).Some?
    ensures Walk(m, root, 4, AddressOf(n)).value.frame < |m|
    ensures PageAt(m, root, n) == Some(m[Walk(m, root, 4, AddressOf(n)).value.frame])
  {
    AddressOfNumber(n);
  }

  /** A fresh top-level map with the lower half of the one in frame cr3. */
  method SetupPML4(paging: PagedMemory, cr3: nat) returns (root: Option<nat>)
    requires paging.Valid() && cr3 < |paging.mem| && cr3 in paging.Allocated()
    modifies paging`mem, paging.manager.allocMap
    ensures paging.Valid() && |paging.mem| == |old(paging.mem)|
    ensures root.None? ==> paging.mem == old(paging.mem) && paging.Allocated() == old(paging.Allocated())
    ensures root.None? ==> paging.Exhausted()
    ensures root.Some? ==> root.value !in old(paging.Allocated()) && root.value < |paging.mem|
    ensures root.Some? ==> paging.Allocated() == old(paging.Allocated()) + {root.value}
    ensures root.Some? ==> FreshRoot(old(paging.mem), paging.mem, cr3, root.value)
  {
    root := paging.NewPageMap();
    if root.None? {
      return;
    }
    var r := root.value;
    paging.mem := paging.mem[r := paging.mem[cr3][..256] + paging.mem[r][256..]];
  }

  lemma BuildFacts(m: Memory, m': Memory, root: nat, f: set<nat>)
    requires Building(m, m', root, f)
    ensures |m'| == |m| && root < |m| && Tree(m', root, 4) && Below(m', root, 4, All) == f
  {
  }

  /** Page n once the first j pages of a segment have been stored over what `was` there. */
  ghost function StoredUpTo(was: Option<Frame>, g: Segment, j: nat, n: nat): Option<Frame>
    requires j <= |g.pages|
  {
    if g.start <= n < g.start + j && was.Some? then Some(Stored(was.value, g.pages[n - g.start])) else was
  }

  /** What page n holds when the segment's pages have just been mapped. */
  ghost function Mapped(was: Option<Frame>, g: Segment, n: nat): Option<Frame> {
    if InPages(n, g.start, |g.pages|) && was.None? then Some(ZeroFrame()) else was
  }

  /** The memcpy and memset of CopyLoadSegments: stores a segment through its virtual addresses. */
  method StoreSegment(paging: PagedMemory, root: nat, g: Segment, ghost m: Memory, ghost f: set<nat>)
    requires paging.Valid() && Building(m, paging.mem, root, f)
    requires UPPER <= g.start && g.start + |g.pages| <= STACK_START
    requires forall n: nat | InPages(n, g.start, |g.pages|) :: PageAt(paging.mem, root, n).Some?
    modifies paging`mem
    ensures paging.Valid() && Building(m, paging.mem, root, f)
    ensures forall n: nat | UPPER <= n < LIMIT ::
              PageAt(paging.mem, root, n) == StoredUpTo(PageAt(old(paging.mem), root, n), g, |g.pages|, n)
  {
    hide Tree, Below, Walk, AddressOf, Building, Stored, PageAt;
    ghost var m0 := paging.mem;
    for j := 0 to |g.pages|
      invariant paging.Valid() && Building(m, paging.mem, root, f)
      invariant forall n: nat | UPPER <= n < LIMIT :: PageAt(paging.mem, root, n) == StoredUpTo(PageAt(m0, root, n), g, j, n)
    {
      ghost var m1 := paging.mem;
      BuildFacts(m, m1, root, f);
      assert InPages(g.start + j, g.start, |g.pages|);
      assert PageAt(m1, root, g.start + j) == PageAt(m0, root, g.start + j);
      PageIsMapped(m1, root, g.start + j);
      var page := paging.Translate(root, 4, AddressOf(g.start + j));
      paging.mem := paging.mem[page := Stored(paging.mem[page], g.pages[j])];
      BuildStore(m, m1, paging.mem, root, f, g.start + j, Stored(m1[page], g.pages[j]));
    }
  }

  /** Maps a segment's pages read-only and stores its words into them. */
  method CopySegment(paging: PagedMemory, root: nat, g: Segment, ghost m: Memory, ghost f0: set<nat>)
      returns (ok: bool, ghost f: set<nat>)
    requires paging.Valid() && Building(m, paging.mem, root, f0) && {root} + f0 <= paging.Allocated()
    requires UPPER <= g.start && g.start + |g.pages| <= STACK_START
    modifies paging`mem, paging.manager.allocMap
    ensures paging.Valid() && Building(m, paging.mem, root, f0 + f)
    ensures paging.Allocated() == old(paging.Allocated()) + f && f !! old(paging.Allocated())
    ensures !ok ==> paging.Exhausted()
    ensures ok ==> forall n: nat | UPPER <= n < LIMIT ::
                     PageAt(paging.mem, root, n) == OneLoaded(PageAt(old(paging.mem), root, n), g, n)
  {
    hide Tree, Below, Walk, AddressOf, Index, SetUp, Building, Stored, PageAt, Span;
    BuildFacts(m, paging.mem, root, f0);
    AddressOfNumber(g.start);
    Spans();
    ghost var m0 := paging.mem;
    var remain;
    ghost var d;
    remain, ok, d, f := paging.SetupPageMap(root, 4, AddressOf(g.start), |g.pages|, false);
    BuildPages(m, m0, paging.mem, root, f0, g.start, d, f);
    if ok {
      ghost var m1 := paging.mem;
      assert d == |g.pages|;
      assert forall n: nat | UPPER <= n < LIMIT :: PageAt(m1, root, n) == Mapped(PageAt(m0, root, n), g, n);
      StoreSegment(paging, root, g, m, f0 + f);
      assert forall n: nat | UPPER <= n < LIMIT :: PageAt(paging.mem, root, n) == StoredUpTo(PageAt(m1, root, n), g, |g.pages|, n);
    }
  }

  /** Loads all segments in order, and tells where the last of them ends. */
  method CopyLoadSegments(paging: PagedMemory, root: nat, segments: seq<Segment>)
      returns (last: nat, ok: bool, ghost f: set<nat>)
    requires paging.Valid() && root < |paging.mem| && root in paging.Allocated() && Loadable(segments)
    requires forall i | 256 <= i < ENTRIES :: !paging.mem[root][i].present
    modifies paging`mem, paging.manager.allocMap
    ensures paging.Valid() && Building(old(paging.mem), paging.mem, root, f)
    ensures paging.Allocated() == old(paging.Allocated()) + f && f !! old(paging.Allocated())
    ensures !ok ==> paging.Exhausted()
    ensures ok ==> forall n: nat | UPPER <= n < LIMIT :: PageAt(paging.mem, root, n) == Loaded(segments, n)
    ensures ok ==> last == EndPage(segments)
  {
    hide Building, PageAt;
    f, last := {}, 0;
    BuildStart(paging.mem, root);
    for i := 0 to |segments|
      invariant paging.Valid() && Building(old(paging.mem), paging.mem, root, f)
      invariant paging.Allocated() == old(paging.Allocated()) + f && f !! old(paging.Allocated())
      invariant forall n: nat | UPPER <= n < LIMIT :: PageAt(paging.mem, root, n) == Loaded(segments[..i], n)
      invariant last == EndPage(segments[..i])
    {
      ghost var f2;
      assert segments[..i + 1][..i] == segments[..i];
      var end := segments[i].start + |segments[i].pages|;
      last := if last < end then end else last;
      ok, f2 := CopySegment(paging, root, segments[i], old(paging.mem), f);
      f := f + f2;
      if !ok {
        return;
      }
    }
    assert segments[..|segments|] == segments;
    ok := true;
  }

  /** A map built in a fresh top-level map. */
  lemma BuiltMap(m: Memory, m1: Memory, m': Memory, cr3: nat, root: nat, f: set<nat>)
    requires FreshRoot(m, m1, cr3, root) && Building(m1, m', root, f) && root !in f
    ensures NewMap(m, m', cr3, root, f) && AllReadOnly(m', root) && Below(m', root, 4, All) == f
  {
    hide Tree, Below, AllReadOnly;
  }

  lemma LoadedImageView(m: Memory, root: nat, segments: seq<Segment>)
    requires Loadable(segments)
    requires forall n: nat | UPPER <= n < LIMIT :: PageAt(m, root, n) == Loaded(segments, n)
    ensures View(m, root) == LoadedView(segments) && forall n | n in LoadedView(segments) :: n < STACK_START
  {
    hide Loaded, Seen, Loadable;
    forall n: nat | UPPER <= n < LIMIT
      ensures PageAt(m, root, n) == Loaded(segments, n)
      ensures Loaded(segments, n).Some? ==> n < STACK_START
    {
      if Loaded(segments, n).Some? {
        LoadedBelowStack(segments, n);
      }
    }
  }

  /** The part of LoadApp that loads a file's image: a new read-only map holding the segments. */
  method BuildImage(paging: PagedMemory, cr3: nat, segments: seq<Segment>)
      returns (root: nat, last: nat, ok: bool, ghost f: set<nat>)
    requires paging.Valid() && cr3 < |paging.mem| && cr3 in paging.Allocated() && Loadable(segments)
    modifies paging`mem, paging.manager.allocMap
    ensures paging.Valid() && |paging.mem| == |old(paging.mem)| && SameOutside(old(paging.mem), paging.mem, f)
    ensures paging.Allocated() == old(paging.Allocated()) + f && f !! old(paging.Allocated())
    ensures !ok ==> paging.Exhausted()
    ensures ok ==> root in f && NewMap(old(paging.mem), paging.mem, cr3, root, f - {root})
    ensures ok ==> AllReadOnly(paging.mem, root) && Below(paging.mem, root, 4, All) == f - {root}
    ensures ok ==> View(paging.mem, root) == LoadedView(segments) && last == EndPage(segments)
    ensures ok ==> forall n | n in LoadedView(segments) :: n < STACK_START
  {
    hide Building, Loadable, View, LoadedView, Tree, Below, AllReadOnly, PageAt, Loaded;
    var r := SetupPML4(paging, cr3);
    if r.None? {
      return 0, 0, false, {};
    }
    root := r.value;
    ghost var m1 := paging.mem;
    last, ok, f := CopyLoadSegments(paging, root, segments);
    BuiltMap(old(paging.mem), m1, paging.mem, cr3, root, f);
    f := f + {root};
    assert f - {root} + {root} == f;
    if ok {
      LoadedImageView(paging.mem, root, segments);
    }
  }

  /** The part of LoadApp that gives a task its copy of an image's map. */
  method BuildCopy(paging: PagedMemory, cr3: nat, image: nat)
      returns (root: nat, ok: bool, ghost m1: Memory, ghost f: set<nat>)
    requires paging.Valid() && cr3 < |paging.mem| && cr3 in paging.Allocated()
    requires Tree(paging.mem, image, 4) && {image} + Below(paging.mem, image, 4, All) <= paging.Allocated()
    modifies paging`mem, paging.manager.allocMap
    ensures paging.Valid() && |paging.mem| == |old(paging.mem)| && SameOutside(old(paging.mem), paging.mem, f)
    ensures paging.Allocated() == old(paging.Allocated()) + f && f !! old(paging.Allocated())
    ensures !ok ==> paging.Exhausted()
    ensures ok ==> root in f && FreshRoot(old(paging.mem), m1, cr3, root)
    ensures ok ==> PageCopy.Copied(m1, paging.mem, root, image, 4, f - {root})
  {
    hide Tree, Below, PageCopy.Copied, Walk;
    m1 := paging.mem;
    var r := SetupPML4(paging, cr3);
    if r.None? {
      return 0, false, m1, {};
    }
    root := r.value;
    m1 := paging.mem;
    UntouchedTree(old(paging.mem), m1, image, root);
    ok, f := paging.CopyPageMaps(root, image, 4, 256);
    ghost var g := f;
    f := f + {root};
    assert f - {root} == g;
  }

  lemma UntouchedTree(m: Memory, m1: Memory, t: nat, root: nat)
    requires Tree(m, t, 4) && SameOutside(m, m1, {root}) && root != t && root !in Below(m, t, 4, All)
    ensures Tree(m1, t, 4) && forall k :: Below(m1, t, 4, k) == Below(m, t, 4, k)
  {
    BelowSubset(m, t, 4, PageTree.Tables);
    SameTree(m, m1, t, 4);
  }
}
