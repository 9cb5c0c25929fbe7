/** The effect of each page map operation on what an application sees and owns. */
module AppMemory {
  import opened PageTree
  import opened PageSetup
  import opened PageCopy
  import opened Ownership

  /** In a tree a frame is reached through a writable entry iff it is a table or a writable page. */
  lemma WritableFrames(m: Memory, t: nat, level: nat)
    requires Tree(m, t, level)
    ensures Below(m, t, level, Tables) <= Below(m, t, level, Writable)
    decreases level
  {
    if level > 0 {
      forall i | Low(level) <= i < ENTRIES
        ensures Branch(m, m[t][i], level, Tables) <= Branch(m, m[t][i], level, Writable)
      {
        assert GoodBranch(m, t, m[t][i], level);
        if m[t][i].present {
          WritableFrames(m, m[t][i].frame, level - 1);
        }
      }
    }
  }

  /** The page that holds frame x, a frame below t that is no table. */
  lemma PageHolding(m: Memory, t: nat, x: nat) returns (a: Address)
    requires Tree(m, t, 4) && x in Below(m, t, 4, All) && x !in Below(m, t, 4, Tables)
    ensures Inside(a, 4) && Walk(m, t, 4, a).Some? && Walk(m, t, 4, a).value.frame == x
    ensures x in Below(m, t, 4, Writable) <==> Walk(m, t, 4, a).value.writable
  {
    a := LeafWalk(m, t, 4, x);
    WalkLeaf(m, t, 4, a);
  }

  /** No page can be written. */
  ghost predicate AllReadOnly(m: Memory, t: nat) {
    forall a | Inside(a, 4) && Walk(m, t, 4, a).Some? :: !Walk(m, t, 4, a).value.writable
  }

  lemma ReadOnlyFrames(m: Memory, t: nat)
    requires Tree(m, t, 4)
    ensures AllReadOnly(m, t) <==> Below(m, t, 4, Writable) == Below(m, t, 4, Tables)
  {
    hide Tree, Below, Walk;
    WritableFrames(m, t, 4);
    BelowSubset(m, t, 4, Writable);
    if AllReadOnly(m, t) {
      forall x | x in Below(m, t, 4, Writable)
        ensures x in Below(m, t, 4, Tables)
      {
        if x !in Below(m, t, 4, Tables) {
          var a := PageHolding(m, t, x);
        }
      }
    } else {
      var a :| Inside(a, 4) && Walk(m, t, 4, a).Some? && Walk(m, t, 4, a).value.writable;
      WalkLeaf(m, t, 4, a);
    }
  }

  // ------------------------------------------------------------------ setting pages up

  /** None of the n pages from `from` on is mapped. */
  ghost predicate Unmapped(m: Memory, t: nat, from: Address, n: nat) {
    forall a | Inside(a, 4) && InRange(a, from, n, 4) :: Walk(m, t, 4, a).None?
  }

  lemma SetUpLeaf(m: Memory, m': Memory, t: nat, from: Address, n: nat, w: bool, f: set<nat>, a: Address)
    requires SetUp(m, m', t, 4, from, n, w, f) && Inside(a, 4)
    ensures PageSetUp(m, m', t, 4, from, n, w, f, a)
    ensures Walk(m', t, 4, a).Some? ==>
              && Walk(m', t, 4, a).value.frame in Below(m', t, 4, All)
              && Walk(m', t, 4, a).value.frame < |m'|
              && (Walk(m', t, 4, a).value.frame in Below(m', t, 4, Writable) <==> Walk(m', t, 4, a).value.writable)
    ensures Walk(m, t, 4, a).Some? ==>
              && Walk(m, t, 4, a).value.frame in Below(m, t, 4, All)
              && Walk(m, t, 4, a).value.frame < |m|
              && m'[Walk(m, t, 4, a).value.frame] == m[Walk(m, t, 4, a).value.frame]
              && (Walk(m, t, 4, a).value.frame in Below(m, t, 4, Writable) <==> Walk(m, t, 4, a).value.writable)
  {
    hide Tree, Below, Walk;
    TopNotBelow(m, t, 4);
    if Walk(m', t, 4, a).Some? {
      WalkLeaf(m', t, 4, a);
      BelowInMemory(m', t, 4);
    }
    if Walk(m, t, 4, a).Some? {
      WalkLeaf(m, t, 4, a);
      BelowInMemory(m, t, 4);
    }
  }

  /** Setting up writable pages where none were: exactly the new frames are gained, all writable. */
  lemma SetUpWritable(m: Memory, m': Memory, t: nat, from: Address, n: nat, f: set<nat>)
    requires SetUp(m, m', t, 4, from, n, true, f) && Unmapped(m, t, from, n)
    ensures Below(m', t, 4, Writable) == Below(m, t, 4, Writable) + f
  {
    hide Tree, Below, Walk, InRange;
    SetUpTables(m, m', t, 4, from, n, true, f);
    WritableFrames(m, t, 4);
    WritableFrames(m', t, 4);
    BelowSubset(m, t, 4, Writable);
    BelowSubset(m', t, 4, Writable);
    forall x | x in Below(m', t, 4, All)
      ensures x in Below(m', t, 4, Writable) <==> x in Below(m, t, 4, Writable) + f
    {
      if x !in Below(m', t, 4, Tables) {
        var a := PageHolding(m', t, x);
        SetUpLeaf(m, m', t, from, n, true, f, a);
      }
    }
  }

  /** What is seen after pages were set up: zeroes where nothing was mapped, else what was there. */
  lemma SetUpSeen(m: Memory, m': Memory, t: nat, from: Address, n: nat, w: bool, f: set<nat>, a: Address)
    requires SetUp(m, m', t, 4, from, n, w, f) && Inside(a, 4)
    ensures Seen(m', t, a) ==
            if InRange(a, from, n, 4) && Seen(m, t, a).None? then Some(ZeroFrame()) else Seen(m, t, a)
  {
    hide Tree, Below, Walk, InRange;
    SetUpLeaf(m, m', t, from, n, w, f, a);
  }

  /** Read-only pages keep a map read-only. */
  lemma SetUpReadOnly(m: Memory, m': Memory, t: nat, from: Address, n: nat, f: set<nat>)
    requires SetUp(m, m', t, 4, from, n, false, f) && AllReadOnly(m, t)
    ensures AllReadOnly(m', t)
  {
    hide Tree, Below, Walk, InRange;
    forall a | Inside(a, 4) && Walk(m', t, 4, a).Some?
      ensures !Walk(m', t, 4, a).value.writable
    {
      SetUpLeaf(m, m', t, from, n, false, f, a);
    }
  }

  // ------------------------------------------------------------------ pages' contents

  /** The frame of a mapped page. */
  lemma LeafFrame(m: Memory, t: nat, a: Address)
    requires Tree(m, t, 4) && Inside(a, 4) && Walk(m, t, 4, a).Some?
    ensures t < |m| && Walk(m, t, 4, a).value.frame < |m| && Seen(m, t, a).Some?
    ensures Walk(m, t, 4, a).value.frame in Below(m, t, 4, All)
    ensures Walk(m, t, 4, a).value.frame != t && Walk(m, t, 4, a).value.frame !in Below(m, t, 4, Tables)
    ensures Walk(m, t, 4, a).value.frame in Below(m, t, 4, Writable) <==> Walk(m, t, 4, a).value.writable
  {
    assert t < |m|;
    hide Tree, Below, Walk;
    WalkLeaf(m, t, 4, a);
    BelowInMemory(m, t, 4);
    TopNotBelow(m, t, 4);
  }

  /** m' is m with the page of address a overwritten. */
  ghost predicate PageWritten(m: Memory, m': Memory, t: nat, a: Address, content: Frame) {
    && Tree(m, t, 4) && Inside(a, 4) && Walk(m, t, 4, a).Some? && Walk(m, t, 4, a).value.frame < |m|
    && m' == m[Walk(m, t, 4, a).value.frame := content]
  }

  lemma WriteKeepsMap(m: Memory, m': Memory, t: nat, a: Address, content: Frame)
    requires PageWritten(m, m', t, a, content)
    ensures t < |m| && Tree(m', t, 4) && m'[t] == m[t]
    ensures forall k :: Below(m', t, 4, k) == Below(m, t, 4, k)
    ensures forall b | Inside(b, 4) :: Walk(m', t, 4, b) == Walk(m, t, 4, b)
  {
    hide Tree, Below, Walk;
    LeafFrame(m, t, a);
    SameTree(m, m', t, 4);
    forall b | Inside(b, 4)
      ensures Walk(m', t, 4, b) == Walk(m, t, 4, b)
    {
      SameWalk(m, m', t, 4, b);
    }
  }

  /** Writing a page changes what is seen at its address and nowhere else in the map. */
  lemma WriteSeen(m: Memory, m': Memory, t: nat, a: Address, content: Frame, b: Address)
    requires PageWritten(m, m', t, a, content) && Inside(b, 4)
    ensures Seen(m', t, b) == if b == a then Some(content) else Seen(m, t, b)
  {
    hide Tree, Below, Walk;
    WriteKeepsMap(m, m', t, a, content);
    if Walk(m, t, 4, b).Some? && Walk(m, t, 4, b).value.frame == Walk(m, t, 4, a).value.frame {
      WalkInjective(m, t, 4, a, b);
      SamePageSame(a, b);
    }
  }

  lemma SamePageSame(a: Address, b: Address)
    requires SamePage(a, b, 4)
    ensures a == b
  {
    assert a.Part(1) == b.Part(1) && a.Part(2) == b.Part(2) && a.Part(3) == b.Part(3) && a.Part(4) == b.Part(4);
  }

  /** A private copy of a read-only page: the map gains one writable frame and is seen as before. */
  lemma PrivatizedSeen(m: Memory, m': Memory, t: nat, a: Address, p: nat)
    requires Privatized(m, m', t, a, p) && !Walk(m, t, 4, a).value.writable
    ensures Below(m', t, 4, Writable) == Below(m, t, 4, Writable) + {p}
    ensures Walk(m', t, 4, a).Some? && Walk(m', t, 4, a).value.writable
    ensures forall b | Inside(b, 4) :: Seen(m', t, b) == Seen(m, t, b)
  {
    hide Tree, Below, Walk;
    PrivatizedWritable(m, m', t, a, p);
    TopNotBelow(m, t, 4);
    BelowInMemory(m, t, 4);
    forall b | Inside(b, 4)
      ensures Seen(m', t, b) == Seen(m, t, b)
    {
      if SamePage(a, b, 4) {
        SamePageSame(a, b);
      } else if Walk(m, t, 4, b).Some? {
        WalkLeaf(m, t, 4, b);
      }
    }
  }

  lemma PrivatizedWritable(m: Memory, m': Memory, t: nat, a: Address, p: nat)
    requires Privatized(m, m', t, a, p) && !Walk(m, t, 4, a).value.writable
    ensures Below(m', t, 4, Writable) == Below(m, t, 4, Writable) + {p}
  {
    hide Tree, Below, Walk;
    WritableFrames(m, t, 4);
    WritableFrames(m', t, 4);
    BelowSubset(m, t, 4, Writable);
    BelowSubset(m', t, 4, Writable);
    WalkLeaf(m, t, 4, a);
    forall x | x in Below(m', t, 4, All)
      ensures x in Below(m', t, 4, Writable) <==> x in Below(m, t, 4, Writable) + {p}
    {
      if x !in Below(m', t, 4, Tables) {
        var b := PageHolding(m', t, x);
        if !SamePage(a, b, 4) {
          WalkLeaf(m, t, 4, b);
        }
      }
    }
  }

  /** A copied map is seen like its source, and all its own frames are tables. */
  lemma CopiedSeen(m: Memory, m': Memory, d: nat, s: nat, f: set<nat>)
    requires Copied(m, m', d, s, 4, f)
    ensures Below(m', d, 4, Writable) == f && Tree(m', d, 4)
    ensures Pages(m', d) <= Pages(m, s)
    ensures forall a | Inside(a, 4) :: Seen(m', d, a) == Seen(m, s, a)
  {
    hide Tree, Below, Walk, Branch;
    TopNotBelow(m, s, 4);
    BelowInMemory(m, s, 4);
    ReadOnlyFrames(m', d);
    forall a | Inside(a, 4)
      ensures Seen(m', d, a) == Seen(m, s, a)
    {
      if Walk(m, s, 4, a).Some? {
        WalkLeaf(m, s, 4, a);
      }
    }
    forall x | x in Pages(m', d)
      ensures x in Pages(m, s)
    {
      var a := PageHolding(m', d, x);
      WalkLeaf(m, s, 4, a);
    }
  }
}
