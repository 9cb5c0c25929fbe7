/** What SetupPageMap must do to a map, stated on memories before and after, and how such
    steps are put together. */
module PageSetup {
  import opened PageTree

  // ------------------------------------------------------------------ page numbers

  lemma IndexBound(a: Address, level: nat)
    requires a.Valid() && level <= 4
    ensures Index(a, level) < Span(level)
  {
    if level > 0 {
      IndexBound(a, level - 1);
      MulStep(a.Part(level), ENTRIES - 1, Span(level - 1));
    }
  }

  lemma MulStep(p: nat, q: nat, s: nat)
    requires p <= q
    ensures p * s + s <= (q + 1) * s
  {
    assert (q - p) * s >= 0;
  }

  lemma ZeroIndex(a: Address, level: nat)
    requires forall l | 0 < l <= level :: a.Part(l) == 0
    ensures Index(a, level) == 0
  {
  }

  /** a is one of the n pages that start with `from`, within the given level's table. */
  ghost predicate InRange(a: Address, from: Address, n: nat, level: nat) {
    Index(from, level) <= Index(a, level) < Index(from, level) + n
  }

  /** A range that stays below one entry is that entry's range. */
  lemma RangeOfBranch(a: Address, from: Address, n: nat, level: nat)
    requires 0 < level <= 4 && a.Valid() && from.Valid()
    requires Index(from, level - 1) + n <= Span(level - 1)
    ensures InRange(a, from, n, level) <==> a.Part(level) == from.Part(level) && InRange(a, from, n, level - 1)
  {
    IndexBound(a, level - 1);
    var p, q, s := a.Part(level), from.Part(level), Span(level - 1);
    if p < q {
      MulStep(p, q - 1, s);
    } else if q < p {
      MulStep(q, p - 1, s);
    }
  }

  // ------------------------------------------------------------------ the specification

  /** What setting up a page makes of its leaf entry: a user page with the asked writable bit,
      in its old frame or in a new zeroed one. */
  ghost predicate LeafSetUp(was: Option<Word>, now: Option<Word>, m': Memory, writable: bool, fresh': set<nat>) {
    && now.Some? && now.value.user && now.value.writable == writable
    && (was.Some? ==> now.value.frame == was.value.frame)
    && (was.None? ==> now.value.frame in fresh' && now.value.frame < |m'| && m'[now.value.frame] == ZeroFrame())
  }

  /** Pages in the range are set up; all others walk as before. */
  ghost predicate PageSetUp(m: Memory, m': Memory, t: nat, level: nat, from: Address, n: nat, writable: bool,
                            fresh': set<nat>, a: Address)
  {
    if InRange(a, from, n, level)
    then LeafSetUp(Walk(m, t, level, a), Walk(m', t, level, a), m', writable, fresh')
    else Walk(m', t, level, a) == Walk(m, t, level, a)
  }

  /** From m to m' exactly the n pages from `from` on were set up below table t, with the new
      frames fresh'. The map stays a tree, and outside its tables only new frames change. */
  ghost predicate SetUp(m: Memory, m': Memory, t: nat, level: nat, from: Address, n: nat, writable: bool,
                        fresh': set<nat>)
  {
    && 0 < level <= 4 && |m'| == |m| && Tree(m, t, level) && Tree(m', t, level)
    && Below(m', t, level, All) == Below(m, t, level, All) + fresh'
    && fresh' !! Below(m, t, level, All) && t !in fresh'
    && (forall i | 0 <= i < Low(level) :: m'[t][i] == m[t][i])
    && (forall x | 0 <= x < |m| && x != t && x !in Below(m, t, level, Tables) && x !in fresh' :: m'[x] == m[x])
    && (forall a | Inside(a, level) :: PageSetUp(m, m', t, level, from, n, writable, fresh', a))
  }

  lemma SetUpNothing(m: Memory, t: nat, level: nat, from: Address, writable: bool)
    requires 0 < level <= 4 && Tree(m, t, level)
    ensures SetUp(m, m, t, level, from, 0, writable, {})
  {
  }

  /** Tables stay tables, and new tables are new frames. */
  lemma SetUpTables(m: Memory, m': Memory, t: nat, level: nat, from: Address, n: nat, w: bool, f: set<nat>)
    requires SetUp(m, m', t, level, from, n, w, f)
    ensures Below(m, t, level, Tables) <= Below(m', t, level, Tables) <= Below(m, t, level, Tables) + f
  {
    forall x | x in Below(m, t, level, Tables)
      ensures x in Below(m', t, level, Tables)
    {
      BelowSubset(m, t, level, Tables);
      if x !in Below(m', t, level, Tables) {
        var a := LeafWalk(m', t, level, x);
        assert PageSetUp(m, m', t, level, from, n, w, f, a);
        WalkLeaf(m, t, level, a);
        assert false;
      }
    }
    forall x | x in Below(m', t, level, Tables)
      ensures x in Below(m, t, level, Tables) + f
    {
      BelowSubset(m', t, level, Tables);
      if x !in Below(m, t, level, Tables) + f {
        var a := LeafWalk(m, t, level, x);
        assert PageSetUp(m, m', t, level, from, n, w, f, a);
        WalkLeaf(m', t, level, a);
        assert false;
      }
    }
  }

  lemma SetUpMorePage(m: Memory, m1: Memory, m2: Memory, t: nat, level: nat, from: Address, k: nat,
                      next: Address, n: nat, w: bool, f1: set<nat>, f2: set<nat>, a: Address)
    requires SetUp(m, m1, t, level, from, k, w, f1) && SetUp(m1, m2, t, level, next, n, w, f2)
    requires Index(next, level) == Index(from, level) + k && Inside(a, level)
    ensures PageSetUp(m, m2, t, level, from, k + n, w, f1 + f2, a)
  {
    assert PageSetUp(m, m1, t, level, from, k, w, f1, a);
    assert PageSetUp(m1, m2, t, level, next, n, w, f2, a);
    if Walk(m1, t, level, a).Some? {
      WalkLeaf(m1, t, level, a);
      TopNotBelow(m1, t, level);
      BelowInMemory(m1, t, level);
    }
  }

  /** Setting up k pages and then the next n sets up k + n. */
  lemma SetUpMore(m: Memory, m1: Memory, m2: Memory, t: nat, level: nat, from: Address, k: nat,
                  next: Address, n: nat, w: bool, f1: set<nat>, f2: set<nat>)
    requires SetUp(m, m1, t, level, from, k, w, f1) && SetUp(m1, m2, t, level, next, n, w, f2)
    requires Index(next, level) == Index(from, level) + k
    ensures SetUp(m, m2, t, level, from, k + n, w, f1 + f2)
  {
    SetUpTables(m, m1, t, level, from, k, w, f1);
    forall a | Inside(a, level)
      ensures PageSetUp(m, m2, t, level, from, k + n, w, f1 + f2, a)
    {
      SetUpMorePage(m, m1, m2, t, level, from, k, next, n, w, f1, f2, a);
    }
  }

  // ------------------------------------------------------------------ one entry

  /** The entry that SetNewPageMapIfNotPresent leaves, with the user bit set. */
  ghost function Linked(e: Word, child: nat, writable: bool): Word {
    if e.present then e.(user := true, writable := writable)
    else e.(present := true, user := true, writable := writable, frame := child)
  }

  /** Memory after entry i of t has been linked, to the fresh zeroed frame if it was absent. */
  ghost predicate LinkedEntry(m: Memory, m': Memory, t: nat, i: nat, child: nat, writable: bool, f: set<nat>) {
    && t < |m| && i < ENTRIES && child < |m|
    && (m[t][i].present ==> f == {} && child == m[t][i].frame)
    && (!m[t][i].present ==> f == {child} && child != t)
    && m' == (if m[t][i].present then m else m[child := ZeroFrame()])[t := m[t][i := Linked(m[t][i], child, writable)]]
  }

  lemma LinkPage(m: Memory, m': Memory, t: nat, from: Address, child: nat, w: bool, f: set<nat>)
    requires Tree(m, t, 1) && from.Valid() && LinkedEntry(m, m', t, from.page, child, w, f)
    requires f !! Below(m, t, 1, All)
    ensures SetUp(m, m', t, 1, from, 1, w, f)
  {
    hide Tree, Below, InRange;
    var i := from.page;
    LinkPageFits(m, m', t, i, child, w, f);
    ReplaceBranch(m, m', t, 1, i);
    ReplaceBranchFrames(m, m', t, 1, i, All);
    BranchOfBelow(m, t, 1, i);
    forall a | Inside(a, 1)
      ensures PageSetUp(m, m', t, 1, from, 1, w, f, a)
    {
      OnePageRange(a, from);
      if a.page != i {
        ReplaceBranchWalk(m, m', t, 1, i, a);
      }
    }
  }

  lemma OnePageRange(a: Address, from: Address)
    requires a.Valid() && from.Valid()
    ensures InRange(a, from, 1, 1) <==> a.page == from.page
  {
    RangeOfBranch(a, from, 1, 1);
  }

  lemma LinkPageFits(m: Memory, m': Memory, t: nat, i: nat, child: nat, w: bool, f: set<nat>)
    requires Tree(m, t, 1) && LinkedEntry(m, m', t, i, child, w, f) && f !! Below(m, t, 1, All)
    ensures OnlyBranch(m, m', t, 1, i) && Fits(m, m', t, 1, i)
    ensures Branch(m', m'[t][i], 1, All) == {child} && Branch(m, m[t][i], 1, All) + f == {child}
  {
    hide Branch;
    PageBranch(m, m[t][i]);
    PageBranch(m', m'[t][i]);
    BranchOfBelow(m, t, 1, i);
    assert GoodBranch(m, t, m[t][i], 1);
    forall j | Low(1) <= j < ENTRIES && j != i
      ensures m'[t][j] == m[t][j] && SameFrames(m, m', Branch(m, m[t][j], 1, Tables))
      ensures Branch(m', m'[t][i], 1, All) !! Branch(m, m[t][j], 1, All)
    {
      PageBranch(m, m[t][j]);
      BranchOfBelow(m, t, 1, j);
    }
  }

  /** The map below the linked entry, before pages are set up in it. */
  lemma LinkedChild(m: Memory, m1: Memory, t: nat, level: nat, i: nat, child: nat, f1: set<nat>)
    requires 1 < level <= 4 && Tree(m, t, level) && Low(level) <= i < ENTRIES
    requires LinkedEntry(m, m1, t, i, child, true, f1) && f1 !! Below(m, t, level, All)
    ensures Tree(m1, child, level - 1)
    ensures Below(m1, child, level - 1, All) + {child} == Branch(m, m[t][i], level, All) + f1
    ensures t != child && t !in Below(m1, child, level - 1, All)
    ensures Below(m1, child, level - 1, Tables) + {child} == Branch(m, m[t][i], level, Tables) + f1
    ensures forall a | Inside(a, level) && a.Part(level) == i :: Walk(m1, child, level - 1, a) == Walk(m, t, level, a)
  {
    if m[t][i].present {
      LinkedThere(m, m1, t, level, i, child);
    } else {
      LinkedNew(m, m1, t, level, i, child);
    }
  }

  lemma LinkedThere(m: Memory, m1: Memory, t: nat, level: nat, i: nat, child: nat)
    requires 1 < level <= 4 && Tree(m, t, level) && Low(level) <= i < ENTRIES && m[t][i].present
    requires LinkedEntry(m, m1, t, i, child, true, {})
    ensures Tree(m1, child, level - 1) && t != child && t !in Below(m1, child, level - 1, All)
    ensures Below(m1, child, level - 1, All) + {child} == Branch(m, m[t][i], level, All)
    ensures Below(m1, child, level - 1, Tables) + {child} == Branch(m, m[t][i], level, Tables)
    ensures forall a | Inside(a, level) && a.Part(level) == i :: Walk(m1, child, level - 1, a) == Walk(m, t, level, a)
  {
    assert m[t][i].frame == child && t < |m|;
    hide *;
    ChildThere(m, t, level, i);
    LinkedIs(m, m1, t, i, child, level);
    SameTree(m, m1, child, level - 1);
    forall a | Inside(a, level) && a.Part(level) == i
      ensures Walk(m1, child, level - 1, a) == Walk(m, t, level, a)
    {
      SameWalk(m, m1, child, level - 1, a);
    }
  }

  lemma LinkedIs(m: Memory, m1: Memory, t: nat, i: nat, child: nat, level: nat)
    requires LinkedEntry(m, m1, t, i, child, true, {}) && level > 0 && t != child && t !in Below(m, child, level - 1, Tables)
    ensures t < |m| && i < ENTRIES && m[t][i].frame == child
    ensures SameEntries(m, m1, child, level - 1) && SameFrames(m, m1, Below(m, child, level - 1, Tables))
  {
    hide Below;
  }

  /** The map below a present entry. */
  lemma ChildThere(m: Memory, t: nat, level: nat, i: nat)
    requires 1 < level <= 4 && Tree(m, t, level) && Low(level) <= i < ENTRIES && m[t][i].present
    ensures var child := m[t][i].frame;
            && Tree(m, child, level - 1) && t != child && t !in Below(m, child, level - 1, All) + Below(m, child, level - 1, Tables)
            && Below(m, child, level - 1, All) + {child} == Branch(m, m[t][i], level, All)
            && Below(m, child, level - 1, Tables) + {child} == Branch(m, m[t][i], level, Tables)
    ensures forall a | Inside(a, level) && a.Part(level) == i ::
              Walk(m, t, level, a) == Walk(m, m[t][i].frame, level - 1, a) && Inside(a, level - 1)
  {
    assert GoodBranch(m, t, m[t][i], level);
    forall a | Inside(a, level) && a.Part(level) == i
      ensures Walk(m, t, level, a) == Walk(m, m[t][i].frame, level - 1, a) && Inside(a, level - 1)
    {
    }
    hide Tree, Below, Branch, GoodBranch, Walk;
    GoodTable(m, t, m[t][i], level);
    TableBranch(m, m[t][i], level);
    BelowSubset(m, m[t][i].frame, level - 1, Tables);
  }

  lemma LinkedNew(m: Memory, m1: Memory, t: nat, level: nat, i: nat, child: nat)
    requires 1 < level <= 4 && Tree(m, t, level) && Low(level) <= i < ENTRIES && !m[t][i].present
    requires LinkedEntry(m, m1, t, i, child, true, {child})
    ensures Tree(m1, child, level - 1) && t != child && t !in Below(m1, child, level - 1, All)
    ensures Below(m1, child, level - 1, All) == {} && Branch(m, m[t][i], level, All) == {}
    ensures Below(m1, child, level - 1, Tables) == {} && Branch(m, m[t][i], level, Tables) == {}
    ensures forall a | Inside(a, level) && a.Part(level) == i :: Walk(m1, child, level - 1, a) == Walk(m, t, level, a)
  {
    forall a | Inside(a, level) && a.Part(level) == i
      ensures Walk(m, t, level, a) == None && Inside(a, level - 1)
    {
    }
    hide Tree, Below, Walk;
    EmptyTree(m1, child, level - 1);
  }

  /** The hypotheses of linking entry from.Part(level) of t and setting pages up below it. */
  ghost predicate TableLinked(m: Memory, m1: Memory, m2: Memory, t: nat, level: nat, from: Address, n: nat, child: nat,
                              w: bool, f1: set<nat>, f2: set<nat>)
  {
    && 1 < level <= 4 && Tree(m, t, level) && Inside(from, level)
    && LinkedEntry(m, m1, t, from.Part(level), child, true, f1)
    && f1 !! Below(m, t, level, All) && f2 !! Below(m, t, level, All) && t !in f1 + f2 && f1 !! f2
    && SetUp(m1, m2, child, level - 1, from, n, w, f2)
  }

  lemma LinkTableMemory(m: Memory, m1: Memory, m2: Memory, t: nat, level: nat, from: Address, n: nat, child: nat,
                        w: bool, f1: set<nat>, f2: set<nat>)
    requires TableLinked(m, m1, m2, t, level, from, n, child, w, f1, f2)
    ensures |m2| == |m| && m2[t] == m1[t]
    ensures Branch(m2, m2[t][from.Part(level)], level, All) == Branch(m, m[t][from.Part(level)], level, All) + f1 + f2
    ensures GoodBranch(m2, t, m2[t][from.Part(level)], level)
    ensures forall x | 0 <= x < |m| && x != t && x !in Branch(m, m[t][from.Part(level)], level, Tables) && x !in f1 + f2 ::
              m2[x] == m[x]
  {
    var i := from.Part(level);
    LinkedChild(m, m1, t, level, i, child, f1);
    BelowSubset(m1, child, level - 1, Tables);
  }

  lemma LinkTableOther(m: Memory, m1: Memory, m2: Memory, t: nat, level: nat, from: Address, n: nat, child: nat,
                       w: bool, f1: set<nat>, f2: set<nat>, j: nat)
    requires TableLinked(m, m1, m2, t, level, from, n, child, w, f1, f2)
    requires Low(level) <= j < ENTRIES && j != from.Part(level)
    ensures |m2| == |m| && m2[t][j] == m[t][j] && SameFrames(m, m2, Branch(m, m[t][j], level, Tables))
    ensures Branch(m, m[t][j], level, All) !! Branch(m, m[t][from.Part(level)], level, All) + f1 + f2
  {
    var e := m[t][from.Part(level)];
    LinkTableMemory(m, m1, m2, t, level, from, n, child, w, f1, f2);
    BranchSubset(m, m[t][j], level, Tables);
    BranchSubset(m, e, level, Tables);
    assert Branch(m, m[t][j], level, All) <= Below(m, t, level, All);
    assert GoodBranch(m, t, m[t][j], level);
  }

  lemma LinkTableFits(m: Memory, m1: Memory, m2: Memory, t: nat, level: nat, from: Address, n: nat, child: nat,
                      w: bool, f1: set<nat>, f2: set<nat>)
    requires TableLinked(m, m1, m2, t, level, from, n, child, w, f1, f2)
    ensures OnlyBranch(m, m2, t, level, from.Part(level)) && Fits(m, m2, t, level, from.Part(level))
    ensures Tree(m2, t, level)
    ensures Below(m2, t, level, All) == Below(m, t, level, All) + f1 + f2
  {
    hide Branch, Below, GoodBranch, LinkedEntry, SetUp;
    var i := from.Part(level);
    LinkTableMemory(m, m1, m2, t, level, from, n, child, w, f1, f2);
    BranchOfBelow(m, t, level, i);
    forall j | Low(level) <= j < ENTRIES && j != i
      ensures m2[t][j] == m[t][j] && SameFrames(m, m2, Branch(m, m[t][j], level, Tables))
      ensures Branch(m2, m2[t][i], level, All) !! Branch(m, m[t][j], level, All)
    {
      LinkTableOther(m, m1, m2, t, level, from, n, child, w, f1, f2, j);
    }
    ReplaceBranch(m, m2, t, level, i);
    ReplaceBranchFrames(m, m2, t, level, i, All);
  }

  lemma LinkTablePage(m: Memory, m1: Memory, m2: Memory, t: nat, level: nat, from: Address, n: nat, child: nat,
                      w: bool, f1: set<nat>, f2: set<nat>, a: Address)
    requires TableLinked(m, m1, m2, t, level, from, n, child, w, f1, f2)
    requires Index(from, level - 1) + n <= Span(level - 1) && Inside(a, level)
    ensures PageSetUp(m, m2, t, level, from, n, w, f1 + f2, a)
  {
    var i := from.Part(level);
    RangeOfBranch(a, from, n, level);
    if a.Part(level) != i {
      LinkTableFits(m, m1, m2, t, level, from, n, child, w, f1, f2);
      ReplaceBranchWalk(m, m2, t, level, i, a);
    } else {
      LinkedChild(m, m1, t, level, i, child, f1);
      LinkTableMemory(m, m1, m2, t, level, from, n, child, w, f1, f2);
      assert PageSetUp(m1, m2, child, level - 1, from, n, w, f2, a);
    }
  }

  /** Linking one entry of a higher-level table and setting pages up below it. */
  lemma LinkTable(m: Memory, m1: Memory, m2: Memory, t: nat, level: nat, from: Address, n: nat, child: nat, w: bool,
                  f1: set<nat>, f2: set<nat>)
    requires TableLinked(m, m1, m2, t, level, from, n, child, w, f1, f2)
    requires Index(from, level - 1) + n <= Span(level - 1)
    ensures SetUp(m, m2, t, level, from, n, w, f1 + f2)
  {
    LinkTableMemory(m, m1, m2, t, level, from, n, child, w, f1, f2);
    LinkTableFits(m, m1, m2, t, level, from, n, child, w, f1, f2);
    assert Branch(m, m[t][from.Part(level)], level, Tables) <= Below(m, t, level, Tables);
    forall a | Inside(a, level)
      ensures PageSetUp(m, m2, t, level, from, n, w, f1 + f2, a)
    {
      LinkTablePage(m, m1, m2, t, level, from, n, child, w, f1, f2, a);
    }
  }
}
