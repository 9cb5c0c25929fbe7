/** Four-level page maps held in physical memory (src/kernel/paging.hpp), read as trees:
    what an address walks to, which frames a map is made of, and what it means for those
    frames to form a tree with no frame shared. */
module PageTree {

  datatype Option<T> = None | Some(value: T)

  const ENTRIES: nat := 512

  /** One 64-bit word of memory, as the bit fields of a PageMapEntry. `frame` is bits.addr,
      the pointed-to address shifted right by 12. */
  datatype Word = Word(present: bool, writable: bool, user: bool, attributes: nat, frame: nat, reserved: nat)

  const ZERO: Word := Word(false, false, false, 0, 0, 0)

  /** The 512 words of a physical frame. */
  type Frame = s: seq<Word> | |s| == ENTRIES witness seq(ENTRIES, _ => ZERO)

  function ZeroFrame(): (f: Frame)
    ensures forall i | 0 <= i < ENTRIES :: f[i] == ZERO
  {
    seq(ENTRIES, _ => ZERO)
  }

  type Memory = seq<Frame>

  /** A virtual address cut into its four table indices (LinearAddress4Level). */
  datatype Address = Address(pml4: nat, pdp: nat, dir: nat, page: nat) {
    function Part(level: nat): nat {
      if level == 1 then page else if level == 2 then dir else if level == 3 then pdp
      else if level == 4 then pml4 else 0
    }

    function SetPart(level: nat, value: nat): Address {
      if level == 1 then this.(page := value) else if level == 2 then this.(dir := value)
      else if level == 3 then this.(pdp := value) else if level == 4 then this.(pml4 := value) else this
    }

    predicate Valid() { pml4 < ENTRIES && pdp < ENTRIES && dir < ENTRIES && page < ENTRIES }

    /** The address with every part below `level` zeroed. */
    function ClearBelow(level: nat): Address
      decreases level
    {
      if level <= 1 then this else SetPart(level - 1, 0).ClearBelow(level - 1)
    }
  }

  /** Pages below one entry of a level + 1 table: 512^level. */
  ghost function Span(level: nat): nat {
    if level == 0 then 1 else ENTRIES * Span(level - 1)
  }

  /** The number of a page within the table of the given level that its address walks through. */
  ghost function Index(a: Address, level: nat): nat {
    if level == 0 then 0 else a.Part(level) * Span(level - 1) + Index(a, level - 1)
  }

  /** Only the upper half of a top-level table belongs to an application; the lower half is
      the kernel's and is shared by all. */
  function Low(level: nat): nat { if level == 4 then 256 else 0 }

  /** An address of the part of a level's table that trees are about. */
  ghost predicate Inside(a: Address, level: nat) {
    a.Valid() && Low(level) <= a.Part(level)
  }

  // ------------------------------------------------------------------ walks and frames

  /** The leaf entry an address walks to from the table in frame t. */
  ghost function Walk(m: Memory, t: nat, level: nat, a: Address): Option<Word>
    decreases level
  {
    if level == 0 || t >= |m| || a.Part(level) >= ENTRIES then None else
    var e := m[t][a.Part(level)];
    if !e.present then None
    else if level == 1 then Some(e)
    else Walk(m, e.frame, level - 1, a)
  }

  /** The walk is the processor's: an entry of each of four tables, picked by the four indices from the highest on, each leading
      to the next table if it is present. */
  lemma FourLevels(m: Memory, t: nat, a: Address)
    requires a.Valid() && t < |m|
    ensures var e4 := m[t][a.pml4];
            if !e4.present || e4.frame >= |m| then Walk(m, t, 4, a) == None
            else
              var e3 := m[e4.frame][a.pdp];
              if !e3.present || e3.frame >= |m| then Walk(m, t, 4, a) == None
              else
                var e2 := m[e3.frame][a.dir];
                if !e2.present || e2.frame >= |m| then Walk(m, t, 4, a) == None
                else
                  var e1 := m[e2.frame][a.page];
                  Walk(m, t, 4, a) == if e1.present then Some(e1) else None
  {
    assert a.Part(4) == a.pml4 && a.Part(3) == a.pdp && a.Part(2) == a.dir && a.Part(1) == a.page;
    hide Address.Part;
    OneLevel(m, t, 4, a);
    if m[t][a.pml4].present && m[t][a.pml4].frame < |m| {
      var t3 := m[t][a.pml4].frame;
      OneLevel(m, t3, 3, a);
      if m[t3][a.pdp].present && m[t3][a.pdp].frame < |m| {
        var t2 := m[t3][a.pdp].frame;
        OneLevel(m, t2, 2, a);
        if m[t2][a.dir].present && m[t2][a.dir].frame < |m| {
          OneLevel(m, m[t2][a.dir].frame, 1, a);
        }
      }
    }
  }

  lemma OneLevel(m: Memory, t: nat, level: nat, a: Address)
    requires 0 < level <= 4 && t < |m| && a.Part(level) < ENTRIES
    ensures var e := m[t][a.Part(level)];
            Walk(m, t, level, a) == if !e.present then None else if level == 1 then Some(e) else Walk(m, e.frame, level - 1, a)
    ensures m[t][a.Part(level)].frame >= |m| && level > 1 ==> Walk(m, t, level, a) == None
  {
  }

  /** Which frames below a table are meant: all of them, only tables, or those reached
      through a writable entry (the ones that CleanPageMap frees). */
  datatype Kind = All | Tables | Writable

  ghost predicate Selected(k: Kind, e: Word, level: nat) {
    k.All? || (k.Tables? && level > 1) || (k.Writable? && e.writable)
  }

  /** Frames reached through entry e of a table of the given level. */
  ghost function Branch(m: Memory, e: Word, level: nat, k: Kind): set<nat>
    requires level > 0
    decreases level, 0
  {
    if !e.present then {} else
    (if Selected(k, e, level) then {e.frame} else {}) + Below(m, e.frame, level - 1, k)
  }

  /** Frames below the table in frame t. */
  ghost function Below(m: Memory, t: nat, level: nat, k: Kind): set<nat>
    decreases level, 1
  {
    if level == 0 || t >= |m| then {} else
    set i, x | Low(level) <= i < ENTRIES && x in Branch(m, m[t][i], level, k) :: x
  }

  /** Entry e of the table in frame t leads to a tree that does not run through t. */
  ghost predicate GoodBranch(m: Memory, t: nat, e: Word, level: nat)
    requires level > 0
    decreases level, 0
  {
    e.present ==>
      && Tree(m, e.frame, level - 1)
      && (level > 1 ==> e.writable && e.user)
      && t !in Branch(m, e, level, All)
  }

  /** The frames below t form a tree: no frame is met twice. */
  ghost predicate Tree(m: Memory, t: nat, level: nat)
    decreases level, 1
  {
    && t < |m|
    && (level > 0 ==>
          && (forall i | Low(level) <= i < ENTRIES :: GoodBranch(m, t, m[t][i], level))
          && (forall i, j | Low(level) <= i < j < ENTRIES ::
                Branch(m, m[t][i], level, All) !! Branch(m, m[t][j], level, All)))
  }

  // ------------------------------------------------------------------ general facts

  lemma BelowSubset(m: Memory, t: nat, level: nat, k: Kind)
    ensures Below(m, t, level, k) <= Below(m, t, level, All)
    decreases level, 1
  {
    if level > 0 && t < |m| {
      forall i | Low(level) <= i < ENTRIES
        ensures Branch(m, m[t][i], level, k) <= Branch(m, m[t][i], level, All)
      {
        BranchSubset(m, m[t][i], level, k);
      }
    }
  }

  lemma BranchSubset(m: Memory, e: Word, level: nat, k: Kind)
    requires level > 0
    ensures Branch(m, e, level, k) <= Branch(m, e, level, All)
    decreases level, 0
  {
    BelowSubset(m, e.frame, level - 1, k);
  }

  /** Frames of a tree exist in memory. */
  lemma BelowInMemory(m: Memory, t: nat, level: nat)
    requires Tree(m, t, level)
    ensures forall x | x in Below(m, t, level, All) :: x < |m|
    decreases level
  {
    if level > 0 {
      forall i | Low(level) <= i < ENTRIES
        ensures forall x | x in Branch(m, m[t][i], level, All) :: x < |m|
      {
        assert GoodBranch(m, t, m[t][i], level);
        if m[t][i].present {
          BelowInMemory(m, m[t][i].frame, level - 1);
        }
      }
    }
  }

  /** Two memories agree on the entries of t that a tree is about. */
  ghost predicate SameEntries(m: Memory, m': Memory, t: nat, level: nat) {
    t < |m| == |m'| && forall i | Low(level) <= i < ENTRIES :: m'[t][i] == m[t][i]
  }

  ghost predicate SameFrames(m: Memory, m': Memory, frames: set<nat>) {
    |m| == |m'| && forall x | x in frames && x < |m| :: m'[x] == m[x]
  }

  /** A tree depends on its tables only; what is in the leaf pages does not matter. */
  lemma SameTree(m: Memory, m': Memory, t: nat, level: nat)
    requires Tree(m, t, level) && SameEntries(m, m', t, level)
    requires SameFrames(m, m', Below(m, t, level, Tables))
    ensures Tree(m', t, level)
    ensures forall k :: Below(m', t, level, k) == Below(m, t, level, k)
    decreases level, 1
  {
    if level > 0 {
      forall i | Low(level) <= i < ENTRIES
        ensures GoodBranch(m', t, m'[t][i], level)
        ensures forall k :: Branch(m', m'[t][i], level, k) == Branch(m, m[t][i], level, k)
      {
        assert GoodBranch(m, t, m[t][i], level);
        assert Branch(m, m[t][i], level, Tables) <= Below(m, t, level, Tables);
        SameBranch(m, m', t, m[t][i], level);
      }
    }
  }

  lemma SameBranch(m: Memory, m': Memory, t: nat, e: Word, level: nat)
    requires level > 0 && GoodBranch(m, t, e, level)
    requires SameFrames(m, m', Branch(m, e, level, Tables))
    ensures GoodBranch(m', t, e, level)
    ensures forall k :: Branch(m', e, level, k) == Branch(m, e, level, k)
    decreases level, 0
  {
    if e.present && level > 1 {
      assert e.frame in Branch(m, e, level, Tables);
      SameTree(m, m', e.frame, level - 1);
    }
  }

  lemma SameWalk(m: Memory, m': Memory, t: nat, level: nat, a: Address)
    requires level <= 4 && Tree(m, t, level) && SameEntries(m, m', t, level) && Inside(a, level)
    requires SameFrames(m, m', Below(m, t, level, Tables))
    ensures Walk(m', t, level, a) == Walk(m, t, level, a)
    decreases level
  {
    if level > 1 {
      var e := m[t][a.Part(level)];
      assert GoodBranch(m, t, e, level);
      assert Branch(m, e, level, Tables) <= Below(m, t, level, Tables);
      if e.present {
        assert e.frame in Branch(m, e, level, Tables);
        SameWalk(m, m', e.frame, level - 1, a);
      }
    }
  }

  // ------------------------------------------------------------------ leaves

  /** What is in one branch under some kind is in the whole under that kind. */
  lemma BranchMember(m: Memory, t: nat, level: nat, i: nat, x: nat, k: Kind)
    requires level > 0 && Tree(m, t, level) && Low(level) <= i < ENTRIES
    requires x in Branch(m, m[t][i], level, All)
    ensures x in Below(m, t, level, k) <==> x in Branch(m, m[t][i], level, k)
  {
    forall j | Low(level) <= j < ENTRIES && j != i
      ensures x !in Branch(m, m[t][j], level, k)
    {
      BranchSubset(m, m[t][j], level, k);
    }
  }

  lemma NothingBelowPage(m: Memory, t: nat)
    ensures forall k :: Below(m, t, 0, k) == {}
  {
  }

  lemma NoBranch(m: Memory, e: Word, level: nat)
    requires level > 0 && !e.present
    ensures forall k :: Branch(m, e, level, k) == {}
  {
  }

  /** What is reached through an entry for a lower table. */
  lemma TableBranch(m: Memory, e: Word, level: nat)
    requires level > 1 && e.present
    ensures Branch(m, e, level, All) == {e.frame} + Below(m, e.frame, level - 1, All)
    ensures Branch(m, e, level, Tables) == {e.frame} + Below(m, e.frame, level - 1, Tables)
  {
  }

  /** In a level-1 table an entry is a page of its own. */
  lemma PageBranch(m: Memory, e: Word)
    ensures Branch(m, e, 1, All) == if e.present then {e.frame} else {}
    ensures Branch(m, e, 1, Tables) == {}
  {
  }

  /** A table without present entries is an empty map. */
  lemma EmptyTree(m: Memory, t: nat, level: nat)
    requires t < |m| && level <= 4 && (forall i | Low(level) <= i < ENTRIES :: !m[t][i].present)
    ensures Tree(m, t, level)
    ensures forall k :: Below(m, t, level, k) == {}
    ensures forall a | Inside(a, level) :: Walk(m, t, level, a) == None
  {
  }

  lemma GoodTable(m: Memory, t: nat, e: Word, level: nat)
    requires level > 1 && e.present
    ensures GoodBranch(m, t, e, level) <==>
              && Tree(m, e.frame, level - 1) && e.writable && e.user
              && t != e.frame && t !in Below(m, e.frame, level - 1, All)
  {
  }

  lemma BranchOfBelow(m: Memory, t: nat, level: nat, i: nat)
    requires level > 0 && t < |m| && Low(level) <= i < ENTRIES
    ensures forall k :: Branch(m, m[t][i], level, k) <= Below(m, t, level, k)
  {
  }

  /** The page an address walks to is a leaf of the tree, and whether it is writable is
      known from the set of writable frames. */
  lemma WalkLeaf(m: Memory, t: nat, level: nat, a: Address)
    requires level <= 4 && Tree(m, t, level) && Inside(a, level) && Walk(m, t, level, a).Some?
    ensures var e := Walk(m, t, level, a).value;
            && e.present && e.frame in Below(m, t, level, All) && e.frame !in Below(m, t, level, Tables)
            && (e.frame in Below(m, t, level, Writable) <==> e.writable)
    decreases level
  {
    hide Address.Part, Below;
    var i := a.Part(level);
    var e, leaf := m[t][i], Walk(m, t, level, a).value;
    assert GoodBranch(m, t, e, level);
    if level > 1 {
      WalkLeaf(m, e.frame, level - 1, a);
      TopNotBelow(m, e.frame, level - 1);
    } else {
      NothingBelowPage(m, e.frame);
    }
    assert leaf.frame in Branch(m, e, level, All);
    BranchOfBelow(m, t, level, i);
    BranchMember(m, t, level, i, leaf.frame, Tables);
    BranchMember(m, t, level, i, leaf.frame, Writable);
  }

  lemma TopNotBelow(m: Memory, t: nat, level: nat)
    requires Tree(m, t, level)
    ensures t !in Below(m, t, level, All)
  {
    if level > 0 {
      forall i | Low(level) <= i < ENTRIES
        ensures t !in Branch(m, m[t][i], level, All)
      {
        assert GoodBranch(m, t, m[t][i], level);
      }
    }
  }

  ghost predicate SamePage(a: Address, b: Address, level: nat) {
    forall l | 0 < l <= level :: a.Part(l) == b.Part(l)
  }

  lemma SamePageSplit(a: Address, b: Address, level: nat)
    requires level > 0
    ensures SamePage(a, b, level) <==> a.Part(level) == b.Part(level) && SamePage(a, b, level - 1)
  {
  }

  lemma SetPartLaws(a: Address, level: nat, value: nat)
    requires 0 < level <= 4
    ensures forall l :: a.SetPart(level, value).Part(l) == if l == level then value else a.Part(l)
    ensures a.Valid() && value < ENTRIES ==> a.SetPart(level, value).Valid()
  {
  }

  lemma LowerLevel(m: Memory, t: nat, level: nat, i: nat, x: nat)
    requires 1 < level <= 4 && Tree(m, t, level) && Low(level) <= i < ENTRIES
    requires x in Branch(m, m[t][i], level, All) && x !in Branch(m, m[t][i], level, Tables)
    ensures m[t][i].present && Tree(m, m[t][i].frame, level - 1)
    ensures x in Below(m, m[t][i].frame, level - 1, All) && x !in Below(m, m[t][i].frame, level - 1, Tables)
  {
    assert GoodBranch(m, t, m[t][i], level);
  }

  /** Every frame of a tree that is not a table is the page of some address. */
  lemma LeafWalk(m: Memory, t: nat, level: nat, x: nat) returns (a: Address)
    requires 0 < level <= 4 && Tree(m, t, level)
    requires x in Below(m, t, level, All) && x !in Below(m, t, level, Tables)
    ensures Inside(a, level)
    ensures Walk(m, t, level, a).Some? && Walk(m, t, level, a).value.frame == x
    decreases level
  {
    hide *;
    var i := LeafBranch(m, t, level, x);
    var e := m[t][i];
    var b := Address(0, 0, 0, 0);
    if level > 1 {
      LowerLevel(m, t, level, i, x);
      b := LeafWalk(m, e.frame, level - 1, x);
    }
    SetPartLaws(b, level, i);
    a := b.SetPart(level, i);
    LeafAt(m, t, level, i, x, b, a);
  }

  /** The entry below which a leaf lies. */
  lemma LeafBranch(m: Memory, t: nat, level: nat, x: nat) returns (i: nat)
    requires 0 < level <= 4 && Tree(m, t, level)
    requires x in Below(m, t, level, All) && x !in Below(m, t, level, Tables)
    ensures Low(level) <= i < ENTRIES && t < |m| && m[t][i].present
    ensures x in Branch(m, m[t][i], level, All) && x !in Branch(m, m[t][i], level, Tables)
    ensures level == 1 ==> m[t][i].frame == x
  {
    i :| Low(level) <= i < ENTRIES && x in Branch(m, m[t][i], level, All);
    hide Tree, GoodBranch;
    BranchMember(m, t, level, i, x, Tables);
    hide Below;
    if level == 1 {
      PageBranch(m, m[t][i]);
    }
  }

  lemma LeafAt(m: Memory, t: nat, level: nat, i: nat, x: nat, b: Address, a: Address)
    requires 0 < level <= 4 && t < |m| && Low(level) <= i < ENTRIES && m[t][i].present && a == b.SetPart(level, i)
    requires if level == 1 then m[t][i].frame == x && b == Address(0, 0, 0, 0)
             else Inside(b, level - 1) && Walk(m, m[t][i].frame, level - 1, b).Some? && Walk(m, m[t][i].frame, level - 1, b).value.frame == x
    ensures Inside(a, level) && Walk(m, t, level, a).Some? && Walk(m, t, level, a).value.frame == x
  {
    hide Address.Part, Address.SetPart;
    SetPartLaws(b, level, i);
    WalkSamePage(m, m[t][i].frame, level - 1, a, b);
  }

  lemma WalkSamePage(m: Memory, t: nat, level: nat, a: Address, b: Address)
    requires SamePage(a, b, level)
    ensures Walk(m, t, level, a) == Walk(m, t, level, b)
    decreases level
  {
    if level > 1 && t < |m| && a.Part(level) < ENTRIES {
      WalkSamePage(m, m[t][a.Part(level)].frame, level - 1, a, b);
    }
  }

  /** Different pages of one tree are held in different frames. */
  lemma WalkInjective(m: Memory, t: nat, level: nat, a: Address, b: Address)
    requires level <= 4 && Tree(m, t, level) && Inside(a, level) && Inside(b, level)
    requires Walk(m, t, level, a).Some? && Walk(m, t, level, b).Some?
    requires Walk(m, t, level, a).value.frame == Walk(m, t, level, b).value.frame
    ensures SamePage(a, b, level)
    decreases level
  {
    var i, j := a.Part(level), b.Part(level);
    var x := Walk(m, t, level, a).value.frame;
    LeafInBranch(m, t, level, a);
    LeafInBranch(m, t, level, b);
    assert GoodBranch(m, t, m[t][i], level);
    if i < j {
      assert false;
    } else if j < i {
      assert false;
    } else if level > 1 {
      WalkInjective(m, m[t][i].frame, level - 1, a, b);
    }
  }

  lemma LeafInBranch(m: Memory, t: nat, level: nat, a: Address)
    requires level <= 4 && Tree(m, t, level) && Inside(a, level) && Walk(m, t, level, a).Some?
    ensures Walk(m, t, level, a).value.frame in Branch(m, m[t][a.Part(level)], level, All)
  {
    var e := m[t][a.Part(level)];
    assert GoodBranch(m, t, e, level);
    if level > 1 {
      WalkLeaf(m, e.frame, level - 1, a);
    }
  }

  // ------------------------------------------------------------------ changing one branch

  /** From m to m' only entry i of table t and frames below that entry may have changed. */
  ghost predicate OnlyBranch(m: Memory, m': Memory, t: nat, level: nat, i: nat) {
    && 0 < level <= 4 && Tree(m, t, level) && t < |m'| == |m| && Low(level) <= i < ENTRIES
    && (forall j | Low(level) <= j < ENTRIES && j != i ::
          m'[t][j] == m[t][j] && SameFrames(m, m', Branch(m, m[t][j], level, Tables)))
  }

  /** The changed branch is again good and does not touch the other branches. */
  ghost predicate Fits(m: Memory, m': Memory, t: nat, level: nat, i: nat)
    requires OnlyBranch(m, m', t, level, i)
  {
    && GoodBranch(m', t, m'[t][i], level)
    && (forall j | Low(level) <= j < ENTRIES && j != i ::
          Branch(m', m'[t][i], level, All) !! Branch(m, m[t][j], level, All))
  }

  lemma OtherBranch(m: Memory, m': Memory, t: nat, level: nat, i: nat, j: nat)
    requires OnlyBranch(m, m', t, level, i) && Low(level) <= j < ENTRIES && j != i
    ensures GoodBranch(m', t, m'[t][j], level)
    ensures forall k :: Branch(m', m'[t][j], level, k) == Branch(m, m[t][j], level, k)
  {
    assert GoodBranch(m, t, m[t][j], level);
    SameBranch(m, m', t, m[t][j], level);
  }

  lemma ReplaceBranch(m: Memory, m': Memory, t: nat, level: nat, i: nat)
    requires OnlyBranch(m, m', t, level, i) && Fits(m, m', t, level, i)
    ensures Tree(m', t, level)
  {
    forall j | Low(level) <= j < ENTRIES && j != i
      ensures GoodBranch(m', t, m'[t][j], level)
      ensures Branch(m', m'[t][j], level, All) == Branch(m, m[t][j], level, All)
    {
      OtherBranch(m, m', t, level, i, j);
    }
  }

  lemma ReplaceBranchFrames(m: Memory, m': Memory, t: nat, level: nat, i: nat, k: Kind)
    requires OnlyBranch(m, m', t, level, i)
    ensures Below(m', t, level, k) ==
            Below(m, t, level, k) - Branch(m, m[t][i], level, k) + Branch(m', m'[t][i], level, k)
  {
    hide GoodBranch, Branch, SameFrames;
    forall j | Low(level) <= j < ENTRIES && j != i
      ensures Branch(m', m'[t][j], level, k) == Branch(m, m[t][j], level, k)
      ensures Branch(m, m[t][j], level, k) !! Branch(m, m[t][i], level, k)
    {
      OtherBranch(m, m', t, level, i, j);
      BranchSubset(m, m[t][i], level, k);
      BranchSubset(m, m[t][j], level, k);
    }
  }

  lemma ReplaceBranchWalk(m: Memory, m': Memory, t: nat, level: nat, i: nat, a: Address)
    requires OnlyBranch(m, m', t, level, i) && Inside(a, level) && a.Part(level) != i
    ensures Walk(m', t, level, a) == Walk(m, t, level, a)
  {
    var e := m[t][a.Part(level)];
    assert GoodBranch(m, t, e, level);
    if level > 1 && e.present {
      assert e.frame in Branch(m, e, level, Tables);
      SameWalk(m, m', e.frame, level - 1, a);
    }
  }
}
