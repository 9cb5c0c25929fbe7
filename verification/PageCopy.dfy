/** What CopyPageMaps, CleanPageMap and SetPageContent must do to a map, and how their steps
    are put together. */
module PageCopy {
  import opened PageTree

  // ------------------------------------------------------------------ taking a map apart

  /** Frames below the entries of t before entry i. */
  ghost function UpTo(m: Memory, t: nat, level: nat, i: nat, k: Kind): set<nat>
    requires level > 0 && t < |m| && i <= ENTRIES
  {
    set j, x | Low(level) <= j < i && x in Branch(m, m[t][j], level, k) :: x
  }

  lemma UpToStep(m: Memory, t: nat, level: nat, i: nat, k: Kind)
    requires level > 0 && t < |m| && Low(level) <= i < ENTRIES
    ensures UpTo(m, t, level, i + 1, k) == UpTo(m, t, level, i, k) + Branch(m, m[t][i], level, k)
  {
  }

  lemma UpToAll(m: Memory, t: nat, level: nat, k: Kind)
    requires level > 0 && t < |m|
    ensures UpTo(m, t, level, Low(level), k) == {}
    ensures UpTo(m, t, level, ENTRIES, k) == Below(m, t, level, k)
  {
  }

  /** The entries of t before i have been cleared, tables below them may have changed, and
      everything else is as in m. */
  ghost predicate CleanedUpTo(m: Memory, m': Memory, t: nat, level: nat, i: nat)
    requires level > 0 && t < |m| && i <= ENTRIES
  {
    && |m'| == |m|
    && (forall j | Low(level) <= j < i :: !m'[t][j].present)
    && (forall j | 0 <= j < ENTRIES && (j < Low(level) || i <= j) :: m'[t][j] == m[t][j])
    && (forall x | 0 <= x < |m| && x != t && x !in UpTo(m, t, level, i, Tables) :: m'[x] == m[x])
  }

  /** The branch that is cleaned next is still as it was. */
  lemma NextBranchIntact(m: Memory, m': Memory, t: nat, level: nat, i: nat)
    requires 0 < level <= 4 && Tree(m, t, level) && Low(level) <= i < ENTRIES
    requires CleanedUpTo(m, m', t, level, i)
    ensures m'[t][i] == m[t][i] && GoodBranch(m', t, m[t][i], level)
    ensures forall k :: Branch(m', m[t][i], level, k) == Branch(m, m[t][i], level, k)
    ensures Branch(m, m[t][i], level, All) !! UpTo(m, t, level, i, All)
  {
    assert GoodBranch(m, t, m[t][i], level);
    forall x | x in Branch(m, m[t][i], level, All)
      ensures x !in UpTo(m, t, level, i, All)
    {
    }
    BranchSubset(m, m[t][i], level, Tables);
    UpToSubset(m, t, level, i, Tables);
    SameBranch(m, m', t, m[t][i], level);
  }

  lemma UpToSubset(m: Memory, t: nat, level: nat, i: nat, k: Kind)
    requires level > 0 && t < |m| && i <= ENTRIES
    ensures UpTo(m, t, level, i, k) <= UpTo(m, t, level, i, All)
  {
    forall j | Low(level) <= j < i
      ensures Branch(m, m[t][j], level, k) <= Branch(m, m[t][j], level, All)
    {
      BranchSubset(m, m[t][j], level, k);
    }
  }

  /** One more entry cleared: m1 is m' after the branch below entry i was cleaned. */
  lemma CleanedStep(m: Memory, m': Memory, m1: Memory, t: nat, level: nat, i: nat)
    requires 0 < level <= 4 && Tree(m, t, level) && Low(level) <= i < ENTRIES
    requires CleanedUpTo(m, m', t, level, i) && |m1| == |m|
    requires forall x | 0 <= x < |m| && x !in Branch(m, m[t][i], level, Tables) :: m1[x] == m'[x]
    ensures !m[t][i].present ==> CleanedUpTo(m, m', t, level, i + 1)
    ensures CleanedUpTo(m, m1[t := m1[t][i := ZERO]], t, level, i + 1)
  {
    assert GoodBranch(m, t, m[t][i], level);
    BranchSubset(m, m[t][i], level, Tables);
    UpToStep(m, t, level, i, Tables);
  }

  // ------------------------------------------------------------------ copying a map

  /** The entry a copied page gets. */
  ghost function ReadOnly(e: Option<Word>): Option<Word> {
    if e.None? then None else Some(e.value.(writable := false))
  }

  /** Entries of d before i are a copy of those of s: new tables f, the same pages read-only. */
  ghost predicate CopiedUpTo(m: Memory, m': Memory, d: nat, s: nat, level: nat, i: nat, f: set<nat>) {
    && 0 < level <= 4 && i <= ENTRIES && |m'| == |m| && Tree(m, s, level) && Tree(m', d, level)
    && d !in f && f !! Below(m, s, level, All) + {s} && d !in Below(m, s, level, All) + {s}
    && (forall x | 0 <= x < |m| && x != d && x !in f :: m'[x] == m[x])
    && (forall j | 0 <= j < Low(level) :: m'[d][j] == m[d][j])
    && (forall j | i <= j < ENTRIES && Low(level) <= j :: !m'[d][j].present)
    && (forall j | Low(level) <= j < i :: Branch(m', m'[d][j], level, All) <= f + Branch(m, m[s][j], level, All))
    && Below(m', d, level, Tables) == f
    && (forall a | Inside(a, level) ::
          Walk(m', d, level, a) == if a.Part(level) < i then ReadOnly(Walk(m, s, level, a)) else None)
  }

  ghost predicate Copied(m: Memory, m': Memory, d: nat, s: nat, level: nat, f: set<nat>) {
    CopiedUpTo(m, m', d, s, level, ENTRIES, f)
  }

  lemma CopyNothing(m: Memory, d: nat, s: nat, level: nat)
    requires 0 < level <= 4 && Tree(m, s, level) && d < |m| && d !in Below(m, s, level, All) + {s}
    requires forall i | Low(level) <= i < ENTRIES :: !m[d][i].present
    ensures CopiedUpTo(m, m, d, s, level, Low(level), {})
  {
    EmptyTree(m, d, level);
  }

  lemma CopySkip(m: Memory, m': Memory, d: nat, s: nat, level: nat, i: nat, f: set<nat>)
    requires CopiedUpTo(m, m', d, s, level, i, f) && Low(level) <= i < ENTRIES && !m[s][i].present
    ensures CopiedUpTo(m, m', d, s, level, i + 1, f)
  {
  }

  /** The source tree is untouched by the copying so far. */
  lemma SourceIntact(m: Memory, m': Memory, d: nat, s: nat, level: nat, i: nat, f: set<nat>)
    requires CopiedUpTo(m, m', d, s, level, i, f)
    ensures m'[s] == m[s] && SameFrames(m, m', Below(m, s, level, All)) && Tree(m', s, level)
    ensures forall k :: Below(m', s, level, k) == Below(m, s, level, k)
  {
    BelowSubset(m, s, level, Tables);
    BelowInMemory(m, s, level);
    SameTree(m, m', s, level);
  }

  /** Another branch of the copy has nothing of the frames that branch i of the source is made of. */
  lemma CopiedBranchApart(m: Memory, m': Memory, d: nat, s: nat, level: nat, i: nat, f: set<nat>, j: nat, g: set<nat>)
    requires CopiedUpTo(m, m', d, s, level, i, f) && Low(level) <= i < ENTRIES && Low(level) <= j < ENTRIES && j != i
    requires g !! Below(m, s, level, All) + f
    ensures Branch(m', m'[d][j], level, All) !! g + Branch(m, m[s][i], level, All)
  {
    BranchOfBelow(m, s, level, i);
    BranchOfBelow(m, s, level, j);
  }

  /** Copying the entry of one page. */
  lemma CopyPage(m: Memory, m': Memory, d: nat, s: nat, i: nat, f: set<nat>)
    requires CopiedUpTo(m, m', d, s, 1, i, f) && Low(1) <= i < ENTRIES && m[s][i].present
    ensures CopiedUpTo(m, m'[d := m'[d][i := m[s][i].(writable := false)]], d, s, 1, i + 1, f)
  {
    var m1 := m'[d := m'[d][i := m[s][i].(writable := false)]];
    CopyPageFits(m, m', m1, d, s, i, f);
    hide Tree, GoodBranch, Below;
    ReplaceBranch(m', m1, d, 1, i);
    ReplaceBranchFrames(m', m1, d, 1, i, Tables);
    forall a | Inside(a, 1)
      ensures Walk(m1, d, 1, a) == if a.Part(1) < i + 1 then ReadOnly(Walk(m, s, 1, a)) else None
    {
      if a.Part(1) != i {
        ReplaceBranchWalk(m', m1, d, 1, i, a);
      }
    }
  }

  lemma CopyPageFits(m: Memory, m': Memory, m1: Memory, d: nat, s: nat, i: nat, f: set<nat>)
    requires CopiedUpTo(m, m', d, s, 1, i, f) && Low(1) <= i < ENTRIES && m[s][i].present
    requires m1 == m'[d := m'[d][i := m[s][i].(writable := false)]]
    ensures OnlyBranch(m', m1, d, 1, i) && Fits(m', m1, d, 1, i)
    ensures forall j | 0 <= j < ENTRIES && j != i :: m1[d][j] == m'[d][j]
    ensures forall j | Low(1) <= j < i + 1 :: Branch(m1, m1[d][j], 1, All) <= f + Branch(m, m[s][j], 1, All)
    ensures forall k: Kind | k.Tables? || k.All? :: Branch(m1, m1[d][i], 1, k) == Branch(m, m[s][i], 1, k)
    ensures Branch(m1, m1[d][i], 1, Tables) == Branch(m', m'[d][i], 1, Tables) == {}
  {
    assert GoodBranch(m, s, m[s][i], 1);
    BranchOfBelow(m, s, 1, i);
    forall j | Low(1) <= j < ENTRIES && j != i
      ensures m1[d][j] == m'[d][j] && SameFrames(m', m1, Branch(m', m'[d][j], 1, Tables))
      ensures Branch(m1, m1[d][i], 1, All) !! Branch(m', m'[d][j], 1, All)
    {
      CopiedBranchApart(m, m', d, s, 1, i, f, j, {});
    }
  }

  /** Memory with entry i of d pointing at the fresh zeroed table c, flags as in s. */
  ghost function WithTable(m: Memory, d: nat, s: nat, i: nat, c: nat): Memory
    requires d < |m| && s < |m| && c < |m| && i < ENTRIES
  {
    m[c := ZeroFrame()][d := m[d][i := m[s][i].(frame := c)]]
  }

  lemma WithTableFrames(m: Memory, d: nat, s: nat, i: nat, c: nat)
    requires d < |m| && s < |m| && c < |m| && i < ENTRIES && d != c
    ensures |WithTable(m, d, s, i, c)| == |m| && WithTable(m, d, s, i, c)[c] == ZeroFrame()
    ensures WithTable(m, d, s, i, c)[d] == m[d][i := m[s][i].(frame := c)]
    ensures forall x | 0 <= x < |m| && x != d && x != c :: WithTable(m, d, s, i, c)[x] == m[x]
  {
  }

  /** What is needed to copy the table below entry i of s into the fresh frame c. */
  ghost predicate TableCopied(m: Memory, m': Memory, m2: Memory, d: nat, s: nat, level: nat, i: nat, f: set<nat>,
                              c: nat, f2: set<nat>)
  {
    && CopiedUpTo(m, m', d, s, level, i, f) && level > 1 && Low(level) <= i < ENTRIES && m[s][i].present
    && c < |m| && c != d && c !in f + Below(m, s, level, All) + {s}
    && f2 !! f + {c, d} && f2 !! Below(m, s, level, All) + {s}
    && Copied(WithTable(m', d, s, i, c), m2, c, m[s][i].frame, level - 1, f2)
  }

  /** The subtree below entry i of s, seen in a memory that has all frames of the tree as m. */
  lemma Subtree(m: Memory, m1: Memory, s: nat, level: nat, i: nat)
    requires 1 < level <= 4 && Tree(m, s, level) && Low(level) <= i < ENTRIES && m[s][i].present
    requires SameFrames(m, m1, Below(m, s, level, All))
    ensures Tree(m1, m[s][i].frame, level - 1)
    ensures Below(m1, m[s][i].frame, level - 1, All) + {m[s][i].frame} == Branch(m, m[s][i], level, All)
    ensures Below(m1, m[s][i].frame, level - 1, All) + {m[s][i].frame} <= Below(m, s, level, All)
  {
    var child := m[s][i].frame;
    assert GoodBranch(m, s, m[s][i], level);
    BranchOfBelow(m, s, level, i);
    BelowSubset(m, child, level - 1, Tables);
    assert Below(m, child, level - 1, All) <= Branch(m, m[s][i], level, All);
    SameTree(m, m1, child, level - 1);
  }

  lemma SubtreeWalk(m: Memory, m1: Memory, s: nat, level: nat, i: nat, a: Address)
    requires 1 < level <= 4 && Tree(m, s, level) && Low(level) <= i < ENTRIES && m[s][i].present
    requires SameFrames(m, m1, Below(m, s, level, All)) && Inside(a, level) && a.Part(level) == i
    ensures Walk(m1, m[s][i].frame, level - 1, a) == Walk(m, s, level, a)
  {
    var child := m[s][i].frame;
    assert GoodBranch(m, s, m[s][i], level);
    BranchOfBelow(m, s, level, i);
    BelowSubset(m, child, level - 1, Tables);
    assert Below(m, child, level - 1, All) <= Branch(m, m[s][i], level, All);
    SameWalk(m, m1, child, level - 1, a);
  }

  /** Before the recursive copy: all frames of the source are in place, and c is an empty table. */
  lemma CopyTableStarts(m: Memory, m': Memory, d: nat, s: nat, level: nat, i: nat, f: set<nat>, c: nat, m1: Memory)
    requires CopiedUpTo(m, m', d, s, level, i, f) && level > 1 && Low(level) <= i < ENTRIES && m[s][i].present
    requires c < |m| && c != d && c !in f + Below(m, s, level, All) + {s}
    requires m1 == WithTable(m', d, s, i, c)
    ensures s < |m'| && m'[s] == m[s] && SameFrames(m, m1, Below(m, s, level, All))
    ensures Tree(m, s, level) && |m1| == |m| == |m'| && m1[s] == m[s] && m1[c] == ZeroFrame()
  {
    SourceIntact(m, m', d, s, level, i, f);
  }

  lemma CopyFacts(m: Memory, m': Memory, d: nat, s: nat, level: nat, i: nat, f: set<nat>)
    requires CopiedUpTo(m, m', d, s, level, i, f)
    ensures 0 < level <= 4 && |m'| == |m| && Tree(m, s, level) && s < |m| && d < |m|
    ensures d !in f + Below(m, s, level, All) + {s} && f !! Below(m, s, level, All) + {s}
  {
  }

  lemma GoodEntry(m: Memory, t: nat, level: nat, i: nat)
    requires 1 < level <= 4 && Tree(m, t, level) && Low(level) <= i < ENTRIES && m[t][i].present
    ensures m[t][i].writable && m[t][i].user
  {
    assert GoodBranch(m, t, m[t][i], level);
  }

  lemma CopyTableMemory(m: Memory, m': Memory, m2: Memory, d: nat, s: nat, level: nat, i: nat, f: set<nat>,
                        c: nat, f2: set<nat>)
    requires TableCopied(m, m', m2, d, s, level, i, f, c, f2)
    ensures |m2| == |m| && m2[d] == m'[d][i := m[s][i].(frame := c)]
    ensures forall x | 0 <= x < |m| && x != d && x != c && x !in f2 :: m2[x] == m'[x]
  {
    CopyFacts(m, m', d, s, level, i, f);
    hide CopiedUpTo, Copied;
    var m1, child := WithTable(m', d, s, i, c), m[s][i].frame;
    CopyTableStarts(m, m', d, s, level, i, f, c, m1);
    WithTableFrames(m', d, s, i, c);
    CopiedTables(m1, m2, c, child, level - 1, f2);
  }

  lemma CopyTableBranch(m: Memory, m': Memory, m2: Memory, d: nat, s: nat, level: nat, i: nat, f: set<nat>,
                        c: nat, f2: set<nat>)
    requires TableCopied(m, m', m2, d, s, level, i, f, c, f2)
    ensures |m2| == |m| && m2[d][i] == m[s][i].(frame := c)
    ensures GoodBranch(m2, d, m2[d][i], level)
    ensures Branch(m2, m2[d][i], level, All) <= f2 + {c} + Branch(m, m[s][i], level, All)
    ensures Branch(m2, m2[d][i], level, Tables) == f2 + {c}
  {
    CopyTableMemory(m, m', m2, d, s, level, i, f, c, f2);
    CopyFacts(m, m', d, s, level, i, f);
    var m1, child := WithTable(m', d, s, i, c), m[s][i].frame;
    CopyTableStarts(m, m', d, s, level, i, f, c, m1);
    Subtree(m, m1, s, level, i);
    hide Tree, Below, Copied, Walk, Branch, GoodBranch, CopiedUpTo, WithTable, SameFrames;
    CopiedBelow(m1, m2, c, child, level - 1, f2);
    GoodEntry(m, s, level, i);
    CopiedTables(m1, m2, c, child, level - 1, f2);
    TableBranch(m2, m2[d][i], level);
    GoodTable(m2, d, m2[d][i], level);
  }

  /** All frames of a copy are new tables or pages of the source. */
  lemma CopiedBelow(m: Memory, m': Memory, d: nat, s: nat, level: nat, f: set<nat>)
    requires Copied(m, m', d, s, level, f)
    ensures Below(m', d, level, All) <= f + Below(m, s, level, All)
  {
    forall j | Low(level) <= j < ENTRIES
      ensures Branch(m', m'[d][j], level, All) <= f + Below(m, s, level, All)
    {
      BranchOfBelow(m, s, level, j);
    }
  }

  lemma CopiedTables(m: Memory, m': Memory, d: nat, s: nat, level: nat, f: set<nat>)
    requires Copied(m, m', d, s, level, f)
    ensures |m'| == |m| && Tree(m', d, level) && Below(m', d, level, Tables) == f && d !in Below(m', d, level, All)
    ensures forall x | 0 <= x < |m| && x != d && x !in f :: m'[x] == m[x]
  {
    TopNotBelow(m', d, level);
  }

  lemma CopiedWalk(m: Memory, m': Memory, d: nat, s: nat, level: nat, f: set<nat>, a: Address)
    requires Copied(m, m', d, s, level, f) && Inside(a, level)
    ensures Walk(m', d, level, a) == ReadOnly(Walk(m, s, level, a))
  {
  }

  lemma CopyTableFits(m: Memory, m': Memory, m2: Memory, d: nat, s: nat, level: nat, i: nat, f: set<nat>,
                      c: nat, f2: set<nat>)
    requires TableCopied(m, m', m2, d, s, level, i, f, c, f2)
    ensures OnlyBranch(m', m2, d, level, i) && Fits(m', m2, d, level, i)
    ensures Tree(m2, d, level)
    ensures Below(m2, d, level, Tables) == f + f2 + {c}
    ensures forall j | Low(level) <= j < i + 1 ::
              Branch(m2, m2[d][j], level, All) <= f + f2 + {c} + Branch(m, m[s][j], level, All)
  {
    hide Branch, Below, Walk, Copied, GoodBranch, WithTable;
    CopyTableMemory(m, m', m2, d, s, level, i, f, c, f2);
    CopyTableBranch(m, m', m2, d, s, level, i, f, c, f2);
    BelowSubset(m', d, level, Tables);
    NoBranch(m', m'[d][i], level);
    forall j | Low(level) <= j < ENTRIES && j != i
      ensures m2[d][j] == m'[d][j] && SameFrames(m', m2, Branch(m', m'[d][j], level, Tables))
      ensures Branch(m2, m2[d][i], level, All) !! Branch(m', m'[d][j], level, All)
    {
      CopiedBranchApart(m, m', d, s, level, i, f, j, f2 + {c});
      BranchSubset(m', m'[d][j], level, Tables);
      BranchOfBelow(m', d, level, j);
    }
    ReplaceBranch(m', m2, d, level, i);
    ReplaceBranchFrames(m', m2, d, level, i, Tables);
    forall j | Low(level) <= j < i
      ensures Branch(m2, m2[d][j], level, All) <= f + f2 + {c} + Branch(m, m[s][j], level, All)
    {
      OtherBranch(m', m2, d, level, i, j);
    }
  }

  lemma CopyTableWalk(m: Memory, m': Memory, m2: Memory, d: nat, s: nat, level: nat, i: nat, f: set<nat>,
                      c: nat, f2: set<nat>, a: Address)
    requires TableCopied(m, m', m2, d, s, level, i, f, c, f2) && Inside(a, level)
    ensures Walk(m2, d, level, a) == if a.Part(level) < i + 1 then ReadOnly(Walk(m, s, level, a)) else None
  {
    CopyTableFits(m, m', m2, d, s, level, i, f, c, f2);
    if a.Part(level) != i {
      ReplaceBranchWalk(m', m2, d, level, i, a);
    } else {
      hide Tree, Below, Branch, GoodBranch;
      CopyTableBranch(m, m', m2, d, s, level, i, f, c, f2);
      var m1, child := WithTable(m', d, s, i, c), m[s][i].frame;
      CopyTableStarts(m, m', d, s, level, i, f, c, m1);
      SubtreeWalk(m, m1, s, level, i, a);
      CopiedWalk(m1, m2, c, child, level - 1, f2, a);
    }
  }

  /** Copying the table below one entry. */
  lemma CopyTable(m: Memory, m': Memory, m2: Memory, d: nat, s: nat, level: nat, i: nat, f: set<nat>,
                  c: nat, f2: set<nat>)
    requires TableCopied(m, m', m2, d, s, level, i, f, c, f2)
    ensures CopiedUpTo(m, m2, d, s, level, i + 1, f + f2 + {c})
  {
    hide Walk, Branch, GoodBranch, Below;
    CopyTableMemory(m, m', m2, d, s, level, i, f, c, f2);
    CopyTableFits(m, m', m2, d, s, level, i, f, c, f2);
    forall a | Inside(a, level)
      ensures Walk(m2, d, level, a) == if a.Part(level) < i + 1 then ReadOnly(Walk(m, s, level, a)) else None
    {
      CopyTableWalk(m, m', m2, d, s, level, i, f, c, f2, a);
    }
  }

  // ------------------------------------------------------------------ replacing one page

  /** A leaf entry pointed at another frame and made writable. */
  ghost function Repointed(e: Option<Word>, p: nat): Option<Word> {
    if e.None? then None else Some(e.value.(frame := p, writable := true))
  }

  /** From m to m' only the page of address a changed: it is now the frame `content`, writable. */
  ghost predicate Replaced(m: Memory, m': Memory, t: nat, level: nat, a: Address, content: nat) {
    && 0 < level <= 4 && |m'| == |m| && Tree(m, t, level) && Tree(m', t, level)
    && Inside(a, level) && Walk(m, t, level, a).Some?
    && Below(m', t, level, All) == Below(m, t, level, All) - {Walk(m, t, level, a).value.frame} + {content}
    && Below(m', t, level, Tables) == Below(m, t, level, Tables)
    && (forall j | 0 <= j < Low(level) :: m'[t][j] == m[t][j])
    && (forall x | 0 <= x < |m| && x != t && x !in Below(m, t, level, Tables) :: m'[x] == m[x])
    && (forall b | Inside(b, level) ::
          Walk(m', t, level, b) ==
          if SamePage(a, b, level) then Repointed(Walk(m, t, level, a), content)
          else Walk(m, t, level, b))
  }

  lemma ReplacePage(m: Memory, m': Memory, t: nat, a: Address, content: nat)
    requires Tree(m, t, 1) && Inside(a, 1) && Walk(m, t, 1, a).Some?
    requires content < |m| && content != t && content !in Below(m, t, 1, All)
    requires m' == m[t := m[t][a.page := m[t][a.page].(frame := content, writable := true)]]
    ensures Replaced(m, m', t, 1, a, content)
  {
    hide Branch, Below;
    var i := a.page;
    assert GoodBranch(m, t, m[t][i], 1);
    BranchOfBelow(m, t, 1, i);
    PageBranch(m, m[t][i]);
    PageBranch(m', m'[t][i]);
    forall j | Low(1) <= j < ENTRIES && j != i
      ensures m'[t][j] == m[t][j] && SameFrames(m, m', Branch(m, m[t][j], 1, Tables))
      ensures Branch(m', m'[t][i], 1, All) !! Branch(m, m[t][j], 1, All)
    {
      BranchOfBelow(m, t, 1, j);
      PageBranch(m, m[t][j]);
    }
    ReplaceBranch(m, m', t, 1, i);
    ReplaceBranchFrames(m, m', t, 1, i, All);
    ReplaceBranchFrames(m, m', t, 1, i, Tables);
    forall b | Inside(b, 1)
      ensures Walk(m', t, 1, b) == if SamePage(a, b, 1) then Repointed(Walk(m, t, 1, a), content)
                                   else Walk(m, t, 1, b)
    {
      if b.page != i {
        ReplaceBranchWalk(m, m', t, 1, i, b);
      }
    }
  }

  /** Replacing a page below entry a.Part(level) of t. */
  lemma ReplaceBelow(m: Memory, m': Memory, t: nat, level: nat, a: Address, content: nat)
    requires 1 < level <= 4 && Tree(m, t, level) && Inside(a, level) && Walk(m, t, level, a).Some?
    requires content < |m| && content != t && content !in Below(m, t, level, All)
    requires Replaced(m, m', m[t][a.Part(level)].frame, level - 1, a, content)
    ensures Replaced(m, m', t, level, a, content)
  {
    var i := a.Part(level);
    ReplaceBelowFits(m, m', t, level, a, content);
    hide Tree, Below, Branch, GoodBranch, SamePage, Address.Part, Fits;
    forall b | Inside(b, level)
      ensures Walk(m', t, level, b) ==
              if SamePage(a, b, level) then Repointed(Walk(m, t, level, a), content)
              else Walk(m, t, level, b)
    {
      SamePageSplit(a, b, level);
      if b.Part(level) != i {
        ReplaceBranchWalk(m, m', t, level, i, b);
      }
    }
  }

  /** The page of an address lies in the branch of its entry and is no table. */
  lemma PageOfBranch(m: Memory, t: nat, level: nat, a: Address)
    requires 1 < level <= 4 && Tree(m, t, level) && Inside(a, level) && Walk(m, t, level, a).Some?
    ensures var e := m[t][a.Part(level)];
            && e.present && GoodBranch(m, t, e, level) && Walk(m, t, level, a) == Walk(m, e.frame, level - 1, a)
            && e.frame !in Below(m, e.frame, level - 1, All)
            && Walk(m, t, level, a).value.frame in Below(m, e.frame, level - 1, All)
  {
    var e := m[t][a.Part(level)];
    assert GoodBranch(m, t, e, level);
    WalkLeaf(m, e.frame, level - 1, a);
    TopNotBelow(m, e.frame, level - 1);
  }

  lemma ReplaceFacts(m: Memory, m': Memory, t: nat, level: nat, a: Address, content: nat)
    requires Replaced(m, m', t, level, a, content)
    ensures 0 < level <= 4 && |m'| == |m| && Tree(m, t, level) && Tree(m', t, level) && Walk(m, t, level, a).Some?
    ensures Below(m', t, level, All) == Below(m, t, level, All) - {Walk(m, t, level, a).value.frame} + {content}
    ensures Below(m', t, level, Tables) == Below(m, t, level, Tables)
    ensures forall j | 0 <= j < Low(level) :: m'[t][j] == m[t][j]
    ensures forall x | 0 <= x < |m| && x != t && x !in Below(m, t, level, Tables) :: m'[x] == m[x]
  {
  }

  lemma ReplaceWalk(m: Memory, m': Memory, t: nat, level: nat, a: Address, content: nat, b: Address)
    requires Replaced(m, m', t, level, a, content) && Inside(b, level)
    ensures Walk(m', t, level, b) ==
            if SamePage(a, b, level) then Repointed(Walk(m, t, level, a), content)
            else Walk(m, t, level, b)
  {
  }

  lemma ReplaceBelowMemory(m: Memory, m': Memory, t: nat, level: nat, a: Address, content: nat)
    requires 1 < level <= 4 && Tree(m, t, level) && Inside(a, level) && Walk(m, t, level, a).Some?
    requires content < |m| && content != t && content !in Below(m, t, level, All)
    requires Replaced(m, m', m[t][a.Part(level)].frame, level - 1, a, content)
    ensures |m'| == |m| && m'[t] == m[t] && GoodBranch(m', t, m[t][a.Part(level)], level)
    ensures Branch(m', m[t][a.Part(level)], level, All) ==
            Branch(m, m[t][a.Part(level)], level, All) - {Walk(m, t, level, a).value.frame} + {content}
    ensures Branch(m', m[t][a.Part(level)], level, Tables) == Branch(m, m[t][a.Part(level)], level, Tables)
    ensures forall x | 0 <= x < |m| && x !in Branch(m, m[t][a.Part(level)], level, Tables) :: m'[x] == m[x]
  {
    PageOfBranch(m, t, level, a);
    hide Tree, Below, Walk, Replaced, Branch, GoodBranch;
    ReplacedInBranch(m, m', t, level, m[t][a.Part(level)], a, content);
  }

  lemma ReplacedInBranch(m: Memory, m': Memory, t: nat, level: nat, e: Word, a: Address, content: nat)
    requires 1 < level <= 4 && t < |m| && e.present && GoodBranch(m, t, e, level) && content < |m| && content != t
    requires Replaced(m, m', e.frame, level - 1, a, content) && e.frame !in Below(m, e.frame, level - 1, All)
    requires Walk(m, e.frame, level - 1, a).Some? && Walk(m, e.frame, level - 1, a).value.frame in Below(m, e.frame, level - 1, All)
    ensures |m'| == |m| && m'[t] == m[t] && GoodBranch(m', t, e, level)
    ensures Branch(m', e, level, All) == Branch(m, e, level, All) - {Walk(m, e.frame, level - 1, a).value.frame} + {content}
    ensures Branch(m', e, level, Tables) == Branch(m, e, level, Tables)
    ensures forall x | 0 <= x < |m| && x !in Branch(m, e, level, Tables) :: m'[x] == m[x]
  {
    hide *;
    ReplaceFacts(m, m', e.frame, level - 1, a, content);
    BelowSubset(m, e.frame, level - 1, Tables);
    TableBranch(m, e, level);
    TableBranch(m', e, level);
    GoodTable(m, t, e, level);
    GoodTable(m', t, e, level);
  }

  lemma ReplaceBelowFits(m: Memory, m': Memory, t: nat, level: nat, a: Address, content: nat)
    requires 1 < level <= 4 && Tree(m, t, level) && Inside(a, level) && Walk(m, t, level, a).Some?
    requires content < |m| && content != t && content !in Below(m, t, level, All)
    requires Replaced(m, m', m[t][a.Part(level)].frame, level - 1, a, content)
    ensures m'[t] == m[t] && OnlyBranch(m, m', t, level, a.Part(level)) && Fits(m, m', t, level, a.Part(level))
    ensures Tree(m', t, level)
    ensures Below(m', t, level, All) == Below(m, t, level, All) - {Walk(m, t, level, a).value.frame} + {content}
    ensures Below(m', t, level, Tables) == Below(m, t, level, Tables)
    ensures forall x | 0 <= x < |m| && x != t && x !in Below(m, t, level, Tables) :: m'[x] == m[x]
  {
    hide Below, Walk, Replaced, Branch, GoodBranch;
    var i := a.Part(level);
    ReplaceBelowMemory(m, m', t, level, a, content);
    BranchOfBelow(m, t, level, i);
    BranchSubset(m, m[t][i], level, Tables);
    LeafInBranch(m, t, level, a);
    forall j | Low(level) <= j < ENTRIES && j != i
      ensures m'[t][j] == m[t][j] && SameFrames(m, m', Branch(m, m[t][j], level, Tables))
      ensures Branch(m', m'[t][i], level, All) !! Branch(m, m[t][j], level, All)
    {
      BranchOfBelow(m, t, level, j);
      BranchSubset(m, m[t][j], level, Tables);
    }
    ReplaceBranch(m, m', t, level, i);
    ReplaceBranchFrames(m, m', t, level, i, All);
    ReplaceBranchFrames(m, m', t, level, i, Tables);
  }

  /** From m to m' the page of address a of the map in frame t was copied to the new frame p. */
  ghost predicate Privatized(m: Memory, m': Memory, t: nat, a: Address, p: nat) {
    && |m'| == |m| && Tree(m, t, 4) && Tree(m', t, 4) && Inside(a, 4) && Walk(m, t, 4, a).Some?
    && p < |m| && p != t && p !in Below(m, t, 4, All)
    && Below(m', t, 4, All) == Below(m, t, 4, All) - {Walk(m, t, 4, a).value.frame} + {p}
    && Below(m', t, 4, Tables) == Below(m, t, 4, Tables)
    && (forall j | 0 <= j < Low(4) :: m'[t][j] == m[t][j])
    && (forall x | 0 <= x < |m| && x != t && x != p && x !in Below(m, t, 4, Tables) :: m'[x] == m[x])
    && Walk(m, t, 4, a).value.frame < |m| && m'[p] == m[Walk(m, t, 4, a).value.frame]
    && (forall b | Inside(b, 4) ::
          Walk(m', t, 4, b) ==
          if SamePage(a, b, 4) then Repointed(Walk(m, t, 4, a), p) else Walk(m, t, 4, b))
  }

  /** Filling a frame outside a tree leaves the tree alone. */
  lemma FillFrame(m: Memory, t: nat, level: nat, p: nat, content: Frame)
    requires level <= 4 && Tree(m, t, level) && p < |m| && p != t && p !in Below(m, t, level, All)
    ensures Tree(m[p := content], t, level)
    ensures forall k :: Below(m[p := content], t, level, k) == Below(m, t, level, k)
    ensures forall b | Inside(b, level) :: Walk(m[p := content], t, level, b) == Walk(m, t, level, b)
  {
    BelowSubset(m, t, level, Tables);
    SameTree(m, m[p := content], t, level);
    forall b | Inside(b, level)
      ensures Walk(m[p := content], t, level, b) == Walk(m, t, level, b)
    {
      SameWalk(m, m[p := content], t, level, b);
    }
  }

  /** A new frame p was filled with the page of address a, and then took its place. */
  ghost predicate FilledThenReplaced(m: Memory, m1: Memory, m': Memory, t: nat, a: Address, p: nat) {
    && Tree(m, t, 4) && Inside(a, 4) && Walk(m, t, 4, a).Some?
    && p < |m| && p != t && p !in Below(m, t, 4, All) && Walk(m, t, 4, a).value.frame < |m|
    && m1 == m[p := m[Walk(m, t, 4, a).value.frame]]
    && Replaced(m1, m', t, 4, a, p)
  }

  lemma FilledFrames(m: Memory, m1: Memory, m': Memory, t: nat, a: Address, p: nat)
    requires FilledThenReplaced(m, m1, m', t, a, p)
    ensures |m'| == |m| && t < |m| && Tree(m', t, 4)
    ensures Below(m', t, 4, All) == Below(m, t, 4, All) - {Walk(m, t, 4, a).value.frame} + {p}
    ensures Below(m', t, 4, Tables) == Below(m, t, 4, Tables)
    ensures forall j | 0 <= j < Low(4) :: m'[t][j] == m[t][j]
    ensures forall x | 0 <= x < |m| && x != t && x != p && x !in Below(m, t, 4, Tables) :: m'[x] == m[x]
    ensures m'[p] == m[Walk(m, t, 4, a).value.frame]
  {
    assert t < |m|;
    hide Tree, Below, Walk, SamePage, Replaced;
    BelowSubset(m, t, 4, Tables);
    FillFrame(m, t, 4, p, m[Walk(m, t, 4, a).value.frame]);
    ReplaceFacts(m1, m', t, 4, a, p);
  }

  lemma FilledWalk(m: Memory, m1: Memory, m': Memory, t: nat, a: Address, p: nat, b: Address)
    requires FilledThenReplaced(m, m1, m', t, a, p) && Inside(b, 4)
    ensures Walk(m', t, 4, b) == if SamePage(a, b, 4) then Repointed(Walk(m, t, 4, a), p) else Walk(m, t, 4, b)
  {
    hide Tree, Below, Walk, SamePage, Replaced;
    FillFrame(m, t, 4, p, m[Walk(m, t, 4, a).value.frame]);
    ReplaceWalk(m1, m', t, 4, a, p, b);
  }

  lemma FilledAndReplaced(m: Memory, m1: Memory, m': Memory, t: nat, a: Address, p: nat)
    requires FilledThenReplaced(m, m1, m', t, a, p)
    ensures Privatized(m, m', t, a, p)
  {
    hide Tree, Below, Walk, SamePage, Replaced, Repointed;
    FilledFrames(m, m1, m', t, a, p);
    forall b | Inside(b, 4)
      ensures Walk(m', t, 4, b) == if SamePage(a, b, 4) then Repointed(Walk(m, t, 4, a), p) else Walk(m, t, 4, b)
    {
      FilledWalk(m, m1, m', t, a, p, b);
    }
  }
}
