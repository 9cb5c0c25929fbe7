/** The page map procedures of src/kernel/paging.cpp, working in place on physical memory. */
module Paging {
  import opened PageTree
  import opened PageSetup
  import opened PageCopy
  import FrameAllocator

  /** The entry an address goes through in a table of a tree. */
  lemma EntryOfWalk(m: Memory, t: nat, level: nat, a: Address)
    requires 0 < level <= 4 && Tree(m, t, level) && Inside(a, level)
    ensures t < |m| && m[t][a.Part(level)].present ==> m[t][a.Part(level)].frame < |m|
    ensures t < |m| && Index(a, level - 1) < Span(level - 1)
    ensures level == 1 ==> Span(level - 1) == 1
  {
    assert GoodBranch(m, t, m[t][a.Part(level)], level);
    IndexBound(a, level - 1);
  }

  lemma CleanStart(m: Memory, t: nat, level: nat)
    requires level > 0 && Tree(m, t, level)
    ensures t < |m| && CleanedUpTo(m, m, t, level, Low(level))
  {
  }

  /** What cleaning entry i relies on: its branch is as it was and still allocated. */
  lemma CleanFacts(m: Memory, m': Memory, t: nat, level: nat, i: nat)
    requires 0 < level <= 4 && Tree(m, t, level) && Low(level) <= i < ENTRIES && CleanedUpTo(m, m', t, level, i)
    ensures t < |m| == |m'| && m'[t][i] == m[t][i]
    ensures UpTo(m, t, level, i + 1, Writable) == UpTo(m, t, level, i, Writable) + Branch(m, m[t][i], level, Writable)
    ensures UpTo(m, t, level, i, Writable) !! Branch(m, m[t][i], level, Writable)
    ensures Branch(m', m[t][i], level, Tables) == Branch(m, m[t][i], level, Tables)
    ensures Branch(m, m[t][i], level, Writable) <= Below(m, t, level, Writable)
    ensures var e := m[t][i];
            if !e.present then Branch(m, e, level, Writable) == {}
            else
              && e.frame < |m| && e.frame != t && Tree(m', e.frame, level - 1)
              && Branch(m, e, level, Writable) ==
                 (if e.writable then {e.frame} else {}) + Below(m', e.frame, level - 1, Writable)
              && e.frame !in Below(m', e.frame, level - 1, Writable)
              && (level == 1 ==> Below(m', e.frame, level - 1, Writable) == {})
  {
    var e := m[t][i];
    NextBranchIntact(m, m', t, level, i);
    UpToStep(m, t, level, i, Writable);
    UpToSubset(m, t, level, i, Writable);
    BranchSubset(m, e, level, Writable);
    BranchOfBelow(m, t, level, i);
    if e.present {
      TopNotBelow(m', e.frame, level - 1);
      BelowSubset(m', e.frame, level - 1, Writable);
    }
  }

  /** Cleaning the table below an entry changes only frames of its branch. */
  lemma CleanedBelow(m: Memory, m': Memory, t: nat, e: Word, level: nat)
    requires level > 1 && e.present && e.frame < |m| && Tree(m, e.frame, level - 1)
    requires CleanedUpTo(m, m', e.frame, level - 1, ENTRIES)
    ensures |m'| == |m| && forall x | 0 <= x < |m| && x !in Branch(m, e, level, Tables) :: m'[x] == m[x]
  {
    UpToAll(m, e.frame, level - 1, Tables);
  }

  lemma CopySource(m: Memory, m': Memory, d: nat, s: nat, level: nat, i: nat, f: set<nat>)
    requires CopiedUpTo(m, m', d, s, level, i, f)
    ensures |m'| == |m| && s < |m| && m'[s] == m[s]
    ensures forall x | 0 <= x < |m| && x != d && x !in f :: m'[x] == m[x]
  {
  }

  /** The two writes that link table c into d. */
  lemma LinkedTable(m: Memory, d: nat, s: nat, i: nat, c: nat, e: Word)
    requires d < |m| && s < |m| && c < |m| && i < ENTRIES && m[s][i] == e
    ensures m[c := ZeroFrame()][d := m[d][i := e]][d := m[d][i := e][i := e.(frame := c)]] == WithTable(m, d, s, i, c)
  {
    hide ZeroFrame;
    assert m[d][i := e][i := e.(frame := c)] == m[d][i := e.(frame := c)];
  }

  /** The recursive copy can be called: the subtree of s is in place and c is an empty table. */
  lemma CopyCall(m: Memory, m': Memory, m1: Memory, d: nat, s: nat, level: nat, i: nat, f: set<nat>, c: nat, used: set<nat>)
    requires CopiedUpTo(m, m', d, s, level, i, f) && level > 1 && Low(level) <= i < ENTRIES && m[s][i].present
    requires {d, s} + Below(m, s, level, All) <= used && c < |m| && c !in used + f
    requires m1 == WithTable(m', d, s, i, c)
    ensures |m1| == |m'| && m1[s] == m[s] && m1[c] == ZeroFrame()
    ensures Tree(m1, m[s][i].frame, level - 1)
    ensures Below(m1, m[s][i].frame, level - 1, All) + {m[s][i].frame} <= used
    ensures c !in Below(m1, m[s][i].frame, level - 1, All) + {m[s][i].frame}
  {
    CopyFacts(m, m', d, s, level, i, f);
    hide Tree, Below, Walk, Branch, CopiedUpTo, ZeroFrame, SameFrames, WithTable;
    CopyTableStarts(m, m', d, s, level, i, f, c, m1);
    Subtree(m, m1, s, level, i);
  }

  /** A new table and what is copied below it join the frames taken before. */
  lemma MoreFrames(used: set<nat>, f0: set<nat>, c: nat, held: set<nat>, f2: set<nat>)
    requires held == used + f0 + {c} && f0 !! used && c !in used + f0 && f2 !! held
    ensures held + f2 == used + (f0 + f2 + {c}) && f0 + f2 + {c} !! used
    ensures c !in f2 && f2 !! f0 && f2 !! used
  {
  }

  lemma PageOfTree(m: Memory, t: nat, a: Address)
    requires Tree(m, t, 4) && Inside(a, 4) && Walk(m, t, 4, a).Some?
    ensures Walk(m, t, 4, a).value.frame < |m| && Walk(m, t, 4, a).value.frame in Below(m, t, 4, All)
  {
    WalkLeaf(m, t, 4, a);
    BelowInMemory(m, t, 4);
  }

  /** The entry of a mapped page, and what lies below it if it is not the page's own. */
  lemma PageEntry(m: Memory, t: nat, level: nat, a: Address)
    requires 0 < level <= 4 && Tree(m, t, level) && Inside(a, level) && Walk(m, t, level, a).Some?
    ensures t < |m| && m[t][a.Part(level)].present
    ensures level > 1 ==>
              && Tree(m, m[t][a.Part(level)].frame, level - 1) && Walk(m, m[t][a.Part(level)].frame, level - 1, a).Some?
              && {m[t][a.Part(level)].frame} + Below(m, m[t][a.Part(level)].frame, level - 1, All) <= Below(m, t, level, All)
  {
    var e := m[t][a.Part(level)];
    assert GoodBranch(m, t, e, level);
    BranchOfBelow(m, t, level, a.Part(level));
    if level > 1 {
      TableBranch(m, e, level);
    }
  }

  lemma SetUpKeeps(m: Memory, m': Memory, t: nat, level: nat, from: Address, n: nat, w: bool, f: set<nat>)
    requires SetUp(m, m', t, level, from, n, w, f)
    ensures Tree(m', t, level) && Below(m', t, level, All) == Below(m, t, level, All) + f
  {
  }

  /** Where the pages of an address's entry lie in its table. */
  lemma IndexSplit(a: Address, level: nat)
    requires 0 < level <= 4 && Inside(a, level)
    ensures Index(a, level) == a.Part(level) * Span(level - 1) + Index(a, level - 1)
    ensures (a.Part(level) + 1) * Span(level - 1) == a.Part(level) * Span(level - 1) + Span(level - 1)
    ensures (a.Part(level) + 1) * Span(level - 1) <= Span(level)
    ensures a.Part(level) == ENTRIES - 1 ==> (a.Part(level) + 1) * Span(level - 1) == Span(level)
  {
    MulStep(a.Part(level), ENTRIES - 1, Span(level - 1));
  }

  lemma LinkedInsideAllocated(m: Memory, m1: Memory, t: nat, level: nat, i: nat, child: nat, f1: set<nat>, used: set<nat>)
    requires 1 < level <= 4 && Tree(m, t, level) && Low(level) <= i < ENTRIES
    requires LinkedEntry(m, m1, t, i, child, true, f1) && f1 !! used && Below(m, t, level, All) <= used
    ensures Tree(m1, child, level - 1)
    ensures child in used + f1 && Below(m1, child, level - 1, All) <= used + f1
  {
    LinkedChild(m, m1, t, level, i, child, f1);
    assert Branch(m, m[t][i], level, All) <= Below(m, t, level, All);
  }

  class PagedMemory {
    /** Physical memory, one Frame per frame number. */
    var mem: Memory
    const manager: FrameAllocator.BitmapMemoryManager

    ghost predicate Valid()
      reads this, manager
    {
      manager.Valid() && manager.rangeEnd <= |mem|
    }

    ghost function Allocated(): set<nat>
      requires Valid()
      reads this, manager, manager.allocMap
    {
      manager.Allocated()
    }

    /** No frame of the allocator's range is free. */
    ghost predicate Exhausted()
      requires Valid()
      reads this, manager, manager.allocMap
    {
      forall f: nat | manager.rangeBegin <= f < manager.rangeEnd :: f in Allocated()
    }

    constructor (frames: Memory, manager: FrameAllocator.BitmapMemoryManager)
      requires manager.Valid() && manager.rangeEnd <= |frames|
      ensures Valid() && mem == frames && this.manager == manager
    {
      mem, this.manager := frames, manager;
    }

    /** A zeroed frame that was free, or none when every frame of the range is taken. */
    method NewPageMap() returns (r: Option<nat>)
      requires Valid()
      modifies this`mem, manager.allocMap
      ensures Valid() && |mem| == |old(mem)|
      ensures r.Some? ==> r.value < |mem| && r.value !in old(Allocated())
      ensures r.Some? ==> Allocated() == old(Allocated()) + {r.value} && mem == old(mem)[r.value := ZeroFrame()]
      ensures r.None? ==> mem == old(mem) && Allocated() == old(Allocated())
      ensures r.None? ==> Exhausted()
    {
      var f := manager.Allocate(1);
      if f.None? {
        forall t: nat | manager.rangeBegin <= t < manager.rangeEnd
          ensures t in Allocated()
        {
          assert !old(manager.FreeRun(t, 1));
        }
        return None;
      }
      assert old(manager.FreeRun(f.value, 1));
      assert Allocated() == old(Allocated()) + {f.value};
      mem := mem[f.value := ZeroFrame()];
      return Some(f.value);
    }

    /** Writes one word of a frame. */
    method SetEntry(t: nat, i: nat, e: Word)
      requires Valid() && t < |mem| && i < ENTRIES
      modifies this`mem
      ensures Valid() && mem == old(mem)[t := old(mem)[t][i := e]]
    {
      mem := mem[t := mem[t][i := e]];
    }

    /** Memory with an absent entry pointed at a fresh zeroed frame. */
    ghost function WithChild(m: Memory, t: nat, i: nat, child: nat): Memory
      requires t < |m| && i < ENTRIES && child < |m|
    {
      m[child := ZeroFrame()][t := m[t][i := m[t][i].(frame := child, present := true)]]
    }

    method SetNewPageMapIfNotPresent(t: nat, i: nat) returns (child: Option<nat>, ghost f: set<nat>)
      requires Valid() && t < |mem| && i < ENTRIES && t in Allocated()
      modifies this`mem, manager.allocMap
      ensures Valid() && |mem| == |old(mem)|
      ensures Allocated() == old(Allocated()) + f && f !! old(Allocated())
      ensures child.None? || old(mem)[t][i].present ==> mem == old(mem) && f == {}
      ensures child.None? ==> Exhausted()
      ensures old(mem)[t][i].present ==> child == Some(old(mem)[t][i].frame)
      ensures !old(mem)[t][i].present && child.Some? ==> f == {child.value} && child.value < |mem|
      ensures !old(mem)[t][i].present && child.Some? ==> mem == WithChild(old(mem), t, i, child.value)
    {
      f := {};
      if mem[t][i].present {
        return Some(mem[t][i].frame), {};
      }
      child := NewPageMap();
      if child.None? {
        return;
      }
      f := {child.value};
      SetEntry(t, i, mem[t][i].(frame := child.value));
      SetEntry(t, i, mem[t][i].(present := true));
      assert mem[t] == WithChild(old(mem), t, i, child.value)[t];
    }

    /** The part of SetupPageMap's loop body that makes the entry present, user and as
        writable as asked. */
    method LinkEntry(t: nat, i: nat, writable: bool) returns (child: Option<nat>, ghost f: set<nat>)
      requires Valid() && t < |mem| && i < ENTRIES && t in Allocated()
      requires mem[t][i].present ==> mem[t][i].frame < |mem|
      modifies this`mem, manager.allocMap
      ensures Valid() && |mem| == |old(mem)|
      ensures Allocated() == old(Allocated()) + f && f !! old(Allocated())
      ensures child.None? ==> mem == old(mem) && f == {} && Exhausted()
      ensures child.Some? ==> LinkedEntry(old(mem), mem, t, i, child.value, writable, f)
    {
      child, f := SetNewPageMapIfNotPresent(t, i);
      if child.None? {
        return;
      }
      SetEntry(t, i, mem[t][i].(user := true));
      SetEntry(t, i, mem[t][i].(writable := writable));
      assert mem[t] == old(mem)[t][i := Linked(old(mem)[t][i], child.value, writable)];
    }

    /** The rest of that loop body: sets pages up below the entry that address walks through. */
    method SetupEntry(t: nat, level: nat, address: Address, num: nat, writable: bool)
        returns (remain: nat, ok: bool, ghost done: nat, ghost f: set<nat>)
      requires Valid() && 0 < level <= 4 && Tree(mem, t, level) && Inside(address, level) && num > 0
      requires t in Allocated() && Below(mem, t, level, All) <= Allocated()
      modifies this`mem, manager.allocMap
      ensures Valid()
      ensures SetUp(old(mem), mem, t, level, address, done, writable, f)
      ensures Allocated() == old(Allocated()) + f && f !! old(Allocated())
      ensures Index(address, level - 1) + done <= Span(level - 1)
      ensures if ok then done + remain == num && done > 0 else remain == num && done < num
      ensures !ok ==> Exhausted()
      ensures ok ==> done == num || Index(address, level - 1) + done == Span(level - 1)
      decreases level, 0
    {
      hide SetUp, Tree, Below, Branch, LinkedEntry, Span;
      var entryIndex := address.Part(level);
      ghost var m0, used := mem, Allocated();
      SetUpNothing(mem, t, level, address, writable);
      EntryOfWalk(mem, t, level, address);
      var child, f1 := LinkEntry(t, entryIndex, if level == 1 then writable else true);
      if child.None? {
        return num, false, 0, {};
      }
      if level == 1 {
        LinkPage(m0, mem, t, address, child.value, writable, f1);
        return num - 1, true, 1, f1;
      }
      ghost var m1 := mem;
      LinkedInsideAllocated(m0, m1, t, level, entryIndex, child.value, f1, used);
      var numRemain, ok', d, f2 := SetupPageMap(child.value, level - 1, address, num, writable);
      LinkTable(m0, m1, mem, t, level, address, d, child.value, writable, f1, f2);
      return if ok' then numRemain else num, ok', d, f1 + f2;
    }

    /** Maps num consecutive pages below table t, level by level, as far as the table reaches,
        and returns how many are left over. When memory runs out, `done` says how many pages
        had been set up. */
    method SetupPageMap(t: nat, level: nat, address: Address, num: nat, writable: bool)
        returns (remain: nat, ok: bool, ghost done: nat, ghost f: set<nat>)
      requires Valid() && 0 < level <= 4 && Tree(mem, t, level) && Inside(address, level)
      requires t in Allocated() && Below(mem, t, level, All) <= Allocated()
      modifies this`mem, manager.allocMap
      ensures Valid()
      ensures SetUp(old(mem), mem, t, level, address, done, writable, f)
      ensures Allocated() == old(Allocated()) + f && f !! old(Allocated())
      ensures Index(address, level) + done <= Span(level)
      ensures if ok then done + remain == num else done < num
      ensures !ok ==> Exhausted()
      ensures ok ==> done == num || Index(address, level) + done == Span(level)
      decreases level, 1
    {
      hide SetUp, Tree, Below, Index, Span;
      var addr, numPages := address, num;
      done, f := 0, {};
      SetUpNothing(mem, t, level, address, writable);
      IndexBound(address, level);
      while numPages > 0
        invariant Valid() && SetUp(old(mem), mem, t, level, address, done, writable, f)
        invariant Allocated() == old(Allocated()) + f && f !! old(Allocated())
        invariant Inside(addr, level) && done + numPages == num
        invariant numPages > 0 ==> Index(addr, level) == Index(address, level) + done
        invariant Index(address, level) + done <= Span(level)
        invariant Tree(mem, t, level) && Below(mem, t, level, All) <= Allocated()
      {
        var entryIndex := addr.Part(level);
        ghost var m0 := mem;
        var numRemain, ok', d, f1 := SetupEntry(t, level, addr, numPages, writable);
        SetUpMore(old(mem), m0, mem, t, level, address, done, addr, d, writable, f, f1);
        SetUpKeeps(old(mem), mem, t, level, address, done + d, writable, f + f1);
        IndexSplit(addr, level);
        done, f, numPages := done + d, f + f1, numRemain;
        if !ok' {
          return numPages, false, done, f;
        }
        if entryIndex == ENTRIES - 1 {
          break;
        }
        addr := NextEntry(addr, level);
      }
      return numPages, true, done, f;
    }

    /** Frees everything reached through writable entries below t and clears t's entries. Every
        frame is still allocated when it is freed, so none is freed twice. */
    method CleanPageMap(t: nat, level: nat, address: Address)
      requires Valid() && 0 < level <= 4 && Tree(mem, t, level)
      requires forall l | 0 < l <= level :: address.Part(l) == Low(l)
      requires Below(mem, t, level, Writable) <= Allocated()
      modifies this`mem, manager.allocMap
      ensures Valid() && CleanedUpTo(old(mem), mem, t, level, ENTRIES)
      ensures Allocated() == old(Allocated()) - Below(old(mem), t, level, Writable)
      decreases level
    {
      hide Tree, Below, Branch, UpTo, CleanedUpTo, GoodBranch;
      CleanStart(mem, t, level);
      UpToAll(mem, t, level, Writable);
      for i := address.Part(level) to ENTRIES
        invariant Valid() && Low(level) <= i && CleanedUpTo(old(mem), mem, t, level, i)
        invariant Allocated() == old(Allocated()) - UpTo(old(mem), t, level, i, Writable)
      {
        CleanFacts(old(mem), mem, t, level, i);
        var entry := mem[t][i];
        ghost var m0 := mem;
        if !entry.present {
          CleanedStep(old(mem), m0, mem, t, level, i);
          continue;
        }
        if level > 1 {
          CleanPageMap(entry.frame, level - 1, address);
          CleanedBelow(m0, mem, t, entry, level);
        }
        if entry.writable {
          assert entry.frame in Allocated();
          manager.Free(entry.frame, 1);
        }
        CleanedStep(old(mem), m0, mem, t, level, i);
        SetEntry(t, i, ZERO);
      }
    }

    /** The part of CopyPageMaps' loop body that copies the table below entry i. `m` is the
        memory the whole copy started from, f0 and used the frames taken since and before. */
    method CopyTableEntry(d: nat, s: nat, part: nat, i: nat, ghost m: Memory, ghost f0: set<nat>, ghost used: set<nat>)
        returns (ok: bool, ghost f: set<nat>)
      requires Valid() && 1 < part <= 4 && CopiedUpTo(m, mem, d, s, part, i, f0)
      requires Low(part) <= i < ENTRIES && s < |mem| && mem[s] == m[s] && m[s][i].present && d < |mem|
      requires {d, s} + Below(m, s, part, All) <= used && Allocated() == used + f0 && f0 !! used
      modifies this`mem, manager.allocMap
      ensures Valid() && Allocated() == used + f && f !! used
      ensures if ok then CopiedUpTo(m, mem, d, s, part, i + 1, f) else Exhausted()
      ensures f0 <= f && |mem| == |m| && forall x | 0 <= x < |mem| && x != d && x !in f :: mem[x] == old(mem)[x]
      decreases part, 0
    {
      hide Tree, Below, Branch, GoodBranch, CopiedUpTo, WithTable, ZeroFrame;
      ghost var m0 := mem;
      CopySource(m, m0, d, s, part, i, f0);
      var table := NewPageMap();
      if table.None? {
        return false, f0;
      }
      SetEntry(d, i, mem[s][i]);
      SetEntry(d, i, mem[d][i].(frame := table.value));
      LinkedTable(m0, d, s, i, table.value, m0[s][i]);
      CopyCall(m, m0, mem, d, s, part, i, f0, table.value, used);
      ghost var f2;
      ghost var held := Allocated();
      ok, f2 := CopyPageMaps(table.value, mem[s][i].frame, part - 1, 0);
      f := f0 + f2 + {table.value};
      MoreFrames(used, f0, table.value, held, f2);
      if ok {
        CopyTable(m, m0, mem, d, s, part, i, f0, table.value, f2);
      }
    }

    /** Copies the map below s into the empty table d: new tables, the same pages, all read-only.
        When memory runs out, the entries copied so far, and perhaps part of one more, are there. */
    method CopyPageMaps(d: nat, s: nat, part: nat, start: nat) returns (ok: bool, ghost f: set<nat>)
      requires Valid() && 0 < part <= 4 && Tree(mem, s, part) && start == Low(part)
      requires d < |mem| && forall i | start <= i < ENTRIES :: !mem[d][i].present
      requires d !in Below(mem, s, part, All) + {s}
      requires {d, s} + Below(mem, s, part, All) <= Allocated()
      modifies this`mem, manager.allocMap
      ensures Valid() && Allocated() == old(Allocated()) + f && f !! old(Allocated())
      ensures if ok then Copied(old(mem), mem, d, s, part, f) else Exhausted()
      ensures |mem| == |old(mem)| && forall x | 0 <= x < |mem| && x != d && x !in f :: mem[x] == old(mem)[x]
      decreases part, 1
    {
      hide Tree, Below, Branch, GoodBranch, CopiedUpTo, WithTable, ZeroFrame;
      f := {};
      CopyNothing(mem, d, s, part);
      for i := start to ENTRIES
        invariant Valid() && CopiedUpTo(old(mem), mem, d, s, part, i, f)
        invariant Allocated() == old(Allocated()) + f && f !! old(Allocated())
      {
        ghost var m0 := mem;
        CopyFacts(old(mem), mem, d, s, part, i, f);
        CopySource(old(mem), mem, d, s, part, i, f);
        if !mem[s][i].present {
          CopySkip(old(mem), mem, d, s, part, i, f);
          continue;
        }
        if part == 1 {
          CopyPage(old(mem), mem, d, s, i, f);
          SetEntry(d, i, mem[s][i]);
          SetEntry(d, i, mem[d][i].(writable := false));
          assert mem[d] == m0[d][i := old(mem)[s][i].(writable := false)];
          assert mem == m0[d := m0[d][i := old(mem)[s][i].(writable := false)]];
        } else {
          ok, f := CopyTableEntry(d, s, part, i, old(mem), f, old(Allocated()));
          if !ok {
            return;
          }
        }
      }
      CopySource(old(mem), mem, d, s, part, ENTRIES, f);
      ok := true;
    }

    /** Points the leaf entry of an address at another frame and makes it writable. */
    method SetPageContent(table: nat, part: nat, address: Address, content: nat)
      requires Valid() && 0 < part <= 4 && Tree(mem, table, part) && Inside(address, part)
      requires Walk(mem, table, part, address).Some?
      requires content < |mem| && content != table && content !in Below(mem, table, part, All)
      modifies this`mem
      ensures Valid() && Replaced(old(mem), mem, table, part, address, content)
      decreases part
    {
      hide Tree, Below, Branch, GoodBranch, Replaced, Walk, SamePage;
      var i := address.Part(part);
      PageEntry(mem, table, part, address);
      if part == 1 {
        SetEntry(table, i, mem[table][i].(frame := content));
        SetEntry(table, i, mem[table][i].(writable := true));
        assert mem[table] == old(mem)[table][i := old(mem)[table][i].(frame := content, writable := true)];
        ReplacePage(old(mem), mem, table, address, content);
      } else {
        SetPageContent(mem[table][i].frame, part - 1, address, content);
        ReplaceBelow(old(mem), mem, table, part, address, content);
      }
    }

    /** The copy-on-write fault: gives the map in frame cr3 its own writable copy of the page. */
    method CopyOnePage(cr3: nat, causal: Address) returns (p: Option<nat>)
      requires Valid() && Tree(mem, cr3, 4) && Inside(causal, 4) && Walk(mem, cr3, 4, causal).Some?
      requires {cr3} + Below(mem, cr3, 4, All) <= Allocated()
      modifies this`mem, manager.allocMap
      ensures Valid()
      ensures p.None? ==> mem == old(mem) && Allocated() == old(Allocated()) && Exhausted()
      ensures p.Some? ==>
                && p.value !in old(Allocated()) && Allocated() == old(Allocated()) + {p.value}
                && Privatized(old(mem), mem, cr3, causal, p.value)
    {
      hide Tree, Below, Walk, Replaced, Privatized;
      ghost var page := Walk(mem, cr3, 4, causal).value.frame;
      PageOfTree(mem, cr3, causal);
      p := NewPageMap();
      if p.None? {
        return;
      }
      FillFrame(old(mem), cr3, 4, p.value, ZeroFrame());
      var aligned := Translate(cr3, 4, causal);
      mem := mem[p.value := mem[aligned]];
      ghost var m1 := mem;
      assert m1 == old(mem)[p.value := old(mem)[page]];
      FillFrame(old(mem), cr3, 4, p.value, old(mem)[page]);
      SetPageContent(cr3, 4, causal, p.value);
      FilledAndReplaced(old(mem), m1, mem, cr3, causal, p.value);
    }

    /** The processor's walk for a virtual address: its leaf entry, if the page is mapped. */
    method Lookup(table: nat, a: Address) returns (e: Option<Word>)
      requires Tree(mem, table, 4) && Inside(a, 4)
      ensures e == Walk(mem, table, 4, a)
    {
      var t, l := table, 4;
      while l > 1
        invariant 0 < l <= 4 && Tree(mem, t, l) && Inside(a, l)
        invariant Walk(mem, table, 4, a) == Walk(mem, t, l, a)
      {
        assert GoodBranch(mem, t, mem[t][a.Part(l)], l);
        if !mem[t][a.Part(l)].present {
          return None;
        }
        t, l := mem[t][a.Part(l)].frame, l - 1;
      }
      var leaf := mem[t][a.Part(1)];
      e := if leaf.present then Some(leaf) else None;
    }

    /** What the processor does with a virtual address whose page is mapped. */
    method Translate(table: nat, level: nat, a: Address) returns (page: nat)
      requires 0 < level <= 4 && Walk(mem, table, level, a).Some?
      ensures page == Walk(mem, table, level, a).value.frame
    {
      var t, l := table, level;
      while l > 1
        invariant 0 < l <= level && Walk(mem, t, l, a) == Walk(mem, table, level, a)
      {
        t, l := mem[t][a.Part(l)].frame, l - 1;
      }
      page := mem[t][a.Part(1)].frame;
    }
  }

  /** The address of the next entry's first page. */
  method NextEntry(address: Address, level: nat) returns (addr: Address)
    requires 0 < level <= 4 && Inside(address, level) && address.Part(level) < ENTRIES - 1
    ensures Inside(addr, level)
    ensures Index(addr, level) == (address.Part(level) + 1) * Span(level - 1)
    ensures forall l | level <= l <= 4 :: addr.Part(l) == address.Part(l) + if l == level then 1 else 0
  {
    hide Address.Part, Address.SetPart, Address.Valid;
    addr := address.SetPart(level, address.Part(level) + 1);
    SetPartLaws(address, level, address.Part(level) + 1);
    var l := level - 1;
    while l >= 1
      invariant 0 <= l < level && addr.Valid()
      invariant forall x | l < x < level :: addr.Part(x) == 0
      invariant forall x | level <= x <= 4 :: addr.Part(x) == address.Part(x) + if x == level then 1 else 0
    {
      SetPartLaws(addr, l, 0);
      addr := addr.SetPart(l, 0);
      l := l - 1;
    }
    ZeroIndex(addr, level - 1);
  }
}
