/** Who owns which frame: running applications, cached application images and the kernel.
    The ownership invariant, and what it gives: nobody's memory changes but the writer's. */
module Ownership {
  import opened PageTree

  /** The holder of a top-level page map: the application a task runs, or a cached image. */
  datatype Owner = App(task: int) | Image(file: int)

  /** `used` is the allocator's set of taken frames, `base` those of the kernel itself, `kernel`
      the kernel's own top-level map; `source` names the image each application was started from. */
  datatype State = State(mem: Memory, used: set<nat>, base: set<nat>, kernel: nat,
                         roots: map<Owner, nat>, source: map<int, int>)

  /** The frames that belong to one owner alone: for an image everything below its map, for an
      application its tables and its writable pages. */
  ghost function Foot(s: State, o: Owner): set<nat>
    requires o in s.roots
  {
    {s.roots[o]} + Below(s.mem, s.roots[o], 4, if o.App? then Writable else All)
  }

  /** An owner's map is a tree with the kernel's lower half; images have no writable page, and
      the pages an application cannot write are pages of its image. */
  ghost predicate GoodOwner(s: State, o: Owner)
    requires o in s.roots
  {
    && Tree(s.mem, s.roots[o], 4)
    && s.kernel < |s.mem| && (forall i | 0 <= i < 256 :: s.mem[s.roots[o]][i] == s.mem[s.kernel][i])
    && (o.Image? ==> Below(s.mem, s.roots[o], 4, Writable) == Below(s.mem, s.roots[o], 4, Tables))
    && (o.App? ==>
          && o.task in s.source && Image(s.source[o.task]) in s.roots
          && Below(s.mem, s.roots[o], 4, All) - Below(s.mem, s.roots[o], 4, Writable)
             <= Pages(s.mem, s.roots[Image(s.source[o.task])]))
  }

  /** The leaf frames of a map. */
  ghost function Pages(m: Memory, root: nat): set<nat> {
    Below(m, root, 4, All) - Below(m, root, 4, Tables)
  }

  ghost predicate Apart(s: State, o: Owner, p: Owner)
    requires o in s.roots && p in s.roots
  {
    o != p ==> Foot(s, o) !! Foot(s, p)
  }

  ghost predicate Valid(s: State) {
    && s.kernel in s.base
    && (forall o | o in s.roots :: GoodOwner(s, o) && Foot(s, o) !! s.base)
    && (forall o, p | o in s.roots && p in s.roots :: Apart(s, o, p))
    && (forall x :: x in s.used <==> x in s.base || exists o | o in s.roots :: x in Foot(s, o))
  }

  /** What an owner sees at a page: its contents, if the page is mapped. */
  ghost function Seen(m: Memory, root: nat, a: Address): Option<Frame> {
    var e := Walk(m, root, 4, a);
    if e.Some? && e.value.frame < |m| then Some(m[e.value.frame]) else None
  }

  /** All frames that an owner's view depends on. */
  ghost function Reach(s: State, o: Owner): set<nat>
    requires o in s.roots && GoodOwner(s, o)
  {
    Foot(s, o) + if o.App? then Foot(s, Image(s.source[o.task])) else {}
  }

  lemma ReachCovers(s: State, o: Owner)
    requires o in s.roots && GoodOwner(s, o)
    ensures {s.roots[o]} + Below(s.mem, s.roots[o], 4, All) <= Reach(s, o)
  {
    hide Tree, Below;
    if o.App? {
      var i := Image(s.source[o.task]);
      assert Pages(s.mem, s.roots[i]) <= Foot(s, i);
    }
  }

  /** An owner whose frames are untouched has the same map and sees the same memory. */
  lemma Intact(s: State, m': Memory, o: Owner)
    requires o in s.roots && GoodOwner(s, o) && |m'| == |s.mem|
    requires SameFrames(s.mem, m', Reach(s, o))
    ensures Tree(m', s.roots[o], 4) && m'[s.roots[o]] == s.mem[s.roots[o]]
    ensures forall k :: Below(m', s.roots[o], 4, k) == Below(s.mem, s.roots[o], 4, k)
    ensures forall a | Inside(a, 4) :: Seen(m', s.roots[o], a) == Seen(s.mem, s.roots[o], a)
  {
    var r := s.roots[o];
    IntactMap(s, m', o);
    hide *;
    SameTree(s.mem, m', r, 4);
    forall a | Inside(a, 4)
      ensures Seen(m', r, a) == Seen(s.mem, r, a)
    {
      SameWalk(s.mem, m', r, 4, a);
      SeenSame(s, m', o, a);
    }
  }

  lemma IntactMap(s: State, m': Memory, o: Owner)
    requires o in s.roots && GoodOwner(s, o) && |m'| == |s.mem|
    requires SameFrames(s.mem, m', Reach(s, o))
    ensures s.roots[o] < |s.mem| && m'[s.roots[o]] == s.mem[s.roots[o]] && Tree(s.mem, s.roots[o], 4)
    ensures SameEntries(s.mem, m', s.roots[o], 4) && SameFrames(s.mem, m', Below(s.mem, s.roots[o], 4, Tables))
  {
    assert s.roots[o] < |s.mem|;
    hide Tree, Below, Walk, Reach, Foot;
    ReachCovers(s, o);
    BelowSubset(s.mem, s.roots[o], 4, Tables);
  }

  lemma SeenSame(s: State, m': Memory, o: Owner, a: Address)
    requires o in s.roots && GoodOwner(s, o) && |m'| == |s.mem| && Inside(a, 4) && Tree(s.mem, s.roots[o], 4)
    requires SameFrames(s.mem, m', Reach(s, o)) && Walk(m', s.roots[o], 4, a) == Walk(s.mem, s.roots[o], 4, a)
    ensures Seen(m', s.roots[o], a) == Seen(s.mem, s.roots[o], a)
  {
    hide Tree, Below, Walk, Reach, Foot;
    ReachCovers(s, o);
    if Walk(s.mem, s.roots[o], 4, a).Some? {
      WalkLeaf(s.mem, s.roots[o], 4, a);
    }
  }

  lemma FootUsed(s: State, o: Owner)
    requires Valid(s) && o in s.roots
    ensures Foot(s, o) <= s.used && Foot(s, o) !! s.base && GoodOwner(s, o)
    ensures o.App? ==> Image(s.source[o.task]) in s.roots
    ensures Reach(s, o) <= s.used
  {
    hide Tree, Below, Foot;
  }

  lemma AreApart(s: State, o: Owner, p: Owner)
    requires Valid(s) && o in s.roots && p in s.roots && o != p
    ensures Foot(s, o) !! Foot(s, p)
  {
    assert Apart(s, o, p);
  }

  /** Nothing of what another owner depends on is application t's own. */
  lemma ReachApart(s: State, t: int, o: Owner)
    requires Valid(s) && App(t) in s.roots && o in s.roots && o != App(t)
    ensures GoodOwner(s, o) && Reach(s, o) !! Foot(s, App(t))
  {
    hide Foot, Tree, Below;
    AreApart(s, o, App(t));
    if o.App? {
      AreApart(s, Image(s.source[o.task]), App(t));
    }
  }

  /** Ownership facts carry over to a memory in which the owner's map and that of its image,
      and the kernel's map, are the same. */
  lemma GoodOwnerCarries(s: State, s': State, o: Owner)
    requires o in s.roots && GoodOwner(s, o) && o in s'.roots && s'.roots[o] == s.roots[o]
    requires s'.kernel == s.kernel < |s'.mem| && s'.mem[s.kernel] == s.mem[s.kernel]
    requires Tree(s'.mem, s.roots[o], 4) && s'.mem[s.roots[o]] == s.mem[s.roots[o]]
    requires forall k :: Below(s'.mem, s.roots[o], 4, k) == Below(s.mem, s.roots[o], 4, k)
    requires o.App? ==>
               && o.task in s'.source && s'.source[o.task] == s.source[o.task]
               && Image(s.source[o.task]) in s'.roots
               && s'.roots[Image(s.source[o.task])] == s.roots[Image(s.source[o.task])]
               && Pages(s'.mem, s.roots[Image(s.source[o.task])]) == Pages(s.mem, s.roots[Image(s.source[o.task])])
    ensures GoodOwner(s', o) && Foot(s', o) == Foot(s, o)
  {
    hide Tree, Below, Pages;
  }

  /** From s to s' an owner keeps its root and, for an application, its image keeps its root. */
  ghost predicate Kept(s: State, s': State, o: Owner) {
    && o in s.roots && o in s'.roots && s'.roots[o] == s.roots[o]
    && s'.kernel == s.kernel && |s'.mem| == |s.mem|
    && (o.App? ==>
          && o.task in s.source && o.task in s'.source && s'.source[o.task] == s.source[o.task]
          && Image(s.source[o.task]) in s.roots && Image(s.source[o.task]) in s'.roots
          && s'.roots[Image(s.source[o.task])] == s.roots[Image(s.source[o.task])])
  }

  /** Isolation: an owner that is kept, and whose frames are untouched, has the same map and
      sees the same memory. */
  lemma Unmoved(s: State, s': State, o: Owner)
    requires Valid(s) && Kept(s, s', o) && GoodOwner(s, o)
    requires SameFrames(s.mem, s'.mem, Reach(s, o) + s.base)
    ensures GoodOwner(s', o) && Foot(s', o) == Foot(s, o)
    ensures forall a | Inside(a, 4) :: Seen(s'.mem, s.roots[o], a) == Seen(s.mem, s.roots[o], a)
  {
    hide Tree, Below, Seen, Walk, Foot;
    Intact(s, s'.mem, o);
    if o.App? {
      FootUsed(s, Image(s.source[o.task]));
      Intact(s, s'.mem, Image(s.source[o.task]));
    }
    GoodOwnerCarries(s, s', o);
  }

  lemma BaseUsed(s: State)
    requires Valid(s)
    ensures s.base <= s.used
  {
  }

  // ------------------------------------------------------------------ an application's memory changes

  /** Only application t's own frames, and new frames f that become its own, may have changed. */
  ghost predicate AppChanged(s: State, s': State, t: int, f: set<nat>) {
    && Valid(s) && App(t) in s.roots
    && s' == s.(mem := s'.mem, used := s.used + f)
    && |s'.mem| == |s.mem| && f !! s.used
    && (forall x | 0 <= x < |s.mem| && x !in Foot(s, App(t)) && x !in f :: s'.mem[x] == s.mem[x])
    && GoodOwner(s', App(t)) && Foot(s', App(t)) == Foot(s, App(t)) + f
  }

  lemma AppChangedOther(s: State, s': State, t: int, f: set<nat>, o: Owner)
    requires AppChanged(s, s', t, f) && o in s.roots && o != App(t)
    ensures GoodOwner(s', o) && Foot(s', o) == Foot(s, o)
    ensures forall a | Inside(a, 4) :: Seen(s'.mem, s.roots[o], a) == Seen(s.mem, s.roots[o], a)
  {
    hide Tree, Below, Seen, Walk, Foot;
    ReachApart(s, t, o);
    FootUsed(s, o);
    FootUsed(s, App(t));
    BaseUsed(s);
    Unmoved(s, s', o);
  }

  lemma AppChangedValid(s: State, s': State, t: int, f: set<nat>)
    requires AppChanged(s, s', t, f)
    ensures Valid(s')
  {
    hide Tree, Below, GoodOwner, Walk, Seen, Foot;
    forall o | o in s.roots
      ensures GoodOwner(s', o) && Foot(s', o) == Foot(s, o) + (if o == App(t) then f else {})
      ensures Foot(s, o) <= s.used && Foot(s, o) !! s.base
    {
      FootUsed(s, o);
      if o != App(t) {
        AppChangedOther(s, s', t, f, o);
      }
    }
    forall o, p | o in s.roots && p in s.roots
      ensures Apart(s', o, p)
    {
      if o != p {
        AreApart(s, o, p);
      }
    }
    BaseUsed(s);
  }

  // ------------------------------------------------------------------ owners come and go

  /** A new owner o has been built in new frames f. */
  ghost predicate Added(s: State, s': State, o: Owner, f: set<nat>) {
    && Valid(s) && o !in s.roots && o in s'.roots
    && s'.roots == s.roots[o := s'.roots[o]] && s'.base == s.base && s'.kernel == s.kernel
    && s'.used == s.used + f && f !! s.used && |s'.mem| == |s.mem|
    && (forall t | t in s.source && App(t) in s.roots :: t in s'.source && s'.source[t] == s.source[t])
    && (forall x | 0 <= x < |s.mem| && x !in f :: s'.mem[x] == s.mem[x])
    && GoodOwner(s', o) && Foot(s', o) == f
  }

  lemma AddedOther(s: State, s': State, o: Owner, f: set<nat>, p: Owner)
    requires Added(s, s', o, f) && p in s.roots
    ensures GoodOwner(s', p) && Foot(s', p) == Foot(s, p)
    ensures forall a | Inside(a, 4) :: Seen(s'.mem, s.roots[p], a) == Seen(s.mem, s.roots[p], a)
  {
    hide Tree, Below, Seen, Walk, Foot;
    FootUsed(s, p);
    BaseUsed(s);
    Unmoved(s, s', p);
  }

  lemma AddedValid(s: State, s': State, o: Owner, f: set<nat>)
    requires Added(s, s', o, f)
    ensures Valid(s')
  {
    hide Tree, Below, GoodOwner, Walk, Seen, Foot;
    BaseUsed(s);
    forall p | p in s.roots
      ensures GoodOwner(s', p) && Foot(s', p) == Foot(s, p)
      ensures Foot(s, p) <= s.used && Foot(s, p) !! s.base
    {
      FootUsed(s, p);
      AddedOther(s, s', o, f, p);
    }
    forall p, q | p in s'.roots && q in s'.roots
      ensures Apart(s', p, q)
    {
      if p != q && p != o && q != o {
        AreApart(s, p, q);
      }
    }
  }

  /** Application t is gone. Its own frames are free again, or, when it was given up half-built,
      stay taken for good. */
  ghost predicate Removed(s: State, s': State, t: int, freed: bool) {
    && Valid(s) && App(t) in s.roots
    && s' == s.(mem := s'.mem, roots := s.roots - {App(t)},
                used := if freed then s.used - Foot(s, App(t)) else s.used,
                base := if freed then s.base else s.base + Foot(s, App(t)))
    && |s'.mem| == |s.mem|
    && (forall x | 0 <= x < |s.mem| && x !in Foot(s, App(t)) :: s'.mem[x] == s.mem[x])
  }

  lemma RemovedOther(s: State, s': State, t: int, freed: bool, o: Owner)
    requires Removed(s, s', t, freed) && o in s.roots && o != App(t)
    ensures GoodOwner(s', o) && Foot(s', o) == Foot(s, o)
    ensures forall a | Inside(a, 4) :: Seen(s'.mem, s.roots[o], a) == Seen(s.mem, s.roots[o], a)
  {
    hide Tree, Below, Seen, Walk, Foot;
    ReachApart(s, t, o);
    FootUsed(s, o);
    FootUsed(s, App(t));
    Unmoved(s, s', o);
  }

  lemma RemovedValid(s: State, s': State, t: int, freed: bool)
    requires Removed(s, s', t, freed)
    ensures Valid(s')
  {
    hide Tree, Below, GoodOwner, Walk, Seen, Foot;
    forall o | o in s.roots
      ensures Foot(s, o) !! s.base
      ensures o != App(t) ==> GoodOwner(s', o) && Foot(s', o) == Foot(s, o) && Foot(s, o) !! Foot(s, App(t))
    {
      FootUsed(s, o);
      if o != App(t) {
        AreApart(s, o, App(t));
        RemovedOther(s, s', t, freed, o);
      }
    }
    forall o, p | o in s'.roots && p in s'.roots
      ensures Apart(s', o, p)
    {
      if o != p {
        AreApart(s, o, p);
      }
    }
    UsedSplit(s, s', t, freed);
  }

  lemma UsedSplit(s: State, s': State, t: int, freed: bool)
    requires Removed(s, s', t, freed)
    requires forall o | o in s.roots && o != App(t) :: o in s'.roots && Foot(s', o) == Foot(s, o)
    ensures forall x :: x in s'.used <==> x in s'.base || exists o | o in s'.roots :: x in Foot(s', o)
  {
    hide Tree, Below, Foot;
    forall x
      ensures x in s'.used <==> x in s'.base || exists o | o in s'.roots :: x in Foot(s', o)
    {
      FootUsed(s, App(t));
      if x in s'.used && x !in s'.base {
        var o :| o in s.roots && x in Foot(s, o);
        assert o in s'.roots;
      }
      if o :| o in s'.roots && x in Foot(s', o) {
        AreApart(s, o, App(t));
        FootUsed(s, o);
      }
    }
  }

  /** New frames f were taken and belong to nobody (a load that ran out of memory). */
  ghost predicate Lost(s: State, s': State, f: set<nat>) {
    && Valid(s) && s' == s.(mem := s'.mem, used := s.used + f, base := s.base + f)
    && f !! s.used && |s'.mem| == |s.mem|
    && (forall x | 0 <= x < |s.mem| && x !in f :: s'.mem[x] == s.mem[x])
  }

  lemma LostOther(s: State, s': State, f: set<nat>, o: Owner)
    requires Lost(s, s', f) && o in s.roots
    ensures GoodOwner(s', o) && Foot(s', o) == Foot(s, o)
    ensures forall a | Inside(a, 4) :: Seen(s'.mem, s.roots[o], a) == Seen(s.mem, s.roots[o], a)
  {
    hide Tree, Below, Seen, Walk, Foot;
    FootUsed(s, o);
    BaseUsed(s);
    Unmoved(s, s', o);
  }

  lemma LostValid(s: State, s': State, f: set<nat>)
    requires Lost(s, s', f)
    ensures Valid(s')
  {
    hide Tree, Below, GoodOwner, Walk, Seen, Foot;
    forall o | o in s.roots
      ensures GoodOwner(s', o) && Foot(s', o) == Foot(s, o)
      ensures Foot(s, o) <= s.used && Foot(s, o) !! s.base
    {
      FootUsed(s, o);
      LostOther(s, s', f, o);
    }
    forall o, p | o in s.roots && p in s.roots
      ensures Apart(s', o, p)
    {
      if o != p {
        AreApart(s, o, p);
      }
    }
  }
}
