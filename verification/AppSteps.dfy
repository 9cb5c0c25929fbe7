/** What one page fault or one store does to the whole system: the ownership invariant is kept,
    and only the acting application's memory changes, in the way its program expects. */
module AppSteps {
  import opened PageTree
  import opened PageSetup
  import opened PageCopy
  import opened Ownership
  import opened AppMemory
  import opened PageNumbers

  /** s with another memory and the frames f taken. */
  ghost function Next(s: State, m': Memory, f: set<nat>): State {
    s.(mem := m', used := s.used + f)
  }

  /** The frames of application t's map after a change of its own and of new frames. */
  ghost predicate OwnMapChanged(s: State, m': Memory, t: int, f: set<nat>) {
    && Valid(s) && App(t) in s.roots && |m'| == |s.mem| && f !! s.used
    && (forall x | 0 <= x < |s.mem| && x !in Foot(s, App(t)) && x !in f :: m'[x] == s.mem[x])
    && Tree(m', s.roots[App(t)], 4) && s.roots[App(t)] < |s.mem|
    && (forall i | 0 <= i < 256 :: m'[s.roots[App(t)]][i] == s.mem[s.roots[App(t)]][i])
    && Below(m', s.roots[App(t)], 4, Writable) == Below(s.mem, s.roots[App(t)], 4, Writable) + f
    && Below(m', s.roots[App(t)], 4, All) - Below(m', s.roots[App(t)], 4, Writable)
       <= Below(s.mem, s.roots[App(t)], 4, All) - Below(s.mem, s.roots[App(t)], 4, Writable)
  }

  /** The image that an application was started from is untouched. */
  lemma OwnImageIntact(s: State, m': Memory, t: int, f: set<nat>)
    requires OwnMapChanged(s, m', t, f)
    ensures t in s.source && Image(s.source[t]) in s.roots && s.kernel < |s.mem|
    ensures Pages(m', s.roots[Image(s.source[t])]) == Pages(s.mem, s.roots[Image(s.source[t])])
    ensures m'[s.kernel] == s.mem[s.kernel]
  {
    hide Tree, Below, Valid, Seen, Foot, Pages, Reach;
    FootUsed(s, App(t));
    BaseUsed(s);
    KernelInBase(s);
    var i := Image(s.source[t]);
    ReachApart(s, t, i);
    FootUsed(s, i);
    Intact(s, m', i);
    SamePages(s, m', i);
  }

  /** OwnMapChanged from what the page map operations promise. */
  lemma OwnMap(s: State, m': Memory, t: int, f: set<nat>)
    requires Valid(s) && App(t) in s.roots && |m'| == |s.mem| && f !! s.used
    requires Tree(m', s.roots[App(t)], 4) && s.roots[App(t)] < |s.mem|
    requires forall i | 0 <= i < 256 :: m'[s.roots[App(t)]][i] == s.mem[s.roots[App(t)]][i]
    requires SameOutside(s.mem, m', {s.roots[App(t)]} + Below(s.mem, s.roots[App(t)], 4, Writable) + f)
    requires Below(m', s.roots[App(t)], 4, Writable) == Below(s.mem, s.roots[App(t)], 4, Writable) + f
    requires Below(m', s.roots[App(t)], 4, All) <= Below(s.mem, s.roots[App(t)], 4, All) + f
    ensures OwnMapChanged(s, m', t, f)
  {
    OwnRoot(s, t);
    hide Tree, Below, Valid, Foot;
  }

  ghost predicate SameOutside(m: Memory, m': Memory, frames: set<nat>) {
    |m'| == |m| && forall x | 0 <= x < |m| && x !in frames :: m'[x] == m[x]
  }

  /** Changing tables and new frames leaves alone what is outside the writable frames. */
  lemma OutsideWritable(m: Memory, m': Memory, t: nat, f: set<nat>)
    requires Tree(m, t, 4) && SameOutside(m, m', {t} + Below(m, t, 4, Tables) + f)
    ensures SameOutside(m, m', {t} + Below(m, t, 4, Writable) + f)
  {
    WritableFrames(m, t, 4);
    hide Tree, Below;
  }

  lemma SamePages(s: State, m': Memory, i: Owner)
    requires i in s.roots
    requires forall k :: Below(m', s.roots[i], 4, k) == Below(s.mem, s.roots[i], 4, k)
    ensures Pages(m', s.roots[i]) == Pages(s.mem, s.roots[i])
  {
  }

  lemma AppStep(s: State, m': Memory, t: int, f: set<nat>)
    requires OwnMapChanged(s, m', t, f)
    ensures AppChanged(s, Next(s, m', f), t, f)
  {
    hide Tree, Below, Valid, Pages;
    FootUsed(s, App(t));
    OwnImageIntact(s, m', t, f);
  }

  /** An application's own map, and what belongs to it. */
  lemma OwnRoot(s: State, t: int)
    requires Valid(s) && App(t) in s.roots
    ensures s.roots[App(t)] < |s.mem| && Tree(s.mem, s.roots[App(t)], 4)
    ensures Foot(s, App(t)) == {s.roots[App(t)]} + Below(s.mem, s.roots[App(t)], 4, Writable)
  {
    hide Below;
    FootUsed(s, App(t));
  }

  ghost predicate InPages(p: nat, from: nat, n: nat) { from <= p < from + n }

  /** n zeroed pages from page number `from` on. */
  ghost function ZeroPages(from: nat, n: nat): Space {
    imap p: nat | InPages(p, from, n) :: ZeroFrame()
  }

  /** Setting up fresh zeroed pages for application t (demand paging, stack and arguments). */
  lemma SetUpStep(s: State, m': Memory, t: int, from: nat, n: nat, f: set<nat>)
    requires Valid(s) && App(t) in s.roots && f !! s.used && UPPER <= from < LIMIT && from + n <= LIMIT
    requires SetUp(s.mem, m', s.roots[App(t)], 4, AddressOf(from), n, true, f)
    requires forall p | InPages(p, from, n) :: p !in View(s.mem, s.roots[App(t)])
    ensures AppChanged(s, Next(s, m', f), t, f)
    ensures View(m', s.roots[App(t)]) == View(s.mem, s.roots[App(t)]) + ZeroPages(from, n)
  {
    var r, a := s.roots[App(t)], AddressOf(from);
    OwnRoot(s, t);
    hide Tree, Below, Walk, AddressOf, AppChanged, Valid, View, SetUp, Foot, SameOutside, OwnMapChanged;
    SetUpFrames(s.mem, m', r, a, n, f);
    RangeUnmapped(s.mem, r, from, n);
    SetUpWritable(s.mem, m', r, a, n, f);
    OutsideWritable(s.mem, m', r, f);
    OwnMap(s, m', t, f);
    AppStep(s, m', t, f);
    SetUpView(s.mem, m', r, from, n, f);
  }

  lemma SetUpView(m: Memory, m': Memory, r: nat, from: nat, n: nat, f: set<nat>)
    requires UPPER <= from < LIMIT && from + n <= LIMIT && SetUp(m, m', r, 4, AddressOf(from), n, true, f)
    requires forall p | InPages(p, from, n) :: p !in View(m, r)
    ensures View(m', r) == View(m, r) + ZeroPages(from, n)
  {
    hide Tree, Below, Walk, AddressOf, SetUp, Seen, Index;
    forall p: nat | UPPER <= p < LIMIT
      ensures Seen(m', r, AddressOf(p)) == if InPages(p, from, n) then Some(ZeroFrame()) else Seen(m, r, AddressOf(p))
    {
      AddressOfNumber(p);
      AddressOfNumber(from);
      SetUpSeen(m, m', r, AddressOf(from), n, true, f, AddressOf(p));
    }
  }

  lemma SetUpFrames(m: Memory, m': Memory, t: nat, from: Address, n: nat, f: set<nat>)
    requires SetUp(m, m', t, 4, from, n, true, f)
    ensures |m'| == |m| && t < |m| && Tree(m', t, 4)
    ensures SameOutside(m, m', {t} + Below(m, t, 4, Tables) + f)
    ensures forall i | 0 <= i < 256 :: m'[t][i] == m[t][i]
    ensures Below(m', t, 4, All) == Below(m, t, 4, All) + f
  {
  }

  lemma SeenInView(m: Memory, root: nat, a: Address)
    requires Inside(a, 4) && Seen(m, root, a).Some?
    ensures Index(a, 4) in View(m, root) && View(m, root)[Index(a, 4)] == Seen(m, root, a).value
  {
    hide Seen, AddressOf, Index;
    NumberOfAddress(a);
  }

  /** Pages that are not in the view are not mapped. */
  lemma RangeUnmapped(m: Memory, root: nat, from: nat, n: nat)
    requires Tree(m, root, 4) && UPPER <= from < LIMIT
    requires forall p | InPages(p, from, n) :: p !in View(m, root)
    ensures Unmapped(m, root, AddressOf(from), n)
  {
    hide Tree, Walk, AddressOf, Index, View;
    AddressOfNumber(from);
    forall a | Inside(a, 4) && InRange(a, AddressOf(from), n, 4)
      ensures Walk(m, root, 4, a).None?
    {
      NumberOfAddress(a);
      assert InPages(Index(a, 4), from, n);
      if Walk(m, root, 4, a).Some? {
        LeafFrame(m, root, a);
        SeenInView(m, root, a);
      }
    }
  }

  /** The private copy of a page on the first store to it. */
  lemma PrivatizeStep(s: State, m': Memory, t: int, n: nat, p: nat, f: set<nat>)
    requires Valid(s) && App(t) in s.roots && f == {p} && f !! s.used && UPPER <= n < LIMIT
    requires Privatized(s.mem, m', s.roots[App(t)], AddressOf(n), p)
    requires !Walk(s.mem, s.roots[App(t)], 4, AddressOf(n)).value.writable
    ensures AppChanged(s, Next(s, m', f), t, f)
    ensures View(m', s.roots[App(t)]) == View(s.mem, s.roots[App(t)])
  {
    var r, a := s.roots[App(t)], AddressOf(n);
    OwnRoot(s, t);
    hide Tree, Below, Walk, AddressOf, AppChanged, Valid, View, Privatized, Seen, Foot, SameOutside, OwnMapChanged;
    PrivatizedSeen(s.mem, m', r, a, p);
    SameView(s.mem, r, m', r);
    PrivatizedFrames(s.mem, m', r, a, p, f);
    OutsideWritable(s.mem, m', r, f);
    OwnMap(s, m', t, f);
    AppStep(s, m', t, f);
  }

  lemma PrivatizedFrames(m: Memory, m': Memory, t: nat, a: Address, p: nat, f: set<nat>)
    requires Privatized(m, m', t, a, p) && !Walk(m, t, 4, a).value.writable && f == {p}
    ensures |m'| == |m| && t < |m| && Tree(m', t, 4)
    ensures SameOutside(m, m', {t} + Below(m, t, 4, Tables) + f)
    ensures forall i | 0 <= i < 256 :: m'[t][i] == m[t][i]
    ensures Below(m', t, 4, All) <= Below(m, t, 4, All) + f
    ensures Below(m', t, 4, Writable) == Below(m, t, 4, Writable) + f
  {
    PrivatizedIs(m, m', t, a, p);
    hide *;
    PrivatizedSeen(m, m', t, a, p);
  }

  lemma PrivatizedIs(m: Memory, m': Memory, t: nat, a: Address, p: nat)
    requires Privatized(m, m', t, a, p)
    ensures |m'| == |m| && t < |m| && Tree(m', t, 4)
    ensures SameOutside(m, m', {t} + Below(m, t, 4, Tables) + {p})
    ensures forall i | 0 <= i < 256 :: m'[t][i] == m[t][i]
    ensures Below(m', t, 4, All) <= Below(m, t, 4, All) + {p}
  {
    assert t < |m|;
    hide Tree, Below, Walk, SamePage;
  }

  /** A store by application t into a page it may write. */
  lemma StoreStep(s: State, m': Memory, t: int, n: nat, content: Frame)
    requires Valid(s) && App(t) in s.roots && UPPER <= n < LIMIT
    requires PageWritten(s.mem, m', s.roots[App(t)], AddressOf(n), content)
    requires Walk(s.mem, s.roots[App(t)], 4, AddressOf(n)).value.writable
    ensures AppChanged(s, Next(s, m', {}), t, {})
    ensures View(m', s.roots[App(t)]) == Put(View(s.mem, s.roots[App(t)]), n, content)
  {
    var r, a := s.roots[App(t)], AddressOf(n);
    OwnRoot(s, t);
    hide Tree, Below, Walk, AddressOf, AppChanged, Valid, View, Seen, Foot, OwnMapChanged, SameOutside, PageWritten;
    WrittenFrames(s.mem, m', r, a, content);
    OwnMap(s, m', t, {});
    AppStep(s, m', t, {});
    StoreView(s.mem, m', r, n, content);
  }

  lemma WrittenFrames(m: Memory, m': Memory, t: nat, a: Address, content: Frame)
    requires PageWritten(m, m', t, a, content) && Walk(m, t, 4, a).value.writable
    ensures |m'| == |m| && t < |m| && Tree(m', t, 4)
    ensures SameOutside(m, m', {t} + Below(m, t, 4, Writable) + {})
    ensures forall i | 0 <= i < 256 :: m'[t][i] == m[t][i]
    ensures Below(m', t, 4, Writable) == Below(m, t, 4, Writable) + {}
    ensures Below(m', t, 4, All) <= Below(m, t, 4, All) + {}
  {
    hide Tree, Below, Walk;
    LeafFrame(m, t, a);
    WriteKeepsMap(m, m', t, a, content);
  }

  lemma StoreView(m: Memory, m': Memory, r: nat, n: nat, content: Frame)
    requires UPPER <= n < LIMIT && PageWritten(m, m', r, AddressOf(n), content)
    ensures View(m', r) == Put(View(m, r), n, content)
  {
    hide Tree, Walk, AddressOf, Seen, Index, PageWritten;
    forall p: nat | UPPER <= p < LIMIT
      ensures Seen(m', r, AddressOf(p)) == if p == n then Some(content) else Seen(m, r, AddressOf(p))
    {
      AddressOfNumber(p);
      AddressOfNumber(n);
      WriteSeen(m, m', r, AddressOf(n), content, AddressOf(p));
    }
  }

  /** m1 is m after frame root became a top-level map with the lower half of the one in cr3. */
  ghost predicate FreshRoot(m: Memory, m1: Memory, cr3: nat, root: nat) {
    && SameOutside(m, m1, {root}) && root < |m| && cr3 < |m|
    && (forall i | 0 <= i < ENTRIES :: m1[root][i] == if i < 256 then m[cr3][i] else ZERO)
  }

  /** m' is m with a map in frame root, built in the new frames f and having cr3's lower half. */
  ghost predicate NewMap(m: Memory, m': Memory, cr3: nat, root: nat, f: set<nat>) {
    && SameOutside(m, m', {root} + f) && root < |m| && cr3 < |m| && root !in f
    && (forall i | 0 <= i < 256 :: m'[root][i] == m[cr3][i]) && Tree(m', root, 4)
  }

  /** The state with application t running from image `file` on the map in frame root. */
  ghost function Launched(s: State, m': Memory, t: int, file: int, root: nat, f: set<nat>): State {
    Next(s, m', f).(roots := s.roots[App(t) := root], source := s.source[t := file])
  }

  /** A process map copied from a cached image: it sees what the image holds and owns its tables. */
  lemma LaunchStep(s: State, m1: Memory, m': Memory, t: int, file: int, root: nat, f: set<nat>)
    requires Valid(s) && App(t) !in s.roots && Image(file) in s.roots
    requires root in f && f !! s.used && FreshRoot(s.mem, m1, s.kernel, root) && SameOutside(s.mem, m', f)
    requires Copied(m1, m', root, s.roots[Image(file)], 4, f - {root})
    ensures Added(s, Launched(s, m', t, file, root, f), App(t), f)
    ensures View(m', root) == View(s.mem, s.roots[Image(file)])
  {
    var i := Image(file);
    hide Tree, Below, Walk, Valid, Seen, View, Reach;
    FootUsed(s, i);
    BaseUsed(s);
    KernelInBase(s);
    Intact(s, m1, i);
    CopiedSeen(m1, m', root, s.roots[i], f - {root});
    CopiedFrames(m1, m', root, s.roots[i], f - {root});
    Intact(s, m', i);
    SameView(s.mem, s.roots[i], m', root);
    SamePages(s, m1, i);
    SamePages(s, m', i);
  }

  lemma KernelInBase(s: State)
    requires Valid(s)
    ensures s.kernel in s.base
  {
  }

  lemma CopiedFrames(m: Memory, m': Memory, d: nat, s: nat, f: set<nat>)
    requires Copied(m, m', d, s, 4, f)
    ensures |m'| == |m| && d < |m|
    ensures forall x | 0 <= x < |m| && x != d && x !in f :: m'[x] == m[x]
    ensures forall i | 0 <= i < 256 :: m'[d][i] == m[d][i]
  {
  }

  /** The state with the map in frame root cached as the image of `file`. */
  ghost function Cached(s: State, m': Memory, file: int, root: nat, f: set<nat>): State {
    Next(s, m', f).(roots := s.roots[Image(file) := root])
  }

  /** A cached image built in new frames. */
  lemma LoadStep(s: State, m': Memory, file: int, root: nat, f: set<nat>)
    requires Valid(s) && Image(file) !in s.roots && root in f && f !! s.used
    requires NewMap(s.mem, m', s.kernel, root, f - {root}) && AllReadOnly(m', root) && Below(m', root, 4, All) == f - {root}
    ensures Added(s, Cached(s, m', file, root, f), Image(file), f)
  {
    hide Tree, Below, Walk, Valid, AllReadOnly;
    BaseUsed(s);
    KernelInBase(s);
    ReadOnlyFrames(m', root);
  }

  /** The state in which new frames have been taken for nothing. */
  ghost function Taken(s: State, m': Memory, f: set<nat>): State {
    s.(mem := m', used := s.used + f, base := s.base + f)
  }

  lemma TakenStep(s: State, m': Memory, f: set<nat>)
    requires Valid(s) && f !! s.used && SameOutside(s.mem, m', f)
    ensures Valid(Taken(s, m', f)) && Views(Taken(s, m', f)) == Views(s)
  {
    hide Valid, Views;
    LostViews(s, Taken(s, m', f), f);
  }
}
