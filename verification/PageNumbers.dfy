/** Pages by number, and an application's memory as a map from page numbers to contents. */
module PageNumbers {
  import opened PageTree
  import opened PageSetup
  import opened Ownership

  /** The upper half of the 48-bit space: pages 2^35 .. 2^36. */
  const UPPER: nat := 0x8_0000_0000
  const LIMIT: nat := 0x10_0000_0000

  /** The four table indices of a page number, as the processor takes them from an address. */
  function AddressOf(n: nat): Address {
    Address(n / ENTRIES / ENTRIES / ENTRIES % ENTRIES, n / ENTRIES / ENTRIES % ENTRIES, n / ENTRIES % ENTRIES, n % ENTRIES)
  }

  lemma Spans()
    ensures Span(0) == 1 && Span(1) == ENTRIES && Span(2) == 0x4_0000 && Span(3) == 0x800_0000 && Span(4) == LIMIT
  {
    assert Span(1) == ENTRIES * Span(0);
    assert Span(2) == ENTRIES * Span(1);
    assert Span(3) == ENTRIES * Span(2);
    assert Span(4) == ENTRIES * Span(3);
  }

  lemma IndexParts(a: Address)
    ensures Index(a, 4) == ((a.pml4 * ENTRIES + a.pdp) * ENTRIES + a.dir) * ENTRIES + a.page
  {
    Spans();
    assert Index(a, 0) == 0;
    assert Index(a, 1) == a.page;
    assert Index(a, 2) == a.dir * ENTRIES + a.page;
    assert Index(a, 3) == a.pdp * 0x4_0000 + Index(a, 2);
    assert Index(a, 4) == a.pml4 * 0x800_0000 + Index(a, 3);
  }

  lemma AddressOfNumber(n: nat)
    requires UPPER <= n < LIMIT
    ensures Inside(AddressOf(n), 4) && Index(AddressOf(n), 4) == n
  {
    hide Index;
    IndexParts(AddressOf(n));
    var q := n / ENTRIES / ENTRIES / ENTRIES;
    assert 256 <= q < ENTRIES;
  }

  lemma OneDigit(x: nat, y: nat)
    requires y < ENTRIES
    ensures (x * ENTRIES + y) / ENTRIES == x && (x * ENTRIES + y) % ENTRIES == y
  {
  }

  lemma NumberOfAddress(a: Address)
    requires Inside(a, 4)
    ensures UPPER <= Index(a, 4) < LIMIT && AddressOf(Index(a, 4)) == a
  {
    hide Index;
    IndexParts(a);
    var q3 := a.pml4;
    var q2 := q3 * ENTRIES + a.pdp;
    var q1 := q2 * ENTRIES + a.dir;
    OneDigit(q3, a.pdp);
    OneDigit(q2, a.dir);
    OneDigit(q1, a.page);
  }

  /** A memory: what its mapped pages hold, by page number. */
  type Space = imap<nat, Frame>

  ghost function Put(space: Space, n: nat, page: Frame): Space { space[n := page] }

  /** What an owner sees. */
  ghost function View(m: Memory, root: nat): Space {
    imap n: nat | UPPER <= n < LIMIT && Seen(m, root, AddressOf(n)).Some? :: Seen(m, root, AddressOf(n)).value
  }

  lemma SameView(m: Memory, r: nat, m': Memory, r': nat)
    requires forall a | Inside(a, 4) :: Seen(m', r', a) == Seen(m, r, a)
    ensures View(m', r') == View(m, r)
  {
    hide Seen, AddressOf, Inside;
    forall n: nat | UPPER <= n < LIMIT
      ensures Seen(m', r', AddressOf(n)) == Seen(m, r, AddressOf(n))
    {
      AddressOfNumber(n);
    }
  }

  /** Everybody's memory: what each application and each cached image sees. */
  ghost function Views(s: State): map<Owner, Space> {
    map o | o in s.roots :: View(s.mem, s.roots[o])
  }

  /** A change of application t's frames changes application t's memory at most. */
  lemma AppChangedViews(s: State, s': State, t: int, f: set<nat>)
    requires AppChanged(s, s', t, f)
    ensures Valid(s') && Views(s') == Views(s)[App(t) := View(s'.mem, s.roots[App(t)])]
  {
    hide AppChanged, View, Seen, Valid;
    AppChangedRoots(s, s', t, f);
    AppChangedValid(s, s', t, f);
    forall o | o in s.roots && o != App(t)
      ensures View(s'.mem, s.roots[o]) == View(s.mem, s.roots[o])
    {
      AppChangedOther(s, s', t, f, o);
      SameView(s.mem, s.roots[o], s'.mem, s.roots[o]);
    }
  }

  lemma AppChangedRoots(s: State, s': State, t: int, f: set<nat>)
    requires AppChanged(s, s', t, f)
    ensures s'.roots == s.roots && App(t) in s.roots
  {
  }

  /** A new owner adds its own memory and nothing else. */
  lemma AddedViews(s: State, s': State, o: Owner, f: set<nat>)
    requires Added(s, s', o, f)
    ensures Valid(s') && Views(s') == Views(s)[o := View(s'.mem, s'.roots[o])]
  {
    hide View, Seen, Valid, GoodOwner, Foot;
    AddedValid(s, s', o, f);
    forall p | p in s.roots
      ensures View(s'.mem, s.roots[p]) == View(s.mem, s.roots[p])
    {
      AddedOther(s, s', o, f, p);
      SameView(s.mem, s.roots[p], s'.mem, s.roots[p]);
    }
  }

  /** The end of an application ends its memory and nothing else. */
  lemma RemovedViews(s: State, s': State, t: int, freed: bool)
    requires Removed(s, s', t, freed)
    ensures Valid(s') && Views(s') == Views(s) - {App(t)}
  {
    hide View, Seen, Valid, GoodOwner, Foot;
    RemovedValid(s, s', t, freed);
    forall o | o in s.roots && o != App(t)
      ensures View(s'.mem, s.roots[o]) == View(s.mem, s.roots[o])
    {
      RemovedOther(s, s', t, freed, o);
      SameView(s.mem, s.roots[o], s'.mem, s.roots[o]);
    }
  }

  lemma LostViews(s: State, s': State, f: set<nat>)
    requires Lost(s, s', f)
    ensures Valid(s') && Views(s') == Views(s)
  {
    hide View, Seen, Valid, GoodOwner, Foot;
    LostValid(s, s', f);
    forall o | o in s.roots
      ensures View(s'.mem, s.roots[o]) == View(s.mem, s.roots[o])
    {
      LostOther(s, s', f, o);
      SameView(s.mem, s.roots[o], s'.mem, s.roots[o]);
    }
  }
}
