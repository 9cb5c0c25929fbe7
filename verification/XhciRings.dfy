/** The command and transfer rings of the xHC driver, the event ring, and what their consumers get. */
module XhciRings {
  import opened CycleRings

  predicate LinkType(w: bv32) {
    (w >> 10) & 0x3f == 6
  }

  /** The TRB type field says that the entry is a link. */
  predicate IsLink(t: Trb) {
    LinkType(t.w3)
  }

  lemma StampKeepsType(w: bv32, c: bool)
    ensures LinkType(Stamp(w, c)) == LinkType(w)
  {
    if c {
      assert (((w & 0xffff_fffe) | 1) >> 10) & 0x3f == (w >> 10) & 0x3f;
    } else {
      assert ((w & 0xffff_fffe) >> 10) & 0x3f == (w >> 10) & 0x3f;
    }
  }

  lemma TagKeepsType(t: Trb, c: bool)
    ensures IsLink(Tag(t, c)) == IsLink(t)
  {
    hide LinkType, Stamp;
    StampKeepsType(t.w3, c);
  }

  // ----- the stream that a producer of data entries writes -----

  /** The entries written for some data entries: each stamped with the cycle state of its place, and at the end of every
      lap a link. */
  function Stream(n: nat, link: Trb, data: seq<Trb>): seq<Trb>
    requires n >= 2
  {
    if data == [] then [] else OneMore(n, link, Stream(n, link, data[..|data| - 1]), data[|data| - 1])
  }

  function OneMore(n: nat, link: Trb, s: seq<Trb>, x: Trb): seq<Trb>
    requires n >= 2
  {
    s + [Tag(x, Cycle(|s|, n))] + if Slot(|s| + 1, n) == n - 1 then [Tag(link, Cycle(|s| + 1, n))] else []
  }

  ghost predicate NoLinks(data: seq<Trb>) {
    forall i :: 0 <= i < |data| ==> !IsLink(data[i])
  }

  /** Links stand at the ends of laps, and only there. */
  ghost predicate Linked(s: seq<Trb>, n: nat)
    requires n > 0
  {
    forall p :: 0 <= p < |s| ==> (IsLink(s[p]) <==> Slot(p, n) == n - 1)
  }

  lemma {:induction false} StreamShape(n: nat, link: Trb, data: seq<Trb>)
    requires n >= 2 && IsLink(link) && NoLinks(data)
    ensures Stamped(Stream(n, link, data), n) && Linked(Stream(n, link, data), n)
    ensures Slot(|Stream(n, link, data)|, n) != n - 1
  {
    hide CycleOf, IsLink, Tag, Slot, Cycle;
    if data == [] {
      FirstLap(0, n);
    } else {
      var front, x := data[..|data| - 1], data[|data| - 1];
      StreamShape(n, link, front);
      var p := |Stream(n, link, front)|;
      SlotNext(p, n);
      SlotNext(p + 1, n);
      TagIs(x, Cycle(p, n));
      TagIs(link, Cycle(p + 1, n));
      TagKeepsType(x, Cycle(p, n));
      TagKeepsType(link, Cycle(p + 1, n));
    }
  }

  /** Pushing more data adds to the stream. */
  lemma StreamNext(n: nat, link: Trb, data: seq<Trb>, x: Trb)
    requires n >= 2
    ensures var s := Stream(n, link, data);
            Stream(n, link, data + [x]) == s + [Tag(x, Cycle(|s|, n))]
              + if Slot(|s| + 1, n) == n - 1 then [Tag(link, Cycle(|s| + 1, n))] else []
  {
    hide Stream, Tag, CycleOf, Slot, Cycle, IsLink;
    var more := data + [x];
    Shorter(data, x);
    StreamLast(n, link, more, data, x);
  }

  lemma Shorter(data: seq<Trb>, x: Trb)
    ensures (data + [x])[..|data|] == data && (data + [x])[|data|] == x
  {
  }

  lemma StreamLast(n: nat, link: Trb, more: seq<Trb>, data: seq<Trb>, x: Trb)
    requires n >= 2 && |more| == |data| + 1 && more[..|data|] == data && more[|data|] == x
    ensures Stream(n, link, more) == OneMore(n, link, Stream(n, link, data), x)
  {
    hide OneMore, Tag, CycleOf, Slot, Cycle, IsLink;
  }

  /** Without their cycle bits, the data entries of a stream. */
  ghost function Data(s: seq<Trb>): seq<Trb> {
    if s == [] then []
    else Data(s[..|s| - 1]) + if IsLink(s[|s| - 1]) then [] else [Tag(s[|s| - 1], false)]
  }

  ghost function Untagged(data: seq<Trb>): seq<Trb> {
    seq(|data|, i requires 0 <= i < |data| => Tag(data[i], false))
  }

  lemma DataNext(s: seq<Trb>, t: Trb)
    ensures Data(s + [t]) == Data(s) + if IsLink(t) then [] else [Tag(t, false)]
  {
    assert (s + [t])[..|s|] == s;
  }

  /** The stream carries the pushed data, in order. */
  lemma {:induction false} StreamData(n: nat, link: Trb, data: seq<Trb>)
    requires n >= 2 && IsLink(link) && NoLinks(data)
    ensures Data(Stream(n, link, data)) == Untagged(data)
  {
    if data != [] {
      var front, x := data[..|data| - 1], data[|data| - 1];
      StreamData(n, link, front);
      assert !IsLink(x);
      hide *;
      var s := Stream(n, link, front);
      assert data == front + [x];
      StreamNext(n, link, front, x);
      DataAfter(s, x, link, Cycle(|s|, n), Cycle(|s| + 1, n), Slot(|s| + 1, n) == n - 1);
      UntaggedNext(front, x);
    }
  }

  lemma DataAfter(s: seq<Trb>, x: Trb, link: Trb, c: bool, c1: bool, wraps: bool)
    requires !IsLink(x) && IsLink(link)
    ensures Data(s + [Tag(x, c)] + if wraps then [Tag(link, c1)] else []) == Data(s) + [Tag(x, false)]
  {
    TagKeepsType(x, c);
    TagKeepsType(link, c1);
    TagIs(x, c);
    hide *;
    DataNext(s, Tag(x, c));
    DataNext(s + [Tag(x, c)], Tag(link, c1));
    assert s + [Tag(x, c)] + [] == s + [Tag(x, c)];
  }

  lemma UntaggedNext(data: seq<Trb>, x: Trb)
    ensures Untagged(data + [x]) == Untagged(data) + [Tag(x, false)]
  {
    hide Tag;
  }

  lemma {:induction false} DataPrefix(s: seq<Trb>, c: nat)
    requires c <= |s|
    ensures Data(s[..c]) <= Data(s)
  {
    if c == |s| {
      assert s[..c] == s;
    } else {
      DataPrefix(s[..|s| - 1], c);
      assert s[..|s| - 1][..c] == s[..c];
    }
  }

  // ----- producer and consumer, step by step -----

  /** The ring in memory, how far it is written, and the consumer: its place, its cycle state, and what it took. */
  datatype Traffic = Traffic(mem: seq<Trb>, p: nat, r: nat, slot: nat, ccs: bool, taken: seq<Trb>)

  /** The producer stores one word, or the consumer looks at its place in the ring. */
  datatype Step = StoreWord | Poll

  /** A store does not go over an entry that was not taken yet: fewer than n positions are open. */
  ghost predicate Room(t: Traffic, n: nat) {
    t.p < |t.taken| + n
  }

  function Stored(t: Traffic, n: nat, s: seq<Trb>): Traffic
    requires |t.mem| == n > 0 && t.p < |s|
  {
    var i := Slot(t.p, n);
    t.(mem := t.mem[i := SetWord(t.mem[i], t.r, Word(s[t.p], t.r))], p := if t.r == 3 then t.p + 1 else t.p,
       r := if t.r == 3 then 0 else t.r + 1)
  }

  /** The consumer takes an entry whose cycle bit is its own cycle state. A ring with links sends it to the first slot
      and flips its cycle state at a link, the event ring does so at the end of the segment. */
  function Polled(t: Traffic, links: bool): Traffic
    requires t.slot < |t.mem|
  {
    var e := t.mem[t.slot];
    if CycleOf(e) != t.ccs then t
    else if (if links then IsLink(e) else t.slot + 1 == |t.mem|) then t.(slot := 0, ccs := !t.ccs, taken := t.taken + [e])
    else t.(slot := t.slot + 1, taken := t.taken + [e])
  }

  /** The consumer has taken exactly the first entries of the stream, and stands at the next. */
  ghost predicate InStep(t: Traffic, n: nat, s: seq<Trb>, links: bool) {
    var c := |t.taken|;
    && Holds(t.mem, n, s, t.p, t.r) && Stamped(s, n) && (links ==> Linked(s, n))
    && c <= t.p && (if t.r == 0 then t.p - c <= n else t.p - c < n)
    && t.taken == s[..c] && t.slot == Slot(c, n) && t.ccs == Cycle(c, n)
  }

  lemma StoreInStep(t: Traffic, n: nat, s: seq<Trb>, links: bool)
    requires InStep(t, n, s, links) && t.p < |s| && Room(t, n)
    ensures InStep(Stored(t, n, s), n, s, links)
  {
    hide CycleOf, Cycle, IsLink, Stamped, Linked;
    WordWritten(t.mem, n, s, t.p, t.r);
    hide Holds;
  }

  lemma PollInStep(t: Traffic, n: nat, s: seq<Trb>, links: bool)
    requires InStep(t, n, s, links)
    ensures t.slot < |t.mem| && InStep(Polled(t, links), n, s, links)
    ensures Polled(t, links).taken == if |t.taken| < t.p then t.taken + [s[|t.taken|]] else t.taken
  {
    var c := |t.taken|;
    Seen(t.mem, n, s, t.p, t.r, c);
    SlotNext(c, n);
    assert t.slot < |t.mem|;
    if c < t.p {
      assert links ==> (IsLink(s[c]) <==> Slot(c, n) == n - 1);
      assert s[..c] + [s[c]] == s[..c + 1];
    }
    hide Holds, Stamped, Linked, Slot, Cycle, CycleOf, IsLink;
  }

  /** A run: any interleaving of stores and looks, each store with room for it. */
  ghost predicate Interleaved(t: Traffic, n: nat, s: seq<Trb>, links: bool, steps: seq<Step>, t': Traffic)
    decreases |steps|
  {
    if steps == [] then t' == t
    else if steps[0] == StoreWord
    then |t.mem| == n > 0 && t.p < |s| && Room(t, n) && Interleaved(Stored(t, n, s), n, s, links, steps[1..], t')
    else t.slot < |t.mem| && Interleaved(Polled(t, links), n, s, links, steps[1..], t')
  }

  /** Whatever the interleaving, the consumer only ever takes complete entries, in order, none twice and none skipped. */
  lemma {:induction false} RunInStep(t: Traffic, n: nat, s: seq<Trb>, links: bool, steps: seq<Step>, t': Traffic)
    requires InStep(t, n, s, links) && Interleaved(t, n, s, links, steps, t')
    ensures InStep(t', n, s, links)
    decreases |steps|
  {
    hide InStep, Stored, Polled;
    if steps != [] {
      if steps[0] == StoreWord {
        StoreInStep(t, n, s, links);
        RunInStep(Stored(t, n, s), n, s, links, steps[1..], t');
      } else {
        PollInStep(t, n, s, links);
        RunInStep(Polled(t, links), n, s, links, steps[1..], t');
      }
    }
  }

  ghost function Empty(n: nat): Traffic {
    Traffic(seq(n, i => ZERO), 0, 0, 0, true, [])
  }

  /** From the initialized ring on: the data entries taken are a prefix of those pushed. */
  lemma Delivery(n: nat, link: Trb, data: seq<Trb>, steps: seq<Step>, t: Traffic)
    requires n >= 2 && IsLink(link) && NoLinks(data)
    requires Interleaved(Empty(n), n, Stream(n, link, data), true, steps, t)
    ensures |t.taken| <= t.p <= |Stream(n, link, data)| && t.taken == Stream(n, link, data)[..|t.taken|]
    ensures Data(t.taken) <= Untagged(data)
    ensures |t.taken| == |Stream(n, link, data)| ==> Data(t.taken) == Untagged(data)
  {
    var s := Stream(n, link, data);
    StreamShape(n, link, data);
    EmptyInStep(n, s, true);
    RunInStep(Empty(n), n, s, true, steps, t);
    assert t.p <= |s|;
    StreamData(n, link, data);
    hide Stream, Stamped, Linked, Slot, Cycle, IsLink, Holds;
    DataPrefix(s, |t.taken|);
    assert s[..|s|] == s;
  }

  lemma EmptyInStep(n: nat, s: seq<Trb>, links: bool)
    requires n > 0 && Stamped(s, n) && (links ==> Linked(s, n))
    ensures InStep(Empty(n), n, s, links)
  {
    FirstLap(0, n);
    hide Stamped, Linked, Slot, Cycle;
  }

  /** The event ring: from the initialized ring on, the driver takes exactly the events written, in order. */
  lemma EventDelivery(n: nat, events: seq<Trb>, steps: seq<Step>, t: Traffic)
    requires n > 0 && Stamped(events, n) && Interleaved(Empty(n), n, events, false, steps, t)
    ensures |t.taken| <= t.p <= |events| && t.taken == events[..|t.taken|]
  {
    EmptyInStep(n, events, false);
    RunInStep(Empty(n), n, events, false, steps, t);
  }

  // ----- how much may be outstanding -----

  /** The data entries among positions c up to p. */
  ghost function DataBetween(n: nat, c: nat, p: nat): nat
    requires n > 0
    decreases p
  {
    if p <= c then 0 else DataBetween(n, c, p - 1) + if Slot(p - 1, n) == n - 1 then 0 else 1
  }

  /** At most one link lies among as many positions as the ring has slots. */
  lemma {:induction false} OneLink(n: nat, c: nat, p: nat)
    requires n > 0 && c <= p <= c + n
    ensures DataBetween(n, c, p) <= p - c <= DataBetween(n, c, p) + 1
    ensures DataBetween(n, c, p) == p - c <==> forall q: nat :: c <= q < p ==> Slot(q, n) != n - 1
    decreases p
  {
    if c < p {
      OneLink(n, c, p - 1);
      hide Slot;
      if Slot(p - 1, n) == n - 1 {
        forall q: nat | c <= q < p - 1 ensures Slot(q, n) != n - 1 {
          SlotsDiffer(p - 1, q, n);
        }
      }
    }
  }

  /** As many positions as the ring has slots hold a link. */
  lemma LinkInLap(c: nat, n: nat) returns (q: nat)
    requires n > 0
    ensures c <= q < c + n && Slot(q, n) == n - 1
  {
    q := c + (n - 1 - Slot(c, n));
    assert c == c / n * n + c % n;
    Divided(q, c / n, n - 1, n);
  }

  /** A push at position p, which is not a link's, has room for its entry, and for the link if one follows. */
  ghost predicate RoomAt(n: nat, c: nat, p: nat)
    requires n > 0
  {
    p < c + n && (Slot(p + 1, n) == n - 1 ==> p + 1 < c + n)
  }

  /** Even if the consumer does not move, a push has room exactly if, the pushed entry included, at most n - 2 data entries are
      outstanding, or n - 1 are and the consumer does not stand before a link. */
  lemma RoomForPush(n: nat, c: nat, p: nat)
    requires n >= 2 && c <= p <= c + n && Slot(p, n) != n - 1
    ensures RoomAt(n, c, p) <==>
            DataBetween(n, c, p) + 1 <= n - 2 || (DataBetween(n, c, p) + 1 == n - 1 && Slot(c, n) != n - 1)
  {
    OneLink(n, c, p);
    hide Slot, Cycle, DataBetween;
    if p == c + n - 1 {
      var q := LinkInLap(c, n);
      LapLater(c, n);
      assert q != p && c <= q < p;
    } else if p < c + n && c < p {
      assert Slot(c, n) == n - 1 ==> DataBetween(n, c, p) != p - c by {
        assert c <= c < p;
      }
    }
  }

  /** The other case with n - 1 entries: the consumer stands before a link, and the next lap's link goes over it. */
  lemma NoRoomForLink(n: nat, c: nat, p: nat)
    requires n >= 2 && Slot(c, n) == n - 1 && p == c + n - 1
    ensures DataBetween(n, c, p) + 1 == n - 1 && Slot(p + 1, n) == n - 1 && p + 1 == c + n
  {
    hide Slot, Cycle;
    LapLater(c, n);
    OneLink(n, c, p);
    assert exists q: nat :: c <= q < p && Slot(q, n) == n - 1 by {
      assert c <= c < p;
    }
  }
}
