/** The ring classes of the xHC driver. */
module Rings {
  import opened CycleRings
  import opened XhciRings

  /** One 32-bit store to the ring. */
  datatype Store = Store(slot: nat, word: nat, value: bv32)

  /** The four stores of one entry, the word with the cycle bit last. */
  function StoresOf(slot: nat, t: Trb): seq<Store> {
    [Store(slot, 0, t.w0), Store(slot, 1, t.w1), Store(slot, 2, t.w2), Store(slot, 3, t.w3)]
  }

  function Stores(s: seq<Trb>, n: nat): seq<Store>
    requires n > 0
  {
    if s == [] then [] else Stores(s[..|s| - 1], n) + StoresOf(Slot(|s| - 1, n), s[|s| - 1])
  }

  lemma StoresNext(s: seq<Trb>, t: Trb, n: nat)
    requires n > 0
    ensures Stores(s + [t], n) == Stores(s, n) + StoresOf(Slot(|s|, n), t)
  {
    assert (s + [t])[..|s|] == s;
  }

  /** The stores of a stream are those that the steps of the interleaving model make, in the same order. */
  lemma {:induction false} StoreAt(s: seq<Trb>, n: nat, p: nat, r: nat)
    requires n > 0 && p < |s| && r < 4
    ensures |Stores(s, n)| == 4 * |s| && Stores(s, n)[4 * p + r] == Store(Slot(p, n), r, Word(s[p], r))
  {
    hide Slot;
    var front := s[..|s| - 1];
    if p < |s| - 1 {
      StoreAt(front, n, p, r);
    } else if front != [] {
      StoreAt(front, n, 0, 0);
    }
  }

  /** The stores that a run makes, whatever the consumer does in between. */
  ghost function Made(t: Traffic, n: nat, s: seq<Trb>, links: bool, steps: seq<Step>, t': Traffic): seq<Store>
    requires Interleaved(t, n, s, links, steps, t')
    decreases |steps|
  {
    if steps == [] then []
    else if steps[0].StoreWord? then
      [Store(Slot(t.p, n), t.r, Word(s[t.p], t.r))] + Made(Stored(t, n, s), n, s, links, steps[1..], t')
    else Made(Polled(t, links), n, s, links, steps[1..], t')
  }

  /** A ring's producer in an interleaved run makes the driver's stores, one after the other. */
  lemma {:induction false} ProducerStores(t: Traffic, n: nat, s: seq<Trb>, links: bool, steps: seq<Step>, t': Traffic)
    requires n > 0 && Interleaved(t, n, s, links, steps, t') && t.r < 4 && (t.r > 0 ==> t.p < |s|) && t.p <= |s|
    ensures |Stores(s, n)| == 4 * |s| && 4 * t.p + t.r <= 4 * t'.p + t'.r <= 4 * |s|
    ensures Made(t, n, s, links, steps, t') == Stores(s, n)[4 * t.p + t.r..4 * t'.p + t'.r]
    decreases |steps|
  {
    hide *;
    StoresLength(s, n);
    if steps == [] {
      NoSteps(t, n, s, links, steps, t');
    } else if steps[0].StoreWord? {
      StoreFirst(t, n, s, links, steps, t');
      StoreAt(s, n, t.p, t.r);
      ProducerStores(Stored(t, n, s), n, s, links, steps[1..], t');
      Onward(Stores(s, n), 4 * t.p + t.r, 4 * t'.p + t'.r);
    } else {
      PollFirst(t, n, s, links, steps, t');
      ProducerStores(Polled(t, links), n, s, links, steps[1..], t');
    }
  }

  lemma NoSteps(t: Traffic, n: nat, s: seq<Trb>, links: bool, steps: seq<Step>, t': Traffic)
    requires Interleaved(t, n, s, links, steps, t') && steps == []
    ensures t' == t && Made(t, n, s, links, steps, t') == []
  {
  }

  lemma StoreFirst(t: Traffic, n: nat, s: seq<Trb>, links: bool, steps: seq<Step>, t': Traffic)
    requires Interleaved(t, n, s, links, steps, t') && steps != [] && steps[0].StoreWord? && t.r < 4 && n > 0
    ensures |t.mem| == n && t.p < |s| && Interleaved(Stored(t, n, s), n, s, links, steps[1..], t')
    ensures Made(t, n, s, links, steps, t')
            == [Store(Slot(t.p, n), t.r, Word(s[t.p], t.r))] + Made(Stored(t, n, s), n, s, links, steps[1..], t')
    ensures 4 * Stored(t, n, s).p + Stored(t, n, s).r == 4 * t.p + t.r + 1 && Stored(t, n, s).r < 4
    ensures Stored(t, n, s).p <= |s| && (Stored(t, n, s).r > 0 ==> Stored(t, n, s).p < |s|)
  {
    hide Slot, SetWord, Word;
  }

  lemma PollFirst(t: Traffic, n: nat, s: seq<Trb>, links: bool, steps: seq<Step>, t': Traffic)
    requires Interleaved(t, n, s, links, steps, t') && steps != [] && !steps[0].StoreWord?
    ensures t.slot < |t.mem| && Interleaved(Polled(t, links), n, s, links, steps[1..], t')
    ensures Made(t, n, s, links, steps, t') == Made(Polled(t, links), n, s, links, steps[1..], t')
    ensures Polled(t, links).p == t.p && Polled(t, links).r == t.r
  {
    hide Slot, SetWord, Word, CycleOf, IsLink;
  }

  lemma Onward(all: seq<Store>, from: nat, to: nat)
    requires from < to <= |all|
    ensures [all[from]] + all[from + 1..to] == all[from..to]
  {
  }

  lemma StoresLength(s: seq<Trb>, n: nat)
    requires n > 0
    ensures |Stores(s, n)| == 4 * |s|
  {
    if s != [] {
      StoreAt(s, n, 0, 0);
    }
  }

  /** A complete entry goes into its slot. */
  lemma HoldsNext(mem: seq<Trb>, n: nat, s: seq<Trb>, t: Trb)
    requires Holds(mem, n, s, |s|, 0)
    ensures Holds(mem[Slot(|s|, n) := t], n, s + [t], |s| + 1, 0)
  {
    var p, s', mem' := |s|, s + [t], mem[Slot(|s|, n) := t];
    hide Slot;
    forall q: nat | q < p < q + n ensures mem'[Slot(q, n)] == s'[q] {
      SlotsDiffer(p, q, n);
    }
    forall i: nat | p < i < n ensures mem'[i] == ZERO {
      FirstLap(p, n);
    }
    LapDone(mem', n, s', p);
  }

  lemma MoreData(data: seq<Trb>, x: Trb)
    requires NoLinks(data) && !IsLink(x)
    ensures NoLinks(data + [x])
  {
  }

  lemma MixedNext(before: Trb, data: Trb, i: nat)
    requires i < 3
    ensures SetWord(Mixed(before, data, i), i, Word(data, i)) == Mixed(before, data, i + 1)
  {
  }

  lemma MixedLast(before: Trb, data: Trb, c: bool)
    ensures SetWord(Mixed(before, data, 3), 3, Stamp(data.w3, c)) == Tag(data, c)
    ensures Mixed(before, data, 0) == before && Word(Tag(data, c), 3) == Stamp(data.w3, c)
  {
  }

  lemma StoresSoFar(slot: nat, t: Trb, i: nat)
    requires i < 4
    ensures |StoresOf(slot, t)| == 4 && StoresOf(slot, t)[..i] + [Store(slot, i, Word(t, i))] == StoresOf(slot, t)[..i + 1]
    ensures StoresOf(slot, t)[..0] == [] && StoresOf(slot, t)[..4] == StoresOf(slot, t)
  {
  }

  lemma TagWords(t: Trb, c: bool, i: nat)
    requires i < 3
    ensures Word(Tag(t, c), i) == Word(t, i)
  {
  }

  /** A command or transfer ring, on the driver's side. */
  class Ring {
    const buf: array<Trb>
    const bufSize: nat
    const link: Trb
    var cycleBit: bool
    var writeIndex: nat
    ghost var pushed: seq<Trb>
    ghost var log: seq<Store>

    /** All entries of the stream s, and nothing else, have been written. */
    ghost predicate Written(s: seq<Trb>)
      reads this`log, buf
    {
      buf.Length == bufSize > 0 && log == Stores(s, bufSize) && Holds(buf[..], bufSize, s, |s|, 0)
    }

    ghost predicate Valid()
      reads this, buf
    {
      && bufSize >= 2 && IsLink(link) && NoLinks(pushed)
      && var s := Stream(bufSize, link, pushed);
      && writeIndex == Slot(|s|, bufSize) && cycleBit == Cycle(|s|, bufSize) && Written(s)
    }

    /** The link is the entry that points to the ring's start and toggles the cycle state. */
    constructor (bufSize: nat, link: Trb)
      requires bufSize >= 2 && IsLink(link)
      ensures Valid() && pushed == [] && log == [] && this.bufSize == bufSize && this.link == link && fresh(buf)
    {
      this.bufSize, this.link, cycleBit, writeIndex, pushed, log := bufSize, link, true, 0, [], [];
      buf := new Trb[bufSize](i => ZERO);
      new;
      FirstLap(0, bufSize);
    }

    /** The driver's stores are those of the producer in any interleaved run of the ring: what a run shows of its consumer
        holds of the driver's. */
    lemma DriverStores(steps: seq<Step>, t: Traffic)
      requires Valid() && Interleaved(Empty(bufSize), bufSize, Stream(bufSize, link, pushed), true, steps, t)
      ensures 4 * t.p + t.r <= |log|
      ensures Made(Empty(bufSize), bufSize, Stream(bufSize, link, pushed), true, steps, t) == log[..4 * t.p + t.r]
    {
      hide Stream, Stores, Holds, Interleaved, Made;
      ProducerStores(Empty(bufSize), bufSize, Stream(bufSize, link, pushed), true, steps, t);
    }

    method StoreWord(i: nat, value: bv32)
      requires writeIndex < buf.Length
      modifies buf, this`log
      ensures buf[..] == old(buf[..])[writeIndex := SetWord(old(buf[..])[writeIndex], i, value)]
      ensures log == old(log) + [Store(writeIndex, i, value)]
    {
      buf[writeIndex] := SetWord(buf[writeIndex], i, value);
      log := log + [Store(writeIndex, i, value)];
    }

    /** Writes one entry at the place to write, the word with the cycle bit last. */
    method CopyToLast(data: Trb)
      requires writeIndex < buf.Length
      modifies buf, this`log
      ensures buf[..] == old(buf[..])[writeIndex := Tag(data, cycleBit)]
      ensures log == old(log) + StoresOf(writeIndex, Tag(data, cycleBit))
    {
      hide *;
      ghost var was, wi := buf[..], writeIndex;
      ghost var t := Tag(data, cycleBit);
      MixedLast(was[wi], data, cycleBit);
      StoresSoFar(wi, t, 0);
      for i := 0 to 3
        invariant buf[..] == was[wi := Mixed(was[wi], data, i)] && log == old(log) + StoresOf(wi, t)[..i]
      {
        MixedNext(was[wi], data, i);
        StoresSoFar(wi, t, i);
        TagWords(data, cycleBit, i);
        StoreWord(i, Word(data, i));
      }
      StoresSoFar(wi, t, 3);
      StoreWord(3, Stamp(data.w3, cycleBit));
    }

    /** One more entry of the stream. */
    method Extend(data: Trb, ghost s: seq<Trb>)
      requires Written(s) && writeIndex == Slot(|s|, bufSize)
      modifies buf, this`log
      ensures Written(s + [Tag(data, cycleBit)]) && old(log) <= log
    {
      hide Tag, Stores, StoresOf, Holds;
      HoldsNext(buf[..], bufSize, s, Tag(data, cycleBit));
      StoresNext(s, Tag(data, cycleBit), bufSize);
      CopyToLast(data);
    }

    /** Adds an entry to the ring and, where the lap ends behind it, the link. Returns the entry's place. */
    method Push(data: Trb) returns (index: nat)
      requires Valid() && !IsLink(data)
      modifies this, buf
      ensures Valid() && pushed == old(pushed) + [data] && old(log) <= log
      ensures index == Slot(|Stream(bufSize, link, old(pushed))|, bufSize)
    {
      hide *;
      ghost var s := PushStarts(data);
      ghost var s1, c := s + [Tag(data, cycleBit)], cycleBit;
      index := writeIndex;
      Extend(data, s);
      pushed := pushed + [data];
      writeIndex := writeIndex + 1;
      if writeIndex == bufSize - 1 {
        Extend(link, s1);
        writeIndex := 0;
        cycleBit := !cycleBit;
        PushEnds(s1 + [Tag(link, c)]);
      } else {
        PushEnds(s1);
      }
    }

    lemma ValidRing()
      requires Valid()
      ensures bufSize >= 2 && IsLink(link) && NoLinks(pushed)
      ensures var s := Stream(bufSize, link, pushed);
              writeIndex == Slot(|s|, bufSize) && cycleBit == Cycle(|s|, bufSize) && Written(s)
    {
      hide IsLink, NoLinks, Slot, Cycle, Stream, Written;
    }

    /** Before a push: where the stream stands, and how it goes on. */
    lemma PushStarts(data: Trb) returns (s: seq<Trb>)
      requires Valid() && !IsLink(data)
      ensures bufSize >= 2 && IsLink(link) && NoLinks(pushed + [data]) && s == Stream(bufSize, link, pushed)
      ensures Written(s) && writeIndex == Slot(|s|, bufSize) && cycleBit == Cycle(|s|, bufSize) && writeIndex + 1 < bufSize
      ensures Slot(|s| + 1, bufSize) == writeIndex + 1 && Cycle(|s| + 1, bufSize) == cycleBit
      ensures writeIndex + 2 == bufSize ==> Slot(|s| + 2, bufSize) == 0 && Cycle(|s| + 2, bufSize) == !cycleBit
      ensures Stream(bufSize, link, pushed + [data])
              == if writeIndex + 2 == bufSize then s + [Tag(data, cycleBit)] + [Tag(link, cycleBit)] else s + [Tag(data, cycleBit)]
    {
      hide *;
      ValidRing();
      s := Stream(bufSize, link, pushed);
      StreamNext(bufSize, link, pushed, data);
      StreamShape(bufSize, link, pushed);
      SlotNext(|s|, bufSize);
      SlotNext(|s| + 1, bufSize);
      MoreData(pushed, data);
      assert s + [Tag(data, cycleBit)] + [] == s + [Tag(data, cycleBit)];
    }

    lemma PushEnds(s: seq<Trb>)
      requires bufSize >= 2 && IsLink(link) && NoLinks(pushed) && s == Stream(bufSize, link, pushed) && Written(s)
      requires writeIndex == Slot(|s|, bufSize) && cycleBit == Cycle(|s|, bufSize)
      ensures Valid()
    {
    }
  }

  /** The event ring, on the driver's side. The controller writes its entries. */
  class EventRing {
    const buf: array<Trb>
    var dequeue: nat
    var cycleBit: bool
    ghost var taken: nat

    /** The controller has written the events before position p and r words of the next; the driver has taken some. */
    ghost predicate Follows(events: seq<Trb>, p: nat, r: nat)
      reads this, buf
    {
      && Holds(buf[..], buf.Length, events, p, r) && Stamped(events, buf.Length)
      && taken <= p && (if r == 0 then p - taken <= buf.Length else p - taken < buf.Length)
      && dequeue == Slot(taken, buf.Length) && cycleBit == Cycle(taken, buf.Length)
    }

    constructor (bufSize: nat)
      requires bufSize > 0
      ensures fresh(buf) && buf.Length == bufSize && taken == 0 && Follows([], 0, 0)
    {
      buf := new Trb[bufSize](i => ZERO);
      dequeue, cycleBit, taken := 0, true, 0;
      new;
      FirstLap(0, bufSize);
    }

    /** Whether there is an event: exactly if one is complete that was not taken. */
    method HasFront(ghost events: seq<Trb>, ghost p: nat, ghost r: nat) returns (b: bool)
      requires Follows(events, p, r)
      ensures b <==> taken < p
    {
      Seen(buf[..], buf.Length, events, p, r, taken);
      b := CycleOf(buf[dequeue]) == cycleBit;
    }

    /** The first event not taken yet. */
    method Front(ghost events: seq<Trb>, ghost p: nat, ghost r: nat) returns (e: Trb)
      requires Follows(events, p, r) && taken < p
      ensures e == events[taken]
    {
      Seen(buf[..], buf.Length, events, p, r, taken);
      e := buf[dequeue];
    }

    method Pop(ghost events: seq<Trb>, ghost p: nat, ghost r: nat)
      requires Follows(events, p, r) && taken < p
      modifies this
      ensures Follows(events, p, r) && taken == old(taken) + 1
    {
      SlotNext(taken, buf.Length);
      hide Holds, Stamped, Slot, Cycle;
      var next := dequeue + 1;
      if next == buf.Length {
        next := 0;
        cycleBit := !cycleBit;
      }
      dequeue := next;
      taken := taken + 1;
    }
  }
}
