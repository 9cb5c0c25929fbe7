/** Rings of transfer request blocks that a producer writes word by word while a consumer reads them: who owns an entry
    is told by its cycle bit alone (xHCI specification, sections 4.9.2 to 4.9.4). */
module CycleRings {
  datatype Trb = Trb(w0: bv32, w1: bv32, w2: bv32, w3: bv32)

  const ZERO: Trb := Trb(0, 0, 0, 0)

  function Word(t: Trb, i: nat): bv32 {
    if i == 0 then t.w0 else if i == 1 then t.w1 else if i == 2 then t.w2 else t.w3
  }

  function SetWord(t: Trb, i: nat, v: bv32): Trb {
    if i == 0 then t.(w0 := v) else if i == 1 then t.(w1 := v) else if i == 2 then t.(w2 := v) else t.(w3 := v)
  }

  predicate CycleBit(w: bv32) {
    w & 1 == 1
  }

  /** A word without its cycle bit. */
  function Rest(w: bv32): bv32 {
    w & 0xffff_fffe
  }

  function Stamp(w: bv32, c: bool): bv32 {
    if c then (w & 0xffff_fffe) | 1 else w & 0xffff_fffe
  }

  predicate CycleOf(t: Trb) {
    CycleBit(t.w3)
  }

  /** An entry with its cycle bit replaced. */
  function Tag(t: Trb, c: bool): Trb {
    t.(w3 := Stamp(t.w3, c))
  }

  lemma StampCycle(w: bv32, c: bool)
    ensures CycleBit(Stamp(w, c)) == c
  {
  }

  lemma StampRest(w: bv32, c: bool)
    ensures Rest(Stamp(w, c)) == Rest(w)
  {
  }

  lemma StampTwice(w: bv32, c: bool)
    ensures Stamp(Stamp(w, c), false) == Stamp(w, false)
  {
  }

  /** The lowest bit is the cycle bit, and the 31 bits above it stay. */
  lemma StampIs(w: bv32, c: bool)
    ensures Stamp(w, c) >> 1 == w >> 1 && Stamp(w, c) & 1 == if c then 1 else 0
  {
  }

  /** Tagging changes the cycle bit and no other bit. */
  lemma TagIs(t: Trb, c: bool)
    ensures CycleOf(Tag(t, c)) == c && Rest(Tag(t, c).w3) == Rest(t.w3)
    ensures Tag(t, c).w0 == t.w0 && Tag(t, c).w1 == t.w1 && Tag(t, c).w2 == t.w2
    ensures Tag(Tag(t, c), false) == Tag(t, false)
  {
    hide CycleBit, Stamp, Rest;
    StampCycle(t.w3, c);
    StampRest(t.w3, c);
    StampTwice(t.w3, c);
  }

  // ----- positions in the stream of all entries ever written -----

  /** The slot of a position. */
  function Slot(p: nat, n: nat): (i: nat)
    requires n > 0
    ensures i < n
  {
    p % n
  }

  /** The cycle state of a position: it flips with every lap, and starts as 1. */
  predicate Cycle(p: nat, n: nat)
    requires n > 0
  {
    (p / n) % 2 == 0
  }

  lemma Divided(x: nat, q: nat, r: nat, n: nat)
    requires x == q * n + r && r < n
    ensures x / n == q && x % n == r
  {
    var z: int := x / n - q;
    assert z * n == r - x % n;
    Small(z, n);
  }

  lemma Small(z: int, n: int)
    requires -n < z * n < n
    ensures z == 0
  {
    assert z >= 1 ==> z * n >= n;
    assert z <= -1 ==> z * n <= -n;
  }

  lemma LapLater(p: nat, n: nat)
    requires n > 0
    ensures Slot(p + n, n) == Slot(p, n) && Cycle(p + n, n) != Cycle(p, n)
  {
    var q, r := p / n, p % n;
    assert (q + 1) * n == q * n + n;
    Divided(p + n, q + 1, r, n);
  }

  lemma FirstLap(p: nat, n: nat)
    requires p < n
    ensures Slot(p, n) == p && Cycle(p, n)
  {
    Divided(p, 0, p, n);
  }

  lemma SlotNext(p: nat, n: nat)
    requires n > 0
    ensures Slot(p + 1, n) == (if Slot(p, n) + 1 == n then 0 else Slot(p, n) + 1)
    ensures Cycle(p + 1, n) == (if Slot(p, n) + 1 == n then !Cycle(p, n) else Cycle(p, n))
  {
    var q, r := p / n, p % n;
    if r + 1 == n {
      assert (q + 1) * n == q * n + n;
      Divided(p + 1, q + 1, 0, n);
    } else {
      Divided(p + 1, q, r + 1, n);
    }
  }

  /** Positions less than a lap apart have different slots. */
  lemma SlotsDiffer(p: nat, q: nat, n: nat)
    requires q < p < q + n
    ensures Slot(p, n) != Slot(q, n)
  {
    var a, r := q / n, q % n;
    if r + (p - q) < n {
      Divided(p, a, r + (p - q), n);
    } else {
      assert (a + 1) * n == a * n + n;
      Divided(p, a + 1, r + (p - q) - n, n);
    }
  }

  // ----- what the ring holds while it is written -----

  /** Every entry of the stream carries the cycle state of its position. */
  ghost predicate Stamped(s: seq<Trb>, n: nat)
    requires n > 0
  {
    forall p :: 0 <= p < |s| ==> CycleOf(s[p]) == Cycle(p, n)
  }

  /** An entry of which r words are new. */
  function Mixed(before: Trb, after: Trb, r: nat): Trb {
    Trb(if r > 0 then after.w0 else before.w0, if r > 1 then after.w1 else before.w1,
        if r > 2 then after.w2 else before.w2, if r > 3 then after.w3 else before.w3)
  }

  /** What was in the slot of position p one lap before. */
  function Before(s: seq<Trb>, n: nat, p: nat): Trb
    requires p <= |s| + n
  {
    if n <= p < |s| + n then s[p - n] else ZERO
  }

  /** The ring after all entries before position p, and r words of the one at p, have been written. */
  ghost predicate Holds(mem: seq<Trb>, n: nat, s: seq<Trb>, p: nat, r: nat) {
    && |mem| == n > 0 && p <= |s| && r < 4 && (r > 0 ==> p < |s|)
    && (forall q: nat | q < p < q + n :: mem[Slot(q, n)] == s[q])
    && (forall i: nat | p < i < n :: mem[i] == ZERO)
    && mem[Slot(p, n)] == if r == 0 then Before(s, n, p) else Mixed(Before(s, n, p), s[p], r)
  }

  /** The next word is written. */
  lemma WordWritten(mem: seq<Trb>, n: nat, s: seq<Trb>, p: nat, r: nat)
    requires Holds(mem, n, s, p, r) && p < |s|
    ensures var i := Slot(p, n);
            Holds(mem[i := SetWord(mem[i], r, Word(s[p], r))], n, s, if r == 3 then p + 1 else p, if r == 3 then 0 else r + 1)
  {
    var i := Slot(p, n);
    var mem' := mem[i := SetWord(mem[i], r, Word(s[p], r))];
    assert mem'[i] == Mixed(Before(s, n, p), s[p], r + 1);
    forall q: nat | q < p < q + n ensures mem'[Slot(q, n)] == s[q] {
      SlotsDiffer(p, q, n);
    }
    forall j: nat | p < j < n ensures mem'[j] == ZERO {
      FirstLap(p, n);
    }
    if r == 3 {
      LapDone(mem', n, s, p);
    }
  }

  lemma LapDone(mem: seq<Trb>, n: nat, s: seq<Trb>, p: nat)
    requires |mem| == n > 0 && p < |s| && mem[Slot(p, n)] == s[p]
    requires forall q: nat | q < p < q + n :: mem[Slot(q, n)] == s[q]
    requires forall i: nat | p < i < n :: mem[i] == ZERO
    ensures Holds(mem, n, s, p + 1, 0)
  {
    if p + 1 >= n {
      LapLater(p + 1 - n, n);
    } else {
      FirstLap(p + 1, n);
    }
  }

  /** The consumer at position c sees exactly what it should: an entry that is complete, or none. */
  lemma Seen(mem: seq<Trb>, n: nat, s: seq<Trb>, p: nat, r: nat, c: nat)
    requires Holds(mem, n, s, p, r) && Stamped(s, n) && c <= p && (if r == 0 then p - c <= n else p - c < n)
    ensures CycleOf(mem[Slot(c, n)]) == Cycle(c, n) <==> c < p
    ensures c < p ==> mem[Slot(c, n)] == s[c]
  {
    if c < p && p - c == n {
      LapLater(c, n);
    } else if c == p {
      if p >= n {
        LapLater(p - n, n);
      } else {
        FirstLap(p, n);
      }
    }
  }

  /** One word too early: with a full ring the first word of the next entry goes over the one that the consumer is about
      to read, which it then takes for complete. */
  lemma TornEntry(mem: seq<Trb>, n: nat, s: seq<Trb>, p: nat, c: nat)
    requires Holds(mem, n, s, p, 0) && Stamped(s, n) && p < |s| && p - c == n
    ensures var i := Slot(p, n); var mem' := mem[i := SetWord(mem[i], 0, s[p].w0)];
            && CycleOf(mem'[Slot(c, n)]) == Cycle(c, n) && mem'[Slot(c, n)] == s[c].(w0 := s[p].w0)
  {
    LapLater(c, n);
  }

  /** After its fourth word the consumer finds no entry at all, and waits for ever. */
  lemma LostEntry(mem: seq<Trb>, n: nat, s: seq<Trb>, p: nat, c: nat)
    requires Holds(mem, n, s, p + 1, 0) && Stamped(s, n) && p < |s| && p - c == n
    ensures CycleOf(mem[Slot(c, n)]) != Cycle(c, n)
  {
    LapLater(c, n);
    if p + 1 >= n && n == 1 {
      LapLater(p, n);
    }
  }
}
