/** Where the bytes written to a file land on its cluster chain. */
module FatPlacement {
  import opened FatChains

  /** The contents of a volume: its FAT, and the bytes of its clusters. */
  datatype Disk = Disk(fat: seq<nat>, data: seq<seq<bv8>>)

  /** A file being written: its chain, the places in the chain that got data, in order, the offset in the last of
      them, and all bytes written so far. */
  datatype Cursor = Cursor(clusters: seq<nat>, spots: seq<nat>, off: nat, written: seq<bv8>)

  ghost predicate Blocks(data: seq<seq<bv8>>, b: nat) {
    b > 0 && forall c :: 0 <= c < |data| ==> |data[c]| == b
  }

  ghost predicate Within(data: seq<seq<bv8>>, cs: seq<nat>) {
    forall i :: 0 <= i < |cs| ==> cs[i] < |data|
  }

  /** The bytes of a list of clusters, end to end. */
  ghost function Concat(data: seq<seq<bv8>>, cs: seq<nat>): seq<bv8>
    requires Within(data, cs)
  {
    if cs == [] then [] else Concat(data, cs[..|cs| - 1]) + data[Last(cs)]
  }

  lemma {:induction false} ConcatLength(data: seq<seq<bv8>>, cs: seq<nat>, b: nat)
    requires Within(data, cs) && Blocks(data, b)
    ensures |Concat(data, cs)| == |cs| * b
  {
    if cs != [] {
      ConcatLength(data, cs[..|cs| - 1], b);
      assert (|cs| - 1) * b + b == |cs| * b;
    }
  }

  lemma {:induction false} ConcatAppend(data: seq<seq<bv8>>, cs: seq<nat>, ds: seq<nat>)
    requires Within(data, cs) && Within(data, ds)
    ensures Within(data, cs + ds) && Concat(data, cs + ds) == Concat(data, cs) + Concat(data, ds)
  {
    WithinBoth(data, cs, ds);
    hide Within;
    if ds == [] {
      assert cs + ds == cs;
    } else {
      var front, x := ds[..|ds| - 1], Last(ds);
      WithinFront(data, ds);
      ConcatAppend(data, cs, front);
      FrontOfBoth(cs, ds);
      ConcatLast(data, cs + ds);
      ConcatLast(data, ds);
      hide Concat;
      Regrouped(Concat(data, cs), Concat(data, front), data[x]);
    }
  }

  lemma WithinBoth(data: seq<seq<bv8>>, cs: seq<nat>, ds: seq<nat>)
    requires Within(data, cs) && Within(data, ds)
    ensures Within(data, cs + ds)
  {
  }

  lemma WithinFront(data: seq<seq<bv8>>, cs: seq<nat>)
    requires Within(data, cs) && cs != []
    ensures Within(data, cs[..|cs| - 1]) && Last(cs) < |data|
  {
  }

  lemma FrontOfBoth(cs: seq<nat>, ds: seq<nat>)
    requires ds != []
    ensures (cs + ds)[..|cs + ds| - 1] == cs + ds[..|ds| - 1] && Last(cs + ds) == Last(ds)
  {
  }

  lemma ConcatLast(data: seq<seq<bv8>>, cs: seq<nat>)
    requires Within(data, cs) && cs != []
    ensures Within(data, cs[..|cs| - 1]) && Last(cs) < |data|
    ensures Concat(data, cs) == Concat(data, cs[..|cs| - 1]) + data[Last(cs)]
  {
  }

  lemma Regrouped(a: seq<bv8>, b: seq<bv8>, c: seq<bv8>)
    ensures (a + b) + c == a + (b + c)
  {
  }

  lemma {:induction false} ConcatSame(data: seq<seq<bv8>>, data': seq<seq<bv8>>, cs: seq<nat>)
    requires Within(data, cs) && Within(data', cs)
    requires forall i :: 0 <= i < |cs| ==> data'[cs[i]] == data[cs[i]]
    ensures Concat(data', cs) == Concat(data, cs)
  {
    if cs != [] {
      ConcatSame(data, data', cs[..|cs| - 1]);
    }
  }

  lemma ConcatSplit(data: seq<seq<bv8>>, cs: seq<nat>, q: nat)
    requires Within(data, cs) && q < |cs|
    ensures Concat(data, cs) == Concat(data, cs[..q]) + (data[cs[q]] + Concat(data, cs[q + 1..]))
  {
    assert cs == cs[..q] + ([cs[q]] + cs[q + 1..]);
    ConcatAppend(data, cs[..q], [cs[q]] + cs[q + 1..]);
    ConcatAppend(data, [cs[q]], cs[q + 1..]);
    assert [cs[q]][..0] == [] && Concat(data, [cs[q]]) == data[cs[q]];
  }

  lemma Middle(a: seq<bv8>, m: seq<bv8>, r: seq<bv8>, s: nat, off: nat, n: nat)
    requires s == |a| && off + n <= |m|
    ensures (a + (m + r))[s + off..s + off + n] == m[off..off + n] && s + off + n <= |a + (m + r)|
  {
  }

  /** Byte ranges inside one cluster, seen in the file. */
  lemma ConcatSlice(data: seq<seq<bv8>>, cs: seq<nat>, b: nat, q: nat, off: nat, n: nat)
    requires Within(data, cs) && Blocks(data, b) && q < |cs| && off + n <= b
    ensures q * b + off + n <= |Concat(data, cs)| == |cs| * b
    ensures Concat(data, cs)[q * b + off..q * b + off + n] == data[cs[q]][off..off + n]
  {
    var front, rest := cs[..q], cs[q + 1..];
    ConcatSplit(data, cs, q);
    ConcatLength(data, front, b);
    ConcatLength(data, cs, b);
    ConcatLength(data, rest, b);
    hide Concat;
    var s := q * b;
    assert |Concat(data, front)| == s;
    Middle(Concat(data, front), data[cs[q]], Concat(data, rest), s, off, n);
  }

  // ----- how far a write goes -----

  /** The number of clusters that hold so many bytes. */
  function NumCluster(bytes: nat, b: nat): nat
    requires b > 0
  {
    (bytes + b - 1) / b
  }

  lemma NumClusterOf(full: nat, part: nat, b: nat)
    requires b > 0 && 0 < part <= b
    ensures NumCluster(full * b + part, b) == full + 1
  {
    Divide(full * b + part + b - 1, full + 1, part - 1, b);
  }

  lemma Divide(x: nat, q: nat, r: nat, b: nat)
    requires x == q * b + r && r < b
    ensures x / b == q && x % b == r
  {
    var d, m := x / b, x % b;
    assert (d - q) * b == r - m;
    SmallMultiple(d - q, b);
  }

  lemma SmallMultiple(z: int, b: int)
    requires -b < z * b < b
    ensures z == 0
  {
    assert z >= 1 ==> z * b >= b;
    assert z <= -1 ==> z * b <= -b;
  }

  lemma NumClusterBelow(bytes: nat, less: nat, b: nat)
    requires b > 0 && less * b < bytes
    ensures NumCluster(bytes - less * b, b) == NumCluster(bytes, b) - less > 0
  {
    var x := bytes - less * b;
    var q, r := (x + b - 1) / b, (x + b - 1) % b;
    assert bytes + b - 1 == (q + less) * b + r;
    Divide(bytes + b - 1, q + less, r, b);
    assert q == 0 ==> q * b == 0;
  }

  /** How many clusters a write needs past the end of the chain, of length n, from its place p and offset. */
  function Growth(len: nat, n: nat, p: nat, off: nat, b: nat): nat
    requires b > 0 && p < n && off <= b
  {
    var room := (n - p) * b - off;
    if len <= room then 0 else NumCluster(len - room, b)
  }

  /** k + (k - 1) + ..., t terms: the clusters allocated after t growing steps of a write that needs k. */
  function Steps(k: nat, t: nat): nat {
    if t == 0 then 0 else Steps(k, t - 1) + (if t <= k then k - (t - 1) else 0)
  }

  lemma {:induction false} StepsTotal(k: nat, t: nat)
    requires t <= k
    ensures 2 * Steps(k, t) == t * (2 * k - t + 1)
  {
    if t > 0 {
      StepsTotal(k, t - 1);
      assert (t - 1) * (2 * k - (t - 1) + 1) + 2 * (k - (t - 1)) == t * (2 * k - t + 1);
    }
  }

  function Triangle(k: nat): nat {
    k * (k + 1) / 2
  }

  lemma StepsAll(k: nat)
    ensures Steps(k, k) == Triangle(k) && (k > 0 ==> Triangle(k) > 0)
  {
    StepsTotal(k, k);
    StepsFast(k, k);
  }

  lemma {:induction false} StepsMonotonic(k: nat, t: nat, u: nat)
    requires t <= u
    ensures Steps(k, t) <= Steps(k, u)
    decreases u
  {
    if t < u {
      StepsMonotonic(k, t, u - 1);
    }
  }

  /** A write that needs more than one new cluster allocates more clusters than it fills. */
  lemma {:induction false} StepsFast(k: nat, t: nat)
    requires t <= k
    ensures t <= Steps(k, t) && (k <= 1 ==> Steps(k, t) == t) && (k > 1 && t > 0 ==> Steps(k, t) > t)
  {
    if t > 0 {
      StepsFast(k, t - 1);
      assert t == 1 ==> Steps(k, t - 1) == 0;
    }
  }

  /** How many growing steps the first moves from place p of a chain of length n have taken. */
  function Grown(n: nat, p: nat, moved: nat): nat {
    if p + moved < n then 0 else p + moved - n + 1
  }

  /** The place in the chain where the block after j moves from place p goes. */
  function Landing(n: nat, p: nat, k: nat, j: nat): nat
    requires n > 0
  {
    if p + j < n then p + j else n - 1 + Steps(k, p + j - n + 1)
  }

  ghost function Landings(n: nat, p: nat, k: nat, moved: nat): (s: seq<nat>)
    requires n > 0
    ensures |s| == moved
  {
    seq(moved, j requires 0 <= j < moved => Landing(n, p, k, j + 1))
  }

  lemma LandingsNext(n: nat, p: nat, k: nat, moved: nat)
    requires n > 0
    ensures Landings(n, p, k, moved + 1) == Landings(n, p, k, moved) + [Landing(n, p, k, moved + 1)]
  {
  }

  /** Blocks land in chain order, without gaps, exactly when the write needs at most one new cluster. */
  lemma LandingInOrder(n: nat, p: nat, k: nat, j: nat)
    requires p < n && Grown(n, p, j) <= k
    ensures k <= 1 ==> Landing(n, p, k, j) == p + j
    ensures k > 1 && p + j >= n ==> Landing(n, p, k, j) > p + j
  {
    StepsFast(k, Grown(n, p, j));
  }
}
