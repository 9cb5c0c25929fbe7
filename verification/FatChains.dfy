/** Cluster chains of a FAT32 volume: the links kept in the FAT, and how chains are made and grown. */
module FatChains {
  const FREE: nat := 0
  const FIRST_CLUSTER: nat := 2
  /** Entries from here on mark the last cluster of a chain. */
  const END_MARKS: nat := 0x0ffffff8
  const END_OF_CHAIN: nat := 0x0fffffff

  predicate IsEndOfClusterChain(entry: nat) {
    entry >= END_MARKS
  }

  function Last(c: seq<nat>): nat
    requires c != []
  {
    c[|c| - 1]
  }

  /** c lists the clusters of one chain, from its first cluster to its end mark. */
  ghost predicate Chain(fat: seq<nat>, c: seq<nat>) {
    && c != [] && |fat| <= END_MARKS
    && (forall i :: 0 <= i < |c| ==> FIRST_CLUSTER <= c[i] < |fat|)
    && (forall i, j | 0 <= i && j < |c| && j == i + 1 :: fat[c[i]] == c[j])
    && IsEndOfClusterChain(fat[Last(c)])
  }

  lemma ChainStep(fat: seq<nat>, c: seq<nat>, i: nat)
    requires Chain(fat, c) && i < |c|
    ensures FIRST_CLUSTER <= c[i] < |fat|
    ensures if IsEndOfClusterChain(fat[c[i]]) then i == |c| - 1 && c[i] == Last(c) else i < |c| - 1 && c[i + 1] == fat[c[i]]
  {
    assert i < |c| - 1 ==> fat[c[i]] == c[i + 1];
  }

  /** Once two chains meet they stay together, up to the common end. */
  lemma {:induction false} ChainsMeet(fat: seq<nat>, c: seq<nat>, d: seq<nat>, i: nat, j: nat)
    requires Chain(fat, c) && Chain(fat, d) && i < |c| && j < |d| && c[i] == d[j]
    ensures c[i..] == d[j..]
    decreases |c| - i
  {
    ChainStep(fat, c, i);
    ChainStep(fat, d, j);
    if i < |c| - 1 {
      ChainsMeet(fat, c, d, i + 1, j + 1);
      assert c[i..] == [c[i]] + c[i + 1..] && d[j..] == [d[j]] + d[j + 1..];
    }
  }

  /** A chain never visits a cluster twice: chains are acyclic. */
  lemma ChainDistinct(fat: seq<nat>, c: seq<nat>, i: nat, j: nat)
    requires Chain(fat, c) && i < |c| && j < |c| && c[i] == c[j]
    ensures i == j
  {
    ChainsMeet(fat, c, c, i, j);
    assert |c[i..]| == |c[j..]|;
  }

  lemma ChainAcyclic(fat: seq<nat>, c: seq<nat>)
    requires Chain(fat, c)
    ensures forall i, j | 0 <= i < |c| && 0 <= j < |c| && c[i] == c[j] :: i == j
  {
    forall i, j | 0 <= i < |c| && 0 <= j < |c| && c[i] == c[j] ensures i == j {
      ChainDistinct(fat, c, i, j);
    }
  }

  /** The first cluster, which a directory entry holds, fixes the whole chain. */
  lemma ChainUnique(fat: seq<nat>, c: seq<nat>, d: seq<nat>)
    requires Chain(fat, c) && Chain(fat, d) && c[0] == d[0]
    ensures c == d
  {
    ChainsMeet(fat, c, d, 0, 0);
    assert c[0..] == c && d[0..] == d;
  }

  // ----- free clusters -----

  /** The free clusters from number i on, in ascending order. */
  ghost function FreeFrom(fat: seq<nat>, i: nat): seq<nat>
    decreases |fat| - i
  {
    if i >= |fat| then [] else (if fat[i] == FREE then [i] else []) + FreeFrom(fat, i + 1)
  }

  ghost function Free(fat: seq<nat>): seq<nat> {
    FreeFrom(fat, FIRST_CLUSTER)
  }

  lemma FreeIs(fat: seq<nat>)
    ensures FreeFrom(fat, FIRST_CLUSTER) == Free(fat)
  {
  }

  ghost predicate Ascending(s: seq<nat>) {
    forall i, j :: 0 <= i < j < |s| ==> s[i] < s[j]
  }

  /** Every free cluster is listed, in ascending order and hence once. */
  lemma {:induction false} FreeExact(fat: seq<nat>, i: nat)
    ensures forall x: nat :: x in FreeFrom(fat, i) <==> i <= x < |fat| && fat[x] == FREE
    ensures Ascending(FreeFrom(fat, i))
    decreases |fat| - i
  {
    if i < |fat| {
      FreeExact(fat, i + 1);
      var all, rest := FreeFrom(fat, i), FreeFrom(fat, i + 1);
      assert forall k :: 0 <= k < |rest| ==> rest[k] in rest;
      if fat[i] == FREE {
        assert all == [i] + rest;
        assert forall k :: 0 < k < |all| ==> all[k] == rest[k - 1];
      }
    }
  }

  /** The elements of two ascending lists with the same elements are in the same places. */
  lemma {:induction false} AscendingUnique(a: seq<nat>, b: seq<nat>)
    requires Ascending(a) && Ascending(b) && forall x: nat :: x in a <==> x in b
    ensures a == b
  {
    assert (a != [] ==> a[0] in b) && (b != [] ==> b[0] in a);
    if a != [] {
      assert a[0] in b && b[0] in a;
      assert a[0] == b[0];
      forall x: nat ensures x in a[1..] <==> x in b[1..] {
        assert x in a[1..] <==> x in a && x != a[0];
        assert x in b[1..] <==> x in b && x != b[0];
      }
      AscendingUnique(a[1..], b[1..]);
      assert a == [a[0]] + a[1..] && b == [b[0]] + b[1..];
    }
  }

  /** Clusters of a chain are not free. */
  lemma ChainTaken(fat: seq<nat>, c: seq<nat>, x: nat)
    requires Chain(fat, c) && x in c
    ensures x < |fat| && fat[x] != FREE && x !in Free(fat)
  {
    var k :| 0 <= k < |c| && c[k] == x;
    if k < |c| - 1 {
      assert fat[c[k]] == c[k + 1];
    }
    FreeExact(fat, FIRST_CLUSTER);
  }

  // ----- growing a chain -----

  /** Chain c has grown by the clusters taken; nothing else in the FAT has changed. */
  ghost predicate Extended(fat: seq<nat>, fat': seq<nat>, c: seq<nat>, taken: seq<nat>) {
    && c != [] && |fat'| == |fat| && Chain(fat', c + taken) && fat'[Last(c + taken)] == END_OF_CHAIN
    && (forall x | 0 <= x < |fat| && x != Last(c) && x !in taken :: fat'[x] == fat[x])
  }

  /** While c grows: the clusters taken so far are linked, the last of them does not end the chain yet. */
  ghost predicate Growing(fat: seq<nat>, fat': seq<nat>, c: seq<nat>, taken: seq<nat>) {
    && c != [] && |fat'| == |fat|
    && (forall i :: 0 <= i < |c + taken| ==> FIRST_CLUSTER <= (c + taken)[i] < |fat|)
    && (forall i, j | 0 <= i && j < |c + taken| && j == i + 1 :: fat'[(c + taken)[i]] == (c + taken)[j])
    && (forall i | 0 <= i < |c + taken| - 1 :: (c + taken)[i] != Last(c + taken))
    && (forall x | 0 <= x < |fat| && x != Last(c) && x !in taken :: fat'[x] == fat[x])
    && (taken == [] ==> fat' == fat)
  }

  lemma GrowStarts(fat: seq<nat>, c: seq<nat>)
    requires Chain(fat, c)
    ensures Growing(fat, fat, c, [])
  {
    ChainAcyclic(fat, c);
    assert c + [] == c;
  }

  lemma GrowNext(fat: seq<nat>, fat': seq<nat>, c: seq<nat>, taken: seq<nat>, x: nat)
    requires Growing(fat, fat', c, taken) && FIRST_CLUSTER <= x < |fat| && x !in c + taken
    ensures Last(c + taken) < |fat| && Growing(fat, fat'[Last(c + taken) := x], c, taken + [x])
  {
    var all, more := c + taken, c + (taken + [x]);
    var last := Last(all);
    assert more == all + [x] && last == if taken == [] then Last(c) else Last(taken);
    assert forall i :: 0 <= i < |all| ==> more[i] == all[i] && all[i] in all;
    var after := fat'[last := x];
    forall i, j | 0 <= i && j < |more| && j == i + 1 ensures after[more[i]] == more[j] {
      if j < |all| {
        assert fat'[all[i]] == all[j] && all[i] != last;
      }
    }
  }

  lemma GrowEnds(fat: seq<nat>, fat': seq<nat>, c: seq<nat>, taken: seq<nat>)
    requires Growing(fat, fat', c, taken) && Chain(fat, c)
    ensures Last(c + taken) < |fat| && Extended(fat, fat'[Last(c + taken) := END_OF_CHAIN], c, taken)
  {
    assert Last(c + taken) == if taken == [] then Last(c) else Last(taken);
  }

  /** Where the search stands in the list of free clusters. */
  lemma SearchStep(fat: seq<nat>, k: nat, x: nat)
    requires k < |Free(fat)| && FreeFrom(fat, x) == Free(fat)[k..] && x >= FIRST_CLUSTER
    ensures x < |fat| && x !in Free(fat)[..k]
    ensures if fat[x] == FREE
            then Free(fat)[..k] + [x] == Free(fat)[..k + 1] && FreeFrom(fat, x + 1) == Free(fat)[k + 1..]
            else FreeFrom(fat, x + 1) == Free(fat)[k..]
  {
    var free := Free(fat);
    FreeExact(fat, FIRST_CLUSTER);
    assert free[k..][0] == free[k];
    if fat[x] == FREE {
      assert free[k] == x;
      assert free[k..] == [x] + free[k + 1..];
    }
  }

  /** The search sees the FAT as it was, although the chain is half linked. */
  lemma SearchSees(fat: seq<nat>, fat': seq<nat>, c: seq<nat>, taken: seq<nat>, x: nat)
    requires Chain(fat, c) && Growing(fat, fat', c, taken) && x < |fat| && x !in taken
    ensures fat'[x] == FREE <==> fat[x] == FREE
    ensures fat[x] == FREE ==> x !in c + taken
  {
    ChainTaken(fat, c, Last(c));
    if x == Last(c) && taken != [] {
      assert (c + taken)[|c| - 1] == x && (c + taken)[|c|] == taken[0];
    }
    if fat[x] == FREE && x in c {
      ChainTaken(fat, c, x);
    }
  }

  /** The loop that grows chain c: k clusters are taken, the search has come to x, last is the last one linked. */
  ghost predicate Extending(fat: seq<nat>, fat': seq<nat>, c: seq<nat>, k: nat, x: nat, last: nat) {
    && Chain(fat, c) && k <= |Free(fat)| && FreeFrom(fat, x) == Free(fat)[k..] && x >= FIRST_CLUSTER
    && Growing(fat, fat', c, Free(fat)[..k]) && last == Last(c + Free(fat)[..k])
  }

  lemma ExtendingStarts(fat: seq<nat>, c: seq<nat>)
    requires Chain(fat, c)
    ensures Extending(fat, fat, c, 0, FIRST_CLUSTER, Last(c))
  {
    GrowStarts(fat, c);
    assert Free(fat)[..0] == [] && c + [] == c;
  }

  lemma ExtendingSteps(fat: seq<nat>, fat': seq<nat>, c: seq<nat>, k: nat, x: nat, last: nat)
    requires Extending(fat, fat', c, k, x, last) && k < |Free(fat)|
    ensures x < |fat| == |fat'| && last < |fat|
    ensures if fat'[x] == FREE then Extending(fat, fat'[last := x], c, k + 1, x + 1, x)
                               else Extending(fat, fat', c, k, x + 1, last)
  {
    var taken := Free(fat)[..k];
    SearchStep(fat, k, x);
    SearchSees(fat, fat', c, taken, x);
    if fat'[x] == FREE {
      hide Chain, Growing, Free, FreeFrom;
      GrowNext(fat, fat', c, taken, x);
      assert Last(c + (taken + [x])) == x;
    }
  }

  lemma ExtendingEnds(fat: seq<nat>, fat': seq<nat>, c: seq<nat>, k: nat, x: nat, last: nat)
    requires Extending(fat, fat', c, k, x, last)
    ensures |fat'| == |fat| && last < |fat| && last == Last(c + Free(fat)[..k])
    ensures Extended(fat, fat'[last := END_OF_CHAIN], c, Free(fat)[..k])
  {
    GrowEnds(fat, fat', c, Free(fat)[..k]);
  }

  /** What is taken is no longer free, and everything else that was free still is. */
  lemma ExtendedFree(fat: seq<nat>, fat': seq<nat>, c: seq<nat>, n: nat)
    requires Chain(fat, c) && n <= |Free(fat)| && Extended(fat, fat', c, Free(fat)[..n])
    ensures Free(fat') == Free(fat)[n..]
  {
    var free := Free(fat);
    var taken := free[..n];
    FreeExact(fat, FIRST_CLUSTER);
    FreeExact(fat', FIRST_CLUSTER);
    forall x: nat ensures x in Free(fat') <==> x in free[n..] {
      assert x in free <==> x in taken || x in free[n..];
      if x in taken || x == Last(c) {
        ChainTaken(fat', c + taken, x);
        ChainTaken(fat, c, Last(c));
      }
    }
    AscendingUnique(Free(fat'), free[n..]);
  }

  /** Any chain apart from the one that grows is left as it is, and stays apart from it. */
  lemma ExtendedOther(fat: seq<nat>, fat': seq<nat>, c: seq<nat>, n: nat, d: seq<nat>)
    requires Chain(fat, c) && n <= |Free(fat)| && Extended(fat, fat', c, Free(fat)[..n])
    requires Chain(fat, d) && forall x <- d :: x !in c
    ensures Chain(fat', d) && forall x <- d :: x !in c + Free(fat)[..n] && fat'[x] == fat[x]
  {
    forall x | x in d ensures x !in c + Free(fat)[..n] && fat'[x] == fat[x] {
      ChainTaken(fat, d, x);
      assert Last(c) in c;
    }
    assert forall i :: 0 <= i < |d| ==> d[i] in d;
  }

  /** All the chains of a volume: each well formed, no two sharing a cluster. */
  ghost predicate Chains(fat: seq<nat>, chains: seq<seq<nat>>) {
    && (forall i :: 0 <= i < |chains| ==> Chain(fat, chains[i]))
    && (forall i, j, x | 0 <= i < |chains| && 0 <= j < |chains| && x in chains[i] && x in chains[j] :: i == j)
  }

  /** Growing one chain of a volume keeps all chains well formed and apart. */
  lemma ExtendedChains(fat: seq<nat>, fat': seq<nat>, chains: seq<seq<nat>>, k: nat, n: nat)
    requires Chains(fat, chains) && k < |chains| && n <= |Free(fat)|
    requires Extended(fat, fat', chains[k], Free(fat)[..n])
    ensures Chains(fat', chains[k := chains[k] + Free(fat)[..n]])
  {
    var c, after := chains[k], chains[k := chains[k] + Free(fat)[..n]];
    forall i | 0 <= i < |chains| && i != k
      ensures Chain(fat', chains[i]) && forall x <- chains[i] :: x !in after[k]
    {
      ExtendedOther(fat, fat', c, n, chains[i]);
    }
  }

  /** A new chain of n free clusters on its own (n is at least 1). */
  ghost predicate Allocated(fat: seq<nat>, fat': seq<nat>, taken: seq<nat>) {
    && |fat'| == |fat| && Chain(fat', taken) && fat'[Last(taken)] == END_OF_CHAIN
    && (forall x | 0 <= x < |fat| && x !in taken :: fat'[x] == fat[x])
  }

  lemma AllocatedOther(fat: seq<nat>, fat': seq<nat>, n: nat, d: seq<nat>)
    requires 0 < n <= |Free(fat)| && Allocated(fat, fat', Free(fat)[..n]) && Chain(fat, d)
    ensures Chain(fat', d) && forall x <- d :: x !in Free(fat)[..n] && fat'[x] == fat[x]
  {
    forall x | x in d ensures x !in Free(fat)[..n] && fat'[x] == fat[x] {
      ChainTaken(fat, d, x);
    }
    assert forall i :: 0 <= i < |d| ==> d[i] in d;
  }

  lemma AllocatedChains(fat: seq<nat>, fat': seq<nat>, chains: seq<seq<nat>>, n: nat)
    requires Chains(fat, chains) && 0 < n <= |Free(fat)| && Allocated(fat, fat', Free(fat)[..n])
    ensures Chains(fat', chains + [Free(fat)[..n]])
  {
    forall i | 0 <= i < |chains|
      ensures Chain(fat', chains[i]) && forall x <- chains[i] :: x !in Free(fat)[..n]
    {
      AllocatedOther(fat, fat', n, chains[i]);
    }
  }

  lemma AllocatedFree(fat: seq<nat>, fat': seq<nat>, n: nat)
    requires 0 < n <= |Free(fat)| && Allocated(fat, fat', Free(fat)[..n])
    ensures Free(fat') == Free(fat)[n..]
  {
    var free := Free(fat);
    FreeExact(fat, FIRST_CLUSTER);
    FreeExact(fat', FIRST_CLUSTER);
    forall x: nat ensures x in Free(fat') <==> x in free[n..] {
      assert x in free <==> x in free[..n] || x in free[n..];
      if x in free[..n] {
        ChainTaken(fat', free[..n], x);
      }
    }
    AscendingUnique(Free(fat'), free[n..]);
  }

  lemma AllocateOne(fat: seq<nat>, x: nat)
    requires 0 < |Free(fat)| && FreeFrom(fat, x) == Free(fat)[0..] && x >= FIRST_CLUSTER && |fat| <= END_MARKS
    requires x < |fat| && fat[x] == FREE
    ensures Allocated(fat, fat[x := END_OF_CHAIN], Free(fat)[..1]) && Free(fat)[..1] == [x]
    ensures Chain(fat[x := END_OF_CHAIN], [x]) && Free(fat[x := END_OF_CHAIN]) == Free(fat)[1..]
  {
    hide *;
    SearchStep(fat, 0, x);
    FirstOf(Free(fat), x);
    OneTaken(fat, x);
    AllocatedFree(fat, fat[x := END_OF_CHAIN], 1);
  }

  lemma FirstOf(free: seq<nat>, x: nat)
    requires free != [] && free[..0] + [x] == free[..1]
    ensures free[..1] == [x]
  {
  }

  lemma OneTaken(fat: seq<nat>, x: nat)
    requires FIRST_CLUSTER <= x < |fat| <= END_MARKS
    ensures Allocated(fat, fat[x := END_OF_CHAIN], [x]) && Chain(fat[x := END_OF_CHAIN], [x])
  {
  }

  /** Making one cluster a chain and growing it makes the whole chain. */
  lemma AllocatedThenExtended(fat: seq<nat>, f1: seq<nat>, f2: seq<nat>, n: nat)
    requires 0 < n <= |Free(fat)| && Allocated(fat, f1, Free(fat)[..1])
    requires Free(f1) == Free(fat)[1..] && Extended(f1, f2, Free(fat)[..1], Free(f1)[..n - 1])
    ensures Allocated(fat, f2, Free(fat)[..n])
  {
    assert Free(fat)[..1] + Free(fat)[1..][..n - 1] == Free(fat)[..n];
  }

  /** The mounted volume image: its FAT, and the bytes of its clusters by cluster number. */
  class Volume {
    const fat: array<nat>
    const data: array<seq<bv8>>
    const bytesPerCluster: nat

    ghost predicate Valid()
      reads this, fat, data
    {
      && bytesPerCluster > 0 && fat.Length == data.Length <= END_MARKS
      && forall c :: 0 <= c < data.Length ==> |data[c]| == bytesPerCluster
    }

    constructor (fat: array<nat>, data: array<seq<bv8>>, bytesPerCluster: nat)
      ensures this.fat == fat && this.data == data && this.bytesPerCluster == bytesPerCluster
    {
      this.fat, this.data, this.bytesPerCluster := fat, data, bytesPerCluster;
    }

    /** The cluster after one of a chain, or the end-of-chain number. */
    method NextCluster(cluster: nat, ghost c: seq<nat>, ghost i: nat) returns (next: nat)
      requires Chain(fat[..], c) && i < |c| && cluster == c[i]
      ensures next == if i < |c| - 1 then c[i + 1] else END_OF_CHAIN
      ensures next == if fat[cluster] >= 0x0ffffff8 then 0x0fffffff else fat[cluster]
    {
      next := fat[cluster];
      assert i < |c| - 1 ==> fat[..][c[i]] == c[i + 1];
      if IsEndOfClusterChain(next) {
        next := END_OF_CHAIN;
      }
    }

    /** The first loop of ExtendCluster: the last cluster of the chain that any of its clusters names. */
    method FindLast(eocCluster: nat, ghost c: seq<nat>) returns (current: nat)
      requires Chain(fat[..], c) && eocCluster in c
      ensures current == Last(c)
    {
      current := eocCluster;
      ghost var i: nat :| i < |c| && c[i] == eocCluster;
      ChainStep(fat[..], c, i);
      while !IsEndOfClusterChain(fat[current])
        invariant i < |c| && current == c[i] < fat.Length
        decreases |c| - i
      {
        ChainStep(fat[..], c, i);
        current := fat[current];
        i := i + 1;
        ChainStep(fat[..], c, i);
      }
      ChainStep(fat[..], c, i);
    }

    /** Grows the chain that any of its clusters names by the n lowest-numbered free clusters. */
    method ExtendCluster(eocCluster: nat, n: nat, ghost c: seq<nat>) returns (current: nat)
      requires Chain(fat[..], c) && eocCluster in c && n <= |Free(fat[..])|
      modifies fat
      ensures Extended(old(fat[..]), fat[..], c, Free(old(fat[..]))[..n])
      ensures current == Last(c + Free(old(fat[..]))[..n])
    {
      ghost var was := fat[..];
      current := FindLast(eocCluster, c);
      hide *;
      ExtendingStarts(was, c);
      var numAllocated, candidate := 0, FIRST_CLUSTER;
      while numAllocated < n
        invariant numAllocated <= n && Extending(was, fat[..], c, numAllocated, candidate, current)
        decreases fat.Length - candidate
      {
        ghost var before := fat[..];
        ExtendingSteps(was, before, c, numAllocated, candidate, current);
        if fat[candidate] == FREE {
          fat[current] := candidate;
          assert fat[..] == before[current := candidate];
          current := candidate;
          numAllocated := numAllocated + 1;
        }
        candidate := candidate + 1;
      }
      ghost var linked := fat[..];
      ExtendingEnds(was, linked, c, n, candidate, current);
      fat[current] := END_OF_CHAIN;
      assert fat[..] == linked[current := END_OF_CHAIN];
    }

    /** The search loop of AllocateClusterChain: the lowest-numbered free cluster. */
    method FindFree() returns (cluster: nat)
      requires 0 < |Free(fat[..])|
      ensures FIRST_CLUSTER <= cluster < fat.Length && fat[cluster] == FREE
      ensures FreeFrom(fat[..], cluster) == Free(fat[..])[0..]
    {
      ghost var was := fat[..];
      cluster := FIRST_CLUSTER;
      FreeIs(was);
      hide *;
      SearchStep(was, 0, cluster);
      while fat[cluster] != FREE
        invariant FIRST_CLUSTER <= cluster < fat.Length && FreeFrom(was, cluster) == Free(was)[0..]
        decreases fat.Length - cluster
      {
        SearchStep(was, 0, cluster);
        cluster := cluster + 1;
        SearchStep(was, 0, cluster);
      }
    }

    /** A new chain of max(n, 1) clusters, the lowest-numbered free ones. */
    method AllocateClusterChain(n: nat) returns (firstCluster: nat)
      requires fat.Length <= END_MARKS && 0 < |Free(fat[..])| && n <= |Free(fat[..])|
      modifies fat
      ensures Allocated(old(fat[..]), fat[..], Free(old(fat[..]))[..if n == 0 then 1 else n])
      ensures firstCluster == Free(old(fat[..]))[0]
    {
      hide *;
      ghost var was := fat[..];
      firstCluster := FindFree();
      AllocateOne(was, firstCluster);
      fat[firstCluster] := END_OF_CHAIN;
      ghost var made := fat[..];
      assert made == was[firstCluster := END_OF_CHAIN];
      if n > 1 {
        var _ := ExtendCluster(firstCluster, n - 1, [firstCluster]);
        AllocatedThenExtended(was, made, fat[..], n);
      }
    }
  }
}
