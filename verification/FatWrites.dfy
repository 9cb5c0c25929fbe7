/** What one call of FileDescriptor::Write does to the volume, and when the file then reads back as written. */
module FatWrites {
  import opened FatChains
  import opened FatPlacement

  /** The clusters at some places of a chain. */
  ghost function At(clusters: seq<nat>, spots: seq<nat>): seq<nat>
    requires forall i :: 0 <= i < |spots| ==> spots[i] < |clusters|
  {
    seq(|spots|, i requires 0 <= i < |spots| => clusters[spots[i]])
  }

  ghost predicate InChain(f: Cursor) {
    f.spots != [] && forall i :: 0 <= i < |f.spots| ==> f.spots[i] < |f.clusters|
  }

  /** The written bytes are those of the clusters at the visited places, the last of them up to the offset. */
  ghost predicate Placed(data: seq<seq<bv8>>, b: nat, f: Cursor) {
    && Blocks(data, b) && Within(data, f.clusters)
    && InChain(f) && Ascending(f.spots) && f.off <= b
    && var before := f.spots[..|f.spots| - 1];
       f.written == Concat(data, At(f.clusters, before)) + data[f.clusters[Last(f.spots)]][..f.off]
  }

  ghost predicate Distinct(c: seq<nat>) {
    forall i, j | 0 <= i < |c| && 0 <= j < |c| && c[i] == c[j] :: i == j
  }

  /** The cursor moves on to a later place of its chain once the current cluster is full. */
  lemma PlacedMoves(data: seq<seq<bv8>>, b: nat, f: Cursor, f': Cursor, spot: nat)
    requires Placed(data, b, f) && f.off == b && Last(f.spots) < spot < |f'.clusters| && Within(data, f'.clusters)
    requires f.clusters <= f'.clusters
    requires f' == Cursor(f'.clusters, f.spots + [spot], 0, f.written)
    ensures Placed(data, b, f') && InChain(f')
  {
    var last, before := Last(f.spots), f.spots[..|f.spots| - 1];
    assert f'.spots[..|f'.spots| - 1] == f.spots;
    assert At(f'.clusters, f.spots) == At(f.clusters, before) + [f.clusters[last]];
    ConcatStep(data, At(f.clusters, before), f.clusters[last]);
    assert data[f.clusters[last]][..b] == data[f.clusters[last]];
    assert data[f'.clusters[spot]][..0] == [];
  }

  lemma ConcatStep(data: seq<seq<bv8>>, cs: seq<nat>, c: nat)
    requires Within(data, cs) && c < |data|
    ensures Within(data, cs + [c]) && Concat(data, cs + [c]) == Concat(data, cs) + data[c]
  {
    assert (cs + [c])[..|cs|] == cs;
  }

  /** Copying a chunk into the current cluster appends it to the written bytes. */
  lemma PlacedCopies(data: seq<seq<bv8>>, b: nat, f: Cursor, chunk: seq<bv8>, data': seq<seq<bv8>>)
    requires Placed(data, b, f) && Distinct(f.clusters) && f.off + |chunk| <= b
    requires var c := f.clusters[Last(f.spots)];
             data' == data[c := data[c][..f.off] + chunk + data[c][f.off + |chunk|..]]
    ensures Placed(data', b, f.(off := f.off + |chunk|, written := f.written + chunk))
  {
    var before := f.spots[..|f.spots| - 1];
    var c, cs := f.clusters[Last(f.spots)], At(f.clusters, before);
    assert forall i :: 0 <= i < |cs| ==> cs[i] != c;
    hide Concat;
    ConcatSame(data, data', cs);
    Pasted(data[c], f.off, chunk);
  }

  lemma Pasted(block: seq<bv8>, off: nat, chunk: seq<bv8>)
    requires off + |chunk| <= |block|
    ensures (block[..off] + chunk + block[off + |chunk|..])[..off + |chunk|] == block[..off] + chunk
  {
  }

  // ----- the loop of Write -----

  /** The FAT after the chain has grown by so many free clusters. */
  ghost predicate FatGrown(fat: seq<nat>, fat': seq<nat>, c: seq<nat>, taken: nat) {
    && Chain(fat, c) && taken <= |Free(fat)|
    && if taken == 0 then fat' == fat else Extended(fat, fat', c, Free(fat)[..taken])
  }

  lemma FatGrownFacts(fat: seq<nat>, fat': seq<nat>, c: seq<nat>, s: nat)
    requires FatGrown(fat, fat', c, s)
    ensures |fat'| == |fat| && Chain(fat', c + Free(fat)[..s]) && Free(fat') == Free(fat)[s..]
  {
    assert c + Free(fat)[..0] == c;
    if s > 0 {
      ExtendedFree(fat, fat', c, s);
    }
  }

  lemma FatGrownMore(fat: seq<nat>, fat1: seq<nat>, c: seq<nat>, s: nat, c1: seq<nat>, fat2: seq<nat>, taken: seq<nat>, s2: nat)
    requires FatGrown(fat, fat1, c, s) && s2 <= |Free(fat)| && s < s2 && taken == Free(fat)[s..s2]
    requires c1 == c + Free(fat)[..s] && Extended(fat1, fat2, c1, taken)
    ensures FatGrown(fat, fat2, c, s2) && c1 + taken == c + Free(fat)[..s2]
  {
    var free := Free(fat);
    hide Chain, Free;
    var first := free[..s];
    assert free[..s2] == first + taken;
    assert c + (first + taken) == c1 + taken;
    if s > 0 {
      assert Last(c1) == Last(first);
    } else {
      assert c1 == c && first == [];
    }
  }

  /** Before a write that needs k new clusters: the FAT, the file's chain and the places it was written at. */
  datatype Start = Start(fat: seq<nat>, clusters: seq<nat>, spots: seq<nat>, k: nat)

  ghost predicate Ready(s: Start) {
    s.spots != [] && Last(s.spots) < |s.clusters| && Chain(s.fat, s.clusters) && Steps(s.k, s.k) <= |Free(s.fat)|
  }

  /** After so many moves: where the cursor has been, and how the chain has grown for that. */
  ghost predicate Linked(s: Start, moved: nat, fat: seq<nat>, clusters: seq<nat>, spots: seq<nat>) {
    && Ready(s)
    && var t := Grown(|s.clusters|, Last(s.spots), moved);
    && t <= s.k && FatGrown(s.fat, fat, s.clusters, Steps(s.k, t))
    && clusters == s.clusters + Free(s.fat)[..Steps(s.k, t)]
    && spots == s.spots + Landings(|s.clusters|, Last(s.spots), s.k, moved)
  }

  lemma LinkedStarts(s: Start)
    requires Ready(s)
    ensures Linked(s, 0, s.fat, s.clusters, s.spots)
  {
    assert s.clusters + Free(s.fat)[..0] == s.clusters;
    assert s.spots + Landings(|s.clusters|, Last(s.spots), s.k, 0) == s.spots;
  }

  /** The chain is still one, of distinct clusters, and what it took is gone from the free ones. */
  lemma LinkedChain(s: Start, moved: nat, fat: seq<nat>, clusters: seq<nat>, spots: seq<nat>) returns (t: nat)
    requires Linked(s, moved, fat, clusters, spots)
    ensures Ready(s) && t == Grown(|s.clusters|, Last(s.spots), moved) <= s.k && s.spots <= spots && spots != []
    ensures Last(spots) == Landing(|s.clusters|, Last(s.spots), s.k, moved)
    ensures Steps(s.k, t) <= |Free(s.fat)| && Free(fat) == Free(s.fat)[Steps(s.k, t)..]
    ensures |clusters| == |s.clusters| + Steps(s.k, t) && Chain(fat, clusters) && Distinct(clusters) && |fat| == |s.fat|
  {
    t := Grown(|s.clusters|, Last(s.spots), moved);
    LandingsNext(|s.clusters|, Last(s.spots), s.k, if moved == 0 then 0 else moved - 1);
    hide FatGrown, Chain, Free, Steps, Grown;
    FatGrownFacts(s.fat, fat, s.clusters, Steps(s.k, t));
    ChainAcyclic(fat, clusters);
  }

  lemma LinkedMoves(s: Start, moved: nat, fat: seq<nat>, clusters: seq<nat>, spots: seq<nat>)
    requires Linked(s, moved, fat, clusters, spots) && Ready(s) && Last(s.spots) + moved + 1 < |s.clusters|
    ensures spots != [] && Last(spots) + 1 < |clusters|
    ensures Linked(s, moved + 1, fat, clusters, spots + [Last(spots) + 1])
  {
    var t := LinkedChain(s, moved, fat, clusters, spots);
    hide FatGrown, Chain, Free, Landings, Steps, Distinct;
    LandingsNext(|s.clusters|, Last(s.spots), s.k, moved);
  }

  lemma GrownNext(n: nat, p: nat, k: nat, moved: nat, t: nat)
    requires p < n <= p + moved + 1 && t == Grown(n, p, moved) < k
    ensures Grown(n, p, moved + 1) == t + 1 && Landing(n, p, k, moved + 1) == n - 1 + Steps(k, t + 1)
    ensures Steps(k, t) + (k - t) == Steps(k, t + 1) <= Steps(k, k)
  {
    StepsMonotonic(k, t + 1, k);
  }

  lemma TakeAfter(a: seq<nat>, from: nat, n: nat)
    requires from + n <= |a|
    ensures a[from..][..n] == a[from..from + n]
  {
  }

  lemma LinkedNext(s: Start, moved: nat, t1: nat, fat1: seq<nat>, clusters1: seq<nat>, spots: seq<nat>, spot: nat)
    requires Ready(s) && t1 == Grown(|s.clusters|, Last(s.spots), moved + 1) <= s.k
    requires FatGrown(s.fat, fat1, s.clusters, Steps(s.k, t1)) && clusters1 == s.clusters + Free(s.fat)[..Steps(s.k, t1)]
    requires spots == s.spots + Landings(|s.clusters|, Last(s.spots), s.k, moved)
    requires spot == Landing(|s.clusters|, Last(s.spots), s.k, moved + 1)
    ensures Linked(s, moved + 1, fat1, clusters1, spots + [spot])
  {
    hide FatGrown, Chain, Free, Landing, Landings, Steps, Grown;
    LandingsNext(|s.clusters|, Last(s.spots), s.k, moved);
  }

  lemma LinkedParts(s: Start, moved: nat, fat: seq<nat>, clusters: seq<nat>, spots: seq<nat>)
    requires Linked(s, moved, fat, clusters, spots)
    ensures s.spots != [] && Last(s.spots) < |s.clusters| && Steps(s.k, s.k) <= |Free(s.fat)|
    ensures var s0 := Steps(s.k, Grown(|s.clusters|, Last(s.spots), moved));
            && FatGrown(s.fat, fat, s.clusters, s0) && s0 <= |Free(s.fat)| && clusters == s.clusters + Free(s.fat)[..s0]
            && Free(fat) == Free(s.fat)[s0..]
    ensures spots == s.spots + Landings(|s.clusters|, Last(s.spots), s.k, moved)
  {
    hide Chain, Free, Steps, Landings;
    FatGrownFacts(s.fat, fat, s.clusters, Steps(s.k, Grown(|s.clusters|, Last(s.spots), moved)));
  }

  lemma LinkedGrows(s: Start, moved: nat, fat: seq<nat>, clusters: seq<nat>, spots: seq<nat>, t: nat, taken: seq<nat>,
                    fat1: seq<nat>)
    requires Linked(s, moved, fat, clusters, spots) && Ready(s) && Last(s.spots) + moved + 1 >= |s.clusters|
    requires t == Grown(|s.clusters|, Last(s.spots), moved) < s.k && s.k - t <= |Free(fat)| && taken == Free(fat)[..s.k - t]
    requires Extended(fat, fat1, clusters, taken)
    ensures |clusters + taken| > 0 && Linked(s, moved + 1, fat1, clusters + taken, spots + [|clusters + taken| - 1])
  {
    hide *;
    LinkedParts(s, moved, fat, clusters, spots);
    var n, p, s0, s1 := |s.clusters|, Last(s.spots), Steps(s.k, t), Steps(s.k, t + 1);
    GrownNext(n, p, s.k, moved, t);
    TakeAfter(Free(s.fat), s0, s.k - t);
    FatGrownMore(s.fat, fat, s.clusters, s0, clusters, fat1, taken, s1);
    LinkedNext(s, moved, t + 1, fat1, clusters + taken, spots, |clusters + taken| - 1);
  }

  lemma ExtendedChain(fat: seq<nat>, fat1: seq<nat>, c: seq<nat>, taken: seq<nat>, data: seq<seq<bv8>>)
    requires Extended(fat, fat1, c, taken) && |fat| == |data|
    ensures |fat1| == |fat| && Chain(fat1, c + taken) && Within(data, c + taken)
  {
  }

  // ----- the bytes -----

  /** Nothing but the current cluster and the clusters moved to has new data. */
  ghost predicate OnlyVisited(data: seq<seq<bv8>>, data': seq<seq<bv8>>, f: Cursor, from: nat)
    requires InChain(f)
  {
    && |data'| == |data|
    && (forall c | 0 <= c < |data| && (forall i :: from <= i < |f.spots| ==> f.clusters[f.spots[i]] != c) :: data'[c] == data[c])
  }

  lemma VisitedMore(data: seq<seq<bv8>>, data': seq<seq<bv8>>, f: Cursor, f': Cursor, from: nat)
    requires InChain(f) && InChain(f') && OnlyVisited(data, data', f, from) && f.clusters <= f'.clusters && f.spots <= f'.spots
    ensures OnlyVisited(data, data', f', from)
  {
    forall c | 0 <= c < |data| && forall i :: from <= i < |f'.spots| ==> f'.clusters[f'.spots[i]] != c
      ensures data'[c] == data[c]
    {
      assert forall i :: from <= i < |f.spots| ==> f.clusters[f.spots[i]] == f'.clusters[f'.spots[i]];
    }
  }

  lemma VisitedCopy(data: seq<seq<bv8>>, data': seq<seq<bv8>>, f: Cursor, from: nat, block: seq<bv8>)
    requires InChain(f) && OnlyVisited(data, data', f, from) && from < |f.spots|
    requires f.clusters[Last(f.spots)] < |data'|
    ensures OnlyVisited(data, data'[f.clusters[Last(f.spots)] := block], f, from)
  {
    var last := |f.spots| - 1;
    assert f.spots[last] < |f.clusters|;
  }

  function Bytes(clusters: nat, b: nat): nat {
    clusters * b
  }

  lemma BytesNext(clusters: nat, b: nat)
    ensures Bytes(clusters + 1, b) == Bytes(clusters, b) + b
  {
  }

  /** After total bytes of buf: what the cursor's clusters hold. */
  ghost predicate Filled(b: nat, data0: seq<seq<bv8>>, f0: Cursor, buf: seq<bv8>, total: nat, moved: nat,
                         data: seq<seq<bv8>>, f: Cursor) {
    && Placed(data, b, f) && f0.spots != [] && OnlyVisited(data0, data, f, |f0.spots| - 1)
    && total <= |buf| && f.written == f0.written + buf[..total] && total + f0.off == Bytes(moved, b) + f.off
  }

  lemma FilledFacts(b: nat, data0: seq<seq<bv8>>, f0: Cursor, buf: seq<bv8>, total: nat, moved: nat,
                    data: seq<seq<bv8>>, f: Cursor)
    requires Filled(b, data0, f0, buf, total, moved, data, f)
    ensures b > 0 && f.spots != [] && Last(f.spots) < |f.clusters| && f.clusters[Last(f.spots)] < |data| && f.off <= b
    ensures InChain(f) && Within(data, f.clusters) && Blocks(data, b) && total <= |buf| && |data| == |data0|
    ensures Placed(data, b, f)
  {
  }

  lemma FilledMoves(b: nat, data0: seq<seq<bv8>>, f0: Cursor, buf: seq<bv8>, total: nat, moved: nat, data: seq<seq<bv8>>,
                    f: Cursor, clusters: seq<nat>, spot: nat)
    requires Filled(b, data0, f0, buf, total, moved, data, f) && f.off == b
    requires f.spots != [] && Last(f.spots) < spot < |clusters| && f.clusters <= clusters && Within(data, clusters)
    ensures Filled(b, data0, f0, buf, total, moved + 1, data, f.(clusters := clusters, spots := f.spots + [spot], off := 0))
  {
    FilledFacts(b, data0, f0, buf, total, moved, data, f);
    hide Placed, OnlyVisited, Bytes, Within, InChain;
    var f' := f.(clusters := clusters, spots := f.spots + [spot], off := 0);
    PlacedMoves(data, b, f, f', spot);
    VisitedMore(data0, data, f, f', |f0.spots| - 1);
    BytesNext(moved, b);
  }

  /** A chunk of buf is copied into the current cluster c. */
  lemma FilledCopies(b: nat, data0: seq<seq<bv8>>, f0: Cursor, buf: seq<bv8>, total: nat, moved: nat, data: seq<seq<bv8>>,
                     f: Cursor, chunk: seq<bv8>, c: nat, block: seq<bv8>)
    requires Filled(b, data0, f0, buf, total, moved, data, f) && Distinct(f.clusters) && |f0.spots| <= |f.spots|
    requires f.off + |chunk| <= b && total + |chunk| <= |buf| && chunk == buf[total..total + |chunk|]
    requires f.spots != [] && Last(f.spots) < |f.clusters| && c == f.clusters[Last(f.spots)] && c < |data| && |data[c]| == b
    requires block == data[c][..f.off] + chunk + data[c][f.off + |chunk|..]
    ensures Filled(b, data0, f0, buf, total + |chunk|, moved, data[c := block],
                   f.(off := f.off + |chunk|, written := f.written + chunk))
  {
    hide Placed, Bytes, Within, InChain, Distinct, Blocks, OnlyVisited;
    FilledFacts(b, data0, f0, buf, total, moved, data, f);
    PlacedCopies(data, b, f, chunk, data[c := block]);
    VisitedCopy(data0, data, f, |f0.spots| - 1, block);
    VisitedBy(data0, data[c := block], f, f.(off := f.off + |chunk|, written := f.written + chunk), |f0.spots| - 1);
    MoreOf(f0.written, buf, total, chunk);
  }

  /** Which clusters were visited does not depend on the offset or the bytes. */
  lemma VisitedBy(data0: seq<seq<bv8>>, data: seq<seq<bv8>>, f: Cursor, f': Cursor, k: nat)
    requires InChain(f) && OnlyVisited(data0, data, f, k) && f'.clusters == f.clusters && f'.spots == f.spots
    ensures InChain(f') && OnlyVisited(data0, data, f', k)
  {
  }

  lemma MoreOf(before: seq<bv8>, buf: seq<bv8>, total: nat, chunk: seq<bv8>)
    requires total + |chunk| <= |buf| && chunk == buf[total..total + |chunk|]
    ensures before + buf[..total] + chunk == before + buf[..total + |chunk|]
  {
    assert buf[..total] + chunk == buf[..total + |chunk|];
  }

  // ----- how much is missing -----

  /** How many new clusters the write of len bytes at cursor f needs. */
  function NewClusters(b: nat, f: Cursor, len: nat): nat {
    if b > 0 && f.spots != [] && Last(f.spots) < |f.clusters| && f.off <= b
    then Growth(len, |f.clusters|, Last(f.spots), f.off, b) else 0
  }

  /** With the cluster at the end of the chain full, exactly the rest of the growth is missing. */
  lemma GrowthLeft(len: nat, n: nat, p: nat, off: nat, b: nat, total: nat, moved: nat)
    requires b > 0 && p < n && off <= b && p + moved >= n - 1 && total < len && total + off == Bytes(moved, b) + b
    ensures Grown(n, p, moved) < Growth(len, n, p, off, b)
    ensures NumCluster(len - total, b) == Growth(len, n, p, off, b) - Grown(n, p, moved) > 0
  {
    hide Bytes, NumCluster;
    var room, t := (n - p) * b - off, p + moved - n + 1;
    RoomMoved(n - p, t, moved, off, b, total);
    NumClusterBelow(len - room, t, b);
  }

  lemma RoomMoved(left: nat, t: nat, moved: nat, off: nat, b: nat, total: nat)
    requires left + t == moved + 1 && total + off == Bytes(moved, b) + b
    ensures total == left * b - off + t * b && t * b >= 0
  {
    assert left * b + t * b == (left + t) * b;
  }

  /** A write that ends moved as often as its length asks for: it has grown the chain all the way. */
  lemma GrowthDone(len: nat, n: nat, p: nat, off: nat, b: nat, moved: nat, off': nat)
    requires b > 0 && p < n && off <= b && off' <= b && (moved > 0 ==> off' > 0) && len + off == Bytes(moved, b) + off'
    ensures Growth(len, n, p, off, b) == Grown(n, p, moved)
  {
    var room, t := (n - p) * b - off, p + moved - n + 1;
    assert (n - p) * b + (t - 1) * b == moved * b;
    assert len - room == (t - 1) * b + off';
    NotPositive(t, b);
    if t > 0 {
      NumClusterOf(t - 1, off', b);
    }
  }

  lemma NotPositive(t: int, b: nat)
    ensures t <= 0 ==> (t - 1) * b + b <= 0
    ensures t > 0 ==> (t - 1) * b >= 0
  {
    assert (t - 1) * b + b == t * b;
    if t <= 0 {
      Multiply(0, -t, b);
      assert -t * b == -(t * b);
    } else {
      Multiply(0, t - 1, b);
    }
  }

  // ----- a whole write -----

  ghost function StartOf(b: nat, d: Disk, f: Cursor, len: nat): Start {
    Start(d.fat, f.clusters, f.spots, NewClusters(b, f, len))
  }

  /** A write of len bytes at cursor f: enough clusters are free for all that it will allocate. */
  ghost predicate Writable(b: nat, d: Disk, f: Cursor, len: nat) {
    Placed(d.data, b, f) && |d.fat| == |d.data| && Ready(StartOf(b, d, f, len))
  }

  /** The write of buf at f0 on disk d0 leads to d and f. */
  ghost predicate Wrote(b: nat, d0: Disk, f0: Cursor, buf: seq<bv8>, d: Disk, f: Cursor) {
    && Writable(b, d0, f0, |buf|) && |f.spots| >= |f0.spots|
    && var moved := |f.spots| - |f0.spots|;
    && Linked(StartOf(b, d0, f0, |buf|), moved, d.fat, f.clusters, f.spots)
    && Filled(b, d0.data, f0, buf, |buf|, moved, d.data, f) && (moved > 0 ==> f.off > 0)
  }

  ghost predicate InOrder(spots: seq<nat>) {
    forall i :: 0 <= i < |spots| ==> spots[i] == i
  }

  lemma WroteMoved(b: nat, d0: Disk, f0: Cursor, buf: seq<bv8>, d: Disk, f: Cursor) returns (n: nat, p: nat, k: nat, moved: nat)
    requires Wrote(b, d0, f0, buf, d, f)
    ensures f0.spots != [] && n == |f0.clusters| && p == Last(f0.spots) < n && k == NewClusters(b, f0, |buf|)
    ensures f.spots == f0.spots + Landings(n, p, k, moved) && Grown(n, p, moved) == k && b > 0
    ensures |f.written| == |f0.written| + |buf| && Placed(d0.data, b, f0)
    ensures |buf| + f0.off == Bytes(moved, b) + f.off && f.off <= b && Linked(Start(d0.fat, f0.clusters, f0.spots, k), moved, d.fat, f.clusters, f.spots)
  {
    n, p, k, moved := |f0.clusters|, Last(f0.spots), NewClusters(b, f0, |buf|), |f.spots| - |f0.spots|;
    WroteParts(b, d0, f0, buf, d, f, moved);
    hide *;
    PlacedOff(d0.data, b, f0);
    GrowthDone(|buf|, n, p, f0.off, b, moved, f.off);
    LinkedParts(Start(d0.fat, f0.clusters, f0.spots, k), moved, d.fat, f.clusters, f.spots);
  }

  lemma WroteParts(b: nat, d0: Disk, f0: Cursor, buf: seq<bv8>, d: Disk, f: Cursor, moved: int)
    requires Wrote(b, d0, f0, buf, d, f) && moved == |f.spots| - |f0.spots|
    ensures moved >= 0 && b > 0 && f0.spots != [] && Last(f0.spots) < |f0.clusters| && f.off <= b && Placed(d0.data, b, f0)
    ensures |f.written| == |f0.written| + |buf| && |buf| + f0.off == Bytes(moved, b) + f.off && (moved > 0 ==> f.off > 0)
    ensures Growth(|buf|, |f0.clusters|, Last(f0.spots), f0.off, b) == NewClusters(b, f0, |buf|)
    ensures Linked(Start(d0.fat, f0.clusters, f0.spots, NewClusters(b, f0, |buf|)), moved, d.fat, f.clusters, f.spots)
  {
    FilledFacts(b, d0.data, f0, buf, |buf|, moved, d.data, f);
    hide Chain, Free, Steps, Placed, Landings, Growth, Grown, Bytes, OnlyVisited, FatGrown, Linked;
  }

  lemma PlacedOff(data: seq<seq<bv8>>, b: nat, f: Cursor)
    requires Placed(data, b, f)
    ensures b > 0 && f.off <= b && InChain(f) && Within(data, f.clusters)
  {
  }

  /** The chain grows by k + (k - 1) + ... + 1 of the lowest-numbered free clusters when k new ones are needed. */
  lemma WroteGrowth(b: nat, d0: Disk, f0: Cursor, buf: seq<bv8>, d: Disk, f: Cursor)
    requires Wrote(b, d0, f0, buf, d, f)
    ensures var taken := Triangle(NewClusters(b, f0, |buf|));
            && taken <= |Free(d0.fat)| && f.clusters == f0.clusters + Free(d0.fat)[..taken] && Chain(d.fat, f.clusters)
            && Free(d.fat) == Free(d0.fat)[taken..]
  {
    hide *;
    var n, p, k, moved := WroteMoved(b, d0, f0, buf, d, f);
    LinkedParts(Start(d0.fat, f0.clusters, f0.spots, k), moved, d.fat, f.clusters, f.spots);
    var _ := LinkedChain(Start(d0.fat, f0.clusters, f0.spots, k), moved, d.fat, f.clusters, f.spots);
    StepsAll(k);
  }

  lemma LandingsInOrder(spots: seq<nat>, n: nat, p: nat, k: nat, moved: nat)
    requires spots != [] && InOrder(spots) && p == Last(spots) < n && Grown(n, p, moved) == k
    ensures InOrder(spots + Landings(n, p, k, moved)) <==> k <= 1
  {
    var all := spots + Landings(n, p, k, moved);
    hide Steps, Landing;
    if k <= 1 {
      forall i | 0 <= i < |all| ensures all[i] == i {
        if i > p {
          LandingInOrder(n, p, k, i - p);
          assert all[i] == Landing(n, p, k, i - p);
        }
      }
    } else {
      LandingInOrder(n, p, k, moved);
      assert all[p + moved] == Landing(n, p, k, moved);
    }
  }

  /** The file stays in chain order exactly when the write needs at most one new cluster. */
  lemma WroteInOrder(b: nat, d0: Disk, f0: Cursor, buf: seq<bv8>, d: Disk, f: Cursor)
    requires Wrote(b, d0, f0, buf, d, f) && InOrder(f0.spots)
    ensures InOrder(f.spots) <==> NewClusters(b, f0, |buf|) <= 1
  {
    hide *;
    var n, p, k, moved := WroteMoved(b, d0, f0, buf, d, f);
    LandingsInOrder(f0.spots, n, p, k, moved);
  }

  /** In chain order, the chain holds the written bytes from its start. */
  lemma PlacedInOrder(data: seq<seq<bv8>>, b: nat, f: Cursor)
    requires Placed(data, b, f) && InOrder(f.spots)
    ensures Within(data, f.clusters) && f.written <= Concat(data, f.clusters)
    ensures |f.written| == (|f.spots| - 1) * b + f.off && |Concat(data, f.clusters)| == |f.clusters| * b
  {
    var last := |f.spots| - 1;
    var front, c := f.clusters[..last], f.clusters[last];
    assert At(f.clusters, f.spots[..last]) == front;
    ConcatSplit(data, f.clusters, last);
    ConcatLength(data, front, b);
    ConcatLength(data, f.clusters, b);
    assert data[c][..f.off] <= data[c];
    assert data[c] == data[c][..f.off] + data[c][f.off..];
  }

  /** After a write that needs at most one new cluster the file reads back as all that was written, in order. */
  lemma WroteReadsBack(b: nat, d0: Disk, f0: Cursor, buf: seq<bv8>, d: Disk, f: Cursor)
    requires Wrote(b, d0, f0, buf, d, f) && InOrder(f0.spots) && NewClusters(b, f0, |buf|) <= 1
    ensures Within(d.data, f.clusters) && |f.written| <= |Concat(d.data, f.clusters)|
    ensures Concat(d.data, f.clusters)[..|f.written|] == f0.written + buf
  {
    WroteInOrder(b, d0, f0, buf, d, f);
    FilledFacts(b, d0.data, f0, buf, |buf|, |f.spots| - |f0.spots|, d.data, f);
    assert f.written == f0.written + buf by { assert buf[..|buf|] == buf; }
    PlacedInOrder(d.data, b, f);
  }

  lemma LandingSkips(n: nat, p: nat, k: nat, j: nat)
    requires p < n && k > 1
    ensures Landing(n, p, k, j) != n
  {
    var t := Grown(n, p, j);
    if t > 0 {
      StepsMonotonic(k, 1, t);
      assert Steps(k, 1) == k;
    }
  }

  lemma Skipped(n: nat, p: nat, k: nat, moved: nat, spots0: seq<nat>, spots: seq<nat>)
    requires spots0 != [] && p == Last(spots0) < n && k > 1 && spots == spots0 + Landings(n, p, k, moved)
    ensures forall i :: |spots0| - 1 <= i < |spots| ==> spots[i] != n
  {
    forall i | |spots0| - 1 <= i < |spots| ensures spots[i] != n {
      if i >= |spots0| {
        LandingSkips(n, p, k, i - |spots0| + 1);
      }
    }
  }

  /** A write that needs two or more new clusters skips the first of them: there, in the middle of the file, the disk
      keeps what the free cluster held before. */
  lemma WroteHole(b: nat, d0: Disk, f0: Cursor, buf: seq<bv8>, d: Disk, f: Cursor)
    requires Wrote(b, d0, f0, buf, d, f) && InOrder(f0.spots) && NewClusters(b, f0, |buf|) >= 2
    ensures |f0.clusters| < |f.clusters| && Free(d0.fat) != [] && f.clusters[|f0.clusters|] == Free(d0.fat)[0]
    ensures Free(d0.fat)[0] < |d0.data| == |d.data| && d.data[Free(d0.fat)[0]] == d0.data[Free(d0.fat)[0]]
    ensures (|f0.clusters| + 1) * b <= |f.written|
  {
    hide *;
    var n, p, k, moved := WroteMoved(b, d0, f0, buf, d, f);
    WroteGrowth(b, d0, f0, buf, d, f);
    StepsAll(k);
    ClusterSkipped(b, d0, f0, buf, d, f, n, p, k, moved);
    GrownIs(n, p, moved);
    WroteLength(d0.data, b, f0, f, |buf|, n, p, k, moved);
    Multiply(n + 1, n + k - 1, b);
  }

  lemma GrownIs(n: nat, p: nat, moved: nat)
    ensures Grown(n, p, moved) > 0 ==> p + moved + 1 == n + Grown(n, p, moved)
  {
  }

  lemma Multiply(x: nat, y: nat, b: nat)
    requires x <= y
    ensures x * b <= y * b
  {
  }

  lemma InOrderLast(spots: seq<nat>)
    requires spots != [] && InOrder(spots)
    ensures Last(spots) == |spots| - 1
  {
  }

  lemma WroteLength(data: seq<seq<bv8>>, b: nat, f0: Cursor, f: Cursor, len: nat, n: nat, p: nat, k: nat, moved: nat)
    requires Placed(data, b, f0) && InOrder(f0.spots) && f0.spots != [] && p == Last(f0.spots)
    requires |f.written| == |f0.written| + len && len + f0.off == Bytes(moved, b) + f.off && p + moved + 1 == n + k
    ensures |f.written| == (n + k - 1) * b + f.off
  {
    hide *;
    InOrderLast(f0.spots);
    PlacedInOrder(data, b, f0);
    BytesIs(moved, b);
    assert p * b + moved * b == (p + moved) * b;
  }

  lemma BytesIs(clusters: nat, b: nat)
    ensures Bytes(clusters, b) == clusters * b
  {
  }

  lemma ClusterSkipped(b: nat, d0: Disk, f0: Cursor, buf: seq<bv8>, d: Disk, f: Cursor, n: nat, p: nat, k: nat, moved: nat)
    requires Wrote(b, d0, f0, buf, d, f) && Chain(d.fat, f.clusters) && n < |f.clusters| && k > 1
    requires f0.spots != [] && p == Last(f0.spots) < n && f.spots == f0.spots + Landings(n, p, k, moved)
    ensures f.clusters[n] < |d0.data| == |d.data| && d.data[f.clusters[n]] == d0.data[f.clusters[n]]
  {
    hide *;
    var m := WroteVisited(b, d0, f0, buf, d, f);
    Skipped(n, p, k, moved, f0.spots, f.spots);
    NotVisited(d.fat, d0.data, d.data, f, m, n);
  }

  lemma NotVisited(fat: seq<nat>, data: seq<seq<bv8>>, data': seq<seq<bv8>>, f: Cursor, m: nat, n: nat)
    requires InChain(f) && OnlyVisited(data, data', f, m) && Chain(fat, f.clusters) && |fat| == |data|
    requires n < |f.clusters| && forall i :: m <= i < |f.spots| ==> f.spots[i] != n
    ensures f.clusters[n] < |data| == |data'| && data'[f.clusters[n]] == data[f.clusters[n]]
  {
    ChainWithin(fat, f.clusters, data);
    hide Chain;
    ChainAcyclic(fat, f.clusters);
    assert forall i :: m <= i < |f.spots| ==> f.clusters[f.spots[i]] != f.clusters[n];
  }

  /** Any other file of the volume, that is, any chain apart from this one, keeps its chain and its bytes. */
  lemma WroteOther(b: nat, d0: Disk, f0: Cursor, buf: seq<bv8>, d: Disk, f: Cursor, g: seq<nat>)
    requires Wrote(b, d0, f0, buf, d, f) && Chain(d0.fat, g) && forall x <- g :: x !in f0.clusters
    ensures Chain(d.fat, g) && forall x <- g :: x !in f.clusters
    ensures Within(d0.data, g) && Within(d.data, g) && Concat(d.data, g) == Concat(d0.data, g)
  {
    hide *;
    var n, p, k, moved := WroteMoved(b, d0, f0, buf, d, f);
    var m := WroteVisited(b, d0, f0, buf, d, f);
    LinkedParts(Start(d0.fat, f0.clusters, f0.spots, k), moved, d.fat, f.clusters, f.spots);
    FatGrownOther(d0.fat, d.fat, f0.clusters, Steps(k, k), g);
    ChainWithin(d0.fat, g, d0.data);
    OtherBytes(d0.data, d.data, f, m, g);
  }

  lemma WroteVisited(b: nat, d0: Disk, f0: Cursor, buf: seq<bv8>, d: Disk, f: Cursor) returns (m: nat)
    requires Wrote(b, d0, f0, buf, d, f)
    ensures InChain(f) && OnlyVisited(d0.data, d.data, f, m) && |d0.fat| == |d0.data| == |d.data| == |d.fat|
    ensures f0.spots != [] && m == |f0.spots| - 1
  {
    m := |f0.spots| - 1;
  }

  lemma ChainWithin(fat: seq<nat>, g: seq<nat>, data: seq<seq<bv8>>)
    requires Chain(fat, g) && |fat| == |data|
    ensures Within(data, g)
  {
  }

  lemma OtherBytes(data: seq<seq<bv8>>, data': seq<seq<bv8>>, f: Cursor, m: nat, g: seq<nat>)
    requires InChain(f) && OnlyVisited(data, data', f, m) && Within(data, g) && forall x <- g :: x !in f.clusters
    ensures Within(data', g) && Concat(data', g) == Concat(data, g)
  {
    forall i | 0 <= i < |g| ensures data'[g[i]] == data[g[i]] {
      assert g[i] in g && g[i] !in f.clusters;
    }
    ConcatSame(data, data', g);
  }

  lemma FatGrownOther(fat: seq<nat>, fat': seq<nat>, c: seq<nat>, s: nat, g: seq<nat>)
    requires FatGrown(fat, fat', c, s) && Chain(fat, g) && forall x <- g :: x !in c
    ensures Chain(fat', g) && forall x <- g :: x !in c + Free(fat)[..s]
  {
    if s > 0 {
      ExtendedOther(fat, fat', c, s, g);
    } else {
      assert c + Free(fat)[..0] == c;
    }
  }

  // ----- single steps, as the loop of Write takes them -----

  /** The current cluster is the one at the cursor's last place. */
  ghost predicate InPlace(cluster: nat, f: Cursor) {
    InChain(f) && cluster == f.clusters[Last(f.spots)]
  }

  lemma InPlaceIs(cluster: nat, f: Cursor)
    requires InPlace(cluster, f)
    ensures f.spots != [] && Last(f.spots) < |f.clusters| && cluster == f.clusters[Last(f.spots)] && cluster in f.clusters
    ensures Last(f.spots) == |f.clusters| - 1 ==> cluster == Last(f.clusters)
  {
  }

  lemma InPlaceAgain(f: Cursor, spot: nat, f': Cursor)
    requires InChain(f) && f.clusters <= f'.clusters && spot < |f'.clusters| && f'.spots == f.spots + [spot]
    ensures InPlace(f'.clusters[spot], f')
  {
  }

  /** The current cluster has no successor just when the moves so far have come to the end of the chain. */
  lemma AtEnd(s: Start, moved: nat, fat: seq<nat>, clusters: seq<nat>, spots: seq<nat>)
    requires Linked(s, moved, fat, clusters, spots)
    ensures Ready(s) && spots != [] && Last(spots) < |clusters| && Chain(fat, clusters)
    ensures Last(spots) == |clusters| - 1 <==> Last(s.spots) + moved + 1 >= |s.clusters|
  {
    var t := LinkedChain(s, moved, fat, clusters, spots);
    hide Chain, Free, Distinct;
    StepsMonotonic(s.k, 0, t);
  }

  /** At the end of the chain the clusters asked for are the missing ones, and they are free. */
  lemma Missing(b: nat, d0: Disk, f0: Cursor, len: nat, total: nat, moved: nat, fat: seq<nat>, clusters: seq<nat>, spots: seq<nat>)
      returns (t: nat)
    requires Linked(StartOf(b, d0, f0, len), moved, fat, clusters, spots) && f0.spots != []
    requires Last(f0.spots) + moved + 1 >= |f0.clusters| && b > 0 && f0.off <= b
    requires total < len && total + f0.off == Bytes(moved, b) + b
    ensures Last(f0.spots) < |f0.clusters| && t == Grown(|f0.clusters|, Last(f0.spots), moved) < NewClusters(b, f0, len)
    ensures 0 < NumCluster(len - total, b) == NewClusters(b, f0, len) - t <= |Free(fat)|
  {
    var s := StartOf(b, d0, f0, len);
    hide Linked, Chain, Free, Distinct, Growth, Steps, NumCluster, Bytes, Landing, Grown;
    t := LinkedChain(s, moved, fat, clusters, spots);
    GrowthLeft(len, |f0.clusters|, Last(f0.spots), f0.off, b, total, moved);
    GrownNext(|f0.clusters|, Last(f0.spots), s.k, moved, t);
  }

  lemma {:induction false} AscendingAt(s: seq<nat>, i: nat)
    requires Ascending(s) && i < |s|
    ensures s[i] >= i
  {
    if i > 0 {
      AscendingAt(s, i - 1);
    }
  }

  /** The written bytes fit in the chain. */
  lemma PlacedLength(data: seq<seq<bv8>>, b: nat, f: Cursor)
    requires Placed(data, b, f)
    ensures |f.written| == (|f.spots| - 1) * b + f.off <= |f.clusters| * b
  {
    ConcatLength(data, At(f.clusters, f.spots[..|f.spots| - 1]), b);
    AscendingAt(f.spots, |f.spots| - 1);
    assert |f.spots| <= |f.clusters| && f.off <= b && |f.written| == (|f.spots| - 1) * b + f.off;
    hide *;
    Room(|f.spots|, |f.clusters|, f.off, b);
  }

  lemma Room(n: nat, m: nat, off: nat, b: nat)
    requires 0 < n <= m && off <= b
    ensures (n - 1) * b + off <= m * b
  {
    Multiply(n, m, b);
    assert (n - 1) * b + b == n * b;
  }

  /** What a write leaves is a file again: a chain that extends the one before and has room for all that was written. */
  lemma WroteFile(b: nat, d0: Disk, f0: Cursor, buf: seq<bv8>, d: Disk, f: Cursor)
    requires Wrote(b, d0, f0, buf, d, f)
    ensures f0.clusters != [] && f0.clusters <= f.clusters && Chain(d.fat, f.clusters)
    ensures f.written == f0.written + buf && |f.written| <= |f.clusters| * b && Placed(d.data, b, f)
  {
    WroteGrowth(b, d0, f0, buf, d, f);
    var _, _, _, _ := WroteMoved(b, d0, f0, buf, d, f);
    FilledFacts(b, d0.data, f0, buf, |buf|, |f.spots| - |f0.spots|, d.data, f);
    assert f.written == f0.written + buf by { assert buf[..|buf|] == buf; }
    PlacedLength(d.data, b, f);
  }
}
