/** Directories: their entries along a cluster chain, finding a file by its path and creating one. */
module FatDirectories {
  import opened FatNames
  import opened FatChains

  datatype Option<T> = None | Some(value: T)

  const END_MARK: char := '\0'
  const DELETED_MARK: char := 229 as char
  const DIRECTORY: nat := 0x10

  datatype Entry = Entry(name: string, attr: nat, first: nat, size: nat)

  /** An entry's place: its cluster and its number there. */
  datatype Place = Place(cluster: nat, index: nat)

  /** What the clusters hold, read as entries, and the chain of each directory by its first cluster. */
  datatype Tree = Tree(tables: seq<seq<Entry>>, dirs: map<nat, seq<nat>>, root: nat)

  const BLANK: Entry := Entry("\0\0\0\0\0\0\0\0\0\0\0", 0, 0, 0)

  // ----- entries of a directory in order -----

  ghost function PlacesIn(cluster: nat, from: nat, n: nat): seq<Place>
    decreases n - from
  {
    if from >= n then [] else [Place(cluster, from)] + PlacesIn(cluster, from + 1, n)
  }

  ghost predicate InTables(tables: seq<seq<Entry>>, chain: seq<nat>) {
    forall i :: 0 <= i < |chain| ==> chain[i] < |tables|
  }

  ghost function Listing(tables: seq<seq<Entry>>, chain: seq<nat>): seq<Place>
    requires InTables(tables, chain)
  {
    if chain == [] then [] else PlacesIn(chain[0], 0, |tables[chain[0]]|) + Listing(tables, chain[1..])
  }

  ghost predicate There(tables: seq<seq<Entry>>, p: Place) {
    p.cluster < |tables| && p.index < |tables[p.cluster]| && |tables[p.cluster][p.index].name| == NAME
  }

  ghost predicate AllThere(tables: seq<seq<Entry>>, ps: seq<Place>) {
    forall i :: 0 <= i < |ps| ==> There(tables, ps[i])
  }

  ghost function At(tables: seq<seq<Entry>>, p: Place): Entry
    requires There(tables, p)
  {
    tables[p.cluster][p.index]
  }

  ghost predicate Shaped(tables: seq<seq<Entry>>) {
    forall c, i | 0 <= c < |tables| && 0 <= i < |tables[c]| :: |tables[c][i].name| == NAME
  }

  lemma {:induction false} PlacesInAre(cluster: nat, from: nat, n: nat)
    ensures forall i :: 0 <= i < |PlacesIn(cluster, from, n)| ==>
              PlacesIn(cluster, from, n)[i].cluster == cluster && from <= PlacesIn(cluster, from, n)[i].index < n
    decreases n - from
  {
    if from < n {
      PlacesInAre(cluster, from + 1, n);
    }
  }

  lemma {:induction false} ListingThere(tables: seq<seq<Entry>>, chain: seq<nat>)
    requires Shaped(tables) && InTables(tables, chain)
    ensures AllThere(tables, Listing(tables, chain))
    ensures forall i :: 0 <= i < |Listing(tables, chain)| ==> Listing(tables, chain)[i].cluster in chain
  {
    if chain != [] {
      PlacesInAre(chain[0], 0, |tables[chain[0]]|);
      ListingThere(tables, chain[1..]);
    }
  }

  predicate Names(e: Entry, name: string) {
    WellFormed(name) && e.name == ShortName(name)
  }

  predicate IsEnd(e: Entry)
    requires |e.name| == NAME
  {
    e.name[0] == END_MARK
  }

  predicate IsFree(e: Entry)
    requires |e.name| == NAME
  {
    e.name[0] == END_MARK || e.name[0] == DELETED_MARK
  }

  /** The first entry with a name, up to the end mark. */
  ghost function Scan(tables: seq<seq<Entry>>, ps: seq<Place>, name: string): Option<Place>
    requires AllThere(tables, ps)
  {
    if ps == [] || IsEnd(At(tables, ps[0])) then None
    else if Names(At(tables, ps[0]), name) then Some(ps[0])
    else Scan(tables, ps[1..], name)
  }

  /** The first entry that is not in use. */
  ghost function Vacant(tables: seq<seq<Entry>>, ps: seq<Place>): Option<Place>
    requires AllThere(tables, ps)
  {
    if ps == [] then None else if IsFree(At(tables, ps[0])) then Some(ps[0]) else Vacant(tables, ps[1..])
  }

  /** No entry was deleted, and nothing but end marks, of no directory, follows the first end mark. */
  ghost predicate Tidy(tables: seq<seq<Entry>>, ps: seq<Place>)
    requires AllThere(tables, ps)
  {
    && (forall i :: 0 <= i < |ps| ==> At(tables, ps[i]).name[0] != DELETED_MARK)
    && (forall i, j :: 0 <= i <= j < |ps| && IsEnd(At(tables, ps[i])) ==> IsEnd(At(tables, ps[j])) && At(tables, ps[j]).attr != DIRECTORY)
  }

  lemma {:induction false} ScanNames(tables: seq<seq<Entry>>, ps: seq<Place>, name: string)
    requires AllThere(tables, ps)
    ensures Scan(tables, ps, name).Some? ==>
              var p := Scan(tables, ps, name).value; p in ps && Names(At(tables, p), name) && !IsEnd(At(tables, p))
  {
    if ps != [] && !IsEnd(At(tables, ps[0])) && !Names(At(tables, ps[0]), name) {
      ScanNames(tables, ps[1..], name);
    }
  }

  lemma {:induction false} VacantIs(tables: seq<seq<Entry>>, ps: seq<Place>)
    requires AllThere(tables, ps)
    ensures Vacant(tables, ps).Some? ==>
              var p := Vacant(tables, ps).value; p in ps && There(tables, p) && IsFree(At(tables, p))
    ensures Vacant(tables, ps).None? ==> forall i :: 0 <= i < |ps| ==> !IsFree(At(tables, ps[i]))
  {
    if ps != [] && !IsFree(At(tables, ps[0])) {
      VacantIs(tables, ps[1..]);
    }
  }

  // ----- one new entry -----

  /** The tables with another entry at a place. */
  ghost function Put(tables: seq<seq<Entry>>, p: Place, e: Entry): seq<seq<Entry>>
    requires There(tables, p)
  {
    tables[p.cluster := tables[p.cluster][p.index := e]]
  }

  lemma PutAt(tables: seq<seq<Entry>>, p: Place, e: Entry, q: Place)
    requires There(tables, p) && There(tables, q) && |e.name| == NAME
    ensures There(Put(tables, p, e), q) && At(Put(tables, p, e), q) == if q == p then e else At(tables, q)
  {
  }

  lemma PutThere(tables: seq<seq<Entry>>, ps: seq<Place>, p: Place, e: Entry)
    requires There(tables, p) && |e.name| == NAME && AllThere(tables, ps)
    ensures AllThere(Put(tables, p, e), ps)
  {
    forall i | 0 <= i < |ps|
      ensures There(Put(tables, p, e), ps[i])
    {
      PutAt(tables, p, e, ps[i]);
    }
  }

  /** The listing does not change. */
  lemma {:induction false} PutListing(tables: seq<seq<Entry>>, p: Place, e: Entry, chain: seq<nat>)
    requires There(tables, p) && InTables(tables, chain)
    ensures Listing(Put(tables, p, e), chain) == Listing(tables, chain)
  {
    if chain != [] {
      PutListing(tables, p, e, chain[1..]);
    }
  }

  ghost predicate DistinctPlaces(ps: seq<Place>) {
    forall i, j :: 0 <= i < j < |ps| ==> ps[i] != ps[j]
  }

  /** An entry in use put at the first vacant place of a tidy list is found by the names it has that were not found before;
      all other names are found as before. */
  lemma {:induction false} PutScan(tables: seq<seq<Entry>>, ps: seq<Place>, p: Place, e: Entry, name: string)
    requires AllThere(tables, ps) && Tidy(tables, ps) && Vacant(tables, ps) == Some(p) && There(tables, p)
    requires |e.name| == NAME && !IsEnd(e) && DistinctPlaces(ps)
    ensures AllThere(Put(tables, p, e), ps)
    ensures Scan(Put(tables, p, e), ps, name) ==
            if Scan(tables, ps, name).None? && Names(e, name) then Some(p) else Scan(tables, ps, name)
  {
    var after := Put(tables, p, e);
    VacantIs(tables, ps);
    PutThere(tables, ps, p, e);
    PutAt(tables, p, e, ps[0]);
    if ps[0] == p {
      RestEnds(tables, ps, p, e, name);
    } else {
      TidyRest(tables, ps);
      PutScan(tables, ps[1..], p, e, name);
    }
  }

  lemma TidyRest(tables: seq<seq<Entry>>, ps: seq<Place>)
    requires ps != [] && AllThere(tables, ps) && Tidy(tables, ps)
    ensures Tidy(tables, ps[1..])
  {
    var r := ps[1..];
    assert forall i :: 0 <= i < |r| ==> r[i] == ps[i + 1];
  }

  /** After the entry comes an end mark, or nothing. */
  lemma RestEnds(tables: seq<seq<Entry>>, ps: seq<Place>, p: Place, e: Entry, name: string)
    requires ps != [] && AllThere(tables, ps) && Tidy(tables, ps) && ps[0] == p && IsFree(At(tables, p))
    requires |e.name| == NAME && DistinctPlaces(ps)
    ensures AllThere(Put(tables, p, e), ps[1..]) && Scan(Put(tables, p, e), ps[1..], name) == None
    ensures Scan(tables, ps, name) == None
  {
    var after := Put(tables, p, e);
    PutThere(tables, ps[1..], p, e);
    if |ps| > 1 {
      PutAt(tables, p, e, ps[1]);
      assert IsEnd(At(tables, ps[0]));
    }
  }

  // ----- a directory grows by a blank cluster -----

  ghost predicate Blank(table: seq<Entry>) {
    table != [] && forall i :: 0 <= i < |table| ==> table[i] == BLANK
  }

  lemma {:induction false} ListingMore(tables: seq<seq<Entry>>, chain: seq<nat>, more: nat)
    requires InTables(tables, chain) && more < |tables|
    ensures InTables(tables, chain + [more])
    ensures Listing(tables, chain + [more]) == Listing(tables, chain) + PlacesIn(more, 0, |tables[more]|)
  {
    hide Listing, PlacesIn;
    ListingFirst(tables, chain);
    ListingFirst(tables, chain + [more]);
    if chain == [] {
      assert (chain + [more])[1..] == chain;
    } else {
      ListingMore(tables, chain[1..], more);
      assert (chain + [more])[1..] == chain[1..] + [more];
    }
  }

  lemma ListingFirst(tables: seq<seq<Entry>>, chain: seq<nat>)
    requires InTables(tables, chain)
    ensures chain == [] ==> Listing(tables, chain) == []
    ensures chain != [] ==> Listing(tables, chain) == PlacesIn(chain[0], 0, |tables[chain[0]]|) + Listing(tables, chain[1..])
  {
    hide PlacesIn;
  }

  /** Tables that differ in no cluster of the chain have the same listing and entries. */
  lemma {:induction false} SameListing(tables: seq<seq<Entry>>, tables': seq<seq<Entry>>, chain: seq<nat>)
    requires |tables'| == |tables| && InTables(tables, chain) && forall i :: 0 <= i < |chain| ==> tables'[chain[i]] == tables[chain[i]]
    ensures Listing(tables', chain) == Listing(tables, chain)
  {
    if chain != [] {
      SameListing(tables, tables', chain[1..]);
    }
  }

  lemma {:induction false} SameScan(tables: seq<seq<Entry>>, tables': seq<seq<Entry>>, ps: seq<Place>, name: string)
    requires AllThere(tables, ps) && AllThere(tables', ps)
    requires forall i :: 0 <= i < |ps| ==> At(tables', ps[i]) == At(tables, ps[i])
    ensures Scan(tables', ps, name) == Scan(tables, ps, name)
  {
    if ps != [] && !IsEnd(At(tables, ps[0])) && !Names(At(tables, ps[0]), name) {
      SameScan(tables, tables', ps[1..], name);
    }
  }

  /** An end mark after entries that are in use changes nothing. */
  lemma {:induction false} ScanMore(tables: seq<seq<Entry>>, ps: seq<Place>, more: seq<Place>, name: string)
    requires AllThere(tables, ps + more) && AllThere(tables, ps) && AllThere(tables, more)
    requires more != [] && IsEnd(At(tables, more[0]))
    ensures Scan(tables, ps + more, name) == Scan(tables, ps, name)
  {
    if ps == [] {
      assert ps + more == more;
    } else {
      assert (ps + more)[0] == ps[0] && (ps + more)[1..] == ps[1..] + more;
      if !IsEnd(At(tables, ps[0])) && !Names(At(tables, ps[0]), name) {
        ScanMore(tables, ps[1..], more, name);
      }
    }
  }

  lemma {:induction false} VacantMore(tables: seq<seq<Entry>>, ps: seq<Place>, more: seq<Place>)
    requires AllThere(tables, ps + more) && AllThere(tables, ps)
    requires Vacant(tables, ps).None? && more != [] && There(tables, more[0]) && IsFree(At(tables, more[0]))
    ensures Vacant(tables, ps + more) == Some(more[0])
  {
    if ps == [] {
      assert ps + more == more;
    } else {
      assert (ps + more)[0] == ps[0] && (ps + more)[1..] == ps[1..] + more;
      VacantMore(tables, ps[1..], more);
    }
  }

  // ----- the tree -----

  /** Chains start at their first cluster and share none, and a directory that is found is one of the tree's, or the root. */
  ghost predicate ValidTree(t: Tree) {
    && Shaped(t.tables) && (forall c :: 0 <= c < |t.tables| ==> t.tables[c] != []) && t.root in t.dirs && 0 !in t.dirs
    && (forall d <- t.dirs :: t.dirs[d] != [] && t.dirs[d][0] == d && InTables(t.tables, t.dirs[d]) && Once(t.dirs[d]))
    && (forall d <- t.dirs, e <- t.dirs, c <- t.dirs[d] :: c in t.dirs[e] ==> d == e)
    && (forall d <- t.dirs :: Closed(t, d))
  }

  ghost predicate Once(chain: seq<nat>) {
    forall i, j :: 0 <= i < j < |chain| ==> chain[i] != chain[j]
  }

  ghost predicate Closed(t: Tree, d: nat) {
    d in t.dirs && InTables(t.tables, t.dirs[d])
    && forall i | 0 <= i < |Listing(t.tables, t.dirs[d])| && There(t.tables, Listing(t.tables, t.dirs[d])[i]) ::
         var e := At(t.tables, Listing(t.tables, t.dirs[d])[i]);
         e.attr == DIRECTORY && !IsEnd(e) ==> e.first == 0 || e.first in t.dirs
  }

  ghost function List(t: Tree, d: nat): (ps: seq<Place>)
    requires ValidTree(t) && d in t.dirs
    ensures AllThere(t.tables, ps)
  {
    ListingThere(t.tables, t.dirs[d]);
    Listing(t.tables, t.dirs[d])
  }

  ghost function Look(t: Tree, d: nat, name: string): Option<Place>
    requires ValidTree(t) && d in t.dirs
  {
    Scan(t.tables, List(t, d), name)
  }

  lemma LookIs(t: Tree, d: nat, name: string)
    requires ValidTree(t) && d in t.dirs && Look(t, d, name).Some?
    ensures var p := Look(t, d, name).value;
            There(t.tables, p) && (At(t.tables, p).attr == DIRECTORY ==> At(t.tables, p).first == 0 || At(t.tables, p).first in t.dirs)
  {
    ScanNames(t.tables, List(t, d), name);
    assert Closed(t, d);
  }

  // ----- paths -----

  const ELEMENT: nat := 12

  /** Where the first slash is, or the length. */
  function Slash(path: string): (k: nat)
    ensures k <= |path| && (k < |path| ==> path[k] == '/') && '/' !in path[..k]
  {
    if path == [] || path[0] == '/' then 0
    else
      var k := Slash(path[1..]);
      assert path[..k + 1] == [path[0]] + path[1..][..k];
      k + 1
  }

  /** The first element of a path; one that is too long counts as an empty one. */
  function Element(path: string): string {
    if Slash(path) > ELEMENT then [] else path[..Slash(path)]
  }

  /** What follows the first element and its slash. */
  function Rest(path: string): Option<string> {
    if Slash(path) < |path| then Some(path[Slash(path) + 1..]) else None
  }

  /** Where a search starts: at the root for a path with a slash in front, and if no directory is given. */
  function Begin(root: nat, path: string, d: nat): (nat, string) {
    if path != [] && path[0] == '/' then (root, path[1..]) else (if d == 0 then root else d, path)
  }

  /** The entry a path leads to, and whether the search stopped before a slash. */
  ghost function Resolve(t: Tree, path: string, d: nat): (Option<Place>, bool)
    requires ValidTree(t) && (d == 0 || d in t.dirs)
    decreases |path|
  {
    var (dir, q) := Begin(t.root, path, d);
    var rest := Rest(q);
    var found := Look(t, dir, Element(q));
    if found.None? then (None, rest.Some?)
    else
      var e := (LookIs(t, dir, Element(q)); At(t.tables, found.value));
      if e.attr == DIRECTORY && rest.Some? && rest.value != [] then Resolve(t, rest.value, e.first)
      else (found, rest.Some?)
  }
}
