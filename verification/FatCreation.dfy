/** Creating a file: what it does to the search for any path. */
module FatCreation {
  import opened FatNames
  import opened FatDirectories
  import opened FatPaths

  // ----- a new entry in a directory -----

  /** The first vacant entry of a directory, which is not that of a directory that was deleted. */
  ghost predicate Ready(t: Tree, d: nat, p: Place) {
    && ValidTree(t) && d in t.dirs && Vacant(t.tables, List(t, d)) == Some(p) && There(t.tables, p)
    && At(t.tables, p).attr != DIRECTORY
  }

  ghost predicate TidyDir(t: Tree, d: nat) {
    ValidTree(t) && d in t.dirs && Tidy(t.tables, List(t, d))
  }

  /** The entry in use: only its name and size are set. */
  ghost function Named(e: Entry, name: string): Entry {
    e.(name := ShortName(name), size := 0)
  }

  ghost function WithEntry(t: Tree, p: Place, name: string): Tree
    requires There(t.tables, p)
  {
    t.(tables := Put(t.tables, p, Named(At(t.tables, p), name)))
  }

  lemma NameStarts(name: string)
    requires '\0' !in name
    ensures ShortName(name)[0] != END_MARK
  {
    assert Base(name) != [] ==> Base(name)[0] == name[0] && name[0] in name;
  }

  lemma {:induction false} ListDistinct(tables: seq<seq<Entry>>, chain: seq<nat>)
    requires InTables(tables, chain) && Once(chain)
    ensures DistinctPlaces(Listing(tables, chain))
  {
    if chain != [] {
      var r := chain[1..];
      assert forall i :: 0 <= i < |r| ==> r[i] == chain[i + 1];
      ListDistinct(tables, r);
      var a, b := PlacesIn(chain[0], 0, |tables[chain[0]]|), Listing(tables, r);
      PlacesInAre(chain[0], 0, |tables[chain[0]]|);
      PlacesInDistinct(chain[0], 0, |tables[chain[0]]|);
      ListingClusters(tables, r);
      assert chain[0] !in r by { assert forall i :: 0 < i < |chain| ==> chain[i] != chain[0]; }
      JoinDistinct(a, b, chain[0]);
    }
  }

  lemma {:induction false} PlacesInDistinct(cluster: nat, from: nat, n: nat)
    ensures DistinctPlaces(PlacesIn(cluster, from, n))
    decreases n - from
  {
    if from < n {
      PlacesInDistinct(cluster, from + 1, n);
      PlacesInAre(cluster, from + 1, n);
    }
  }

  lemma {:induction false} ListingClusters(tables: seq<seq<Entry>>, chain: seq<nat>)
    requires InTables(tables, chain)
    ensures forall i :: 0 <= i < |Listing(tables, chain)| ==> Listing(tables, chain)[i].cluster in chain
  {
    if chain != [] {
      PlacesInAre(chain[0], 0, |tables[chain[0]]|);
      ListingClusters(tables, chain[1..]);
    }
  }

  lemma JoinDistinct(a: seq<Place>, b: seq<Place>, c: nat)
    requires DistinctPlaces(a) && DistinctPlaces(b)
    requires (forall i :: 0 <= i < |a| ==> a[i].cluster == c) && forall j :: 0 <= j < |b| ==> b[j].cluster != c
    ensures DistinctPlaces(a + b)
  {
  }

  /** What each directory finds with the new entry: the new one by its names in its directory, all else as before. */
  lemma EntryLook(t: Tree, d: nat, p: Place, name: string, d': nat, other: string)
    requires Ready(t, d, p) && TidyDir(t, d) && '\0' !in name && d' in t.dirs && ValidTree(WithEntry(t, p, name))
    ensures var after := WithEntry(t, p, name);
            Look(after, d', other) == if d' == d && Look(t, d, other).None? && Names(Named(At(t.tables, p), name), other) then Some(p)
                                      else Look(t, d', other)
  {
    var e := Named(At(t.tables, p), name);
    NameStarts(name);
    EntryPlace(t, d, p);
    if d' == d {
      PutListing(t.tables, p, e, t.dirs[d]);
      ListDistinct(t.tables, t.dirs[d]);
      PutScan(t.tables, List(t, d), p, e, other);
    } else {
      OtherList(t, d, p, e, d');
      SameScan(t.tables, Put(t.tables, p, e), List(t, d'), other);
    }
  }

  lemma EntryPlace(t: Tree, d: nat, p: Place)
    requires Ready(t, d, p)
    ensures p.cluster in t.dirs[d] && (TidyDir(t, d) ==> IsEnd(At(t.tables, p)))
    ensures forall d' <- t.dirs :: d' != d ==> p.cluster !in t.dirs[d']
  {
    VacantIs(t.tables, List(t, d));
    ListingThere(t.tables, t.dirs[d]);
    var i :| 0 <= i < |List(t, d)| && List(t, d)[i] == p;
  }

  lemma OtherList(t: Tree, d: nat, p: Place, e: Entry, d': nat)
    requires Ready(t, d, p) && d' in t.dirs && d' != d && |e.name| == NAME
    ensures Listing(Put(t.tables, p, e), t.dirs[d']) == List(t, d') && AllThere(Put(t.tables, p, e), List(t, d'))
    ensures forall i :: 0 <= i < |List(t, d')| ==> At(Put(t.tables, p, e), List(t, d')[i]) == At(t.tables, List(t, d')[i])
  {
    EntryPlace(t, d, p);
    PutListing(t.tables, p, e, t.dirs[d']);
    PutThere(t.tables, List(t, d'), p, e);
    ListingThere(t.tables, t.dirs[d']);
    forall i | 0 <= i < |List(t, d')|
      ensures At(Put(t.tables, p, e), List(t, d')[i]) == At(t.tables, List(t, d')[i])
    {
      PutAt(t.tables, p, e, List(t, d')[i]);
    }
  }

  lemma EntryValid(t: Tree, d: nat, p: Place, name: string)
    requires Ready(t, d, p) && '\0' !in name
    ensures ValidTree(WithEntry(t, p, name))
  {
    var e, after := Named(At(t.tables, p), name), WithEntry(t, p, name);
    EntryPlace(t, d, p);
    forall d' | d' in t.dirs
      ensures Closed(after, d')
    {
      PutListing(t.tables, p, e, t.dirs[d']);
      assert Closed(t, d');
      var ps := Listing(t.tables, t.dirs[d']);
      forall i | 0 <= i < |ps| && There(after.tables, ps[i]) && At(after.tables, ps[i]).attr == DIRECTORY && !IsEnd(At(after.tables, ps[i]))
        ensures At(after.tables, ps[i]).first == 0 || At(after.tables, ps[i]).first in t.dirs
      {
        ListingThere(t.tables, t.dirs[d']);
        PutAt(t.tables, p, e, ps[i]);
      }
    }
  }

  /** What every path leads to after a new entry is made: what it led to before; only a path that led nowhere may now lead
      to the new entry. */
  lemma {:induction false} EntryResolve(t: Tree, d: nat, p: Place, name: string, path: string, from: nat)
    requires Ready(t, d, p) && TidyDir(t, d) && '\0' !in name && ValidTree(WithEntry(t, p, name)) && (from == 0 || from in t.dirs)
    ensures var before, after := Resolve(t, path, from), Resolve(WithEntry(t, p, name), path, from);
            after == before || (before.0 == None && after.0 == Some(p))
    decreases |path|
  {
    var after := WithEntry(t, p, name);
    var (dir, q) := Begin(t.root, path, from);
    EntryLook(t, d, p, name, dir, Element(q));
    EntryPlace(t, d, p);
    var found := Look(t, dir, Element(q));
    hide Look, ValidTree;
    EntryKept(t, d, p, name);
    if found.Some? {
      FoundElsewhere(t, d, p, name, dir, Element(q));
      LookIs(t, dir, Element(q));
      var e := At(t.tables, found.value);
      if e.attr == DIRECTORY && Rest(q).Some? && Rest(q).value != [] {
        EntryResolve(t, d, p, name, Rest(q).value, e.first);
      }
    }
  }

  lemma EntryKept(t: Tree, d: nat, p: Place, name: string)
    requires Ready(t, d, p)
    ensures There(WithEntry(t, p, name).tables, p) && At(WithEntry(t, p, name).tables, p).attr != DIRECTORY
  {
    EntryPlace(t, d, p);
    PutAt(t.tables, p, Named(At(t.tables, p), name), p);
  }

  lemma FoundElsewhere(t: Tree, d: nat, p: Place, name: string, dir: nat, other: string)
    requires Ready(t, d, p) && TidyDir(t, d) && dir in t.dirs && Look(t, dir, other).Some?
    ensures var f := Look(t, dir, other).value;
            f != p && There(t.tables, f) && There(WithEntry(t, p, name).tables, f)
            && At(WithEntry(t, p, name).tables, f) == At(t.tables, f)
  {
    EntryPlace(t, d, p);
    ScanNames(t.tables, List(t, dir), other);
    PutAt(t.tables, p, Named(At(t.tables, p), name), Look(t, dir, other).value);
  }

  // ----- a directory without room -----

  ghost predicate Spare(t: Tree, more: nat) {
    more < |t.tables| && more != 0 && forall d <- t.dirs :: more !in t.dirs[d]
  }

  ghost function Grown(t: Tree, d: nat, more: nat, table: seq<Entry>): Tree
    requires d in t.dirs && more < |t.tables|
  {
    t.(tables := t.tables[more := table], dirs := t.dirs[d := t.dirs[d] + [more]])
  }

  lemma GrownList(t: Tree, d: nat, more: nat, table: seq<Entry>, d': nat)
    requires ValidTree(t) && d in t.dirs && d' in t.dirs && Spare(t, more) && Blank(table)
    ensures var g := Grown(t, d, more, table);
            && Listing(t.tables, t.dirs[d']) == Listing(g.tables, t.dirs[d'])
            && Listing(g.tables, t.dirs[d] + [more]) == List(t, d) + PlacesIn(more, 0, |table|)
  {
    var g := Grown(t, d, more, table);
    SameListing(t.tables, g.tables, t.dirs[d']);
    SameListing(t.tables, g.tables, t.dirs[d]);
    ListingMore(g.tables, t.dirs[d], more);
  }

  lemma GrownEntries(t: Tree, d: nat, more: nat, table: seq<Entry>, d': nat)
    requires ValidTree(t) && d in t.dirs && d' in t.dirs && Spare(t, more) && Blank(table)
    ensures AllThere(Grown(t, d, more, table).tables, List(t, d'))
    ensures forall i :: 0 <= i < |List(t, d')| ==> At(Grown(t, d, more, table).tables, List(t, d')[i]) == At(t.tables, List(t, d')[i])
  {
    ListingThere(t.tables, t.dirs[d']);
  }

  lemma BlankPlaces(t: Tree, d: nat, more: nat, table: seq<Entry>)
    requires d in t.dirs && more < |t.tables| && Blank(table)
    ensures var g, ps := Grown(t, d, more, table).tables, PlacesIn(more, 0, |table|);
            && AllThere(g, ps) && (forall i :: 0 <= i < |ps| ==> At(g, ps[i]) == BLANK) && ps != [] && ps[0] == Place(more, 0)
  {
    PlacesInAre(more, 0, |table|);
  }

  lemma GrownClosed(t: Tree, d: nat, more: nat, table: seq<Entry>, d': nat)
    requires ValidTree(t) && d in t.dirs && d' in t.dirs && Spare(t, more) && Blank(table)
    ensures Closed(Grown(t, d, more, table), d')
  {
    var g := Grown(t, d, more, table);
    BlankPlaces(t, d, more, table);
    GrownList(t, d, more, table, d');
    GrownEntries(t, d, more, table, d');
    assert Closed(t, d');
    hide ValidTree, Listing, PlacesIn;
    var ps, qs := List(t, d'), PlacesIn(more, 0, |table|);
    assert Listing(g.tables, g.dirs[d']) == if d' == d then ps + qs else ps;
  }

  lemma GrownValid(t: Tree, d: nat, more: nat, table: seq<Entry>)
    requires ValidTree(t) && d in t.dirs && Spare(t, more) && Blank(table)
    ensures ValidTree(Grown(t, d, more, table))
  {
    hide Closed, Listing;
    forall d' | d' in t.dirs
      ensures Closed(Grown(t, d, more, table), d')
    {
      GrownClosed(t, d, more, table, d');
    }
  }

  /** A directory that is full grows by a blank cluster; nothing else is found than before, and there is room. */
  lemma GrownLook(t: Tree, d: nat, more: nat, table: seq<Entry>, d': nat, name: string)
    requires ValidTree(t) && d in t.dirs && d' in t.dirs && Spare(t, more) && Blank(table)
    requires ValidTree(Grown(t, d, more, table))
    ensures Look(Grown(t, d, more, table), d', name) == Look(t, d', name)
  {
    var g := Grown(t, d, more, table);
    GrownList(t, d, more, table, d');
    GrownEntries(t, d, more, table, d');
    BlankPlaces(t, d, more, table);
    SameScan(t.tables, g.tables, List(t, d'), name);
    if d' == d {
      ScanMore(g.tables, List(t, d), PlacesIn(more, 0, |table|), name);
    }
  }

  lemma GrownReady(t: Tree, d: nat, more: nat, table: seq<Entry>)
    requires ValidTree(t) && d in t.dirs && Spare(t, more) && Blank(table) && ValidTree(Grown(t, d, more, table))
    requires Vacant(t.tables, List(t, d)).None?
    ensures Ready(Grown(t, d, more, table), d, Place(more, 0)) && TidyDir(Grown(t, d, more, table), d)
  {
    var g := Grown(t, d, more, table);
    var ps, qs := List(t, d), PlacesIn(more, 0, |table|);
    GrownList(t, d, more, table, d);
    GrownEntries(t, d, more, table, d);
    BlankPlaces(t, d, more, table);
    VacantIs(t.tables, ps);
    VacantSame(t.tables, g.tables, ps);
    VacantMore(g.tables, ps, qs);
    assert List(g, d) == ps + qs;
    TidyMore(t.tables, g.tables, ps, qs);
    hide ValidTree, Tidy, Vacant, Listing, PlacesIn;
  }

  lemma TidyMore(tables: seq<seq<Entry>>, tables': seq<seq<Entry>>, ps: seq<Place>, qs: seq<Place>)
    requires AllThere(tables, ps) && AllThere(tables', ps) && AllThere(tables', qs) && AllThere(tables', ps + qs)
    requires (forall i :: 0 <= i < |ps| ==> !IsFree(At(tables, ps[i])) && At(tables', ps[i]) == At(tables, ps[i]))
    requires forall i :: 0 <= i < |qs| ==> At(tables', qs[i]) == BLANK
    ensures Tidy(tables', ps + qs)
  {
  }

  lemma {:induction false} VacantSame(tables: seq<seq<Entry>>, tables': seq<seq<Entry>>, ps: seq<Place>)
    requires AllThere(tables, ps) && AllThere(tables', ps)
    requires forall i :: 0 <= i < |ps| ==> At(tables', ps[i]) == At(tables, ps[i])
    ensures Vacant(tables', ps) == Vacant(tables, ps)
  {
    if ps != [] && !IsFree(At(tables, ps[0])) {
      VacantSame(tables, tables', ps[1..]);
    }
  }

  lemma {:induction false} GrownResolve(t: Tree, d: nat, more: nat, table: seq<Entry>, path: string, from: nat)
    requires ValidTree(t) && d in t.dirs && Spare(t, more) && Blank(table) && ValidTree(Grown(t, d, more, table))
    requires from == 0 || from in t.dirs
    ensures Resolve(Grown(t, d, more, table), path, from) == Resolve(t, path, from)
    decreases |path|
  {
    var (dir, q) := Begin(t.root, path, from);
    GrownLook(t, d, more, table, dir, Element(q));
    var found := Look(t, dir, Element(q));
    if found.Some? {
      GrownFound(t, d, more, table, dir, Element(q));
      LookIs(t, dir, Element(q));
      var e := At(t.tables, found.value);
      if e.attr == DIRECTORY && Rest(q).Some? && Rest(q).value != [] {
        GrownResolve(t, d, more, table, Rest(q).value, e.first);
      }
    }
  }

  lemma GrownFound(t: Tree, d: nat, more: nat, table: seq<Entry>, dir: nat, name: string)
    requires ValidTree(t) && d in t.dirs && dir in t.dirs && Spare(t, more) && Blank(table) && Look(t, dir, name).Some?
    ensures var f := Look(t, dir, name).value;
            There(t.tables, f) && There(Grown(t, d, more, table).tables, f)
            && At(Grown(t, d, more, table).tables, f) == At(t.tables, f)
  {
    ScanNames(t.tables, List(t, dir), name);
    GrownEntries(t, d, more, table, dir);
    var i :| 0 <= i < |List(t, dir)| && List(t, dir)[i] == Look(t, dir, name).value;
  }

  // ----- the created file is found -----

  /** One step of a search. */
  lemma ResolveStep(t: Tree, path: string, from: nat, dir: nat, q: string)
    requires ValidTree(t) && (from == 0 || from in t.dirs) && Begin(t.root, path, from) == (dir, q)
    ensures dir in t.dirs && |q| <= |path|
    ensures var found := Look(t, dir, Element(q));
            if found.None? then Resolve(t, path, from) == (None, Rest(q).Some?)
            else
              && There(t.tables, found.value)
              && var e := At(t.tables, found.value);
                 if e.attr == DIRECTORY && Rest(q).Some? && Rest(q).value != []
                 then (e.first == 0 || e.first in t.dirs) && Resolve(t, path, from) == Resolve(t, Rest(q).value, e.first)
                 else Resolve(t, path, from) == (found, Rest(q).Some?)
  {
    if Look(t, dir, Element(q)).Some? {
      LookIs(t, dir, Element(q));
    }
  }

  /** The last element of a path is looked up in the directory that the rest leads to, or, if the search goes back, in the
      root. */
  lemma {:induction false} ResolveThrough(t: Tree, parent: string, name: string, from: nat, p: Place)
    requires ValidTree(t) && (from == 0 || from in t.dirs) && parent != [] && name != [] && '/' !in name
    requires Resolve(t, parent, from).0 == Some(p) && There(t.tables, p) && At(t.tables, p).attr == DIRECTORY
    requires At(t.tables, p).first == 0 || At(t.tables, p).first in t.dirs
    ensures Resolve(t, Path(parent, name), from) ==
            if Back(parent) then (Look(t, t.root, Element(name)), false) else Resolve(t, name, At(t.tables, p).first)
    decreases |parent|
  {
    hide *;
    var (dir, q) := Begin(t.root, parent, from);
    BeginBoth(t.root, parent, name, from);
    ResolveStep(t, parent, from, dir, q);
    ResolveStep(t, Path(parent, name), from, dir, Path(q, name));
    FullParts(q, name);
    RestIs(q);
    var found := Look(t, dir, Element(q));
    if Slash(q) < |q| {
      var rest := q[Slash(q) + 1..];
      PathLength(rest, name);
      if rest == [] {
        ResolveBack(t, name, At(t.tables, found.value).first);
      } else if At(t.tables, found.value).attr == DIRECTORY {
        ResolveThrough(t, rest, name, At(t.tables, found.value).first, p);
      }
    }
  }

  lemma BeginBoth(root: nat, parent: string, name: string, from: nat)
    requires parent != []
    ensures var (dir, q) := Begin(root, parent, from);
            && Begin(root, Path(parent, name), from) == (dir, Path(q, name)) && |q| <= |parent|
            && q == (if parent[0] == '/' then parent[1..] else parent)
    ensures var q := Begin(root, parent, from).1;
            && (Slash(q) == |q| ==> !Back(parent))
            && (Slash(q) < |q| ==> (Back(parent) <==> q[Slash(q) + 1..] == [] || Back(q[Slash(q) + 1..])))
  {
    PathTail(parent, name, 0);
    BackStep(parent, Begin(root, parent, from).1);
    hide Slash, Back;
  }

  lemma ResolveBack(t: Tree, name: string, from: nat)
    requires ValidTree(t) && (from == 0 || from in t.dirs) && '/' !in name
    ensures Resolve(t, Path([], name), from) == (Look(t, t.root, Element(name)), false)
  {
    var path := Path([], name);
    assert path[0] == '/' && path[1..] == name;
    hide ValidTree, Look;
    NoSlash(name);
    ResolveStep(t, path, from, t.root, name);
  }

  // ----- what CreateFile does to a tree -----

  /** The directory has room at p in t', which is the tree itself, or the tree with a blank cluster where it was full. */
  ghost predicate Roomy(t: Tree, d: nat, p: Place, t': Tree, more: nat, table: seq<Entry>) {
    && ValidTree(t) && d in t.dirs
    && if Vacant(t.tables, List(t, d)).Some? then Ready(t, d, p) && t' == t
       else Spare(t, more) && Blank(table) && t' == Grown(t, d, more, table) && p == Place(more, 0)
  }

  lemma RoomyReady(t: Tree, d: nat, p: Place, t': Tree, more: nat, table: seq<Entry>)
    requires Roomy(t, d, p, t', more, table)
    ensures Ready(t', d, p) && ValidTree(t) && ValidTree(t') && There(t'.tables, p) && d in t.dirs && d in t'.dirs
    ensures TidyDir(t, d) ==> TidyDir(t', d)
  {
    if Vacant(t.tables, List(t, d)).Some? {
      VacantIs(t.tables, List(t, d));
    } else {
      GrownValid(t, d, more, table);
      GrownReady(t, d, more, table);
    }
  }

  /** Every path leads to what it led to before a file was created, except that one that led nowhere may lead to it. */
  lemma OthersFound(t: Tree, d: nat, p: Place, t': Tree, more: nat, table: seq<Entry>, name: string, path: string, from: nat)
    requires Roomy(t, d, p, t', more, table) && TidyDir(t, d) && '\0' !in name && (from == 0 || from in t.dirs)
    ensures There(t'.tables, p) && ValidTree(WithEntry(t', p, name)) && (from == 0 || from in t'.dirs)
    ensures var before, after := Resolve(t, path, from), Resolve(WithEntry(t', p, name), path, from);
            after == before || (before.0 == None && after.0 == Some(p))
  {
    hide *;
    RoomyReady(t, d, p, t', more, table);
    RoomyFrom(t, d, p, t', more, table, from);
    RoomyResolve(t, d, p, t', more, table, path, from);
    EntryValid(t', d, p, name);
    EntryResolve(t', d, p, name, path, from);
  }

  lemma RoomyFrom(t: Tree, d: nat, p: Place, t': Tree, more: nat, table: seq<Entry>, from: nat)
    requires Roomy(t, d, p, t', more, table) && (from == 0 || from in t.dirs) && Ready(t', d, p)
    ensures from == 0 || from in t'.dirs
    ensures There(t'.tables, p) && ValidTree(t') && ValidTree(t)
  {
  }

  lemma RoomyResolve(t: Tree, d: nat, p: Place, t': Tree, more: nat, table: seq<Entry>, path: string, from: nat)
    requires Roomy(t, d, p, t', more, table) && (from == 0 || from in t.dirs) && ValidTree(t') && (from == 0 || from in t'.dirs)
    ensures Resolve(t', path, from) == Resolve(t, path, from)
  {
    hide ValidTree, Resolve;
    if Vacant(t.tables, List(t, d)).None? {
      GrownResolve(t, d, more, table, path, from);
    }
  }

  /** The last element of a path is looked up in a directory. */
  lemma ResolveLast(t: Tree, name: string, from: nat)
    requires ValidTree(t) && (from == 0 || from in t.dirs) && '/' !in name
    ensures Resolve(t, name, from) == (Look(t, if from == 0 then t.root else from, Element(name)), false)
  {
    NoSlash(name);
    ResolveStep(t, name, from, if from == 0 then t.root else from, name);
  }

  lemma WellFormedShort(name: string)
    requires WellFormed(name)
    ensures |name| <= ELEMENT
  {
    NameParts(name);
  }

  /** The first cluster of the directory that a path's last element is meant for. */
  ghost function ParentDir(t: Tree, path: string): Option<nat>
    requires ValidTree(t)
  {
    var k := LastSlash(path);
    if k == |path| || k == 0 then Some(t.root)
    else
      var r := Resolve(t, path[..k], 0).0;
      if r.Some? && There(t.tables, r.value) then Some(At(t.tables, r.value).first) else None
  }

  ghost predicate ParentIsDirectory(t: Tree, path: string)
    requires ValidTree(t)
  {
    var k := LastSlash(path);
    0 < k < |path| ==>
      var r := Resolve(t, path[..k], 0).0;
      r.Some? && There(t.tables, r.value) && At(t.tables, r.value).attr == DIRECTORY
  }

  /** Where the directory of a path is: the root for a name alone or with a slash in front, or where the rest leads. */
  ghost predicate ParentIs(t: Tree, path: string, d: nat) {
    ValidTree(t) && !NoName(path) && d in t.dirs && ParentDir(t, path) == Some(d) && ParentIsDirectory(t, path)
  }

  /** The directory in which a path's last element is looked up. */
  ghost function LookedUpIn(t: Tree, path: string, d: nat): nat {
    if Restarts(path) then t.root else d
  }

  /** A path is looked up in its directory, or in the root. */
  lemma ResolveParent(t: Tree, path: string, d: nat)
    requires ParentIs(t, path, d)
    ensures LookedUpIn(t, path, d) in t.dirs
    ensures Resolve(t, path, 0) == (Look(t, LookedUpIn(t, path, d), Element(FileName(path))), false)
  {
    var k, name := LastSlash(path), FileName(path);
    LastNoSlash(path);
    NoNameIs(path);
    assert d != 0 && t.root in t.dirs;
    hide ValidTree, Resolve, Look, LastSlash, There, FileName;
    if 0 < k < |path| {
      var p := Resolve(t, path[..k], 0).0.value;
      RestartsIs(path);
      PathParts(path);
      ResolveLast(t, name, d);
      ResolveThrough(t, path[..k], name, 0, p);
    } else if k == |path| {
      WholeName(path);
      ResolveLast(t, path, 0);
    } else {
      PathParts(path);
      ResolveBack(t, name, 0);
    }
  }

  lemma WholeName(path: string)
    requires LastSlash(path) == |path|
    ensures FileName(path) == path
  {
  }

  /** What a path leads to is an entry of some directory. */
  lemma {:induction false} ResolvedIn(t: Tree, path: string, from: nat)
    requires ValidTree(t) && (from == 0 || from in t.dirs) && Resolve(t, path, from).0.Some?
    ensures var p := Resolve(t, path, from).0.value;
            There(t.tables, p) && exists dir :: dir in t.dirs && p.cluster in t.dirs[dir]
    decreases |path|
  {
    var (dir, q) := Begin(t.root, path, from);
    ResolveStep(t, path, from, dir, q);
    var found := Look(t, dir, Element(q)).value;
    var e := At(t.tables, found);
    if e.attr == DIRECTORY && Rest(q).Some? && Rest(q).value != [] {
      ResolvedIn(t, Rest(q).value, e.first);
    } else {
      ScanNames(t.tables, List(t, dir), Element(q));
      ListingThere(t.tables, t.dirs[dir]);
      assert found in List(t, dir);
    }
  }

  /** A directory that a path leads to is there, with the same entry, after a file was created. */
  lemma DirectoryKept(t: Tree, d: nat, p: Place, t': Tree, more: nat, table: seq<Entry>, name: string, q: Place)
    requires Roomy(t, d, p, t', more, table) && Ready(t', d, p) && There(t.tables, q) && At(t.tables, q).attr == DIRECTORY
    requires exists dir :: dir in t.dirs && q.cluster in t.dirs[dir]
    ensures There(WithEntry(t', p, name).tables, q) && At(WithEntry(t', p, name).tables, q) == At(t.tables, q)
  {
    EntryPlace(t', d, p);
    assert There(t'.tables, q) && At(t'.tables, q) == At(t.tables, q);
    PutAt(t'.tables, p, Named(At(t'.tables, p), name), q);
  }

  lemma ParentKept(t: Tree, d: nat, p: Place, t': Tree, more: nat, table: seq<Entry>, path: string, name: string)
    requires Roomy(t, d, p, t', more, table) && TidyDir(t, d) && Ready(t', d, p) && '\0' !in name && ParentIs(t, path, d)
    requires ValidTree(WithEntry(t', p, name))
    ensures ParentIs(WithEntry(t', p, name), path, d)
  {
    var k := LastSlash(path);
    RoomyDirs(t, d, p, t', more, table);
    if 0 < k < |path| {
      var q := Resolve(t, path[..k], 0).0.value;
      hide ValidTree, Resolve, There, LastSlash;
      OthersFound(t, d, p, t', more, table, name, path[..k], 0);
      ResolvedIn(t, path[..k], 0);
      DirectoryKept(t, d, p, t', more, table, name, q);
    }
  }

  lemma RoomyDirs(t: Tree, d: nat, p: Place, t': Tree, more: nat, table: seq<Entry>)
    requires Roomy(t, d, p, t', more, table)
    ensures t'.dirs.Keys == t.dirs.Keys && t'.root == t.root
  {
  }

  /** A path that led nowhere leads to the file that is created for it, exactly if its last element is looked up where the
      file is, and names it: it does if it is well formed. */
  lemma CreatedFound(t: Tree, d: nat, p: Place, t': Tree, more: nat, table: seq<Entry>, path: string, name: string)
    requires Roomy(t, d, p, t', more, table) && TidyDir(t, d) && '\0' !in name && ParentIs(t, path, d) && name == FileName(path)
    requires Resolve(t, path, 0).0 == None
    ensures There(t'.tables, p) && ValidTree(WithEntry(t', p, name))
    ensures Resolve(WithEntry(t', p, name), path, 0) ==
            (if LookedUpIn(t, path, d) == d && Names(Named(At(t'.tables, p), name), Element(name)) then Some(p) else None, false)
    ensures WellFormed(name) ==> (Resolve(WithEntry(t', p, name), path, 0).0 == Some(p) <==> !Restarts(path) || d == t.root)
  {
    hide ValidTree, Resolve, There, Look, ParentIs, Roomy, Ready, TidyDir, Restarts, FileName, WellFormed, Element;
    RoomyReady(t, d, p, t', more, table);
    RoomyDirs(t, d, p, t', more, table);
    EntryValid(t', d, p, name);
    ResolveParent(t, path, d);
    ParentKept(t, d, p, t', more, table, path, name);
    ResolveParent(WithEntry(t', p, name), path, d);
    var e := LookedUpIn(t, path, d);
    RoomyLook(t, d, p, t', more, table, e, Element(name));
    EntryLook(t', d, p, name, e, Element(name));
    LastElement(path);
    if WellFormed(name) {
      WellFormedShort(name);
      assert Names(Named(At(t'.tables, p), name), name);
    }
  }

  lemma LastElement(path: string)
    ensures var name := FileName(path); Element(name) == if |name| > ELEMENT then [] else name
  {
    LastNoSlash(path);
    NoSlash(FileName(path));
  }

  lemma RoomyLook(t: Tree, d: nat, p: Place, t': Tree, more: nat, table: seq<Entry>, e: nat, name: string)
    requires Roomy(t, d, p, t', more, table) && ValidTree(t') && e in t.dirs
    ensures ValidTree(t) && e in t'.dirs && Look(t', e, name) == Look(t, e, name) && There(t'.tables, p)
  {
    if Vacant(t.tables, List(t, d)).None? {
      GrownLook(t, d, more, table, e, name);
    } else {
      VacantIs(t.tables, List(t, d));
    }
  }
}
