/** The driver's searches through directories, cluster by cluster. */
module FatLookup {
  import opened FatNames
  import opened FatChains
  import opened FatDirectories
  import opened FatPaths
  import opened FatCreation

  datatype Error = Success | IsDirectory | NoSuchEntry

  class Directories {
    const volume: Volume
    /** The clusters, read as entries; of the volume only the FAT counts here. */
    const tables: array<seq<Entry>>
    const root: nat
    const entriesPerCluster: nat
    ghost var dirs: map<nat, seq<nat>>

    ghost function View(): Tree
      reads this, tables
    {
      Tree(tables[..], dirs, root)
    }

    /** The chains of the tree are those of the FAT. */
    ghost predicate Valid()
      reads this, tables, volume.fat
    {
      && tables.Length == volume.fat.Length && ValidTree(View()) && entriesPerCluster > 0
      && Even(tables[..], entriesPerCluster) && ChainsOf(volume.fat[..], dirs)
    }

    constructor (volume: Volume, tables: array<seq<Entry>>, root: nat, entriesPerCluster: nat, ghost dirs: map<nat, seq<nat>>)
      ensures this.volume == volume && this.tables == tables && this.root == root
      ensures this.entriesPerCluster == entriesPerCluster && this.dirs == dirs
    {
      this.volume, this.tables, this.root, this.entriesPerCluster := volume, tables, root, entriesPerCluster;
      this.dirs := dirs;
    }

    /** A chain of the FAT, in clusters that can be read as entries. */
    ghost predicate Clusters(c: seq<nat>)
      reads tables, volume.fat
    {
      && tables.Length == volume.fat.Length && Shaped(tables[..]) && entriesPerCluster > 0
      && Even(tables[..], entriesPerCluster) && Chain(volume.fat[..], c) && InTables(tables[..], c)
    }

    lemma DirectoryClusters(d: nat)
      requires Valid() && d in dirs
      ensures Clusters(dirs[d]) && dirs[d][0] == d && Listing(tables[..], dirs[d]) == List(View(), d)
    {
    }

    // ----- searching one chain -----

    /** What is still to be searched from entry i of the j-th cluster on. */
    ghost function Remaining(c: seq<nat>, j: nat, i: nat): (ps: seq<Place>)
      requires Clusters(c) && j < |c| && i <= entriesPerCluster
      reads tables, volume.fat
      ensures AllThere(tables[..], ps)
    {
      RemainingThere(tables[..], c, j, i, entriesPerCluster);
      PlacesIn(c[j], i, entriesPerCluster) + Listing(tables[..], c[j + 1..])
    }

    /** The entries of a chain. */
    ghost function Entries(c: seq<nat>): (ps: seq<Place>)
      requires Clusters(c)
      reads tables, volume.fat
      ensures AllThere(tables[..], ps)
    {
      ListingThere(tables[..], c);
      Listing(tables[..], c)
    }

    lemma RemainingStarts(c: seq<nat>)
      requires Clusters(c)
      ensures c != [] && Remaining(c, 0, 0) == Entries(c)
    {
      assert c[1..] == c[0 + 1..];
    }

    lemma RemainingNext(c: seq<nat>, j: nat, i: nat)
      requires Clusters(c) && j < |c| && i < entriesPerCluster
      ensures var ps := Remaining(c, j, i);
              ps != [] && ps[0] == Place(c[j], i) && ps[1..] == Remaining(c, j, i + 1) && There(tables[..], ps[0])
    {
      var rest := Listing(tables[..], c[j + 1..]);
      assert PlacesIn(c[j], i, entriesPerCluster) == [Place(c[j], i)] + PlacesIn(c[j], i + 1, entriesPerCluster);
      HeadTail(Place(c[j], i), PlacesIn(c[j], i + 1, entriesPerCluster), rest);
      hide Listing, PlacesIn, Chain;
    }

    lemma RemainingCluster(c: seq<nat>, j: nat)
      requires Clusters(c) && j < |c|
      ensures Remaining(c, j, entriesPerCluster) == if j + 1 < |c| then Remaining(c, j + 1, 0) else []
    {
      hide Chain, Even, Shaped;
      RestListing(tables[..], c[j + 1..], c, j, entriesPerCluster);
      assert PlacesIn(c[j], entriesPerCluster, entriesPerCluster) == [];
    }

    /** The entries of one cluster; unless the search is over, it goes on with the next one. */
    method SearchCluster(cluster: nat, name: string, ghost c: seq<nat>, ghost j: nat) returns (over: bool, found: Option<Place>)
      requires Clusters(c) && j < |c| && cluster == c[j] && cluster < tables.Length
      ensures over ==> found == Scan(tables[..], Remaining(c, j, 0), name)
      ensures !over ==> Scan(tables[..], Remaining(c, j, entriesPerCluster), name) == Scan(tables[..], Remaining(c, j, 0), name)
    {
      hide Remaining, Chain;
      for i := 0 to entriesPerCluster
        invariant Scan(tables[..], Remaining(c, j, i), name) == Scan(tables[..], Remaining(c, j, 0), name)
      {
        RemainingNext(c, j, i);
        if tables[cluster][i].name[0] == END_MARK {
          return true, None;
        }
        var equal := NameIsEqual(tables[cluster][i].name, name);
        if equal {
          return true, Some(Place(cluster, i));
        }
      }
      over, found := false, None;
    }

    lemma ClusterOf(c: seq<nat>, j: nat)
      requires Clusters(c) && j < |c|
      ensures Chain(volume.fat[..], c) && FIRST_CLUSTER <= c[j] < tables.Length && c[j] != END_OF_CHAIN
    {
      ChainStep(volume.fat[..], c, j);
    }

    /** The loops of FindFile: clusters one after the other, and their entries. */
    method FindEntry(d: nat, name: string) returns (found: Option<Place>)
      requires Valid() && d in dirs
      ensures found == Look(View(), d, name)
    {
      ghost var j: nat := 0;
      ghost var c := dirs[d];
      var cluster := d;
      DirectoryClusters(d);
      RemainingStarts(c);
      ClusterOf(c, 0);
      assert Look(View(), d, name) == Scan(tables[..], Entries(c), name);
      hide ValidTree, Remaining, Chain, Scan, Look, Clusters, Entries;
      while cluster != END_OF_CHAIN
        invariant cluster != END_OF_CHAIN ==> j < |c| && cluster == c[j]
        invariant cluster != END_OF_CHAIN ==> Scan(tables[..], Remaining(c, j, 0), name) == Look(View(), d, name)
        invariant cluster == END_OF_CHAIN ==> Look(View(), d, name) == None
        decreases if cluster == END_OF_CHAIN then 0 else |c| - j
      {
        var over;
        ClusterOf(c, j);
        over, found := SearchCluster(cluster, name, c, j);
        if over {
          return;
        }
        RemainingCluster(c, j);
        ScanNone(tables[..], name);
        cluster := volume.NextCluster(cluster, c, j);
        j := j + 1;
        if j < |c| {
          ClusterOf(c, j);
        }
      }
      found := None;
    }

    /** The entry a path leads to, and whether the search stopped before a slash. */
    method FindFile(path: string, d: nat) returns (found: Option<Place>, postSlash: bool)
      requires Valid() && (d == 0 || d in dirs)
      ensures (found, postSlash) == Resolve(View(), path, d)
      decreases |path|
    {
      hide ValidTree, Look, Chain, There;
      var (dir, q) := Begin(root, path, d);
      ResolveStep(View(), path, d, dir, q);
      var rest := Rest(q);
      postSlash := rest.Some?;
      found := FindEntry(dir, Element(q));
      if found.Some? {
        EntryThere(found.value);
        var e := tables[found.value.cluster][found.value.index];
        if e.attr == DIRECTORY && rest.Some? && rest.value != [] {
          found, postSlash := FindFile(rest.value, e.first);
        }
      }
    }

    lemma EntryThere(p: Place)
      requires There(tables[..], p)
      ensures p.cluster < tables.Length && p.index < |tables[p.cluster]| && At(tables[..], p) == tables[p.cluster][p.index]
    {
    }

    // ----- creating -----

    method VacantInCluster(cluster: nat, ghost c: seq<nat>, ghost j: nat) returns (p: Option<Place>)
      requires Clusters(c) && j < |c| && cluster == c[j] && cluster < tables.Length
      ensures p.Some? ==> p == Vacant(tables[..], Remaining(c, j, 0))
      ensures p.None? ==> Vacant(tables[..], Remaining(c, j, entriesPerCluster)) == Vacant(tables[..], Remaining(c, j, 0))
    {
      hide Remaining, Chain;
      for i := 0 to entriesPerCluster
        invariant Vacant(tables[..], Remaining(c, j, i)) == Vacant(tables[..], Remaining(c, j, 0))
      {
        RemainingNext(c, j, i);
        if tables[cluster][i].name[0] == END_MARK || tables[cluster][i].name[0] == DELETED_MARK {
          return Some(Place(cluster, i));
        }
      }
      p := None;
    }

    /** The first entry that is not in use, or the chain's last cluster. */
    method FindVacant(first: nat, ghost c: seq<nat>) returns (p: Option<Place>, cluster: nat)
      requires Clusters(c) && c[0] == first
      ensures p == Vacant(tables[..], Entries(c))
      ensures p.None? ==> cluster == Last(c)
    {
      ghost var j: nat := 0;
      cluster := first;
      RemainingStarts(c);
      ClusterOf(c, 0);
      hide Remaining, Chain, Vacant, Clusters, Entries;
      var next := cluster;
      while next != END_OF_CHAIN
        invariant j < |c| && cluster == c[j]
        invariant next != END_OF_CHAIN ==> next == cluster && Vacant(tables[..], Remaining(c, j, 0)) == Vacant(tables[..], Entries(c))
        invariant next == END_OF_CHAIN ==> Vacant(tables[..], Entries(c)) == None && cluster == Last(c)
        decreases |c| - j, if next == END_OF_CHAIN then 0 else 1
      {
        ClusterOf(c, j);
        p := VacantInCluster(cluster, c, j);
        if p.Some? {
          return;
        }
        RemainingCluster(c, j);
        VacantNone(tables[..]);
        next := volume.NextCluster(cluster, c, j);
        if next != END_OF_CHAIN {
          cluster := next;
          j := j + 1;
        }
      }
      p := None;
    }

    /** There is room for one more entry in a chain, or a free cluster. */
    ghost predicate HasRoom(c: seq<nat>)
      reads tables, volume.fat
    {
      Clusters(c) && (Vacant(tables[..], Entries(c)).None? ==> 0 < |Free(volume.fat[..])|)
    }

    /** The first entry that is not in use or, if there is none, the first of a blank cluster: the lowest-numbered free one
        is linked to the chain. */
    method AllocateEntry(first: nat, ghost c: seq<nat>) returns (p: Place, ghost more: nat, ghost table: seq<Entry>)
      requires HasRoom(c) && c[0] == first
      modifies tables, volume.fat
      ensures Allocates(old(tables[..]), old(volume.fat[..]), c, entriesPerCluster, p, more, table, tables[..], volume.fat[..])
    {
      hide Allocates, Clusters, Extended, Vacant, Entries, Free, Chain;
      ghost var before, fat := tables[..], volume.fat[..];
      more, table := 0, [];
      RoomIs(c);
      var vacant, cluster := FindVacant(first, c);
      if vacant.Some? {
        p := vacant.value;
        AllocatesVacant(before, fat, c, entriesPerCluster, p, more, table);
        return;
      }
      FreeInside(c);
      var grown := volume.ExtendCluster(cluster, 1, c);
      NewLast(c, fat);
      more, table := grown, seq(entriesPerCluster, i => BLANK);
      tables[grown] := seq(entriesPerCluster, i => BLANK);
      p := Place(grown, 0);
      AllocatesMore(before, fat, c, entriesPerCluster, p, more, table, tables[..], volume.fat[..]);
    }

    lemma RoomIs(c: seq<nat>)
      requires HasRoom(c)
      ensures Clusters(c) && Chain(volume.fat[..], c) && InTables(tables[..], c) && c != [] && Shaped(tables[..])
      ensures AllThere(tables[..], Listing(tables[..], c)) && Listing(tables[..], c) == Entries(c) && entriesPerCluster > 0
      ensures Vacant(tables[..], Entries(c)).None? ==> 0 < |Free(volume.fat[..])|
      ensures Last(c) in c
    {
      LastIn(c);
    }

    lemma FreeInside(c: seq<nat>)
      requires Clusters(c) && 0 < |Free(volume.fat[..])|
      ensures Free(volume.fat[..])[0] < tables.Length
    {
      FreeExact(volume.fat[..], FIRST_CLUSTER);
      assert Free(volume.fat[..])[0] in Free(volume.fat[..]);
    }

    /** The entry gets its name and no size; its other fields stay as they are. */
    method SetEntry(p: Place, name: string)
      requires There(tables[..], p)
      modifies tables
      ensures tables[..] == Put(old(tables[..]), p, Named(At(old(tables[..]), p), name))
    {
      ghost var before := tables[..];
      EntryThere(p);
      hide Named;
      var short := SetFileName(name);
      var e := tables[p.cluster][p.index];
      NamedIs(e, name);
      tables[p.cluster] := tables[p.cluster][p.index := e.(name := short, size := 0)];
      assert tables[..] == before[p.cluster := tables[p.cluster]];
    }

    lemma NamedIs(e: Entry, name: string)
      ensures Named(e, name) == e.(name := ShortName(name), size := 0)
    {
    }

    lemma ValidIf()
      requires |View().tables| == volume.fat.Length && ValidTree(View())
      requires entriesPerCluster > 0 && Even(View().tables, entriesPerCluster) && ChainsOf(volume.fat[..], View().dirs)
      ensures Valid()
    {
    }

    lemma FreeIsSpare()
      requires Valid() && 0 < |Free(volume.fat[..])|
      ensures var more := Free(volume.fat[..])[0]; Spare(View(), more)
    {
      var fat, more := volume.fat[..], Free(volume.fat[..])[0];
      FreeExact(fat, FIRST_CLUSTER);
      assert more in Free(fat);
      forall d' | d' in dirs
        ensures more !in dirs[d']
      {
        if more in dirs[d'] {
          ChainTaken(fat, dirs[d'], more);
        }
      }
    }

    /** The name that the path ends with, and the path of its directory, if it has one. */
    method SplitPath(path: string) returns (k: nat)
      ensures k == LastSlash(path)
    {
      k := |path|;
      var i := |path|;
      while i > 0
        invariant 0 <= i <= |path| && k == |path| && '/' !in path[i..]
      {
        i := i - 1;
        if path[i] == '/' {
          assert '/' !in path[i + 1..];
          LastSlashIs(path, i);
          return i;
        }
        assert path[i..] == [path[i]] + path[i + 1..];
      }
      assert path[0..] == path;
      LastSlashIs(path, |path|);
    }

    /** What the driver expects: what the path's parent keeps in its clusters has room, in its directory or, if the parent
        is an ordinary file, in the file's chain c; a vacant entry is not that of a directory that was deleted. */
    ghost predicate CanCreate(path: string, c: seq<nat>)
      reads this, tables, volume.fat
    {
      && Valid() && '\0' !in path
      && (!NoName(path) && ParentDir(View(), path).Some? ==>
            var d := ParentDir(View(), path).value;
            && HasRoom(c) && c[0] == d
            && if ParentIsDirectory(View(), path) then d in dirs && c == dirs[d] && NoDirectory(View(), d) else AwayFrom(dirs, c))
    }

    lemma Parent(path: string, c: seq<nat>, d: nat)
      requires CanCreate(path, c) && !NoName(path) && ParentDir(View(), path) == Some(d)
      ensures Valid() && HasRoom(c) && c[0] == d && '\0' !in FileName(path)
      ensures if ParentIsDirectory(View(), path) then d in dirs && c == dirs[d] && NoDirectory(View(), d) else AwayFrom(dirs, c)
    {
    }

    /** The search for the parent of a path. */
    method FindParent(path: string, k: nat) returns (d: Option<nat>)
      requires Valid() && k == LastSlash(path) && !NoName(path)
      ensures d == ParentDir(View(), path)
    {
      if k == |path| || k == 0 {
        return Some(root);
      }
      var found, _ := FindFile(path[..k], 0);
      if found.None? {
        return None;
      }
      ResolvedIn(View(), path[..k], 0);
      EntryThere(found.value);
      d := Some(tables[found.value.cluster][found.value.index].first);
    }

    /** Creates a file. A path without name is that of a directory, and there may be no parent for it; then nothing changes.
        Otherwise a new entry is made: in the parent's directory, or, if the parent is an ordinary file, over that file's
        bytes. c' is the parent's chain afterwards. */
    method CreateFile(path: string, ghost c: seq<nat>) returns (err: Error, p: Place, ghost slot: Entry, ghost c': seq<nat>)
      requires CanCreate(path, c)
      modifies this`dirs, tables, volume.fat
      ensures Valid()
      ensures err == IsDirectory <==> NoName(path)
      ensures err == NoSuchEntry <==> !NoName(path) && old(ParentDir(View(), path)).None?
      ensures err != Success ==> View() == old(View()) && volume.fat[..] == old(volume.fat[..])
      ensures err == Success ==> Chain(volume.fat[..], c') && p.cluster in c' && c <= c'
      ensures err == Success && old(ParentIsDirectory(View(), path)) ==> Creates(old(View()), path, p, slot, View())
      ensures err == Success && !old(ParentIsDirectory(View(), path)) ==> Overwrites(old(View()), path, p, slot, c', View())
      ensures err == Success ==> (InDirectory(dirs, p) <==> old(ParentIsDirectory(View(), path)))
    {
      hide ValidTree, Creates, Overwrites, ParentDir, ParentIsDirectory, LastSlash, CanCreate, HasRoom, InDirectory, Chain;
      ValidParts(path, c);
      var k := SplitPath(path);
      NoNameIs(path);
      slot, c' := BLANK, [];
      var name := if k < |path| then path[k + 1..] else path;
      if k < |path| && name == [] {
        return IsDirectory, Place(0, 0), slot, c';
      }
      var parent := FindParent(path, k);
      if parent.None? {
        return NoSuchEntry, Place(0, 0), slot, c';
      }
      p, slot, c' := MakeEntry(path, name, parent.value, c);
      err := Success;
    }

    lemma ValidParts(path: string, c: seq<nat>)
      requires CanCreate(path, c)
      ensures Valid() && ValidTree(View())
    {
    }

    /** The new entry. Of the parent, only where its clusters are is looked at. */
    method MakeEntry(path: string, name: string, d: nat, ghost c: seq<nat>) returns (p: Place, ghost slot: Entry, ghost c': seq<nat>)
      requires CanCreate(path, c) && Valid() && ParentDir(View(), path) == Some(d) && !NoName(path) && name == FileName(path)
      modifies this`dirs, tables, volume.fat
      ensures Valid() && Chain(volume.fat[..], c') && p.cluster in c' && c <= c'
      ensures old(ParentIsDirectory(View(), path)) ==> Creates(old(View()), path, p, slot, View())
      ensures !old(ParentIsDirectory(View(), path)) ==> Overwrites(old(View()), path, p, slot, c', View())
      ensures InDirectory(dirs, p) <==> old(ParentIsDirectory(View(), path))
    {
      hide *;
      ghost var t, fat, n := View(), volume.fat[..], entriesPerCluster;
      Parent(path, c, d);
      RoomIs(c);
      ValidIs();
      ghost var more, table;
      p, more, table := AllocateEntry(d, c);
      ghost var tables1 := tables[..];
      c' := ChainAfter(t.tables, c, more);
      AllocatesChain(t.tables, fat, c, n, p, more, table, tables1, volume.fat[..]);
      slot := At(tables1, p);
      SetEntry(p, name);
      ViewIs();
      if ParentIsDirectory(t, path) {
        dirs := dirs[d := c'];
        ViewIs();
        InDirectoryCreated(t, fat, path, d, n, p, more, table, tables1, View(), volume.fat[..]);
      } else {
        InFileCreated(t, fat, path, d, c, n, p, more, table, tables1, View(), volume.fat[..]);
      }
      ValidIf();
    }

    lemma ValidIs()
      requires Valid()
      ensures ValidTree(View()) && View() == Tree(tables[..], dirs, root) && |tables[..]| == volume.fat.Length
      ensures Even(tables[..], entriesPerCluster) && ChainsOf(volume.fat[..], dirs) && entriesPerCluster > 0
      ensures 0 < |Free(volume.fat[..])| ==> Spare(View(), Free(volume.fat[..])[0])
    {
      if 0 < |Free(volume.fat[..])| {
        FreeIsSpare();
      }
    }

    lemma ViewIs()
      ensures View() == Tree(tables[..], dirs, root) && |tables[..]| == tables.Length
    {
    }
  }

  // ----- what allocating an entry does -----

  ghost predicate AwayFrom(dirs: map<nat, seq<nat>>, c: seq<nat>) {
    forall d <- dirs, x <- c :: x !in dirs[d]
  }

  ghost predicate InDirectory(dirs: map<nat, seq<nat>>, p: Place) {
    exists d :: d in dirs && p.cluster in dirs[d]
  }

  /** The vacant entry of a directory, if there is one, is not that of a directory that was deleted. */
  ghost predicate NoDirectory(t: Tree, d: nat) {
    ValidTree(t) && d in t.dirs
    && (Vacant(t.tables, List(t, d)).Some? ==> Ready(t, d, Vacant(t.tables, List(t, d)).value))
  }

  /** The first vacant place of a chain, or the first one of a blank cluster after it. */
  ghost predicate Allocates(tables: seq<seq<Entry>>, fat: seq<nat>, c: seq<nat>, n: nat, p: Place, more: nat, table: seq<Entry>,
                            tables': seq<seq<Entry>>, fat': seq<nat>) {
    && Shaped(tables) && InTables(tables, c) && AllThere(tables, Listing(tables, c))
    && var vacant := Vacant(tables, Listing(tables, c));
       if vacant.Some? then p == vacant.value && tables' == tables && fat' == fat
       else
         && 0 < |Free(fat)| && more == Free(fat)[0] < |tables| && Blank(table) && |table| == n && Chain(fat, c)
         && tables' == tables[more := table] && Extended(fat, fat', c, [more]) && p == Place(more, 0)
  }

  ghost function ChainAfter(tables: seq<seq<Entry>>, c: seq<nat>, more: nat): seq<nat>
    requires InTables(tables, c) && AllThere(tables, Listing(tables, c))
  {
    if Vacant(tables, Listing(tables, c)).Some? then c else c + [more]
  }

  lemma AllocatesVacant(tables: seq<seq<Entry>>, fat: seq<nat>, c: seq<nat>, n: nat, p: Place, more: nat, table: seq<Entry>)
    requires Shaped(tables) && InTables(tables, c) && AllThere(tables, Listing(tables, c))
    requires Vacant(tables, Listing(tables, c)) == Some(p)
    ensures Allocates(tables, fat, c, n, p, more, table, tables, fat)
  {
  }

  lemma AllocatesMore(tables: seq<seq<Entry>>, fat: seq<nat>, c: seq<nat>, n: nat, p: Place, more: nat, table: seq<Entry>,
                      tables': seq<seq<Entry>>, fat': seq<nat>)
    requires Shaped(tables) && InTables(tables, c) && AllThere(tables, Listing(tables, c)) && Chain(fat, c)
    requires Vacant(tables, Listing(tables, c)).None? && 0 < |Free(fat)| && more == Free(fat)[0] < |tables|
    requires n > 0 && table == seq(n, i => BLANK) && tables' == tables[more := table]
    requires Extended(fat, fat', c, Free(fat)[..1]) && p == Place(more, 0)
    ensures Allocates(tables, fat, c, n, p, more, table, tables', fat')
  {
    assert Free(fat)[..1] == [more];
    hide Extended, Chain, Vacant, Free;
  }

  /** The place is in the chain, which is still one. */
  lemma AllocatesChain(tables: seq<seq<Entry>>, fat: seq<nat>, c: seq<nat>, n: nat, p: Place, more: nat, table: seq<Entry>,
                       tables': seq<seq<Entry>>, fat': seq<nat>)
    requires Allocates(tables, fat, c, n, p, more, table, tables', fat') && Chain(fat, c)
    ensures var c' := ChainAfter(tables, c, more); Chain(fat', c') && p.cluster in c' && c <= c'
    ensures There(tables', p) && |tables'| == |tables| && Shaped(tables')
  {
    var ps := Listing(tables, c);
    VacantIs(tables, ps);
    ListingThere(tables, c);
    if Vacant(tables, ps).Some? {
      var i :| 0 <= i < |ps| && ps[i] == p;
    } else {
      assert Free(fat)[..1] == [more];
      assert more in c + [more];
    }
  }

  /** Clusters that no directory uses change: every search finds what it found. */
  lemma AwayValid(t: Tree, tables': seq<seq<Entry>>)
    requires ValidTree(t) && |tables'| == |t.tables| && Shaped(tables') && forall c :: 0 <= c < |tables'| ==> tables'[c] != []
    requires forall d <- t.dirs, x <- t.dirs[d] :: x < |tables'| ==> tables'[x] == t.tables[x]
    ensures ValidTree(t.(tables := tables'))
  {
    hide Listing;
    var t' := t.(tables := tables');
    forall d | d in t.dirs
      ensures Closed(t', d)
    {
      assert Closed(t, d);
      AwayList(t, tables', d);
    }
  }

  lemma AwayList(t: Tree, tables': seq<seq<Entry>>, d: nat)
    requires ValidTree(t) && |tables'| == |t.tables| && d in t.dirs
    requires forall x <- t.dirs[d] :: x < |tables'| ==> tables'[x] == t.tables[x]
    ensures Listing(tables', t.dirs[d]) == List(t, d) && AllThere(tables', List(t, d))
    ensures forall i :: 0 <= i < |List(t, d)| ==> At(tables', List(t, d)[i]) == At(t.tables, List(t, d)[i])
  {
    SameListing(t.tables, tables', t.dirs[d]);
    ListingThere(t.tables, t.dirs[d]);
  }

  lemma AwayLook(t: Tree, tables': seq<seq<Entry>>, d: nat, name: string)
    requires ValidTree(t) && |tables'| == |t.tables| && d in t.dirs && ValidTree(t.(tables := tables'))
    requires forall x <- t.dirs[d] :: x < |tables'| ==> tables'[x] == t.tables[x]
    ensures Look(t.(tables := tables'), d, name) == Look(t, d, name)
    ensures Look(t, d, name).Some? ==>
              var q := Look(t, d, name).value;
              There(t.tables, q) && There(tables', q) && At(tables', q) == At(t.tables, q)
              && (At(t.tables, q).attr == DIRECTORY ==> At(t.tables, q).first == 0 || At(t.tables, q).first in t.dirs)
  {
    AwayList(t, tables', d);
    SameScan(t.tables, tables', List(t, d), name);
    ScanNames(t.tables, List(t, d), name);
    if Look(t, d, name).Some? {
      LookIs(t, d, name);
    }
  }

  lemma {:induction false} AwayResolve(t: Tree, tables': seq<seq<Entry>>, path: string, from: nat)
    requires ValidTree(t) && |tables'| == |t.tables| && ValidTree(t.(tables := tables')) && (from == 0 || from in t.dirs)
    requires forall d <- t.dirs, x <- t.dirs[d] :: x < |tables'| ==> tables'[x] == t.tables[x]
    ensures Resolve(t.(tables := tables'), path, from) == Resolve(t, path, from)
    decreases |path|
  {
    hide ValidTree, Look;
    var (dir, q) := Begin(t.root, path, from);
    ResolveStep(t, path, from, dir, q);
    AwayLook(t, tables', dir, Element(q));
    ResolveStep(t.(tables := tables'), path, from, dir, q);
    var found := Look(t, dir, Element(q));
    if found.Some? && At(t.tables, found.value).attr == DIRECTORY && Rest(q).Some? && Rest(q).value != [] {
      AwayResolve(t, tables', Rest(q).value, At(t.tables, found.value).first);
    }
  }

  /** The entry that a new file gets, as it was: the first vacant one, or a blank one. */
  ghost function VacantEntry(t: Tree, d: nat): Entry
    requires ValidTree(t) && d in t.dirs
  {
    VacantIs(t.tables, List(t, d));
    var p := Vacant(t.tables, List(t, d));
    if p.Some? then At(t.tables, p.value) else BLANK
  }

  /** A path leads to what it led to before, or it led nowhere and leads to the new entry. */
  ghost predicate Kept(t: Tree, t': Tree, p: Place, path: string, from: nat)
    requires ValidTree(t) && ValidTree(t') && (from == 0 || from in t.dirs)
  {
    && (from == 0 || from in t'.dirs)
    && (Resolve(t', path, from) == Resolve(t, path, from)
        || (Resolve(t, path, from).0 == None && Resolve(t', path, from).0 == Some(p)))
  }

  ghost predicate OthersKept(t: Tree, t': Tree, p: Place) {
    ValidTree(t) && ValidTree(t') && forall path, from | from == 0 || from in t.dirs :: Kept(t, t', p, path, from)
  }

  /** What creating a file does: the new entry is the vacant one with a name and without size. In a tidy directory nothing
      else is found than before; and a path that led nowhere leads to the new entry exactly if the path's last element is
      looked up in that directory and the entry has its name, as it does if the name is well formed. */
  ghost predicate Creates(t: Tree, path: string, p: Place, slot: Entry, t': Tree) {
    && ValidTree(t) && ValidTree(t') && ParentDir(t, path).Some? && There(t'.tables, p)
    && var d, name := ParentDir(t, path).value, FileName(path);
       && d in t.dirs && slot == VacantEntry(t, d) && At(t'.tables, p) == Named(slot, name)
       && (WellFormed(name) ==> Names(Named(slot, name), Element(name)))
       && (TidyDir(t, d) ==> OthersKept(t, t', p))
       && (TidyDir(t, d) && Resolve(t, path, 0).0 == None ==>
             Resolve(t', path, 0) ==
             (if LookedUpIn(t, path, d) == d && Names(Named(slot, name), Element(name)) then Some(p) else None, false))
  }

  /** What creating a file does whose parent is an ordinary file with chain c': an entry is written over the file's bytes at
      a place of its chain, which no search finds. */
  ghost predicate Overwrites(t: Tree, path: string, p: Place, slot: Entry, c': seq<nat>, t': Tree) {
    && ValidTree(t) && ValidTree(t') && There(t'.tables, p) && p.cluster in c' && AwayFrom(t'.dirs, c') && t'.dirs == t.dirs
    && At(t'.tables, p) == Named(slot, FileName(path)) && t'.root == t.root
    && forall path', from | from == 0 || from in t.dirs :: Resolve(t', path', from) == Resolve(t, path', from)
  }

  /** A new file is found by its path exactly if its parent is a directory, and the search for the path does not go back to
      the root, or the parent is the root. */
  lemma FoundAgain(t: Tree, path: string, p: Place, slot: Entry, c': seq<nat>, t': Tree)
    requires ValidTree(t) && ParentDir(t, path).Some?
    requires if ParentIsDirectory(t, path) then Creates(t, path, p, slot, t') && TidyDir(t, ParentDir(t, path).value)
             else Overwrites(t, path, p, slot, c', t')
    requires Resolve(t, path, 0).0 == None && WellFormed(FileName(path))
    ensures ValidTree(t') && (Resolve(t', path, 0).0 == Some(p) <==>
                              ParentIsDirectory(t, path) && (!Restarts(path) || ParentDir(t, path).value == t.root))
  {
    hide ValidTree, Resolve, OthersKept, TidyDir, Restarts, ParentIsDirectory, ParentDir, FileName, WellFormed;
  }

  /** A file is created in the directory before two slashes, and looked up in the root. */
  lemma DoubleSlash(t: Tree, dir: string, name: string, d: nat)
    requires ValidTree(t) && dir != [] && dir[|dir| - 1] != '/' && name != [] && '/' !in name
    requires ParentIs(t, dir + "//" + name, d)
    ensures Restarts(dir + "//" + name)
    ensures Resolve(t, dir + "//" + name, 0) == (Look(t, t.root, Element(name)), false)
  {
    hide *;
    DoubleSlashParts(dir, name);
    ResolveParent(t, dir + "//" + name, d);
    LookedUpRoot(t, dir + "//" + name, d);
  }

  lemma LookedUpRoot(t: Tree, path: string, d: nat)
    ensures Restarts(path) ==> LookedUpIn(t, path, d) == t.root
  {
  }

  lemma DoubleSlashParts(dir: string, name: string)
    requires dir != [] && dir[|dir| - 1] != '/' && name != [] && '/' !in name
    ensures Restarts(dir + "//" + name) && FileName(dir + "//" + name) == name
  {
    var path, k := dir + "//" + name, |dir| + 1;
    DoubleSlashAt(dir, name);
    LastSlashIs(path, k);
    SlashesLast(dir[1..]);
    hide Slashes, LastSlash;
  }

  lemma DoubleSlashAt(dir: string, name: string)
    requires dir != [] && dir[|dir| - 1] != '/' && name != [] && '/' !in name
    ensures var path, k := dir + "//" + name, |dir| + 1;
            && 0 < k < |path| && path[k] == '/' && path[k + 1..] == name && path[1..k] == dir[1..] + "/"
            && (dir[1..] == [] || dir[1..][|dir| - 2] != '/')
  {
  }

  lemma SlashesLast(s: string)
    requires s == [] || s[|s| - 1] != '/'
    ensures Slashes(s + "/") == 1
  {
    SlashesOfOne();
    SlashesJoin(s, "/");
  }

  lemma SlashesOfOne()
    ensures Slashes("/") == 1
  {
    assert "/"[..0] == [];
  }

  /** A new file has no size, and no clusters exactly if its entry had none: always in a directory that was full. */
  lemma NewFileIs(t: Tree, path: string, p: Place, slot: Entry, t': Tree)
    requires Creates(t, path, p, slot, t')
    ensures At(t'.tables, p).size == 0
    ensures var vacant := Vacant(t.tables, List(t, ParentDir(t, path).value));
            At(t'.tables, p).first == 0 <==> vacant.None? || (There(t.tables, vacant.value) && At(t.tables, vacant.value).first == 0)
  {
    VacantIs(t.tables, List(t, ParentDir(t, path).value));
  }

  /** Where it keeps clusters: the entry of a deleted file is used again, and its first cluster stays. */
  lemma ReusedEntry() returns (t: Tree, p: Place)
    ensures Ready(t, t.root, p) && At(t.tables, p).name[0] == DELETED_MARK && At(t.tables, p).first == 7
    ensures var after := WithEntry(t, p, "NEW.TXT");
            ValidTree(after) && There(after.tables, p) && At(after.tables, p).size == 0 && At(after.tables, p).first == 7
  {
    var deleted := Entry([DELETED_MARK] + "LD     TXT", 0x20, 7, 512);
    t := Tree([[BLANK], [BLANK], [deleted]], map[2 := [2]], 2);
    p := Place(2, 0);
    OneEntry(t.tables, 2, deleted);
    EntryValid(t, 2, p, "NEW.TXT");
    PutAt(t.tables, p, Named(deleted, "NEW.TXT"), p);
  }

  /** An ordinary file as a parent: its first cluster, where its bytes look like a vacant entry, is taken for a directory's. */
  lemma FileAsParent() returns (t: Tree, c: seq<nat>)
    ensures ValidTree(t) && ParentDir(t, "F/X") == Some(3) && !ParentIsDirectory(t, "F/X") && !NoName("F/X")
    ensures c == [3] && AwayFrom(t.dirs, c) && InTables(t.tables, c) && AllThere(t.tables, Listing(t.tables, c))
    ensures Vacant(t.tables, Listing(t.tables, c)) == Some(Place(3, 0)) && At(t.tables, Place(3, 0)).size == 7
  {
    var file := Entry("F          ", 0x20, 3, 32);
    var bytes := Entry([DELETED_MARK] + "ILE'S TEXT", 0x20, 7, 7);
    t, c := Tree([[BLANK], [BLANK], [file], [bytes]], map[2 := [2]], 2), [3];
    OneEntry(t.tables, 2, file);
    OneEntry(t.tables, 3, bytes);
    OnlyFile(t, file);
    ParentF(t);
  }

  lemma OnlyFile(t: Tree, file: Entry)
    requires |t.tables| == 4 && t.tables[2] == [file] && Shaped(t.tables) && t.dirs == map[2 := [2]] && t.root == 2
    requires (forall c :: 0 <= c < 4 ==> t.tables[c] != []) && Listing(t.tables, [2]) == [Place(2, 0)]
    requires file == Entry("F          ", 0x20, 3, 32)
    ensures ValidTree(t) && Look(t, 2, "F") == Some(Place(2, 0)) && At(t.tables, Place(2, 0)) == file
  {
    ShortF();
    hide Listing, ShortName, WellFormed;
    assert Closed(t, 2);
  }

  lemma ParentF(t: Tree)
    requires ValidTree(t) && t.root == 2 && Look(t, 2, "F") == Some(Place(2, 0)) && There(t.tables, Place(2, 0))
    requires At(t.tables, Place(2, 0)).attr != DIRECTORY && At(t.tables, Place(2, 0)).first == 3
    ensures ParentDir(t, "F/X") == Some(3) && !ParentIsDirectory(t, "F/X")
  {
    NoSlash("F");
    LastSlashIs("F/X", 1);
    assert "F/X"[..1] == "F";
    hide ValidTree, Look, There, LastSlash, Element, Rest;
    ResolveStep(t, "F", 0, 2, "F");
  }

  lemma OneEntry(tables: seq<seq<Entry>>, c: nat, e: Entry)
    requires c < |tables| && tables[c] == [e]
    ensures Listing(tables, [c]) == [Place(c, 0)]
  {
    assert PlacesIn(c, 0, 1) == [Place(c, 0)] + PlacesIn(c, 1, 1);
    assert Listing(tables, [c]) == PlacesIn(c, 0, 1) + Listing(tables, [c][1..]);
  }

  lemma ShortF()
    ensures WellFormed("F") && ShortName("F") == "F          "
  {
    NameParts("F");
  }

  lemma SlotIs(t: Tree, d: nat, p: Place, t1: Tree, more: nat, table: seq<Entry>)
    requires Roomy(t, d, p, t1, more, table)
    ensures ValidTree(t) && d in t.dirs && There(t1.tables, p) && At(t1.tables, p) == VacantEntry(t, d)
  {
    if Vacant(t.tables, List(t, d)).None? {
      BlankPlaces(t, d, more, table);
      assert PlacesIn(more, 0, |table|)[0] == p;
    }
  }

  lemma OthersAre(t: Tree, d: nat, p: Place, t1: Tree, more: nat, table: seq<Entry>, name: string)
    requires Roomy(t, d, p, t1, more, table) && TidyDir(t, d) && '\0' !in name
    ensures There(t1.tables, p) && OthersKept(t, WithEntry(t1, p, name), p)
  {
    hide Roomy, TidyDir, ValidTree, Resolve, There;
    OthersFound(t, d, p, t1, more, table, name, [], 0);
    RoomyReady(t, d, p, t1, more, table);
    forall path, from | from == 0 || from in t.dirs
      ensures Kept(t, WithEntry(t1, p, name), p, path, from)
    {
      OthersFound(t, d, p, t1, more, table, name, path, from);
    }
  }

  /** What creating a file does to a tree. */
  lemma CreatedIs(t: Tree, path: string, d: nat, p: Place, t1: Tree, more: nat, table: seq<Entry>)
    requires Roomy(t, d, p, t1, more, table) && ParentIs(t, path, d) && '\0' !in FileName(path)
    ensures There(t1.tables, p) && At(t1.tables, p) == VacantEntry(t, d)
    ensures Creates(t, path, p, VacantEntry(t, d), WithEntry(t1, p, FileName(path)))
  {
    var name := FileName(path);
    var e := VacantEntry(t, d);
    hide Roomy, TidyDir, ValidTree, Resolve, OthersKept, ParentDir, ParentIsDirectory, FileName, VacantEntry, Restarts;
    SlotIs(t, d, p, t1, more, table);
    RoomyReady(t, d, p, t1, more, table);
    EntryValid(t1, d, p, name);
    PutAt(t1.tables, p, Named(e, name), p);
    if TidyDir(t, d) {
      OthersAre(t, d, p, t1, more, table, name);
      if Resolve(t, path, 0).0 == None {
        CreatedFound(t, d, p, t1, more, table, path, name);
      }
    }
    LastNoSlash(path);
    NoSlash(name);
    if WellFormed(name) {
      WellFormedShort(name);
    }
  }

  /** The new entry in a directory. */
  lemma InDirectoryCreated(t: Tree, fat: seq<nat>, path: string, d: nat, n: nat, p: Place, more: nat, table: seq<Entry>,
                           tables1: seq<seq<Entry>>, t': Tree, fat': seq<nat>)
    requires ValidTree(t) && ParentIsDirectory(t, path) && ParentDir(t, path) == Some(d) && !NoName(path) && NoDirectory(t, d)
    requires '\0' !in FileName(path) && n > 0 && Even(t.tables, n) && ChainsOf(fat, t.dirs)
    requires 0 < |Free(fat)| ==> Spare(t, Free(fat)[0])
    requires Allocates(t.tables, fat, t.dirs[d], n, p, more, table, tables1, fat') && There(tables1, p)
    requires t' == Tree(Put(tables1, p, Named(At(tables1, p), FileName(path))), t.dirs[d := ChainAfter(t.tables, t.dirs[d], more)], t.root)
    ensures Creates(t, path, p, At(tables1, p), t') && ValidTree(t') && InDirectory(t'.dirs, p)
    ensures |t'.tables| == |t.tables| && Even(t'.tables, n) && ChainsOf(fat', t'.dirs)
  {
    hide ValidTree, Vacant, Extended, Chain, Free, Spare, Blank, Ready, Creates, ParentDir, ParentIsDirectory, ChainAfter,
         InDirectory, Listing, Put, Named, Roomy;
    var t1 := Tree(tables1, t.dirs[d := ChainAfter(t.tables, t.dirs[d], more)], t.root);
    AllocatesRoomy(t, fat, d, n, p, more, table, tables1, fat', t1);
    ParentFor(t, path, d);
    CreatedIs(t, path, d, p, t1, more, table);
    CreatedTree(t1, p, FileName(path), t', n);
    CreatesValid(t, path, p, At(tables1, p), t');
  }

  lemma ParentFor(t: Tree, path: string, d: nat)
    requires ValidTree(t) && ParentIsDirectory(t, path) && ParentDir(t, path) == Some(d) && !NoName(path) && NoDirectory(t, d)
    ensures ParentIs(t, path, d)
  {
  }

  lemma CreatesValid(t: Tree, path: string, p: Place, slot: Entry, t': Tree)
    requires Creates(t, path, p, slot, t')
    ensures ValidTree(t')
  {
  }

  lemma CreatedTree(t1: Tree, p: Place, name: string, t': Tree, n: nat)
    requires There(t1.tables, p) && t' == Tree(Put(t1.tables, p, Named(At(t1.tables, p), name)), t1.dirs, t1.root)
    requires Even(t1.tables, n)
    ensures t' == WithEntry(t1, p, name) && |t'.tables| == |t1.tables| && Even(t'.tables, n)
  {
  }

  lemma AllocatesRoomy(t: Tree, fat: seq<nat>, d: nat, n: nat, p: Place, more: nat, table: seq<Entry>, tables1: seq<seq<Entry>>,
                       fat': seq<nat>, t1: Tree)
    requires NoDirectory(t, d) && n > 0 && Even(t.tables, n) && ChainsOf(fat, t.dirs)
    requires 0 < |Free(fat)| ==> Spare(t, Free(fat)[0])
    requires Allocates(t.tables, fat, t.dirs[d], n, p, more, table, tables1, fat')
    requires t1 == Tree(tables1, t.dirs[d := ChainAfter(t.tables, t.dirs[d], more)], t.root)
    ensures Roomy(t, d, p, t1, more, table) && Even(tables1, n) && |tables1| == |t.tables| && ChainsOf(fat', t1.dirs)
    ensures There(tables1, p) && InDirectory(t1.dirs, p)
  {
    var c := t.dirs[d];
    assert Listing(t.tables, c) == List(t, d);
    hide ValidTree, Listing, Vacant, Extended, Chain, Free, Spare, Blank, Ready;
    AllocatesChain(t.tables, fat, c, n, p, more, table, tables1, fat');
    if Vacant(t.tables, List(t, d)).Some? {
      assert t.dirs[d := c] == t.dirs;
    } else {
      ChainsKept(t, fat, fat', d, more);
      ChainedIs(t, d, more, table, fat');
      GrownEven(t, d, more, table, n);
      assert t1 == Grown(t, d, more, table);
    }
    assert p.cluster in t1.dirs[d];
  }

  /** The new entry over a file's bytes. */
  lemma InFileCreated(t: Tree, fat: seq<nat>, path: string, d: nat, c: seq<nat>, n: nat, p: Place, more: nat, table: seq<Entry>,
                      tables1: seq<seq<Entry>>, t': Tree, fat': seq<nat>)
    requires ValidTree(t) && !ParentIsDirectory(t, path) && ParentDir(t, path) == Some(d) && AwayFrom(t.dirs, c)
    requires n > 0 && Even(t.tables, n) && ChainsOf(fat, t.dirs) && Chain(fat, c) && InTables(t.tables, c)
    requires 0 < |Free(fat)| ==> Spare(t, Free(fat)[0])
    requires Allocates(t.tables, fat, c, n, p, more, table, tables1, fat') && There(tables1, p)
    requires t' == Tree(Put(tables1, p, Named(At(tables1, p), FileName(path))), t.dirs, t.root)
    requires AllThere(t.tables, Listing(t.tables, c))
    ensures ValidTree(t') && Overwrites(t, path, p, At(tables1, p), ChainAfter(t.tables, c, more), t')
    ensures |t'.tables| == |t.tables| && Even(t'.tables, n) && ChainsOf(fat', t'.dirs) && !InDirectory(t'.dirs, p)
  {
    var c', name := ChainAfter(t.tables, c, more), FileName(path);
    AllocatesChain(t.tables, fat, c, n, p, more, table, tables1, fat');
    AwayAfter(t, fat, c, n, p, more, table, tables1, fat');
    CreatedTree(Tree(tables1, t.dirs, t.root), p, name, t', n);
    AwayPut(t, tables1, p, name, c');
    hide ValidTree, Resolve, Allocates, ChainAfter, Chain, ParentIsDirectory, ParentDir, Listing;
    AwayValid(t, t'.tables);
    assert t' == t.(tables := t'.tables);
    forall path', from | from == 0 || from in t.dirs
      ensures Resolve(t', path', from) == Resolve(t, path', from)
    {
      AwayResolve(t, t'.tables, path', from);
    }
    PutAt(tables1, p, Named(At(tables1, p), name), p);
  }

  lemma AwayAfter(t: Tree, fat: seq<nat>, c: seq<nat>, n: nat, p: Place, more: nat, table: seq<Entry>, tables1: seq<seq<Entry>>,
                  fat': seq<nat>)
    requires ValidTree(t) && AwayFrom(t.dirs, c) && Allocates(t.tables, fat, c, n, p, more, table, tables1, fat')
    requires 0 < |Free(fat)| ==> Spare(t, Free(fat)[0])
    requires n > 0 && Even(t.tables, n) && ChainsOf(fat, t.dirs)
    ensures AwayFrom(t.dirs, ChainAfter(t.tables, c, more)) && ChainsOf(fat', t.dirs) && Even(tables1, n)
    ensures forall d <- t.dirs, x <- t.dirs[d] :: x < |tables1| == |t.tables| && tables1[x] == t.tables[x]
    ensures forall x :: 0 <= x < |tables1| ==> tables1[x] != []
  {
    hide Listing, Extended, Chain, Free, Vacant;
    if Vacant(t.tables, Listing(t.tables, c)).None? {
      assert Free(fat)[..1] == [more];
      forall e | e in t.dirs
        ensures Chain(fat', t.dirs[e])
      {
        ExtendedOther(fat, fat', c, 1, t.dirs[e]);
      }
    }
  }

  lemma AwayPut(t: Tree, tables1: seq<seq<Entry>>, p: Place, name: string, c': seq<nat>)
    requires ValidTree(t) && There(tables1, p) && p.cluster in c' && AwayFrom(t.dirs, c') && Shaped(tables1)
    requires forall d <- t.dirs, x <- t.dirs[d] :: x < |tables1| == |t.tables| && tables1[x] == t.tables[x]
    requires forall x :: 0 <= x < |tables1| ==> tables1[x] != []
    ensures var tables' := Put(tables1, p, Named(At(tables1, p), name));
            && Shaped(tables') && |tables'| == |tables1|
            && (forall x :: 0 <= x < |tables'| ==> tables'[x] != [])
            && (forall d <- t.dirs, x <- t.dirs[d] :: x < |tables'| ==> tables'[x] == t.tables[x])
    ensures forall d <- t.dirs :: p.cluster !in t.dirs[d]
  {
  }

  /** The chains of a tree whose directory d has grown. */
  ghost predicate Chained(fat: seq<nat>, dirs: map<nat, seq<nat>>, d: nat, more: nat) {
    forall e <- dirs :: Chain(fat, if e == d then dirs[d] + [more] else dirs[e])
  }

  ghost predicate ChainsOf(fat: seq<nat>, dirs: map<nat, seq<nat>>) {
    forall d <- dirs :: Chain(fat, dirs[d])
  }

  /** All clusters hold as many entries. */
  ghost predicate Even(tables: seq<seq<Entry>>, n: nat) {
    forall c :: 0 <= c < |tables| ==> |tables[c]| == n
  }

  lemma GrownEven(t: Tree, d: nat, more: nat, table: seq<Entry>, n: nat)
    requires d in t.dirs && more < |t.tables| && Even(t.tables, n) && |table| == n
    ensures |Grown(t, d, more, table).tables| == |t.tables| && Even(Grown(t, d, more, table).tables, n)
  {
  }

  lemma ChainedIs(t: Tree, d: nat, more: nat, table: seq<Entry>, fat: seq<nat>)
    requires d in t.dirs && more < |t.tables| && Chained(fat, t.dirs, d, more)
    ensures ChainsOf(fat, Grown(t, d, more, table).dirs)
  {
    hide Chain;
  }

  lemma LastIn(c: seq<nat>)
    requires c != []
    ensures Last(c) in c
  {
  }

  lemma NewLast(c: seq<nat>, fat: seq<nat>)
    requires c != [] && 0 < |Free(fat)|
    ensures Free(fat)[..1] == [Free(fat)[0]] && Last(c + Free(fat)[..1]) == Free(fat)[0]
  {
  }

  /** The FAT's chains are those of the grown tree. */
  lemma ChainsKept(t: Tree, fat: seq<nat>, fat': seq<nat>, d: nat, more: nat)
    requires ValidTree(t) && d in t.dirs && 0 < |Free(fat)| && more == Free(fat)[0]
    requires ChainsOf(fat, t.dirs) && Extended(fat, fat', t.dirs[d], [more])
    ensures Chained(fat', t.dirs, d, more)
  {
    assert Free(fat)[..1] == [more];
    forall e | e in t.dirs && e != d
      ensures Chain(fat', t.dirs[e])
    {
      ExtendedOther(fat, fat', t.dirs[d], 1, t.dirs[e]);
    }
  }

  lemma RestListing(tables: seq<seq<Entry>>, rest: seq<nat>, c: seq<nat>, j: nat, n: nat)
    requires j < |c| && rest == c[j + 1..] && InTables(tables, c) && Even(tables, n)
    ensures InTables(tables, rest) && InTables(tables, c[j + 1..])
    ensures if rest == [] then Listing(tables, rest) == []
            else InTables(tables, c[j + 2..]) && Listing(tables, rest) == PlacesIn(c[j + 1], 0, n) + Listing(tables, c[j + 2..])
  {
    if rest != [] {
      assert rest[1..] == c[j + 2..];
    }
  }

  lemma VacantNone(tables: seq<seq<Entry>>)
    ensures Vacant(tables, []) == None
  {
  }

  lemma ScanNone(tables: seq<seq<Entry>>, name: string)
    ensures Scan(tables, [], name) == None
  {
  }

  lemma HeadTail(x: Place, a: seq<Place>, b: seq<Place>)
    ensures (([x] + a) + b)[0] == x && (([x] + a) + b)[1..] == a + b
  {
  }

  lemma RemainingThere(tables: seq<seq<Entry>>, chain: seq<nat>, j: nat, i: nat, n: nat)
    requires Shaped(tables) && InTables(tables, chain) && j < |chain| && |tables[chain[j]]| == n && i <= n
    ensures InTables(tables, chain[j + 1..])
    ensures AllThere(tables, PlacesIn(chain[j], i, n) + Listing(tables, chain[j + 1..]))
  {
    PlacesInAre(chain[j], i, n);
    ListingThere(tables, chain[j + 1..]);
  }
}
