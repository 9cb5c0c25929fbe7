/** What a search for a path does, element by element, and which entries the directories' loops stop at. */
module FatSearch {
  import opened FatNames
  import opened FatDirectories
  import opened FatPaths

  // ----- in one directory -----

  /** Place i is the first whose entry has the name, and no end mark comes before it. */
  ghost predicate FirstNamed(tables: seq<seq<Entry>>, ps: seq<Place>, name: string, i: nat)
    requires AllThere(tables, ps) && i < |ps|
  {
    && Names(At(tables, ps[i]), name) && !IsEnd(At(tables, ps[i]))
    && forall j :: 0 <= j < i ==> !Names(At(tables, ps[j]), name) && !IsEnd(At(tables, ps[j]))
  }

  lemma {:induction false} ScanIsFirst(tables: seq<seq<Entry>>, ps: seq<Place>, name: string, i: nat)
    requires AllThere(tables, ps) && i < |ps| && FirstNamed(tables, ps, name, i)
    ensures Scan(tables, ps, name) == Some(ps[i])
  {
    hide Names, IsEnd;
    assert i > 0 ==> !Names(At(tables, ps[0]), name) && !IsEnd(At(tables, ps[0]));
    if i > 0 {
      FirstNamedRest(tables, ps, name, i);
      ScanIsFirst(tables, ps[1..], name, i - 1);
    }
  }

  lemma FirstNamedRest(tables: seq<seq<Entry>>, ps: seq<Place>, name: string, i: nat)
    requires AllThere(tables, ps) && 0 < i < |ps| && FirstNamed(tables, ps, name, i)
    ensures AllThere(tables, ps[1..]) && FirstNamed(tables, ps[1..], name, i - 1)
  {
    hide Names, IsEnd;
    assert forall j :: 0 <= j < |ps| - 1 ==> ps[1..][j] == ps[j + 1];
  }

  lemma {:induction false} ScanFinds(tables: seq<seq<Entry>>, ps: seq<Place>, name: string) returns (i: nat)
    requires AllThere(tables, ps) && Scan(tables, ps, name).Some?
    ensures i < |ps| && FirstNamed(tables, ps, name, i) && Scan(tables, ps, name).value == ps[i]
  {
    if Names(At(tables, ps[0]), name) {
      i := 0;
    } else {
      var k := ScanFinds(tables, ps[1..], name);
      i := k + 1;
      hide Names, IsEnd, Scan;
      forall j | 0 <= j < i
        ensures !Names(At(tables, ps[j]), name) && !IsEnd(At(tables, ps[j]))
      {
        assert j > 0 ==> ps[j] == ps[1..][j - 1];
      }
    }
  }

  /** The place for a new entry is the first that is not in use. */
  lemma {:induction false} VacantIsFirst(tables: seq<seq<Entry>>, ps: seq<Place>, i: nat)
    requires AllThere(tables, ps) && i < |ps| && IsFree(At(tables, ps[i]))
    requires forall j :: 0 <= j < i ==> !IsFree(At(tables, ps[j]))
    ensures Vacant(tables, ps) == Some(ps[i])
  {
    if i > 0 {
      hide IsFree;
      assert forall j :: 0 <= j < |ps| - 1 ==> ps[1..][j] == ps[j + 1];
      VacantIsFirst(tables, ps[1..], i - 1);
    }
  }

  // ----- along a path -----

  /** A search from no directory starts at the root. */
  ghost function From(t: Tree, d: nat): nat { if d == 0 then t.root else d }

  /** A path of one element is looked up where the search starts, and no slash follows. */
  lemma SearchName(t: Tree, name: string, d: nat)
    requires ValidTree(t) && (d == 0 || d in t.dirs) && '/' !in name && |name| <= 12
    ensures Resolve(t, name, d) == (Look(t, From(t, d), name), false)
  {
    NoSlash(name);
    hide ValidTree, Look, Slash;
    assert name != [] ==> name[0] != '/';
  }

  /** With more after a slash: an element that is not there ends the search; a file is the result, whatever follows it; and a
      directory is searched for the rest, or is the result if there is none. */
  lemma SearchElement(t: Tree, name: string, rest: string, d: nat)
    requires ValidTree(t) && (d == 0 || d in t.dirs) && name != [] && '/' !in name && |name| <= 12
    ensures var found := Look(t, From(t, d), name);
      if found.None? then Resolve(t, name + "/" + rest, d) == (None, true)
      else
        && There(t.tables, found.value)
        && var e := At(t.tables, found.value);
           if e.attr == DIRECTORY && rest != []
           then (e.first == 0 || e.first in t.dirs) && Resolve(t, name + "/" + rest, d) == Resolve(t, rest, e.first)
           else Resolve(t, name + "/" + rest, d) == (found, true)
  {
    NoSlash(name);
    FullParts(name, rest);
    if Look(t, From(t, d), name).Some? {
      LookIs(t, From(t, d), name);
    }
    hide ValidTree, Look, Slash, Element, Rest;
    PathStarts(name, rest);
  }

  lemma PathStarts(name: string, rest: string)
    requires name != []
    ensures Path(name, rest) == name + "/" + rest && Path(name, rest) != [] && Path(name, rest)[0] == name[0]
  {
  }

  /** A slash in front of a path is for the root. */
  lemma SearchAbsolute(t: Tree, path: string, d: nat)
    requires ValidTree(t) && (d == 0 || d in t.dirs) && (path == [] || path[0] != '/')
    ensures Resolve(t, "/" + path, d) == Resolve(t, path, 0)
  {
    hide ValidTree, Look, Element, Rest;
    assert ("/" + path)[1..] == path;
  }

  /** An element of more than twelve characters is taken for an empty one. */
  lemma SearchLong(t: Tree, name: string, d: nat)
    requires ValidTree(t) && (d == 0 || d in t.dirs) && '/' !in name && |name| > 12
    ensures Resolve(t, name, d) == Resolve(t, "", d)
  {
    NoSlash(name);
    NoSlash("");
    hide ValidTree, Look, Slash;
    assert name[0] != '/';
  }
}
