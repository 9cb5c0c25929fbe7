/** Paths: their elements, and where the search for the last one takes place. */
module FatPaths {
  import opened FatDirectories

  /** A path in a directory. */
  ghost function Path(parent: string, name: string): string {
    parent + "/" + name
  }

  lemma SlashIn(q: string, name: string)
    ensures Slash(Path(q, name)) == Slash(q)
    decreases |q|
  {
    if q != [] {
      PathTail(q, name, 0);
      if q[0] != '/' {
        SlashIn(q[1..], name);
      }
    }
  }

  lemma PathTail(q: string, name: string, k: nat)
    requires k < |q|
    ensures |Path(q, name)| == |q| + 1 + |name| && Path(q, name)[..k] == q[..k]
    ensures Path(q, name)[k] == q[k] && Path(q, name)[k + 1..] == Path(q[k + 1..], name)
  {
    var full := Path(q, name);
    assert forall i :: 0 <= i < |q| ==> full[i] == q[i];
  }

  lemma PathLength(q: string, name: string)
    ensures |Path(q, name)| == |q| + 1 + |name|
  {
  }

  lemma PathEnd(q: string, name: string)
    ensures Path(q, name)[..|q|] == q && Path(q, name)[|q| + 1..] == name
  {
  }

  lemma FullParts(q: string, name: string)
    ensures Element(Path(q, name)) == Element(q)
    ensures Rest(Path(q, name)) == Some(if Slash(q) < |q| then Path(q[Slash(q) + 1..], name) else name)
  {
    hide *;
    SlashIn(q, name);
    PathLength(q, name);
    RestIs(q);
    RestIs(Path(q, name));
    if Slash(q) < |q| {
      PathTail(q, name, Slash(q));
    } else {
      PathEnd(q, name);
    }
  }

  lemma RestIs(q: string)
    ensures Slash(q) <= |q| && Rest(q) == if Slash(q) < |q| then Some(q[Slash(q) + 1..]) else None
    ensures Element(q) == if Slash(q) > ELEMENT then [] else q[..Slash(q)]
  {
    hide Slash;
  }

  lemma {:induction false} NoSlash(s: string)
    requires '/' !in s
    ensures Slash(s) == |s| && Rest(s) == None && Element(s) == if |s| > ELEMENT then [] else s
  {
    if s != [] {
      NoSlash(s[1..]);
    }
  }

  // ----- the last element -----

  /** Where the last slash is, or the length. */
  function LastSlash(s: string): (k: nat)
    ensures k <= |s|
  {
    if s == [] then 0
    else if s[|s| - 1] == '/' then |s| - 1
    else
      var k := LastSlash(s[..|s| - 1]);
      if k < |s| - 1 then k else |s|
  }

  lemma {:induction false} LastSlashIs(s: string, k: nat)
    requires k <= |s| && (k < |s| ==> s[k] == '/' && '/' !in s[k + 1..]) && (k == |s| ==> '/' !in s)
    ensures LastSlash(s) == k
  {
    if s != [] && k != |s| - 1 {
      var r := s[..|s| - 1];
      if k < |s| {
        assert s[k + 1..] == r[k + 1..] + [s[|s| - 1]];
        LastSlashIs(r, k);
      } else {
        assert s == r + [s[|s| - 1]];
        LastSlashIs(r, |r|);
      }
    }
  }

  lemma {:induction false} LastSlashAt(s: string)
    ensures var k := LastSlash(s);
            && (k < |s| ==> s[k] == '/' && '/' !in s[k + 1..]) && (k == |s| ==> '/' !in s)
  {
    if s != [] && s[|s| - 1] != '/' {
      var r := s[..|s| - 1];
      var k := LastSlash(r);
      LastSlashAt(r);
      assert s == r + [s[|s| - 1]];
      if k < |r| {
        assert s[k + 1..] == r[k + 1..] + [s[|s| - 1]];
      }
    }
  }

  /** The path ends with a slash. */
  predicate NoName(path: string) {
    path != [] && path[|path| - 1] == '/'
  }

  lemma NoNameIs(path: string)
    ensures NoName(path) <==> LastSlash(path) < |path| && FileName(path) == []
  {
    LastSlashAt(path);
  }

  /** The last element of a path. */
  function FileName(path: string): string {
    var k := LastSlash(path);
    if k < |path| then path[k + 1..] else path
  }

  lemma LastNoSlash(path: string)
    ensures '/' !in FileName(path)
  {
    LastSlashAt(path);
  }

  lemma PathParts(path: string)
    requires LastSlash(path) < |path|
    ensures path == Path(path[..LastSlash(path)], FileName(path))
  {
    LastSlashHere(path);
    hide LastSlash;
    SplitAt(path, LastSlash(path));
  }

  lemma LastSlashHere(path: string)
    requires LastSlash(path) < |path|
    ensures path[LastSlash(path)] == '/'
  {
    LastSlashAt(path);
  }

  lemma SplitAt(path: string, k: nat)
    requires k < |path| && path[k] == '/'
    ensures path == path[..k] + "/" + path[k + 1..]
  {
  }

  // ----- searches that start again at the root -----

  /** How many slashes a string ends with. */
  function Slashes(s: string): (n: nat)
    ensures n <= |s|
  {
    if s == [] || s[|s| - 1] != '/' then 0 else 1 + Slashes(s[..|s| - 1])
  }

  /** The last element is looked up in the root: an odd number of empty elements come before it. A slash in front of the
      path makes no element. */
  predicate Restarts(path: string) {
    var k := LastSlash(path);
    0 < k < |path| && Odd(Slashes(path[1..k]))
  }

  /** The same, for what comes before the last slash, element by element. */
  predicate Back(parent: string)
    decreases |parent|
  {
    parent != []
    && var rest := Rest(if parent[0] == '/' then parent[1..] else parent);
       rest.Some? && (rest.value == [] || Back(rest.value))
  }

  lemma {:induction false} SlashesJoin(a: string, b: string)
    ensures Slashes(a + b) == if Slashes(b) == |b| then |b| + Slashes(a) else Slashes(b)
    decreases |b|
  {
    if b == [] {
      assert a + b == a;
    } else {
      var n := |b| - 1;
      assert (a + b)[..|a| + n] == a + b[..n] && (a + b)[|a| + n] == b[n];
      SlashesJoin(a, b[..n]);
    }
  }

  lemma SlashesFirst(c: char, s: string)
    ensures Slashes([c] + s) == if Slashes(s) == |s| && c == '/' then |s| + 1 else Slashes(s)
  {
    SlashesJoin([c], s);
    assert [c][..0] == [];
  }

  lemma SlashesNone(s: string)
    requires '/' !in s
    ensures Slashes(s) == 0
  {
  }

  /** The slashes at the end of what follows the first one. */
  lemma SlashesRest(q: string)
    requires Slash(q) < |q|
    ensures var rest := q[Slash(q) + 1..];
            Slashes(q) == if Slashes(rest) == |rest| then |rest| + 1 else Slashes(rest)
  {
    var k := Slash(q);
    var e, rest := q[..k], q[k + 1..];
    assert q == e + (['/'] + rest);
    hide Slash;
    SlashesNone(e);
    SlashesFirst('/', rest);
    SlashesJoin(e, ['/'] + rest);
  }

  lemma {:induction false} BackIs(parent: string)
    requires parent != []
    ensures Back(parent) <==> Odd(Slashes(parent[1..]))
    decreases |parent|
  {
    hide *;
    var q := if parent[0] == '/' then parent[1..] else parent;
    BackStep(parent, q);
    SlashesBegin(parent, q);
    OddSteps(Slashes(q));
    if Slash(q) < |q| {
      var rest := q[Slash(q) + 1..];
      if rest == [] {
        SlashesOne(q);
      } else {
        SlashesTail(q, rest, rest[1..]);
        OddSteps(Slashes(rest[1..]));
        BackIs(rest);
      }
    } else {
      NoSlashes(q);
    }
  }

  lemma BackStep(parent: string, q: string)
    requires parent != [] && q == if parent[0] == '/' then parent[1..] else parent
    ensures Slash(q) <= |q| <= |parent|
    ensures Slash(q) == |q| ==> !Back(parent)
    ensures Slash(q) < |q| ==> (Back(parent) <==> q[Slash(q) + 1..] == [] || Back(q[Slash(q) + 1..]))
  {
    hide Slash;
  }

  lemma SlashesBegin(parent: string, q: string)
    requires parent != [] && q == if parent[0] == '/' then parent[1..] else parent
    ensures Slashes(q) == Slashes(parent[1..])
  {
    var c, tail := parent[0], parent[1..];
    assert parent == [c] + tail;
    hide Slashes;
    SlashesFirst(c, tail);
  }

  lemma NoSlashes(q: string)
    requires Slash(q) == |q|
    ensures Slashes(q) == 0
  {
    SlashesNone(q);
  }

  lemma SlashesOne(q: string)
    requires Slash(q) < |q| && q[Slash(q) + 1..] == []
    ensures Slashes(q) == 1
  {
    hide Slash;
    SlashesRest(q);
  }

  lemma SlashesTail(q: string, rest: string, tail: string)
    requires Slash(q) < |q| && rest == q[Slash(q) + 1..] && rest != [] && tail == rest[1..]
    ensures Slashes(q) == Slashes(tail) || Slashes(q) == Slashes(tail) + 2
  {
    hide Slash, Slashes;
    SlashesRest(q);
    assert rest == [rest[0]] + tail;
    SlashesFirst(rest[0], tail);
  }

  predicate Odd(n: nat) {
    n % 2 == 1
  }

  lemma OddSteps(n: nat)
    ensures !Odd(0) && Odd(1) && (Odd(n + 2) <==> Odd(n))
  {
  }

  lemma RestartsIs(path: string)
    requires 0 < LastSlash(path) < |path|
    ensures Restarts(path) <==> Back(path[..LastSlash(path)])
  {
    var k := LastSlash(path);
    assert path[..k][1..] == path[1..k];
    BackIs(path[..k]);
  }

  /** One empty element before the name sends the search back, two do not; earlier ones do not matter. */
  lemma RestartExamples()
    ensures Restarts("a//c") && !Restarts("a//b/c") && !Restarts("a///c") && !Restarts("//c") && !Restarts("/a/c") && !Restarts("c")
  {
    LastSlashIs("a//c", 2);
    LastSlashIs("a//b/c", 4);
    LastSlashIs("a///c", 3);
    LastSlashIs("//c", 1);
    LastSlashIs("/a/c", 2);
    LastSlashIs("c", 1);
    assert "a//c"[1..2] == "/" && "a//b/c"[1..4] == "//b" && "a///c"[1..3] == "//" && "//c"[1..1] == [] && "/a/c"[1..2] == "a";
    assert "/"[..0] == [] && "//"[..1] == "/";
  }
}
