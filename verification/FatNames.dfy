/** Short names of FAT directory entries: eight characters and three, in upper case, filled with spaces. */
module FatNames {
  const BASE: nat := 8
  const EXT: nat := 3
  const NAME: nat := 11

  function ToUpper(c: char): char {
    if 'a' <= c <= 'z' then c - 'a' + 'A' else c
  }

  function Upper(s: string): (r: string)
    ensures |r| == |s| && forall i :: 0 <= i < |s| ==> r[i] == ToUpper(s[i])
  {
    if s == [] then [] else Upper(s[..|s| - 1]) + [ToUpper(s[|s| - 1])]
  }

  function Spaces(n: nat): (r: string)
    ensures |r| == n && forall i :: 0 <= i < n ==> r[i] == ' '
  {
    if n == 0 then [] else Spaces(n - 1) + [' ']
  }

  /** The first n characters in upper case, filled up to n. */
  function Field(s: string, n: nat): (r: string)
    ensures |r| == n && forall i :: 0 <= i < n ==> r[i] == if i < |s| then ToUpper(s[i]) else ' '
  {
    if |s| >= n then Upper(s[..n]) else Upper(s) + Spaces(n - |s|)
  }

  /** Where the last dot is, or the length. */
  function LastDot(s: string): (k: nat)
    ensures k <= |s| && (k < |s| ==> s[k] == '.' && '.' !in s[k + 1..]) && (k == |s| ==> '.' !in s)
  {
    if s == [] then 0
    else if s[|s| - 1] == '.' then |s| - 1
    else
      var k := LastDot(s[..|s| - 1]);
      assert s == s[..|s| - 1] + [s[|s| - 1]];
      if k < |s| - 1 then (assert s[k + 1..] == s[..|s| - 1][k + 1..] + [s[|s| - 1]]; k) else |s|
  }

  function Base(name: string): string {
    name[..LastDot(name)]
  }

  function Ext(name: string): string {
    if LastDot(name) < |name| then name[LastDot(name) + 1..] else []
  }

  /** The name that an entry gets. */
  function ShortName(name: string): (r: string)
    ensures |r| == NAME
  {
    Field(Base(name), BASE) + Field(Ext(name), EXT)
  }

  /** One dot at most, no more than eight characters before it and no more than three after it. */
  predicate WellFormed(name: string) {
    '.' !in Base(name) && |Base(name)| <= BASE && |Ext(name)| <= EXT
  }

  // ----- what the driver does with characters -----

  /** The two fields of a name. */
  function Fields(base: string, ext: string): (r: string)
    ensures |r| == NAME
  {
    Field(base, BASE) + Field(ext, EXT)
  }

  lemma FieldsEmpty()
    ensures Fields([], []) == Spaces(NAME)
  {
  }

  lemma BaseNext(base: string, c: char)
    requires |base| < BASE
    ensures Fields(base + [c], []) == Fields(base, [])[|base| := ToUpper(c)]
  {
  }

  lemma ExtNext(base: string, ext: string, c: char)
    requires |ext| < EXT
    ensures Fields(base, ext + [c]) == Fields(base, ext)[BASE + |ext| := ToUpper(c)]
  {
    var f, g := Fields(base, ext + [c]), Fields(base, ext);
    assert f[..BASE] == g[..BASE];
    assert forall j :: 0 <= j < EXT ==> f[BASE..][j] == if j == |ext| then ToUpper(c) else g[BASE..][j];
  }

  lemma FieldsCut(base: string, ext: string)
    ensures |base| > BASE ==> Fields(base, ext) == Fields(base[..BASE], ext)
    ensures |ext| > EXT ==> Fields(base, ext) == Fields(base, ext[..EXT])
  {
    assert |base| > BASE ==> Field(base, BASE) == Field(base[..BASE], BASE);
    assert |ext| > EXT ==> Field(ext, EXT) == Field(ext[..EXT], EXT);
  }

  method SetFileName(name: string) returns (short: string)
    ensures short == ShortName(name)
  {
    hide Fields;
    var entry := Spaces(NAME);
    var dot := LastDot(name);
    FieldsEmpty();
    var i := 0;
    while i < BASE && i < dot
      invariant i <= dot && i <= BASE && entry == Fields(name[..i], [])
    {
      BaseNext(name[..i], name[i]);
      assert name[..i] + [name[i]] == name[..i + 1];
      entry := entry[i := ToUpper(name[i])];
      i := i + 1;
    }
    FieldsCut(Base(name), []);
    assert entry == Fields(Base(name), []) by {
      assert i == dot || name[..i] == Base(name)[..BASE];
    }
    var e := Ext(name);
    i := 0;
    while i < EXT && i < |e|
      invariant i <= |e| && i <= EXT && entry == Fields(Base(name), e[..i])
    {
      ExtNext(Base(name), e[..i], e[i]);
      assert e[..i] + [e[i]] == e[..i + 1];
      entry := entry[BASE + i := ToUpper(e[i])];
      i := i + 1;
    }
    FieldsCut(Base(name), e);
    assert i < EXT ==> e[..i] == e;
    assert |e| == EXT ==> e[..EXT] == e;
    short := entry;
    ShortIsFields(name);
  }

  lemma ShortIsFields(name: string)
    ensures ShortName(name) == Fields(Base(name), Ext(name))
  {
  }

  /** A prefix of a name is read: up to i, with the one dot at d, or with none if d is i. */
  ghost predicate Reading(name: string, i: nat, d: nat, name83: string) {
    && d <= i <= |name| && d <= BASE && '.' !in name[..d]
    && (d < i ==> name[d] == '.' && '.' !in name[d + 1..i] && i - d - 1 <= EXT)
    && name83 == Fields(name[..d], if d < i then name[d + 1..i] else [])
  }

  lemma ReadingDot(name: string, i: nat, name83: string)
    requires Reading(name, i, i, name83) && i < |name| && name[i] == '.'
    ensures Reading(name, i + 1, i, name83)
  {
  }

  lemma ReadingBase(name: string, i: nat, name83: string)
    requires Reading(name, i, i, name83) && i < |name| && name[i] != '.' && i < BASE
    ensures |name83| == NAME && Reading(name, i + 1, i + 1, name83[i := ToUpper(name[i])])
  {
    BaseNext(name[..i], name[i]);
    assert name[..i] + [name[i]] == name[..i + 1];
  }

  lemma ReadingExt(name: string, i: nat, d: nat, name83: string)
    requires Reading(name, i, d, name83) && d < i < |name| && name[i] != '.' && i - d - 1 < EXT
    ensures |name83| == NAME && Reading(name, i + 1, d, name83[BASE + i - d - 1 := ToUpper(name[i])])
  {
    hide Fields;
    var ext := name[d + 1..i];
    ExtNext(name[..d], ext, name[i]);
    assert name[d + 1..i + 1] == ext + [name[i]];
  }

  lemma ReadingDone(name: string, d: nat, name83: string)
    requires Reading(name, |name|, d, name83)
    ensures WellFormed(name) && name83 == ShortName(name)
  {
    LastDotIs(name, d);
    assert d < |name| ==> name[d + 1..|name|] == name[d + 1..];
    ShortIsFields(name);
  }

  lemma LastDotIs(name: string, d: nat)
    requires d <= |name| && '.' !in name[..d] && (d < |name| ==> name[d] == '.' && '.' !in name[d + 1..])
    ensures LastDot(name) == d
  {
    NoDot(name, 0, d);
    if d < |name| {
      NoDot(name, d + 1, |name|);
    }
  }

  lemma NoDot(name: string, from: nat, to: nat)
    requires from <= to <= |name| && '.' !in name[from..to]
    ensures forall j :: from <= j < to ==> name[j] != '.'
  {
    assert forall j :: from <= j < to ==> name[j] == name[from..to][j - from];
  }

  lemma NoneAfterLast(name: string)
    ensures forall j :: LastDot(name) < j < |name| ==> name[j] != '.'
  {
    var k := LastDot(name);
    if k < |name| {
      NoDot(name, k + 1, |name|);
    }
  }

  /** What has been read rules out a good end. */
  lemma NotWellFormed(name: string, i: nat, d: nat, name83: string)
    requires Reading(name, i, d, name83) && i < |name|
    requires (d < i && (name[i] == '.' || i - d - 1 == EXT)) || (d == i && i == BASE && name[i] != '.')
    ensures !WellFormed(name)
  {
    var k := LastDot(name);
    NoneAfterLast(name);
    NoDot(name, 0, d);
    if d < k && d < i {
      assert Base(name)[d] == '.';
    }
  }

  /** A name names an entry exactly if it is well formed and the entry has its short name. */
  method NameIsEqual(entry: string, name: string) returns (equal: bool)
    requires |entry| == NAME
    ensures equal <==> WellFormed(name) && entry == ShortName(name)
  {
    hide Reading, WellFormed, ShortName, Fields;
    var name83 := Spaces(NAME);
    var i, i83, foundDot := 0, 0, false;
    ghost var d := 0;
    ReadingStarts(name);
    while i < |name| && i83 < NAME
      invariant i <= |name| && d <= i && Reading(name, i, d, name83) && |name83| == NAME
      invariant if foundDot then d < i && i83 == BASE + i - d - 1 && i83 <= NAME else d == i && i83 == i && i <= BASE
    {
      if name[i] == '.' {
        if foundDot {
          NotWellFormed(name, i, d, name83);
          return false;
        }
        ReadingDot(name, i, name83);
        i83 := 7;
        foundDot := true;
      } else {
        if !foundDot && i > 7 {
          NotWellFormed(name, i, d, name83);
          return false;
        }
        if foundDot {
          ReadingExt(name, i, d, name83);
        } else {
          ReadingBase(name, i, name83);
          d := i + 1;
        }
        name83 := name83[i83 := ToUpper(name[i])];
      }
      i := i + 1;
      i83 := i83 + 1;
    }
    if i < |name| {
      NotWellFormed(name, i, d, name83);
    } else {
      ReadingDone(name, d, name83);
    }
    equal := i == |name| && entry == name83;
  }

  lemma ReadingStarts(name: string)
    ensures Reading(name, 0, 0, Spaces(NAME))
  {
    FieldsEmpty();
  }

  // ----- the name as it is shown -----

  /** A field without the spaces at its end. */
  function Trimmed(s: string): string {
    if s != [] && s[|s| - 1] == ' ' then Trimmed(s[..|s| - 1]) else s
  }

  /** The base name, and a dot and the extension if there is one. */
  function FormatName(entry: string): string
    requires |entry| == NAME
  {
    var base, ext := Trimmed(entry[..BASE]), Trimmed(entry[BASE..]);
    if ext != [] then base + "." + ext else base
  }

  /** No space at the end. */
  predicate Tight(s: string) {
    s == [] || s[|s| - 1] != ' '
  }

  lemma {:induction false} TrimmedIs(s: string)
    ensures |Trimmed(s)| <= |s| && Trimmed(s) == s[..|Trimmed(s)|] && Tight(Trimmed(s))
    ensures forall i :: |Trimmed(s)| <= i < |s| ==> s[i] == ' '
  {
    if s != [] && s[|s| - 1] == ' ' {
      TrimmedIs(s[..|s| - 1]);
    }
  }

  lemma TrimmedFits(s: string, n: nat)
    requires |s| <= n && Tight(s)
    ensures Trimmed(Field(s, n)) == Upper(s)
  {
    var f := Field(s, n);
    TrimmedIs(f);
    hide Trimmed, Field, Upper;
    var k := |Trimmed(f)|;
    assert k > 0 ==> f[k - 1] != ' ';
    assert |s| > 0 ==> f[|s| - 1] == ToUpper(s[|s| - 1]) != ' ';
    assert k == |s|;
    assert Trimmed(f) == Upper(s);
  }

  lemma UpperTight(s: string)
    ensures Tight(Upper(s)) <==> Tight(s)
  {
  }

  /** Trimming undoes filling, exactly for what is not too long and has no space at its end. */
  lemma TrimmedField(s: string, n: nat)
    ensures Trimmed(Field(s, n)) == Upper(s) <==> |s| <= n && Tight(s)
  {
    hide Trimmed, Field, Upper;
    if |s| <= n && Tight(s) {
      TrimmedFits(s, n);
    } else {
      TrimmedIs(Field(s, n));
      UpperTight(s);
    }
  }

  /** The parts fit, have no space at the end, and there is something after the dot. */
  predicate Shows(name: string) {
    && |Base(name)| <= BASE && Tight(Base(name)) && |Ext(name)| <= EXT && Tight(Ext(name))
    && (LastDot(name) < |name| ==> Ext(name) != [])
  }

  lemma UpperSplit(a: string, b: string)
    ensures Upper(a + "." + b) == Upper(a) + "." + Upper(b)
  {
    hide Upper;
    var s := a + "." + b;
    assert forall i :: 0 <= i < |s| ==> Upper(s)[i] == ToUpper(s[i]);
  }

  lemma UpperParts(name: string)
    ensures LastDot(name) < |name| ==> Upper(name) == Upper(Base(name)) + "." + Upper(Ext(name))
    ensures LastDot(name) == |name| ==> Upper(name) == Upper(Base(name)) && Ext(name) == []
  {
    hide *;
    NameParts(name);
    if LastDot(name) < |name| {
      UpperSplit(Base(name), Ext(name));
    }
  }

  lemma NameParts(name: string)
    ensures LastDot(name) < |name| ==> name == Base(name) + "." + Ext(name)
    ensures LastDot(name) == |name| ==> name == Base(name) && Ext(name) == []
  {
    hide LastDot;
    if LastDot(name) < |name| {
      AroundDot(name, LastDot(name));
    }
  }

  lemma AroundDot(s: string, k: nat)
    requires k < |s| && s[k] == '.'
    ensures s == s[..k] + "." + s[k + 1..]
  {
  }

  lemma ShortParts(name: string)
    ensures ShortName(name)[..BASE] == Field(Base(name), BASE) && ShortName(name)[BASE..] == Field(Ext(name), EXT)
  {
  }

  lemma LastDotAt(a: string, b: string)
    requires '.' !in b
    ensures LastDot(a + "." + b) == |a|
  {
    hide LastDot;
    AfterDot(a, b);
    LastDotHere(a + "." + b, |a|);
  }

  lemma AfterDot(a: string, b: string)
    ensures var s := a + "." + b; |a| < |s| && s[|a|] == '.' && s[|a| + 1..] == b
  {
  }

  lemma {:induction false} LastDotHere(s: string, k: nat)
    requires k < |s| && s[k] == '.' && '.' !in s[k + 1..]
    ensures LastDot(s) == k
  {
    if k != |s| - 1 {
      var r := s[..|s| - 1];
      assert s[k + 1..] == r[k + 1..] + [s[|s| - 1]];
      LastDotHere(r, k);
    }
  }

  /** Equal strings have their last dot in the same place. */
  lemma SplitAtDot(a: string, b: string, c: string, d: string)
    requires a + "." + b == c + "." + d && '.' !in b && '.' !in d
    ensures a == c && b == d
  {
    var s := a + "." + b;
    LastDotAt(a, b);
    LastDotAt(c, d);
    assert a == s[..|a|] && c == s[..|c|] && b == s[|a| + 1..] && d == s[|c| + 1..];
  }

  lemma NoDotField(s: string, n: nat)
    requires '.' !in s
    ensures '.' !in Field(s, n) && '.' !in Trimmed(Field(s, n)) && '.' !in Upper(s)
  {
    TrimmedIs(Field(s, n));
    hide Field, Trimmed, Upper;
    assert forall i :: 0 <= i < |s| ==> ToUpper(s[i]) != '.';
  }

  /** The name that is given to an entry is the one that is shown, in upper case, exactly if its parts fit and lose nothing. */
  lemma ShownAsGiven(name: string)
    ensures FormatName(ShortName(name)) == Upper(name) <==> Shows(name)
  {
    var base, ext := Base(name), Ext(name);
    var tb, te := Trimmed(Field(base, BASE)), Trimmed(Field(ext, EXT));
    UpperParts(name);
    ShortParts(name);
    TrimmedField(base, BASE);
    TrimmedField(ext, EXT);
    NoDotField(ext, EXT);
    TrimmedIs(Field(base, BASE));
    hide Upper, Trimmed, Field, LastDot;
    assert LastDot(name) < |name| ==> Upper(name)[|base|] == '.';
    if LastDot(name) < |name| && FormatName(ShortName(name)) == Upper(name) && te != [] {
      SplitAtDot(tb, te, Upper(base), Upper(ext));
    }
  }

  /** Names of one entry are the same but for case. */
  lemma SameEntry(a: string, b: string)
    requires WellFormed(a) && WellFormed(b) && Tight(Base(a)) && Tight(Base(b)) && Tight(Ext(a)) && Tight(Ext(b))
    ensures ShortName(a) == ShortName(b) <==> Upper(Base(a)) == Upper(Base(b)) && Upper(Ext(a)) == Upper(Ext(b))
  {
    var s, t := ShortName(a), ShortName(b);
    assert s[..BASE] == Field(Base(a), BASE) && s[BASE..] == Field(Ext(a), EXT);
    assert t[..BASE] == Field(Base(b), BASE) && t[BASE..] == Field(Ext(b), EXT);
    TrimmedField(Base(a), BASE);
    TrimmedField(Base(b), BASE);
    TrimmedField(Ext(a), EXT);
    TrimmedField(Ext(b), EXT);
    if Upper(Base(a)) == Upper(Base(b)) && Upper(Ext(a)) == Upper(Ext(b)) {
      assert Field(Base(a), BASE) == Field(Base(b), BASE) by { SameField(Base(a), Base(b), BASE); }
      assert Field(Ext(a), EXT) == Field(Ext(b), EXT) by { SameField(Ext(a), Ext(b), EXT); }
    }
  }

  // ----- upper case -----

  const SMALL: string := "abcdefghijklmnopqrstuvwxyz"
  const CAPITAL: string := "ABCDEFGHIJKLMNOPQRSTUVWXYZ"

  /** The i-th small letter becomes the i-th capital one, and every other character stays. */
  lemma ToUpperIs(c: char)
    ensures forall i :: 0 <= i < 26 && SMALL[i] == c ==> ToUpper(c) == CAPITAL[i]
    ensures c !in SMALL ==> ToUpper(c) == c
    ensures ToUpper(c) !in SMALL
  {
    hide SMALL, CAPITAL;
    Letters();
    if 'a' <= c <= 'z' {
      assert SMALL[c as int - 'a' as int] == c;
    }
  }

  lemma Letters()
    ensures |SMALL| == |CAPITAL| == 26
    ensures forall i :: 0 <= i < 26 ==> SMALL[i] as int == 'a' as int + i && CAPITAL[i] as int == 'A' as int + i
  {
  }

  /** The same character, or the small and the capital case of one letter. */
  ghost predicate SameLetter(c: char, d: char) {
    c == d || exists i :: 0 <= i < 26 && ((c == SMALL[i] && d == CAPITAL[i]) || (c == CAPITAL[i] && d == SMALL[i]))
  }

  ghost predicate SameButForCase(a: string, b: string) {
    |a| == |b| && forall i :: 0 <= i < |a| ==> SameLetter(a[i], b[i])
  }

  lemma SameUpper(c: char, d: char)
    ensures ToUpper(c) == ToUpper(d) <==> SameLetter(c, d)
  {
    hide SMALL, CAPITAL;
    Letters();
    if c != d && ToUpper(c) == ToUpper(d) {
      var i := ToUpper(c) as int - 'A' as int;
      assert (c == SMALL[i] && d == CAPITAL[i]) || (c == CAPITAL[i] && d == SMALL[i]);
    }
  }

  lemma SameUppers(a: string, b: string)
    ensures Upper(a) == Upper(b) <==> SameButForCase(a, b)
  {
    hide Upper, SameLetter;
    forall i | 0 <= i < |a| && |a| == |b|
      ensures Upper(a)[i] == Upper(b)[i] <==> SameLetter(a[i], b[i])
    {
      SameUpper(a[i], b[i]);
    }
  }

  /** No small letter gets into an entry. */
  lemma NoSmallLetter(name: string)
    ensures forall c | c in ShortName(name) :: c !in SMALL
  {
    hide Field, Upper, LastDot, SMALL;
    ToUpperIs(' ');
    forall i | 0 <= i < NAME
      ensures ShortName(name)[i] !in SMALL
    {
      var part, k := if i < BASE then Base(name) else Ext(name), if i < BASE then i else i - BASE;
      if k < |part| {
        ToUpperIs(part[k]);
      } else {
        Letters();
      }
    }
  }

  /** Two names that are shown as given make the same entry exactly if they agree, character by character, but for case. */
  lemma SameEntryLetters(a: string, b: string)
    requires WellFormed(a) && WellFormed(b) && Shows(a) && Shows(b)
    ensures ShortName(a) == ShortName(b) <==> SameButForCase(a, b)
  {
    hide *;
    ShownAsGiven(a);
    ShownAsGiven(b);
    SameUppers(a, b);
    if Upper(a) == Upper(b) {
      SameParts(a, b);
      PartsTight(a);
      PartsTight(b);
      SameEntry(a, b);
    }
  }

  /** Names that agree but for case are well-formed together, and name the same entries. */
  lemma CaseIsFree(a: string, b: string)
    requires SameButForCase(a, b)
    ensures WellFormed(a) <==> WellFormed(b)
    ensures ShortName(a) == ShortName(b)
  {
    hide Upper, Field, SameLetter, LastDot, SameButForCase;
    SameUppers(a, b);
    SameDots(a, b);
    var k := LastDot(a);
    SameSlice(a, b, 0, k);
    SameSlice(a, b, if k < |a| then k + 1 else |a|, |a|);
    SameField(Base(a), Base(b), BASE);
    SameField(Ext(a), Ext(b), EXT);
    NoDotUpper(Base(a));
    NoDotUpper(Base(b));
  }

  lemma SameSlice(a: string, b: string, i: nat, j: nat)
    requires Upper(a) == Upper(b) && i <= j <= |a|
    ensures |b| == |a| && Upper(a[i..j]) == Upper(b[i..j]) && a[..j] == a[0..j] && b[..j] == b[0..j] && a[i..] == a[i..|a|] && b[i..] == b[i..|b|]
  {
    hide Upper;
    assert |Upper(a)| == |a| && |Upper(b)| == |b|;
    forall k | i <= k < j
      ensures ToUpper(a[k]) == ToUpper(b[k])
    {
      assert Upper(a)[k] == Upper(b)[k];
    }
  }

  lemma NoDotUpper(s: string)
    ensures '.' in s <==> '.' in Upper(s)
  {
    hide Upper;
    if '.' in s {
      var i :| 0 <= i < |s| && s[i] == '.';
      assert Upper(s)[i] == '.';
    }
  }

  lemma SameDots(a: string, b: string)
    requires Upper(a) == Upper(b)
    ensures |a| == |b| && LastDot(a) == LastDot(b)
  {
    hide Upper, LastDot;
    assert |Upper(a)| == |a| && |Upper(b)| == |b|;
    var k := LastDot(a);
    if k < |a| {
      SameSlice(a, b, k + 1, |a|);
      NoDotUpper(a[k + 1..]);
      NoDotUpper(b[k + 1..]);
      assert ToUpper(b[k]) == Upper(b)[k] == Upper(a)[k] == '.';
      LastDotHere(b, k);
    } else {
      NoDotUpper(a);
      NoDotUpper(b);
    }
  }

  lemma PartsTight(name: string)
    requires Shows(name)
    ensures Tight(Base(name)) && Tight(Ext(name))
  {
  }

  lemma SameParts(a: string, b: string)
    requires WellFormed(a) && WellFormed(b) && Upper(a) == Upper(b)
    ensures Upper(Base(a)) == Upper(Base(b)) && Upper(Ext(a)) == Upper(Ext(b))
  {
    hide Upper, LastDot;
    UpperParts(a);
    UpperParts(b);
    NoDotField(Ext(a), EXT);
    NoDotField(Ext(b), EXT);
    NoDotField(Base(a), BASE);
    NoDotField(Base(b), BASE);
    if LastDot(a) < |a| && LastDot(b) < |b| {
      SplitAtDot(Upper(Base(a)), Upper(Ext(a)), Upper(Base(b)), Upper(Ext(b)));
    } else if LastDot(a) < |a| {
      DotInside(Upper(Base(a)), Upper(Ext(a)));
    } else if LastDot(b) < |b| {
      DotInside(Upper(Base(b)), Upper(Ext(b)));
    }
  }

  lemma DotInside(a: string, b: string)
    ensures '.' in a + "." + b
  {
    assert (a + "." + b)[|a|] == '.';
  }

  lemma SameField(a: string, b: string, n: nat)
    requires Upper(a) == Upper(b)
    ensures Field(a, n) == Field(b, n)
  {
    assert |a| == |Upper(a)| == |b|;
    assert forall i :: 0 <= i < |a| ==> ToUpper(a[i]) == Upper(a)[i] == Upper(b)[i] == ToUpper(b[i]);
  }
}
