/** The text editor's files: lines of code points, saved as bytes and loaded again. */
module TextFiles {
  import opened Utf8

  const NEWLINE: Byte := 0x0a

  /** The mark of a byte that could not be decoded. */
  const INVALID_BYTE: CodePoint := 0x80000000

  type Line = seq<CodePoint>

  // ----- loading -----

  function Mark(b: Byte): CodePoint {
    INVALID_BYTE | (b as bv32)
  }

  function Marked(bytes: seq<Byte>): Line {
    seq(|bytes|, i requires 0 <= i < |bytes| => Mark(bytes[i]))
  }

  predicate Continued(s: seq<Byte>, n: nat)
    requires n < |s|
  {
    (n >= 1 ==> Continues(s[1])) && (n >= 2 ==> Continues(s[2])) && (n >= 3 ==> Continues(s[3]))
  }

  /** The first character of some bytes, or the marks of what does not make one, and how many bytes these are. */
  function Unit(s: seq<Byte>): (Line, nat)
    requires s != []
    ensures 0 < Unit(s).1 <= |s|
  {
    match FormOf(s[0])
    case Ascii => ([s[0] as bv32], 1)
    case Lead(n) =>
      if n + 1 > |s| then (Marked(s), |s|)
      else if !Continued(s, n) then (Marked(s[..n + 1]), n + 1)
      else ([if n == 1 then Two(s[0], s[1]) else if n == 2 then Three(s[0], s[1], s[2]) else Four(s[0], s[1], s[2], s[3])], n + 1)
    case Stray => (Marked(s[..1]), 1)
  }

  lemma MarkIs(b: Byte)
    ensures Mark(b) >= INVALID_BYTE && Mark(b) - INVALID_BYTE == b as bv32
  {
  }

  lemma TwoUnmarked(a: Byte, b: Byte)
    ensures Two(a, b) < INVALID_BYTE
  {
  }

  lemma ThreeUnmarked(a: Byte, b: Byte, c: Byte)
    ensures Three(a, b, c) < INVALID_BYTE
  {
  }

  lemma FourUnmarked(a: Byte, b: Byte, c: Byte, d: Byte)
    ensures Four(a, b, c, d) < INVALID_BYTE
  {
  }

  /** The first byte stands for a character of its own, or begins one and is followed by as many bytes as it asks for. */
  ghost predicate Whole(s: seq<Byte>)
    requires s != []
  {
    match FormOf(s[0])
    case Ascii => true
    case Lead(n) => n < |s| && forall i :: 1 <= i <= n ==> Continues(s[i])
    case Stray => false
  }

  /** Whole characters are read as one, without a mark; of all else each byte that was read is there, with the mark. */
  lemma UnitIs(s: seq<Byte>)
    requires s != []
    ensures var (chars, n) := Unit(s);
            if Whole(s) then |chars| == 1 && chars[0] < INVALID_BYTE
            else |chars| == n && forall i :: 0 <= i < n ==> chars[i] >= INVALID_BYTE && chars[i] - INVALID_BYTE == s[i] as bv32
  {
    hide Mark, Two, Three, Four, Continues;
    Leads(s[0]);
    forall i | 0 <= i < |s|
      ensures Mark(s[i]) >= INVALID_BYTE && Mark(s[i]) - INVALID_BYTE == s[i] as bv32
    {
      MarkIs(s[i]);
    }
    if |s| > 1 {
      TwoUnmarked(s[0], s[1]);
    }
    if |s| > 2 {
      ThreeUnmarked(s[0], s[1], s[2]);
    }
    if |s| > 3 {
      FourUnmarked(s[0], s[1], s[2], s[3]);
    }
  }

  lemma Leads(b: Byte)
    ensures FormOf(b) == Ascii ==> b as bv32 < INVALID_BYTE
    ensures FormOf(b).Lead? ==> 1 <= FormOf(b).follow <= 3
  {
  }

  /** The lines of some bytes, the first of which has begun. */
  function Load(s: seq<Byte>, line: Line): seq<Line>
    decreases |s|
  {
    if s == [] then [line]
    else if s[0] == NEWLINE then [line] + Load(s[1..], [])
    else Load(s[Unit(s).1..], line + Unit(s).0)
  }

  // ----- saving -----

  predicate Encodable(cs: Line) {
    forall i :: 0 <= i < |cs| ==> cs[i] < LIMIT
  }

  function EncodeAll(cs: Line): seq<Byte>
    requires Encodable(cs)
  {
    if cs == [] then [] else Encode(cs[0]).value + EncodeAll(cs[1..])
  }

  /** The lines with newlines between them. */
  function Join(lines: seq<Line>): Line {
    if lines == [] then []
    else if |lines| == 1 then lines[0]
    else lines[0] + [NEWLINE as bv32] + Join(lines[1..])
  }

  /** Code points cut at newlines; the first line has begun. */
  function Cut(line: Line, cs: Line): seq<Line>
    decreases |cs|
  {
    if cs == [] then [line]
    else if cs[0] == NEWLINE as bv32 then [line] + Cut([], cs[1..])
    else Cut(line + [cs[0]], cs[1..])
  }

  // ----- loading undoes saving -----

  lemma FirstByte(c: CodePoint)
    requires c < LIMIT
    ensures Encode(c).value != [] && (Encode(c).value[0] == NEWLINE <==> c == NEWLINE as bv32)
    ensures c == NEWLINE as bv32 ==> Encode(c).value == [NEWLINE]
  {
    EncodeDecodes(c);
    if c < 0x80 {
      One(c);
    }
    hide Encode, Two, Three, Four, Continues;
  }

  lemma UnitEncoded(c: CodePoint, rest: seq<Byte>)
    requires c < LIMIT
    ensures Encode(c).value != [] && Unit(Encode(c).value + rest) == ([c], |Encode(c).value|)
  {
    EncodeDecodes(c);
    hide Encode, Two, Three, Four, Continues, FormOf;
    var e := Encode(c).value;
    assert forall i :: 0 <= i < |e| ==> (e + rest)[i] == e[i];
  }

  /** What is loaded of encoded code points are these, cut at newlines. */
  lemma {:induction false} LoadEncoded(cs: Line, line: Line)
    requires Encodable(cs)
    ensures Load(EncodeAll(cs), line) == Cut(line, cs)
    decreases |cs|
  {
    if cs != [] {
      var e, rest := Encode(cs[0]).value, EncodeAll(cs[1..]);
      FirstByte(cs[0]);
      UnitEncoded(cs[0], rest);
      assert EncodeAll(cs) == e + rest && (e + rest)[|e|..] == rest;
      hide Unit, Encode;
      if cs[0] == NEWLINE as bv32 {
        LoadEncoded(cs[1..], []);
      } else {
        LoadEncoded(cs[1..], line + [cs[0]]);
      }
    }
  }

  predicate OneLine(cs: Line) {
    forall i :: 0 <= i < |cs| ==> cs[i] != NEWLINE as bv32
  }

  lemma {:induction false} CutLine(line: Line, cs: Line, more: Line)
    requires OneLine(cs)
    ensures Cut(line, cs + more) == Cut(line + cs, more)
    decreases |cs|
  {
    if cs == [] {
      assert cs + more == more && line + cs == line;
    } else {
      CutLine(line + [cs[0]], cs[1..], more);
      assert (cs + more)[1..] == cs[1..] + more;
      assert (line + [cs[0]]) + cs[1..] == line + cs;
    }
  }

  lemma {:induction false} CutIsLines(line: Line, cs: Line)
    requires OneLine(line)
    ensures Cut(line, cs) != [] && forall i :: 0 <= i < |Cut(line, cs)| ==> OneLine(Cut(line, cs)[i])
    decreases |cs|
  {
    if cs != [] {
      if cs[0] == NEWLINE as bv32 {
        CutIsLines([], cs[1..]);
      } else {
        CutIsLines(line + [cs[0]], cs[1..]);
      }
    }
  }

  lemma {:induction false} CutJoined(lines: seq<Line>)
    requires lines != [] && forall i :: 0 <= i < |lines| ==> OneLine(lines[i])
    ensures Cut([], Join(lines)) == lines
  {
    if |lines| == 1 {
      CutLine([], lines[0], []);
      assert lines[0] + [] == lines[0] && [] + lines[0] == lines[0];
    } else {
      var more := [NEWLINE as bv32] + Join(lines[1..]);
      CutLine([], lines[0], more);
      assert lines[0] + [NEWLINE as bv32] + Join(lines[1..]) == lines[0] + more && [] + lines[0] == lines[0];
      assert more[1..] == Join(lines[1..]);
      CutJoined(lines[1..]);
    }
  }

  /** Lines that are saved and loaded again are the same, exactly if there is one and none holds a newline. */
  lemma SaveLoad(lines: seq<Line>)
    requires Encodable(Join(lines))
    ensures Load(EncodeAll(Join(lines)), []) == lines <==> lines != [] && forall i :: 0 <= i < |lines| ==> OneLine(lines[i])
  {
    LoadEncoded(Join(lines), []);
    CutIsLines([], Join(lines));
    if lines != [] && forall i :: 0 <= i < |lines| ==> OneLine(lines[i]) {
      CutJoined(lines);
    }
  }

  // ----- the editor's loops -----

  /** The byte at a position of a file, if it is not at the end. */
  function ByteAt(s: seq<Byte>, i: nat): Option<Byte> {
    if i < |s| then Some(s[i]) else None
  }

  method GetC(s: seq<Byte>, i: nat) returns (b: Option<Byte>, next: nat)
    requires i <= |s|
    ensures b == ByteAt(s, i) && next == if i < |s| then i + 1 else i
  {
    if i < |s| {
      return Some(s[i]), i + 1;
    }
    return None, i;
  }

  predicate Follows(b: Option<Byte>) {
    b.Some? && Continues(b.value)
  }

  function Marks(b: Option<Byte>): Line {
    if b.Some? then [Mark(b.value)] else []
  }

  /** One more byte is marked, if there is one. */
  lemma MarkedNext(s: seq<Byte>, i: nat, next: nat)
    requires i <= next <= |s|
    ensures Marked(s[i..next]) + Marks(ByteAt(s, next)) == Marked(s[i..if next < |s| then next + 1 else next])
  {
    hide Mark;
  }

  method ReadTwo(s: seq<Byte>, i: nat) returns (chars: Line, next: nat)
    requires i < |s| && FormOf(s[i]) == Lead(1)
    ensures i < next <= |s| && (chars, next - i) == Unit(s[i..])
  {
    hide Mark, Continues, FormOf, Two;
    var c2;
    c2, next := GetC(s, i + 1);
    if Follows(c2) {
      chars := [Two(s[i], c2.value)];
    } else {
      chars := [Mark(s[i])] + Marks(c2);
      assert chars == Marked(s[i..next]);
    }
    assert s[i..][..next - i] == s[i..next] && (next == |s| ==> s[i..next] == s[i..]);
  }

  method ReadThree(s: seq<Byte>, i: nat) returns (chars: Line, next: nat)
    requires i < |s| && FormOf(s[i]) == Lead(2)
    ensures i < next <= |s| && (chars, next - i) == Unit(s[i..])
  {
    hide Mark, Continues, FormOf, Three;
    var c2, c3;
    c2, next := GetC(s, i + 1);
    c3, next := GetC(s, next);
    if Follows(c2) && Follows(c3) {
      chars := [Three(s[i], c2.value, c3.value)];
    } else {
      chars := [Mark(s[i])] + Marks(c2) + Marks(c3);
      assert chars == Marked(s[i..next]);
    }
    assert s[i..][..next - i] == s[i..next] && (next == |s| ==> s[i..next] == s[i..]);
  }

  lemma MarkedFour(s: seq<Byte>, i: nat)
    requires i < |s|
    ensures var n2 := if i + 1 < |s| then i + 2 else i + 1;
            var n3 := if n2 < |s| then n2 + 1 else n2;
            var n4 := if n3 < |s| then n3 + 1 else n3;
            [Mark(s[i])] + Marks(ByteAt(s, i + 1)) + Marks(ByteAt(s, n2)) + Marks(ByteAt(s, n3)) == Marked(s[i..n4])
  {
    var n2 := if i + 1 < |s| then i + 2 else i + 1;
    MarkedNext(s, i, i + 1);
    MarkedNext(s, i, n2);
    MarkedNext(s, i, if n2 < |s| then n2 + 1 else n2);
    assert [Mark(s[i])] == Marked(s[i..i + 1]);
    hide Mark, Marks, ByteAt, Marked;
  }

  method ReadFour(s: seq<Byte>, i: nat) returns (chars: Line, next: nat)
    requires i < |s| && FormOf(s[i]) == Lead(3)
    ensures i < next <= |s| && (chars, next - i) == Unit(s[i..])
  {
    hide Mark, Continues, FormOf, Four;
    var c2, c3, c4;
    c2, next := GetC(s, i + 1);
    c3, next := GetC(s, next);
    c4, next := GetC(s, next);
    if Follows(c2) && Follows(c3) && Follows(c4) {
      chars := [Four(s[i], c2.value, c3.value, c4.value)];
    } else {
      chars := [Mark(s[i])] + Marks(c2) + Marks(c3) + Marks(c4);
      MarkedFour(s, i);
    }
    assert s[i..][..next - i] == s[i..next] && (next == |s| ==> s[i..next] == s[i..]);
  }

  /** The lines of a file; a file that is not there has one that is empty. */
  method LoadFile(file: Option<seq<Byte>>) returns (lines: seq<Line>)
    ensures lines == if file.Some? then Load(file.value, []) else [[]]
  {
    lines := [];
    if file.None? {
      return [[]];
    }
    var s, i, line := file.value, 0, [];
    while i < |s|
      invariant i <= |s| && Load(s, []) == lines + Load(s[i..], line)
      decreases |s| - i
    {
      if s[i] == NEWLINE {
        assert s[i..][1..] == s[i + 1..];
        lines, line, i := lines + [line], [], i + 1;
      } else {
        hide Unit, Mark;
        var chars, next := ReadUnit(s, i);
        line, i := line + chars, next;
      }
    }
    lines := lines + [line];
  }

  method ReadUnit(s: seq<Byte>, i: nat) returns (chars: Line, next: nat)
    requires i < |s|
    ensures i < next <= |s| && (chars, next - i) == Unit(s[i..]) && s[i..][Unit(s[i..]).1..] == s[next..]
  {
    hide Mark, Continues, Two, Three, Four;
    if s[i] < 0x80 {
      chars, next := [s[i] as bv32], i + 1;
    } else if s[i] & 0xe0 == 0xc0 {
      chars, next := ReadTwo(s, i);
    } else if s[i] & 0xf0 == 0xe0 {
      chars, next := ReadThree(s, i);
    } else if s[i] & 0xf8 == 0xf0 {
      chars, next := ReadFour(s, i);
    } else {
      chars, next := [Mark(s[i])], i + 1;
      assert chars == Marked(s[i..][..1]);
    }
    assert s[i..][next - i..] == s[next..];
  }

  /** What is still to be written after line i. */
  function After(lines: seq<Line>, i: nat): Line
    requires i <= |lines|
  {
    if i == |lines| then [] else if i == 0 then Join(lines) else [NEWLINE as bv32] + Join(lines[i..])
  }

  lemma AfterLine(lines: seq<Line>, i: nat)
    requires i < |lines|
    ensures Join(lines[i..]) == lines[i] + After(lines, i + 1)
  {
    if i + 1 < |lines| {
      assert lines[i..][1..] == lines[i + 1..];
    }
  }

  lemma EncodableNext(cs: Line, c: CodePoint)
    requires Encodable(cs) && c < LIMIT
    ensures Encodable(cs + [c]) && (cs != [] ==> Encodable(cs[1..]))
    ensures Encode(c).Some?
  {
  }

  lemma {:induction false} EncodeAllNext(cs: Line, c: CodePoint)
    requires Encodable(cs) && c < LIMIT
    ensures Encodable(cs + [c]) && Encode(c).Some? && EncodeAll(cs + [c]) == EncodeAll(cs) + Encode(c).value
  {
    hide Encode, Encodable;
    EncodableNext(cs, c);
    if cs == [] {
      EncodableNext([], c) by { assert Encodable([]); }
      assert cs + [c] == [c] && [c][1..] == [];
    } else {
      EncodableNext(cs[1..], c);
      EncodeAllNext(cs[1..], c);
      assert (cs + [c])[0] == cs[0] && (cs + [c])[1..] == cs[1..] + [c];
      EncodableFirst(cs);
      Regroup(Encode(cs[0]).value, EncodeAll(cs[1..]), Encode(c).value);
    }
  }

  lemma EncodableFirst(cs: Line)
    requires Encodable(cs) && cs != []
    ensures Encodable(cs[1..]) && Encode(cs[0]).Some?
  {
  }

  lemma Regroup<T>(a: seq<T>, b: seq<T>, c: seq<T>)
    ensures a + (b + c) == (a + b) + c
  {
  }

  /** What has been written, where the first code point that cannot be is next. */
  ghost predicate StoppedAt(cs: Line, out: seq<Byte>, k: nat) {
    k < |cs| && Encodable(cs[..k]) && cs[k] >= LIMIT && out == EncodeAll(cs[..k])
  }

  /** One line is written after those that have been. */
  method SaveLine(line: Line, out: seq<Byte>, ghost done: Line, ghost after: Line) returns (ok: bool, out': seq<Byte>)
    requires Encodable(done) && out == EncodeAll(done)
    ensures ok ==> Encodable(done + line) && out' == EncodeAll(done + line)
    ensures !ok ==> exists k: nat :: StoppedAt(done + line + after, out', k)
  {
    hide *;
    out' := out;
    assert done + line[..0] == done && line[..|line|] == line;
    for j := 0 to |line|
      invariant Encodable(done + line[..j]) && out' == EncodeAll(done + line[..j])
    {
      EncodesBelow(line[j]);
      var code := Encode(line[j]);
      if code.None? {
        StopsAt(line, done, after, j, out');
        return false, out';
      }
      EncodeAllNext(done + line[..j], line[j]);
      assert done + line[..j] + [line[j]] == done + line[..j + 1];
      out' := out' + code.value;
    }
    ok := true;
  }

  lemma EncodesBelow(c: CodePoint)
    ensures Encode(c).Some? <==> c < LIMIT
  {
  }

  lemma StopsAt(line: Line, done: Line, after: Line, j: nat, out: seq<Byte>)
    requires j < |line| && Encode(line[j]).None? && Encodable(done + line[..j]) && out == EncodeAll(done + line[..j])
    ensures StoppedAt(done + line + after, out, |done| + j)
  {
    EncodesBelow(line[j]);
    hide Encode, EncodeAll, Encodable;
    var all := done + line + after;
    assert all[..|done| + j] == done + line[..j] && all[|done| + j] == line[j];
  }

  /** The lines are written with newlines between them, up to the first code point that cannot be, if there is one. */
  method SaveFile(lines: seq<Line>) returns (ok: bool, out: seq<Byte>)
    ensures ok <==> Encodable(Join(lines))
    ensures ok ==> out == EncodeAll(Join(lines))
    ensures !ok ==> exists k: nat :: StoppedAt(Join(lines), out, k)
  {
    out := [];
    ghost var done: Line := [];
    for i := 0 to |lines|
      invariant Encodable(done) && out == EncodeAll(done) && done + After(lines, i) == Join(lines)
    {
      hide Encode, Encodable, EncodeAll, After, Join;
      Resume(lines, i, done);
      if i > 0 {
        Newline(done);
        out, done := out + [NEWLINE], done + [NEWLINE as bv32];
      }
      ok, out := SaveLine(lines[i], out, done, After(lines, i + 1));
      if !ok {
        NotEncodable(Join(lines), out);
        return;
      }
      done := done + lines[i];
    }
    ok := true;
    assert done + [] == done;
  }

  lemma Resume(lines: seq<Line>, i: nat, done: Line)
    requires i < |lines| && done + After(lines, i) == Join(lines)
    ensures i == 0 ==> done + lines[i] + After(lines, i + 1) == Join(lines)
    ensures i > 0 ==> (done + [NEWLINE as bv32]) + lines[i] + After(lines, i + 1) == Join(lines)
  {
    assert lines[0..] == lines;
    AfterLine(lines, i);
    hide Join;
    var rest := After(lines, i + 1);
    if i == 0 {
      Regroup(done, lines[i], rest);
    } else {
      Regroup(done, [NEWLINE as bv32], lines[i] + rest);
      Regroup(done + [NEWLINE as bv32], lines[i], rest);
    }
  }

  lemma Newline(done: Line)
    requires Encodable(done)
    ensures Encodable(done + [NEWLINE as bv32]) && EncodeAll(done + [NEWLINE as bv32]) == EncodeAll(done) + [NEWLINE]
  {
    FirstByte(NEWLINE as bv32);
    EncodeAllNext(done, NEWLINE as bv32);
  }

  lemma NotEncodable(cs: Line, out: seq<Byte>)
    requires exists k: nat :: StoppedAt(cs, out, k)
    ensures !Encodable(cs)
  {
  }
}
