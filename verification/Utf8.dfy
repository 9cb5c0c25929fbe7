/** Code points as bytes, in the encoding form of RFC 3629, section 3. */
module Utf8 {
  type Byte = bv8

  type CodePoint = bv32

  datatype Option<T> = None | Some(value: T)

  const LIMIT: CodePoint := 0x110000

  /** A value cast to a byte. */
  function Low(x: bv32): Byte {
    (x & 0xff) as bv8
  }

  function Encode2(c: CodePoint): seq<Byte> {
    [Low(0xc0 | ((c >> 6) & 0x1f)), Low(0x80 | (c & 0x3f))]
  }

  function Encode3(c: CodePoint): seq<Byte> {
    [Low(0xe0 | ((c >> 12) & 0x0f)), Low(0x80 | ((c >> 6) & 0x3f)), Low(0x80 | (c & 0x3f))]
  }

  function Encode4(c: CodePoint): seq<Byte> {
    [Low(0xf0 | ((c >> 18) & 0x07)), Low(0x80 | ((c >> 12) & 0x3f)), Low(0x80 | ((c >> 6) & 0x3f)), Low(0x80 | (c & 0x3f))]
  }

  function Encode(c: CodePoint): Option<seq<Byte>> {
    if c < 0x80 then Some([Low(c)])
    else if c < 0x800 then Some(Encode2(c))
    else if c < 0x10000 then Some(Encode3(c))
    else if c < LIMIT then Some(Encode4(c))
    else None
  }

  predicate Continues(b: Byte) {
    b & 0xc0 == 0x80
  }

  function Two(a: Byte, b: Byte): CodePoint {
    ((a as bv32 & 0x1f) << 6) | (b as bv32 & 0x3f)
  }

  function Three(a: Byte, b: Byte, c: Byte): CodePoint {
    ((a as bv32 & 0x0f) << 12) | ((b as bv32 & 0x3f) << 6) | (c as bv32 & 0x3f)
  }

  function Four(a: Byte, b: Byte, c: Byte, d: Byte): CodePoint {
    ((a as bv32 & 0x07) << 18) | ((b as bv32 & 0x3f) << 12) | ((c as bv32 & 0x3f) << 6) | (d as bv32 & 0x3f)
  }

  // ----- one fact about bits at a time -----

  lemma One(c: CodePoint)
    requires c < 0x80
    ensures Low(c) as bv32 == c && Low(c) < 0x80
  {
  }

  lemma Tail(c: CodePoint)
    ensures Continues(Low(0x80 | (c & 0x3f)))
  {
  }

  lemma Lead2(c: CodePoint)
    ensures Low(0xc0 | ((c >> 6) & 0x1f)) & 0xe0 == 0xc0
  {
  }

  lemma Lead3(c: CodePoint)
    ensures Low(0xe0 | ((c >> 12) & 0x0f)) & 0xf0 == 0xe0
  {
  }

  lemma Lead4(c: CodePoint)
    ensures Low(0xf0 | ((c >> 18) & 0x07)) & 0xf8 == 0xf0
  {
  }

  lemma Two2(c: CodePoint)
    requires c < 0x800
    ensures Two(Low(0xc0 | ((c >> 6) & 0x1f)), Low(0x80 | (c & 0x3f))) == c
  {
  }

  lemma Three3(c: CodePoint)
    requires c < 0x10000
    ensures Three(Low(0xe0 | ((c >> 12) & 0x0f)), Low(0x80 | ((c >> 6) & 0x3f)), Low(0x80 | (c & 0x3f))) == c
  {
  }

  lemma Four4(c: CodePoint)
    requires c < LIMIT
    ensures Four(Low(0xf0 | ((c >> 18) & 0x07)), Low(0x80 | ((c >> 12) & 0x3f)), Low(0x80 | ((c >> 6) & 0x3f)),
                 Low(0x80 | (c & 0x3f))) == c
  {
  }

  /** Only a byte below 0x80 stands alone; the leading bits of the others tell how many follow. */
  lemma LeadsApart(b: Byte)
    ensures b & 0xe0 == 0xc0 ==> !(b < 0x80)
    ensures b & 0xf0 == 0xe0 ==> !(b < 0x80) && b & 0xe0 != 0xc0
    ensures b & 0xf8 == 0xf0 ==> !(b < 0x80) && b & 0xe0 != 0xc0 && b & 0xf0 != 0xe0
  {
  }

  // ----- the table of RFC 3629, section 3 -----

  /** A byte that carries six bits. */
  ghost predicate Carries(b: Byte, six: bv32) {
    0x80 <= b && b < 0xc0 && b as bv32 - 0x80 == six
  }

  /** A byte of a range, and how far into it. */
  ghost predicate Leads(b: Byte, from: Byte, to: Byte, digit: bv32) {
    from <= b && b < to && b as bv32 - from as bv32 == digit
  }

  /** The number of bytes goes by the range of the code point; the first byte's range tells that number, and its digit and those
      of the other bytes, to the base 64, are the code point. */
  ghost predicate InTable(c: CodePoint, e: seq<Byte>) {
    if c < 0x80 then |e| == 1 && Leads(e[0], 0, 0x80, c)
    else if c < 0x800 then |e| == 2 && Leads(e[0], 0xc0, 0xe0, c / 0x40) && Carries(e[1], c % 0x40)
    else if c < 0x10000 then
      |e| == 3 && Leads(e[0], 0xe0, 0xf0, c / 0x1000) && Carries(e[1], c / 0x40 % 0x40) && Carries(e[2], c % 0x40)
    else
      |e| == 4 && Leads(e[0], 0xf0, 0xf8, c / 0x40000) && Carries(e[1], c / 0x1000 % 0x40) && Carries(e[2], c / 0x40 % 0x40)
      && Carries(e[3], c % 0x40)
  }

  lemma EncodeInTable(c: CodePoint)
    requires c < LIMIT
    ensures Encode(c).Some? && InTable(c, Encode(c).value)
  {
    hide Low, Carries, Leads;
    Digit(c);
    Digit6(c);
    Digit12(c);
    if c < 0x80 {
      First1(c);
    } else if c < 0x800 {
      First2(c);
    } else if c < 0x10000 {
      First3(c);
    } else {
      First4(c);
    }
  }

  lemma Digit(c: CodePoint)
    ensures Carries(Low(0x80 | (c & 0x3f)), c % 0x40)
  {
  }

  lemma Digit6(c: CodePoint)
    ensures Carries(Low(0x80 | ((c >> 6) & 0x3f)), c / 0x40 % 0x40)
  {
  }

  lemma Digit12(c: CodePoint)
    ensures Carries(Low(0x80 | ((c >> 12) & 0x3f)), c / 0x1000 % 0x40)
  {
  }

  lemma First1(c: CodePoint)
    requires c < 0x80
    ensures Leads(Low(c), 0, 0x80, c)
  {
  }

  lemma First2(c: CodePoint)
    requires c < 0x800
    ensures Leads(Low(0xc0 | ((c >> 6) & 0x1f)), 0xc0, 0xe0, c / 0x40)
  {
  }

  lemma First3(c: CodePoint)
    requires c < 0x10000
    ensures Leads(Low(0xe0 | ((c >> 12) & 0x0f)), 0xe0, 0xf0, c / 0x1000)
  {
  }

  lemma First4(c: CodePoint)
    requires c < LIMIT
    ensures Leads(Low(0xf0 | ((c >> 18) & 0x07)), 0xf0, 0xf8, c / 0x40000)
  {
  }

  /** What decoding makes of the low bits of the bytes: their digits to the base 64. */
  lemma TwoIs(a: Byte, b: Byte)
    ensures Two(a, b) == (a as bv32 % 0x20) * 0x40 + b as bv32 % 0x40
  {
  }

  lemma ThreeIs(a: Byte, b: Byte, c: Byte)
    ensures Three(a, b, c) == (a as bv32 % 0x10) * 0x1000 + (b as bv32 % 0x40) * 0x40 + c as bv32 % 0x40
  {
  }

  lemma FourIs(a: Byte, b: Byte, c: Byte, d: Byte)
    ensures Four(a, b, c, d)
            == (a as bv32 % 0x08) * 0x40000 + (b as bv32 % 0x40) * 0x1000 + (c as bv32 % 0x40) * 0x40 + d as bv32 % 0x40
  {
  }

  // ----- decoding -----

  /** The first character of the bytes that follow. */
  datatype Form = Ascii | Lead(follow: nat) | Stray

  function FormOf(b: Byte): Form {
    if b < 0x80 then Ascii
    else if b & 0xe0 == 0xc0 then Lead(1)
    else if b & 0xf0 == 0xe0 then Lead(2)
    else if b & 0xf8 == 0xf0 then Lead(3)
    else Stray
  }

  /** A code point's first byte tells how many bytes there are, all others continue, and together they are it again. */
  ghost predicate Decodes(e: seq<Byte>, c: CodePoint) {
    match |e|
    case 1 => FormOf(e[0]) == Ascii && e[0] as bv32 == c
    case 2 => FormOf(e[0]) == Lead(1) && Continues(e[1]) && Two(e[0], e[1]) == c
    case 3 => FormOf(e[0]) == Lead(2) && Continues(e[1]) && Continues(e[2]) && Three(e[0], e[1], e[2]) == c
    case 4 => FormOf(e[0]) == Lead(3) && Continues(e[1]) && Continues(e[2]) && Continues(e[3]) && Four(e[0], e[1], e[2], e[3]) == c
    case _ => false
  }

  lemma Decodes2(c: CodePoint)
    requires c < 0x800
    ensures |Encode2(c)| == 2 && Decodes(Encode2(c), c)
  {
    hide Low, Continues, Two;
    Two2(c);
    Lead2(c);
    Tail(c);
    LeadsApart(Low(0xc0 | ((c >> 6) & 0x1f)));
  }

  lemma Decodes3(c: CodePoint)
    requires c < 0x10000
    ensures |Encode3(c)| == 3 && Decodes(Encode3(c), c)
  {
    hide Low, Continues, Three;
    Three3(c);
    Lead3(c);
    Tail(c >> 6);
    Tail(c);
    LeadsApart(Low(0xe0 | ((c >> 12) & 0x0f)));
  }

  lemma Decodes4(c: CodePoint)
    requires c < LIMIT
    ensures |Encode4(c)| == 4 && Decodes(Encode4(c), c)
  {
    hide Low, Continues, Four;
    Four4(c);
    Lead4(c);
    Tail(c >> 12);
    Tail(c >> 6);
    Tail(c);
    LeadsApart(Low(0xf0 | ((c >> 18) & 0x07)));
  }

  lemma EncodeDecodes(c: CodePoint)
    ensures Encode(c).Some? <==> c < LIMIT
    ensures c < LIMIT ==> Decodes(Encode(c).value, c)
    ensures c < LIMIT ==> |Encode(c).value| == if c < 0x80 then 1 else if c < 0x800 then 2 else if c < 0x10000 then 3 else 4
  {
    if c < 0x80 {
      One(c);
    } else if c < 0x800 {
      Decodes2(c);
    } else if c < 0x10000 {
      Decodes3(c);
    } else if c < LIMIT {
      Decodes4(c);
    }
    hide Low, Decodes, Encode2, Encode3, Encode4;
  }

  // ----- the kernel's decoder -----

  function CountUTF8Size(b: Byte): nat {
    if b < 0x80 then 1
    else if 0xc0 <= b && b < 0xe0 then 2
    else if 0xe0 <= b && b < 0xf0 then 3
    else if 0xf0 <= b && b < 0xf8 then 4
    else 0
  }

  lemma CountIsForm(b: Byte)
    ensures CountUTF8Size(b) == match FormOf(b) case Ascii => 1 case Lead(n) => n + 1 case Stray => 0
  {
    LeadRange2(b);
    LeadRange3(b);
    LeadRange4(b);
  }

  lemma LeadRange2(b: Byte)
    ensures b & 0xe0 == 0xc0 <==> 0xc0 <= b && b < 0xe0
  {
  }

  lemma LeadRange3(b: Byte)
    ensures b & 0xf0 == 0xe0 <==> 0xe0 <= b && b < 0xf0
  {
  }

  lemma LeadRange4(b: Byte)
    ensures b & 0xf8 == 0xf0 <==> 0xf0 <= b && b < 0xf8
  {
  }

  function ConvertUTF8To32(s: seq<Byte>): (CodePoint, nat)
    requires s != [] && CountUTF8Size(s[0]) <= |s|
  {
    match CountUTF8Size(s[0])
    case 1 => (s[0] as bv32, 1)
    case 2 => (Two(s[0], s[1]), 2)
    case 3 => (Three(s[0], s[1], s[2]), 3)
    case 4 => (Four(s[0], s[1], s[2], s[3]), 4)
    case _ => (0, 0)
  }

  /** Decoding undoes encoding, whatever follows. */
  lemma ConvertEncoded(c: CodePoint, rest: seq<Byte>)
    requires c < LIMIT
    ensures var e := Encode(c).value;
            && e != [] && CountUTF8Size(e[0]) == |e|
            && CountUTF8Size((e + rest)[0]) <= |e + rest| && ConvertUTF8To32(e + rest) == (c, |e|)
  {
    EncodeDecodes(c);
    var e := Encode(c).value;
    assert (e + rest)[0] == e[0];
    CountIsForm(e[0]);
    hide Two, Three, Four, FormOf, CountUTF8Size, Continues, Encode;
  }
}
