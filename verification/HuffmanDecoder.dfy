/** Reading a bit stream and decoding Huffman codes from it, by the fast table and, for long codes, by the tables by length. */
module HuffmanDecoder {
  import opened BitOps
  import opened HuffmanCodes
  import opened HuffmanTables

  const WORD: nat := 32

  /** Bytes as one number, the first byte lowest: the bit stream they hold, its first bit lowest. */
  ghost function Number(bytes: seq<nat>): nat {
    if bytes == [] then 0 else bytes[0] + 0x100 * Number(bytes[1..])
  }

  // ----- arithmetic of streams -----

  /** A stream whose first bits are held in a buffer of n bits: taking k of them leaves the others in place. */
  lemma TakeBits(buffer: nat, n: nat, rest: nat, k: nat)
    requires k <= n
    ensures (buffer + Pow2(n) * rest) % Pow2(k) == buffer % Pow2(k)
    ensures (buffer + Pow2(n) * rest) / Pow2(k) == buffer / Pow2(k) + Pow2(n - k) * rest
  {
    Pow2Add(k, n - k);
    var p, m := Pow2(k), Pow2(n - k);
    hide *;
    Reassociate(p, m, rest);
    LowAdd(buffer, p, m * rest);
  }

  lemma Reassociate(p: nat, m: nat, rest: nat)
    ensures (p * m) * rest == p * (m * rest)
  {
  }

  lemma Shrinks(buffer: nat, n: nat, k: nat)
    requires k <= n && buffer < Pow2(n)
    ensures buffer / Pow2(k) < Pow2(n - k)
  {
    hide *;
    Pow2Add(k, n - k);
    QuotientBelow(buffer, Pow2(k), Pow2(n - k));
  }

  lemma QuotientBelow(x: nat, p: nat, m: nat)
    requires p > 0 && x < p * m
    ensures x / p < m
  {
    var q, r := x / p, x % p;
    assert x == q * p + r && r >= 0;
    if q >= m {
      Multiplied(m, q, p);
    }
  }

  lemma Multiplied(m: nat, q: nat, p: nat)
    requires m <= q
    ensures p * m <= q * p
  {
  }

  /** One more byte goes above the n bits of the buffer. */
  lemma AddByte(buffer: nat, n: nat, byte: nat, rest: nat)
    requires buffer < Pow2(n) && byte < 0x100
    ensures Or(buffer, Shl(byte, n)) == buffer + byte * Pow2(n) < Pow2(n + 8)
    ensures buffer + Pow2(n) * (byte + 0x100 * rest) == (buffer + byte * Pow2(n)) + Pow2(n + 8) * rest
  {
    OrShifted(byte, buffer, n);
    ShlIs(byte, n);
    Pow2Add(n, 8);
    assert Pow2(8) == 0x100;
    hide *;
    Multiplied(byte, 255, Pow2(n));
    Distribute(Pow2(n), byte, rest);
  }

  lemma Distribute(p: nat, byte: nat, rest: nat)
    ensures p * (byte + 0x100 * rest) == byte * p + (p * 0x100) * rest
  {
    assert p * (byte + 0x100 * rest) == p * byte + p * (0x100 * rest);
  }

  // ----- the decoder's result -----

  /** The symbol that the stream starts with, or that it starts with none. */
  ghost predicate Decodes(l: seq<nat>, stream: nat, r: int) {
    if r >= 0 then Matches(l, stream, r) else r == -1 && forall i: nat :: !Matches(l, stream, i)
  }

  /** The tables by length, as the search for long codes sees a window of 16 bits. */
  lemma LevelTest(l: seq<nat>, w: nat, s: nat, max: nat)
    requires s <= 16 && max == EndCode(l, s) * Pow2(16 - s)
    ensures Reversed(w, 16) < max <==> Reversed(w, s) < EndCode(l, s)
  {
    ReversedTop(w, s, 16 - s);
    hide Reversed, Pow2, EndCode;
    Compare(Reversed(w, 16), EndCode(l, s), Pow2(16 - s));
  }

  lemma Compare(k: nat, e: nat, p: nat)
    requires p > 0
    ensures k < e * p <==> k / p < e
  {
    var q, r := k / p, k % p;
    assert k == q * p + r;
    if q < e {
      Multiplied(q + 1, e, p);
      assert p * (q + 1) == q * p + p;
    } else {
      Multiplied(e, q, p);
    }
  }

  /** No short code matches: the fast table has no entry for the window. */
  lemma FastMiss(l: seq<nat>, fast: seq<nat>, w: nat)
    requires Decodable(l) && FastUpTo(l, fast, |l|) && w < FAST_SIZE && fast[w] == 0
    ensures forall t: nat :: 1 <= t <= FAST_BITS ==> Reversed(w, t) >= EndCode(l, t)
  {
    hide Reversed, EndCode;
    forall t: nat | 1 <= t <= FAST_BITS ensures Reversed(w, t) >= EndCode(l, t) {
      if Reversed(w, t) < EndCode(l, t) {
        var i := Least(l, w, t);
      }
    }
  }

  /** A short code matches: the entry names its symbol and length. */
  lemma FastHit(l: seq<nat>, fast: seq<nat>, w: nat) returns (i: nat)
    requires Decodable(l) && FastUpTo(l, fast, |l|) && w < FAST_SIZE && fast[w] != 0
    ensures Matches(l, w, i) && l[i] <= FAST_BITS && fast[w] == l[i] * FAST_SIZE + i && i < MAX_SYMBOLS
  {
    hide Reversed;
    i :| i < |l| && Short(l, w, i);
  }

  /** The search found length s, the first before whose end the window comes: its symbol. */
  lemma SlowHit(l: seq<nat>, w: nat, s: nat) returns (i: nat)
    requires 1 <= s <= MAX_LENGTH && Reversed(w, s) < EndCode(l, s)
    requires forall t: nat :: 1 <= t < s ==> Reversed(w, t) >= EndCode(l, t)
    ensures Matches(l, w, i) && l[i] == s && FirstCode(l, s) <= Reversed(w, s)
    ensures Reversed(w, s) - FirstCode(l, s) + SymbolsBelow(l, s) == Index(l, i)
  {
    hide Reversed;
    if Reversed(w, s) < FirstCode(l, s) {
      Behind(l, w, s - 1);
    }
    i := MatchAt(l, w, s);
  }

  /** The window comes after all codes: it starts with none. */
  lemma SlowMiss(l: seq<nat>, w: nat)
    requires Lengths(l) && forall t: nat :: 1 <= t <= MAX_LENGTH ==> Reversed(w, t) >= EndCode(l, t)
    ensures forall i: nat :: !Matches(l, w, i)
  {
    hide Reversed, EndCode, Matches;
    forall i: nat ensures !Matches(l, w, i) {
      if Matches(l, w, i) {
        MatchRange(l, w, i);
      }
    }
  }

  lemma MatchRange(l: seq<nat>, w: nat, i: nat)
    requires Lengths(l) && Matches(l, w, i)
    ensures 1 <= l[i] <= MAX_LENGTH && Reversed(w, l[i]) < EndCode(l, l[i])
  {
    CodeRange(l, i);
  }

  /** What a decoder leaves of the stream: everything behind the code it found, or everything. */
  ghost function After(l: seq<nat>, stream: nat, r: int): nat {
    if 0 <= r < |l| then Shr(stream, l[r]) else stream
  }

  lemma ReversedFits(w: nat)
    ensures Reversed(w, 16) < 0x10000
  {
    ReversedBelow(w, 16);
    Pow2Add(8, 8);
    assert Pow2(8) == 0x100;
  }

  /** Table entries for one length. */
  lemma LevelFacts(l: seq<nat>, firstCode: seq<nat>, maxCode: seq<nat>, firstSymbol: seq<nat>, s: nat)
    requires LevelsUpTo(l, firstCode, maxCode, firstSymbol, 16) && 1 <= s < 16
    ensures |firstCode| == 16 && |maxCode| == 17 && |firstSymbol| == 16
    ensures firstCode[s] == FirstCode(l, s) && maxCode[s] == EndCode(l, s) * Pow2(16 - s) && firstSymbol[s] == SymbolsBelow(l, s)
  {
  }

  lemma PlacedFacts(l: seq<nat>, size: seq<nat>, value: seq<nat>, i: nat)
    requires PlacedUpTo(l, size, value, |l|) && i < |l| && l[i] > 0
    ensures Index(l, i) < |size| == |value| && size[Index(l, i)] == l[i] && value[Index(l, i)] == i && l[i] <= MAX_LENGTH
  {
  }

  /** The state of the bit reader: the input, and the bits taken from it that are not used yet. */
  class BitReader {
    const bytes: seq<nat>
    var pos: nat
    var codeBuffer: nat
    var numBits: nat

    ghost predicate Valid()
      reads this
    {
      pos <= |bytes| && (forall b <- bytes :: b < 0x100) && numBits <= WORD && codeBuffer < Pow2(numBits)
    }

    /** All bits still to be read; behind the input come zeros. */
    ghost function Stream(): nat
      requires pos <= |bytes|
      reads this
    {
      codeBuffer + Pow2(numBits) * Number(bytes[pos..])
    }

    lemma StreamParts() returns (w: nat, n: nat, rest: nat)
      requires Valid()
      ensures w == codeBuffer && n == numBits && Stream() == w + Pow2(n) * rest
    {
      w, n, rest := codeBuffer, numBits, Number(bytes[pos..]);
    }

    constructor (bytes: seq<nat>)
      requires forall b <- bytes :: b < 0x100
      ensures this.bytes == bytes && Valid() && Stream() == Number(bytes)
    {
      this.bytes, pos, codeBuffer, numBits := bytes, 0, 0, 0;
      new;
      assert bytes[0..] == bytes && Pow2(0) == 1;
    }

    method Get8() returns (b: nat)
      requires Valid()
      modifies this`pos
      ensures Valid() && b < 0x100
      ensures Number(bytes[old(pos)..]) == b + 0x100 * Number(bytes[pos..])
    {
      if pos >= |bytes| {
        assert bytes[pos..] == [];
        return 0;
      }
      b := bytes[pos];
      assert b in bytes;
      assert bytes[pos..][1..] == bytes[pos + 1..];
      pos := pos + 1;
    }

    /** One round of FillBits: no bit of the buffer is overwritten, and none of the new byte is lost. */
    method FillByte()
      requires Valid() && numBits <= 24
      modifies this
      ensures Valid() && numBits == old(numBits) + 8 && Stream() == old(Stream())
    {
      hide Pow2, Or, Shl, Number;
      ghost var rest := Number(bytes[pos..]);
      var b := Get8();
      AddByte(codeBuffer, numBits, b, Number(bytes[pos..]));
      codeBuffer := Or(codeBuffer, Shl(b, numBits));
      numBits := numBits + 8;
    }

    method FillBits()
      requires Valid() && numBits <= 24
      modifies this
      ensures Valid() && numBits > 24 && Stream() == old(Stream())
    {
      FillByte();
      while numBits <= 24
        invariant Valid() && Stream() == old(Stream())
        decreases WORD - numBits
      {
        FillByte();
      }
    }

    /** The shift that removes used bits. */
    method Drop(n: nat)
      requires Valid() && n <= numBits
      modifies this`codeBuffer, this`numBits
      ensures Valid() && Stream() == Shr(old(Stream()), n)
    {
      hide Pow2, Shr, Number;
      ShrIs(codeBuffer, n);
      ShrIs(Stream(), n);
      TakeBits(codeBuffer, numBits, Number(bytes[pos..]), n);
      Shrinks(codeBuffer, numBits, n);
      codeBuffer := Shr(codeBuffer, n);
      numBits := numBits - n;
    }

    /** The next n bits of the stream, as a number. */
    method Receive(n: nat) returns (k: nat)
      requires Valid() && n <= 16
      modifies this
      ensures Valid() && k == old(Stream()) % Pow2(n) && Stream() == Shr(old(Stream()), n)
    {
      hide Pow2, Shl, And, Shr, Number;
      if numBits < n {
        FillBits();
      }
      ShlIs(1, n);
      AndOnes(codeBuffer, n);
      TakeBits(codeBuffer, numBits, Number(bytes[pos..]), n);
      k := And(codeBuffer, Shl(1, n) - 1);
      Drop(n);
    }

    /** The search of the long way: the shortest length before the end of whose codes the window comes, or 16. */
    method FindLength(z: HuffmanTable, k: nat, ghost l: seq<nat>) returns (s: nat)
      requires z.Built(l) && k == Reversed(codeBuffer, 16)
      requires forall t: nat :: 1 <= t <= FAST_BITS ==> Reversed(codeBuffer, t) >= EndCode(l, t)
      ensures FAST_BITS < s <= 16 && (s < 16 ==> Reversed(codeBuffer, s) < EndCode(l, s))
      ensures forall t: nat :: 1 <= t < s ==> Reversed(codeBuffer, t) >= EndCode(l, t)
    {
      ghost var w, firstCode, maxCode, firstSymbol := codeBuffer, z.firstCode[..], z.maxCode[..], z.firstSymbol[..];
      assert LevelsUpTo(l, firstCode, maxCode, firstSymbol, 16) && z.maxCode[16] == 0x10000 && z.maxCode.Length == 17;
      ReversedFits(w);
      hide *;
      s := FAST_BITS + 1;
      while k >= z.maxCode[s]
        invariant FAST_BITS < s <= 16
        invariant forall t: nat :: 1 <= t < s ==> Reversed(w, t) >= EndCode(l, t)
        decreases 16 - s
      {
        LevelFacts(l, firstCode, maxCode, firstSymbol, s);
        LevelTest(l, w, s, maxCode[s]);
        s := s + 1;
      }
      if s < 16 {
        LevelFacts(l, firstCode, maxCode, firstSymbol, s);
        LevelTest(l, w, s, maxCode[s]);
      }
    }

    /** The long way, for codes that are not in the fast table. */
    method DecodeSlow(z: HuffmanTable, ghost l: seq<nat>) returns (r: int)
      requires Valid() && numBits >= 16 && z.Built(l)
      requires forall t: nat :: 1 <= t <= FAST_BITS ==> Reversed(codeBuffer, t) >= EndCode(l, t)
      modifies this`codeBuffer, this`numBits
      ensures Valid() && Decodes(l, old(codeBuffer), r) && Stream() == After(l, old(Stream()), r)
    {
      ghost var w := codeBuffer;
      BitReverseIs(w, 16);
      TableFacts(z, l);
      hide *;
      var k := BitReverse(codeBuffer, 16);
      var s := FindLength(z, k, l);
      if s == 16 {
        SlowMiss(l, w);
        r := -1;
        NoSymbol(l, w, Stream());
        return;
      }
      ghost var i := SlowSymbol(l, w, s, k, z.firstCode[..], z.maxCode[..], z.firstSymbol[..], z.size[..], z.value[..]);
      var b := Shr(k, 16 - s) - z.firstCode[s] + z.firstSymbol[s];
      assert z.size[b] == s;
      OneSymbol(l, w, Stream(), i);
      Drop(s);
      return z.value[b];
    }

    /** Decodes the next symbol: the one whose code the stream starts with, or -1 if it starts with none. */
    method Decode(z: HuffmanTable, ghost l: seq<nat>) returns (r: int)
      requires Valid() && z.Built(l)
      modifies this
      ensures Valid() && Decodes(l, old(Stream()), r) && Stream() == After(l, old(Stream()), r)
    {
      TableFacts(z, l);
      hide *;
      if numBits < 16 {
        FillBits();
      }
      ghost var w, n, rest := StreamParts();
      FastWindow(w);
      var b := z.fast[And(codeBuffer, FAST_SIZE - 1)];
      if b != 0 {
        ghost var i := FastSymbol(l, z.fast[..], w, n, rest, Stream(), b);
        var s := Shr(b, FAST_BITS);
        OneSymbol(l, Stream(), Stream(), i);
        Drop(s);
        return And(b, FAST_SIZE - 1);
      }
      FastAbsent(l, z.fast[..], w);
      r := DecodeSlow(z, l);
      WholeStream(l, w, n, rest, r);
    }
  }

  lemma TableFacts(z: HuffmanTable, l: seq<nat>)
    requires z.Built(l)
    ensures Lengths(l) && Decodable(l) && LevelsUpTo(l, z.firstCode[..], z.maxCode[..], z.firstSymbol[..], 16)
    ensures z.firstCode.Length == 16 && z.firstSymbol.Length == 16 && z.size.Length == z.value.Length
    ensures PlacedUpTo(l, z.size[..], z.value[..], |l|) && FastUpTo(l, z.fast[..], |l|) && z.fast.Length == 0x200 == FAST_SIZE
  {
  }

  lemma NoSymbol(l: seq<nat>, w: nat, stream: nat)
    requires forall i: nat :: !Matches(l, w, i)
    ensures Decodes(l, w, -1) && After(l, stream, -1) == stream
  {
    hide Matches;
  }

  lemma OneSymbol(l: seq<nat>, w: nat, stream: nat, i: nat)
    requires Matches(l, w, i)
    ensures Decodes(l, w, i) && i < |l| && After(l, stream, i) == Shr(stream, l[i])
  {
    hide Shr, Reversed, Code;
  }

  /** The symbol that the long way finds, and where its length and value stand in the tables. */
  lemma SlowSymbol(l: seq<nat>, w: nat, s: nat, k: nat, firstCode: seq<nat>, maxCode: seq<nat>, firstSymbol: seq<nat>,
                   size: seq<nat>, value: seq<nat>) returns (i: nat)
    requires LevelsUpTo(l, firstCode, maxCode, firstSymbol, 16) && PlacedUpTo(l, size, value, |l|)
    requires 1 <= s < 16 && Reversed(w, s) < EndCode(l, s) && k == Reversed(w, 16)
    requires forall t: nat :: 1 <= t < s ==> Reversed(w, t) >= EndCode(l, t)
    ensures Matches(l, w, i) && i < |l| && l[i] == s && s < |firstCode| == |firstSymbol| && |size| == |value|
    ensures var b := Shr(k, 16 - s) - firstCode[s] + firstSymbol[s]; 0 <= b < |size| && size[b] == s && value[b] == i
  {
    hide LevelsUpTo, PlacedUpTo, Reversed, EndCode, Matches, Index, FirstCode, SymbolsBelow, Shr, Pow2;
    LevelFacts(l, firstCode, maxCode, firstSymbol, s);
    i := SlowHit(l, w, s);
    MatchIs(l, w, i);
    PlacedFacts(l, size, value, i);
    ReversedTop(w, s, 16 - s);
    ShrIs(k, 16 - s);
  }

  /** The symbol that the fast table names. */
  lemma FastSymbol(l: seq<nat>, fast: seq<nat>, w: nat, n: nat, rest: nat, stream: nat, b: nat) returns (i: nat)
    requires stream == w + Pow2(n) * rest
    requires Decodable(l) && Lengths(l) && FastUpTo(l, fast, |l|) && |fast| == FAST_SIZE && b == fast[w % 0x200] != 0 && n >= 16
    ensures Matches(l, stream, i) && i < |l| && l[i] <= FAST_BITS
    ensures Shr(b, FAST_BITS) == l[i] && And(b, FAST_SIZE - 1) == i
  {
    hide Decodable, Lengths, FastUpTo, Matches, Shr, And, Pow2;
    i := FastHit(l, fast, w % 0x200);
    MatchIs(l, w % 0x200, i);
    FastEntry(b, l[i], i);
    Windows(l, w, n, rest, i);
  }

  lemma FastAbsent(l: seq<nat>, fast: seq<nat>, w: nat)
    requires Decodable(l) && FastUpTo(l, fast, |l|) && |fast| == FAST_SIZE && fast[w % 0x200] == 0
    ensures forall t: nat :: 1 <= t <= FAST_BITS ==> Reversed(w, t) >= EndCode(l, t)
  {
    FastMiss(l, fast, w % 0x200);
    hide Reversed, EndCode, Pow2;
    forall t: nat | 1 <= t <= FAST_BITS ensures Reversed(w, t) >= EndCode(l, t) {
      NineBits(w, t);
      ReversedLow(w % 0x200, w, t);
    }
  }

  /** What the buffer decodes to is what the whole stream decodes to. */
  lemma WholeStream(l: seq<nat>, w: nat, n: nat, rest: nat, r: int)
    requires Lengths(l) && n >= 16 && Decodes(l, w, r)
    ensures Decodes(l, w + Pow2(n) * rest, r)
  {
    hide Matches, Pow2;
    var stream := w + Pow2(n) * rest;
    if r >= 0 {
      WholeWindow(l, w, n, rest, r);
    } else {
      forall i: nat ensures !Matches(l, stream, i) {
        WholeWindow(l, w, n, rest, i);
      }
    }
  }

  lemma MatchIs(l: seq<nat>, w: nat, i: nat)
    requires Matches(l, w, i)
    ensures i < |l| && l[i] > 0
  {
  }

  lemma FastWindow(w: nat)
    ensures And(w, FAST_SIZE - 1) == w % 0x200
  {
    AndOnes(w, 9);
    assert Pow2(9) == FAST_SIZE;
  }

  /** The fields of a fast table entry. */
  lemma FastEntry(entry: nat, s: nat, i: nat)
    requires entry == s * FAST_SIZE + i && i < FAST_SIZE
    ensures Shr(entry, FAST_BITS) == s && And(entry, FAST_SIZE - 1) == i
  {
    AndOnes(entry, 9);
    ShrIs(entry, 9);
    assert Pow2(9) == FAST_SIZE;
    Remainder(entry, s, i, FAST_SIZE);
  }

  /** The stream and the low nine bits of the buffer start with the same short codes. */
  lemma Windows(l: seq<nat>, w: nat, n: nat, rest: nat, i: nat)
    requires Lengths(l) && 16 <= n && i < |l| && l[i] <= FAST_BITS
    ensures Matches(l, w + Pow2(n) * rest, i) <==> Matches(l, w % 0x200, i)
  {
    hide *;
    WholeWindow(l, w, n, rest, i);
    NineBits(w, FAST_BITS);
    MatchesLow(l, w % 0x200, w, i, FAST_BITS);
  }

  lemma NineBits(w: nat, t: nat)
    requires t <= FAST_BITS
    ensures (w % 0x200) % Pow2(t) == w % Pow2(t)
  {
    assert Pow2(9) == 0x200;
    LowOf(w, t, 9 - t);
  }

  lemma WholeWindow(l: seq<nat>, w: nat, n: nat, rest: nat, i: nat)
    requires Lengths(l) && 16 <= n
    ensures Matches(l, w + Pow2(n) * rest, i) <==> Matches(l, w, i)
  {
    hide Reversed, Pow2;
    if i < |l| {
      TakeBits(w, n, rest, MAX_LENGTH);
      MatchesLow(l, w + Pow2(n) * rest, w, i, MAX_LENGTH);
    }
  }

  // ----- whole messages -----

  ghost predicate Symbols(l: seq<nat>, message: seq<nat>) {
    forall k :: 0 <= k < |message| ==> message[k] < |l| && l[message[k]] > 0
  }

  /** The stream of a message, and of tail behind it: the codes one after the other, each most significant bit first. */
  ghost function Encode(l: seq<nat>, message: seq<nat>, tail: nat): nat
    requires Symbols(l, message)
  {
    if message == [] then tail
    else Reversed(Code(l, message[0]), l[message[0]]) + Pow2(l[message[0]]) * Encode(l, message[1..], tail)
  }

  lemma EncodeFirst(l: seq<nat>, message: seq<nat>, tail: nat)
    requires Decodable(l) && Symbols(l, message) && message != []
    ensures message[0] < |l| && Matches(l, Encode(l, message, tail), message[0])
    ensures Shr(Encode(l, message, tail), l[message[0]]) == Encode(l, message[1..], tail)
  {
    var x := message[0];
    var s, c, rest := l[x], Code(l, x), Encode(l, message[1..], tail);
    var stream := Encode(l, message, tail);
    assert stream == Reversed(c, s) + Pow2(s) * rest;
    hide Pow2, Reversed, Code, Matches, Encode, Decodable, Shr;
    ReversedBelow(c, s);
    LowAdd(Reversed(c, s), Pow2(s), rest);
    Small(Reversed(c, s), Pow2(s));
    MatchesLowBits(l, stream, x);
    ShrIs(stream, s);
  }

  lemma Small(x: nat, p: nat)
    requires x < p
    ensures x % p == x && x / p == 0
  {
    Remainder(x, 0, x, p);
  }

  lemma DecodesOnly(l: seq<nat>, stream: nat, r: int, x: nat)
    requires Decodes(l, stream, r) && Matches(l, stream, x)
    ensures r == x
  {
    hide Matches;
    if r >= 0 {
      MatchUnique(l, stream, r, x);
    }
  }

  /** Decoding undoes encoding: any message comes back symbol by symbol, and what follows it stays in the stream. */
  method DecodeAll(reader: BitReader, z: HuffmanTable, n: nat, ghost l: seq<nat>, ghost message: seq<nat>, ghost tail: nat)
      returns (symbols: seq<int>)
    requires reader.Valid() && z.Built(l) && Symbols(l, message) && n == |message|
    requires reader.Stream() == Encode(l, message, tail)
    modifies reader
    ensures reader.Valid() && symbols == message && reader.Stream() == tail
  {
    hide Pow2, Reversed, Code, Matches, Decodable, Decodes, Shr, HuffmanTable.Built, Number, BitReader.Stream, LevelsUpTo, PlacedUpTo, FastUpTo;
    symbols := [];
    assert message[0..] == message && message[..0] == [] && message[n..] == [];
    TableFacts(z, l);
    for i := 0 to n
      invariant reader.Valid() && symbols == message[..i] && Symbols(l, message[i..])
      invariant reader.Stream() == Encode(l, message[i..], tail)
    {
      var rest := message[i..];
      EncodeFirst(l, rest, tail);
      var r := reader.Decode(z, l);
      DecodesOnly(l, Encode(l, rest, tail), r, rest[0]);
      assert rest[1..] == message[i + 1..];
      symbols := symbols + [r];
    }
  }
}
