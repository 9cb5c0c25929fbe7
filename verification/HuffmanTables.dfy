/** The tables that the inflate decoder builds from a list of code lengths. */
module HuffmanTables {
  import opened BitOps
  import opened HuffmanCodes

  const FAST_BITS: nat := 9
  const FAST_SIZE: nat := 512

  // ----- the levels: first code, end of codes and first symbol of each length -----

  /** The tables by length are filled in for the lengths below s. */
  ghost predicate LevelsUpTo(l: seq<nat>, firstCode: seq<nat>, maxCode: seq<nat>, firstSymbol: seq<nat>, s: nat) {
    && |firstCode| == 16 && |maxCode| == 17 && |firstSymbol| == 16 && s <= 16
    && (forall t :: 1 <= t < s ==> firstCode[t] == FirstCode(l, t))
    && (forall t :: 1 <= t < s ==> maxCode[t] == EndCode(l, t) * Pow2(16 - t))
    && (forall t :: 1 <= t < s ==> firstSymbol[t] == SymbolsBelow(l, t))
  }

  lemma LevelsNext(l: seq<nat>, firstCode: seq<nat>, maxCode: seq<nat>, firstSymbol: seq<nat>, s: nat, max: nat)
    requires LevelsUpTo(l, firstCode, maxCode, firstSymbol, s) && 1 <= s < 16 && max == Shl(EndCode(l, s), 16 - s)
    ensures LevelsUpTo(l, firstCode[s := FirstCode(l, s)], maxCode[s := max], firstSymbol[s := SymbolsBelow(l, s)], s + 1)
  {
    hide FirstCode, SymbolsBelow, EndCode, Pow2, Shl;
    ShlIs(EndCode(l, s), 16 - s);
  }

  // ----- the symbols in the order of their codes -----

  ghost predicate PlacedUpTo(l: seq<nat>, size: seq<nat>, value: seq<nat>, n: nat) {
    && Lengths(l) && n <= |l| && |size| == MAX_SYMBOLS && |value| == MAX_SYMBOLS
    && (forall i :: 0 <= i < n && l[i] > 0 ==>
          Index(l, i) < MAX_SYMBOLS && size[Index(l, i)] == l[i] && value[Index(l, i)] == i)
  }

  lemma PlacedNext(l: seq<nat>, size: seq<nat>, value: seq<nat>, n: nat)
    requires PlacedUpTo(l, size, value, n) && n < |l| && l[n] > 0
    ensures Index(l, n) < MAX_SYMBOLS
    ensures PlacedUpTo(l, size[Index(l, n) := l[n]], value[Index(l, n) := n], n + 1)
  {
    IndexBound(l, n);
    var size', value' := size[Index(l, n) := l[n]], value[Index(l, n) := n];
    forall i | 0 <= i < n + 1 && l[i] > 0
      ensures Index(l, i) < MAX_SYMBOLS && size'[Index(l, i)] == l[i] && value'[Index(l, i)] == i
    {
      IndexBound(l, i);
      if Index(l, i) == Index(l, n) {
        IndexInjective(l, i, n);
      }
    }
  }

  lemma PlacedSkip(l: seq<nat>, size: seq<nat>, value: seq<nat>, n: nat)
    requires PlacedUpTo(l, size, value, n) && n < |l| && l[n] == 0
    ensures PlacedUpTo(l, size, value, n + 1)
  {
  }

  // ----- the fast table -----

  /** Symbol i has a short code, and the window w of nine bits starts with it. */
  ghost predicate Short(l: seq<nat>, w: nat, i: nat) {
    Matches(l, w, i) && l[i] <= FAST_BITS
  }

  /** The fast table has an entry for every window that starts with one of the first n codes, and for no other. */
  ghost predicate FastUpTo(l: seq<nat>, fast: seq<nat>, n: nat) {
    && |fast| == FAST_SIZE
    && (forall w: nat, i: nat | w < FAST_SIZE && i < n && Short(l, w, i) :: fast[w] == l[i] * FAST_SIZE + i)
    && (forall w: nat | w < FAST_SIZE && fast[w] != 0 :: exists i: nat :: i < n && Short(l, w, i))
  }

  lemma FastEmpty(l: seq<nat>, fast: seq<nat>)
    requires |fast| == FAST_SIZE && forall w :: 0 <= w < FAST_SIZE ==> fast[w] == 0
    ensures FastUpTo(l, fast, 0)
  {
  }

  /** The table after the entries of symbol n are written: every window that ends in its reversed code. */
  ghost predicate FastFilled(fast: seq<nat>, fast': seq<nat>, s: nat, rev: nat, entry: nat) {
    && |fast| == |fast'| == FAST_SIZE
    && (forall w: nat | w < FAST_SIZE :: fast'[w] == if w % Pow2(s) == rev then entry else fast[w])
  }

  lemma FastNext(l: seq<nat>, fast: seq<nat>, fast': seq<nat>, n: nat)
    requires Decodable(l) && FastUpTo(l, fast, n) && n < |l| && 0 < l[n] <= FAST_BITS
    requires FastFilled(fast, fast', l[n], Reversed(Code(l, n), l[n]), l[n] * FAST_SIZE + n)
    ensures FastUpTo(l, fast', n + 1)
  {
    hide Short;
    forall w: nat, i: nat | w < FAST_SIZE && i < n + 1 && Short(l, w, i) ensures fast'[w] == l[i] * FAST_SIZE + i {
      FastWritten(l, fast, fast', n, w);
      if Short(l, w, n) {
        ShortUnique(l, w, i, n);
      }
    }
    forall w: nat | w < FAST_SIZE && fast'[w] != 0 ensures exists i: nat :: i < n + 1 && Short(l, w, i) {
      FastWritten(l, fast, fast', n, w);
      if !Short(l, w, n) {
        var i: nat :| i < n && Short(l, w, i);
      }
    }
  }

  lemma FastWritten(l: seq<nat>, fast: seq<nat>, fast': seq<nat>, n: nat, w: nat)
    requires Decodable(l) && n < |l| && 0 < l[n] <= FAST_BITS && w < FAST_SIZE
    requires FastFilled(fast, fast', l[n], Reversed(Code(l, n), l[n]), l[n] * FAST_SIZE + n)
    ensures |fast| == |fast'| == FAST_SIZE && fast'[w] == if Short(l, w, n) then l[n] * FAST_SIZE + n else fast[w]
  {
    hide Matches, Pow2, Code, Reversed, Decodable;
    MatchesLowBits(l, w, n);
  }

  lemma ShortUnique(l: seq<nat>, w: nat, i: nat, j: nat)
    requires Short(l, w, i) && Short(l, w, j)
    ensures i == j
  {
    MatchUnique(l, w, i, j);
  }

  lemma FastSkip(l: seq<nat>, fast: seq<nat>, n: nat)
    requires FastUpTo(l, fast, n) && n < |l| && (l[n] == 0 || l[n] > FAST_BITS)
    ensures FastUpTo(l, fast, n + 1)
  {
    hide Reversed, Code;
  }

  /** A window starts with a code exactly if its low bits are the code's reversal. */
  lemma MatchesLowBits(l: seq<nat>, w: nat, i: nat)
    requires Decodable(l) && i < |l| && l[i] > 0
    ensures Matches(l, w, i) <==> w % Pow2(l[i]) == Reversed(Code(l, i), l[i])
  {
    var s, c := l[i], Code(l, i);
    CodeRange(l, i);
    CodesFit(l, s);
    hide Code, Reversed, Pow2, Decodable;
    ReversedTwice(c, s);
    LowTwice(w, Pow2(s));
    ReversedTwice(w % Pow2(s), s);
    ReversedLow(w, w % Pow2(s), s);
  }

  lemma LowTwice(w: nat, p: nat)
    requires p > 0
    ensures (w % p) % p == w % p < p
  {
  }

  // ----- building -----

  /** The decoder's tables. */
  class HuffmanTable {
    const fast: array<nat>
    const firstCode: array<nat>
    const maxCode: array<nat>
    const firstSymbol: array<nat>
    const size: array<nat>
    const value: array<nat>

    constructor ()
      ensures Allocated() && fresh({fast, firstCode, maxCode, firstSymbol, size, value})
    {
      fast := new nat[FAST_SIZE];
      firstCode := new nat[16];
      maxCode := new nat[17];
      firstSymbol := new nat[16];
      size := new nat[MAX_SYMBOLS];
      value := new nat[MAX_SYMBOLS];
    }

    ghost predicate Allocated() {
      && fast.Length == FAST_SIZE && firstCode.Length == 16 && maxCode.Length == 17 && firstSymbol.Length == 16
      && size.Length == MAX_SYMBOLS && value.Length == MAX_SYMBOLS
      && firstCode != firstSymbol && size != value
    }

    /** The tables are those of the code with lengths l. */
    ghost predicate Built(l: seq<nat>)
      reads fast, firstCode, maxCode, firstSymbol, size, value
    {
      && Allocated() && Decodable(l)
      && LevelsUpTo(l, firstCode[..], maxCode[..], firstSymbol[..], 16) && maxCode[16] == 0x10000
      && PlacedUpTo(l, size[..], value[..], |l|) && FastUpTo(l, fast[..], |l|)
    }

    /** Counts the symbols by length; length 0 stands for symbols that do not occur. */
    static method CountSizes(l: seq<nat>) returns (sizes: seq<nat>)
      requires Lengths(l)
      ensures |sizes| == 17 && forall s :: 1 <= s < 16 ==> sizes[s] == Count(l, s)
    {
      sizes := seq(17, _ => 0);
      assert l[..0] == [];
      for i := 0 to |l|
        invariant |sizes| == 17 && forall s :: 1 <= s < 16 ==> sizes[s] == Count(l[..i], s)
      {
        forall s | 1 <= s < 16 ensures Count(l[..i + 1], s) == Count(l[..i], s) + if l[i] == s then 1 else 0 {
          CountNext(l, s, i);
        }
        sizes := sizes[l[i] := sizes[l[i]] + 1];
      }
      assert l[..|l|] == l;
      sizes := sizes[0 := 0];
    }

    /** No length may have more symbols than it has codes. */
    static method CheckSizes(l: seq<nat>, sizes: seq<nat>) returns (ok: bool)
      requires |sizes| == 17 && forall s :: 1 <= s < 16 ==> sizes[s] == Count(l, s)
      ensures ok <==> SizesFit(l, 16)
    {
      hide Count, Shl;
      for i := 1 to 16
        invariant SizesFit(l, i)
      {
        if sizes[i] > Shl(1, i) {
          assert Count(l, i) > Shl(1, i);
          return false;
        }
      }
      return true;
    }

    /** Computes the tables by length, and fails at the first length whose codes do not fit in that many bits. */
    method MakeLevels(l: seq<nat>, sizes: seq<nat>) returns (ok: bool, nextCode: seq<nat>)
      requires Allocated() && Lengths(l) && |sizes| == 17 && forall s :: 1 <= s < 16 ==> sizes[s] == Count(l, s)
      modifies firstCode, maxCode, firstSymbol
      ensures ok <==> Decodable(l)
      ensures ok ==> LevelsUpTo(l, firstCode[..], maxCode[..], firstSymbol[..], 16) && maxCode[16] == 0x10000
      ensures ok ==> |nextCode| == 16 && forall s :: 1 <= s < 16 ==> nextCode[s] == FirstCode(l, s)
    {
      hide LevelsUpTo, FirstCode, EndCode, SymbolsBelow, Pow2, Shl, Count, Lengths, Decodable;
      nextCode := seq(16, _ => 0);
      var code, k := 0, 0;
      LevelsStart(l, firstCode[..], maxCode[..], firstSymbol[..]);
      for i := 1 to 16
        invariant code == FirstCode(l, i) <= Pow2(i) && k == SymbolsBelow(l, i) && (i == 16 ==> EndCode(l, 15) <= Pow2(15))
        invariant LevelsUpTo(l, firstCode[..], maxCode[..], firstSymbol[..], i)
        invariant |nextCode| == 16 && forall s :: 1 <= s < i ==> nextCode[s] == FirstCode(l, s)
      {
        nextCode := nextCode[i := code];
        Doubles(l, i);
        ok := SetLevel(l, i, code, k, sizes[i]);
        if !ok {
          return;
        }
        code := 2 * (code + sizes[i]);
        k := k + sizes[i];
      }
      LevelsSentinel(l, firstCode[..], maxCode[..], firstSymbol[..]);
      ghost var max := maxCode[..];
      maxCode[16] := 0x10000;
      assert maxCode[..] == max[16 := 0x10000];
      FitDecodable(l);
      ok := true;
    }

    /** The entries of one length. */
    method SetLevel(l: seq<nat>, i: nat, code: nat, k: nat, n: nat) returns (fits: bool)
      requires Allocated() && Lengths(l) && 1 <= i < 16 && n == Count(l, i)
      requires code == FirstCode(l, i) <= Pow2(i) && k == SymbolsBelow(l, i)
      requires LevelsUpTo(l, firstCode[..], maxCode[..], firstSymbol[..], i)
      modifies firstCode, maxCode, firstSymbol
      ensures fits ==> EndCode(l, i) <= Pow2(i) && LevelsUpTo(l, firstCode[..], maxCode[..], firstSymbol[..], i + 1)
      ensures !fits ==> !Decodable(l)
    {
      hide LevelsUpTo, FirstCode, EndCode, SymbolsBelow, Pow2, Shl, Count, Lengths, Decodable;
      ghost var first, max, symbol := firstCode[..], maxCode[..], firstSymbol[..];
      Truncates(code, i);
      LevelsNext(l, first, max, symbol, i, Shl(EndCode(l, i), 16 - i));
      SymbolsFit(l, i);
      Doubles(l, i);
      firstCode[i] := code % 0x10000;
      firstSymbol[i] := k % 0x10000;
      if n != 0 && code + n - 1 >= Shl(1, i) {
        CannotDecode(l, i);
        return false;
      }
      maxCode[i] := Shl(code + n, 16 - i);
      assert firstCode[..] == first[i := FirstCode(l, i)] && maxCode[..] == max[i := Shl(EndCode(l, i), 16 - i)];
      assert firstSymbol[..] == symbol[i := SymbolsBelow(l, i)];
      fits := true;
    }

    /** Builds the tables, or fails: exactly when the code lengths have a Kraft sum of more than 1. */
    method Build(l: seq<nat>) returns (ok: bool)
      requires Allocated() && Lengths(l)
      modifies fast, firstCode, maxCode, firstSymbol, size, value
      ensures ok <==> Kraft(l) <= Pow2(MAX_LENGTH)
      ensures ok ==> Built(l)
    {
      hide Kraft, LevelsUpTo, PlacedUpTo, FastUpTo, Pow2, Count, FirstCode, SizesFit, Lengths, Decodable;
      KraftDecides(l);
      forall j | 0 <= j < FAST_SIZE {
        fast[j] := 0;
      }
      var sizes := CountSizes(l);
      ok := CheckSizes(l, sizes);
      if !ok {
        SizesOverflow(l);
        return;
      }
      var nextCode;
      ok, nextCode := MakeLevels(l, sizes);
      if ok {
        PlaceSymbols(l, nextCode);
      }
    }

    /** Writes one short code's entry at every window that ends in its reversed code. */
    method FillFast(rev: nat, s: nat, entry: nat)
      requires fast.Length == FAST_SIZE && rev < Pow2(s)
      modifies fast
      ensures FastFilled(old(fast[..]), fast[..], s, rev, entry)
    {
      ghost var was := fast[..];
      ghost var p := Pow2(s);
      ShlIs(1, s);
      hide Pow2, Shl;
      StepStart(rev, p);
      var j := rev;
      while j < FAST_SIZE
        invariant j % p == rev
        invariant forall w: nat | w < FAST_SIZE :: fast[w] == if w < j && w % p == rev then entry else was[w]
        decreases FAST_SIZE - j
      {
        fast[j] := entry;
        StepNext(j, p, rev);
        j := j + Shl(1, s);
      }
    }

    /** One symbol: its place by code and, for a short code, its windows. */
    method PlaceSymbol(l: seq<nat>, i: nat, code: nat)
      requires Allocated() && Decodable(l) && i < |l| && l[i] > 0 && code == Code(l, i)
      requires LevelsUpTo(l, firstCode[..], maxCode[..], firstSymbol[..], 16)
      requires PlacedUpTo(l, size[..], value[..], i) && FastUpTo(l, fast[..], i)
      modifies fast, size, value
      ensures PlacedUpTo(l, size[..], value[..], i + 1) && FastUpTo(l, fast[..], i + 1)
    {
      var s: nat := l[i];
      PlaceFacts(l, i, firstCode[..], maxCode[..], firstSymbol[..]);
      PlacedNext(l, size[..], value[..], i);
      hide *;
      ghost var size0: seq<nat>, value0: seq<nat>, fast0: seq<nat> := size[..], value[..], fast[..];
      var c: nat := code - firstCode[s] + firstSymbol[s];
      var fastv := Or(Shl(s, FAST_BITS), i);
      size[c] := s;
      value[c] := i;
      assert size[..] == size0[c := s] && value[..] == value0[c := i];
      if s <= FAST_BITS {
        FillFast(BitReverse(code, s), s, fastv);
        FastNext(l, fast0, fast[..], i);
      } else {
        FastSkip(l, fast0, i);
      }
    }

    /** Puts every symbol in its place by code, and those with short codes in the fast table. */
    method PlaceSymbols(l: seq<nat>, codes: seq<nat>)
      requires Allocated() && Decodable(l) && LevelsUpTo(l, firstCode[..], maxCode[..], firstSymbol[..], 16)
      requires |codes| == 16 && forall s :: 1 <= s < 16 ==> codes[s] == FirstCode(l, s)
      requires forall w :: 0 <= w < FAST_SIZE ==> fast[w] == 0
      modifies fast, size, value
      ensures PlacedUpTo(l, size[..], value[..], |l|) && FastUpTo(l, fast[..], |l|)
    {
      var nextCode := codes;
      FastEmpty(l, fast[..]);
      assert l[..0] == [] && l[..|l|] == l && Lengths(l);
      hide PlacedUpTo, FastUpTo, Decodable, LevelsUpTo, FirstCode;
      PlacedEmpty(l, size[..], value[..]);
      for i := 0 to |l|
        invariant PlacedUpTo(l, size[..], value[..], i) && FastUpTo(l, fast[..], i)
        invariant |nextCode| == 16 && forall s :: 1 <= s < 16 ==> nextCode[s] == FirstCode(l, s) + Count(l[..i], s)
      {
        var s: nat := l[i];
        if s != 0 {
          PlaceSymbol(l, i, nextCode[s]);
          nextCode := nextCode[s := nextCode[s] + 1];
        } else {
          PlacedSkip(l, size[..], value[..], i);
          FastSkip(l, fast[..], i);
        }
        forall t | 1 <= t < 16 ensures Count(l[..i + 1], t) == Count(l[..i], t) + if s == t then 1 else 0 {
          CountNext(l, t, i);
        }
      }
    }
  }

  lemma PlacedEmpty(l: seq<nat>, size: seq<nat>, value: seq<nat>)
    requires Lengths(l) && |size| == MAX_SYMBOLS && |value| == MAX_SYMBOLS
    ensures PlacedUpTo(l, size, value, 0)
  {
  }

  /** What the table entries and the computed values of one symbol come to. */
  lemma PlaceFacts(l: seq<nat>, i: nat, firstCode: seq<nat>, maxCode: seq<nat>, firstSymbol: seq<nat>)
    requires Decodable(l) && i < |l| && l[i] > 0 && LevelsUpTo(l, firstCode, maxCode, firstSymbol, 16)
    ensures l[i] < 16 && firstCode[l[i]] <= Code(l, i) && Code(l, i) - firstCode[l[i]] + firstSymbol[l[i]] == Index(l, i)
    ensures Or(Shl(l[i], FAST_BITS), i) == l[i] * FAST_SIZE + i
    ensures l[i] <= FAST_BITS ==> BitReverse(Code(l, i), l[i]) == Reversed(Code(l, i), l[i]) < Pow2(l[i])
  {
    assert FAST_SIZE == Pow2(9) && i < FAST_SIZE && l[i] <= 15;
    assert firstCode[l[i]] == FirstCode(l, l[i]) && firstSymbol[l[i]] == SymbolsBelow(l, l[i]);
    hide Pow2, Or, Shl, Decodable, LevelsUpTo, Reversed, BitReverse, FirstCode, SymbolsBelow;
    OrShifted(l[i], i, FAST_BITS);
    ShlIs(l[i], FAST_BITS);
    if l[i] <= FAST_BITS {
      BitReverseIs(Code(l, i), l[i]);
      ReversedBelow(Code(l, i), l[i]);
    }
  }

  lemma StepStart(rev: nat, p: nat)
    requires rev < p
    ensures rev % p == rev && forall w: nat | w < rev :: w % p != rev
  {
    forall w: nat | w <= rev ensures w % p == w {
      Remainder(w, 0, w, p);
    }
  }

  /** From one number with a remainder to the next. */
  lemma StepNext(j: nat, p: nat, rev: nat)
    requires p > 0 && j % p == rev
    ensures (j + p) % p == rev && forall w: nat | j < w < j + p :: w % p != rev
  {
    ModLess(j + p, p);
    forall w: nat | j < w < j + p ensures w % p != rev {
      Between(j, w, p);
    }
  }

  lemma Between(j: nat, w: nat, p: nat)
    requires j < w < j + p
    ensures w % p != j % p
  {
    var q, r := j / p, j % p;
    if r + (w - j) < p {
      Remainder(w, q, r + (w - j), p);
    } else {
      assert (q + 1) * p == q * p + p;
      Remainder(w, q + 1, r + (w - j) - p, p);
    }
  }

  lemma SymbolsFit(l: seq<nat>, i: nat)
    requires Lengths(l)
    ensures SymbolsBelow(l, i) <= MAX_SYMBOLS && SymbolsBelow(l, i) % 0x10000 == SymbolsBelow(l, i)
  {
    SymbolsBound(l, i);
  }

  lemma LevelsStart(l: seq<nat>, firstCode: seq<nat>, maxCode: seq<nat>, firstSymbol: seq<nat>)
    requires |firstCode| == 16 && |maxCode| == 17 && |firstSymbol| == 16
    ensures LevelsUpTo(l, firstCode, maxCode, firstSymbol, 1) && FirstCode(l, 1) == 0 == SymbolsBelow(l, 1) && Pow2(1) == 2
  {
  }

  /** A code of at most i bits, plus one, fits the 16 bits of its table entry. */
  lemma Truncates(code: nat, i: nat)
    requires code <= Pow2(i) && i < 16
    ensures code % 0x10000 == code
  {
    Pow2Up(i, 15);
    assert Pow2(15) == 0x8000;
  }

  lemma {:induction false} Pow2Up(i: nat, j: nat)
    requires i <= j
    ensures Pow2(i) <= Pow2(j)
    decreases j
  {
    if i < j {
      Pow2Up(i, j - 1);
    }
  }

  lemma Doubles(l: seq<nat>, i: nat)
    requires i >= 1
    ensures Shl(1, i) == Pow2(i) && Pow2(i + 1) == 2 * Pow2(i)
    ensures EndCode(l, i) == FirstCode(l, i) + Count(l, i) && FirstCode(l, i + 1) == 2 * EndCode(l, i)
    ensures SymbolsBelow(l, i + 1) == SymbolsBelow(l, i) + Count(l, i)
  {
    ShlIs(1, i);
  }

  lemma KraftDecides(l: seq<nat>)
    requires Lengths(l)
    ensures Decodable(l) <==> Kraft(l) <= Pow2(MAX_LENGTH)
  {
  }

  /** More symbols of one length than there are codes make the Kraft sum exceed 1. */
  lemma SizesOverflow(l: seq<nat>)
    requires Lengths(l) && !SizesFit(l, 16)
    ensures !Decodable(l)
  {
    var s: nat :| 1 <= s < 16 && Count(l, s) > Shl(1, s);
    ShlIs(1, s);
    CannotDecode(l, s);
  }

  lemma CannotDecode(l: seq<nat>, s: nat)
    requires 1 <= s <= MAX_LENGTH && EndCode(l, s) > Pow2(s)
    ensures !Decodable(l)
  {
    if Decodable(l) {
      CodesFit(l, s);
    }
  }

  lemma LevelsSentinel(l: seq<nat>, firstCode: seq<nat>, maxCode: seq<nat>, firstSymbol: seq<nat>)
    requires LevelsUpTo(l, firstCode, maxCode, firstSymbol, 16)
    ensures LevelsUpTo(l, firstCode, maxCode[16 := 0x10000], firstSymbol, 16)
  {
    hide FirstCode, EndCode, SymbolsBelow, Pow2;
  }

  ghost predicate SizesFit(l: seq<nat>, end: nat) {
    forall s: nat :: 1 <= s < end ==> Count(l, s) <= Shl(1, s)
  }
}
