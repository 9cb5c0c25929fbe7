/** Canonical Huffman codes (RFC 1951, section 3.2.2): a code is given by the list of its symbols' code lengths. */
module HuffmanCodes {
  import opened BitOps

  const MAX_LENGTH: nat := 15
  const MAX_SYMBOLS: nat := 288

  ghost predicate Lengths(l: seq<nat>) {
    |l| <= MAX_SYMBOLS && forall i :: 0 <= i < |l| ==> l[i] <= MAX_LENGTH
  }

  /** How many symbols have codes of length s. */
  ghost function Count(l: seq<nat>, s: nat): nat {
    if l == [] then 0 else Count(l[..|l| - 1], s) + (if l[|l| - 1] == s then 1 else 0)
  }

  /** The smallest code of length s: it follows all shorter codes. */
  ghost function FirstCode(l: seq<nat>, s: nat): nat {
    if s <= 1 then 0 else 2 * (FirstCode(l, s - 1) + Count(l, s - 1))
  }

  ghost function EndCode(l: seq<nat>, s: nat): nat {
    FirstCode(l, s) + Count(l, s)
  }

  /** The code of symbol i: codes of one length are consecutive, in the order of their symbols. */
  ghost function Code(l: seq<nat>, i: nat): nat
    requires i < |l|
  {
    FirstCode(l, l[i]) + Count(l[..i], l[i])
  }

  /** The Kraft sum of the code, in units of 2^-15. */
  ghost function Kraft(l: seq<nat>): nat {
    if l == [] then 0
    else Kraft(l[..|l| - 1]) + (if 0 < l[|l| - 1] <= MAX_LENGTH then Pow2(MAX_LENGTH - l[|l| - 1]) else 0)
  }

  ghost predicate Decodable(l: seq<nat>) {
    Lengths(l) && Kraft(l) <= Pow2(MAX_LENGTH)
  }

  /** The code of symbol i, most significant bit first, is what the bit stream w starts with. */
  ghost predicate Matches(l: seq<nat>, w: nat, i: nat) {
    i < |l| && l[i] > 0 && Reversed(w, l[i]) == Code(l, i)
  }

  /** The stream's first s bits, its lowest, are those of c, most significant one first. */
  ghost predicate SameBits(w: nat, c: nat, s: nat) {
    forall k: nat :: k < s ==> Bit(w, k) == Bit(c, s - 1 - k)
  }

  lemma ReversedBits(w: nat, c: nat, s: nat)
    requires c < Pow2(s)
    ensures Reversed(w, s) == c <==> SameBits(w, c, s)
  {
    hide Bit, Pow2, Reversed;
    if Reversed(w, s) == c {
      forall k: nat | k < s ensures Bit(w, k) == Bit(c, s - 1 - k) {
        ReversedBit(w, s, s - 1 - k);
      }
    } else if SameBits(w, c, s) {
      forall k: nat | k < s ensures Bit(Reversed(w, s), k) == Bit(c, k) {
        ReversedBit(w, s, k);
        assert Bit(w, s - 1 - k) == Bit(c, s - 1 - (s - 1 - k));
      }
      ReversedBelow(w, s);
      BitsEqual(Reversed(w, s), c, s);
    }
  }

  /** A match, bit for bit. */
  lemma MatchesBits(l: seq<nat>, w: nat, i: nat)
    requires Decodable(l) && i < |l| && l[i] > 0
    ensures Matches(l, w, i) <==> SameBits(w, Code(l, i), l[i])
  {
    CodeRange(l, i);
    CodesFit(l, l[i]);
    ReversedBits(w, Code(l, i), l[i]);
  }

  // ----- the Kraft sum, level by level -----

  ghost function KraftTo(l: seq<nat>, s: nat): nat
    requires s <= MAX_LENGTH
  {
    if s == 0 then 0 else KraftTo(l, s - 1) + Count(l, s) * Pow2(MAX_LENGTH - s)
  }

  lemma {:induction false} KraftAppend(l: seq<nat>, x: nat, s: nat)
    requires s <= MAX_LENGTH
    ensures KraftTo(l + [x], s) == KraftTo(l, s) + if 0 < x <= s then Pow2(MAX_LENGTH - x) else 0
  {
    if s > 0 {
      KraftAppend(l, x, s - 1);
      assert (l + [x])[..|l|] == l && Count(l + [x], s) == Count(l, s) + if x == s then 1 else 0;
      var p := Pow2(MAX_LENGTH - s);
      assert (Count(l, s) + 1) * p == Count(l, s) * p + p;
    }
  }

  lemma {:induction false} KraftNone(s: nat)
    requires s <= MAX_LENGTH
    ensures KraftTo([], s) == 0
  {
    if s > 0 {
      KraftNone(s - 1);
    }
  }

  /** Summing over the lengths or over the symbols gives the same. */
  lemma {:induction false} KraftLevels(l: seq<nat>)
    ensures KraftTo(l, MAX_LENGTH) == Kraft(l)
  {
    if l == [] {
      KraftNone(MAX_LENGTH);
    } else {
      KraftLevels(l[..|l| - 1]);
      KraftAppend(l[..|l| - 1], l[|l| - 1], MAX_LENGTH);
      assert l[..|l| - 1] + [l[|l| - 1]] == l;
    }
  }

  lemma {:induction false} KraftMonotonic(l: seq<nat>, s: nat, t: nat)
    requires s <= t <= MAX_LENGTH
    ensures KraftTo(l, s) <= KraftTo(l, t)
    decreases t
  {
    if s < t {
      KraftMonotonic(l, s, t - 1);
      assert Count(l, t) * Pow2(MAX_LENGTH - t) >= 0;
    }
  }

  /** The codes used up to length s take their Kraft sum's share of all codes of that length. */
  lemma {:induction false} EndKraft(l: seq<nat>, s: nat)
    requires 1 <= s <= MAX_LENGTH
    ensures EndCode(l, s) * Pow2(MAX_LENGTH - s) == KraftTo(l, s)
  {
    var p := Pow2(MAX_LENGTH - s);
    if s == 1 {
      assert KraftTo(l, 0) == 0;
    } else {
      var e, n := EndCode(l, s - 1), Count(l, s);
      assert Pow2(MAX_LENGTH - (s - 1)) == 2 * p && EndCode(l, s) == 2 * e + n && KraftTo(l, s) == KraftTo(l, s - 1) + n * p;
      hide *;
      EndKraft(l, s - 1);
      Twice(e, p);
      Spread(2 * e, n, p);
    }
  }

  lemma Spread(a: nat, b: nat, p: nat)
    ensures (a + b) * p == a * p + b * p
  {
  }

  lemma Below(e: nat, p: nat, q: nat)
    requires e * p <= q * p && p > 0
    ensures e <= q
  {
    assert e >= q + 1 ==> e * p >= (q + 1) * p == q * p + p;
  }

  /** In a decodable code the codes of each length fit in that many bits. */
  lemma CodesFit(l: seq<nat>, s: nat)
    requires Decodable(l) && 1 <= s <= MAX_LENGTH
    ensures EndCode(l, s) <= Pow2(s)
  {
    EndKraft(l, s);
    KraftMonotonic(l, s, MAX_LENGTH);
    KraftLevels(l);
    Pow2Add(s, MAX_LENGTH - s);
    hide *;
    Below(EndCode(l, s), Pow2(MAX_LENGTH - s), Pow2(s));
  }

  /** If the codes of the greatest length fit, the Kraft sum is at most 1. */
  lemma FitDecodable(l: seq<nat>)
    requires Lengths(l)
    ensures Decodable(l) <==> EndCode(l, MAX_LENGTH) <= Pow2(MAX_LENGTH)
  {
    EndKraft(l, MAX_LENGTH);
    KraftLevels(l);
    assert Pow2(0) == 1;
  }

  // ----- counting symbols of one length -----

  lemma {:induction false} CountPrefix(l: seq<nat>, s: nat, i: nat)
    requires i <= |l|
    ensures Count(l[..i], s) <= Count(l, s) && (i < |l| && l[i] == s ==> Count(l[..i], s) < Count(l, s))
    decreases |l|
  {
    if i < |l| {
      var front := l[..|l| - 1];
      assert l[..i] == front[..i];
      CountPrefix(front, s, i);
    } else {
      assert l[..i] == l;
    }
  }

  lemma CountNext(l: seq<nat>, s: nat, i: nat)
    requires i < |l|
    ensures Count(l[..i + 1], s) == Count(l[..i], s) + if l[i] == s then 1 else 0
  {
    assert l[..i + 1][..i] == l[..i];
  }

  /** Symbols of one length are told apart by how many of that length come before them. */
  lemma CountInjective(l: seq<nat>, s: nat, i: nat, j: nat)
    requires i < |l| && j < |l| && l[i] == s && l[j] == s && Count(l[..i], s) == Count(l[..j], s)
    ensures i == j
  {
    if i < j {
      assert l[..j][..i] == l[..i];
      CountPrefix(l[..j], s, i);
    } else if j < i {
      assert l[..i][..j] == l[..j];
      CountPrefix(l[..i], s, j);
    }
  }

  /** The symbol of length s with r such symbols before it. */
  lemma {:induction false} SymbolAt(l: seq<nat>, s: nat, r: nat) returns (i: nat)
    requires r < Count(l, s)
    ensures i < |l| && l[i] == s && Count(l[..i], s) == r
    decreases |l|
  {
    var last := |l| - 1;
    if l[last] == s && Count(l[..last], s) == r {
      i := last;
    } else {
      i := SymbolAt(l[..last], s, r);
      assert l[..last][..i] == l[..i];
    }
  }

  /** The code of a symbol lies among those of its length. */
  lemma CodeRange(l: seq<nat>, i: nat)
    requires i < |l|
    ensures FirstCode(l, l[i]) <= Code(l, i) < EndCode(l, l[i])
  {
    CountPrefix(l, l[i], i);
  }

  // ----- which code a bit stream starts with -----

  /** A stream that starts with a code of length s, or one below, comes before all longer codes. */
  lemma Later(l: seq<nat>, w: nat, s: nat)
    requires s >= 1
    ensures Reversed(w, s) < EndCode(l, s) ==> Reversed(w, s + 1) < FirstCode(l, s + 1)
  {
    ReversedNext(w, s);
  }

  /** A stream that is not before the codes of length s is after all shorter ones. */
  lemma {:induction false} Earlier(l: seq<nat>, w: nat, s: nat, t: nat)
    requires 1 <= t < s && Reversed(w, s) >= FirstCode(l, s)
    ensures Reversed(w, t) >= EndCode(l, t)
    decreases s
  {
    Later(l, w, s - 1);
    if t < s - 1 {
      Earlier(l, w, s - 1, t);
    }
  }

  /** At most one code matches. */
  lemma MatchUnique(l: seq<nat>, w: nat, i: nat, j: nat)
    requires Matches(l, w, i) && Matches(l, w, j)
    ensures i == j
  {
    CodeRange(l, i);
    CodeRange(l, j);
    hide Reversed, FirstCode;
    if l[i] < l[j] {
      Earlier(l, w, l[j], l[i]);
    } else if l[j] < l[i] {
      Earlier(l, w, l[i], l[j]);
    } else {
      CountInjective(l, l[i], i, j);
    }
  }

  /** A stream between the first and the last code of a length matches a symbol of that length. */
  lemma MatchAt(l: seq<nat>, w: nat, s: nat) returns (i: nat)
    requires s >= 1 && FirstCode(l, s) <= Reversed(w, s) < EndCode(l, s)
    ensures Matches(l, w, i) && l[i] == s
  {
    i := SymbolAt(l, s, Reversed(w, s) - FirstCode(l, s));
  }

  /** The shortest length before whose end the stream comes is that of its symbol. */
  lemma {:induction false} Least(l: seq<nat>, w: nat, s: nat) returns (i: nat)
    requires s >= 1 && Reversed(w, s) < EndCode(l, s)
    ensures Matches(l, w, i) && l[i] <= s
  {
    if FirstCode(l, s) <= Reversed(w, s) {
      i := MatchAt(l, w, s);
    } else {
      Behind(l, w, s - 1);
      i := Least(l, w, s - 1);
    }
  }

  lemma Behind(l: seq<nat>, w: nat, s: nat)
    requires Reversed(w, s + 1) < FirstCode(l, s + 1)
    ensures s >= 1 && Reversed(w, s) < EndCode(l, s)
  {
    ReversedNext(w, s);
  }

  /** No code is a prefix of another. */
  lemma PrefixFree(l: seq<nat>, i: nat, j: nat)
    requires Decodable(l) && i < |l| && j < |l| && 0 < l[i] <= l[j] && i != j
    ensures Code(l, j) / Pow2(l[j] - l[i]) != Code(l, i)
  {
    var w := Reversed(Code(l, j), l[j]);
    CodeRange(l, j);
    CodesFit(l, l[j]);
    ReversedTwice(Code(l, j), l[j]);
    ReversedTop(w, l[i], l[j] - l[i]);
    hide Reversed, Code, Pow2;
    if Code(l, j) / Pow2(l[j] - l[i]) == Code(l, i) {
      MatchUnique(l, w, i, j);
    }
  }

  // ----- what is canonical about it -----

  /** The shares of all codes that the first k symbols take, of those before symbol i: with shorter codes, or of its length with a
      smaller number. */
  ghost function SharesBefore(l: seq<nat>, i: nat, k: nat): nat
    requires Lengths(l) && i < |l| && k <= |l|
  {
    if k == 0 then 0
    else SharesBefore(l, i, k - 1)
         + if 0 < l[k - 1] < l[i] || (l[k - 1] == l[i] && k - 1 < i) then Pow2(MAX_LENGTH - l[k - 1]) else 0
  }

  /** As a binary fraction the code of a symbol is the sum of 2^-length over all symbols before it: codes are lined up without
      gaps, the shorter ones first, those of one length in the order of their symbols. */
  lemma CodeIsSum(l: seq<nat>, i: nat)
    requires Lengths(l) && i < |l| && l[i] > 0
    ensures Code(l, i) * Pow2(MAX_LENGTH - l[i]) == SharesBefore(l, i, |l|)
  {
    hide *;
    var s := l[i];
    CodeParts(l, i);
    SharesSplit(l, i, |l|);
    WholeList(l);
    FirstShare(l, s);
    Spread(FirstCode(l, s), Count(l[..i], s), Pow2(MAX_LENGTH - s));
  }

  lemma CodeParts(l: seq<nat>, i: nat)
    requires Lengths(l) && i < |l|
    ensures l[i] <= MAX_LENGTH && Code(l, i) == FirstCode(l, l[i]) + Count(l[..i], l[i])
  {
    hide FirstCode, Count;
  }

  lemma WholeList(l: seq<nat>)
    ensures l[..|l|] == l
  {
  }

  lemma FirstShare(l: seq<nat>, s: nat)
    requires 1 <= s <= MAX_LENGTH
    ensures FirstCode(l, s) * Pow2(MAX_LENGTH - s) == KraftTo(l, s - 1)
  {
    var p := Pow2(MAX_LENGTH - s);
    if s > 1 {
      assert FirstCode(l, s) == 2 * EndCode(l, s - 1) && Pow2(MAX_LENGTH - (s - 1)) == 2 * p;
      hide *;
      EndKraft(l, s - 1);
      Twice(EndCode(l, s - 1), p);
    } else {
      assert FirstCode(l, 1) == 0 && KraftTo(l, 0) == 0;
    }
  }

  lemma {:induction false} SharesSplit(l: seq<nat>, i: nat, k: nat)
    requires Lengths(l) && i < |l| && k <= |l| && l[i] > 0
    ensures SharesBefore(l, i, k)
            == KraftTo(l[..k], l[i] - 1) + Count(l[..if k < i then k else i], l[i]) * Pow2(MAX_LENGTH - l[i])
  {
    hide KraftTo, Pow2, Count;
    var s := l[i];
    if k == 0 {
      KraftNone(s - 1);
      NoneCounted(s);
    } else {
      SharesSplit(l, i, k - 1);
      assert l[..k] == l[..k - 1] + [l[k - 1]];
      KraftAppend(l[..k - 1], l[k - 1], s - 1);
      if k <= i {
        CountNext(l, s, k - 1);
        Spread(Count(l[..k - 1], s), if l[k - 1] == s then 1 else 0, Pow2(MAX_LENGTH - s));
      }
    }
  }

  lemma NoneCounted(s: nat)
    ensures Count([], s) == 0
  {
  }

  // ----- where the decoder keeps the symbols -----

  /** How many symbols have codes shorter than s. */
  ghost function SymbolsBelow(l: seq<nat>, s: nat): nat {
    if s <= 1 then 0 else SymbolsBelow(l, s - 1) + Count(l, s - 1)
  }

  lemma {:induction false} SymbolsOf(l: seq<nat>, x: nat, s: nat)
    ensures SymbolsBelow(l + [x], s) <= SymbolsBelow(l, s) + if 1 <= x < s then 1 else 0
  {
    if s > 1 {
      SymbolsOf(l, x, s - 1);
      assert (l + [x])[..|l|] == l;
    }
  }

  lemma {:induction false} NoSymbols(s: nat)
    ensures SymbolsBelow([], s) == 0
  {
    if s > 1 {
      NoSymbols(s - 1);
    }
  }

  lemma {:induction false} SymbolsBound(l: seq<nat>, s: nat)
    ensures SymbolsBelow(l, s) <= |l|
    decreases |l|
  {
    if l == [] {
      NoSymbols(s);
    } else {
      SymbolsBound(l[..|l| - 1], s);
      SymbolsOf(l[..|l| - 1], l[|l| - 1], s);
      assert l[..|l| - 1] + [l[|l| - 1]] == l;
    }
  }

  /** The place of a symbol: ordered by code length, then by symbol. */
  ghost function Index(l: seq<nat>, i: nat): nat
    requires i < |l|
  {
    SymbolsBelow(l, l[i]) + Count(l[..i], l[i])
  }

  lemma {:induction false} SymbolsMonotonic(l: seq<nat>, s: nat, t: nat)
    requires 1 <= s < t
    ensures SymbolsBelow(l, s) + Count(l, s) <= SymbolsBelow(l, t)
    decreases t
  {
    if s < t - 1 {
      SymbolsMonotonic(l, s, t - 1);
    }
  }

  lemma IndexBound(l: seq<nat>, i: nat)
    requires Lengths(l) && i < |l| && l[i] > 0
    ensures Index(l, i) < |l|
  {
    CountPrefix(l, l[i], i);
    SymbolsMonotonic(l, l[i], MAX_LENGTH + 1);
    SymbolsBound(l, MAX_LENGTH + 1);
  }

  lemma IndexInjective(l: seq<nat>, i: nat, j: nat)
    requires i < |l| && j < |l| && l[i] > 0 && l[j] > 0 && Index(l, i) == Index(l, j)
    ensures i == j
  {
    CountPrefix(l, l[i], i);
    CountPrefix(l, l[j], j);
    if l[i] < l[j] {
      SymbolsMonotonic(l, l[i], l[j]);
    } else if l[j] < l[i] {
      SymbolsMonotonic(l, l[j], l[i]);
    } else {
      CountInjective(l, l[i], i, j);
    }
  }

  /** A match depends on as many bits of the stream as the code has. */
  lemma MatchesLow(l: seq<nat>, w: nat, v: nat, i: nat, k: nat)
    requires i < |l| && l[i] <= k && w % Pow2(k) == v % Pow2(k)
    ensures Matches(l, w, i) <==> Matches(l, v, i)
  {
    LowLess(w, v, l[i], k - l[i]);
    ReversedLow(w, v, l[i]);
  }

  lemma LowLess(w: nat, v: nat, s: nat, more: nat)
    requires w % Pow2(s + more) == v % Pow2(s + more)
    ensures w % Pow2(s) == v % Pow2(s)
  {
    LowOf(w, s, more);
    LowOf(v, s, more);
  }

  lemma LowOf(w: nat, s: nat, more: nat)
    ensures (w % Pow2(s + more)) % Pow2(s) == w % Pow2(s)
  {
    Pow2Add(s, more);
    LowOfProduct(w, Pow2(s + more), Pow2(s), Pow2(more));
  }

  lemma LowOfProduct(w: nat, n: nat, p: nat, m: nat)
    requires n == p * m && n > 0 && p > 0
    ensures (w % n) % p == w % p
  {
    var q, r := w / n, w % n;
    assert w == q * n + r;
    Regroup(q, p, m);
    LowAdd(r, p, q * m);
  }

  lemma Regroup(q: nat, p: nat, m: nat)
    ensures q * (p * m) == p * (q * m)
  {
  }

  lemma LowAdd(r: nat, p: nat, k: nat)
    requires p > 0
    ensures (r + p * k) % p == r % p && (r + p * k) / p == r / p + k
  {
    var a, b := r / p, r % p;
    assert r == a * p + b && p * k == k * p;
    assert (a + k) * p == a * p + k * p;
    Remainder(r + p * k, a + k, b, p);
  }
}
