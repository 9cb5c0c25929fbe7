/** Bit operations on natural numbers, and the bit reversal that the Huffman decoder does with masks and shifts. */
module BitOps {
  function Bit(n: nat, i: nat): (b: nat)
    ensures b <= 1
  {
    if i == 0 then n % 2 else Bit(n / 2, i - 1)
  }

  function And(a: nat, b: nat): nat {
    if a == 0 || b == 0 then 0 else (a % 2) * (b % 2) + 2 * And(a / 2, b / 2)
  }

  function Or(a: nat, b: nat): nat {
    if a == 0 then b else if b == 0 then a else (if a % 2 + b % 2 > 0 then 1 else 0) + 2 * Or(a / 2, b / 2)
  }

  function Shr(n: nat, k: nat): nat {
    if k == 0 then n else Shr(n / 2, k - 1)
  }

  function Shl(n: nat, k: nat): nat {
    if k == 0 then n else 2 * Shl(n, k - 1)
  }

  function Pow2(k: nat): (p: nat)
    ensures p > 0
  {
    if k == 0 then 1 else 2 * Pow2(k - 1)
  }

  lemma {:induction false} BitZero(i: nat)
    ensures Bit(0, i) == 0
  {
    if i > 0 {
      BitZero(i - 1);
    }
  }

  lemma {:induction false} BitAnd(a: nat, b: nat, i: nat)
    ensures Bit(And(a, b), i) == if Bit(b, i) == 1 then Bit(a, i) else 0
    decreases i
  {
    BitZero(i);
    if a > 0 && b > 0 {
      assert And(a, b) / 2 == And(a / 2, b / 2);
      if i > 0 {
        BitAnd(a / 2, b / 2, i - 1);
      }
    }
  }

  lemma {:induction false} BitOr(a: nat, b: nat, i: nat)
    ensures Bit(Or(a, b), i) == if Bit(a, i) + Bit(b, i) > 0 then 1 else 0
    decreases i
  {
    BitZero(i);
    if a > 0 && b > 0 {
      assert Or(a, b) / 2 == Or(a / 2, b / 2);
      if i > 0 {
        BitOr(a / 2, b / 2, i - 1);
      }
    }
  }

  lemma {:induction false} BitShr(n: nat, k: nat, i: nat)
    ensures Bit(Shr(n, k), i) == Bit(n, i + k)
    decreases k
  {
    if k > 0 {
      BitShr(n / 2, k - 1, i);
    }
  }

  lemma {:induction false} BitShl(n: nat, k: nat, i: nat)
    ensures Bit(Shl(n, k), i) == if i < k then 0 else Bit(n, i - k)
    decreases k
  {
    if k > 0 {
      assert Shl(n, k) / 2 == Shl(n, k - 1);
      if i > 0 {
        BitShl(n, k - 1, i - 1);
      }
    }
  }

  /** Numbers of at most k bits are equal if their bits are. */
  lemma {:induction false} BitsEqual(a: nat, b: nat, k: nat)
    requires a < Pow2(k) && b < Pow2(k) && forall i :: 0 <= i < k ==> Bit(a, i) == Bit(b, i)
    ensures a == b
    decreases k
  {
    if k > 0 {
      forall i | 0 <= i < k - 1 ensures Bit(a / 2, i) == Bit(b / 2, i) {
        assert Bit(a, i + 1) == Bit(b, i + 1);
      }
      BitsEqual(a / 2, b / 2, k - 1);
      assert Bit(a, 0) == Bit(b, 0);
    }
  }

  /** Bits from k on are zero exactly for numbers below 2^k. */
  lemma {:induction false} BitsBelow(n: nat, k: nat)
    requires forall i :: i >= k ==> Bit(n, i) == 0
    ensures n < Pow2(k)
    decreases k, n
  {
    if k > 0 {
      forall i | i >= k - 1 ensures Bit(n / 2, i) == 0 {
        assert Bit(n, i + 1) == 0;
      }
      BitsBelow(n / 2, k - 1);
    } else if n > 0 {
      assert Bit(n, 0) == 0;
      forall i | i >= 0 ensures Bit(n / 2, i) == 0 {
        assert Bit(n, i + 1) == 0;
      }
      BitsBelow(n / 2, 0);
    }
  }

  // ----- reversal -----

  /** The lowest k bits of n in reverse order. */
  function Reversed(n: nat, k: nat): nat {
    if k == 0 then 0 else (n % 2) * Pow2(k - 1) + Reversed(n / 2, k - 1)
  }

  lemma {:induction false} ReversedBelow(n: nat, k: nat)
    ensures Reversed(n, k) < Pow2(k)
  {
    if k > 0 {
      ReversedBelow(n / 2, k - 1);
      var p := Pow2(k - 1);
      assert n % 2 == 0 ==> (n % 2) * p == 0;
      assert n % 2 == 1 ==> (n % 2) * p == p;
    }
  }

  /** One stage of the reversal: the halves of the bits that two masks select change places. */
  function Swap(n: nat, upper: nat, lower: nat, distance: nat): nat {
    Or(Shr(And(n, upper), distance), Shl(And(n, lower), distance))
  }

  function BitReverse16(n: nat): nat {
    var n1 := Swap(n, 0xAAAA, 0x5555, 1);
    var n2 := Swap(n1, 0xCCCC, 0x3333, 2);
    var n3 := Swap(n2, 0xF0F0, 0x0F0F, 4);
    Swap(n3, 0xFF00, 0x00FF, 8)
  }

  function BitReverse(v: nat, bits: nat): nat
    requires bits <= 16
  {
    Shr(BitReverse16(v), 16 - bits)
  }

  /** A number put together from its low w bits and the rest. */
  lemma {:induction false} BitSplit(u: nat, x: nat, w: nat, i: nat)
    requires u < Pow2(w)
    ensures Bit(u + Pow2(w) * x, i) == if i < w then Bit(u, i) else Bit(x, i - w)
    decreases w
  {
    if w > 0 {
      Pow2Next(w - 1);
      SplitHalf(u, Pow2(w - 1), x);
      hide Pow2;
      if i > 0 {
        BitSplit(u / 2, x, w - 1, i - 1);
      }
    }
  }

  lemma SplitHalf(u: nat, p: nat, x: nat)
    ensures var n := u + (2 * p) * x; n % 2 == u % 2 && n / 2 == u / 2 + p * x
    ensures p > 0 && u < 2 * p ==> u / 2 < p
  {
    var y := p * x;
    Twice(p, x);
    HalfOf(u / 2 + y, u % 2);
  }

  /** The same w bits j times over. */
  ghost function Stripes(unit: nat, w: nat, j: nat): nat {
    if j == 0 then 0 else unit + Pow2(w) * Stripes(unit, w, j - 1)
  }

  function LowerUnit(d: nat): nat {
    Pow2(d) - 1
  }

  function UpperUnit(d: nat): nat {
    Pow2(d) * LowerUnit(d)
  }

  lemma ModLess(i: nat, w: nat)
    requires 0 < w <= i
    ensures (i - w) % w == i % w
  {
    var q, r := i / w, i % w;
    assert i - w == (q - 1) * w + r;
    Remainder(i - w, q - 1, r, w);
  }

  lemma Remainder(x: int, q: int, r: int, w: int)
    requires x == q * w + r && 0 <= r < w
    ensures x % w == r && x / w == q
  {
    var z := x / w - q;
    assert z * w == r - x % w;
    assert z >= 1 ==> z * w >= w;
    assert z <= -1 ==> z * w <= -w;
  }

  lemma {:induction false} StripeBits(unit: nat, w: nat, j: nat, i: nat)
    requires 0 < w && unit < Pow2(w) && i < w * j
    ensures Bit(Stripes(unit, w, j), i) == Bit(unit, i % w)
    decreases j
  {
    hide Bit, Pow2;
    StripeBefore(w, j, i);
    BitSplit(unit, Stripes(unit, w, j - 1), w, i);
    if i >= w {
      StripeBits(unit, w, j - 1, i - w);
      ModLess(i, w);
    }
  }

  lemma StripeBefore(w: nat, j: nat, i: nat)
    requires i < w * j
    ensures j > 0 && (i >= w ==> i - w < w * (j - 1)) && (i < w ==> i % w == i)
  {
    assert w * j == w * (j - 1) + w;
  }

  lemma {:induction false} OnesBits(d: nat, i: nat)
    ensures Bit(Pow2(d) - 1, i) == if i < d then 1 else 0
    decreases d
  {
    BitZero(i);
    if d > 0 && i > 0 {
      assert (Pow2(d) - 1) / 2 == Pow2(d - 1) - 1;
      OnesBits(d - 1, i - 1);
    }
  }

  lemma {:induction false} Pow2Add(a: nat, b: nat)
    ensures Pow2(a + b) == Pow2(a) * Pow2(b)
    decreases a
  {
    if a > 0 {
      Pow2Add(a - 1, b);
      assert a - 1 + b == a + b - 1 && Pow2(a + b) == 2 * Pow2(a + b - 1) && Pow2(a) == 2 * Pow2(a - 1);
      hide Pow2;
      Twice(Pow2(a - 1), Pow2(b));
    }
  }

  lemma Twice(p: nat, q: nat)
    ensures 2 * (p * q) == (2 * p) * q == p * (2 * q)
  {
  }

  /** The two masks of a stage select the upper and the lower halves of all groups of 2d bits. */
  lemma MaskBits(d: nat, j: nat, i: nat)
    requires 0 < d && i < 2 * d * j
    ensures Bit(Stripes(LowerUnit(d), 2 * d, j), i) == if i % (2 * d) < d then 1 else 0
    ensures Bit(Stripes(UpperUnit(d), 2 * d, j), i) == if i % (2 * d) < d then 0 else 1
  {
    var ones, r, w := LowerUnit(d), i % (2 * d), 2 * d;
    Halves(d);
    assert UpperUnit(d) == Pow2(d) * ones && ones == Pow2(d) - 1;
    hide *;
    StripeBits(ones, w, j, i);
    StripeBits(UpperUnit(d), w, j, i);
    OnesBits(d, r);
    BitSplit(0, ones, d, r);
    BitZero(r);
    if r >= d {
      OnesBits(d, r - d);
    }
  }

  lemma Halves(d: nat)
    ensures LowerUnit(d) < Pow2(2 * d) && UpperUnit(d) < Pow2(2 * d)
  {
    hide Pow2;
    Pow2Add(d, d);
    Square(Pow2(d));
    assert d + d == 2 * d;
  }

  lemma Square(p: nat)
    requires p > 0
    ensures p - 1 < p * p && p * (p - 1) < p * p
  {
  }

  lemma Masks()
    ensures Stripes(LowerUnit(1), 2, 8) == 0x5555 && Stripes(UpperUnit(1), 2, 8) == 0xAAAA
    ensures Stripes(LowerUnit(2), 4, 4) == 0x3333 && Stripes(UpperUnit(2), 4, 4) == 0xCCCC
    ensures Stripes(LowerUnit(4), 8, 2) == 0x0F0F && Stripes(UpperUnit(4), 8, 2) == 0xF0F0
    ensures Stripes(LowerUnit(8), 16, 1) == 0x00FF && Stripes(UpperUnit(8), 16, 1) == 0xFF00
  {
    assert Pow2(1) == 2 && Pow2(2) == 4 && Pow2(4) == 16 && Pow2(8) == 256 && Pow2(16) == 65536;
  }

  /** Whether a bit lies in the lower half of its group of 2d bits. */
  predicate Lower(i: nat, d: nat) {
    if d == 1 then i % 2 < 1 else if d == 2 then i % 4 < 2 else if d == 4 then i % 8 < 4 else i % 16 < 8
  }

  /** The masks of a stage. */
  ghost predicate Selects(upper: nat, lower: nat, d: nat) {
    d in {1, 2, 4, 8}
    && (forall i :: 0 <= i < 16 ==> Bit(lower, i) == (if Lower(i, d) then 1 else 0))
    && (forall i :: 0 <= i < 16 ==> Bit(upper, i) == (if Lower(i, d) then 0 else 1))
    && (forall i :: i >= 16 ==> Bit(upper, i) == 0)
  }

  lemma Partner(i: nat, d: nat)
    requires i < 16 && d in {1, 2, 4, 8}
    ensures Lower(i, d) ==> !Lower(i + d, d) && i + d < 16 && (i >= d ==> !Lower(i - d, d))
    ensures !Lower(i, d) ==> Lower(i + d, d) && i >= d && Lower(i - d, d)
  {
    hide *;
    LowFits(i, d);
    LowerIs(i, d);
    LowerIs(i + d, d);
    OtherHalf(i, d);
    if i >= d {
      LowerIs(i - d, d);
      OtherHalf(i - d, d);
    }
  }

  lemma OtherHalf(i: nat, d: nat)
    requires d > 0
    ensures i % (2 * d) < d <==> (i + d) % (2 * d) >= d
  {
    var q, r := i / (2 * d), i % (2 * d);
    assert i == q * (2 * d) + r;
    if r < d {
      Remainder(i + d, q, r + d, 2 * d);
    } else {
      Remainder(i + d, q + 1, r - d, 2 * d);
    }
  }

  lemma LowFits(i: nat, d: nat)
    requires i < 16 && d in {1, 2, 4, 8}
    ensures if Lower(i, d) then i + d < 16 else i >= d
  {
  }

  lemma SelectFacts(upper: nat, lower: nat, d: nat, i: nat)
    requires Selects(upper, lower, d) && i < 16
    ensures Bit(upper, i + d) == if Lower(i, d) then 1 else 0
    ensures i >= d ==> Bit(lower, i - d) == if Lower(i, d) then 0 else 1
    ensures if Lower(i, d) then i + d < 16 else i >= d
  {
    Partner(i, d);
    hide Bit, Lower;
  }

  /** A stage takes each of the low 16 bits from its partner in the other half of its group. */
  lemma SwapBits(n: nat, upper: nat, lower: nat, d: nat, i: nat)
    requires Selects(upper, lower, d) && i < 16
    ensures Lower(i, d) ==> Bit(Swap(n, upper, lower, d), i) == Bit(n, i + d)
    ensures !Lower(i, d) ==> i >= d && Bit(Swap(n, upper, lower, d), i) == Bit(n, i - d)
  {
    var a, b := Shr(And(n, upper), d), Shl(And(n, lower), d);
    assert Swap(n, upper, lower, d) == Or(a, b);
    hide *;
    SelectFacts(upper, lower, d, i);
    BitOr(a, b, i);
    BitShr(And(n, upper), d, i);
    BitShl(And(n, lower), d, i);
    BitAnd(n, upper, i + d);
    if i >= d {
      BitAnd(n, lower, i - d);
    }
  }

  lemma {:induction false} BitAbove(n: nat, k: nat, i: nat)
    requires n < Pow2(k) && i >= k
    ensures Bit(n, i) == 0
  {
    if k > 0 {
      BitAbove(n / 2, k - 1, i - 1);
    } else {
      BitZero(i);
    }
  }

  lemma LowerIs(i: nat, d: nat)
    requires d in {1, 2, 4, 8}
    ensures Lower(i, d) <==> i % (2 * d) < d
  {
    if d == 1 {
    } else if d == 2 {
    } else if d == 4 {
    } else {
    }
  }

  lemma StripesBit(d: nat, j: nat, i: nat)
    requires d in {1, 2, 4, 8} && d * j == 8 && i < 16
    ensures Bit(Stripes(LowerUnit(d), 2 * d, j), i) == if Lower(i, d) then 1 else 0
    ensures Bit(Stripes(UpperUnit(d), 2 * d, j), i) == if Lower(i, d) then 0 else 1
  {
    hide *;
    assert 2 * d * j == 2 * (d * j);
    MaskBits(d, j, i);
    LowerIs(i, d);
  }

  lemma StripesSelect(upper: nat, lower: nat, d: nat, j: nat)
    requires d in {1, 2, 4, 8} && d * j == 8 && upper < Pow2(16)
    requires upper == Stripes(UpperUnit(d), 2 * d, j) && lower == Stripes(LowerUnit(d), 2 * d, j)
    ensures Selects(upper, lower, d)
  {
    hide Bit, Pow2, Stripes, Lower;
    forall i: nat | i < 16
      ensures Bit(lower, i) == (if Lower(i, d) then 1 else 0) && Bit(upper, i) == (if Lower(i, d) then 0 else 1)
    {
      StripesBit(d, j, i);
    }
    forall i: nat | i >= 16 ensures Bit(upper, i) == 0 {
      BitAbove(upper, 16, i);
    }
  }

  function Flip(i: nat, d: nat): nat {
    if Lower(i, d) then i + d else if i >= d then i - d else 0
  }

  predicate Digit(x: nat) { x < 2 }

  predicate Opposite(x: nat, y: nat) { Digit(x) && y == 1 - x }

  lemma Flip8(a: nat, low: nat)
    requires Digit(a) && low < 8
    ensures Flip(8 * a + low, 8) == 8 * (1 - a) + low
  {
  }

  lemma Flip4(a: nat, b: nat, low: nat)
    requires Digit(a) && Digit(b) && low < 4
    ensures Flip(8 * a + (4 * b + low), 4) == 8 * a + 4 * (1 - b) + low
  {
    Remainder(8 * a + (4 * b + low), a, 4 * b + low, 8);
  }

  lemma Flip2(i: nat, q: nat, c: nat, low: nat)
    requires i == 4 * q + (2 * c + low) && Digit(c) && low < 2
    ensures Flip(i, 2) == 4 * q + 2 * (1 - c) + low
  {
    Remainder(i, q, 2 * c + low, 4);
  }

  lemma Flip1(i: nat, q: nat, e: nat)
    requires i == 2 * q + e && Digit(e)
    ensures Flip(i, 1) == 2 * q + (1 - e)
  {
    Remainder(i, q, e, 2);
  }

  lemma Digits(i: nat) returns (a: nat, b: nat, c: nat, e: nat, a': nat, b': nat, c': nat, e': nat)
    requires i < 16
    ensures i == 8 * a + 4 * b + 2 * c + e && 15 - i == 8 * a' + 4 * b' + 2 * c' + e'
    ensures Opposite(a, a') && Opposite(b, b') && Opposite(c, c') && Opposite(e, e')
    ensures 8 * a' + 4 * b + 2 * c + e < 16 && 8 * a' + 4 * b' + 2 * c + e < 16 && 8 * a' + 4 * b' + 2 * c' + e < 16
  {
    a, b, c, e := i / 8, i % 8 / 4, i % 4 / 2, i % 2;
    a', b', c', e' := 1 - a, 1 - b, 1 - c, 1 - e;
    Remainder(i % 8, i % 8 / 4, i % 4, 4);
  }

  /** Four stages turn every binary digit of a position over. */
  lemma Flips(i: nat)
    requires i < 16
    ensures Flip(i, 8) < 16 && Flip(Flip(i, 8), 4) < 16 && Flip(Flip(Flip(i, 8), 4), 2) < 16
    ensures Flip(Flip(Flip(Flip(i, 8), 4), 2), 1) == 15 - i
  {
    hide *;
    var a, b, c, e, a', b', c', e' := Digits(i);
    FlipsAll(a, b, c, e, a', b', c', e');
  }

  lemma FlipsAll(a: nat, b: nat, c: nat, e: nat, a': nat, b': nat, c': nat, e': nat)
    requires Opposite(a, a') && Opposite(b, b') && Opposite(c, c') && Opposite(e, e')
    ensures Flip(8 * a + 4 * b + 2 * c + e, 8) == 8 * a' + 4 * b + 2 * c + e
    ensures Flip(8 * a' + 4 * b + 2 * c + e, 4) == 8 * a' + 4 * b' + 2 * c + e
    ensures Flip(8 * a' + 4 * b' + 2 * c + e, 2) == 8 * a' + 4 * b' + 2 * c' + e
    ensures Flip(8 * a' + 4 * b' + 2 * c' + e, 1) == 8 * a' + 4 * b' + 2 * c' + e'
  {
    hide Flip;
    Flip8(a, 4 * b + 2 * c + e);
    Flip4(a', b, 2 * c + e);
    Flip2(8 * a' + 4 * b' + 2 * c + e, 2 * a' + b', c, e);
    Flip1(8 * a' + 4 * b' + 2 * c' + e, 4 * a' + 2 * b' + c', e);
  }

  lemma SelectMasks()
    ensures Selects(0xAAAA, 0x5555, 1) && Selects(0xCCCC, 0x3333, 2) && Selects(0xF0F0, 0x0F0F, 4) && Selects(0xFF00, 0x00FF, 8)
  {
    Masks();
    assert Pow2(16) == 0x10000;
    hide Pow2, Stripes, Selects;
    StripesSelect(0xAAAA, 0x5555, 1, 8);
    StripesSelect(0xCCCC, 0x3333, 2, 4);
    StripesSelect(0xF0F0, 0x0F0F, 4, 2);
    StripesSelect(0xFF00, 0x00FF, 8, 1);
  }

  lemma SwapFlips(n: nat, upper: nat, lower: nat, d: nat, i: nat)
    requires Selects(upper, lower, d) && i < 16
    ensures Bit(Swap(n, upper, lower, d), i) == Bit(n, Flip(i, d))
  {
    hide Bit, Swap, Lower;
    SwapBits(n, upper, lower, d, i);
  }

  /** Four stages reverse the low 16 bits. */
  lemma BitReverse16Bits(n: nat, i: nat)
    requires i < 16
    ensures Bit(BitReverse16(n), i) == Bit(n, 15 - i)
  {
    var n1 := Swap(n, 0xAAAA, 0x5555, 1);
    var n2 := Swap(n1, 0xCCCC, 0x3333, 2);
    var n3 := Swap(n2, 0xF0F0, 0x0F0F, 4);
    assert BitReverse16(n) == Swap(n3, 0xFF00, 0x00FF, 8);
    hide *;
    SelectMasks();
    Flips(i);
    SwapFlips(n3, 0xFF00, 0x00FF, 8, i);
    SwapFlips(n2, 0xF0F0, 0x0F0F, 4, Flip(i, 8));
    SwapFlips(n1, 0xCCCC, 0x3333, 2, Flip(Flip(i, 8), 4));
    SwapFlips(n, 0xAAAA, 0x5555, 1, Flip(Flip(Flip(i, 8), 4), 2));
  }

  lemma {:induction false} ShrIs(n: nat, k: nat)
    ensures Shr(n, k) == n / Pow2(k)
  {
    if k > 0 {
      ShrIs(n / 2, k - 1);
      HalfThen(n, Pow2(k - 1));
    }
  }

  lemma HalfThen(n: nat, p: nat)
    requires p > 0
    ensures n / 2 / p == n / (2 * p)
  {
    HalfBoth(n, p);
  }

  lemma HalfRest(n: nat, p: nat)
    requires p > 0
    ensures n % (2 * p) == 2 * (n / 2 % p) + n % 2
  {
    HalfBoth(n, p);
  }

  lemma HalfBoth(n: nat, p: nat)
    requires p > 0
    ensures n / 2 / p == n / (2 * p) && n % (2 * p) == 2 * (n / 2 % p) + n % 2
  {
    var q, r := n / 2 / p, n / 2 % p;
    assert n / 2 == q * p + r;
    Twice(q, p);
    Remainder(n, q, 2 * r + n % 2, 2 * p);
  }

  lemma {:induction false} ShlIs(n: nat, k: nat)
    ensures Shl(n, k) == n * Pow2(k)
  {
    if k > 0 {
      ShlIs(n, k - 1);
      assert 2 * (n * Pow2(k - 1)) == n * (2 * Pow2(k - 1));
    }
  }

  /** Masking with k ones keeps the low k bits. */
  lemma {:induction false} AndOnes(n: nat, k: nat)
    ensures And(n, Pow2(k) - 1) == n % Pow2(k)
    decreases k
  {
    hide *;
    if k > 0 {
      Pow2Next(k - 1);
      AndOnes(n / 2, k - 1);
      OneMoreOne(n, Pow2(k - 1));
    } else {
      Pow2Next(0);
      NoOnes(n);
    }
  }

  lemma NoOnes(n: nat)
    ensures And(n, 0) == 0 == n % 1
  {
  }

  lemma OneMoreOne(n: nat, p: nat)
    requires p > 0 && And(n / 2, p - 1) == (n / 2) % p
    ensures And(n, 2 * p - 1) == n % (2 * p)
  {
    hide *;
    HalfRest(n, p);
    AndOdd(n, p - 1);
  }

  lemma AndOdd(a: nat, c: nat)
    ensures And(a, 2 * c + 1) == a % 2 + 2 * And(a / 2, c)
  {
    HalfOf(c, 1);
  }

  lemma OrEven(s: nat, u: nat)
    ensures Or(2 * s, u) == u % 2 + 2 * Or(s, u / 2) && Or(u, 2 * s) == u % 2 + 2 * Or(u / 2, s)
  {
    assert (2 * s) / 2 == s && (2 * s) % 2 == 0;
  }

  /** Or-ing a number shifted by k bits with one of at most k bits puts them side by side. */
  lemma {:induction false} OrShifted(x: nat, u: nat, k: nat)
    requires u < Pow2(k)
    ensures Or(Shl(x, k), u) == Shl(x, k) + u && Or(u, Shl(x, k)) == Shl(x, k) + u
  {
    if k > 0 {
      OrShifted(x, u / 2, k - 1);
      OrEven(Shl(x, k - 1), u);
    } else {
      assert u == 0;
    }
  }

  lemma Pow2Two()
    ensures Pow2(1) == 2
  {
  }

  /** The bits of a reversal, in the other order. */
  lemma {:induction false} ReversedBit(n: nat, k: nat, i: nat)
    ensures Bit(Reversed(n, k), i) == if i < k then Bit(n, k - 1 - i) else 0
  {
    if k == 0 {
      BitZero(i);
    } else {
      var u, x := Reversed(n / 2, k - 1), n % 2;
      assert Reversed(n, k) == u + Pow2(k - 1) * x && Bit(n, 0) == Bit(x, 0) == x;
      assert i < k - 1 ==> Bit(n, k - 1 - i) == Bit(n / 2, k - 1 - i - 1);
      hide *;
      ReversedBelow(n / 2, k - 1);
      Pow2Two();
      BitSplit(u, x, k - 1, i);
      if i < k - 1 {
        ReversedBit(n / 2, k - 1, i);
      } else if i >= k {
        BitAbove(x, 1, i - (k - 1));
      }
    }
  }

  lemma Powers()
    ensures Pow2(8) == 0x100 && Pow2(16) == 0x10000
  {
  }

  lemma BitReverse16Above(n: nat, i: nat)
    requires i >= 16
    ensures Bit(BitReverse16(n), i) == 0
  {
    var n3 := Swap(Swap(Swap(n, 0xAAAA, 0x5555, 1), 0xCCCC, 0x3333, 2), 0xF0F0, 0x0F0F, 4);
    var a, b := Shr(And(n3, 0xFF00), 8), Shl(And(n3, 0x00FF), 8);
    assert BitReverse16(n) == Or(a, b);
    hide *;
    Powers();
    BitOr(a, b, i);
    BitShr(And(n3, 0xFF00), 8, i);
    BitShl(And(n3, 0x00FF), 8, i);
    BitAnd(n3, 0xFF00, i + 8);
    BitAnd(n3, 0x00FF, i - 8);
    BitAbove(0xFF00, 16, i + 8);
    BitAbove(0x00FF, 8, i - 8);
  }

  /** The masks and shifts compute the reversal. */
  lemma BitReverseIs(v: nat, bits: nat)
    requires bits <= 16
    ensures BitReverse(v, bits) == Reversed(v, bits)
  {
    var r := BitReverse16(v);
    assert BitReverse(v, bits) == Shr(r, 16 - bits);
    hide *;
    forall i: nat ensures Bit(Shr(r, 16 - bits), i) == Bit(Reversed(v, bits), i) {
      BitShr(r, 16 - bits, i);
      ReversedBit(v, bits, i);
      if i < bits {
        BitReverse16Bits(v, i + 16 - bits);
      } else {
        BitReverse16Above(v, i + 16 - bits);
      }
    }
    var shifted := Shr(r, 16 - bits);
    forall i: nat | i >= bits ensures Bit(shifted, i) == 0 {
      ReversedBit(v, bits, i);
    }
    BitsBelow(shifted, bits);
    ReversedBelow(v, bits);
    BitsEqual(shifted, Reversed(v, bits), bits);
  }

  /** Reading one more bit of a stream, most significant bit first. */
  lemma {:induction false} ReversedNext(n: nat, k: nat)
    ensures Reversed(n, k + 1) == 2 * Reversed(n, k) + Bit(n, k)
  {
    if k > 0 {
      ReversedNext(n / 2, k - 1);
      assert (n % 2) * Pow2(k) == 2 * ((n % 2) * Pow2(k - 1));
    }
  }

  /** The leading bits of a reversal are a reversal. */
  lemma {:induction false} ReversedTop(n: nat, k: nat, more: nat)
    ensures Reversed(n, k + more) / Pow2(more) == Reversed(n, k)
    decreases more
  {
    if more > 0 {
      Pow2Next(more - 1);
      hide *;
      ReversedTop(n, k, more - 1);
      ReversedNext(n, k + more - 1);
      var x, b, p := Reversed(n, k + more - 1), Bit(n, k + more - 1), Pow2(more - 1);
      HalfOf(x, b);
      HalfThen(2 * x + b, p);
    } else {
      Pow2Next(0);
    }
  }

  lemma Pow2Next(k: nat)
    ensures Pow2(k + 1) == 2 * Pow2(k) && Pow2(k) > 0 && Pow2(0) == 1
  {
  }

  lemma HalfOf(x: nat, b: nat)
    requires b <= 1
    ensures (2 * x + b) / 2 == x && (2 * x + b) % 2 == b
  {
  }

  /** A reversal depends on the reversed bits only. */
  lemma {:induction false} ReversedLow(n: nat, m: nat, k: nat)
    requires n % Pow2(k) == m % Pow2(k)
    ensures Reversed(n, k) == Reversed(m, k)
    decreases k
  {
    if k > 0 {
      HalfMod(n, m, Pow2(k - 1));
      ReversedLow(n / 2, m / 2, k - 1);
    }
  }

  lemma HalfMod(n: nat, m: nat, p: nat)
    requires p > 0 && n % (2 * p) == m % (2 * p)
    ensures n % 2 == m % 2 && (n / 2) % p == (m / 2) % p
  {
    HalfRest(n, p);
    HalfRest(m, p);
    SameParts((n / 2) % p, n % 2, (m / 2) % p, m % 2);
  }

  lemma SameParts(a: nat, x: nat, b: nat, y: nat)
    requires 2 * a + x == 2 * b + y && x < 2 && y < 2
    ensures a == b && x == y
  {
  }

  /** Reversing twice gives the bits back. */
  lemma ReversedTwice(n: nat, k: nat)
    requires n < Pow2(k)
    ensures Reversed(Reversed(n, k), k) == n
  {
    hide Pow2, Reversed, Bit;
    ReversedBelow(Reversed(n, k), k);
    forall i: nat | i < k ensures Bit(Reversed(Reversed(n, k), k), i) == Bit(n, i) {
      ReversedBit(Reversed(n, k), k, i);
      ReversedBit(n, k, k - 1 - i);
    }
    BitsEqual(Reversed(Reversed(n, k), k), n, k);
  }
}
