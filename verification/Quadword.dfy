/** 64-bit words: logical operations, shifts, and what they do to single bits. */
module Quadword {

  const ONES: bv64 := 0xFFFF_FFFF_FFFF_FFFF

  /** The low six bits as a number: what the processor takes of a shift count. */
  function Count(c: bv64): (n: nat)
    ensures n < 64
  {
    (if c & 1 != 0 then 1 else 0) + (if c & 2 != 0 then 2 else 0) + (if c & 4 != 0 then 4 else 0)
    + (if c & 8 != 0 then 8 else 0) + (if c & 16 != 0 then 16 else 0) + (if c & 32 != 0 then 32 else 0)
  }

  /** Which is the count as a masked number. */
  lemma CountValue(c: bv64)
    ensures Count(c) == (c & 0x3F) as int
  {
  }

  // Named so that proofs can treat word operations as symbols.

  function AndW(x: bv64, y: bv64): bv64 {
    x & y
  }

  function OrW(x: bv64, y: bv64): bv64 {
    x | y
  }

  function NotW(x: bv64): bv64 {
    !x
  }

  function DecW(x: bv64): bv64 {
    x - 1
  }

  function Half(x: bv64): bv64 {
    x >> 1
  }

  function Double(x: bv64): bv64 {
    x << 1
  }

  /** Logical shifts, one place at a time. */
  function ShrBy(x: bv64, n: nat): bv64
    decreases n
  {
    if n == 0 then x else ShrBy(Half(x), n - 1)
  }

  function ShlBy(x: bv64, n: nat): bv64
    decreases n
  {
    if n == 0 then x else Double(ShlBy(x, n - 1))
  }

  /** Bit `i` of a quadword, lowest first. */
  predicate Bit(x: bv64, i: nat)
    decreases i
  {
    if i == 0 then x & 1 == 1 else Bit(Half(x), i - 1)
  }

  // ----- bit laws of the word operations

  lemma HalfAnd(x: bv64, y: bv64)
    ensures Half(AndW(x, y)) == AndW(Half(x), Half(y))
    ensures AndW(x, y) & 1 == 1 <==> x & 1 == 1 && y & 1 == 1
  {
  }

  lemma {:induction false} AndBit(x: bv64, y: bv64, i: nat)
    ensures Bit(AndW(x, y), i) <==> Bit(x, i) && Bit(y, i)
    decreases i
  {
    hide AndW, Half;
    HalfAnd(x, y);
    if i > 0 { AndBit(Half(x), Half(y), i - 1); }
  }

  lemma HalfOr(x: bv64, y: bv64)
    ensures Half(OrW(x, y)) == OrW(Half(x), Half(y))
    ensures OrW(x, y) & 1 == 1 <==> x & 1 == 1 || y & 1 == 1
  {
    OrLow(x, y);
    OrHalf(x, y);
    hide OrW, Half;
  }

  lemma OrLow(x: bv64, y: bv64)
    ensures OrW(x, y) & 1 == 1 <==> x & 1 == 1 || y & 1 == 1
  {
    OrMasked(x, y);
  }

  lemma OrMasked(x: bv64, y: bv64)
    ensures (x | y) & 1 == 1 <==> x & 1 == 1 || y & 1 == 1
  {
  }

  lemma OrHalf(x: bv64, y: bv64)
    ensures Half(OrW(x, y)) == OrW(Half(x), Half(y))
  {
    OrShifted(x, y);
  }

  lemma OrShifted(x: bv64, y: bv64)
    ensures (x | y) >> 1 == (x >> 1) | (y >> 1)
  {
  }

  lemma {:induction false} OrBit(x: bv64, y: bv64, i: nat)
    ensures Bit(OrW(x, y), i) <==> Bit(x, i) || Bit(y, i)
    decreases i
  {
    hide OrW, Half;
    HalfOr(x, y);
    if i > 0 { OrBit(Half(x), Half(y), i - 1); }
  }

  lemma {:induction false} ShrBit(x: bv64, k: nat, i: nat)
    ensures Bit(ShrBy(x, k), i) <==> Bit(x, i + k)
    decreases k
  {
    if k > 0 { ShrBit(Half(x), k - 1, i); }
  }

  /** The low `k` bits are all set. */
  predicate OnesBelow(x: bv64, k: nat)
    decreases k
  {
    k == 0 || (x & 1 == 1 && OnesBelow(Half(x), k - 1))
  }

  lemma {:induction false} OnesBelowBit(x: bv64, k: nat, i: nat)
    requires OnesBelow(x, k) && i < k
    ensures Bit(x, i)
    decreases k
  {
    if i > 0 { OnesBelowBit(Half(x), k - 1, i - 1); }
  }

  lemma OnesBit(i: nat)
    requires i < 64
    ensures Bit(ONES, i)
  {
    OnesEight(0xFF, 0);
    OnesEight(0xFFFF, 8);
    OnesEight(0xFF_FFFF, 16);
    OnesEight(0xFFFF_FFFF, 24);
    OnesEight(0xFF_FFFF_FFFF, 32);
    OnesEight(0xFFFF_FFFF_FFFF, 40);
    OnesEight(0xFF_FFFF_FFFF_FFFF, 48);
    OnesEight(ONES, 56);
    OnesBelowBit(ONES, 64, i);
  }

  lemma OnesEight(x: bv64, k: nat)
    requires x & 0xFF == 0xFF && OnesBelow(x >> 8, k)
    ensures OnesBelow(x, k + 8)
  {
    var h1 := Half(x);
    var h2 := Half(h1);
    var h3 := Half(h2);
    var h4 := Half(h3);
    var h5 := Half(h4);
    var h6 := Half(h5);
    var h7 := Half(h6);
    assert Half(h7) == x >> 8;
    assert OnesBelow(h7, k + 1);
    assert OnesBelow(h6, k + 2);
    assert OnesBelow(h5, k + 3);
    assert OnesBelow(h4, k + 4);
    assert OnesBelow(h3, k + 5);
    assert OnesBelow(h2, k + 6);
    assert OnesBelow(h1, k + 7);
  }

  lemma {:induction false} ZeroBit(i: nat)
    ensures !Bit(0, i)
  {
    if i > 0 { ZeroBit(i - 1); }
  }

  /** There are no bits above the top one. */
  lemma HighBit(x: bv64, i: nat)
    requires i >= 64
    ensures !Bit(x, i)
  {
    ShrBit(x, 64, i - 64);
    ShrAll(x);
    ZeroBit(i - 64);
  }

  lemma {:induction false} ShrAdd(x: bv64, a: nat, b: nat)
    ensures ShrBy(x, a + b) == ShrBy(ShrBy(x, a), b)
    decreases a
  {
    if a > 0 { ShrAdd(Half(x), a - 1, b); }
  }

  lemma ShrEight(x: bv64)
    ensures ShrBy(x, 8) == x >> 8
  {
    ShrAdd(x, 4, 4);
    ShrFour(x);
    ShrFour(ShrBy(x, 4));
    hide ShrBy;
  }

  lemma ShrFour(x: bv64)
    ensures ShrBy(x, 4) == x >> 4
  {
    assert ShrBy(x, 4) == ShrBy(Half(Half(x)), 2);
  }

  lemma ShrMore(x: bv64, y: bv64, n: nat)
    requires y == x >> 8
    ensures ShrBy(x, 8 + n) == ShrBy(y, n)
  {
    ShrAdd(x, 8, n);
    ShrEight(x);
  }

  lemma ShrNone(x: bv64)
    ensures ShrBy(x, 0) == x
  {
  }

  lemma ShrAll(x: bv64)
    ensures ShrBy(x, 64) == 0
  {
    hide ShrBy;
    var x1 := x >> 8;
    var x2 := x1 >> 8;
    var x3 := x2 >> 8;
    var x4 := x3 >> 8;
    var x5 := x4 >> 8;
    var x6 := x5 >> 8;
    var x7 := x6 >> 8;
    assert x7 >> 8 == 0;
    ShrMore(x, x1, 56);
    ShrMore(x1, x2, 48);
    ShrMore(x2, x3, 40);
    ShrMore(x3, x4, 32);
    ShrMore(x4, x5, 24);
    ShrMore(x5, x6, 16);
    ShrMore(x6, x7, 8);
    ShrMore(x7, 0, 0);
    ShrNone(0);
  }

  lemma ClearTop(x: bv64)
    ensures Half(Double(x)) == AndW(x, 0x7FFF_FFFF_FFFF_FFFF) && Double(x) & 1 == 0
  {
  }

  lemma LowSixtyThree(i: nat)
    requires i < 63
    ensures Bit(0x7FFF_FFFF_FFFF_FFFF, i)
  {
    OnesBit(i + 1);
    assert Half(ONES) == 0x7FFF_FFFF_FFFF_FFFF;
  }

  lemma DoubleBit(x: bv64, i: nat)
    requires i < 64
    ensures Bit(Double(x), i) <==> i > 0 && Bit(x, i - 1)
  {
    ClearTop(x);
    if i > 0 {
      AndBit(x, 0x7FFF_FFFF_FFFF_FFFF, i - 1);
      LowSixtyThree(i - 1);
    }
  }

  lemma {:induction false} ShlBit(x: bv64, k: nat, i: nat)
    requires i < 64
    ensures Bit(ShlBy(x, k), i) <==> i >= k && Bit(x, i - k)
    decreases k
  {
    hide Bit, Double;
    if k > 0 {
      DoubleBit(ShlBy(x, k - 1), i);
      if i > 0 { ShlBit(x, k - 1, i - 1); }
    }
  }

  lemma HalfNot(x: bv64)
    ensures Half(NotW(x)) == AndW(NotW(Half(x)), 0x7FFF_FFFF_FFFF_FFFF)
    ensures NotW(x) & 1 == 1 <==> !(x & 1 == 1)
  {
  }

  lemma {:induction false} NotBit(x: bv64, i: nat)
    requires i < 64
    ensures Bit(NotW(x), i) <==> !Bit(x, i)
    decreases i
  {
    hide NotW, Half, AndW;
    HalfNot(x);
    if i > 0 {
      NotBit(Half(x), i - 1);
      AndBit(NotW(Half(x)), 0x7FFF_FFFF_FFFF_FFFF, i - 1);
      LowSixtyThree(i - 1);
    }
  }

  lemma PredDouble(y: bv64)
    ensures DecW(Double(y)) == OrW(Double(DecW(y)), 1)
  {
  }

  lemma OneBit(i: nat)
    ensures Bit(1, i) <==> i == 0
  {
    assert Half(1) == 0;
    if i > 0 { ZeroBit(i - 1); }
  }

  /** `(1 << n) - 1` has exactly its `n` low bits set. */
  lemma {:induction false} PredPowerBit(n: nat, i: nat)
    requires i < 64
    ensures Bit(DecW(ShlBy(1, n)), i) <==> i < n
    decreases n
  {
    hide Double, OrW, Bit;
    if n == 0 {
      ZeroBit(i);
    } else {
      var y := ShlBy(1, n - 1);
      PredDouble(y);
      OrBit(Double(DecW(y)), 1, i);
      DoubleBit(DecW(y), i);
      OneBit(i);
      if i > 0 { PredPowerBit(n - 1, i - 1); }
    }
  }

  lemma SameLowBit(x: bv64, y: bv64)
    requires (x & 1 == 1 <==> y & 1 == 1) && Half(x) == Half(y)
    ensures x == y
  {
  }

  lemma {:induction false} AgreeBelow(x: bv64, y: bv64, k: nat)
    requires (forall i :: 0 <= i < k ==> (Bit(x, i) <==> Bit(y, i))) && ShrBy(x, k) == ShrBy(y, k)
    ensures x == y
    decreases k
  {
    if k > 0 {
      forall i | 0 <= i < k - 1 ensures Bit(Half(x), i) <==> Bit(Half(y), i) {
        assert Bit(x, i + 1) <==> Bit(y, i + 1);
      }
      AgreeBelow(Half(x), Half(y), k - 1);
      assert Bit(x, 0) <==> Bit(y, 0);
      SameLowBit(x, y);
    }
  }

  /** A quadword is its 64 bits. */
  lemma BitsDetermine(x: bv64, y: bv64)
    requires forall i :: 0 <= i < 64 ==> (Bit(x, i) <==> Bit(y, i))
    ensures x == y
  {
    ShrAll(x);
    ShrAll(y);
    AgreeBelow(x, y, 64);
  }
}
