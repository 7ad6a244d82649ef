/** 128-bit arithmetic on 64-bit words, and the clock that rests on it. */
module Uint128 {

  const B32: nat := 0x1_0000_0000
  const B64: nat := 0x1_0000_0000_0000_0000

  type u64 = x: nat | x < 0x1_0000_0000_0000_0000
  type u32 = x: nat | x < 0x1_0000_0000

  // ----- products of unknowns, as a symbol

  /** `x * y`. */
  function Times(x: nat, y: nat): nat {
    x * y
  }

  lemma TimesMonotone(x: nat, y: nat, z: nat)
    requires y <= z
    ensures Times(x, y) <= Times(x, z)
  {
    TimesAdds(x, y, z - y);
  }

  lemma TimesAdds(x: nat, y: nat, z: nat)
    ensures Times(x, y + z) == Times(x, y) + Times(x, z)
  {
  }

  lemma TimesCommutes(x: nat, y: nat)
    ensures Times(x, y) == Times(y, x)
  {
  }

  /** A product with a constant factor. */
  lemma TimesConstant(x: nat)
    ensures Times(x, B32) == x * B32 && Times(x, B64) == x * B64
    ensures Times(x, B32 - 1) == x * (B32 - 1) && Times(x, B64 - 1) == x * (B64 - 1)
  {
  }

  lemma TimesBelow(x: nat, y: nat)
    ensures x < B32 && y < B32 ==> Times(x, y) <= (B32 - 1) * (B32 - 1)
    ensures x < B64 && y < B64 ==> Times(x, y) <= (B64 - 1) * (B64 - 1)
  {
    hide Times;
    TimesConstant(x);
    if y < B32 { TimesMonotone(x, y, B32 - 1); }
    if y < B64 { TimesMonotone(x, y, B64 - 1); }
  }

  // ----- MultiplyHigh without a 128-bit type

  /** 64-bit addition. */
  function Add(x: u64, y: u64): u64 {
    (x + y) % B64
  }

  /** A product of two 32-bit halves fits in 64 bits. */
  function Product(x: u32, y: u32): u64 {
    TimesBelow(x, y);
    Times(x, y)
  }

  function MultiplyHigh(a: u64, b: u64): u64 {
    var aLo: u32, aHi: u32 := a % B32, a / B32;
    var bLo: u32, bHi: u32 := b % B32, b / B32;
    var hi, midA, midB, lo := Product(aHi, bHi), Product(aHi, bLo), Product(bHi, aLo), Product(aLo, bLo);
    var carry := Add(Add(midA % B32, midB % B32), lo / B32) / B32;
    Add(Add(Add(hi, midA / B32), midB / B32), carry)
  }

  /** The four partial products add up to the product. */
  lemma Partial(aLo: nat, aHi: nat, bLo: nat, bHi: nat)
    ensures Times(aHi * B32 + aLo, bHi * B32 + bLo)
         == Times(aHi, bHi) * B64 + (Times(aHi, bLo) + Times(bHi, aLo)) * B32 + Times(aLo, bLo)
  {
    var a, b := aHi * B32 + aLo, bHi * B32 + bLo;
    assert a * b == aHi * b * B32 + aLo * b;
    assert aHi * b == aHi * bHi * B32 + aHi * bLo;
    assert aLo * b == aLo * bHi * B32 + aLo * bLo;
  }

  /** Carrying by hand gives the upper half of the sum. */
  lemma Carries(hi: nat, midA: nat, midB: nat, lo: nat, total: nat)
    requires total == hi * B64 + (midA + midB) * B32 + lo && lo < B64
    ensures total / B64 == hi + midA / B32 + midB / B32 + (midA % B32 + midB % B32 + lo / B32) / B32
  {
    var carry := (midA % B32 + midB % B32 + lo / B32) / B32;
    var rest := (midA % B32 + midB % B32 + lo / B32) % B32;
    assert total == (hi + midA / B32 + midB / B32 + carry) * B64 + rest * B32 + lo % B32;
  }

  lemma MultiplyHighIs(a: u64, b: u64)
    ensures MultiplyHigh(a, b) == Times(a, b) / B64
  {
    hide Times;
    TimesBelow(a, b);
    TimesBelow(a % B32, b % B32);
    var aLo, aHi := a % B32, a / B32;
    var bLo, bHi := b % B32, b / B32;
    Partial(aLo, aHi, bLo, bHi);
    Carries(Times(aHi, bHi), Times(aHi, bLo), Times(bHi, aLo), Times(aLo, bLo), Times(a, b));
    SumsFit(Product(aHi, bHi), Product(aHi, bLo), Product(bHi, aLo), Product(aLo, bLo), Times(a, b) / B64);
  }

  /** None of the additions overflows, since the result does not. */
  lemma SumsFit(hi: u64, midA: u64, midB: u64, lo: u64, result: nat)
    requires result == hi + midA / B32 + midB / B32 + (midA % B32 + midB % B32 + lo / B32) / B32 && result < B64
    ensures var carry := Add(Add(midA % B32, midB % B32), lo / B32) / B32;
            Add(Add(Add(hi, midA / B32), midB / B32), carry) == result
  {
    CarryFits(midA % B32, midB % B32, lo / B32);
    var carry := (midA % B32 + midB % B32 + lo / B32) / B32;
    OuterSumsFit(hi, midA / B32, midB / B32, carry, result);
  }

  lemma CarryFits(x: u32, y: u32, z: u32)
    ensures Add(Add(x, y), z) == x + y + z
  {
  }

  lemma OuterSumsFit(hi: u64, x: u64, y: u64, carry: u64, result: u64)
    requires result == hi + x + y + carry
    ensures Add(Add(Add(hi, x), y), carry) == result
  {
  }

  // ----- division

  /** `q` and `r` are quotient and remainder of `n` by `d`. */
  ghost predicate Divides(n: nat, d: nat, q: nat, r: nat) {
    n == Times(d, q) + r && r < d
  }

  function Quot(n: nat, d: nat): (q: nat)
    requires d > 0
    ensures q <= n
  {
    DividesBy(n, d);
    n / d
  }

  function Rem(n: nat, d: nat): (r: nat)
    requires d > 0
    ensures r < d
  {
    n % d
  }

  lemma DividesBy(n: nat, d: nat)
    requires d > 0
    ensures Divides(n, d, n / d, n % d) && n / d <= n
  {
    var q, r := n / d, n % d;
    assert n == d * q + r;
    TimesMonotone(q, 1, d);
    TimesCommutes(q, d);
  }

  /** There is only one such pair. */
  lemma DividesUnique(n: nat, d: nat, q: nat, r: nat)
    requires Divides(n, d, q, r)
    ensures q == n / d && r == n % d
  {
    DividesBy(n, d);
    var q', r' := n / d, n % d;
    hide Times;
    if q < q' {
      TimesMonotone(d, q + 1, q');
      TimesSuccessor(d, q);
    } else if q' < q {
      TimesMonotone(d, q' + 1, q);
      TimesSuccessor(d, q');
    }
  }

  lemma TimesSuccessor(x: nat, y: nat)
    ensures Times(x, y + 1) == Times(x, y) + x
  {
  }

  lemma QuotientBelow(n: nat, d: nat, q: nat, r: nat, bound: nat)
    requires Divides(n, d, q, r) && n < Times(d, bound)
    ensures q < bound
  {
    hide Times;
    if q >= bound { TimesMonotone(d, bound, q); }
  }

  /** Division of the 128-bit number `hi`, `lo` in 32-bit segments; the quotient of `hi` itself is dropped. */
  method Divide128On32(lo: u64, hi: u64, d: u32) returns (accum: u64, remainder: u64)
    requires d > 0
    ensures Divides(Rem(hi, d) * B64 + lo, d, accum, remainder)
  {
    hide Times, Divides, Quot, Rem;
    QuotRem(lo, d);
    remainder, accum := Rem(lo, d), Quot(lo, d);
    var h := Rem(hi, d);
    if hi == 0 {
      NoHigh(d);
      return;
    }
    var first: u64 := h * B32;
    SegmentBelow(h, d);
    var second: u64 := Rem(first, d) * B32;
    SegmentBelow(Rem(first, d), d);
    Segments(lo, h, d, Quot(first, d), Rem(first, d), Quot(second, d), Rem(second, d), accum, remainder);
    accum := Add(accum, Quot(first, d) * B32);
    accum := Add(accum, Quot(second, d));
    remainder := Add(remainder, Rem(second, d));
    if remainder >= d {
      accum := Add(accum, 1);
      remainder := remainder - d;
    }
  }

  lemma QuotRem(n: nat, d: nat)
    requires d > 0
    ensures Divides(n, d, Quot(n, d), Rem(n, d))
  {
    DividesBy(n, d);
  }

  lemma NoHigh(d: nat)
    requires d > 0
    ensures Rem(0, d) == 0
  {
  }

  lemma SegmentBelow(h: nat, d: u32)
    requires h < d
    ensures Divides(h * B32, d, Quot(h * B32, d), Rem(h * B32, d)) && Quot(h * B32, d) < B32
  {
    var n := h * B32;
    TimesConstant(d);
    DividesBy(n, d);
    hide Times;
    QuotientBelow(n, d, n / d, n % d, B32);
  }

  /** The quotients of the segments make up the quotient, up to one carry from the remainders. */
  lemma Segments(lo: u64, h: nat, d: u32, q1: nat, r1: nat, q2: nat, r2: nat, q0: nat, r0: nat)
    requires h < d && Divides(h * B32, d, q1, r1) && Divides(r1 * B32, d, q2, r2) && Divides(lo, d, q0, r0)
    ensures var q, r := q0 + q1 * B32 + q2, r0 + r2;
            && q < B64 && (r < d ==> Divides(h * B64 + lo, d, q, r))
            && (r >= d ==> q + 1 < B64 && Divides(h * B64 + lo, d, q + 1, r - d))
  {
    var q, r := q0 + q1 * B32 + q2, r0 + r2;
    var n := h * B64 + lo;
    TimesScaled(d, q1);
    hide Times;
    TimesAdds(d, q0 + q1 * B32, q2);
    TimesAdds(d, q0, q1 * B32);
    assert n == Times(d, q) + r;
    TimesSuccessor(d, q);
    TimesConstant(d);
    if r < d { QuotientBelow(n, d, q, r, B64); } else { QuotientBelow(n, d, q + 1, r - d, B64); }
  }

  lemma TimesScaled(x: nat, y: nat)
    ensures Times(x, y * B32) == Times(x, y) * B32
  {
    assert x * (y * B32) == x * y * B32;
  }

  // ----- MultiplyAndDivide64 without a 128-bit type

  function MultiplyAndDivide64(a: u64, b: u64, d: u64): u64
    requires d > 0
  {
    (Times(Quot(a, d), b) + Times(Rem(a, d), Quot(b, d)) + Quot(Times(Rem(a, d), Rem(b, d)) % B64, d)) % B64
  }

  /** The quotient of a product, from quotients and remainders of the factors. */
  lemma ProductQuotient(a: nat, b: nat, d: nat)
    requires d > 0
    ensures Quot(Times(a, b), d) == Times(Quot(a, d), b) + Times(Rem(a, d), Quot(b, d)) + Quot(Times(Rem(a, d), Rem(b, d)), d)
  {
    var qa, ra, qb, rb := Quot(a, d), Rem(a, d), Quot(b, d), Rem(b, d);
    QuotRem(a, d);
    QuotRem(b, d);
    var x := Times(ra, rb);
    QuotRem(x, d);
    var q := Times(qa, b) + Times(ra, qb) + Quot(x, d);
    Expand(a, b, d, qa, ra, qb, rb);
    TimesAdds(d, Times(qa, b) + Times(ra, qb), Quot(x, d));
    DividesUnique(Times(a, b), d, q, Rem(x, d));
  }

  lemma Expand(a: nat, b: nat, d: nat, qa: nat, ra: nat, qb: nat, rb: nat)
    requires a == Times(d, qa) + ra && b == Times(d, qb) + rb
    ensures Times(a, b) == Times(d, Times(qa, b) + Times(ra, qb)) + Times(ra, rb)
  {
    assert a * b == d * qa * b + ra * b;
    assert ra * b == ra * (d * qb) + ra * rb;
    assert d * (qa * b + ra * qb) == d * qa * b + ra * (d * qb);
  }

  /** The result is the quotient modulo 2 to the power 64 exactly when the product of the remainders fits in 64 bits. */
  lemma MultiplyAndDivideExact(a: u64, b: u64, d: u64)
    requires d > 0
    ensures MultiplyAndDivide64(a, b, d) == Quot(Times(a, b), d) % B64 <==> Times(Rem(a, d), Rem(b, d)) < B64
  {
    hide Times, Quot, Rem;
    var x := Times(Rem(a, d), Rem(b, d));
    var front := Times(Quot(a, d), b) + Times(Rem(a, d), Quot(b, d));
    ProductQuotient(a, b, d);
    if x >= B64 {
      Overflown(Rem(a, d), Rem(b, d), d);
      var k := Quot(x, d) - Quot(x % B64, d);
      Differ(front + Quot(x % B64, d), k);
    }
  }

  /** The true quotient is 0x1_FFFF_FFFE; the product of the remainders, over 2 to the power 64, was cut. */
  lemma MultiplyAndDivideFails()
    ensures var x, d: u64 := 0x1_FFFF_FFFF, 0x2_0000_0000;
            MultiplyAndDivide64(x, x, d) == 0x7FFF_FFFE && Quot(Times(x, x), d) == 0x1_FFFF_FFFE
  {
  }

  lemma Overflown(ra: nat, rb: nat, d: u64)
    requires d > 0 && ra < d && rb < d && Times(ra, rb) >= B64
    ensures 1 <= Quot(Times(ra, rb), d) - Quot(Times(ra, rb) % B64, d) < B64
  {
    var x, y := Times(ra, rb), Times(ra, rb) % B64;
    QuotRem(x, d);
    QuotRem(y, d);
    hide Times, Quot, Rem;
    TimesMonotone(ra, rb, d);
    TimesMonotone(d, ra + 1, d);
    TimesSuccessor(d, ra);
    TimesCommutes(ra, d);
    QuotientBelow(x, d, Quot(x, d), Rem(x, d), d);
    assert x >= y + d;
    if Quot(x, d) <= Quot(y, d) { TimesMonotone(d, Quot(x, d), Quot(y, d)); }
  }

  lemma Differ(n: nat, k: nat)
    requires 1 <= k < B64
    ensures n % B64 != (n + k) % B64
  {
  }

  // ----- the clock

  /** `GetFixedPoint64Factor`: `numerator / divisor` in units of 2 to the power -64, cut to 64 bits. */
  function FixedPoint64Factor(numerator: u64, divisor: u64): u64
    requires divisor > 0
  {
    Quot(numerator * B64, divisor) % B64
  }

  /** The last branch of `GetFixedPoint64Factor`, for compilers without a 128-bit division. */
  function PortableFactor(numerator: u64, divisor: u64): u64
    requires divisor > 0
  {
    MultiplyAndDivide64(B64 - 1, numerator, divisor)
  }

  lemma QuotUnique(n: nat, d: nat, q: nat, r: nat)
    requires Divides(n, d, q, r)
    ensures Quot(n, d) == q && Rem(n, d) == r
  {
    DividesUnique(n, d, q, r);
  }

  /** A numerator below the divisor: one less in the other factor lowers the quotient by at most one. */
  lemma NearQuotients(n: u64, d: u64)
    requires n < d
    ensures var q := Quot(Times(B64 - 1, n), d);
            q <= FixedPoint64Factor(n, d) <= q + 1 && q < B64 && Rem(n, d) == n
  {
    FactorFits(n, d);
    var all, x := n * B64, Times(B64 - 1, n);
    QuotRem(x, d);
    var q, r := Quot(x, d), Rem(x, d);
    hide Quot, Rem, Times;
    TimesCommutes(B64 - 1, n);
    TimesConstant(n);
    TimesSuccessor(d, q);
    if r + n < d { QuotUnique(all, d, q, r + n); } else { QuotUnique(all, d, q + 1, r + n - d); }
    TimesNothing(d);
    QuotUnique(n, d, 0, n);
  }

  lemma TimesNothing(x: nat)
    ensures Times(x, 0) == 0
  {
  }

  /** The cut product of the remainders costs at least two when the divisor is at most half of 2 to the power 64. */
  lemma OverflownTwice(ra: nat, rb: nat, d: u64)
    requires 0 < d <= 0x8000_0000_0000_0000 && ra < d && rb < d && Times(ra, rb) >= B64
    ensures 2 <= Quot(Times(ra, rb), d) - Quot(Times(ra, rb) % B64, d) < d
  {
    var x, y := Times(ra, rb), Times(ra, rb) % B64;
    QuotRem(x, d);
    QuotRem(y, d);
    hide Times, Quot, Rem;
    TimesMonotone(ra, rb, d);
    TimesMonotone(d, ra + 1, d);
    TimesSuccessor(d, ra);
    TimesCommutes(ra, d);
    QuotientBelow(x, d, Quot(x, d), Rem(x, d), d);
    assert x >= y + 2 * d;
    if Quot(x, d) <= Quot(y, d) + 1 {
      TimesMonotone(d, Quot(x, d), Quot(y, d) + 1);
      TimesSuccessor(d, Quot(y, d));
    }
  }

  /**
   For a numerator below the divisor and a divisor up to 2 to the power 63, the portable factor is the exact
   one or one below it exactly when the product of the two remainders fits in 64 bits.
   */
  lemma PortableFactorExact(n: u64, d: u64)
    requires n < d <= 0x8000_0000_0000_0000
    ensures PortableFactor(n, d) <= FixedPoint64Factor(n, d) <= PortableFactor(n, d) + 1
       <==> Times(Rem(B64 - 1, d), n) < B64
  {
    hide Times, Quot, Rem, FixedPoint64Factor;
    NearQuotients(n, d);
    MultiplyAndDivideExact(B64 - 1, n, d);
    var ra := Rem(B64 - 1, d);
    var x := Times(ra, n);
    if x >= B64 {
      ProductQuotient(B64 - 1, n, d);
      OverflownTwice(ra, n, d);
      var front := Times(Quot(B64 - 1, d), n) + Times(ra, Quot(n, d));
      Lowered(front + Quot(x % B64, d), Quot(x, d) - Quot(x % B64, d), Quot(Times(B64 - 1, n), d),
              FixedPoint64Factor(n, d), d);
    }
  }

  lemma Lowered(low: nat, k: nat, q: nat, f: nat, d: nat)
    requires low + k == q < B64 && 2 <= k < d <= B64 / 2 && q <= f <= q + 1
    ensures !(low % B64 <= f <= low % B64 + 1)
  {
  }

  /** With that factor the clock is at most two below the exact time. */
  lemma PortableClockClose(t: u64, units: u64, frequency: u64)
    requires units < frequency && Times(Rem(B64 - 1, frequency), units) < B64
    ensures var time, exact := MultiplyHigh(t, PortableFactor(units, frequency)), Quot(Times(t, units), frequency);
            time <= exact <= time + 2
  {
    hide Times, Quot, Rem, FixedPoint64Factor, PortableFactor, MultiplyHigh;
    var p, f := PortableFactor(units, frequency), FixedPoint64Factor(units, frequency);
    NearFactors(units, frequency);
    ClockClose(t, units, frequency);
    MultiplyHighIs(t, p);
    MultiplyHighIs(t, f);
    if p < f { TimesSuccessor(t, p); }
    NearHigh(Times(t, p), Times(t, f), t);
  }

  lemma NearFactors(n: u64, d: u64)
    requires n < d && Times(Rem(B64 - 1, d), n) < B64
    ensures PortableFactor(n, d) <= FixedPoint64Factor(n, d) <= PortableFactor(n, d) + 1
  {
    hide Times, Quot, Rem, FixedPoint64Factor;
    NearQuotients(n, d);
    MultiplyAndDivideExact(B64 - 1, n, d);
  }

  lemma NearHigh(x: nat, y: nat, t: u64)
    requires x <= y <= x + t
    ensures x / B64 <= y / B64 <= x / B64 + 1
  {
  }

  /** Two to the power 33 ticks a second, one unit less: the factor is far too low. */
  lemma PortableFactorFails()
    ensures var n, d: u64 := 0x1_FFFF_FFFF, 0x2_0000_0000;
            FixedPoint64Factor(n, d) == 0xFFFF_FFFF_8000_0000 && PortableFactor(n, d) == 0xFFFF_FFFD_FFFF_FFFF
  {
  }

  /** Ticks converted to time units, of which there are `units` in a second of `frequency` ticks. */
  function ClockTime(ticks: u64, units: u64, frequency: u64): u64
    requires frequency > 0
  {
    MultiplyHigh(ticks, FixedPoint64Factor(units, frequency))
  }

  lemma ClockMonotone(t: u64, t': u64, units: u64, frequency: u64)
    requires t <= t' && frequency > 0
    ensures ClockTime(t, units, frequency) <= ClockTime(t', units, frequency)
  {
    var f := FixedPoint64Factor(units, frequency);
    hide FixedPoint64Factor;
    MultiplyHighIs(t, f);
    MultiplyHighIs(t', f);
    TimesCommutes(t, f);
    TimesCommutes(t', f);
    TimesMonotone(f, t, t');
  }

  /** At most one below the exact time. */
  predicate Close(ticks: u64, units: u64, frequency: u64)
    requires frequency > 0
  {
    var time, exact := ClockTime(ticks, units, frequency), Quot(Times(ticks, units), frequency);
    time <= exact <= time + 1
  }

  lemma FactorFits(units: u64, frequency: u64)
    requires 0 < frequency && units < frequency
    ensures FixedPoint64Factor(units, frequency) == Quot(units * B64, frequency)
  {
    hide Times, Quot, Rem;
    var n := units * B64;
    QuotRem(n, frequency);
    TimesConstant(frequency);
    QuotientBelow(n, frequency, Quot(n, frequency), Rem(n, frequency), B64);
  }

  /** The clock is close for all tick counts if there are fewer time units than ticks in a second. */
  lemma ClockClose(t: u64, units: u64, frequency: u64)
    requires 0 < frequency && units < frequency
    ensures Close(t, units, frequency)
  {
    var f := FixedPoint64Factor(units, frequency);
    FactorFits(units, frequency);
    HighPart(t, f);
    hide Times, Quot, Rem, MultiplyHigh, FixedPoint64Factor;
    QuotRem(units * B64, frequency);
    QuotRem(Times(t, units), frequency);
    var time := MultiplyHigh(t, f);
    CloseTo(t, units, frequency, f, Rem(units * B64, frequency), time, Times(t, f) - time * B64,
            Quot(Times(t, units), frequency), Rem(Times(t, units), frequency));
  }

  lemma HighPart(a: u64, b: u64)
    ensures 0 <= Times(a, b) - MultiplyHigh(a, b) * B64 < B64
  {
    hide MultiplyHigh;
    MultiplyHighIs(a, b);
  }

  lemma CloseTo(t: u64, units: nat, d: nat, f: nat, r: nat, time: nat, s: nat, exact: nat, e: nat)
    requires units * B64 == Times(d, f) + r && r < d
    requires Times(t, f) == time * B64 + s && s < B64
    requires Times(t, units) == Times(d, exact) + e && e < d
    ensures time <= exact <= time + 1
  {
    hide Times;
    Scaled(t, units, d, f, r);
    Distribute(d, time, s);
    TimesMonotone(t, r, d);
    TimesCommutes(t, d);
    TimesMonotone(d, t, B64 - 1);
    TimesMonotone(d, s, B64 - 1);
    TimesConstant(d);
    Between(Times(d, exact), Times(d, time), Times(d, s), Times(t, r), e, d);
    if exact < time {
      TimesMonotone(d, exact + 1, time);
      TimesSuccessor(d, exact);
    } else if exact > time + 1 {
      TimesMonotone(d, time + 2, exact);
      TimesSuccessor(d, time);
      TimesSuccessor(d, time + 1);
    }
  }

  lemma Between(x: nat, y: nat, s: nat, r: nat, e: nat, d: nat)
    requires (x + e) * B64 == y * B64 + s + r && e < d && s <= d * (B64 - 1) && r <= d * (B64 - 1)
    ensures y - d < x < y + 2 * d
  {
  }

  lemma Scaled(t: nat, units: nat, d: nat, f: nat, r: nat)
    requires units * B64 == Times(d, f) + r
    ensures Times(t, units) * B64 == Times(d, Times(t, f)) + Times(t, r)
  {
    assert t * units * B64 == t * (units * B64);
    assert t * (d * f + r) == d * (t * f) + t * r;
  }

  lemma Distribute(d: nat, time: nat, s: nat)
    ensures Times(d, time * B64 + s) == Times(d, time) * B64 + Times(d, s)
  {
    assert d * (time * B64 + s) == d * time * B64 + d * s;
  }

  /** With as many time units as ticks or more, the factor does not fit, and the largest tick count shows it. */
  lemma ClockNotClose(units: u64, frequency: u64)
    requires 0 < frequency <= units
    ensures !Close(B64 - 1, units, frequency)
  {
    var t: u64 := B64 - 1;
    var f := FixedPoint64Factor(units, frequency);
    hide Times, Quot, Rem, MultiplyHigh, FixedPoint64Factor;
    if units == frequency {
      NoFactor(units);
      SameUnits(t, units);
      HighPart(t, 0);
      TimesZero(t);
    } else {
      HighPart(t, f);
      TimesBelow(t, f);
      FarTime(units, frequency);
    }
  }

  lemma TimesZero(x: nat)
    ensures Times(x, 0) == 0
  {
  }

  /** As many units as ticks: the factor is cut to nothing. */
  lemma NoFactor(units: u64)
    requires units > 0
    ensures FixedPoint64Factor(units, units) == 0
  {
    TimesConstant(units);
    hide Times;
    DividesUnique(units * B64, units, B64, 0);
  }

  lemma SameUnits(t: nat, units: nat)
    requires units > 0
    ensures Quot(Times(t, units), units) == t
  {
    TimesCommutes(t, units);
    hide Times;
    DividesUnique(Times(t, units), units, t, 0);
  }

  /** More units than ticks: the exact time does not fit in 64 bits. */
  lemma FarTime(units: u64, frequency: u64)
    requires 0 < frequency < units
    ensures Quot(Times(B64 - 1, units), frequency) >= B64
  {
    hide Times, Quot, Rem;
    var t := B64 - 1;
    var exact := Quot(Times(t, units), frequency);
    QuotRem(Times(t, units), frequency);
    TimesMonotone(t, frequency + 1, units);
    TimesSuccessor(t, frequency);
    TimesCommutes(t, frequency);
    TimesSuccessor(frequency, t);
    TimesSuccessor(frequency, exact);
    if exact < B64 { TimesMonotone(frequency, exact + 1, B64); }
  }

  /** The exact condition for the conversion. */
  lemma ClockExact(units: u64, frequency: u64)
    requires frequency > 0
    ensures (forall t: u64 :: Close(t, units, frequency)) <==> units < frequency
  {
    hide Close;
    if units < frequency {
      forall t: u64 ensures Close(t, units, frequency) {
        ClockClose(t, units, frequency);
      }
    } else {
      ClockNotClose(units, frequency);
    }
  }
}
