/**
 Canonical prefix codes as section 3.2.2 of RFC 1951 defines them, independently of any
 decoding table.  A code is given by its list of code lengths (0 means "symbol unused"); every
 length is at most 15.  Windows are the next sixteen bits of a DEFLATE stream, first bit lowest.
 */
module CanonicalCode {

  const MAX_BITS := 15

  // ----- shifts and masks of unsigned numbers

  /** `n << k`, without truncation. */
  function Shl(n: nat, k: nat): (r: nat)
    ensures n > 0 ==> r > 0
  {
    if k == 0 then n else 2 * Shl(n, k - 1)
  }

  /** `n >> k`. */
  function Shr(n: nat, k: nat): (r: nat)
    ensures r <= n
  {
    if k == 0 then n else Shr(n / 2, k - 1)
  }

  function Pow2(n: nat): nat {
    Shl(1, n)
  }

  /** `v & ((1 << n) - 1)`. */
  function Low(v: nat, n: nat): (r: nat)
    ensures r < Pow2(n)
  {
    if n == 0 then 0 else 2 * Low(v / 2, n - 1) + v % 2
  }

  /** The low `n` bits of `v` read in the opposite order. */
  function Rev(v: nat, n: nat): (r: nat)
    ensures r < Pow2(n)
  {
    if n == 0 then 0 else 2 * Rev(v, n - 1) + Shr(v, n - 1) % 2
  }

  // ----- the code

  /** How often length `s` occurs in `ls` (`bl_count` of RFC 1951). */
  function Count(ls: seq<nat>, s: nat): (c: nat)
    ensures c <= |ls|
  {
    if ls == [] then 0
    else Count(ls[..|ls| - 1], s) + if ls[|ls| - 1] == s then 1 else 0
  }

  /** Smallest code of length `s` (`next_code` of RFC 1951, step 2). */
  function FirstCode(ls: seq<nat>, s: nat): nat
    requires s > 0
  {
    if s == 1 then 0 else 2 * (FirstCode(ls, s - 1) + Count(ls, s - 1))
  }

  /** Code given to symbol `j` (RFC 1951, step 3). */
  function CodeOf(ls: seq<nat>, j: nat): nat
    requires j < |ls| && ls[j] > 0
  {
    FirstCode(ls, ls[j]) + Count(ls[..j], ls[j])
  }

  predicate Lengths(ls: seq<nat>) {
    forall j :: 0 <= j < |ls| ==> ls[j] <= MAX_BITS
  }

  /** The Kraft sum of the lengths in units of 2^-16, taken symbol by symbol. */
  function KraftSum(ls: seq<nat>): nat
    requires Lengths(ls)
  {
    if ls == [] then 0
    else
      var x := ls[|ls| - 1];
      KraftSum(ls[..|ls| - 1]) + if x > 0 then Pow2(16 - x) else 0
  }

  /** First sixteen-bit value above every code of length at most `s`. */
  function Limit(ls: seq<nat>, s: nat): nat
    requires 0 < s <= 16
  {
    Shl(FirstCode(ls, s) + Count(ls, s), 16 - s)
  }

  /** The lengths satisfy Kraft's inequality, so that a prefix code with these lengths exists. */
  ghost predicate Feasible(ls: seq<nat>) {
    Lengths(ls) && KraftSum(ls) <= 0x10000
  }

  /** Bit `t` of a stream window, first bit of the stream at position 0. */
  function WindowBit(w: nat, t: nat): nat {
    Shr(w, t) % 2
  }

  /** Bit `t` of a code of `len` bits, most significant bit first. */
  function CodeBit(c: nat, len: nat, t: nat): nat
    requires t < len
  {
    Shr(c, len - 1 - t) % 2
  }

  /** The stream window starts with the code word of symbol `j`, bit by bit. */
  ghost predicate StartsWith(ls: seq<nat>, j: nat, w: nat) {
    && j < |ls| && ls[j] > 0
    && forall t :: 0 <= t < ls[j] ==> CodeBit(CodeOf(ls, j), ls[j], t) == WindowBit(w, t)
  }

  /** The same, as one comparison of numbers. */
  ghost predicate Hits(ls: seq<nat>, j: nat, w: nat) {
    j < |ls| && ls[j] > 0 && Rev(w, ls[j]) == CodeOf(ls, j)
  }

  // ----- laws of shifts and of bit reversal

  lemma {:induction false} ShlAdd(a: nat, b: nat, k: nat)
    ensures Shl(a + b, k) == Shl(a, k) + Shl(b, k)
  {
    if k > 0 { ShlAdd(a, b, k - 1); }
  }

  lemma ShlMonotone(a: nat, b: nat, k: nat)
    requires a <= b
    ensures Shl(a, k) <= Shl(b, k)
  {
    ShlAdd(a, b - a, k);
  }

  lemma {:induction false} ShlDouble(n: nat, k: nat)
    ensures Shl(2 * n, k) == 2 * Shl(n, k)
  {
    if k > 0 { ShlDouble(n, k - 1); }
  }

  lemma {:induction false} ShlShl(n: nat, a: nat, b: nat)
    ensures Shl(Shl(n, a), b) == Shl(n, a + b)
  {
    if b > 0 { ShlShl(n, a, b - 1); }
  }

  /** A right shift finds the unique left-shifted cell that a number lies in. */
  lemma {:induction false} ShrCell(x: nat, k: nat, c: nat)
    ensures Shr(x, k) == c <==> Shl(c, k) <= x < Shl(c + 1, k)
  {
    if k > 0 { ShrCell(x / 2, k - 1, c); }
  }

  lemma {:induction false} ShrLast(x: nat, k: nat)
    ensures Shr(x, k + 1) == Shr(x, k) / 2
  {
    if k > 0 { ShrLast(x / 2, k - 1); }
  }

  lemma Pow2Values()
    ensures Pow2(9) == 512 && Pow2(16) == 0x10000
  {
    assert Shl(1, 5) == 32;
    assert Shl(1, 13) == 0x2000;
  }

  lemma {:induction false} Pow2Monotone(a: nat, b: nat)
    requires a <= b
    ensures Pow2(a) <= Pow2(b)
  {
    if a < b { Pow2Monotone(a, b - 1); }
  }

  /** The leading bits of a reversed number are its low bits reversed. */
  lemma {:induction false} RevTop(w: nat, n: nat, l: nat)
    requires l <= n
    ensures Shr(Rev(w, n), n - l) == Rev(w, l)
  {
    if l < n {
      assert Rev(w, n) / 2 == Rev(w, n - 1);
      RevTop(w, n - 1, l);
    }
  }

  lemma {:induction false} RevBits(w: nat, c: nat, l: nat)
    requires c < Pow2(l)
    ensures Rev(w, l) == c <==> forall t :: 0 <= t < l ==> CodeBit(c, l, t) == WindowBit(w, t)
  {
    if l > 0 {
      RevBits(w, c / 2, l - 1);
      assert forall t :: 0 <= t < l - 1 ==> CodeBit(c, l, t) == CodeBit(c / 2, l - 1, t);
      assert CodeBit(c, l, l - 1) == c % 2;
    }
  }

  lemma RevWindow(c: nat, n: nat, t: nat)
    requires t < n
    ensures WindowBit(Rev(c, n), t) == CodeBit(c, n, t)
  {
    RevTop(c, n, n - t);
  }

  lemma RevInvolution(c: nat, n: nat)
    requires c < Pow2(n)
    ensures Rev(Rev(c, n), n) == c
  {
    forall t | 0 <= t < n ensures CodeBit(c, n, t) == WindowBit(Rev(c, n), t) {
      RevWindow(c, n, t);
    }
    RevBits(Rev(c, n), c, n);
  }

  lemma {:induction false} LowBit(v: nat, n: nat, t: nat)
    requires t < n
    ensures WindowBit(Low(v, n), t) == WindowBit(v, t)
  {
    if t > 0 { LowBit(v / 2, n - 1, t - 1); }
  }

  /** Only the low `l` bits matter to a reversal of `l` bits. */
  lemma {:induction false} RevLow(v: nat, n: nat, l: nat)
    requires l <= n
    ensures Rev(Low(v, n), l) == Rev(v, l)
  {
    if l > 0 {
      RevLow(v, n, l - 1);
      LowBit(v, n, l - 1);
    }
  }

  lemma {:induction false} LowFixed(v: nat, n: nat)
    requires v < Pow2(n)
    ensures Low(v, n) == v
  {
    if n > 0 { LowFixed(v / 2, n - 1); }
  }

  /** Masking is a remainder. */
  lemma {:induction false} LowStep(v: nat, n: nat)
    ensures Low(v + Pow2(n), n) == Low(v, n)
  {
    if n > 0 {
      assert (v + Pow2(n)) / 2 == v / 2 + Pow2(n - 1);
      LowStep(v / 2, n - 1);
    }
  }

  // ----- code words take disjoint intervals of windows

  lemma {:induction false} CountMonotone(ls: seq<nat>, i: nat, j: nat, s: nat)
    requires i <= j <= |ls|
    ensures Count(ls[..i], s) <= Count(ls[..j], s)
    ensures i < j && ls[i] == s ==> Count(ls[..i], s) < Count(ls[..j], s)
  {
    if i < j {
      CountMonotone(ls, i, j - 1, s);
      assert ls[..j][..j - 1] == ls[..j - 1];
    }
  }

  lemma LimitStep(ls: seq<nat>, s: nat)
    requires 0 < s < 16
    ensures Shl(FirstCode(ls, s + 1), 16 - (s + 1)) == Limit(ls, s)
    ensures Limit(ls, s + 1) == Limit(ls, s) + Shl(Count(ls, s + 1), 16 - (s + 1))
  {
    ShlDouble(FirstCode(ls, s) + Count(ls, s), 15 - s);
    ShlAdd(FirstCode(ls, s + 1), Count(ls, s + 1), 15 - s);
  }

  lemma {:induction false} LimitMonotone(ls: seq<nat>, s: nat, s': nat)
    requires 0 < s <= s' <= 16
    ensures Limit(ls, s) <= Limit(ls, s')
  {
    if s < s' {
      LimitMonotone(ls, s, s' - 1);
      LimitStep(ls, s' - 1);
    }
  }

  lemma {:induction false} LimitAppend(ls: seq<nat>, x: nat, s: nat)
    requires 0 < s <= 16
    ensures Limit(ls + [x], s) == Limit(ls, s) + if 1 <= x <= s then Pow2(16 - x) else 0
  {
    var ls' := ls + [x];
    assert ls'[..|ls'| - 1] == ls;
    ShlAdd(Count(ls, s), 1, 16 - s);
    if s > 1 {
      LimitAppend(ls, x, s - 1);
      LimitStep(ls, s - 1);
      LimitStep(ls', s - 1);
    }
  }

  lemma {:induction false} EmptyLimit(s: nat)
    requires 0 < s <= 16
    ensures Limit([], s) == 0
  {
    ShlAdd(0, 0, 16 - s);
    if s > 1 {
      EmptyLimit(s - 1);
      LimitStep([], s - 1);
    }
  }

  /** The Kraft sum is where the longest codes end. */
  lemma {:induction false} KraftIsLimit(ls: seq<nat>)
    requires Lengths(ls)
    ensures KraftSum(ls) == Limit(ls, MAX_BITS)
  {
    if ls == [] {
      EmptyLimit(MAX_BITS);
    } else {
      var front := ls[..|ls| - 1];
      KraftIsLimit(front);
      LimitAppend(front, ls[|ls| - 1], MAX_BITS);
      assert front + [ls[|ls| - 1]] == ls;
    }
  }

  lemma BoundBelowPow2(n: nat, s: nat)
    requires s <= 16 && Shl(n, 16 - s) <= 0x10000
    ensures n <= Pow2(s)
  {
    Pow2Values();
    ShlShl(1, s, 16 - s);
    if n > Pow2(s) {
      ShlMonotone(Pow2(s) + 1, n, 16 - s);
      ShlAdd(Pow2(s), 1, 16 - s);
      assert false;
    }
  }

  /** Under Kraft's inequality no length overflows its own number of bits. */
  lemma LimitFits(ls: seq<nat>, s: nat)
    requires Feasible(ls) && 0 < s <= 15
    ensures Limit(ls, s) <= 0x10000
    ensures FirstCode(ls, s) + Count(ls, s) <= Pow2(s)
  {
    KraftIsLimit(ls);
    LimitMonotone(ls, s, MAX_BITS);
    BoundBelowPow2(FirstCode(ls, s) + Count(ls, s), s);
  }

  /** A used symbol's code is one of its length's codes. */
  lemma CodeInterval(ls: seq<nat>, j: nat)
    requires Lengths(ls) && j < |ls| && ls[j] > 0
    ensures var l := ls[j];
            && FirstCode(ls, l) <= CodeOf(ls, j) < FirstCode(ls, l) + Count(ls, l)
            && Shl(CodeOf(ls, j) + 1, 16 - l) <= Limit(ls, l)
  {
    var l := ls[j];
    CountMonotone(ls, j, |ls|, l);
    assert ls[..|ls|] == ls;
    ShlMonotone(CodeOf(ls, j) + 1, FirstCode(ls, l) + Count(ls, l), 16 - l);
  }

  lemma CodeFits(ls: seq<nat>, j: nat)
    requires Feasible(ls) && j < |ls| && ls[j] > 0
    ensures CodeOf(ls, j) < Pow2(ls[j])
  {
    CodeInterval(ls, j);
    LimitFits(ls, ls[j]);
  }

  /** Earlier code words (shorter, or equally long with a smaller symbol) end before later ones begin. */
  lemma CodesOrdered(ls: seq<nat>, i: nat, j: nat)
    requires Lengths(ls) && i < |ls| && j < |ls| && ls[i] > 0 && ls[j] > 0
    requires ls[i] < ls[j] || (ls[i] == ls[j] && i < j)
    ensures Shl(CodeOf(ls, i) + 1, 16 - ls[i]) <= Shl(CodeOf(ls, j), 16 - ls[j])
  {
    var l := ls[j];
    if ls[i] == l {
      CountMonotone(ls, i, j, l);
      ShlMonotone(CodeOf(ls, i) + 1, CodeOf(ls, j), 16 - l);
    } else {
      CodeInterval(ls, i);
      CodeInterval(ls, j);
      LimitMonotone(ls, ls[i], l - 1);
      LimitStep(ls, l - 1);
      ShlMonotone(FirstCode(ls, l), CodeOf(ls, j), 16 - l);
    }
  }

  /** Hitting a window means that the window, most significant bit first, is in the code's interval. */
  lemma HitsInterval(ls: seq<nat>, j: nat, w: nat)
    requires Lengths(ls) && j < |ls| && ls[j] > 0
    ensures Hits(ls, j, w)
       <==> Shl(CodeOf(ls, j), 16 - ls[j]) <= Rev(w, 16) < Shl(CodeOf(ls, j) + 1, 16 - ls[j])
  {
    RevTop(w, 16, ls[j]);
    ShrCell(Rev(w, 16), 16 - ls[j], CodeOf(ls, j));
  }

  lemma HitsUnique(ls: seq<nat>, i: nat, j: nat, w: nat)
    requires Lengths(ls) && Hits(ls, i, w) && Hits(ls, j, w)
    ensures i == j
  {
    HitsInterval(ls, i, w);
    HitsInterval(ls, j, w);
    if ls[i] < ls[j] || (ls[i] == ls[j] && i < j) {
      CodesOrdered(ls, i, j);
      assert false;
    } else if i != j {
      CodesOrdered(ls, j, i);
      assert false;
    }
  }

  lemma HitsStartsWith(ls: seq<nat>, j: nat, w: nat)
    requires Feasible(ls)
    ensures Hits(ls, j, w) <==> StartsWith(ls, j, w)
  {
    if j < |ls| && ls[j] > 0 {
      CodeFits(ls, j);
      RevBits(w, CodeOf(ls, j), ls[j]);
    }
  }

  /** The canonical code is a prefix code: a window starts with at most one code word. */
  lemma PrefixFree(ls: seq<nat>, i: nat, j: nat, w: nat)
    requires Feasible(ls) && StartsWith(ls, i, w) && StartsWith(ls, j, w)
    ensures i == j
  {
    HitsStartsWith(ls, i, w);
    HitsStartsWith(ls, j, w);
    HitsUnique(ls, i, j, w);
  }

  // ----- from a code value back to the symbol

  /** Position of occurrence number `n` of length `s`. */
  lemma {:induction false} NthOccurrence(ls: seq<nat>, s: nat, n: nat) returns (j: nat)
    requires n < Count(ls, s)
    ensures j < |ls| && ls[j] == s && Count(ls[..j], s) == n
  {
    var front := ls[..|ls| - 1];
    if n < Count(front, s) {
      j := NthOccurrence(front, s, n);
      assert front[..j] == ls[..j];
    } else {
      j := |ls| - 1;
    }
  }

  /** A window between two limits starts with a code word of exactly the upper length. */
  lemma BetweenLimits(ls: seq<nat>, s: nat, w: nat) returns (j: nat)
    requires Lengths(ls) && 0 < s <= 15
    requires s > 1 ==> Limit(ls, s - 1) <= Rev(w, 16)
    requires Rev(w, 16) < Limit(ls, s)
    ensures Hits(ls, j, w) && ls[j] == s
    ensures Count(ls[..j], s) == Shr(Rev(w, 16), 16 - s) - FirstCode(ls, s)
  {
    var k, u := Rev(w, 16), 16 - s;
    var c, first, end := Shr(k, u), FirstCode(ls, s), FirstCode(ls, s) + Count(ls, s);
    ShrCell(k, u, c);
    if c < first {
      ShlMonotone(c + 1, first, u);
      LimitStep(ls, s - 1);
      assert false;
    }
    if c >= end {
      ShlMonotone(end, c, u);
      assert false;
    }
    j := NthOccurrence(ls, s, c - first);
    RevTop(w, 16, s);
  }

  /** Below the limit of length `s` every window starts with some code word of at most `s` bits. */
  lemma {:induction false} Covered(ls: seq<nat>, s: nat, w: nat) returns (j: nat)
    requires Lengths(ls) && 0 < s <= 15 && Rev(w, 16) < Limit(ls, s)
    ensures Hits(ls, j, w) && ls[j] <= s
  {
    if s > 1 && Rev(w, 16) < Limit(ls, s - 1) {
      j := Covered(ls, s - 1, w);
    } else {
      j := BetweenLimits(ls, s, w);
    }
  }

  /** A window that starts with a code word of at most `s` bits is below the limit of `s`. */
  lemma HitsBelowLimit(ls: seq<nat>, j: nat, w: nat, s: nat)
    requires Lengths(ls) && Hits(ls, j, w) && ls[j] <= s <= 15
    ensures Rev(w, 16) < Limit(ls, s)
  {
    HitsInterval(ls, j, w);
    CodeInterval(ls, j);
    LimitMonotone(ls, ls[j], s);
  }
}
