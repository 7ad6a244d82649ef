/**
 The Huffman decoding tables of the PNG inflater: `stbi__zbuild_huffman`, the nine-bit fast table
 with its slow path, and the bit buffer they read from.
 */
module ZlibHuffman {
  import opened CanonicalCode

  const FAST_BITS := 9
  const FAST_SIZE := 512
  const NUM_SYMBOLS := 288

  // ----- bit reversal by masks

  /** `stbi__bitreverse16`: swap neighbours, pairs, nibbles, bytes. */
  function BitReverse16(n: bv32): bv32 {
    var n1 := ((n & 0xAAAA) >> 1) | ((n & 0x5555) << 1);
    var n2 := ((n1 & 0xCCCC) >> 2) | ((n1 & 0x3333) << 2);
    var n3 := ((n2 & 0xF0F0) >> 4) | ((n2 & 0x0F0F) << 4);
    ((n3 & 0xFF00) >> 8) | ((n3 & 0x00FF) << 8)
  }

  // Dafny's own conversions between numbers and bit vectors are opaque to the solver; these two
  // convert bit by bit, and only the low sixteen bits matter to `BitReverse16`.

  function ToWord(v: nat, n: nat): bv32 {
    if n == 0 then 0 else (ToWord(v / 2, n - 1) << 1) | if v % 2 == 1 then 1 else 0
  }

  function FromWord(w: bv32, n: nat): (r: nat)
    ensures r < Pow2(n)
  {
    if n == 0 then 0 else 2 * FromWord(w >> 1, n - 1) + if w & 1 == 1 then 1 else 0
  }

  predicate BitAt(w: bv32, j: bv32)
    requires j < 32
  {
    (w >> j) & 1 == 1
  }

  function Idx(t: nat): (j: bv32)
    requires t < 16
    ensures j < 16
  {
    if t == 0 then 0 else if t == 1 then 1 else if t == 2 then 2 else if t == 3 then 3
    else if t == 4 then 4 else if t == 5 then 5 else if t == 6 then 6 else if t == 7 then 7
    else if t == 8 then 8 else if t == 9 then 9 else if t == 10 then 10 else if t == 11 then 11
    else if t == 12 then 12 else if t == 13 then 13 else if t == 14 then 14 else 15
  }

  lemma PushBit(x: bv32, b: bool, j: bv32)
    requires 0 < j < 16
    ensures BitAt((x << 1) | if b then 1 else 0, 0) == b
    ensures BitAt((x << 1) | if b then 1 else 0, j) == BitAt(x, j - 1)
  {
  }

  lemma {:induction false} ToWordBit(v: nat, n: nat, t: nat)
    requires t < n <= 16
    ensures BitAt(ToWord(v, n), Idx(t)) <==> WindowBit(v, t) == 1
  {
    if t == 0 {
      PushBit(ToWord(v / 2, n - 1), v % 2 == 1, 1);
    } else {
      PushBit(ToWord(v / 2, n - 1), v % 2 == 1, Idx(t));
      assert Idx(t - 1) == Idx(t) - 1;
      ToWordBit(v / 2, n - 1, t - 1);
    }
  }

  lemma PopBit(w: bv32, j: bv32)
    requires 0 < j < 16
    ensures BitAt(w >> 1, j - 1) == BitAt(w, j)
  {
  }

  lemma {:induction false} FromWordBit(w: bv32, n: nat, t: nat)
    requires t < n <= 16
    ensures WindowBit(FromWord(w, n), t) == 1 <==> BitAt(w, Idx(t))
  {
    if t > 0 {
      FromWordBit(w >> 1, n - 1, t - 1);
      assert Idx(t - 1) == Idx(t) - 1;
      PopBit(w, Idx(t));
      assert FromWord(w, n) / 2 == FromWord(w >> 1, n - 1);
    }
  }

  lemma SwapsReverse(w: bv32, j: bv32)
    requires j < 16
    ensures BitAt(BitReverse16(w), 15 - j) == BitAt(w, j)
  {
  }

  lemma IdxMirror(t: nat)
    requires t < 16
    ensures Idx(15 - t) == 15 - Idx(t)
  {
  }

  lemma MirroredBit(v: nat, t: nat)
    requires t < 16
    ensures WindowBit(FromWord(BitReverse16(ToWord(v, 16)), 16), 15 - t) == WindowBit(v, t)
  {
    var w := ToWord(v, 16);
    var x := BitReverse16(w);
    IdxMirror(t);
    SwapsReverse(w, Idx(t));
    ToWordBit(v, 16, t);
    FromWordBit(x, 16, 15 - t);
  }

  /** The mask-and-shift network reads the low sixteen bits backwards. */
  lemma BitReverse16Reverses(v: nat)
    ensures FromWord(BitReverse16(ToWord(v, 16)), 16) == Rev(v, 16)
  {
    var r := FromWord(BitReverse16(ToWord(v, 16)), 16);
    forall t | 0 <= t < 16 ensures CodeBit(r, 16, t) == WindowBit(v, t) {
      MirroredBit(v, t);
    }
    RevBits(v, r, 16);
  }

  /** `stbi__bit_reverse(v, bits)`. */
  function BitReverse(v: nat, bits: nat): (r: nat)
    requires bits <= 16
    ensures r == Rev(v, bits)
  {
    BitReverse16Reverses(v);
    RevTop(v, 16, bits);
    Shr(FromWord(BitReverse16(ToWord(v, 16)), 16), 16 - bits)
  }

  // ----- where symbols sit in the slow-path arrays

  /** Number of used symbols with a code shorter than `s` bits. */
  function SymbolsBelow(ls: seq<nat>, s: nat): nat {
    if s <= 1 then 0 else SymbolsBelow(ls, s - 1) + Count(ls, s - 1)
  }

  /** Rank of symbol `j` among the used symbols ordered by length, then by symbol. */
  function SlotOf(ls: seq<nat>, j: nat): nat
    requires j < |ls| && ls[j] > 0
  {
    SymbolsBelow(ls, ls[j]) + Count(ls[..j], ls[j])
  }

  lemma {:induction false} SymbolsBelowMonotone(ls: seq<nat>, s: nat, s': nat)
    requires s <= s'
    ensures SymbolsBelow(ls, s) <= SymbolsBelow(ls, s')
  {
    if s < s' { SymbolsBelowMonotone(ls, s, s' - 1); }
  }

  lemma {:induction false} SymbolsBelowAppend(ls: seq<nat>, x: nat, s: nat)
    ensures SymbolsBelow(ls + [x], s) == SymbolsBelow(ls, s) + if 1 <= x < s then 1 else 0
  {
    if s > 1 {
      SymbolsBelowAppend(ls, x, s - 1);
      assert (ls + [x])[..|ls|] == ls;
    }
  }

  lemma {:induction false} SymbolsBelowBound(ls: seq<nat>, s: nat)
    ensures SymbolsBelow(ls, s) <= |ls|
  {
    if ls == [] {
      if s > 1 { SymbolsBelowBound(ls, s - 1); }
    } else {
      var front := ls[..|ls| - 1];
      SymbolsBelowBound(front, s);
      SymbolsBelowAppend(front, ls[|ls| - 1], s);
      assert front + [ls[|ls| - 1]] == ls;
    }
  }

  lemma SlotBounds(ls: seq<nat>, j: nat)
    requires j < |ls| && ls[j] > 0
    ensures SlotOf(ls, j) < SymbolsBelow(ls, ls[j] + 1) <= |ls|
  {
    CountMonotone(ls, j, |ls|, ls[j]);
    assert ls[..|ls|] == ls;
    SymbolsBelowBound(ls, ls[j] + 1);
  }

  lemma SlotInjective(ls: seq<nat>, i: nat, j: nat)
    requires i < j < |ls| && ls[i] > 0 && ls[j] > 0
    ensures SlotOf(ls, i) != SlotOf(ls, j)
  {
    SlotBounds(ls, i);
    SlotBounds(ls, j);
    if ls[i] == ls[j] {
      CountMonotone(ls, i, j, ls[i]);
    } else if ls[i] < ls[j] {
      SymbolsBelowMonotone(ls, ls[i] + 1, ls[j]);
    } else {
      SymbolsBelowMonotone(ls, ls[j] + 1, ls[i]);
    }
  }

  // ----- where symbols sit in the fast table

  function FastEntry(ls: seq<nat>, j: nat): nat
    requires j < |ls|
  {
    512 * ls[j] + j
  }

  /** Entry `f` at index `x` speaks exactly for the short code words of symbols below `n`. */
  ghost predicate FastEntryOk(ls: seq<nat>, n: nat, x: nat, f: nat)
    requires n <= |ls|
  {
    && (f != 0 ==> exists j :: 0 <= j < n && Hits(ls, j, x) && ls[j] <= FAST_BITS && f == FastEntry(ls, j))
    && (forall j :: 0 <= j < n && Hits(ls, j, x) && ls[j] <= FAST_BITS ==> f == FastEntry(ls, j))
  }

  lemma {:induction false} LowGap(x: nat, y: nat, s: nat)
    requires x < y && Low(x, s) == Low(y, s)
    ensures y - x >= Pow2(s)
  {
    if s > 0 {
      assert x % 2 == y % 2;
      LowGap(x / 2, y / 2, s - 1);
    }
  }

  /** The indices reached by steps of 2^s from the reversed code are those that start with the code. */
  lemma LowIsReversed(x: nat, s: nat, c: nat)
    requires c < Pow2(s)
    ensures Rev(x, s) == c <==> Low(x, s) == Rev(c, s)
  {
    RevLow(x, s, s);
    RevInvolution(Low(x, s), s);
    RevInvolution(c, s);
  }

  /** Adding symbol `n` to a fast table: its own indices get its entry, the others stay. */
  lemma FastEntryExtend(ls: seq<nat>, n: nat, x: nat, f: nat, f': nat)
    requires Lengths(ls) && n < |ls| && FastEntryOk(ls, n, x, f)
    requires f' == if Hits(ls, n, x) && ls[n] <= FAST_BITS then FastEntry(ls, n) else f
    ensures FastEntryOk(ls, n + 1, x, f')
  {
    forall j | 0 <= j < n + 1 && Hits(ls, j, x) && ls[j] <= FAST_BITS
      ensures f' == FastEntry(ls, j)
    {
      if Hits(ls, n, x) { HitsUnique(ls, j, n, x); }
    }
    if f' != 0 && !(Hits(ls, n, x) && ls[n] <= FAST_BITS) {
      var j :| 0 <= j < n && Hits(ls, j, x) && ls[j] <= FAST_BITS && f == FastEntry(ls, j);
      assert 0 <= j < n + 1 && f' == FastEntry(ls, j);
    }
  }

  /** Short code words do not look past the bits that index the fast table. */
  lemma ShortHits(ls: seq<nat>, j: nat, window: nat, n: nat)
    requires j < |ls| && ls[j] <= n
    ensures Hits(ls, j, window) <==> Hits(ls, j, Low(window, n))
  {
    RevLow(window, n, ls[j]);
  }

  lemma Unpack(s: nat, j: nat)
    requires j < 512
    ensures (512 * s + j) / 512 == s && (512 * s + j) % 512 == j
  {
  }

  /** What a finished fast table says about a window. */
  lemma FastEntryMeaning(ls: seq<nat>, window: nat, x: nat, f: nat)
    requires Feasible(ls) && |ls| <= FAST_SIZE && FastEntryOk(ls, |ls|, x, f) && x == Low(window, FAST_BITS)
    ensures f != 0 ==> StartsWith(ls, f % 512, window) && ls[f % 512] == f / 512
    ensures f == 0 ==> forall j: nat :: Hits(ls, j, window) ==> ls[j] > FAST_BITS
  {
    hide Low, Feasible, StartsWith;
    if f != 0 {
      var j :| 0 <= j < |ls| && Hits(ls, j, x) && ls[j] <= FAST_BITS && f == FastEntry(ls, j);
      ShortHits(ls, j, window, FAST_BITS);
      HitsStartsWith(ls, j, window);
      Unpack(ls[j], j);
    } else {
      forall j: nat | Hits(ls, j, window) ensures ls[j] > FAST_BITS {
        if ls[j] <= FAST_BITS { ShortHits(ls, j, window, FAST_BITS); }
      }
    }
  }

  lemma NextIndex(j: nat, s: nat)
    ensures Low(j + Pow2(s), s) == Low(j, s)
    ensures forall x :: j < x < j + Pow2(s) ==> Low(x, s) != Low(j, s)
  {
    LowStep(j, s);
    forall x | j < x < j + Pow2(s) ensures Low(x, s) != Low(j, s) {
      if Low(x, s) == Low(j, s) { LowGap(j, x, s); }
    }
  }

  lemma FirstIndex(r: nat, s: nat)
    requires r < Pow2(s)
    ensures Low(r, s) == r
    ensures forall x :: 0 <= x < r ==> Low(x, s) != r
  {
    LowFixed(r, s);
    forall x | 0 <= x < r ensures Low(x, s) != r { LowFixed(x, s); }
  }

  /** A length whose codes need more than `s` bits breaks Kraft's inequality. */
  lemma OverflowInfeasible(ls: seq<nat>, s: nat)
    requires Lengths(ls) && 1 <= s <= 15 && FirstCode(ls, s) + Count(ls, s) > Pow2(s)
    ensures !Feasible(ls)
  {
    if Feasible(ls) { LimitFits(ls, s); }
  }

  lemma RowFits(ls: seq<nat>, s: nat)
    requires 1 <= s <= 15 && FirstCode(ls, s) + Count(ls, s) <= Pow2(s)
    ensures Limit(ls, s) <= 0x10000
    ensures FirstCode(ls, s + 1) <= Pow2(s + 1)
  {
    ShlShl(1, s, 16 - s);
    ShlMonotone(FirstCode(ls, s) + Count(ls, s), Pow2(s), 16 - s);
    Pow2Values();
  }

  lemma FirstFits(ls: seq<nat>, s: nat)
    requires 1 <= s <= 15 && FirstCode(ls, s) <= Pow2(s)
    ensures FirstCode(ls, s) < 0x10000
  {
    Pow2Values();
    Pow2Monotone(s, 15);
  }

  // ----- the table

  /** `stbi__zhuffman`. */
  class ZHuffman {
    const fast: array<nat>
    const firstcode: array<nat>
    const maxcode: array<nat>
    const firstsymbol: array<nat>
    const size: array<nat>
    const value: array<nat>

    ghost predicate Shaped() {
      && fast.Length == FAST_SIZE && firstcode.Length == 16 && maxcode.Length == 17
      && firstsymbol.Length == 16 && size.Length == NUM_SYMBOLS && value.Length == NUM_SYMBOLS
      && fast != firstcode && fast != maxcode && fast != firstsymbol && fast != size && fast != value
      && firstcode != maxcode && firstcode != firstsymbol && firstcode != size && firstcode != value
      && maxcode != firstsymbol && maxcode != size && maxcode != value
      && firstsymbol != size && firstsymbol != value && size != value
    }

    constructor ()
      ensures Shaped()
      ensures fresh(fast) && fresh(firstcode) && fresh(maxcode) && fresh(firstsymbol) && fresh(size) && fresh(value)
    {
      fast := new nat[FAST_SIZE];
      firstcode := new nat[16];
      maxcode := new nat[17];
      firstsymbol := new nat[16];
      size := new nat[NUM_SYMBOLS];
      value := new nat[NUM_SYMBOLS];
    }

    /** The per-length rows below `s` are those of the code `ls`. */
    ghost predicate RowsOk(ls: seq<nat>, s: nat)
      requires Shaped() && s <= 16
      reads firstcode, maxcode, firstsymbol
    {
      && (forall l {:trigger firstcode[l]} :: 1 <= l < s ==> firstcode[l] == FirstCode(ls, l))
      && (forall l {:trigger maxcode[l]} :: 1 <= l < s ==> maxcode[l] == Limit(ls, l))
      && (forall l {:trigger firstsymbol[l]} :: 1 <= l < s ==> firstsymbol[l] == SymbolsBelow(ls, l))
    }

    /** The per-symbol arrays hold the symbols below `n`. */
    ghost predicate SlotsOk(ls: seq<nat>, n: nat)
      requires Shaped() && n <= |ls| <= NUM_SYMBOLS
      reads size, value
    {
      forall j {:trigger SlotOf(ls, j)} :: 0 <= j < n && ls[j] > 0 ==>
        && SlotOf(ls, j) < NUM_SYMBOLS
        && size[SlotOf(ls, j)] == ls[j]
        && value[SlotOf(ls, j)] == j
    }

    ghost predicate FastOk(ls: seq<nat>, n: nat)
      requires Shaped() && n <= |ls|
      reads fast
    {
      forall x :: 0 <= x < FAST_SIZE ==> FastEntryOk(ls, n, x, fast[x])
    }

    /** The tables represent the canonical code with lengths `ls`. */
    ghost predicate Represents(ls: seq<nat>)
      reads fast, firstcode, maxcode, firstsymbol, size, value
    {
      && Shaped() && |ls| <= NUM_SYMBOLS && Feasible(ls)
      && RowsOk(ls, 16) && maxcode[16] == 0x10000
      && SlotsOk(ls, |ls|) && FastOk(ls, |ls|)
    }

    /** First loop of `stbi__zbuild_huffman`: how many codes of each length. */
    static method CountSizes(sizelist: seq<nat>) returns (sizes: seq<nat>)
      requires Lengths(sizelist)
      ensures |sizes| == 17 && sizes[0] == 0
      ensures forall s {:trigger sizes[s]} :: 1 <= s < 16 ==> sizes[s] == Count(sizelist, s)
    {
      sizes := seq(17, i => 0);
      for i := 0 to |sizelist|
        invariant |sizes| == 17
        invariant forall s :: 0 <= s < 17 ==> sizes[s] == Count(sizelist[..i], s)
      {
        assert sizelist[..i + 1][..i] == sizelist[..i];
        sizes := sizes[sizelist[i] := sizes[sizelist[i]] + 1];
      }
      assert sizelist[..|sizelist|] == sizelist;
      sizes := sizes[0 := 0];
    }

    /** The check that no length has more codes than it has bit patterns. */
    static method CheckSizes(ghost ls: seq<nat>, sizes: seq<nat>) returns (ok: bool)
      requires Lengths(ls) && |sizes| == 17
      requires forall s {:trigger sizes[s]} :: 1 <= s < 16 ==> sizes[s] == Count(ls, s)
      ensures ok <==> forall s {:trigger sizes[s]} :: 1 <= s < 16 ==> sizes[s] <= Pow2(s)
      ensures Feasible(ls) ==> ok
    {
      for i := 1 to 16
        invariant forall s {:trigger sizes[s]} :: 1 <= s < i ==> sizes[s] <= Pow2(s)
      {
        if sizes[i] > Pow2(i) {
          OverflowInfeasible(ls, i);
          return false;
        }
      }
      return true;
    }

    /** Middle loop of `stbi__zbuild_huffman`: first code, first symbol and limit of each length. */
    method AssignCodes(ghost ls: seq<nat>, sizes: seq<nat>) returns (ok: bool, next_code: seq<nat>)
      requires Shaped() && Lengths(ls) && |ls| <= NUM_SYMBOLS && |sizes| == 17
      requires forall s {:trigger sizes[s]} :: 1 <= s < 16 ==> sizes[s] == Count(ls, s)
      modifies firstcode, maxcode, firstsymbol
      ensures ok <==> Feasible(ls)
      ensures ok ==> RowsOk(ls, 16) && maxcode[16] == 0x10000
      ensures |next_code| == 16
      ensures ok ==> forall s {:trigger next_code[s]} :: 1 <= s < 16 ==> next_code[s] == FirstCode(ls, s)
    {
      KraftIsLimit(ls);
      next_code := seq(16, i => 0);
      var code, k := 0, 0;
      for i := 1 to 16
        invariant code == FirstCode(ls, i) <= Pow2(i)
        invariant k == SymbolsBelow(ls, i)
        invariant RowsOk(ls, i)
        invariant |next_code| == 16
        invariant forall s {:trigger next_code[s]} :: 1 <= s < i ==> next_code[s] == FirstCode(ls, s)
        invariant i > 1 ==> Limit(ls, i - 1) <= 0x10000
      {
        hide Feasible;
        next_code := next_code[i := code];
        var fits;
        fits, code := AssignRow(ls, i, sizes[i], code, k);
        if !fits {
          return false, next_code;
        }
        k := k + sizes[i];
      }
      maxcode[16] := 0x10000;
      return true, next_code;
    }

    /** The rows of length `i`, of which there are `n` codes; `next` is the first code one bit longer. */
    method AssignRow(ghost ls: seq<nat>, i: nat, n: nat, code: nat, k: nat) returns (fits: bool, next: nat)
      requires Shaped() && Lengths(ls) && |ls| <= NUM_SYMBOLS && 1 <= i < 16 && RowsOk(ls, i)
      requires n == Count(ls, i) && code == FirstCode(ls, i) <= Pow2(i) && k == SymbolsBelow(ls, i)
      requires i > 1 ==> Limit(ls, i - 1) <= 0x10000
      modifies firstcode, maxcode, firstsymbol
      ensures !fits ==> !Feasible(ls)
      ensures fits ==> RowsOk(ls, i + 1) && next == FirstCode(ls, i + 1) <= Pow2(i + 1) && Limit(ls, i) <= 0x10000
    {
      SymbolsBelowBound(ls, i);
      FirstFits(ls, i);
      firstcode[i] := code % 0x10000;
      firstsymbol[i] := k % 0x10000;
      next := code + n;
      if n != 0 && next > Pow2(i) {
        OverflowInfeasible(ls, i);
        return false, next;
      }
      RowFits(ls, i);
      maxcode[i] := Shl(next, 16 - i);
      next := 2 * next;
      fits := true;
    }

    /** Inner loop of `stbi__zbuild_huffman`: repeat an entry at every index that starts with the code. */
    method SpreadFast(code: nat, s: nat, fastv: nat)
      requires Shaped() && 0 < s <= FAST_BITS && code < Pow2(s)
      modifies fast
      ensures forall x :: 0 <= x < FAST_SIZE ==>
                fast[x] == if Rev(x, s) == code then fastv else old(fast[x])
    {
      var j := BitReverse(code, s);
      ghost var r := j;
      FirstIndex(r, s);
      while j < FAST_SIZE
        invariant Low(j, s) == r
        invariant forall x :: 0 <= x < FAST_SIZE ==>
                    fast[x] == if x < j && Low(x, s) == r then fastv else old(fast[x])
      {
        fast[j] := fastv;
        NextIndex(j, s);
        j := j + Pow2(s);
      }
      forall x | 0 <= x < FAST_SIZE
        ensures Rev(x, s) == code <==> Low(x, s) == r
      {
        LowIsReversed(x, s, code);
      }
    }

    /** One step of the last loop of `stbi__zbuild_huffman`: file symbol `i`, whose code is `code`. */
    method AddSymbol(ls: seq<nat>, i: nat, code: nat)
      requires Shaped() && Feasible(ls) && i < |ls| <= NUM_SYMBOLS && ls[i] > 0
      requires RowsOk(ls, 16) && SlotsOk(ls, i) && FastOk(ls, i) && code == CodeOf(ls, i)
      modifies fast, size, value
      ensures SlotsOk(ls, i + 1) && FastOk(ls, i + 1)
    {
      var s := ls[i];
      SlotBounds(ls, i);
      CodeFits(ls, i);
      forall j | 0 <= j < i && ls[j] > 0 ensures SlotOf(ls, j) != SlotOf(ls, i) {
        SlotInjective(ls, j, i);
      }
      var c := code - firstcode[s] + firstsymbol[s];
      size[c] := s;
      value[c] := i;
      assert SlotsOk(ls, i + 1);
      if s <= FAST_BITS {
        SpreadFast(code, s, 512 * s + i);
      }
      forall x | 0 <= x < FAST_SIZE ensures FastEntryOk(ls, i + 1, x, fast[x]) {
        FastEntryExtend(ls, i, x, old(fast[x]), fast[x]);
      }
    }

    /** Last loop of `stbi__zbuild_huffman`. */
    method AddSymbols(ls: seq<nat>, next_code0: seq<nat>)
      requires Shaped() && Feasible(ls) && |ls| <= NUM_SYMBOLS && |next_code0| == 16
      requires RowsOk(ls, 16)
      requires forall s {:trigger next_code0[s]} :: 1 <= s < 16 ==> next_code0[s] == FirstCode(ls, s)
      requires forall x :: 0 <= x < FAST_SIZE ==> fast[x] == 0
      modifies fast, size, value
      ensures SlotsOk(ls, |ls|) && FastOk(ls, |ls|)
    {
      var next_code := next_code0;
      for i := 0 to |ls|
        invariant |next_code| == 16
        invariant forall s {:trigger next_code[s]} :: 1 <= s < 16 ==>
                    next_code[s] == FirstCode(ls, s) + Count(ls[..i], s)
        invariant SlotsOk(ls, i) && FastOk(ls, i)
      {
        var s := ls[i];
        assert ls[..i + 1][..i] == ls[..i];
        if s != 0 {
          AddSymbol(ls, i, next_code[s]);
          next_code := next_code[s := next_code[s] + 1];
        } else {
          forall x | 0 <= x < FAST_SIZE ensures FastEntryOk(ls, i + 1, x, fast[x]) {
            FastEntryExtend(ls, i, x, fast[x], fast[x]);
          }
        }
      }
    }

    /** `stbi__zbuild_huffman`: accepts exactly the lengths that satisfy Kraft's inequality. */
    method Build(sizelist: seq<nat>) returns (ok: bool)
      requires Shaped() && Lengths(sizelist) && |sizelist| <= NUM_SYMBOLS
      modifies fast, firstcode, maxcode, firstsymbol, size, value
      ensures ok <==> Feasible(sizelist)
      ensures ok ==> Represents(sizelist)
    {
      var sizes := CountSizes(sizelist);
      for i := 0 to FAST_SIZE
        invariant forall x :: 0 <= x < i ==> fast[x] == 0
      {
        fast[i] := 0;
      }
      ok := CheckSizes(sizelist, sizes);
      if !ok { return; }
      var next_code;
      ok, next_code := AssignCodes(sizelist, sizes);
      if !ok { return; }
      AddSymbols(sizelist, next_code);
    }

    /** `stbi__zhuffman_decode_slowpath` on a window that no short code word starts. */
    method SlowLookup(window: nat, ghost ls: seq<nat>) returns (sym: int, s: nat)
      requires Represents(ls)
      requires forall j: nat :: Hits(ls, j, window) ==> ls[j] > FAST_BITS
      ensures sym >= 0 ==> StartsWith(ls, sym, window) && ls[sym] == s
      ensures sym < 0 ==> sym == -1 && forall j: nat :: !StartsWith(ls, j, window)
    {
      var k := BitReverse(window, 16);
      Pow2Values();
      if k < Limit(ls, FAST_BITS) {
        var j := Covered(ls, FAST_BITS, window);
        assert false;
      }
      s := FAST_BITS + 1;
      while k >= maxcode[s]
        invariant FAST_BITS < s <= 16
        invariant k >= Limit(ls, s - 1)
        decreases 16 - s
      {
        s := s + 1;
      }
      if s >= 16 {
        forall j: nat ensures !StartsWith(ls, j, window) {
          HitsStartsWith(ls, j, window);
          if Hits(ls, j, window) { HitsBelowLimit(ls, j, window, 15); }
        }
        return -1, s;
      }
      ghost var j := BetweenLimits(ls, s, window);
      HitsStartsWith(ls, j, window);
      SlotBounds(ls, j);
      var b := Shr(k, 16 - s) - firstcode[s] + firstsymbol[s];
      assert b == SlotOf(ls, j);
      if b >= NUM_SYMBOLS { return -1, s; }
      if size[b] != s { return -1, s; }
      sym := value[b];
    }

    /** The lookup of `stbi__zhuffman_decode`: fast table first, then the slow path. */
    method Lookup(window: nat, ghost ls: seq<nat>) returns (sym: int, s: nat)
      requires Represents(ls)
      ensures sym >= 0 ==> StartsWith(ls, sym, window) && ls[sym] == s
      ensures sym < 0 ==> sym == -1 && forall j: nat :: !StartsWith(ls, j, window)
    {
      Pow2Values();
      var x := Low(window, FAST_BITS);
      var b := fast[x];
      FastEntryMeaning(ls, window, x, b);
      if b != 0 {
        s := b / 512;
        return b % 512, s;
      }
      sym, s := SlowLookup(window, ls);
    }
  }
}
