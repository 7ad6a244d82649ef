/** Particular code tables: the fixed code, a byte it wrongly accepts, and tables for which the most bits can be missing. */
module InflateTables {
  import opened Basics
  import opened CanonicalCode
  import opened ZlibHuffman
  import opened ZlibBuffer
  import opened Inflate
  import opened InflatePadding

  // ----- the fixed code of section 3.2.6 of RFC 1951

  function Repeat(n: nat, v: nat): seq<nat> {
    seq(n, _ => v)
  }

  /** `stbi__zdefault_length` and `stbi__zdefault_distance`. */
  function FixedLengths(): seq<nat> {
    Repeat(144, 8) + Repeat(112, 9) + Repeat(24, 7) + Repeat(8, 8)
  }

  function FixedDistances(): seq<nat> {
    Repeat(32, 5)
  }

  lemma {:induction false} CountAppend(x: seq<nat>, y: seq<nat>, s: nat)
    ensures Count(x + y, s) == Count(x, s) + Count(y, s)
  {
    if y == [] {
      assert x + y == x;
    } else {
      CountAppend(x, y[..|y| - 1], s);
      assert (x + y)[..|x + y| - 1] == x + y[..|y| - 1];
    }
  }

  lemma {:induction false} CountRepeat(n: nat, v: nat, s: nat)
    ensures Count(Repeat(n, v), s) == if v == s then n else 0
  {
    if n > 0 {
      CountRepeat(n - 1, v, s);
      assert Repeat(n, v)[..n - 1] == Repeat(n - 1, v);
    }
  }

  lemma {:induction false} KraftAppend(x: seq<nat>, y: seq<nat>)
    requires Lengths(x) && Lengths(y)
    ensures Lengths(x + y) && KraftSum(x + y) == KraftSum(x) + KraftSum(y)
  {
    if y == [] {
      assert x + y == x;
    } else {
      KraftAppend(x, y[..|y| - 1]);
      assert (x + y)[..|x + y| - 1] == x + y[..|y| - 1];
    }
  }

  lemma {:induction false} KraftRepeat(n: nat, v: nat)
    requires 0 < v <= MAX_BITS
    ensures KraftSum(Repeat(n, v)) == n * Pow2(16 - v)
  {
    hide Pow2;
    if n > 0 {
      KraftRepeat(n - 1, v);
      assert Repeat(n, v)[..n - 1] == Repeat(n - 1, v);
      assert (n - 1) * Pow2(16 - v) + Pow2(16 - v) == n * Pow2(16 - v);
    }
  }

  lemma FixedFeasible()
    ensures Feasible(FixedLengths()) && Feasible(FixedDistances())
  {
    hide Pow2, KraftSum;
    var a, b, c, d := Repeat(144, 8), Repeat(112, 9), Repeat(24, 7), Repeat(8, 8);
    KraftRepeat(144, 8);
    KraftRepeat(112, 9);
    KraftRepeat(24, 7);
    KraftRepeat(8, 8);
    KraftRepeat(32, 5);
    KraftAppend(a, b);
    KraftAppend(a + b, c);
    KraftAppend(a + b + c, d);
    Powers();
  }

  lemma Powers()
    ensures Pow2(7) == 128 && Pow2(8) == 256 && Pow2(9) == 512 && Pow2(11) == 2048
  {
    assert Pow2(4) == 16;
    assert Pow2(7) == 8 * Pow2(4);
    assert Pow2(11) == 4 * Pow2(9);
  }

  lemma FixedCount(s: nat)
    ensures Count(FixedLengths(), s) == if s == 7 then 24 else if s == 8 then 152 else if s == 9 then 112 else 0
  {
    var a, b, c, d := Repeat(144, 8), Repeat(112, 9), Repeat(24, 7), Repeat(8, 8);
    CountRepeat(144, 8, s);
    CountRepeat(112, 9, s);
    CountRepeat(24, 7, s);
    CountRepeat(8, 8, s);
    CountAppend(a, b, s);
    CountAppend(a + b, c, s);
    CountAppend(a + b + c, d, s);
  }

  lemma {:induction false} FixedFirst(s: nat)
    requires 1 <= s <= 7
    ensures FirstCode(FixedLengths(), s) == 0
  {
    if s > 1 {
      FixedFirst(s - 1);
      FixedCount(s - 1);
    }
  }

  /** Literal 0 has code 48 in eight bits, end-of-block has code 0 in seven. */
  lemma FixedCodes()
    ensures Used(FixedLengths(), 0) && FixedLengths()[0] == 8 && CodeOf(FixedLengths(), 0) == 48
    ensures Used(FixedLengths(), 256) && FixedLengths()[256] == 7 && CodeOf(FixedLengths(), 256) == 0
  {
    var ls := FixedLengths();
    FixedFirst(7);
    FixedCount(7);
    assert ls[..0] == [];
    var a, b := Repeat(144, 8), Repeat(112, 9);
    assert ls[..256] == a + b;
    CountAppend(a, b, 7);
    CountRepeat(144, 8, 7);
    CountRepeat(112, 9, 7);
  }

  lemma {:induction false} ShrHalf(n: nat, k: nat)
    ensures Shr(n, k + 1) == Shr(n, k) / 2
  {
    if k > 0 { ShrHalf(n / 2, k - 1); }
  }

  lemma {:induction false} Shr48(k: nat)
    requires k < 8
    ensures Shr(48, k) == [48, 24, 12, 6, 3, 1, 0, 0][k]
  {
    if k > 0 {
      Shr48(k - 1);
      ShrHalf(48, k - 1);
    }
  }

  lemma FixedWords()
    ensures Used(FixedLengths(), 0) && CodeWord(FixedLengths(), 0) == [0, 0, 1, 1, 0, 0, 0, 0]
    ensures Used(FixedLengths(), 256) && CodeWord(FixedLengths(), 256) == [0, 0, 0, 0, 0, 0, 0]
  {
    FixedCodes();
    var ls := FixedLengths();
    forall t | 0 <= t < 8 ensures CodeWord(ls, 0)[t] == [0, 0, 1, 1, 0, 0, 0, 0][t] {
      Shr48(7 - t);
    }
    forall t | 0 <= t < 7 ensures CodeWord(ls, 256)[t] == 0 {
      ZeroBit(6 - t);
    }
  }

  /** One byte, the fixed code word of literal 0. */
  const SHORT_DATA: seq<nat> := [0x0C]

  lemma ShortBits()
    ensures ByteBits(SHORT_DATA) == [0, 0, 1, 1, 0, 0, 0, 0]
  {
    assert ByteBits(SHORT_DATA) == BitsOf(0x0C, 8) + ByteBits([]);
    forall t: nat | t < 8 ensures BitsOf(0x0C, 8)[t] == [0, 0, 1, 1, 0, 0, 0, 0][t] {
      Shr12(t);
    }
  }

  lemma {:induction false} Shr12(k: nat)
    requires k < 8
    ensures Shr(12, k) == [12, 6, 3, 1, 0, 0, 0, 0][k]
  {
    if k > 0 {
      Shr12(k - 1);
      ShrHalf(12, k - 1);
    }
  }

  /** Literal 0 is the whole data, so that end-of-block can only be read from supplied zero bits. */
  lemma ShortAccepted()
    ensures var ll, dl, ts := FixedLengths(), FixedDistances(), [Literal(0)];
            && Accepts(ByteBits(SHORT_DATA), Meter(0, 1, false), [], 1, ts, ll, dl)
            && |BlockBits(ts, ll, dl)| == 15 > |ByteBits(SHORT_DATA)|
  {
    hide FixedLengths, FixedDistances, CodeWord;
    var ll, dl, ts := FixedLengths(), FixedDistances(), [Literal(0)];
    ShortBits();
    FixedCodes();
    FixedWords();
    assert ts[1..] == [];
    assert BlockBits(ts, ll, dl) == CodeWord(ll, 0) + CodeWord(ll, 256);
    ShortPasses(ll, dl);
    ZeroExpands();
  }

  lemma ZeroExpands()
    ensures Expand([], [Literal(0)]) == Some([0])
  {
    ExpandAppend([], [], Literal(0));
    assert [] + [Literal(0)] == [Literal(0)] && [] + [0] == [0];
  }

  lemma ShortPasses(ll: seq<nat>, dl: seq<nat>)
    requires |ll| > 256 && ll[0] == 8 && ll[256] == 7
    ensures Passes(Meter(0, 1, false), [Literal(0)], ll, dl)
  {
    var m := Meter(0, 1, false);
    assert Refill(Meter(24, 0, false)) == Meter(32, 0, false);
    assert Refill(Meter(16, 0, false)) == Refill(Meter(24, 0, false));
    assert Refill(m) == Refill(Meter(8, 0, false));
    assert AfterCode(m, 8) == Some(Meter(24, 0, false));
    assert RunMeter(m, [Literal(0)], ll, dl) == RunMeter(Meter(24, 0, false), [], ll, dl);
  }

  /** A block of type 1 in `stbi__parse_zlib`: the fixed tables, then the block. */
  method DecodeFixed(data: seq<nat>, capacity: nat) returns (ok: bool, out: seq<nat>, ghost got: seq<Token>)
    requires forall i :: 0 <= i < |data| ==> data[i] < 256
    ensures ok <==> exists ts :: FixedAccepts(data, capacity, ts)
    ensures forall ts :: FixedAccepts(data, capacity, ts) ==> ts == got && Expand([], ts) == Some(out)
  {
    hide Accepts, BlockBits, Feasible, ByteBits, ZBuf.Valid, FixedLengths, FixedDistances;
    FixedFeasible();
    FixedSizes();
    var lengths := new ZHuffman();
    ok := lengths.Build(FixedLengths());
    if !ok { return false, [], []; }
    assert lengths.Represents(FixedLengths());
    var distances := new ZHuffman();
    ok := distances.Build(FixedDistances());
    if !ok { return false, [], []; }
    var a := new ZBuf(data, capacity);
    ghost var pad;
    ok, got, pad := ParseHuffmanBlock(a, lengths, distances, FixedLengths(), FixedDistances());
    out := a.zout;
    assert ok ==> FixedAccepts(data, capacity, got);
  }

  lemma FixedSizes()
    ensures |FixedLengths()| == NUM_SYMBOLS && |FixedDistances()| == 32
    ensures Lengths(FixedLengths()) && Lengths(FixedDistances())
  {
  }

  ghost predicate FixedAccepts(data: seq<nat>, capacity: nat, ts: seq<Token>) {
    Accepts(ByteBits(data), Meter(0, |data|, false), [], capacity, ts, FixedLengths(), FixedDistances())
  }

  /**
   The decoder on that byte: it reports success and the output [0], although no block lies on the data.
   The end-of-data test of `stbi__zhuffman_decode` never fires, since the buffer holds 24 supplied bits.
   */
  method DecodeShortData() returns (ok: bool, out: seq<nat>)
    ensures ok && out == [0]
    ensures forall ts :: !Holds(ByteBits(SHORT_DATA), [], 1, ts, FixedLengths(), FixedDistances())
  {
    hide Accepts, Holds, ByteBits, FixedLengths, FixedDistances;
    ShortAccepted();
    ghost var got;
    ok, out, got := DecodeFixed(SHORT_DATA, 1);
    assert FixedAccepts(SHORT_DATA, 1, [Literal(0)]);
    ZeroExpands();
    forall ts ensures !Holds(ByteBits(SHORT_DATA), [], 1, ts, FixedLengths(), FixedDistances()) {
      NotOnShortData(ts, got);
    }
  }

  lemma NotOnShortData(ts: seq<Token>, got: seq<Token>)
    requires forall u :: FixedAccepts(SHORT_DATA, 1, u) ==> u == got
    ensures !Holds(ByteBits(SHORT_DATA), [], 1, ts, FixedLengths(), FixedDistances())
  {
    hide Accepts, ByteBits, FixedLengths, FixedDistances, BlockBits, Encodable, Fits;
    var ll, dl := FixedLengths(), FixedDistances();
    FixedSizes();
    ShortBits();
    ShortAccepted();
    assert FixedAccepts(SHORT_DATA, 1, [Literal(0)]);
    if AllEncodable(ts, ll, dl) && Encodable(End, ll, dl) {
      HoldsExact(ByteBits(SHORT_DATA), Meter(0, 1, false), [], 1, ts, ll, dl);
      assert FixedAccepts(SHORT_DATA, 1, ts) ==> ts == [Literal(0)];
    }
  }

  // ----- the longest blocks that can be missing

  /** Literals 0 to 253 in nine bits, end-of-block in eight, the length code 281 in fifteen. */
  function LongLengths(): seq<nat> {
    Repeat(254, 9) + Repeat(2, 0) + Repeat(1, 8) + Repeat(24, 0) + Repeat(1, 15)
  }

  /** Distance code 28 alone, in fifteen bits. */
  function LongDistances(): seq<nat> {
    Repeat(28, 0) + Repeat(1, 15)
  }

  lemma LongCount(s: nat)
    requires s > 0
    ensures Count(LongLengths(), s) == if s == 8 then 1 else if s == 9 then 254 else if s == 15 then 1 else 0
    ensures Count(LongDistances(), s) == if s == 15 then 1 else 0
  {
    var a, b, c, d, e := Repeat(254, 9), Repeat(2, 0), Repeat(1, 8), Repeat(24, 0), Repeat(1, 15);
    hide Repeat, Count;
    CountRepeat(254, 9, s);
    CountRepeat(2, 0, s);
    CountRepeat(1, 8, s);
    CountRepeat(24, 0, s);
    CountRepeat(1, 15, s);
    CountRepeat(28, 0, s);
    CountAppend(a, b, s);
    CountAppend(a + b, c, s);
    CountAppend(a + b + c, d, s);
    CountAppend(a + b + c + d, e, s);
    CountAppend(Repeat(28, 0), e, s);
  }

  lemma {:induction false} LongFirst(s: nat)
    requires 1 <= s <= 15
    ensures FirstCode(LongLengths(), s)
         == if s <= 8 then 0 else [2, 512, 1024, 2048, 4096, 8192, 16384][s - 9]
    ensures FirstCode(LongDistances(), s) == 0
  {
    hide LongLengths, LongDistances;
    if s > 1 {
      LongFirst(s - 1);
      LongCount(s - 1);
    }
  }

  lemma {:induction false} KraftUnused(n: nat)
    ensures KraftSum(Repeat(n, 0)) == 0
  {
    if n > 0 {
      KraftUnused(n - 1);
      assert Repeat(n, 0)[..n - 1] == Repeat(n - 1, 0);
    }
  }

  lemma LongFeasible()
    ensures Feasible(LongLengths()) && Feasible(LongDistances())
  {
    var a, b, c, d, e := Repeat(254, 9), Repeat(2, 0), Repeat(1, 8), Repeat(24, 0), Repeat(1, 15);
    hide Pow2, KraftSum;
    KraftRepeat(254, 9);
    KraftUnused(2);
    KraftRepeat(1, 8);
    KraftUnused(24);
    KraftUnused(28);
    KraftRepeat(1, 15);
    KraftAppend(a, b);
    KraftAppend(a + b, c);
    KraftAppend(a + b + c, d);
    KraftAppend(a + b + c + d, e);
    KraftAppend(Repeat(28, 0), e);
    Powers();
    PowerOne();
  }

  lemma PowerOne()
    ensures Pow2(1) == 2
  {
  }

  lemma LongSizes()
    ensures |LongLengths()| == 282 && LongLengths()[0] == 9 && LongLengths()[256] == 8 && LongLengths()[281] == 15
    ensures |LongDistances()| == 29 && LongDistances()[28] == 15
  {
  }

  lemma CountBefore(x: seq<nat>, y: seq<nat>, s: nat)
    requires Count(x + y, s) == 1 && Count(y, s) == 1
    ensures Count((x + y)[..|x|], s) == 0
  {
    CountAppend(x, y, s);
    assert (x + y)[..|x|] == x;
  }

  lemma LongCodes()
    ensures CodeOf(LongLengths(), 0) == 2 && CodeOf(LongLengths(), 256) == 0 && CodeOf(LongLengths(), 281) == 16384
    ensures CodeOf(LongDistances(), 28) == 0
  {
    var ll, dl := LongLengths(), LongDistances();
    LongSizes();
    LongFirst(8);
    LongFirst(9);
    LongFirst(15);
    LongCount(8);
    LongCount(15);
    var front := Repeat(254, 9) + Repeat(2, 0);
    assert ll == front + (Repeat(1, 8) + Repeat(24, 0) + Repeat(1, 15));
    var most := front + Repeat(1, 8) + Repeat(24, 0);
    assert ll == most + Repeat(1, 15);
    assert ll[..0] == [] && ll[..256] == front && ll[..281] == most && dl[..28] == Repeat(28, 0);
    hide LongLengths, LongDistances, Repeat;
    CountRepeat(254, 9, 8);
    CountRepeat(2, 0, 8);
    CountAppend(Repeat(254, 9), Repeat(2, 0), 8);
    CountRepeat(1, 15, 15);
    CountBefore(most, Repeat(1, 15), 15);
    CountRepeat(28, 0, 15);
  }

  /** A code of 1 and zeros, and one of zeros. */
  lemma {:induction false} OneAndZeros(n: nat, k: nat)
    requires k <= n
    ensures Shr(Pow2(n), k) % 2 == if k == n then 1 else 0
  {
    if k > 0 {
      Pow2Next(n - 1);
      OneAndZeros(n - 1, k - 1);
    } else if n > 0 {
      Pow2Next(n - 1);
    }
  }

  lemma ZeroCodeWord(ls: seq<nat>, j: nat)
    requires Used(ls, j) && CodeOf(ls, j) == 0
    ensures CodeWord(ls, j) == Zeros(ls[j])
  {
    forall t | 0 <= t < ls[j] ensures CodeWord(ls, j)[t] == 0 { ZeroBit(ls[j] - 1 - t); }
  }

  lemma LongWord()
    ensures Used(LongLengths(), 281) && CodeWord(LongLengths(), 281) == [1] + Zeros(14)
  {
    hide LongLengths, Pow2, CodeOf;
    LongSizes();
    LongCodes();
    PowFourteen();
    var w := CodeWord(LongLengths(), 281);
    forall t | 0 <= t < 15 ensures w[t] == if t == 0 then 1 else 0 { OneAndZeros(14, 14 - t); }
    OneThenZeros(w, 14);
  }

  lemma PowFourteen()
    ensures Pow2(14) == 16384
  {
    Powers();
    hide Pow2;
    Pow2Next(11);
    Pow2Next(12);
    Pow2Next(13);
  }

  lemma OneThenZeros(w: seq<nat>, n: nat)
    requires |w| == n + 1 && forall t :: 0 <= t < |w| ==> w[t] == if t == 0 then 1 else 0
    ensures w == [1] + Zeros(n)
  {
  }

  /** A literal, then the longest back reference, of which one bit is in the data. */
  const LONG_TOKENS: seq<Token> := [Literal(0), Match(24, 0, 28, 0)]

  ghost function LongStream(): seq<nat>
    requires Used(LongLengths(), 0)
  {
    CodeWord(LongLengths(), 0) + [1]
  }

  lemma LongEncodable()
    ensures var ll, dl := LongLengths(), LongDistances();
            AllEncodable(LONG_TOKENS, ll, dl) && Encodable(End, ll, dl) && Used(ll, 0)
  {
    hide LongLengths, LongDistances;
    LongSizes();
    assert Pow2(0) == 1;
    Positive(5);
    Positive(13);
  }

  lemma {:induction false} Positive(k: nat)
    ensures Pow2(k) > 0
  {
    if k > 0 { Positive(k - 1); }
  }

  lemma LongBits()
    requires var ll, dl := LongLengths(), LongDistances();
             AllEncodable(LONG_TOKENS, ll, dl) && Encodable(End, ll, dl) && Used(ll, 0)
    ensures BlockBits(LONG_TOKENS, LongLengths(), LongDistances()) == LongStream() + Zeros(MAX_MISSING)
    ensures |LongStream()| == 10
  {
    var ll, dl := LongLengths(), LongDistances();
    hide LongLengths, LongDistances, Pow2, CodeWord, CodeOf, BitsOf;
    LongSizes();
    LongCodes();
    LongWord();
    ZeroCodeWord(ll, 256);
    ZeroCodeWord(dl, 28);
    BitsZero(5);
    BitsZero(13);
    var t := LONG_TOKENS[1];
    assert MatchTail(t, dl) == Zeros(5) + (Zeros(15) + Zeros(13));
    assert EncodeItem(Tok(t), ll, dl) == [1] + Zeros(14) + (Zeros(5) + (Zeros(15) + Zeros(13)));
    assert LONG_TOKENS[1..] == [t] && [t][1..] == [];
    assert Encode(LONG_TOKENS, ll, dl) == CodeWord(ll, 0) + (EncodeItem(Tok(t), ll, dl) + []);
    WordLength(ll, 0);
    ZerosJoin(CodeWord(ll, 0));
  }

  lemma WordLength(ls: seq<nat>, j: nat)
    requires Used(ls, j)
    ensures |CodeWord(ls, j)| == ls[j]
  {
  }

  lemma ZerosJoin(w: seq<nat>)
    ensures w + ([1] + Zeros(14) + (Zeros(5) + (Zeros(15) + Zeros(13))) + []) + Zeros(8) == w + [1] + Zeros(55)
  {
  }

  /** Two bits in the buffer and one byte to come: the end-of-data tests never fire. */
  lemma LongPasses(ll: seq<nat>, dl: seq<nat>)
    requires AllEncodable(LONG_TOKENS, ll, dl) && Encodable(End, ll, dl)
    requires |ll| > 281 && ll[0] == 9 && ll[256] == 8 && ll[281] == 15 && |dl| > 28 && dl[28] == 15
    ensures Passes(Meter(2, 1, false), LONG_TOKENS, ll, dl)
  {
    hide Pow2;
    var m, t := Meter(2, 1, false), LONG_TOKENS[1];
    RefillTwo(m);
    assert AfterCode(m, 9) == Some(Meter(17, 0, false));
    assert AfterCode(Meter(17, 0, false), 15) == Some(Meter(2, 0, false));
    RefillTwo(Meter(2, 0, false));
    assert AfterBits(Meter(2, 0, false), 5) == Meter(21, 0, false);
    assert AfterCode(Meter(21, 0, false), 15) == Some(Meter(6, 0, false));
    RefillTwo(Meter(6, 0, false));
    assert AfterBits(Meter(6, 0, false), 13) == Meter(17, 0, false);
    assert ItemMeter(Meter(17, 0, false), Tok(t), ll, dl) == Some(Meter(17, 0, false));
    assert LONG_TOKENS[1..] == [t] && [t][1..] == [];
    assert RunMeter(Meter(17, 0, false), [t], ll, dl) == Some(Meter(17, 0, false));
    assert RunMeter(m, LONG_TOKENS, ll, dl) == Some(Meter(17, 0, false));
  }

  lemma RefillTwo(m: Meter)
    requires m.bits <= 8 && m.bits > 0 && m.bytes <= 1
    ensures Refill(m) == Meter(m.bits + 24, 0, m.hit)
  {
    var a, b := Meter(m.bits + 8, 0, m.hit), Meter(m.bits + 16, 0, m.hit);
    assert Refill(b) == Meter(m.bits + 24, 0, m.hit);
    assert Refill(a) == Refill(b);
  }

  /** The bound is attained: a block of which 55 bits are missing is accepted. */
  lemma PaddingAttained(out: seq<nat>, capacity: nat)
    requires |out| >= 16384 && capacity >= |out| + 132
    ensures var ll, dl := LongLengths(), LongDistances();
            && Feasible(ll) && Feasible(dl) && |ll| <= NUM_SYMBOLS && Used(ll, 0)
            && Accepts(LongStream(), Meter(2, 1, false), out, capacity, LONG_TOKENS, ll, dl)
            && |LongStream()| == 10 && |BlockBits(LONG_TOKENS, ll, dl)| == |LongStream()| + MAX_MISSING
  {
    hide LongLengths, LongDistances, LongStream, BlockBits, Passes, Expand, Encode;
    LongFeasible();
    LongSizes();
    LongEncodable();
    LongBits();
    StartsPadded(LongStream(), MAX_MISSING, BlockBits(LONG_TOKENS, LongLengths(), LongDistances()));
    LongPasses(LongLengths(), LongDistances());
    LongExpands(out);
  }

  lemma LongExpands(out: seq<nat>)
    requires |out| >= 16384
    ensures Expand(out, LONG_TOKENS).Some? && |Expand(out, LONG_TOKENS).value| == |out| + 132
  {
    var t := LONG_TOKENS[1];
    assert DistBase(28) == 16385 && LengthBase(24) == 131;
    assert LONG_TOKENS[1..] == [t] && [t][1..] == [];
    var played := out + [0];
    assert Play(out, Literal(0)) == played && Playable(played, t);
    assert Expand(played, [t]) == Expand(Play(played, t), []);
  }

  /** And so is that of a block without a token. */
  lemma EmptyAttained(out: seq<nat>, capacity: nat)
    ensures var ll: seq<nat>, dl: seq<nat> := Repeat(256, 0) + Repeat(1, 15), [];
            && Feasible(ll) && Feasible(dl)
            && Accepts(Zeros(8), Meter(0, 1, false), out, capacity, [], ll, dl)
            && |BlockBits([], ll, dl)| == |Zeros(8)| + 7
  {
    var ll: seq<nat>, dl: seq<nat> := Repeat(256, 0) + Repeat(1, 15), [];
    assert ll[256] == 15 && ll[..256] == Repeat(256, 0);
    OnlyEndFeasible();
    hide Repeat, KraftSum, Pow2;
    OnlyEndCode(ll, 15);
    CountRepeat(256, 0, 15);
    ZeroCodeWord(ll, 256);
    assert Refill(Meter(24, 0, false)) == Meter(32, 0, false);
    assert Refill(Meter(16, 0, false)) == Meter(32, 0, false);
    assert Refill(Meter(0, 1, false)) == Refill(Meter(8, 0, false));
    assert AfterCode(Meter(0, 1, false), 15) == Some(Meter(17, 0, false));
  }

  lemma OnlyEndFeasible()
    ensures Feasible(Repeat(256, 0) + Repeat(1, 15)) && Feasible([])
  {
    hide Pow2, KraftSum;
    KraftUnused(256);
    KraftRepeat(1, 15);
    KraftAppend(Repeat(256, 0), Repeat(1, 15));
    PowerOne();
    NoKraft();
  }

  lemma NoKraft()
    ensures KraftSum([]) == 0
  {
  }

  lemma {:induction false} OnlyEndCode(ll: seq<nat>, s: nat)
    requires ll == Repeat(256, 0) + Repeat(1, 15) && 1 <= s <= 15
    ensures FirstCode(ll, s) == 0
  {
    if s > 1 {
      OnlyEndCode(ll, s - 1);
      CountAppend(Repeat(256, 0), Repeat(1, 15), s - 1);
      CountRepeat(256, 0, s - 1);
      CountRepeat(1, 15, s - 1);
    }
  }
}
