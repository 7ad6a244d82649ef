/**
 How far a compressed block can be accepted behind the end of the data: the zero bits that
 `stbi__fill_bits` supplies are not told apart from data.
 */
module InflatePadding {
  import opened Basics
  import opened CanonicalCode
  import opened ZlibHuffman
  import opened ZlibBuffer
  import opened Inflate

  /** The longest token: a length code, five extra bits, a distance code, thirteen extra bits. */
  const MAX_TOKEN_BITS := 48

  /** How many bits of an accepted block can be missing. */
  const MAX_MISSING := 55

  lemma ItemLength(i: Item, ll: seq<nat>, dl: seq<nat>)
    requires Lengths(ll) && Lengths(dl) && Encodable(i, ll, dl)
    ensures |EncodeItem(i, ll, dl)| <= if i.End? then MAX_BITS else MAX_TOKEN_BITS
  {
    hide LengthExtra, DistExtra, Pow2;
    SplitItem(i, ll, dl);
  }

  /** Two items cannot both be read from supplied zero bits alone, so the last token starts in the data. */
  lemma LastTokenInData(s: seq<nat>, ts: seq<Token>, ll: seq<nat>, dl: seq<nat>)
    requires Feasible(ll) && Feasible(dl) && AllEncodable(ts, ll, dl) && Encodable(End, ll, dl)
    requires ts != [] && Starts(s, BlockBits(ts, ll, dl))
    ensures |Encode(ts[..|ts| - 1], ll, dl)| < |s|
  {
    hide Starts, EncodeItem, Encodable;
    var k := |ts| - 1;
    var before, token, last := Encode(ts[..k], ll, dl), EncodeItem(Tok(ts[k]), ll, dl), EncodeItem(End, ll, dl);
    assert ts == ts[..k] + [ts[k]];
    EncodeAppend(ts[..k], ts[k], ll, dl);
    assert before + token + last == before + (token + last);
    if |before| >= |s| {
      StartsFirst(s, before, token + last);
      StartsBehind(s, before, token + last);
      assert Behind(s, before) == [];
      StartsFirst([], token, last);
      StartsBehind([], token, last);
      ItemUnique([], Tok(ts[k]), End, ll, dl);
    }
  }

  // ----- how much can be missing

  /** A word of zero bits is the code 0. */
  lemma ZeroWord(ls: seq<nat>, j: nat)
    requires Feasible(ls) && Used(ls, j) && Starts([], CodeWord(ls, j))
    ensures CodeOf(ls, j) == 0
  {
    var c, l := CodeOf(ls, j), ls[j];
    CodeFits(ls, j);
    forall t | 0 <= t < l ensures CodeBit(c, l, t) == WindowBit(0, t) {
      ZeroBit(t);
      assert CodeWord(ls, j)[t] == 0;
    }
    RevBits(0, c, l);
    RevZero(l);
  }

  lemma {:induction false} RevZero(n: nat)
    ensures Rev(0, n) == 0
  {
    if n > 0 {
      RevZero(n - 1);
      ZeroBit(n - 1);
    }
  }

  /** When end-of-block has the code 0, no code is shorter, and none of a literal is as short. */
  lemma FirstIsShortest(ll: seq<nat>, j: nat)
    requires Feasible(ll) && Used(ll, END_OF_BLOCK) && Used(ll, j) && CodeOf(ll, END_OF_BLOCK) == 0 && j != END_OF_BLOCK
    ensures ll[j] >= ll[END_OF_BLOCK] + (if j < 256 then 1 else 0)
    ensures CodeOf(ll, j) > 0
  {
    hide CodeOf;
    var e := ll[END_OF_BLOCK];
    if ll[j] < e || (ll[j] == e && j < END_OF_BLOCK) {
      CodesOrdered(ll, j, END_OF_BLOCK);
      ZeroShifted(16 - e);
    } else {
      CodesOrdered(ll, END_OF_BLOCK, j);
      ZeroShifted(16 - ll[j]);
    }
  }

  lemma {:induction false} ZeroShifted(k: nat)
    ensures Shl(0, k) == 0
  {
    if k > 0 { ZeroShifted(k - 1); }
  }

  /** One unit for each of the first 256 symbols, two for every other. */
  function Budget(n: nat, unit: nat): nat {
    if n == 0 then 0 else Budget(n - 1, unit) + if n <= 256 then unit else 2 * unit
  }

  lemma {:induction false} BudgetIs(n: nat, unit: nat)
    ensures Budget(n, unit) == (if n <= 256 then n else 2 * n - 256) * unit
  {
    if n > 0 {
      BudgetIs(n - 1, unit);
      Distribute(if n <= 257 then n - 1 else 2 * (n - 1) - 256, unit);
    }
  }

  lemma Distribute(f: nat, unit: nat)
    ensures (f + 1) * unit == f * unit + unit && (f + 2) * unit == f * unit + 2 * unit
  {
  }

  /** Lengths of which the first 256 are over `e` and all others at least `e` leave a small Kraft sum. */
  lemma {:induction false} KraftBelow(ls: seq<nat>, e: nat)
    requires Lengths(ls) && 0 < e <= MAX_BITS
    requires forall j :: 0 <= j < |ls| && ls[j] > 0 ==> ls[j] >= e + (if j < 256 then 1 else 0)
    ensures KraftSum(ls) <= Budget(|ls|, Pow2(15 - e))
  {
    hide Pow2;
    if ls != [] {
      var n := |ls| - 1;
      KraftBelow(ls[..n], e);
      LengthCost(ls[n], e);
    }
  }

  lemma LengthCost(x: nat, e: nat)
    requires e <= x <= MAX_BITS || x == 0
    requires 0 < e <= MAX_BITS
    ensures x > 0 ==> Pow2(16 - x) <= 2 * Pow2(15 - e)
    ensures x > e ==> Pow2(16 - x) <= Pow2(15 - e)
  {
    assert Pow2(16 - e) == 2 * Pow2(15 - e);
    if x > 0 { Pow2Monotone(16 - x, 16 - e); }
    if x > e { Pow2Monotone(16 - x, 15 - e); }
  }

  lemma {:induction false} TrailingZeros(c: nat, k: nat)
    requires c > 0 && forall i :: 0 <= i < k ==> Shr(c, i) % 2 == 0
    ensures c >= Pow2(k)
  {
    if k > 0 {
      assert Shr(c, 0) == c;
      forall i | 0 <= i < k - 1 ensures Shr(c / 2, i) % 2 == 0 { assert Shr(c, i + 1) % 2 == 0; }
      TrailingZeros(c / 2, k - 1);
      assert Pow2(k) == 2 * Pow2(k - 1);
    }
  }

  /**
   A symbol whose code word has `r` bits in the data, with zeros behind them and an end-of-block of zeros:
   288 symbols cannot make end-of-block more than seven bits longer than that.
   */
  lemma EndNotLong(ll: seq<nat>, sym: nat, r: nat)
    requires Feasible(ll) && |ll| <= NUM_SYMBOLS && Used(ll, END_OF_BLOCK) && Used(ll, sym) && sym != END_OF_BLOCK
    requires CodeOf(ll, END_OF_BLOCK) == 0 && 0 < r < ll[sym]
    requires forall t :: r <= t < ll[sym] ==> CodeWord(ll, sym)[t] == 0
    ensures ll[END_OF_BLOCK] <= r + 7
  {
    hide CodeOf, KraftSum, Pow2;
    var c, l, e := CodeOf(ll, sym), ll[sym], ll[END_OF_BLOCK];
    forall j: nat | j < |ll| && ll[j] > 0 ensures ll[j] >= e + (if j < 256 then 1 else 0) {
      if j != END_OF_BLOCK { FirstIsShortest(ll, j); }
    }
    KraftBelow(ll, e);
    FirstIsShortest(ll, sym);
    forall i | 0 <= i < l - r ensures Shr(c, i) % 2 == 0 {
      assert CodeWord(ll, sym)[l - 1 - i] == 0;
    }
    TrailingZeros(c, l - r);
    CodeInterval(ll, sym);
    LimitMonotone(ll, l, MAX_BITS);
    KraftIsLimit(ll);
    ShiftedBelow(c, l, r);
    KraftCap(ll, e);
    if e > r + 7 {
      Pow2Monotone(24 - e, 16 - r);
      EightMore(16 - e);
    }
  }

  lemma KraftCap(ll: seq<nat>, e: nat)
    requires |ll| <= NUM_SYMBOLS && Lengths(ll) && 0 < e <= MAX_BITS
    requires KraftSum(ll) <= Budget(|ll|, Pow2(15 - e))
    ensures KraftSum(ll) <= 160 * Pow2(16 - e)
  {
    hide Pow2, KraftSum, Budget;
    BudgetIs(|ll|, Pow2(15 - e));
    AtMost320(if |ll| <= 256 then |ll| else 2 * |ll| - 256, Pow2(15 - e));
    Pow2Next(15 - e);
  }

  lemma AtMost320(f: nat, p: nat)
    requires f <= 320
    ensures f * p <= 320 * p
  {
  }

  lemma Pow2Next(k: nat)
    ensures Pow2(k + 1) == 2 * Pow2(k)
  {
  }

  lemma EightMore(k: nat)
    ensures Pow2(k + 8) == 256 * Pow2(k)
  {
    assert Pow2(k + 1) == 2 * Pow2(k);
    assert Pow2(k + 2) == 2 * Pow2(k + 1);
    assert Pow2(k + 3) == 2 * Pow2(k + 2);
    assert Pow2(k + 4) == 2 * Pow2(k + 3);
    assert Pow2(k + 5) == 2 * Pow2(k + 4);
    assert Pow2(k + 6) == 2 * Pow2(k + 5);
    assert Pow2(k + 7) == 2 * Pow2(k + 6);
    assert Pow2(k + 8) == 2 * Pow2(k + 7);
  }

  lemma ShiftedBelow(c: nat, l: nat, r: nat)
    requires 0 < r < l <= MAX_BITS && c >= Pow2(l - r)
    ensures Pow2(16 - r) < Shl(c + 1, 16 - l)
  {
    ShlShl(1, l - r, 16 - l);
    ShlMonotone(Pow2(l - r) + 1, c + 1, 16 - l);
    ShlAdd(Pow2(l - r), 1, 16 - l);
  }

  /** The parts of a block with at least one token: what comes before the last token, the token, end-of-block. */
  lemma LastParts(ts: seq<Token>, ll: seq<nat>, dl: seq<nat>)
    requires AllEncodable(ts, ll, dl) && Encodable(End, ll, dl) && ts != []
    ensures BlockBits(ts, ll, dl)
         == Encode(ts[..|ts| - 1], ll, dl) + (EncodeItem(Tok(ts[|ts| - 1]), ll, dl) + EncodeItem(End, ll, dl))
  {
    hide EncodeItem, Encodable;
    var k := |ts| - 1;
    assert ts == ts[..k] + [ts[k]];
    EncodeAppend(ts[..k], ts[k], ll, dl);
    Assoc(Encode(ts[..k], ll, dl), EncodeItem(Tok(ts[k]), ll, dl), EncodeItem(End, ll, dl));
  }

  lemma Assoc(x: seq<nat>, y: seq<nat>, z: seq<nat>)
    ensures x + y + z == x + (y + z)
  {
  }

  /** The longest a last token and end-of-block can reach behind a stream that has `r` bits of them. */
  lemma TailMissing(left: seq<nat>, t: Token, ll: seq<nat>, dl: seq<nat>)
    requires Feasible(ll) && Feasible(dl) && Encodable(Tok(t), ll, dl) && Encodable(End, ll, dl) && left != []
    requires Starts(left, EncodeItem(Tok(t), ll, dl) + EncodeItem(End, ll, dl))
    ensures |EncodeItem(Tok(t), ll, dl)| + |EncodeItem(End, ll, dl)| <= |left| + MAX_TOKEN_BITS - 1 + MAX_BITS
    ensures |ll| <= NUM_SYMBOLS ==>
              |EncodeItem(Tok(t), ll, dl)| + |EncodeItem(End, ll, dl)| <= |left| + MAX_MISSING
  {
    hide Pow2, LengthExtra, DistExtra;
    var token, last := EncodeItem(Tok(t), ll, dl), EncodeItem(End, ll, dl);
    var sym, r := SymbolOf(Tok(t)), |left|;
    ItemLength(Tok(t), ll, dl);
    ItemLength(End, ll, dl);
    SplitItem(Tok(t), ll, dl);
    TokenTail(t, ll, dl);
    if r < ll[sym] && |ll| <= NUM_SYMBOLS {
      StartsFirst(left, token, last);
      StartsBehind(left, token, last);
      ZeroWord(ll, END_OF_BLOCK);
      StartsFirst(left, CodeWord(ll, sym), AfterSymbol(Tok(t), ll, dl));
      EndNotLong(ll, sym, r);
    }
  }

  lemma TokenTail(t: Token, ll: seq<nat>, dl: seq<nat>)
    requires Lengths(ll) && Lengths(dl) && Encodable(Tok(t), ll, dl)
    ensures |AfterSymbol(Tok(t), ll, dl)| <= MAX_TOKEN_BITS - MAX_BITS
  {
    hide LengthExtra, DistExtra, Pow2;
  }

  /**
   Everything before the last token of an accepted block lies in the data.  With tables of at most 288
   symbols the block ends at most 55 bits behind the data, and at most seven when it has no token.
   */
  lemma PaddingBounded(s: seq<nat>, m: Meter, out: seq<nat>, capacity: nat, ts: seq<Token>, ll: seq<nat>, dl: seq<nat>)
    requires Feasible(ll) && Feasible(dl) && |s| == m.bits + 8 * m.bytes
    requires Accepts(s, m, out, capacity, ts, ll, dl)
    ensures ts != [] ==> |Encode(ts[..|ts| - 1], ll, dl)| < |s|
    ensures |BlockBits(ts, ll, dl)| <= |s| + if ts == [] then 7 else MAX_TOKEN_BITS - 1 + MAX_BITS
    ensures |ll| <= NUM_SYMBOLS ==> |BlockBits(ts, ll, dl)| <= |s| + MAX_MISSING
  {
    hide Starts, Encodable, Fits, Passes, BlockBits, Encode, EncodeItem;
    if ts == [] {
      EmptyBlock(m, ll, dl);
    } else {
      LastTokenInData(s, ts, ll, dl);
      LastParts(ts, ll, dl);
      var k := |ts| - 1;
      var before, tail := Encode(ts[..k], ll, dl), EncodeItem(Tok(ts[k]), ll, dl) + EncodeItem(End, ll, dl);
      StartsFirst(s, before, tail);
      StartsBehind(s, before, tail);
      TailMissing(Behind(s, before), ts[k], ll, dl);
    }
  }

  lemma EmptyBlock(m: Meter, ll: seq<nat>, dl: seq<nat>)
    requires Lengths(ll) && Encodable(End, ll, dl) && Passes(m, [], ll, dl)
    ensures |BlockBits([], ll, dl)| <= m.bits + 8 * m.bytes + 7
    ensures ll[END_OF_BLOCK] <= 8 ==> |BlockBits([], ll, dl)| <= m.bits + 8 * m.bytes
  {
  }

  // ----- exactly which tables keep every accepted block inside the data

  ghost predicate NoTokens(ll: seq<nat>, dl: seq<nat>) {
    forall t :: !Encodable(Tok(t), ll, dl)
  }

  /** Every block that is accepted with at most `most` bits in the buffer lies on the stream. */
  ghost predicate AlwaysInData(ll: seq<nat>, dl: seq<nat>, most: nat) {
    forall s: seq<nat>, m: Meter, out: seq<nat>, capacity: nat, ts: seq<Token> ::
      |s| == m.bits + 8 * m.bytes && m.bits <= most && Accepts(s, m, out, capacity, ts, ll, dl) ==>
        BlockBits(ts, ll, dl) <= s
  }

  /** With an odd end-of-block code only blocks that lie on the data are accepted. */
  lemma OddEndInData(s: seq<nat>, ts: seq<Token>, ll: seq<nat>, dl: seq<nat>)
    requires AllEncodable(ts, ll, dl) && Encodable(End, ll, dl)
    requires Starts(s, BlockBits(ts, ll, dl)) && CodeOf(ll, END_OF_BLOCK) % 2 == 1
    ensures BlockBits(ts, ll, dl) <= s
  {
    var w := BlockBits(ts, ll, dl);
    assert w[|w| - 1] == CodeWord(ll, END_OF_BLOCK)[ll[END_OF_BLOCK] - 1] == 1;
    StartsPadded(s, 0, w);
    assert s + Zeros(0) == s;
  }

  /** With an even one, a block of nine bits or more is accepted when its last bit is missing. */
  lemma EvenEndMissed(out: seq<nat>, capacity: nat, ts: seq<Token>, ll: seq<nat>, dl: seq<nat>) returns (s: seq<nat>, m: Meter)
    requires Feasible(ll) && Feasible(dl) && AllEncodable(ts, ll, dl) && Encodable(End, ll, dl)
    requires Fits(out, capacity, ts) && |BlockBits(ts, ll, dl)| >= 9 && CodeOf(ll, END_OF_BLOCK) % 2 == 0
    ensures |s| == m.bits + 8 * m.bytes && m.bits + 9 == |BlockBits(ts, ll, dl)| == |s| + 1
    ensures Accepts(s, m, out, capacity, ts, ll, dl)
  {
    hide Fits, Passes, Encode;
    var w := BlockBits(ts, ll, dl);
    s, m := w[..|w| - 1], Meter(|w| - 9, 1, false);
    assert w[|w| - 1] == CodeWord(ll, END_OF_BLOCK)[ll[END_OF_BLOCK] - 1] == 0;
    EnoughPasses(m, ts, ll, dl);
  }

  function Copies(t: Token, k: nat): seq<Token> {
    seq(k, _ => t)
  }

  lemma {:induction false} CopiesLength(t: Token, k: nat, ll: seq<nat>, dl: seq<nat>)
    requires Encodable(Tok(t), ll, dl)
    ensures AllEncodable(Copies(t, k), ll, dl)
    ensures |Encode(Copies(t, k), ll, dl)| == k * |EncodeItem(Tok(t), ll, dl)|
  {
    hide EncodeItem, Encodable;
    if k > 0 {
      CopiesLength(t, k - 1, ll, dl);
      assert Copies(t, k)[1..] == Copies(t, k - 1);
      var n := |EncodeItem(Tok(t), ll, dl)|;
      assert (k - 1) * n + n == k * n;
    }
  }

  lemma {:induction false} CopiesExpand(out: seq<nat>, t: Token, k: nat)
    requires Playable(out, t)
    ensures Expand(out, Copies(t, k)).Some?
    decreases k
  {
    hide Play;
    if k > 0 {
      assert Copies(t, k)[1..] == Copies(t, k - 1);
      CopiesExpand(Play(out, t), t, k - 1);
    }
  }

  /** An output on which the token can be played. */
  lemma OutputFor(t: Token, ll: seq<nat>, dl: seq<nat>) returns (out: seq<nat>)
    requires Encodable(Tok(t), ll, dl)
    ensures Playable(out, t)
  {
    hide Pow2;
    out := if t.Match? then Zeros(DistBase(t.d) + t.de) else [];
  }

  /** As many copies as fill nine bits, and no more. */
  lemma CopiesNeeded(n: nat, e: nat) returns (k: nat)
    requires n > 0 && e <= 8
    ensures 9 <= k * n + e <= n + 8
  {
    var a := 8 - e;
    k := a / n + 1;
    assert a == a / n * n + a % n;
    assert k * n == a / n * n + n;
  }

  /** A token to fill the block with makes a short end-of-block as good as a long one. */
  lemma TokenFills(t: Token, ll: seq<nat>, dl: seq<nat>)
    returns (s: seq<nat>, m: Meter, out: seq<nat>, capacity: nat, ts: seq<Token>)
    requires Feasible(ll) && Feasible(dl) && Encodable(Tok(t), ll, dl) && Encodable(End, ll, dl)
    requires CodeOf(ll, END_OF_BLOCK) % 2 == 0 && ll[END_OF_BLOCK] <= 8
    ensures |s| == m.bits + 8 * m.bytes && m.bits < |EncodeItem(Tok(t), ll, dl)|
    ensures Accepts(s, m, out, capacity, ts, ll, dl) && |BlockBits(ts, ll, dl)| == |s| + 1
  {
    hide Accepts, Pow2, CodeOf, LengthExtra, DistExtra;
    SplitItem(Tok(t), ll, dl);
    var n, e := |EncodeItem(Tok(t), ll, dl)|, ll[END_OF_BLOCK];
    var k := CopiesNeeded(n, e);
    ts := Copies(t, k);
    out := OutputFor(t, ll, dl);
    CopiesLength(t, k, ll, dl);
    CopiesExpand(out, t, k);
    capacity := |Expand(out, ts).value|;
    hide Encode, Expand;
    s, m := EvenEndMissed(out, capacity, ts, ll, dl);
  }

  /**
   Every accepted block lies on the stream, whatever the stream and the state of the buffer, exactly when the
   end-of-block code is odd, or has at most eight bits and no token can be encoded.  A buffer of six bits, or of one
   bit less than some token, is enough to show a block that does not.
   */
  lemma AlwaysExact(ll: seq<nat>, dl: seq<nat>, most: nat, t: Token)
    requires Feasible(ll) && Feasible(dl) && Encodable(End, ll, dl) && most >= 6
    requires NoTokens(ll, dl) || (Encodable(Tok(t), ll, dl) && |EncodeItem(Tok(t), ll, dl)| <= most + 1)
    ensures AlwaysInData(ll, dl, most)
       <==> CodeOf(ll, END_OF_BLOCK) % 2 == 1 || (ll[END_OF_BLOCK] <= 8 && NoTokens(ll, dl))
  {
    hide Accepts, CodeOf, EncodeItem;
    if CodeOf(ll, END_OF_BLOCK) % 2 == 1 || (ll[END_OF_BLOCK] <= 8 && NoTokens(ll, dl)) {
      forall s: seq<nat>, m: Meter, out: seq<nat>, capacity: nat, ts: seq<Token>
        | |s| == m.bits + 8 * m.bytes && m.bits <= most && Accepts(s, m, out, capacity, ts, ll, dl)
        ensures AllEncodable(ts, ll, dl) && BlockBits(ts, ll, dl) <= s
      {
        InData(s, m, out, capacity, ts, ll, dl);
      }
    } else if ll[END_OF_BLOCK] <= 8 {
      var s, m, out, capacity, ts := TokenFills(t, ll, dl);
      NotInData(s, m, out, capacity, ts, ll, dl, most);
    } else {
      var s, m := EmptyMissed(ll, dl);
      NotInData(s, m, [], 0, [], ll, dl, most);
    }
  }

  lemma InData(s: seq<nat>, m: Meter, out: seq<nat>, capacity: nat, ts: seq<Token>, ll: seq<nat>, dl: seq<nat>)
    requires Lengths(ll) && |s| == m.bits + 8 * m.bytes && Accepts(s, m, out, capacity, ts, ll, dl)
    requires CodeOf(ll, END_OF_BLOCK) % 2 == 1 || (ll[END_OF_BLOCK] <= 8 && NoTokens(ll, dl))
    ensures AllEncodable(ts, ll, dl) && BlockBits(ts, ll, dl) <= s
  {
    hide CodeOf, Passes, Starts, Fits, BlockBits;
    if CodeOf(ll, END_OF_BLOCK) % 2 == 1 {
      OddEndInData(s, ts, ll, dl);
    } else {
      assert Encodable(NextItem(ts), ll, dl);
      EmptyBlock(m, ll, dl);
      StartsPadded(s, 0, BlockBits(ts, ll, dl));
      assert s + Zeros(0) == s;
    }
  }

  lemma NotInData(s: seq<nat>, m: Meter, out: seq<nat>, capacity: nat, ts: seq<Token>, ll: seq<nat>, dl: seq<nat>, most: nat)
    requires |s| == m.bits + 8 * m.bytes && m.bits <= most && Accepts(s, m, out, capacity, ts, ll, dl)
    requires |BlockBits(ts, ll, dl)| > |s|
    ensures !AlwaysInData(ll, dl, most)
  {
    assert !(BlockBits(ts, ll, dl) <= s);
  }

  lemma EmptyMissed(ll: seq<nat>, dl: seq<nat>) returns (s: seq<nat>, m: Meter)
    requires Feasible(ll) && Feasible(dl) && Encodable(End, ll, dl)
    requires CodeOf(ll, END_OF_BLOCK) % 2 == 0 && ll[END_OF_BLOCK] > 8
    ensures |s| == m.bits + 8 * m.bytes && m.bits <= 6
    ensures Accepts(s, m, [], 0, [], ll, dl) && |BlockBits([], ll, dl)| == |s| + 1
  {
    hide Accepts, CodeOf;
    s, m := EvenEndMissed([], 0, [], ll, dl);
  }
}
