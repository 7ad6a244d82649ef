/**
 The fixed code of section 3.2.6 of RFC 1951 in full, and one compressed stream as another implementation of the
 standard writes it.
 */
module InflateExample {
  import opened Basics
  import opened CanonicalCode
  import opened ZlibHuffman
  import opened ZlibBuffer
  import opened Inflate
  import opened InflateTables

  // ----- the table of section 3.2.6

  lemma FirstCodes()
    ensures FirstCode(FixedLengths(), 7) == 0 && FirstCode(FixedLengths(), 8) == 48 && FirstCode(FixedLengths(), 9) == 400
  {
    hide FixedLengths, Count;
    FixedFirst(7);
    FixedCount(7);
    FixedCount(8);
  }

  lemma {:induction false} DistanceFirst(s: nat)
    requires 1 <= s <= 5
    ensures FirstCode(FixedDistances(), s) == 0
  {
    hide Repeat, Count;
    if s > 1 {
      DistanceFirst(s - 1);
      CountRepeat(32, 5, s - 1);
    }
  }

  lemma Prefix(j: nat)
    requires j < 288
    ensures FixedLengths()[..j] ==
              if j < 144 then Repeat(j, 8)
              else if j < 256 then Repeat(144, 8) + Repeat(j - 144, 9)
              else if j < 280 then Repeat(144, 8) + Repeat(112, 9) + Repeat(j - 256, 7)
              else Repeat(144, 8) + Repeat(112, 9) + Repeat(24, 7) + Repeat(j - 280, 8)
  {
  }

  /** Literals 0 to 143 have eight bits from 00110000 on, up to 255 nine from 110010000, then come seven from 0000000. */
  lemma FixedTable(j: nat)
    requires j < 288
    ensures Used(FixedLengths(), j)
    ensures FixedLengths()[j] == if j < 144 then 8 else if j < 256 then 9 else if j < 280 then 7 else 8
    ensures CodeOf(FixedLengths(), j) ==
              if j < 144 then 0x30 + j else if j < 256 then 0x190 + (j - 144) else if j < 280 then j - 256 else 0xC0 + (j - 280)
  {
    FirstCodes();
    Prefix(j);
    var s := FixedLengths()[j];
    hide FirstCode, Count;
    if j < 144 {
      CountRepeat(j, 8, s);
    } else if j < 256 {
      CountAppend(Repeat(144, 8), Repeat(j - 144, 9), s);
      CountRepeat(144, 8, s);
      CountRepeat(j - 144, 9, s);
    } else if j < 280 {
      CountAppend(Repeat(144, 8) + Repeat(112, 9), Repeat(j - 256, 7), s);
      CountAppend(Repeat(144, 8), Repeat(112, 9), s);
      CountRepeat(144, 8, s);
      CountRepeat(112, 9, s);
      CountRepeat(j - 256, 7, s);
    } else {
      CountAppend(Repeat(144, 8) + Repeat(112, 9) + Repeat(24, 7), Repeat(j - 280, 8), s);
      CountAppend(Repeat(144, 8) + Repeat(112, 9), Repeat(24, 7), s);
      CountAppend(Repeat(144, 8), Repeat(112, 9), s);
      CountRepeat(144, 8, s);
      CountRepeat(112, 9, s);
      CountRepeat(24, 7, s);
      CountRepeat(j - 280, 8, s);
    }
  }

  /** Distance codes are their own five-bit codes. */
  lemma FixedDistanceTable(d: nat)
    requires d < 32
    ensures Used(FixedDistances(), d) && FixedDistances()[d] == 5 && CodeOf(FixedDistances(), d) == d
  {
    DistanceFirst(5);
    assert FixedDistances()[..d] == Repeat(d, 5);
    CountRepeat(d, 5, 5);
  }

  // ----- bits written out

  lemma Shifts(v: nat)
    ensures Shr(v, 0) == v && Shr(v, 1) == v / 2 && Shr(v, 2) == v / 4 && Shr(v, 3) == v / 8
    ensures Shr(v, 4) == v / 16 && Shr(v, 5) == v / 32 && Shr(v, 6) == v / 64 && Shr(v, 7) == v / 128
  {
    ShrHalf(v, 0);
    ShrHalf(v, 1);
    ShrHalf(v, 2);
    ShrHalf(v, 3);
    ShrHalf(v, 4);
    ShrHalf(v, 5);
    ShrHalf(v, 6);
  }

  function UpEight(v: nat): seq<nat> {
    [v % 2, v / 2 % 2, v / 4 % 2, v / 8 % 2, v / 16 % 2, v / 32 % 2, v / 64 % 2, v / 128 % 2]
  }

  lemma ByteOnStream(v: nat)
    ensures BitsOf(v, 8) == UpEight(v)
  {
    Shifts(v);
  }

  lemma EightBitWord(ls: seq<nat>, j: nat)
    requires Used(ls, j) && ls[j] == 8
    ensures var c := CodeOf(ls, j);
            CodeWord(ls, j) == [c / 128 % 2, c / 64 % 2, c / 32 % 2, c / 16 % 2, c / 8 % 2, c / 4 % 2, c / 2 % 2, c % 2]
  {
    hide CodeOf;
    Shifts(CodeOf(ls, j));
  }

  lemma SevenBitWord(ls: seq<nat>, j: nat)
    requires Used(ls, j) && ls[j] == 7
    ensures var c := CodeOf(ls, j);
            CodeWord(ls, j) == [c / 64 % 2, c / 32 % 2, c / 16 % 2, c / 8 % 2, c / 4 % 2, c / 2 % 2, c % 2]
  {
    hide CodeOf;
    Shifts(CodeOf(ls, j));
  }

  lemma FiveBitWord(ls: seq<nat>, j: nat)
    requires Used(ls, j) && ls[j] == 5
    ensures var c := CodeOf(ls, j); CodeWord(ls, j) == [c / 16 % 2, c / 8 % 2, c / 4 % 2, c / 2 % 2, c % 2]
  {
    hide CodeOf;
    Shifts(CodeOf(ls, j));
  }

  // ----- a stream of zlib

  /** What zlib makes of "abcdefabcdefabcdef" with the fixed codes. */
  const STREAM: seq<nat> := [0x4B, 0x4C, 0x4A, 0x4E, 0x49, 0x4D, 0x4B, 0x44, 0x22, 0x01]

  /** Seven letters, and eleven bytes from six back. */
  const LETTERS: seq<Token> :=
    [Literal(97), Literal(98), Literal(99), Literal(100), Literal(101), Literal(102), Literal(97)]

  const REPEAT: Token := Match(8, 0, 4, 1)

  const TEXT: seq<nat> := [97, 98, 99, 100, 101, 102, 97, 98, 99, 100, 101, 102, 97, 98, 99, 100, 101, 102]

  /** Byte `i` of the stream, low bit first. */
  function StreamByte(i: nat): seq<nat>
    requires i < 10
  {
    [[1, 1, 0, 1, 0, 0, 1, 0],
     [0, 0, 1, 1, 0, 0, 1, 0],
     [0, 1, 0, 1, 0, 0, 1, 0],
     [0, 1, 1, 1, 0, 0, 1, 0],
     [1, 0, 0, 1, 0, 0, 1, 0],
     [1, 0, 1, 1, 0, 0, 1, 0],
     [1, 1, 0, 1, 0, 0, 1, 0],
     [0, 0, 1, 0, 0, 0, 1, 0],
     [0, 1, 0, 0, 0, 1, 0, 0],
     [1, 0, 0, 0, 0, 0, 0, 0]][i]
  }

  /** The first `n` bytes. */
  function StreamBytes(n: nat): seq<nat>
    requires n <= 10
  {
    if n == 0 then [] else StreamBytes(n - 1) + StreamByte(n - 1)
  }

  lemma {:induction false} ByteBitsAppend(x: seq<nat>, v: nat)
    ensures ByteBits(x + [v]) == ByteBits(x) + UpEight(v)
  {
    hide UpEight, BitsOf;
    ByteOnStream(v);
    if x == [] {
      assert [v][1..] == [] && x + [v] == [v];
    } else {
      ByteBitsAppend(x[1..], v);
      assert (x + [v])[1..] == x[1..] + [v];
    }
  }

  lemma StreamByteIs(i: nat)
    requires i < 10
    ensures UpEight(STREAM[i]) == StreamByte(i)
  {
  }

  lemma {:induction false} StreamBits(n: nat)
    requires n <= 10
    ensures ByteBits(STREAM[..n]) == StreamBytes(n)
  {
    hide UpEight, StreamByte;
    if n > 0 {
      StreamBits(n - 1);
      StreamByteIs(n - 1);
      ByteBitsAppend(STREAM[..n - 1], STREAM[n - 1]);
      assert STREAM[..n] == STREAM[..n - 1] + [STREAM[n - 1]];
    }
  }

  lemma LiteralWord(c: nat)
    requires 97 <= c <= 102
    ensures Used(FixedLengths(), c)
    ensures CodeWord(FixedLengths(), c) ==               if c == 97 then [1, 0, 0, 1, 0, 0, 0, 1]
              else if c == 98 then [1, 0, 0, 1, 0, 0, 1, 0]
              else if c == 99 then [1, 0, 0, 1, 0, 0, 1, 1]
              else if c == 100 then [1, 0, 0, 1, 0, 1, 0, 0]
              else if c == 101 then [1, 0, 0, 1, 0, 1, 0, 1]
              else [1, 0, 0, 1, 0, 1, 1, 0]
  {
    hide FixedLengths, CodeWord, CodeOf;
    FixedTable(c);
    EightBitWord(FixedLengths(), c);
  }

  lemma OtherWords()
    ensures Used(FixedLengths(), 256) && CodeWord(FixedLengths(), 256) == [0, 0, 0, 0, 0, 0, 0]
    ensures Used(FixedLengths(), 265) && CodeWord(FixedLengths(), 265) == [0, 0, 0, 1, 0, 0, 1]
    ensures Used(FixedDistances(), 4) && CodeWord(FixedDistances(), 4) == [0, 0, 1, 0, 0]
    ensures BitsOf(0, 1) == [0] && BitsOf(1, 1) == [1]
  {
    hide FixedLengths, FixedDistances, CodeWord, CodeOf;
    FixedTable(256);
    FixedTable(265);
    FixedDistanceTable(4);
    SevenBitWord(FixedLengths(), 256);
    SevenBitWord(FixedLengths(), 265);
    FiveBitWord(FixedDistances(), 4);
  }

  lemma RepeatBits()
    ensures Encodable(Tok(REPEAT), FixedLengths(), FixedDistances())
    ensures EncodeItem(Tok(REPEAT), FixedLengths(), FixedDistances()) == RepeatWord()
  {
    OtherWords();
    ExtraBits(8, 4);
    SmallPowers();
    hide FixedLengths, FixedDistances, CodeWord, BitsOf, Pow2, LengthExtra, DistExtra;
  }

  /** The first `n` letters. */
  lemma {:induction false} LetterBits(n: nat)
    requires n <= 7
    ensures AllEncodable(LETTERS[..n], FixedLengths(), FixedDistances())
    ensures Encode(LETTERS[..n], FixedLengths(), FixedDistances()) == Letters(n)
  {
    hide FixedLengths, FixedDistances, CodeWord, LetterWord;
    var ll, dl := FixedLengths(), FixedDistances();
    if n > 0 {
      LetterBits(n - 1);
      LetterIs(n - 1);
      EncodeAppend(LETTERS[..n - 1], LETTERS[n - 1], ll, dl);
      assert LETTERS[..n] == LETTERS[..n - 1] + [LETTERS[n - 1]];
    }
  }

  lemma LetterIs(n: nat)
    requires n < 7
    ensures LETTERS[n].Literal? && LETTERS[n].b < 256 && Used(FixedLengths(), LETTERS[n].b)
    ensures CodeWord(FixedLengths(), LETTERS[n].b) == LetterWord(n)
  {
    hide FixedLengths, CodeWord;
    LiteralWord(LETTERS[n].b);
  }

  function Letters(n: nat): seq<nat>
    requires n <= 7
  {
    if n == 0 then [] else Letters(n - 1) + LetterWord(n - 1)
  }

  function LetterWord(n: nat): seq<nat>
    requires n < 7
  {
    [[1, 0, 0, 1, 0, 0, 0, 1],
     [1, 0, 0, 1, 0, 0, 1, 0],
     [1, 0, 0, 1, 0, 0, 1, 1],
     [1, 0, 0, 1, 0, 1, 0, 0],
     [1, 0, 0, 1, 0, 1, 0, 1],
     [1, 0, 0, 1, 0, 1, 1, 0],
     [1, 0, 0, 1, 0, 0, 0, 1]][n]
  }

  // Bytes and code words are two groupings of the same bits: three bits of each letter are in the next byte.

  function Carry(n: nat): seq<nat>
    requires n <= 7
  {
    [[1, 1, 0], [0, 0, 1], [0, 1, 0], [0, 1, 1], [1, 0, 0], [1, 0, 1], [1, 1, 0], [0, 0, 1]][n]
  }

  lemma CarryOn(n: nat)
    requires n < 7
    ensures Carry(n) + LetterWord(n) == StreamByte(n) + Carry(n + 1)
  {
  }

  lemma {:induction false} LettersGrouped(n: nat)
    requires n <= 7
    ensures [1, 1, 0] + Letters(n) == StreamBytes(n) + Carry(n)
  {
    hide LetterWord, StreamByte;
    if n > 0 {
      LettersGrouped(n - 1);
      CarryOn(n - 1);
      assert [1, 1, 0] + (Letters(n - 1) + LetterWord(n - 1)) == [1, 1, 0] + Letters(n - 1) + LetterWord(n - 1);
      assert StreamBytes(n - 1) + Carry(n - 1) + LetterWord(n - 1) == StreamBytes(n - 1) + (Carry(n - 1) + LetterWord(n - 1));
      assert StreamBytes(n - 1) + (StreamByte(n - 1) + Carry(n)) == StreamBytes(n - 1) + StreamByte(n - 1) + Carry(n);
    }
  }

  function RepeatWord(): seq<nat> {
    [0, 0, 0, 1, 0, 0, 1] + [0] + [0, 0, 1, 0, 0] + [1]
  }

  function EndWord(): seq<nat> {
    [0, 0, 0, 0, 0, 0, 0]
  }

  lemma LastBytes()
    ensures Carry(7) + RepeatWord() + EndWord() == StreamByte(7) + StreamByte(8) + StreamByte(9)
  {
  }

  lemma Regrouped()
    ensures [1, 1, 0] + (Letters(7) + RepeatWord() + EndWord()) == StreamBytes(10)
  {
    hide Letters, Carry, RepeatWord, EndWord, StreamByte;
    LettersGrouped(7);
    LastBytes();
    var x, c, r, e, p, q, t := StreamBytes(7), Carry(7), RepeatWord(), EndWord(), StreamByte(7), StreamByte(8), StreamByte(9);
    assert [1, 1, 0] + (Letters(7) + r + e) == [1, 1, 0] + Letters(7) + r + e;
    assert x + c + r + e == x + (c + r + e);
    assert x + (p + q + t) == x + p + q + t;
    assert StreamBytes(10) == StreamBytes(8) + q + t;
  }

  lemma BlockWords()
    ensures var ll, dl := FixedLengths(), FixedDistances();
            && AllEncodable(LETTERS + [REPEAT], ll, dl) && Encodable(End, ll, dl)
            && BlockBits(LETTERS + [REPEAT], ll, dl) == Letters(7) + RepeatWord() + EndWord()
  {
    OtherWords();
    EndBits();
    RepeatBits();
    LetterBits(7);
    assert LETTERS[..7] == LETTERS;
    hide FixedLengths, FixedDistances, Encodable, EncodeItem, Encode, Letters, RepeatWord, EndWord, LETTERS;
    EncodeAppend(LETTERS, REPEAT, FixedLengths(), FixedDistances());
  }

  lemma EndBits()
    ensures Encodable(End, FixedLengths(), FixedDistances())
    ensures EncodeItem(End, FixedLengths(), FixedDistances()) == EndWord()
  {
    OtherWords();
    hide FixedLengths, FixedDistances, CodeWord;
  }

  /** The stream is the header of a last block with the fixed codes, and that block, up to its last bit. */
  lemma StreamIsBlock()
    ensures var ll, dl := FixedLengths(), FixedDistances();
            && AllEncodable(LETTERS + [REPEAT], ll, dl) && Encodable(End, ll, dl)
            && ByteBits(STREAM) == [1, 1, 0] + BlockBits(LETTERS + [REPEAT], ll, dl)
  {
    hide FixedLengths, FixedDistances, ByteBits, BlockBits, Letters, StreamBytes, RepeatWord, EndWord;
    BlockWords();
    StreamBits(10);
    assert STREAM[..10] == STREAM;
    Regrouped();
  }

  /** Played, the block is the text. */
  lemma StreamExpands()
    ensures Expand([], LETTERS + [REPEAT]) == Some(TEXT)
  {
    LettersPlayed(7);
    assert LETTERS[..7] == LETTERS;
    hide Expand, Copy, LengthBase, DistBase;
    RepeatPlayed();
    ExpandAppend([], LETTERS, REPEAT);
  }

  lemma RepeatPlayed()
    ensures Playable(TEXT[..7], REPEAT) && Play(TEXT[..7], REPEAT) == TEXT
  {
    assert DistBase(4) == 5 && LengthBase(8) == 11;
    hide LengthBase, DistBase;
    CopyRepeats(TEXT[..7], 6, 11);
    hide Copy;
    var r := Copy(TEXT[..7], 6, 11);
    forall i | 0 <= i < 18 ensures r[i] == TEXT[i] {
      SameText(r, i);
    }
  }

  lemma {:induction false} LettersPlayed(n: nat)
    requires n <= 7
    ensures Expand([], LETTERS[..n]) == Some(TEXT[..n])
  {
    if n > 0 {
      LettersPlayed(n - 1);
      ExpandAppend([], LETTERS[..n - 1], LETTERS[n - 1]);
      assert LETTERS[..n] == LETTERS[..n - 1] + [LETTERS[n - 1]];
      assert TEXT[..n] == TEXT[..n - 1] + [TEXT[n - 1]];
    }
  }

  lemma {:induction false} SameText(r: seq<nat>, i: nat)
    requires |r| == 18 && TEXT[..7] <= r && i < 18 && forall k :: 7 <= k < 18 ==> r[k] == r[k - 6]
    ensures r[i] == TEXT[i]
  {
    if i < 7 {
      assert r[i] == r[..7][i];
    } else {
      SameText(r, i - 6);
    }
  }

  /** The decoder, past the header, accepts the stream with exactly these tokens. */
  lemma StreamAccepted(capacity: nat)
    requires capacity >= 18
    ensures Accepts(ByteBits(STREAM)[3..], Meter(5, 9, false), [], capacity, LETTERS + [REPEAT], FixedLengths(), FixedDistances())
    ensures Expand([], LETTERS + [REPEAT]) == Some(TEXT)
  {
    hide FixedLengths, FixedDistances, BlockBits, Encodable;
    StreamIsBlock();
    StreamExpands();
    FixedSizes();
    var ll, dl, ts := FixedLengths(), FixedDistances(), LETTERS + [REPEAT];
    ByteBitsLength(STREAM);
    var s := ByteBits(STREAM)[3..];
    assert s == BlockBits(ts, ll, dl);
    HoldsExact(s, Meter(5, 9, false), [], capacity, ts, ll, dl);
  }
}
