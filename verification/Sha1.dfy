/** Streaming SHA-1 against the padded message and the block function of FIPS 180-4. */
module Sha1 {
  import opened BigEndian

  type Byte = bv8
  type Word = bv32

  datatype Digest = Digest(a: Word, b: Word, c: Word, d: Word, e: Word)

  const INITIAL: Digest := Digest(0x67452301, 0xEFCDAB89, 0x98BADCFE, 0x10325476, 0xC3D2E1F0)

  // ----- the block function (sections 4.1.1, 4.2.1 and 6.1.2)

  function Rotl1(x: Word): Word {
    (x << 1) | (x >> 31)
  }

  function Rotl5(x: Word): Word {
    (x << 5) | (x >> 27)
  }

  function Rotl30(x: Word): Word {
    (x << 30) | (x >> 2)
  }

  function Ch(x: Word, y: Word, z: Word): Word {
    (x & y) ^ (!x & z)
  }

  function Parity(x: Word, y: Word, z: Word): Word {
    x ^ y ^ z
  }

  function Maj(x: Word, y: Word, z: Word): Word {
    (x & y) ^ (x & z) ^ (y & z)
  }

  function F(t: nat, x: Word, y: Word, z: Word): Word {
    if t < 20 then Ch(x, y, z) else if t < 40 then Parity(x, y, z) else if t < 60 then Maj(x, y, z) else Parity(x, y, z)
  }

  function K(t: nat): Word {
    if t < 20 then 0x5A827999 else if t < 40 then 0x6ED9EBA1 else if t < 60 then 0x8F1BBCDC else 0xCA62C1D6
  }

  type Block = b: seq<Byte> | |b| == 64 witness seq(64, _ => 0)

  function BigWord(b0: Byte, b1: Byte, b2: Byte, b3: Byte): Word {
    ((b0 as bv32) << 24) | ((b1 as bv32) << 16) | ((b2 as bv32) << 8) | (b3 as bv32)
  }

  function Xor4(a: Word, b: Word, c: Word, d: Word): Word {
    a ^ b ^ c ^ d
  }

  /** The message schedule. */
  function W(block: Block, t: nat): Word
    decreases t
  {
    if t < 16 then BigWord(block[4 * t], block[4 * t + 1], block[4 * t + 2], block[4 * t + 3])
    else Rotl1(Xor4(W(block, t - 3), W(block, t - 8), W(block, t - 14), W(block, t - 16)))
  }

  function Sum5(a: Word, b: Word, c: Word, d: Word, e: Word): Word {
    a + b + c + d + e
  }

  /** One round. */
  function Round(s: Digest, t: nat, w: Word): Digest {
    Digest(Sum5(Rotl5(s.a), F(t, s.b, s.c, s.d), s.e, K(t), w), s.a, Rotl30(s.b), s.c, s.d)
  }

  function Rounds(block: Block, s: Digest, t: nat): Digest
    decreases t
  {
    if t == 0 then s else Round(Rounds(block, s, t - 1), t - 1, W(block, t - 1))
  }

  function Plus(x: Digest, y: Digest): Digest {
    Digest(x.a + y.a, x.b + y.b, x.c + y.c, x.d + y.d, x.e + y.e)
  }

  function Compress(s: Digest, block: Block): Digest {
    Plus(s, Rounds(block, s, 80))
  }

  // ----- the message (sections 5.1.1 and 6.1.2)

  function Zeros(n: nat): seq<Byte> {
    seq(n, _ => 0)
  }

  /** A one bit, zeros up to eight bytes before the end of a block, and the length in bits. */
  function Padded(m: seq<Byte>): seq<Byte> {
    m + [0x80] + Zeros((55 - |m|) % 64) + EightBytes(8 * |m|)
  }

  /** The digest after `n` blocks. */
  function HashBlocks(m: seq<Byte>, n: nat): Digest
    requires 64 * n <= |m|
  {
    if n == 0 then INITIAL else Compress(HashBlocks(m, n - 1), m[64 * (n - 1)..64 * n])
  }

  // ----- what the code computes of the round functions

  function CodeCh(b: Word, c: Word, d: Word): Word {
    (b & c) | (!b & d)
  }

  function CodeMaj(b: Word, c: Word, d: Word): Word {
    (b & c) | (b & d) | (c & d)
  }

  function CodeRotl1(x: Word): Word {
    (x << 1) ^ (x >> 31)
  }

  function CodeRotl5(x: Word): Word {
    (x << 5) ^ (x >> 27)
  }

  function CodeRotl30(x: Word): Word {
    (x << 30) ^ (x >> 2)
  }

  lemma ChWords(b: Word, c: Word, d: Word)
    ensures (b & c) | (!b & d) == (b & c) ^ (!b & d)
  {
  }

  lemma ChAgrees(b: Word, c: Word, d: Word)
    ensures CodeCh(b, c, d) == Ch(b, c, d)
  {
    ChWords(b, c, d);
  }

  lemma MajWords(b: Word, c: Word, d: Word)
    ensures (b & c) | (b & d) | (c & d) == (b & c) ^ (b & d) ^ (c & d)
  {
  }

  lemma MajAgrees(b: Word, c: Word, d: Word)
    ensures CodeMaj(b, c, d) == Maj(b, c, d)
  {
    MajWords(b, c, d);
  }

  lemma RotationsAgree(x: Word)
    ensures CodeRotl1(x) == Rotl1(x) && CodeRotl5(x) == Rotl5(x) && CodeRotl30(x) == Rotl30(x)
  {
  }

  /** The function of round `t` as the code branches on it. */
  method RoundFunction(t: nat, b: Word, c: Word, d: Word) returns (f: Word, k: Word)
    ensures f == F(t, b, c, d) && k == K(t)
  {
    ChAgrees(b, c, d);
    MajAgrees(b, c, d);
    hide Ch, Maj, CodeCh, CodeMaj, Parity;
    if t < 20 {
      f, k := CodeCh(b, c, d), 0x5A827999;
    } else if t < 40 {
      f, k := Parity(b, c, d), 0x6ED9EBA1;
    } else if t < 60 {
      f, k := CodeMaj(b, c, d), 0x8F1BBCDC;
    } else {
      f, k := Parity(b, c, d), 0xCA62C1D6;
    }
  }

  lemma FirstWords(block: Block, t: nat)
    requires t < 16
    ensures W(block, t) == BigWord(block[4 * t], block[4 * t + 1], block[4 * t + 2], block[4 * t + 3])
  {
    hide BigWord;
  }

  lemma LaterWords(block: Block, t: nat)
    requires t >= 16
    ensures W(block, t) == Rotl1(Xor4(W(block, t - 3), W(block, t - 8), W(block, t - 14), W(block, t - 16)))
  {
    hide BigWord, Rotl1, Xor4;
  }

  method Schedule(block: array<Byte>) returns (w: array<Word>)
    requires block.Length == 64
    ensures fresh(w) && w.Length == 80 && forall t :: 0 <= t < 80 ==> w[t] == W(block[..], t)
  {
    hide BigWord, Rotl1, CodeRotl1, Xor4, W;
    ghost var words := block[..];
    w := new Word[80](_ => 0);
    for i := 0 to 16
      invariant forall t :: 0 <= t < i ==> w[t] == W(words, t)
    {
      FirstWords(words, i);
      w[i] := BigWord(block[4 * i], block[4 * i + 1], block[4 * i + 2], block[4 * i + 3]);
    }
    for i := 16 to 80
      invariant forall t :: 0 <= t < i ==> w[t] == W(words, t)
    {
      LaterWords(words, i);
      var x := Xor4(w[i - 3], w[i - 8], w[i - 14], w[i - 16]);
      RotationsAgree(x);
      w[i] := CodeRotl1(x);
    }
  }

  lemma NoRounds(block: Block, s: Digest)
    ensures Rounds(block, s, 0) == s
  {
  }

  lemma NextRound(block: Block, s: Digest, t: nat)
    ensures Rounds(block, s, t + 1) == Round(Rounds(block, s, t), t, W(block, t))
  {
  }

  method ProcessBlock(digest: Digest, block: array<Byte>) returns (r: Digest)
    requires block.Length == 64
    ensures r == Compress(digest, block[..])
  {
    hide W, F, K, Sum5, Plus, Rotl5, Rotl30, CodeRotl5, CodeRotl30, Rounds;
    ghost var contents := block[..];
    NoRounds(contents, digest);
    var w := Schedule(block);
    assert block[..] == contents;
    var a, b, c, d, e := digest.a, digest.b, digest.c, digest.d, digest.e;
    for i := 0 to 80
      invariant w.Length == 80 && forall t :: 0 <= t < 80 ==> w[t] == W(contents, t)
      invariant Digest(a, b, c, d, e) == Rounds(contents, digest, i)
    {
      var f, k := RoundFunction(i, b, c, d);
      RotationsAgree(a);
      RotationsAgree(b);
      var temp := Sum5(CodeRotl5(a), f, e, k, w[i]);
      a, b, c, d, e := temp, a, CodeRotl30(b), c, d;
      NextRound(contents, digest, i);
    }
    r := Plus(digest, Digest(a, b, c, d, e));
  }

  // ----- streaming

  lemma {:induction false} HashPrefix(m: seq<Byte>, x: seq<Byte>, n: nat)
    requires 64 * n <= |m|
    ensures HashBlocks(m + x, n) == HashBlocks(m, n)
    decreases n
  {
    hide Compress;
    if n > 0 {
      HashPrefix(m, x, n - 1);
      assert (m + x)[64 * (n - 1)..64 * n] == m[64 * (n - 1)..64 * n];
    }
  }

  /** What `getDigest` appends: only the lower four bytes of the length are written. */
  function CodePadded(m: seq<Byte>): seq<Byte> {
    m + [0x80] + Zeros((55 - |m|) % 64) + CodeLength(8 * |m|)
  }

  function CodeLength(n: nat): seq<Byte> {
    [0, 0, 0, 0, Digit(n, 3), Digit(n, 2), Digit(n, 1), Digit(n, 0)]
  }

  /** The padding is that of the standard exactly for messages under 2 to the power 29 bytes. */
  lemma PaddingExact(m: seq<Byte>)
    requires 8 * |m| < 0x1_0000_0000_0000_0000
    ensures CodePadded(m) == Padded(m) <==> |m| < 0x2000_0000
  {
    hide Digit;
    HighBytesZero(8 * |m|);
    var front := m + [0x80] + Zeros((55 - |m|) % 64);
    if CodePadded(m) == Padded(m) {
      assert CodePadded(m)[|front|..] == CodeLength(8 * |m|) && Padded(m)[|front|..] == EightBytes(8 * |m|);
      assert forall i :: 0 <= i < 8 ==> CodeLength(8 * |m|)[i] == EightBytes(8 * |m|)[i];
    }
  }

  /** At 2 to the power 29 bytes the written length is 0, as for the empty message. */
  lemma PaddingFails(m: seq<Byte>)
    requires |m| == 0x2000_0000
    ensures CodeLength(8 * |m|) == CodeLength(0) && CodePadded(m) != Padded(m)
  {
    hide Padded, CodePadded;
    PaddingExact(m);
    LengthWraps();
  }

  lemma DigitUp(n: nat, k: nat)
    ensures Digit(256 * n, k + 1) == Digit(n, k) && Digit(256 * n, 0) == 0
  {
    assert 256 * n / 256 == n && 256 * n % 256 == 0;
  }

  lemma LengthWraps()
    ensures CodeLength(0x1_0000_0000) == CodeLength(0)
  {
    hide Digit;
    DigitUp(0x100_0000, 0);
    DigitUp(0x100_0000, 1);
    DigitUp(0x100_0000, 2);
    DigitUp(0x1_0000, 0);
    DigitUp(0x1_0000, 1);
    DigitUp(0x100, 0);
    DigitUp(1, 0);
    DigitUp(0, 0);
    DigitUp(0, 1);
    DigitUp(0, 2);
  }

  class Hasher {
    var digest: Digest
    const block: array<Byte>
    var index: nat
    var byteCount: nat
    ghost var message: seq<Byte>

    /** Whole blocks are hashed, the rest is in the block buffer. */
    ghost predicate Valid()
      reads this, block
    {
      && block.Length == 64 && index < 64 && index == |message| % 64 && byteCount == |message|
      && (forall i :: 0 <= i < index ==> block[i] == message[|message| - index + i])
      && digest == HashBlocks(message, |message| / 64)
    }

    constructor ()
      ensures Valid() && fresh(block) && message == []
    {
      digest, index, byteCount := INITIAL, 0, 0;
      message := [];
      block := new Byte[64](_ => 0);
    }

    method ProcessByte(octet: Byte)
      requires Valid()
      modifies this, block
      ensures Valid() && message == old(message) + [octet]
    {
      hide Compress, HashBlocks;
      ghost var m := message;
      block[index] := octet;
      index := index + 1;
      byteCount := byteCount + 1;
      message := message + [octet];
      HashPrefix(m, [octet], |m| / 64);
      if index == 64 {
        index := 0;
        digest := ProcessBlock(digest, block);
        BlockFull(m, octet, block[..]);
      }
    }

    method ProcessBytes(data: seq<Byte>)
      requires Valid()
      modifies this, block
      ensures Valid() && message == old(message) + data
    {
      hide HashBlocks;
      for i := 0 to |data|
        invariant Valid() && message == old(message) + data[..i]
      {
        ProcessByte(data[i]);
        assert data[..i] + [data[i]] == data[..i + 1];
      }
      assert data[..|data|] == data;
    }

    /** Zeros until 56 bytes are in the block. */
    method FillToLength() returns (ghost n: nat)
      requires Valid() && index <= 56
      modifies this, block
      ensures Valid() && index == 56 && n == 56 - old(index) && message == old(message) + Zeros(n)
    {
      hide HashBlocks;
      n := 0;
      while index < 56
        invariant Valid() && index == old(index) + n <= 56 && message == old(message) + Zeros(n)
        decreases 56 - index
      {
        ProcessByte(0);
        n := n + 1;
        assert Zeros(n) == Zeros(n - 1) + [0];
      }
    }

    /** Zeros until the block is hashed. */
    method FillBlock() returns (ghost n: nat)
      requires Valid() && index > 0
      modifies this, block
      ensures Valid() && index == 0 && n == 64 - old(index) && message == old(message) + Zeros(n)
    {
      hide HashBlocks;
      n := 0;
      while index != 0
        invariant Valid() && index == (old(index) + n) % 64 && 0 <= n <= 64 - old(index)
        invariant message == old(message) + Zeros(n)
        decreases 64 - old(index) - n
      {
        ProcessByte(0);
        n := n + 1;
        assert Zeros(n) == Zeros(n - 1) + [0];
      }
    }

    /** The digest of everything processed so far, by the standard for messages under 2 to the power 29 bytes. */
    method GetDigest() returns (r: Digest)
      requires Valid()
      modifies this, block
      ensures Valid() && index == 0 && r == digest
      ensures message == CodePadded(old(message)) && |message| % 64 == 0
      ensures r == HashBlocks(message, |message| / 64)
      ensures |old(message)| < 0x2000_0000 ==> message == Padded(old(message))
    {
      hide HashBlocks, Digit, Padded, CodeLength;
      ghost var m := message;
      var bitCount := byteCount * 8;
      FillUp();
      ghost var front := message;
      ProcessBytes([0, 0, 0, 0]);
      ProcessBytes([Digit(bitCount, 3), Digit(bitCount, 2), Digit(bitCount, 1), Digit(bitCount, 0)]);
      LengthWritten(front, bitCount);
      if |m| < 0x2000_0000 { PaddingExact(m); }
      r := digest;
    }

    /** The one bit, and zeros until there is room for the length alone. */
    method FillUp()
      requires Valid()
      modifies this, block
      ensures Valid() && index == 56 && message == old(message) + [0x80] + Zeros((55 - |old(message)|) % 64)
    {
      hide HashBlocks;
      ghost var m := message;
      ProcessByte(0x80);
      ghost var n, k := 0, 0;
      if index > 56 {
        n := FillBlock();
        k := FillToLength();
      } else {
        k := FillToLength();
      }
      Shortfall(|m|, n, k);
      JoinZeros(m + [0x80], n, k);
    }
  }

  /** The zeros of both cases together. */
  lemma Shortfall(size: nat, n: nat, k: nat)
    requires var i := (size + 1) % 64; if i > 56 then n == 64 - i && k == 56 else n == 0 && k == 56 - i
    ensures n + k == (55 - size) % 64
  {
  }

  lemma LengthWritten(front: seq<Byte>, n: nat)
    ensures front + [0, 0, 0, 0] + [Digit(n, 3), Digit(n, 2), Digit(n, 1), Digit(n, 0)] == front + CodeLength(n)
  {
    hide Digit;
  }

  lemma JoinZeros(a: seq<Byte>, n: nat, k: nat)
    ensures a + Zeros(n) + Zeros(k) == a + Zeros(n + k) && (n == 0 ==> a + Zeros(k) == a + Zeros(n + k))
  {
  }

  lemma BlockFull(m: seq<Byte>, octet: Byte, block: Block)
    requires |m| % 64 == 63 && block[63] == octet && forall i :: 0 <= i < 63 ==> block[i] == m[|m| - 63 + i]
    ensures var m' := m + [octet];
            HashBlocks(m', |m'| / 64) == Compress(HashBlocks(m, |m| / 64), block)
  {
    hide Compress;
    var m', n := m + [octet], |m| / 64;
    assert m'[64 * n..64 * (n + 1)] == block;
    HashPrefix(m, [octet], n);
  }
}
