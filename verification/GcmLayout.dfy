/** GCM byte by byte: which counters are encrypted and which bytes are hashed (sections 6.2, 7.1 and 7.2 of NIST SP 800-38D). */
module GcmLayout {
  import opened Basics
  import opened AesTables
  import opened AesCipher
  import opened AesBlocks
  import opened AesModes
  import opened GcmField
  import BigEndian
  import opened AesGcm

  // ----- the counter as a number in the last four bytes

  const WORD: nat := 0x1_0000_0000

  function BitsOfByte(b: Byte): seq<bool> {
    [BitOf(b, 0), BitOf(b, 1), BitOf(b, 2), BitOf(b, 3), BitOf(b, 4), BitOf(b, 5), BitOf(b, 6), BitOf(b, 7)]
  }

  function Weight(bit: bool, n: nat): nat {
    if bit then n else 0
  }

  lemma ByteSum(b: Byte)
    ensures b as int == Weight(BitOf(b, 0), 128) + Weight(BitOf(b, 1), 64) + Weight(BitOf(b, 2), 32) + Weight(BitOf(b, 3), 16)
                      + Weight(BitOf(b, 4), 8) + Weight(BitOf(b, 5), 4) + Weight(BitOf(b, 6), 2) + Weight(BitOf(b, 7), 1)
  {
  }

  lemma NumberSnoc(s: seq<bool>, bit: bool)
    ensures Number(s + [bit]) == 2 * Number(s) + Weight(bit, 1)
  {
    assert (s + [bit])[..|s|] == s;
  }

  lemma NumberFour(s: seq<bool>, b0: bool, b1: bool, b2: bool, b3: bool)
    ensures Number(s + [b0, b1, b2, b3]) == 16 * Number(s) + Weight(b0, 8) + Weight(b1, 4) + Weight(b2, 2) + Weight(b3, 1)
  {
    hide Number;
    NumberSnoc(s, b0);
    NumberSnoc(s + [b0], b1);
    NumberSnoc(s + [b0] + [b1], b2);
    NumberSnoc(s + [b0] + [b1] + [b2], b3);
    assert s + [b0] + [b1] + [b2] + [b3] == s + [b0, b1, b2, b3];
  }

  lemma JoinEight(s: seq<bool>, b0: bool, b1: bool, b2: bool, b3: bool, b4: bool, b5: bool, b6: bool, b7: bool)
    ensures s + [b0, b1, b2, b3] + [b4, b5, b6, b7] == s + [b0, b1, b2, b3, b4, b5, b6, b7]
  {
  }

  lemma NumberEight(s: seq<bool>, b0: bool, b1: bool, b2: bool, b3: bool, b4: bool, b5: bool, b6: bool, b7: bool)
    ensures Number(s + [b0, b1, b2, b3, b4, b5, b6, b7]) == 256 * Number(s)
              + Weight(b0, 128) + Weight(b1, 64) + Weight(b2, 32) + Weight(b3, 16)
              + Weight(b4, 8) + Weight(b5, 4) + Weight(b6, 2) + Weight(b7, 1)
  {
    NumberFour(s, b0, b1, b2, b3);
    NumberFour(s + [b0, b1, b2, b3], b4, b5, b6, b7);
    JoinEight(s, b0, b1, b2, b3, b4, b5, b6, b7);
    hide Number;
  }

  lemma NumberByte(s: seq<bool>, b: Byte)
    ensures Number(s + BitsOfByte(b)) == 256 * Number(s) + b as nat
  {
    hide BitOf, Number, Weight;
    ByteSum(b);
    NumberEight(s, BitOf(b, 0), BitOf(b, 1), BitOf(b, 2), BitOf(b, 3), BitOf(b, 4), BitOf(b, 5), BitOf(b, 6), BitOf(b, 7));
  }

  lemma BitsAt(b: Block, k: nat)
    requires k < 16
    ensures ToBits(b)[8 * k..8 * k + 8] == BitsOfByte(b[k])
  {
    hide BitOf, ToBits;
    forall j | 0 <= j < 8 ensures ToBits(b)[8 * k + j] == BitsOfByte(b[k])[j] {
      ToBitsAt(b, k, j);
    }
  }

  /** The counter part of a block as a number. */
  function CounterOf(b: Block): nat {
    BigEndian.Value(b[12..])
  }

  lemma ValueFour(s: Bytes)
    requires |s| == 4
    ensures BigEndian.Value(s) == 256 * (256 * (256 * s[0] as nat + s[1] as nat) + s[2] as nat) + s[3] as nat
  {
    assert s[..3][..2] == s[..2] && s[..2][..1] == s[..1] && s[..1][..0] == [];
    assert BigEndian.Value(s[..1]) == s[0] as nat;
    assert BigEndian.Value(s[..2]) == 256 * BigEndian.Value(s[..1]) + s[1] as nat;
    assert BigEndian.Value(s[..3]) == 256 * BigEndian.Value(s[..2]) + s[2] as nat;
  }

  lemma FourBytesNumber(x: seq<bool>, b0: Byte, b1: Byte, b2: Byte, b3: Byte)
    requires x == BitsOfByte(b0) + BitsOfByte(b1) + BitsOfByte(b2) + BitsOfByte(b3)
    ensures Number(x) == 256 * (256 * (256 * b0 as nat + b1 as nat) + b2 as nat) + b3 as nat
  {
    NumberNone();
    hide Number, BitsOfByte;
    NumberByte([], b0);
    assert [] + BitsOfByte(b0) == BitsOfByte(b0);
    NumberByte(BitsOfByte(b0), b1);
    NumberByte(BitsOfByte(b0) + BitsOfByte(b1), b2);
    NumberByte(BitsOfByte(b0) + BitsOfByte(b1) + BitsOfByte(b2), b3);
  }

  lemma LastFour(x: Bits)
    ensures x[96..] == x[96..104] + x[104..112] + x[112..120] + x[120..128]
  {
  }

  lemma CounterBits(b: Block)
    ensures Number(ToBits(b)[96..]) == CounterOf(b)
  {
    hide Number, ToBits, BitsOfByte, BigEndian.Value;
    ValueFour(b[12..]);
    BitsAt(b, 12);
    BitsAt(b, 13);
    BitsAt(b, 14);
    BitsAt(b, 15);
    LastFour(ToBits(b));
    FourBytesNumber(ToBits(b)[96..], b[12], b[13], b[14], b[15]);
  }

  lemma NumberNone()
    ensures Number([]) == 0
  {
  }

  lemma WordPower()
    ensures TwoToThe(32) == WORD
  {
    assert TwoToThe(8) == 256;
    assert TwoToThe(16) == 0x1_0000;
    assert TwoToThe(24) == 0x100_0000;
  }

  /** Blocks with the same first bits have the same first bytes. */
  lemma SameFront(b: Block, c: Block, n: nat)
    requires n <= 16 && ToBits(b)[..8 * n] == ToBits(c)[..8 * n]
    ensures b[..n] == c[..n]
  {
    hide BitOf, ToBits, ByteOfBits;
    forall k | 0 <= k < n ensures b[k] == c[k] {
      BitsAt(b, k);
      BitsAt(c, k);
      assert ToBits(b)[..8 * n][8 * k..8 * k + 8] == ToBits(b)[8 * k..8 * k + 8];
      assert ToBits(c)[..8 * n][8 * k..8 * k + 8] == ToBits(c)[8 * k..8 * k + 8];
      BitsByte(b[k]);
      BitsByte(c[k]);
      assert forall j :: 0 <= j < 8 ==> BitsOfByte(b[k])[j] == BitsOfByte(c[k])[j];
    }
  }

  /** Incrementing counts the last four bytes modulo 2 to the power 32 and leaves the others alone. */
  lemma NextBlockCounts(b: Block)
    ensures NextBlock(b)[..12] == b[..12]
    ensures CounterOf(NextBlock(b)) == (CounterOf(b) + 1) % WORD
  {
    hide ToBits, FromBits, Number, Incremented, CounterOf;
    var x := ToBits(b);
    ToFromBits(Inc32(x));
    CounterBits(b);
    CounterBits(NextBlock(b));
    IncrementedNumber(x[96..]);
    WordPower();
    assert Inc32(x)[96..] == Incremented(x[96..]);
    assert Inc32(x)[..96] == x[..96];
    SameFront(NextBlock(b), b, 12);
  }

  lemma {:induction false} CounterCounts(icb: Block, k: nat)
    ensures Counter(icb, k)[..12] == icb[..12]
    ensures CounterOf(Counter(icb, k)) == (CounterOf(icb) + k) % WORD
  {
    hide NextBlock, CounterOf;
    if k == 0 {
      CounterSmall(icb);
    } else {
      CounterCounts(icb, k - 1);
      NextBlockCounts(Counter(icb, k - 1));
      WrapNext(CounterOf(icb) + k - 1);
    }
  }

  lemma CounterSmall(b: Block)
    ensures CounterOf(b) < WORD
  {
    ValueFour(b[12..]);
  }

  lemma WrapNext(n: nat)
    ensures (n % WORD + 1) % WORD == (n + 1) % WORD
  {
  }

  // ----- what is encrypted

  /** With a vector of 12 bytes, block `i` of the data meets the encryption of the vector and the number `i + 2`. */
  lemma CryptCounts(keys: RoundKeys, iv: Bytes, x: Bytes, i: nat) returns (b: Block)
    requires |iv| == 12 && i < |x|
    ensures b[..12] == iv && CounterOf(b) == (i / 16 + 2) % WORD
    ensures Crypt(keys, iv, x)[i] == Xor(x[i], EncryptBlock(keys, b)[i % 16])
  {
    hide EncryptBlock, NextBlock, CounterOf, StartBlock, Xor;
    var j0 := StartBlock(keys, iv);
    ShortStart(keys, iv);
    NextBlockCounts(j0);
    CounterCounts(NextBlock(j0), i / 16);
    b := Counter(NextBlock(j0), i / 16);
  }

  lemma ShortStart(keys: RoundKeys, iv: Bytes)
    requires |iv| == 12
    ensures StartBlock(keys, iv) == iv + [0, 0, 0, 1] && StartBlock(keys, iv)[..12] == iv && CounterOf(StartBlock(keys, iv)) == 1
  {
    hide BigEndian.Value;
    var j0: Block := iv + [0, 0, 0, 1];
    assert j0[12..] == [0, 0, 0, 1];
    ValueFour(j0[12..]);
  }

  // ----- what is hashed

  function RoundUp(n: nat): nat {
    n + (16 - n % 16) % 16
  }

  /** `s` at `lo`, and zeros from there to `hi`. */
  ghost predicate ZeroPadded(x: Bytes, lo: nat, s: Bytes, hi: nat) {
    && lo + |s| <= hi <= |x| && x[lo..lo + |s|] == s
    && forall i :: lo + |s| <= i < hi ==> x[i] == 0
  }

  /** Additional data and cipher text, each padded with zeros to whole blocks, and their lengths in bits. */
  ghost predicate IsTagInput(x: Bytes, aad: Bytes, c: Bytes) {
    var m, n := RoundUp(|aad|), RoundUp(|aad|) + RoundUp(|c|);
    && |x| == n + 16 && ZeroPadded(x, 0, aad, m) && ZeroPadded(x, m, c, n)
    && BigEndian.Value(x[n..n + 8]) == 8 * |aad| && BigEndian.Value(x[n + 8..n + 16]) == 8 * |c|
  }

  /** A vector that is not 12 bytes long, padded, and its length in bits. */
  ghost predicate IsStartInput(x: Bytes, iv: Bytes) {
    var n := RoundUp(|iv|);
    && |x| == n + 16 && ZeroPadded(x, 0, iv, n)
    && (forall i :: n <= i < n + 8 ==> x[i] == 0) && BigEndian.Value(x[n + 8..n + 16]) == 8 * |iv|
  }

  /** The tag is the hash of that input under the encrypted zero block, masked with the encrypted start block. */
  lemma TagCovers(keys: RoundKeys, iv: Bytes, aad: Bytes, c: Bytes) returns (x: Bytes)
    requires 8 * |aad| < 0x1_0000_0000_0000_0000 && 8 * |c| < 0x1_0000_0000_0000_0000
    ensures IsTagInput(x, aad, c)
    ensures TagOf(keys, iv, aad, c)
         == XorBlock(HashAll(EncryptBlock(keys, seq(16, _ => 0)), x), EncryptBlock(keys, StartBlock(keys, iv)))
  {
    hide EncryptBlock, StartBlock, GhashOf, BigEndian.Value, BigEndian.EightBytes, Xor, NextBlock;
    x := aad + Fill(|aad|) + c + Fill(|c|) + BigEndian.EightBytes(8 * |aad|) + BigEndian.EightBytes(8 * |c|);
    InputLayout(x, aad, c);
    assert HashKey(keys) == EncryptBlock(keys, seq(16, _ => 0)) by { assert Zero() == seq(16, _ => 0); }
    var s, j0 := HashAll(HashKey(keys), x), StartBlock(keys, iv);
    assert Counter(j0, 0) == j0;
    assert GctrOf(keys, j0, s) == XorBlock(s, EncryptBlock(keys, j0));
  }

  lemma InputLayout(x: Bytes, aad: Bytes, c: Bytes)
    requires 8 * |aad| < 0x1_0000_0000_0000_0000 && 8 * |c| < 0x1_0000_0000_0000_0000
    requires x == aad + Fill(|aad|) + c + Fill(|c|) + BigEndian.EightBytes(8 * |aad|) + BigEndian.EightBytes(8 * |c|)
    ensures IsTagInput(x, aad, c)
  {
    hide BigEndian.Value, BigEndian.EightBytes;
    BigEndian.EightBytesValue(8 * |aad|);
    BigEndian.EightBytesValue(8 * |c|);
    var m, n := RoundUp(|aad|), RoundUp(|aad|) + RoundUp(|c|);
    assert x[n..n + 8] == BigEndian.EightBytes(8 * |aad|);
    assert x[n + 8..n + 16] == BigEndian.EightBytes(8 * |c|);
  }

  /** The start block: the vector and the number 1, or the hash of that input. */
  lemma StartCovers(keys: RoundKeys, iv: Bytes) returns (x: Bytes)
    requires 8 * |iv| < 0x1_0000_0000_0000_0000
    ensures |iv| == 12 ==> StartBlock(keys, iv)[..12] == iv && CounterOf(StartBlock(keys, iv)) == 1
    ensures |iv| != 12 ==> IsStartInput(x, iv) && StartBlock(keys, iv) == HashAll(EncryptBlock(keys, seq(16, _ => 0)), x)
  {
    hide EncryptBlock, GhashOf, BigEndian.Value, BigEndian.EightBytes;
    if |iv| == 12 { ShortStart(keys, iv); }
    x := iv + Fill(|iv|) + ZeroBytes(8) + BigEndian.EightBytes(8 * |iv|);
    BigEndian.EightBytesValue(8 * |iv|);
    var n := RoundUp(|iv|);
    assert x[n + 8..n + 16] == BigEndian.EightBytes(8 * |iv|);
    assert HashKey(keys) == EncryptBlock(keys, seq(16, _ => 0)) by { assert Zero() == seq(16, _ => 0); }
  }
}
