/** Galois/counter mode (sections 6 and 7 of NIST SP 800-38D): authenticated encryption in place. */
module AesGcm {
  import opened Basics
  import opened AesTables
  import opened AesCipher
  import opened AesBlocks
  import opened AesKeys
  import opened AesModes
  import opened GcmField
  import opened BigEndian

  // ----- blocks as bits

  /** Bit `j` of a byte, the leftmost first. */
  predicate BitOf(b: Byte, j: nat)
    requires j < 8
  {
    if j == 0 then b & 0x80 != 0 else if j == 1 then b & 0x40 != 0
    else if j == 2 then b & 0x20 != 0 else if j == 3 then b & 0x10 != 0
    else if j == 4 then b & 0x08 != 0 else if j == 5 then b & 0x04 != 0
    else if j == 6 then b & 0x02 != 0 else b & 0x01 != 0
  }

  function OneBit(bit: bool, b: Byte): Byte {
    if bit then b else 0
  }

  function ByteOfBits(b7: bool, b6: bool, b5: bool, b4: bool, b3: bool, b2: bool, b1: bool, b0: bool): Byte {
    OneBit(b7, 0x80) | OneBit(b6, 0x40) | OneBit(b5, 0x20) | OneBit(b4, 0x10)
    | OneBit(b3, 0x08) | OneBit(b2, 0x04) | OneBit(b1, 0x02) | OneBit(b0, 0x01)
  }

  function ToBits(b: Block): Bits {
    seq(128, i requires 0 <= i < 128 => BitOf(b[i / 8], i % 8))
  }

  function FromBits(x: Bits): Block {
    seq(16, k requires 0 <= k < 16 =>
      ByteOfBits(x[8 * k], x[8 * k + 1], x[8 * k + 2], x[8 * k + 3], x[8 * k + 4], x[8 * k + 5], x[8 * k + 6], x[8 * k + 7]))
  }

  lemma ByteBits(b7: bool, b6: bool, b5: bool, b4: bool, b3: bool, b2: bool, b1: bool, b0: bool)
    ensures var b := ByteOfBits(b7, b6, b5, b4, b3, b2, b1, b0);
            && BitOf(b, 0) == b7 && BitOf(b, 1) == b6 && BitOf(b, 2) == b5 && BitOf(b, 3) == b4
            && BitOf(b, 4) == b3 && BitOf(b, 5) == b2 && BitOf(b, 6) == b1 && BitOf(b, 7) == b0
  {
  }

  lemma BitsByte(b: Byte)
    ensures ByteOfBits(BitOf(b, 0), BitOf(b, 1), BitOf(b, 2), BitOf(b, 3), BitOf(b, 4), BitOf(b, 5), BitOf(b, 6), BitOf(b, 7)) == b
  {
  }

  lemma ToBitsAt(b: Block, k: nat, j: nat)
    requires k < 16 && j < 8
    ensures ToBits(b)[8 * k + j] == BitOf(b[k], j)
  {
    assert (8 * k + j) / 8 == k && (8 * k + j) % 8 == j;
  }

  lemma FromToBits(b: Block)
    ensures FromBits(ToBits(b)) == b
  {
    hide BitOf, ByteOfBits, ToBits;
    forall k | 0 <= k < 16 ensures FromBits(ToBits(b))[k] == b[k] {
      ToBitsAt(b, k, 0);
      ToBitsAt(b, k, 1);
      ToBitsAt(b, k, 2);
      ToBitsAt(b, k, 3);
      ToBitsAt(b, k, 4);
      ToBitsAt(b, k, 5);
      ToBitsAt(b, k, 6);
      ToBitsAt(b, k, 7);
      BitsByte(b[k]);
    }
  }

  lemma ToFromBits(x: Bits)
    ensures ToBits(FromBits(x)) == x
  {
    hide BitOf, ToBits, FromBits;
    forall i | 0 <= i < 128 ensures ToBits(FromBits(x))[i] == x[i] {
      ToBitsAt(FromBits(x), i / 8, i % 8);
      FromBitsAt(x, i / 8, i % 8);
      assert 8 * (i / 8) + i % 8 == i;
    }
  }

  lemma FromBitsAt(x: Bits, k: nat, j: nat)
    requires k < 16 && j < 8
    ensures BitOf(FromBits(x)[k], j) == x[8 * k + j]
  {
    hide BitOf, ByteOfBits;
    ByteBits(x[8 * k], x[8 * k + 1], x[8 * k + 2], x[8 * k + 3], x[8 * k + 4], x[8 * k + 5], x[8 * k + 6], x[8 * k + 7]);
    if j == 0 {} else if j == 1 {} else if j == 2 {} else if j == 3 {}
    else if j == 4 {} else if j == 5 {} else if j == 6 {} else { assert j == 7; }
  }

  lemma MaskedXor(b: Byte, c: Byte)
    ensures ((b ^ c) & 0x80 != 0 <==> (b & 0x80 != 0) != (c & 0x80 != 0)) && ((b ^ c) & 0x40 != 0 <==> (b & 0x40 != 0) != (c & 0x40 != 0))
    ensures ((b ^ c) & 0x20 != 0 <==> (b & 0x20 != 0) != (c & 0x20 != 0)) && ((b ^ c) & 0x10 != 0 <==> (b & 0x10 != 0) != (c & 0x10 != 0))
    ensures ((b ^ c) & 0x08 != 0 <==> (b & 0x08 != 0) != (c & 0x08 != 0)) && ((b ^ c) & 0x04 != 0 <==> (b & 0x04 != 0) != (c & 0x04 != 0))
    ensures ((b ^ c) & 0x02 != 0 <==> (b & 0x02 != 0) != (c & 0x02 != 0)) && ((b ^ c) & 0x01 != 0 <==> (b & 0x01 != 0) != (c & 0x01 != 0))
  {
  }

  lemma BitOfXor(b: Byte, c: Byte, j: nat)
    requires j < 8
    ensures BitOf(Xor(b, c), j) == (BitOf(b, j) != BitOf(c, j))
  {
    MaskedXor(b, c);
    if j == 0 {} else if j == 1 {} else if j == 2 {} else if j == 3 {}
    else if j == 4 {} else if j == 5 {} else if j == 6 {} else {}
  }

  /** Adding blocks is adding their bits. */
  lemma ToBitsAdds(b: Block, c: Block)
    ensures ToBits(XorBlock(b, c)) == Add(ToBits(b), ToBits(c))
  {
    hide BitOf, Xor;
    forall i | 0 <= i < 128 ensures ToBits(XorBlock(b, c))[i] == Add(ToBits(b), ToBits(c))[i] {
      BitOfXor(b[i / 8], c[i / 8], i % 8);
    }
  }

  lemma ZeroBits()
    ensures ToBits(Zero()) == Nil()
  {
  }

  // ----- multiplication and GHASH on blocks (algorithms 1 and 2)

  function BlockProduct(x: Block, y: Block): Block {
    FromBits(Multiply(ToBits(x), ToBits(y)))
  }

  /** `mul_blocks`: both blocks as bits, 128 steps, and back. */
  method MulBlocks(x: Block, y: Block) returns (z: Block)
    ensures z == FromBits(Multiply(ToBits(x), ToBits(y)))
  {
    hide Add, Next, ChosenBits, Nil, ToBits, FromBits;
    var bits := ToBits(x);
    var sum := Nil();
    var v := ToBits(y);
    AddNil(Product(bits, v, 0));
    for k := 0 to 128
      invariant Add(sum, Product(bits, v, k)) == Multiply(bits, ToBits(y))
    {
      AddAssociates(sum, ChosenBits(bits[k], v), Product(bits, Next(v), k + 1));
      AddNil(sum);
      NotChosen(v);
      if bits[k] {
        sum := Add(sum, v);
      }
      v := Next(v);
    }
    AddNil(sum);
    z := FromBits(sum);
  }

  function GhashOf(h: Block, x: Bytes, n: nat): Block
    requires 16 * n <= |x|
  {
    if n == 0 then Zero() else BlockProduct(XorBlock(GhashOf(h, x, n - 1), Blk(x, n - 1)), h)
  }

  /** `ghash`: the running value stays a block of bytes. */
  method Ghash(h: Block, x: Bytes) returns (y: Block)
    ensures y == GhashOf(h, x, |x| / 16)
  {
    hide Multiply, ToBits, FromBits, XorBlock;
    y := Zero();
    for i := 0 to |x| / 16
      invariant y == GhashOf(h, x, i)
    {
      y := MulBlocks(XorBlock(y, Blk(x, i)), h);
    }
  }

  function PowerOf(h: Bits, k: nat): Bits {
    if k == 0 then Unit(0) else Multiply(PowerOf(h, k - 1), h)
  }

  /** The sum of the first `n` blocks, block `i` times the power `m - i`. */
  function Polynomial(h: Bits, x: Bytes, n: nat, m: nat): Bits
    requires 16 * n <= |x| && n <= m
  {
    if n == 0 then Nil() else Add(Polynomial(h, x, n - 1, m), Multiply(ToBits(Blk(x, n - 1)), PowerOf(h, m - n + 1)))
  }

  lemma {:induction false} PolynomialTimes(h: Bits, x: Bytes, n: nat, m: nat)
    requires 16 * n <= |x| && n <= m
    ensures Multiply(Polynomial(h, x, n, m), h) == Polynomial(h, x, n, m + 1)
    decreases n
  {
    hide Multiply, ToBits, Blk;
    if n == 0 {
      NilMultiply(h);
    } else {
      var b := ToBits(Blk(x, n - 1));
      var p := PowerOf(h, m - n + 1);
      PolynomialTimes(h, x, n - 1, m);
      MultiplyDistributes(Polynomial(h, x, n - 1, m), Multiply(b, p), h);
      MultiplyAssociates(b, p, h);
      assert PowerOf(h, m - n + 2) == Multiply(p, h);
    }
  }

  /** One round of the hash on bits. */
  lemma GhashBits(h: Block, x: Bytes, n: nat)
    requires 16 * n <= |x|
    ensures n == 0 ==> ToBits(GhashOf(h, x, n)) == Nil()
    ensures n > 0 ==>
      ToBits(GhashOf(h, x, n)) == Multiply(Add(ToBits(GhashOf(h, x, n - 1)), ToBits(Blk(x, n - 1))), ToBits(h))
  {
    hide Multiply, ToBits, FromBits, XorBlock, Add, Blk;
    if n == 0 {
      ZeroBits();
    } else {
      var y, b := GhashOf(h, x, n - 1), Blk(x, n - 1);
      ToBitsAdds(y, b);
      ToFromBits(Multiply(ToBits(XorBlock(y, b)), ToBits(h)));
    }
  }

  lemma {:induction false} GhashBitsPolynomial(h: Block, x: Bytes, n: nat)
    requires 16 * n <= |x|
    ensures ToBits(GhashOf(h, x, n)) == Polynomial(ToBits(h), x, n, n)
    decreases n
  {
    hide Multiply, ToBits, Blk, GhashOf;
    GhashBits(h, x, n);
    if n > 0 {
      GhashBitsPolynomial(h, x, n - 1);
      var k, b := ToBits(h), ToBits(Blk(x, n - 1));
      MultiplyDistributes(ToBits(GhashOf(h, x, n - 1)), b, k);
      PolynomialTimes(k, x, n - 1, n - 1);
      MultiplyOne(k);
      assert PowerOf(k, 1) == Multiply(PowerOf(k, 0), k);
    }
  }

  /** The hash, a block at a time on bytes, is the value of a polynomial over the field at the hash key. */
  lemma GhashIsPolynomial(h: Block, x: Bytes, n: nat)
    requires 16 * n <= |x|
    ensures GhashOf(h, x, n) == FromBits(Polynomial(ToBits(h), x, n, n))
  {
    hide ToBits, FromBits, GhashOf, Polynomial;
    GhashBitsPolynomial(h, x, n);
    FromToBits(GhashOf(h, x, n));
  }

  // ----- the counter

  /** Add one at the right end; a carry out of the left end is lost. */
  function Incremented(s: seq<bool>): (r: seq<bool>)
    ensures |r| == |s|
  {
    if s == [] then []
    else
      var n := |s| - 1;
      if s[n] then Incremented(s[..n]) + [false] else s[..n] + [true]
  }

  function Number(s: seq<bool>): nat {
    if s == [] then 0 else 2 * Number(s[..|s| - 1]) + if s[|s| - 1] then 1 else 0
  }

  lemma {:induction false} IncrementedNumber(s: seq<bool>)
    ensures Number(s) < TwoToThe(|s|)
    ensures Number(Incremented(s)) == if Number(s) + 1 == TwoToThe(|s|) then 0 else Number(s) + 1
  {
    if s != [] {
      var n := |s| - 1;
      IncrementedNumber(s[..n]);
      var r := Incremented(s);
      assert r[..n] == if s[n] then Incremented(s[..n]) else s[..n];
    }
  }

  function Inc32(x: Bits): Bits {
    x[..96] + Incremented(x[96..])
  }

  function NextBlock(b: Block): Block {
    FromBits(Inc32(ToBits(b)))
  }

  function Counter(icb: Block, k: nat): Block {
    if k == 0 then icb else NextBlock(Counter(icb, k - 1))
  }

  // ----- GCTR (algorithm 3)

  function KeyStream(keys: RoundKeys, icb: Block, k: nat): Block {
    EncryptBlock(keys, Counter(icb, k))
  }

  function GctrOf(keys: RoundKeys, icb: Block, x: Bytes): (y: Bytes)
    ensures |y| == |x|
  {
    seq(|x|, i requires 0 <= i < |x| => Xor(x[i], KeyStream(keys, icb, i / 16)[i % 16]))
  }

  /** The transformation is its own inverse. */
  lemma GctrInverse(keys: RoundKeys, icb: Block, x: Bytes)
    ensures GctrOf(keys, icb, GctrOf(keys, icb, x)) == x
  {
    hide Xor, KeyStream;
    forall i | 0 <= i < |x| ensures GctrOf(keys, icb, GctrOf(keys, icb, x))[i] == x[i] {
      XorTwice(x[i], KeyStream(keys, icb, i / 16)[i % 16]);
    }
  }

  method Gctr(keys: RoundKeys, icb: Block, x: Bytes) returns (y: Bytes)
    ensures y == GctrOf(keys, icb, x)
  {
    hide Xor, EncryptBlock, NextBlock;
    y := [];
    var n := (|x| + 15) / 16;
    var cb := icb;
    for i := 0 to n
      invariant |y| == if 16 * i < |x| then 16 * i else |x|
      invariant i > 0 ==> cb == Counter(icb, i - 1)
      invariant forall k :: 0 <= k < |y| ==> y[k] == GctrOf(keys, icb, x)[k]
    {
      if i == 0 {
        cb := icb;
      } else {
        cb := NextBlock(cb);
      }
      var ecb := Cipher(keys, cb);
      var opSize := if i < n - 1 then 16 else if |x| % 16 != 0 then |x| % 16 else 16;
      var part := XorPart(x[16 * i..16 * i + opSize], ecb);
      ghost var y0 := y;
      y := y + part;
      forall k | 16 * i <= k < |y| ensures y[k] == GctrOf(keys, icb, x)[k] {
        assert k / 16 == i && k % 16 == k - 16 * i;
      }
    }
  }

  method Cipher(keys: RoundKeys, b: Block) returns (r: Block)
    ensures r == EncryptBlock(keys, b)
  {
    hide EncryptBlock;
    var block := new Byte[16](i requires 0 <= i < 16 => b[i]);
    var encrypted := new Byte[16](_ => 0);
    assert block[0..0 + 16] == b;
    EncryptState(keys, block, 0, encrypted, 0);
    r := encrypted[0..0 + 16];
  }

  function XorPart(x: Bytes, b: Block): Bytes
    requires |x| <= 16
  {
    seq(|x|, k requires 0 <= k < |x| => Xor(x[k], b[k]))
  }

  // ----- authenticated encryption (algorithms 4 and 5)

  function ZeroBytes(n: nat): Bytes {
    seq(n, _ => 0)
  }

  /** Zero bytes up to the next full block. */
  function Fill(n: nat): Bytes {
    ZeroBytes((16 - n % 16) % 16)
  }

  function HashKey(keys: RoundKeys): Block {
    EncryptBlock(keys, Zero())
  }

  function HashAll(h: Block, x: Bytes): Block {
    GhashOf(h, x, |x| / 16)
  }

  /** The block the counters start from: short for a vector of 12 bytes, hashed for any other. */
  function StartBlock(keys: RoundKeys, iv: Bytes): Block {
    if |iv| == 12 then iv + [0, 0, 0, 1]
    else HashAll(HashKey(keys), iv + Fill(|iv|) + ZeroBytes(8) + EightBytes(8 * |iv|))
  }

  /** `crypt_gcm`: both encryption and decryption. */
  function Crypt(keys: RoundKeys, iv: Bytes, x: Bytes): (y: Bytes)
    ensures |y| == |x|
  {
    GctrOf(keys, NextBlock(StartBlock(keys, iv)), x)
  }

  /** The authentication tag over the additional data and the cipher text. */
  function TagOf(keys: RoundKeys, iv: Bytes, aad: Bytes, c: Bytes): Block {
    var s := HashAll(HashKey(keys), aad + Fill(|aad|) + c + Fill(|c|) + EightBytes(8 * |aad|) + EightBytes(8 * |c|));
    GctrOf(keys, StartBlock(keys, iv), s)
  }

  method CalcH(keys: RoundKeys) returns (h: Block)
    ensures h == HashKey(keys)
  {
    hide EncryptBlock;
    h := Cipher(keys, Zero());
  }

  method CalcJ0(keys: RoundKeys, h: Block, iv: Bytes) returns (j0: Block)
    requires h == HashKey(keys)
    ensures j0 == StartBlock(keys, iv)
  {
    hide HashKey, GhashOf, EightBytes, Fill, ZeroBytes;
    if |iv| == 12 {
      j0 := iv + [0, 0, 0, 1];
    } else {
      var input := iv + Fill(|iv|);
      input := input + ZeroBytes(8);
      input := input + EightBytes(8 * |iv|);
      j0 := Ghash(h, input);
    }
  }

  method CalcTag(keys: RoundKeys, iv: Bytes, aad: Bytes, c: Bytes) returns (tag: Block)
    ensures tag == TagOf(keys, iv, aad, c)
  {
    hide HashKey, GhashOf, EightBytes, Fill, GctrOf, StartBlock;
    var h := CalcH(keys);
    var j0 := CalcJ0(keys, h, iv);
    var input := aad + Fill(|aad|);
    input := input + c;
    input := input + Fill(|c|);
    input := input + EightBytes(8 * |aad|);
    input := input + EightBytes(8 * |c|);
    var s := Ghash(h, input);
    var t := Gctr(keys, j0, s);
    tag := t;
  }

  method CryptInPlace(keys: RoundKeys, iv: Bytes, data: array<Byte>)
    modifies data
    ensures data[..] == Crypt(keys, iv, old(data[..]))
  {
    hide HashKey, GctrOf, StartBlock, NextBlock;
    var h := CalcH(keys);
    var j0 := CalcJ0(keys, h, iv);
    var c := Gctr(keys, NextBlock(j0), data[..]);
    CopyBytes(c, data, 0);
    assert data[..] == data[0..0 + |c|];
  }

  datatype GcmError = GcmOk | GcmInvalidKeySize | GcmInvalidIvSize | GcmInvalidTagSize | GcmInvalidTag

  function CheckGcm(keySize: nat, ivSize: nat, tagSize: nat): GcmError {
    if !ValidKeySize(keySize) then GcmInvalidKeySize
    else if ivSize < 1 then GcmInvalidIvSize
    else if (tagSize < 12 || 16 < tagSize) && tagSize != 8 && tagSize != 4 then GcmInvalidTagSize
    else GcmOk
  }

  /** A tag cut to `n` bytes. */
  function FirstBytes(b: Block, n: nat): Bytes {
    if n <= 16 then b[..n] else b
  }

  method EncryptGcm(data: array<Byte>, aad: Bytes, key: Bytes, iv: Bytes, tagSize: nat) returns (e: GcmError, tag: Bytes)
    requires data.Length > 0
    modifies data
    ensures e == CheckGcm(|key|, |iv|, tagSize)
    ensures e == GcmOk ==> data[..] == Crypt(Expanded(key), iv, old(data[..]))
    ensures e == GcmOk ==> tag == FirstBytes(TagOf(Expanded(key), iv, aad, data[..]), tagSize)
    ensures e != GcmOk ==> data[..] == old(data[..])
  {
    hide Expanded, Crypt, TagOf;
    tag := [];
    e := CheckGcm(|key|, |iv|, tagSize);
    if e != GcmOk {
      return;
    }
    var expanded := ExpandKey(key);
    var keys := expanded.value;
    CryptInPlace(keys, iv, data);
    var full := CalcTag(keys, iv, aad, data[..]);
    tag := FirstBytes(full, tagSize);
  }

  method DecryptGcm(data: array<Byte>, aad: Bytes, key: Bytes, iv: Bytes, tag: Bytes) returns (e: GcmError)
    requires data.Length > 0
    modifies data
    ensures var check := CheckGcm(|key|, |iv|, |tag|);
      e == if check != GcmOk then check
           else if tag == FirstBytes(TagOf(Expanded(key), iv, aad, old(data[..])), |tag|) then GcmOk
           else GcmInvalidTag
    ensures data[..] == if e == GcmOk then Crypt(Expanded(key), iv, old(data[..])) else old(data[..])
  {
    hide Expanded, Crypt, TagOf;
    e := CheckGcm(|key|, |iv|, |tag|);
    if e != GcmOk {
      return;
    }
    var expanded := ExpandKey(key);
    var keys := expanded.value;
    var full := CalcTag(keys, iv, aad, data[..]);
    if tag != FirstBytes(full, |tag|) {
      e := GcmInvalidTag;
    } else {
      CryptInPlace(keys, iv, data);
    }
  }

  lemma CryptInverse(keys: RoundKeys, iv: Bytes, x: Bytes)
    ensures Crypt(keys, iv, Crypt(keys, iv, x)) == x
  {
    hide GctrOf, NextBlock, StartBlock;
    GctrInverse(keys, NextBlock(StartBlock(keys, iv)), x);
  }

  /** Whatever was encrypted is accepted and comes back. */
  method GcmRoundTrip(data: array<Byte>, aad: Bytes, key: Bytes, iv: Bytes, tagSize: nat) returns (e: GcmError, d: GcmError)
    requires data.Length > 0
    modifies data
    ensures e == CheckGcm(|key|, |iv|, tagSize)
    ensures e == GcmOk ==> d == GcmOk && data[..] == old(data[..])
  {
    hide Expanded, Crypt, TagOf;
    var tag;
    e, tag := EncryptGcm(data, aad, key, iv, tagSize);
    d := e;
    if e == GcmOk {
      CryptInverse(Expanded(key), iv, old(data[..]));
      d := DecryptGcm(data, aad, key, iv, tag);
    }
  }
}
