/** The AES block cipher (section 5 of FIPS 197): rounds on four words, and the inverse cipher. */
module AesCipher {
  import opened AesTables

  /** Four bytes, lowest first. */
  type Word = bv32

  datatype State = State(w0: Word, w1: Word, w2: Word, w3: Word)

  type RoundKeys = keys: seq<State> | |keys| >= 2 witness [State(0, 0, 0, 0), State(0, 0, 0, 0)]

  // ----- words and bytes

  function Byte0(w: Word): Byte {
    (w & 0xFF) as bv8
  }

  function Byte1(w: Word): Byte {
    ((w >> 8) & 0xFF) as bv8
  }

  function Byte2(w: Word): Byte {
    ((w >> 16) & 0xFF) as bv8
  }

  function Byte3(w: Word): Byte {
    ((w >> 24) & 0xFF) as bv8
  }

  function Pack(b0: Byte, b1: Byte, b2: Byte, b3: Byte): Word {
    (b0 as bv32) | ((b1 as bv32) << 8) | ((b2 as bv32) << 16) | ((b3 as bv32) << 24)
  }

  lemma PackBytes(w: Word)
    ensures Pack(Byte0(w), Byte1(w), Byte2(w), Byte3(w)) == w
  {
  }

  lemma BytesPack(b0: Byte, b1: Byte, b2: Byte, b3: Byte)
    ensures var w := Pack(b0, b1, b2, b3); Byte0(w) == b0 && Byte1(w) == b1 && Byte2(w) == b2 && Byte3(w) == b3
  {
  }

  // ----- SubBytes

  function SubWord(w: Word): Word {
    Pack(Sbox(Byte0(w)), Sbox(Byte1(w)), Sbox(Byte2(w)), Sbox(Byte3(w)))
  }

  function InvSubWord(w: Word): Word {
    Pack(InvSbox(Byte0(w)), InvSbox(Byte1(w)), InvSbox(Byte2(w)), InvSbox(Byte3(w)))
  }

  lemma SubWordInverse(w: Word)
    ensures InvSubWord(SubWord(w)) == w
  {
    hide Sbox, InvSbox, Pack, Byte0, Byte1, Byte2, Byte3;
    BytesPack(Sbox(Byte0(w)), Sbox(Byte1(w)), Sbox(Byte2(w)), Sbox(Byte3(w)));
    InvSboxSbox(Byte0(w));
    InvSboxSbox(Byte1(w));
    InvSboxSbox(Byte2(w));
    InvSboxSbox(Byte3(w));
    PackBytes(w);
  }

  function SubBytes(s: State): State {
    State(SubWord(s.w0), SubWord(s.w1), SubWord(s.w2), SubWord(s.w3))
  }

  function InvSubBytes(s: State): State {
    State(InvSubWord(s.w0), InvSubWord(s.w1), InvSubWord(s.w2), InvSubWord(s.w3))
  }

  lemma SubBytesInverse(s: State)
    ensures InvSubBytes(SubBytes(s)) == s
  {
    hide SubWord, InvSubWord;
    SubWordInverse(s.w0);
    SubWordInverse(s.w1);
    SubWordInverse(s.w2);
    SubWordInverse(s.w3);
  }

  // ----- ShiftRows

  /** Row `r` (byte `r` of every word) moves `r` columns to the left. */
  function ShiftRows(s: State): State {
    State(Diagonal(s.w0, s.w1, s.w2, s.w3), Diagonal(s.w1, s.w2, s.w3, s.w0),
          Diagonal(s.w2, s.w3, s.w0, s.w1), Diagonal(s.w3, s.w0, s.w1, s.w2))
  }

  function InvShiftRows(s: State): State {
    State(Diagonal(s.w0, s.w3, s.w2, s.w1), Diagonal(s.w1, s.w0, s.w3, s.w2),
          Diagonal(s.w2, s.w1, s.w0, s.w3), Diagonal(s.w3, s.w2, s.w1, s.w0))
  }

  /** Byte 0 of the first word, byte 1 of the second, and so on. */
  function Diagonal(a: Word, b: Word, c: Word, d: Word): Word {
    (a & 0xFF) | (b & 0xFF00) | (c & 0xFF_0000) | (d & 0xFF00_0000)
  }

  lemma DiagonalInverse(a: Word, b: Word, c: Word, d: Word)
    ensures Diagonal(Diagonal(a, b, c, d), Diagonal(d, a, b, c), Diagonal(c, d, a, b), Diagonal(b, c, d, a)) == a
  {
  }

  lemma ShiftRowsInverse(s: State)
    ensures InvShiftRows(ShiftRows(s)) == s
  {
    hide Diagonal;
    DiagonalInverse(s.w0, s.w1, s.w2, s.w3);
    DiagonalInverse(s.w1, s.w2, s.w3, s.w0);
    DiagonalInverse(s.w2, s.w3, s.w0, s.w1);
    DiagonalInverse(s.w3, s.w0, s.w1, s.w2);
  }

  // ----- MixColumns

  /** Addition in the field of section 4 of FIPS 197. */
  function Xor(x: Byte, y: Byte): Byte {
    x ^ y
  }

  /** Multiplication by x. */
  function Mul2(b: Byte): Byte {
    if b & 0x80 != 0 then (b << 1) ^ 0x1B else b << 1
  }

  /** `mul`: shift and add over the eight bits of `m`. */
  function Mul(b: Byte, m: Byte): Byte {
    MulBits(b, m, 8)
  }

  function MulBits(b: Byte, m: Byte, n: nat): Byte
    decreases n
  {
    if n == 0 then 0 else Xor(Chosen(m, b), MulBits(Mul2(b), m >> 1, n - 1))
  }

  function Chosen(m: Byte, b: Byte): Byte {
    if m & 1 != 0 then b else 0
  }

  /** The four bytes of a word as a column of the state. */
  datatype Column = Column(a: Byte, b: Byte, c: Byte, d: Byte)

  /** One byte of a mixed column. */
  function MixByte(a: Byte, b: Byte, c: Byte, d: Byte): Byte {
    Xor(Xor(Mul2(a), Xor(Mul2(b), b)), Xor(c, d))
  }

  function Mix(x: Column): Column {
    Column(MixByte(x.a, x.b, x.c, x.d), MixByte(x.b, x.c, x.d, x.a), MixByte(x.c, x.d, x.a, x.b), MixByte(x.d, x.a, x.b, x.c))
  }

  function InvMixByte(a: Byte, b: Byte, c: Byte, d: Byte): Byte {
    Xor(Xor(Mul(a, 0x0E), Mul(b, 0x0B)), Xor(Mul(c, 0x0D), Mul(d, 0x09)))
  }

  function InvMix(x: Column): Column {
    Column(InvMixByte(x.a, x.b, x.c, x.d), InvMixByte(x.b, x.c, x.d, x.a),
           InvMixByte(x.c, x.d, x.a, x.b), InvMixByte(x.d, x.a, x.b, x.c))
  }

  // Both are additive, so that it is enough to look at columns with one byte.

  lemma Interchange(p: Byte, q: Byte, r: Byte, s: Byte)
    ensures Xor(Xor(p, q), Xor(r, s)) == Xor(Xor(p, r), Xor(q, s))
  {
    hide Xor;
    XorAssociates(p, q, Xor(r, s));
    XorAssociates(q, r, s);
    XorCommutes(q, r);
    XorAssociates(r, q, s);
    XorAssociates(p, r, Xor(q, s));
  }

  lemma XorAssociates(x: Byte, y: Byte, z: Byte)
    ensures Xor(Xor(x, y), z) == Xor(x, Xor(y, z))
  {
  }

  lemma XorCommutes(x: Byte, y: Byte)
    ensures Xor(x, y) == Xor(y, x)
  {
  }

  lemma XorZero(x: Byte)
    ensures Xor(x, 0) == x && Xor(0, x) == x
  {
  }

  /** `Mul2` without the branch: the reduction is a copy of the top bit at places 0, 1, 3 and 4. */
  function Mul2Flat(b: Byte): Byte {
    var top := (b >> 7) & 1;
    (b << 1) ^ top ^ (top << 1) ^ (top << 3) ^ (top << 4)
  }

  lemma Mul2IsFlat(b: Byte)
    ensures Mul2(b) == Mul2Flat(b)
  {
  }

  lemma FlatAdditive(x: Byte, y: Byte)
    ensures Mul2Flat(Xor(x, y)) == Xor(Mul2Flat(x), Mul2Flat(y))
  {
  }

  lemma Mul2Additive(x: Byte, y: Byte)
    ensures Mul2(Xor(x, y)) == Xor(Mul2(x), Mul2(y))
  {
    FlatAdditive(x, y);
    hide Mul2, Mul2Flat, Xor;
    Mul2IsFlat(x);
    Mul2IsFlat(y);
    Mul2IsFlat(Xor(x, y));
  }

  lemma ChosenAdditive(m: Byte, x: Byte, y: Byte)
    ensures Chosen(m, Xor(x, y)) == Xor(Chosen(m, x), Chosen(m, y))
  {
    hide Xor;
    XorZero(0);
  }

  lemma {:induction false} MulBitsAdditive(x: Byte, y: Byte, m: Byte, n: nat)
    ensures MulBits(Xor(x, y), m, n) == Xor(MulBits(x, m, n), MulBits(y, m, n))
    decreases n
  {
    hide Xor, Mul2, Chosen;
    if n == 0 {
      XorZero(0);
    } else {
      ChosenAdditive(m, x, y);
      Mul2Additive(x, y);
      MulBitsAdditive(Mul2(x), Mul2(y), m >> 1, n - 1);
      Interchange(Chosen(m, x), Chosen(m, y), MulBits(Mul2(x), m >> 1, n - 1), MulBits(Mul2(y), m >> 1, n - 1));
    }
  }

  lemma MulAdditive(x: Byte, y: Byte, m: Byte)
    ensures Mul(Xor(x, y), m) == Xor(Mul(x, m), Mul(y, m))
  {
    MulBitsAdditive(x, y, m, 8);
  }

  function AddColumn(x: Column, y: Column): Column {
    Column(Xor(x.a, y.a), Xor(x.b, y.b), Xor(x.c, y.c), Xor(x.d, y.d))
  }

  lemma MixByteAdditive(a: Byte, b: Byte, c: Byte, d: Byte, a': Byte, b': Byte, c': Byte, d': Byte)
    ensures MixByte(Xor(a, a'), Xor(b, b'), Xor(c, c'), Xor(d, d')) == Xor(MixByte(a, b, c, d), MixByte(a', b', c', d'))
  {
    hide Xor, Mul2;
    Mul2Additive(a, a');
    Mul2Additive(b, b');
    Interchange(Mul2(b), Mul2(b'), b, b');
    Interchange(Mul2(a), Mul2(a'), Xor(Mul2(b), b), Xor(Mul2(b'), b'));
    Interchange(c, c', d, d');
    Interchange(Xor(Mul2(a), Xor(Mul2(b), b)), Xor(Mul2(a'), Xor(Mul2(b'), b')), Xor(c, d), Xor(c', d'));
  }

  lemma InvMixByteAdditive(a: Byte, b: Byte, c: Byte, d: Byte, a': Byte, b': Byte, c': Byte, d': Byte)
    ensures InvMixByte(Xor(a, a'), Xor(b, b'), Xor(c, c'), Xor(d, d'))
         == Xor(InvMixByte(a, b, c, d), InvMixByte(a', b', c', d'))
  {
    hide Xor, Mul;
    MulAdditive(a, a', 0x0E);
    MulAdditive(b, b', 0x0B);
    MulAdditive(c, c', 0x0D);
    MulAdditive(d, d', 0x09);
    Interchange(Mul(a, 0x0E), Mul(a', 0x0E), Mul(b, 0x0B), Mul(b', 0x0B));
    Interchange(Mul(c, 0x0D), Mul(c', 0x0D), Mul(d, 0x09), Mul(d', 0x09));
    Interchange(Xor(Mul(a, 0x0E), Mul(b, 0x0B)), Xor(Mul(a', 0x0E), Mul(b', 0x0B)),
                Xor(Mul(c, 0x0D), Mul(d, 0x09)), Xor(Mul(c', 0x0D), Mul(d', 0x09)));
  }

  lemma InvMixMixAdditive(x: Column, y: Column)
    ensures InvMix(Mix(AddColumn(x, y))) == AddColumn(InvMix(Mix(x)), InvMix(Mix(y)))
  {
    hide Xor, MixByte, InvMixByte;
    MixByteAdditive(x.a, x.b, x.c, x.d, y.a, y.b, y.c, y.d);
    MixByteAdditive(x.b, x.c, x.d, x.a, y.b, y.c, y.d, y.a);
    MixByteAdditive(x.c, x.d, x.a, x.b, y.c, y.d, y.a, y.b);
    MixByteAdditive(x.d, x.a, x.b, x.c, y.d, y.a, y.b, y.c);
    var u, v := Mix(x), Mix(y);
    InvMixByteAdditive(u.a, u.b, u.c, u.d, v.a, v.b, v.c, v.d);
    InvMixByteAdditive(u.b, u.c, u.d, u.a, v.b, v.c, v.d, v.a);
    InvMixByteAdditive(u.c, u.d, u.a, u.b, v.c, v.d, v.a, v.b);
    InvMixByteAdditive(u.d, u.a, u.b, u.c, v.d, v.a, v.b, v.c);
  }

  function Mul4(b: Byte): Byte {
    Mul2(Mul2(b))
  }

  function Mul8(b: Byte): Byte {
    Mul2(Mul4(b))
  }

  /** A product by four bits. */
  function LowProduct(b: Byte, m: Byte): Byte {
    Xor(Chosen(m, b), Xor(Chosen(m >> 1, Mul2(b)), Xor(Chosen(m >> 2, Mul4(b)), Chosen(m >> 3, Mul8(b)))))
  }

  lemma MulLow(b: Byte, m: Byte)
    requires m < 16
    ensures Mul(b, m) == LowProduct(b, m)
  {
    assert (m >> 1) >> 1 == m >> 2 && (m >> 2) >> 1 == m >> 3 && (m >> 3) >> 1 == 0;
    hide MulBits, Mul2, Chosen, Xor;
    MulStep(b, m, m >> 1, 8);
    MulStep(Mul2(b), m >> 1, m >> 2, 7);
    MulStep(Mul4(b), m >> 2, m >> 3, 6);
    MulStep(Mul8(b), m >> 3, 0, 5);
    NoBits(Mul2(Mul8(b)), 4);
    XorZero(Chosen(m >> 3, Mul8(b)));
  }

  lemma MulStep(b: Byte, m: Byte, m': Byte, n: nat)
    requires n > 0 && m' == m >> 1
    ensures MulBits(b, m, n) == Xor(Chosen(m, b), MulBits(Mul2(b), m', n - 1))
  {
  }

  lemma {:induction false} NoBits(b: Byte, n: nat)
    ensures MulBits(b, 0, n) == 0
    decreases n
  {
    hide Mul2, Xor;
    if n > 0 {
      NoBits(Mul2(b), n - 1);
      XorZero(0);
    }
  }

  // ----- the substitution box as section 5.1.1 of FIPS 197 defines it

  /** The affine transformation: each bit is a sum of five bits and of a bit of 0x63. */
  function Affine(x: Byte): Byte {
    x ^ ((x << 1) | (x >> 7)) ^ ((x << 2) | (x >> 6)) ^ ((x << 3) | (x >> 5)) ^ ((x << 4) | (x >> 4)) ^ 0x63
  }

  function InvAffine(z: Byte): Byte {
    ((z << 1) | (z >> 7)) ^ ((z << 3) | (z >> 5)) ^ ((z << 6) | (z >> 2)) ^ 0x05
  }

  lemma AffineInverse(z: Byte)
    ensures Affine(InvAffine(z)) == z
  {
  }

  /** The product by all eight bits, written out. */
  function FullProduct(b: Byte, m: Byte): Byte {
    var b4 := Mul2(Mul8(b));
    Xor(Chosen(m, b), Xor(Chosen(m >> 1, Mul2(b)), Xor(Chosen(m >> 2, Mul4(b)), Xor(Chosen(m >> 3, Mul8(b)),
    Xor(Chosen(m >> 4, b4), Xor(Chosen(m >> 5, Mul2(b4)), Xor(Chosen(m >> 6, Mul4(b4)), Xor(Chosen(m >> 7, Mul8(b4)), 0))))))))
  }

  lemma MulFull(b: Byte, m: Byte)
    ensures Mul(b, m) == FullProduct(b, m)
  {
    assert (m >> 1) >> 1 == m >> 2 && (m >> 2) >> 1 == m >> 3 && (m >> 3) >> 1 == m >> 4 && (m >> 4) >> 1 == m >> 5
        && (m >> 5) >> 1 == m >> 6 && (m >> 6) >> 1 == m >> 7 && (m >> 7) >> 1 == 0;
    hide MulBits, Mul2, Chosen, Xor;
    var b4 := Mul2(Mul8(b));
    MulStep(b, m, m >> 1, 8);
    MulStep(Mul2(b), m >> 1, m >> 2, 7);
    MulStep(Mul4(b), m >> 2, m >> 3, 6);
    MulStep(Mul8(b), m >> 3, m >> 4, 5);
    MulStep(b4, m >> 4, m >> 5, 4);
    MulStep(Mul2(b4), m >> 5, m >> 6, 3);
    MulStep(Mul4(b4), m >> 6, m >> 7, 2);
    MulStep(Mul8(b4), m >> 7, 0, 1);
    NoBits(Mul2(Mul8(b4)), 0);
  }

  /** The table holds the affine image of the inverse in the field; the inverse of 0 counts as 0. */
  lemma SboxIsAffineInverse(b: Byte) returns (y: Byte)
    ensures Sbox(b) == Affine(y) && (b == 0 ==> y == 0) && (b != 0 ==> Mul(b, y) == 1)
  {
    y := InvAffine(Sbox(b));
    AffineInverse(Sbox(b));
    hide Mul, Affine;
    MulFull(b, y);
  }

  lemma ChosenByEach(p: Byte)
    ensures Chosen(0x09, p) == Chosen(0x09 >> 3, p) == p && Chosen(0x09 >> 1, p) == Chosen(0x09 >> 2, p) == 0
    ensures Chosen(0x0B, p) == Chosen(0x0B >> 1, p) == Chosen(0x0B >> 3, p) == p && Chosen(0x0B >> 2, p) == 0
    ensures Chosen(0x0D, p) == Chosen(0x0D >> 2, p) == Chosen(0x0D >> 3, p) == p && Chosen(0x0D >> 1, p) == 0
    ensures Chosen(0x0E >> 1, p) == Chosen(0x0E >> 2, p) == Chosen(0x0E >> 3, p) == p && Chosen(0x0E, p) == 0
  {
  }

  lemma SumsOfFour(p: Byte, q: Byte, r: Byte, s: Byte)
    ensures Xor(p, Xor(0, Xor(0, s))) == Xor(p, s) && Xor(p, Xor(q, Xor(0, s))) == Xor(Xor(p, q), s)
    ensures Xor(p, Xor(0, Xor(r, s))) == Xor(Xor(p, r), s) && Xor(0, Xor(q, Xor(r, s))) == Xor(Xor(q, r), s)
  {
    hide Xor;
    XorZero(s);
    XorZero(Xor(r, s));
    XorZero(Xor(q, Xor(r, s)));
    XorAssociates(p, q, s);
    XorAssociates(p, r, s);
    XorAssociates(q, r, s);
  }

  /** The products by the coefficients 9, 11, 13 and 14. */
  lemma LowProducts(b: Byte)
    ensures LowProduct(b, 0x09) == Xor(b, Mul8(b))
    ensures LowProduct(b, 0x0B) == Xor(Xor(b, Mul2(b)), Mul8(b))
    ensures LowProduct(b, 0x0D) == Xor(Xor(b, Mul4(b)), Mul8(b))
    ensures LowProduct(b, 0x0E) == Xor(Xor(Mul2(b), Mul4(b)), Mul8(b))
  {
    hide Mul2, Mul4, Mul8, Xor, Chosen;
    var p, q, r, s := b, Mul2(b), Mul4(b), Mul8(b);
    ChosenByEach(p);
    ChosenByEach(q);
    ChosenByEach(r);
    ChosenByEach(s);
    SumsOfFour(p, q, r, s);
  }

  lemma Coefficients(b: Byte)
    ensures Mul(b, 0x09) == Xor(b, Mul8(b))
    ensures Mul(b, 0x0B) == Xor(Xor(b, Mul2(b)), Mul8(b))
    ensures Mul(b, 0x0D) == Xor(Xor(b, Mul4(b)), Mul8(b))
    ensures Mul(b, 0x0E) == Xor(Xor(Mul2(b), Mul4(b)), Mul8(b))
  {
    hide Mul, Mul2, Mul4, Mul8, LowProduct, Xor;
    LowProducts(b);
    MulLow(b, 0x09);
    MulLow(b, 0x0B);
    MulLow(b, 0x0D);
    MulLow(b, 0x0E);
  }

  // The coefficients 2, 1, 1, 3 of one matrix against 14, 11, 13, 9 of the other; `a` to `e` are the
  // products of a byte by 1, 2, 4, 8 and 16.

  lemma FirstSum(a: Byte, b: Byte, c: Byte, d: Byte, e: Byte)
    ensures Xor(Xor(Xor(Xor(c, d), e), Xor(Xor(a, b), d)), Xor(Xor(Xor(a, c), d), Xor(Xor(b, e), Xor(a, d)))) == a
  {
    hide Xor;
    DropFourth(c, d, e, Xor(a, b));
    DropTwo(a, c, d, Xor(b, e));
    LeaveFirst(a, b, c, e);
  }

  lemma DropFourth(c: Byte, d: Byte, e: Byte, h: Byte)
    ensures Xor(Xor(Xor(c, d), e), Xor(h, d)) == Xor(Xor(c, e), h)
  {
  }

  lemma XorSelf(x: Byte)
    ensures Xor(x, x) == 0
  {
  }

  lemma XorSwap(x: Byte, y: Byte, z: Byte)
    ensures Xor(x, Xor(y, z)) == Xor(y, Xor(x, z))
  {
    hide Xor;
    XorAssociates(x, y, z);
    XorCommutes(x, y);
    XorAssociates(y, x, z);
  }

  lemma DropCommon(x: Byte, y: Byte, w: Byte)
    ensures Xor(Xor(x, w), Xor(y, w)) == Xor(x, y)
  {
    hide Xor;
    XorAssociates(x, w, Xor(y, w));
    XorSwap(w, y, w);
    XorSelf(w);
    XorZero(y);
  }

  lemma DropTwo(a: Byte, c: Byte, d: Byte, g: Byte)
    ensures Xor(Xor(Xor(a, c), d), Xor(g, Xor(a, d))) == Xor(c, g)
  {
    hide Xor;
    XorCommutes(a, c);
    XorAssociates(c, a, d);
    DropCommon(c, g, Xor(a, d));
  }

  lemma LeaveFirst(a: Byte, b: Byte, c: Byte, e: Byte)
    ensures Xor(Xor(Xor(c, e), Xor(a, b)), Xor(c, Xor(b, e))) == a
  {
  }

  lemma SecondSum(a: Byte, b: Byte, c: Byte, d: Byte, e: Byte)
    ensures Xor(Xor(Xor(Xor(b, c), d), Xor(Xor(a, b), d)), Xor(Xor(Xor(Xor(b, d), e), Xor(Xor(a, c), d)), Xor(b, e))) == 0
  {
  }

  lemma ThirdSum(a: Byte, b: Byte, c: Byte, d: Byte, e: Byte)
    ensures Xor(Xor(Xor(Xor(b, c), d), Xor(Xor(Xor(b, c), e), Xor(Xor(a, b), d))), Xor(Xor(Xor(b, d), e), Xor(a, d))) == 0
  {
    hide Xor;
    DropBoth(Xor(b, c), d, e, Xor(a, b));
    DropFourth(b, d, e, a);
    LeaveNothing(a, b, e);
  }

  lemma DropBoth(u: Byte, d: Byte, e: Byte, g: Byte)
    ensures Xor(Xor(u, d), Xor(Xor(u, e), Xor(g, d))) == Xor(e, g)
  {
    hide Xor;
    XorSwap(Xor(u, d), Xor(u, e), Xor(g, d));
    DropCommon(u, g, d);
    XorCommutes(u, e);
    XorCommutes(u, g);
    DropCommon(e, g, u);
  }

  lemma LeaveNothing(a: Byte, b: Byte, e: Byte)
    ensures Xor(Xor(e, Xor(a, b)), Xor(Xor(b, e), a)) == 0
  {
    hide Xor;
    XorCommutes(Xor(b, e), a);
    XorSwap(e, a, b);
    XorCommutes(b, e);
    XorSelf(Xor(a, Xor(b, e)));
  }

  lemma FourthSum(a: Byte, b: Byte, c: Byte, d: Byte, e: Byte)
    ensures Xor(Xor(Xor(Xor(Xor(c, d), e), Xor(Xor(b, c), d)), Xor(Xor(b, c), e)), Xor(Xor(Xor(a, c), d), Xor(a, d))) == 0
  {
  }

  lemma FirstEntry(x: Byte)
    ensures InvMixByte(Mul2(x), x, x, Xor(Mul2(x), x)) == x
  {
    hide Mul, Mul2, Xor;
    Coefficients(x);
    Coefficients(Mul2(x));
    MulAdditive(Mul2(x), x, 0x09);
    FirstSum(x, Mul2(x), Mul4(x), Mul8(x), Mul2(Mul8(x)));
  }

  lemma SecondEntry(x: Byte)
    ensures InvMixByte(x, x, Xor(Mul2(x), x), Mul2(x)) == 0
  {
    hide Mul, Mul2, Xor;
    Coefficients(x);
    Coefficients(Mul2(x));
    MulAdditive(Mul2(x), x, 0x0D);
    SecondSum(x, Mul2(x), Mul4(x), Mul8(x), Mul2(Mul8(x)));
  }

  lemma ThirdEntry(x: Byte)
    ensures InvMixByte(x, Xor(Mul2(x), x), Mul2(x), x) == 0
  {
    hide Mul, Mul2, Xor;
    Coefficients(x);
    Coefficients(Mul2(x));
    MulAdditive(Mul2(x), x, 0x0B);
    ThirdSum(x, Mul2(x), Mul4(x), Mul8(x), Mul2(Mul8(x)));
  }

  lemma FourthEntry(x: Byte)
    ensures InvMixByte(Xor(Mul2(x), x), Mul2(x), x, x) == 0
  {
    hide Mul, Mul2, Xor;
    Coefficients(x);
    Coefficients(Mul2(x));
    MulAdditive(Mul2(x), x, 0x0E);
    FourthSum(x, Mul2(x), Mul4(x), Mul8(x), Mul2(Mul8(x)));
  }

  lemma ZeroProduct()
    ensures Mul2(0) == 0 && Xor(0, 0) == 0
  {
  }

  lemma MixOneByte(x: Byte)
    ensures Mix(Column(x, 0, 0, 0)) == Column(Mul2(x), x, x, Xor(Mul2(x), x))
    ensures Mix(Column(0, x, 0, 0)) == Column(Xor(Mul2(x), x), Mul2(x), x, x)
    ensures Mix(Column(0, 0, x, 0)) == Column(x, Xor(Mul2(x), x), Mul2(x), x)
    ensures Mix(Column(0, 0, 0, x)) == Column(x, x, Xor(Mul2(x), x), Mul2(x))
  {
    ZeroProduct();
    XorZero(x);
    XorZero(Mul2(x));
    XorZero(Xor(Mul2(x), x));
    hide Mul2, Xor;
  }

  /** A column with one byte comes back, ... */
  lemma OneByteInverse(x: Byte)
    ensures InvMix(Mix(Column(x, 0, 0, 0))) == Column(x, 0, 0, 0) && InvMix(Mix(Column(0, x, 0, 0))) == Column(0, x, 0, 0)
    ensures InvMix(Mix(Column(0, 0, x, 0))) == Column(0, 0, x, 0) && InvMix(Mix(Column(0, 0, 0, x))) == Column(0, 0, 0, x)
  {
    hide Mix, InvMixByte, Mul2, Xor;
    MixOneByte(x);
    FirstEntry(x);
    SecondEntry(x);
    ThirdEntry(x);
    FourthEntry(x);
  }

  /** ... and so does every column. */
  lemma MixInverse(x: Column)
    ensures InvMix(Mix(x)) == x
  {
    hide Mix, InvMix, Xor;
    var xa, xb, xc, xd := Column(x.a, 0, 0, 0), Column(0, x.b, 0, 0), Column(0, 0, x.c, 0), Column(0, 0, 0, x.d);
    XorZero(x.a);
    XorZero(x.b);
    XorZero(x.c);
    XorZero(x.d);
    XorZero(0);
    var left, right := AddColumn(xa, xb), AddColumn(xc, xd);
    assert AddColumn(left, right) == x;
    InvMixMixAdditive(left, right);
    InvMixMixAdditive(xa, xb);
    InvMixMixAdditive(xc, xd);
    OneByteInverse(x.a);
    OneByteInverse(x.b);
    OneByteInverse(x.c);
    OneByteInverse(x.d);
  }

  function Unpack(w: Word): Column {
    Column(Byte0(w), Byte1(w), Byte2(w), Byte3(w))
  }

  function PackColumn(x: Column): Word {
    Pack(x.a, x.b, x.c, x.d)
  }

  function MixWord(w: Word): Word {
    PackColumn(Mix(Unpack(w)))
  }

  function InvMixWord(w: Word): Word {
    PackColumn(InvMix(Unpack(w)))
  }

  lemma MixWordInverse(w: Word)
    ensures InvMixWord(MixWord(w)) == w
  {
    hide Mix, InvMix, Pack, Byte0, Byte1, Byte2, Byte3;
    var x := Mix(Unpack(w));
    BytesPack(x.a, x.b, x.c, x.d);
    MixInverse(Unpack(w));
    PackBytes(w);
  }

  function MixColumns(s: State): State {
    State(MixWord(s.w0), MixWord(s.w1), MixWord(s.w2), MixWord(s.w3))
  }

  function InvMixColumns(s: State): State {
    State(InvMixWord(s.w0), InvMixWord(s.w1), InvMixWord(s.w2), InvMixWord(s.w3))
  }

  lemma MixColumnsInverse(s: State)
    ensures InvMixColumns(MixColumns(s)) == s
  {
    hide MixWord, InvMixWord;
    MixWordInverse(s.w0);
    MixWordInverse(s.w1);
    MixWordInverse(s.w2);
    MixWordInverse(s.w3);
  }

  // ----- the cipher

  function AddRoundKey(k: State, s: State): State {
    State(XorWord(s.w0, k.w0), XorWord(s.w1, k.w1), XorWord(s.w2, k.w2), XorWord(s.w3, k.w3))
  }

  function XorWord(x: Word, y: Word): Word {
    x ^ y
  }

  lemma XorWordTwice(x: Word, y: Word)
    ensures XorWord(XorWord(x, y), y) == x
  {
  }

  lemma AddRoundKeyInverse(k: State, s: State)
    ensures AddRoundKey(k, AddRoundKey(k, s)) == s
  {
    hide XorWord;
    XorWordTwice(s.w0, k.w0);
    XorWordTwice(s.w1, k.w1);
    XorWordTwice(s.w2, k.w2);
    XorWordTwice(s.w3, k.w3);
  }

  /** The state after the first key and `i` full rounds. */
  function Rounds(keys: RoundKeys, s: State, i: nat): State
    requires i < |keys| - 1
    decreases i
  {
    if i == 0 then AddRoundKey(keys[0], s)
    else AddRoundKey(keys[i], MixColumns(ShiftRows(SubBytes(Rounds(keys, s, i - 1)))))
  }

  function Encrypt(keys: RoundKeys, s: State): State {
    var n := |keys| - 1;
    AddRoundKey(keys[n], ShiftRows(SubBytes(Rounds(keys, s, n - 1))))
  }

  /** Rounds `i`, ..., 1 backwards, then the first key. */
  function InvRounds(keys: RoundKeys, s: State, i: nat): State
    requires i < |keys| - 1
    decreases i
  {
    if i == 0 then AddRoundKey(keys[0], s)
    else InvRounds(keys, InvSubBytes(InvShiftRows(InvMixColumns(AddRoundKey(keys[i], s)))), i - 1)
  }

  function Decrypt(keys: RoundKeys, s: State): State {
    var n := |keys| - 1;
    InvRounds(keys, InvSubBytes(InvShiftRows(AddRoundKey(keys[n], s))), n - 1)
  }

  lemma {:induction false} RoundsInverse(keys: RoundKeys, s: State, i: nat)
    requires i < |keys| - 1
    ensures InvRounds(keys, Rounds(keys, s, i), i) == s
    decreases i
  {
    hide AddRoundKey, SubBytes, ShiftRows, MixColumns, InvSubBytes, InvShiftRows, InvMixColumns;
    if i == 0 {
      AddRoundKeyInverse(keys[0], s);
    } else {
      var t := Rounds(keys, s, i - 1);
      AddRoundKeyInverse(keys[i], MixColumns(ShiftRows(SubBytes(t))));
      MixColumnsInverse(ShiftRows(SubBytes(t)));
      ShiftRowsInverse(SubBytes(t));
      SubBytesInverse(t);
      RoundsInverse(keys, s, i - 1);
    }
  }

  /** For every number of rounds and all round keys, decryption undoes encryption. */
  lemma DecryptEncrypt(keys: RoundKeys, s: State)
    ensures Decrypt(keys, Encrypt(keys, s)) == s
  {
    hide AddRoundKey, SubBytes, ShiftRows, InvSubBytes, InvShiftRows, Rounds, InvRounds;
    var n := |keys| - 1;
    var t := Rounds(keys, s, n - 1);
    AddRoundKeyInverse(keys[n], ShiftRows(SubBytes(t)));
    ShiftRowsInverse(SubBytes(t));
    SubBytesInverse(t);
    RoundsInverse(keys, s, n - 1);
  }
}
