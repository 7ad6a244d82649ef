/** The ECB and CBC modes (sections 6.1 and 6.2 of NIST SP 800-38A) with PKCS padding (section 6.3 of RFC 5652). */
module AesModes {
  import opened Basics
  import opened AesTables
  import opened AesCipher
  import opened AesBlocks
  import opened AesKeys

  type Bytes = seq<Byte>

  // ----- blocks of a message

  function Blk(s: Bytes, j: nat): Block
    requires 16 * j + 16 <= |s|
  {
    s[16 * j..16 * j + 16]
  }

  function XorBlock(a: Block, b: Block): Block {
    seq(16, i requires 0 <= i < 16 => Xor(a[i], b[i]))
  }

  function Zero(): Block {
    seq(16, _ => 0)
  }

  lemma XorTwice(x: Byte, y: Byte)
    ensures Xor(Xor(x, y), y) == x
  {
  }

  lemma XorBlockTwice(a: Block, b: Block)
    ensures XorBlock(XorBlock(a, b), b) == a
  {
    hide Xor;
    forall i | 0 <= i < 16 ensures XorBlock(XorBlock(a, b), b)[i] == a[i] {
      XorTwice(a[i], b[i]);
    }
  }

  /** A message is its blocks. */
  lemma BlocksDetermine(s: Bytes, t: Bytes)
    requires |s| == |t| && |s| % 16 == 0 && forall j :: 0 <= j < |s| / 16 ==> Blk(s, j) == Blk(t, j)
    ensures s == t
  {
    forall i | 0 <= i < |s| ensures s[i] == t[i] {
      assert Blk(s, i / 16)[i % 16] == Blk(t, i / 16)[i % 16];
    }
  }

  // ----- padding

  /** How many bytes padding adds: 1 to 16. */
  function PadSize(n: nat): nat {
    16 - n % 16
  }

  /** A byte with a small value. */
  function SmallByte(n: nat): Byte
    requires n <= 16
  {
    if n < 8 then Low(n) else if n < 16 then 8 | Low(n - 8) else 16
  }

  function Low(n: nat): Byte
    requires n < 8
  {
    if n == 0 then 0 else if n == 1 then 1 else if n == 2 then 2 else if n == 3 then 3
    else if n == 4 then 4 else if n == 5 then 5 else if n == 6 then 6 else 7
  }

  /** A byte as a number. */
  function Value(b: Byte): nat {
    (if b & 1 != 0 then 1 else 0) + (if b & 2 != 0 then 2 else 0) + (if b & 4 != 0 then 4 else 0)
    + (if b & 8 != 0 then 8 else 0) + (if b & 16 != 0 then 16 else 0) + (if b & 32 != 0 then 32 else 0)
    + (if b & 64 != 0 then 64 else 0) + (if b & 128 != 0 then 128 else 0)
  }

  lemma SmallByteValue(n: nat)
    requires n <= 16
    ensures Value(SmallByte(n)) == n
  {
  }

  /** Which are the number as a byte and the byte as a number. */
  lemma ByteNumbers(n: nat, b: Byte)
    ensures n <= 16 ==> SmallByte(n) == n as bv8
    ensures Value(b) == b as int
  {
  }

  function Padded(data: Bytes): (p: Bytes)
    ensures |p| == |data| + PadSize(|data|) && |p| % 16 == 0
  {
    data + seq(PadSize(|data|), _ => SmallByte(PadSize(|data|)))
  }

  /** What `check_padding` accepts. */
  predicate PaddingOk(n: nat, last: Block) {
    n <= 16 && forall i :: 16 - n <= i < 16 ==> Value(last[i]) == n
  }

  method CheckPadding(n: nat, last: array<Byte>) returns (ok: bool)
    requires last.Length == 16
    ensures ok == PaddingOk(n, last[..])
  {
    hide Value;
    if n > 16 {
      return false;
    }
    for i := 0 to n
      invariant forall k :: 16 - i <= k < 16 ==> Value(last[k]) == n
    {
      if Value(last[15 - i]) != n {
        assert Value(last[..][15 - i]) != n;
        return false;
      }
    }
    return true;
  }

  // ----- the modes

  /** Electronic codebook: every block by itself; cipher block chaining, from an initial vector. */
  datatype Mode = Ecb | Cbc(iv: Block)

  /** What block `j` is combined with. */
  function Before(mode: Mode, c: Bytes, j: nat): Block
    requires 16 * j <= |c|
  {
    if mode.Ecb? then Zero() else if j == 0 then mode.iv else Blk(c, j - 1)
  }

  /** The first `n` blocks of `c` are the encryption of those of `p`. */
  ghost predicate Chained(keys: RoundKeys, mode: Mode, p: Bytes, c: Bytes, n: nat)
    requires 16 * n <= |p| && 16 * n <= |c|
  {
    forall j :: 0 <= j < n ==> Blk(c, j) == EncryptBlock(keys, XorBlock(Blk(p, j), Before(mode, c, j)))
  }

  ghost predicate Encrypted(keys: RoundKeys, mode: Mode, p: Bytes, c: Bytes) {
    |p| == |c| && |p| % 16 == 0 && Chained(keys, mode, p, c, |p| / 16)
  }

  function PlainBlock(keys: RoundKeys, mode: Mode, c: Bytes, j: nat): Block
    requires 16 * j + 16 <= |c|
  {
    XorBlock(DecryptBlock(keys, Blk(c, j)), Before(mode, c, j))
  }

  /** The first `n` blocks of `p` are the decryption of those of `c`. */
  ghost predicate Unchained(keys: RoundKeys, mode: Mode, c: Bytes, p: Bytes, n: nat)
    requires 16 * n <= |p| && 16 * n <= |c|
  {
    forall j :: 0 <= j < n ==> Blk(p, j) == PlainBlock(keys, mode, c, j)
  }

  ghost predicate DecryptsTo(keys: RoundKeys, mode: Mode, c: Bytes, p: Bytes) {
    |p| == |c| && |p| % 16 == 0 && Unchained(keys, mode, c, p, |p| / 16)
  }

  /** Decryption undoes encryption, and nothing else decrypts to the message. */
  lemma DecryptionInverse(keys: RoundKeys, mode: Mode, p: Bytes, c: Bytes, q: Bytes)
    requires Encrypted(keys, mode, p, c)
    ensures DecryptsTo(keys, mode, c, q) <==> q == p
  {
    hide EncryptBlock, DecryptBlock, XorBlock;
    forall j | 0 <= j < |p| / 16 ensures PlainBlock(keys, mode, c, j) == Blk(p, j) {
      DecryptEncryptBlock(keys, XorBlock(Blk(p, j), Before(mode, c, j)));
      XorBlockTwice(Blk(p, j), Before(mode, c, j));
    }
    if DecryptsTo(keys, mode, c, q) {
      BlocksDetermine(p, q);
    }
  }

  lemma OneMoreChained(keys: RoundKeys, mode: Mode, p: Bytes, c: Bytes, c': Bytes, n: nat)
    requires 16 * n + 16 <= |p| && 16 * n + 16 <= |c| == |c'| && Chained(keys, mode, p, c, n)
    requires c'[..16 * n] == c[..16 * n]
    requires Blk(c', n) == EncryptBlock(keys, XorBlock(Blk(p, n), Before(mode, c, n)))
    ensures Chained(keys, mode, p, c', n + 1)
  {
    hide EncryptBlock, XorBlock, Blk;
    SameBlocks(c, c', n);
    forall j | 0 <= j < n + 1 ensures Blk(c', j) == EncryptBlock(keys, XorBlock(Blk(p, j), Before(mode, c', j))) {
      assert Before(mode, c', j) == Before(mode, c, j);
    }
  }

  lemma SameBlocks(c: Bytes, c': Bytes, n: nat)
    requires 16 * n <= |c| && 16 * n <= |c'| && c'[..16 * n] == c[..16 * n]
    ensures forall j :: 0 <= j < n ==> Blk(c', j) == Blk(c, j)
  {
    forall j | 0 <= j < n ensures Blk(c', j) == Blk(c, j) {
      assert c'[..16 * n][16 * j..16 * j + 16] == c[..16 * n][16 * j..16 * j + 16];
    }
  }

  lemma OneMoreUnchained(keys: RoundKeys, mode: Mode, c: Bytes, p: Bytes, p': Bytes, n: nat)
    requires 16 * n + 16 <= |p| == |p'| && 16 * n + 16 <= |c| && Unchained(keys, mode, c, p, n)
    requires p'[..16 * n] == p[..16 * n] && Blk(p', n) == PlainBlock(keys, mode, c, n)
    ensures Unchained(keys, mode, c, p', n + 1)
  {
    hide PlainBlock, Blk;
    SameBlocks(p, p', n);
  }

  // ----- the operations

  datatype Error = Ok | InvalidDataSize | InvalidKeySize | InvalidBufferSize | InvalidKey

  function CheckEncrypt(dataSize: nat, keySize: nat, encryptedSize: nat, pads: bool): Error {
    if !pads && dataSize % 16 != 0 then InvalidDataSize
    else if !ValidKeySize(keySize) then InvalidKeySize
    else if encryptedSize < dataSize + (if pads then PadSize(dataSize) else 0) then InvalidBufferSize
    else Ok
  }

  /** For no data at all the size that is subtracted from wraps around, and no buffer is large enough. */
  function CheckDecrypt(dataSize: nat, keySize: nat, decryptedSize: nat, unpads: bool): Error {
    if dataSize % 16 != 0 then InvalidDataSize
    else if !ValidKeySize(keySize) then InvalidKeySize
    else if !unpads && decryptedSize < dataSize then InvalidBufferSize
    else if unpads && (dataSize == 0 || decryptedSize < dataSize - 16) then InvalidBufferSize
    else Ok
  }

  // ----- which blocks the operations touch once the check has passed

  /** `data_size / 16 - 1` in `unsigned long`, whose values are those below `limit`: for no data it wraps around. */
  function LastIndex(n: nat, limit: nat): nat
    requires n < limit
  {
    if n < 16 then limit - 1 else n / 16 - 1
  }

  predicate Fits(k: nat, size: nat) {
    16 * k + 16 <= size
  }

  // Whole blocks that are read from the data or written without a further test of the size.

  /** CBC encryption writes the first block whatever the size. */
  predicate CbcEncryptWrites(n: nat, pads: bool, k: nat) {
    k == 0 || k < n / 16 || (pads && n >= 16 && k == n / 16)
  }

  predicate EcbEncryptWrites(n: nat, pads: bool, k: nat) {
    k < n / 16 || (pads && k == n / 16)
  }

  /** CBC decryption reads and writes the first block whatever the size. */
  predicate CbcDecryptReads(n: nat, limit: nat, k: nat)
    requires n < limit
  {
    k == 0 || k < LastIndex(n, limit) || (n > 16 && k == LastIndex(n, limit))
  }

  predicate CbcDecryptWrites(n: nat, limit: nat, unpads: bool, k: nat)
    requires n < limit
  {
    k == 0 || k < LastIndex(n, limit) || (!unpads && k == LastIndex(n, limit))
  }

  predicate EcbDecryptReads(n: nat, limit: nat, k: nat)
    requires n < limit
  {
    k <= LastIndex(n, limit)
  }

  predicate EcbDecryptWrites(n: nat, limit: nat, unpads: bool, k: nat)
    requires n < limit
  {
    k < LastIndex(n, limit) || (!unpads && k == LastIndex(n, limit))
  }

  ghost predicate CbcEncryptInBounds(n: nat, size: nat, pads: bool) {
    forall k: nat :: CbcEncryptWrites(n, pads, k) ==> Fits(k, size)
  }

  ghost predicate EcbEncryptInBounds(n: nat, size: nat, pads: bool) {
    forall k: nat :: EcbEncryptWrites(n, pads, k) ==> Fits(k, size)
  }

  ghost predicate CbcDecryptInBounds(n: nat, limit: nat, size: nat, unpads: bool)
    requires n < limit
  {
    && (forall k: nat :: CbcDecryptReads(n, limit, k) ==> Fits(k, n))
    && (forall k: nat :: CbcDecryptWrites(n, limit, unpads, k) ==> Fits(k, size))
  }

  ghost predicate EcbDecryptInBounds(n: nat, limit: nat, size: nat, unpads: bool)
    requires n < limit
  {
    && (forall k: nat :: EcbDecryptReads(n, limit, k) ==> Fits(k, n))
    && (forall k: nat :: EcbDecryptWrites(n, limit, unpads, k) ==> Fits(k, size))
  }

  /** After its check CBC encryption stays in the buffer, except for no data without padding into less than a block. */
  lemma CbcEncryptExact(n: nat, keySize: nat, size: nat, pads: bool)
    requires CheckEncrypt(n, keySize, size, pads) == Ok
    ensures CbcEncryptInBounds(n, size, pads) <==> !(n == 0 && !pads && size < 16)
  {
    if n == 0 && !pads && size < 16 { assert CbcEncryptWrites(n, pads, 0) && !Fits(0, size); }
  }

  lemma EcbEncryptExact(n: nat, keySize: nat, size: nat, pads: bool)
    requires CheckEncrypt(n, keySize, size, pads) == Ok
    ensures EcbEncryptInBounds(n, size, pads)
  {
  }

  /** CBC decryption goes out of bounds on no data without unpadding, and on one block into less than a block with it. */
  lemma CbcDecryptExact(n: nat, limit: nat, keySize: nat, size: nat, unpads: bool)
    requires n < limit && CheckDecrypt(n, keySize, size, unpads) == Ok
    ensures CbcDecryptInBounds(n, limit, size, unpads) <==> !(n == 0 && !unpads) && !(n == 16 && unpads && size < 16)
  {
    if n == 0 && !unpads { assert CbcDecryptReads(n, limit, 0) && !Fits(0, n); }
    if n == 16 && unpads && size < 16 { assert CbcDecryptWrites(n, limit, unpads, 0) && !Fits(0, size); }
  }

  /** ECB decryption goes out of bounds exactly on no data without unpadding, where the block count has wrapped. */
  lemma EcbDecryptExact(n: nat, limit: nat, keySize: nat, size: nat, unpads: bool)
    requires n < limit && CheckDecrypt(n, keySize, size, unpads) == Ok
    ensures EcbDecryptInBounds(n, limit, size, unpads) <==> !(n == 0 && !unpads)
  {
    if n == 0 && !unpads { assert EcbDecryptReads(n, limit, 0) && !Fits(0, n); }
  }

  /** The inputs that pass the checks and leave the buffers. */
  lemma OutOfBounds(limit: nat)
    requires limit > 16
    ensures CheckEncrypt(0, 16, 0, false) == Ok && !CbcEncryptInBounds(0, 0, false)
    ensures CheckDecrypt(0, 16, 0, false) == Ok && LastIndex(0, limit) == limit - 1
    ensures !CbcDecryptInBounds(0, limit, 0, false) && !EcbDecryptInBounds(0, limit, 0, false)
    ensures CheckDecrypt(16, 16, 15, true) == Ok && !CbcDecryptInBounds(16, limit, 15, true)
  {
    CbcEncryptExact(0, 16, 0, false);
    CbcDecryptExact(0, limit, 16, 0, false);
    EcbDecryptExact(0, limit, 16, 0, false);
    CbcDecryptExact(16, limit, 16, 15, true);
  }

  // ----- the operations in place

  /** `xor_data` with 16 bytes. */
  method XorData(data: array<Byte>, at: nat, v: Block)
    requires at + 16 <= data.Length
    modifies data
    ensures data[at..at + 16] == XorBlock(old(data[at..at + 16]), v)
    ensures forall i :: 0 <= i < data.Length && !(at <= i < at + 16) ==> data[i] == old(data[i])
  {
    hide Xor;
    for i := 0 to 16
      invariant forall k :: 0 <= k < data.Length ==>
        data[k] == if at <= k < at + i then Xor(old(data[k]), v[k - at]) else old(data[k])
    {
      data[at + i] := Xor(data[at + i], v[i]);
    }
  }

  method CopyBytes(from: Bytes, to: array<Byte>, at: nat)
    requires at + |from| <= to.Length
    modifies to
    ensures to[at..at + |from|] == from
    ensures forall i :: 0 <= i < to.Length && !(at <= i < at + |from|) ==> to[i] == old(to[i])
  {
    for i := 0 to |from|
      invariant forall k :: 0 <= k < to.Length ==> to[k] == if at <= k < at + i then from[k - at] else old(to[k])
    {
      to[at + i] := from[i];
    }
  }

  /** Without an initial vector nothing is added to the first block. */
  function IvOf(iv: Option<Block>): Block {
    if iv.Some? then iv.value else Zero()
  }

  lemma XorBlockZero(a: Block)
    ensures XorBlock(a, Zero()) == a
  {
    hide Xor;
    forall i | 0 <= i < 16 ensures XorBlock(a, Zero())[i] == a[i] {
      XorZero(a[i]);
    }
  }

  /** The message that is encrypted. */
  function Message(data: Bytes, pads: bool): Bytes {
    if pads then Padded(data) else data
  }

  /** Block `n` is ready in `s`: encrypt it to its place. */
  method EncryptNext(keys: RoundKeys, ghost mode: Mode, s: array<Byte>, encrypted: array<Byte>, n: nat, ghost p: Bytes)
    requires s.Length == 16 && 16 * n + 16 <= encrypted.Length && 16 * n + 16 <= |p|
    requires Chained(keys, mode, p, encrypted[..], n) && s[..] == XorBlock(Blk(p, n), Before(mode, encrypted[..], n))
    modifies encrypted
    ensures Chained(keys, mode, p, encrypted[..], n + 1)
    ensures forall i :: 16 * n + 16 <= i < encrypted.Length ==> encrypted[i] == old(encrypted[i])
  {
    hide EncryptBlock, XorBlock, Chained;
    ghost var c := encrypted[..];
    ghost var x := XorBlock(Blk(p, n), Before(mode, c, n));
    assert s[0..0 + 16] == s[..] == x;
    EncryptState(keys, s, 0, encrypted, 16 * n);
    assert encrypted[16 * n..16 * n + 16] == EncryptBlock(keys, x);
    OneMoreChained(keys, mode, p, c, encrypted[..], n);
  }

  /** The first block of the message, or all of it followed by padding. */
  method FirstBlock(data: array<Byte>, n: nat) returns (s: array<Byte>)
    requires n <= data.Length
    ensures fresh(s) && s.Length == 16
    ensures s[..] == if n >= 16 then data[..16] else Padded(data[..n])
  {
    hide SmallByte;
    if n >= 16 {
      s := new Byte[16](_ => 0);
      CopyBytes(data[..16], s, 0);
    } else {
      var pad := SmallByte(PadSize(n));
      s := new Byte[16](_ => pad);
      CopyBytes(data[..n], s, 0);
    }
  }

  /** The last block with padding: what is left of the message, then pad bytes. */
  method LastBlock(data: array<Byte>, n: nat, ghost d: Bytes) returns (s: array<Byte>)
    requires n <= data.Length && |d| == n && data[n - n % 16..n] == d[n - n % 16..]
    ensures fresh(s) && s.Length == 16
    ensures s[..] == Blk(Padded(d), n / 16)
  {
    hide SmallByte;
    var rem := n % 16;
    var pad := SmallByte(PadSize(n));
    s := new Byte[16](_ => pad);
    CopyBytes(data[n - rem..n], s, 0);
    LastOfPadded(d, s[..]);
  }

  lemma LastOfPadded(data: Bytes, s: Bytes)
    requires |s| == 16 && s[..|data| % 16] == data[|data| - |data| % 16..]
    requires forall i :: |data| % 16 <= i < 16 ==> s[i] == SmallByte(PadSize(|data|))
    ensures s == Blk(Padded(data), |data| / 16)
  {
    hide SmallByte;
    var p, at, rem := Padded(data), 16 * (|data| / 16), |data| % 16;
    forall i | 0 <= i < 16 ensures s[i] == p[at + i] {
      if i < rem {
        assert s[i] == s[..rem][i] == data[|data| - rem..][i] == data[at + i];
      }
    }
  }

  /** The first `n` bytes of `data` are encrypted; the buffers may be the same. */
  method EncryptCbc(data: array<Byte>, n: nat, key: Bytes, iv: Option<Block>, encrypted: array<Byte>, pads: bool)
    returns (e: Error, ghost writes: set<nat>)
    requires n <= data.Length
    requires CheckEncrypt(n, |key|, encrypted.Length, pads) == Ok ==> CbcEncryptInBounds(n, encrypted.Length, pads)
    modifies encrypted
    ensures e == CheckEncrypt(n, |key|, encrypted.Length, pads)
    ensures forall k: nat :: k in writes <==> e == Ok && CbcEncryptWrites(n, pads, k)
    ensures e == Ok ==> var m := Message(old(data[..n]), pads);
      |m| <= encrypted.Length && Encrypted(Expanded(key), Cbc(IvOf(iv)), m, encrypted[..|m|])
    ensures e != Ok ==> encrypted[..] == old(encrypted[..])
  {
    hide Chained, Padded, Expanded, XorBlock, EncryptBlock;
    e, writes := CheckEncrypt(n, |key|, encrypted.Length, pads), {};
    if e != Ok {
      return;
    }
    writes := {0};
    CbcEncryptExact(n, |key|, encrypted.Length, pads);
    var expanded := ExpandKey(key);
    var keys := expanded.value;
    ghost var d := data[..n];
    ghost var m := Message(d, pads);
    var s := FirstBlock(data, n);
    AddVector(s, iv);
    MessageBlocks(d, pads);
    assert n >= 16 ==> data[..16] == d[16 * 0..16 * 0 + 16] == Blk(m, 0);
    NothingChained(keys, Cbc(IvOf(iv)), m, encrypted[..]);
    if !pads && n == 0 {
      EncryptState(keys, s, 0, encrypted, 0);
      NothingChained(keys, Cbc(IvOf(iv)), m, encrypted[..0]);
      return;
    }
    EncryptNext(keys, Cbc(IvOf(iv)), s, encrypted, 0, m);
    if n >= 16 {
      assert data[16..n] == d[16..];
      ghost var middle := EncryptMiddle(keys, data, n, Cbc(IvOf(iv)), s, encrypted, pads, m, d);
      writes := writes + middle;
      if pads {
        writes := writes + {n / 16};
        EncryptLast(keys, data, n, Cbc(IvOf(iv)), encrypted, m, d);
      }
    }
    AllChained(keys, Cbc(IvOf(iv)), m, encrypted[..]);
  }

  method AddVector(s: array<Byte>, iv: Option<Block>)
    requires s.Length == 16
    modifies s
    ensures s[..] == XorBlock(old(s[..]), IvOf(iv))
  {
    hide XorBlock;
    assert s[..] == s[0..0 + 16];
    if iv.Some? {
      XorData(s, 0, iv.value);
    } else {
      XorBlockZero(s[..]);
    }
    assert s[..] == s[0..0 + 16];
  }

  /** A message block behind the first: chained with the one encrypted before it. */
  method Chain(s: array<Byte>, encrypted: array<Byte>, n: nat, ghost mode: Mode, ghost p: Bytes)
    requires mode.Cbc? && s.Length == 16 && s != encrypted && n > 0 && 16 * n <= encrypted.Length && 16 * n + 16 <= |p| && s[..] == Blk(p, n)
    modifies s
    ensures s[..] == XorBlock(Blk(p, n), Before(mode, encrypted[..], n))
  {
    hide XorBlock;
    assert s[..] == s[0..0 + 16];
    assert Blk(encrypted[..], n - 1) == encrypted[16 * n - 16..16 * n];
    XorData(s, 0, encrypted[16 * n - 16..16 * n]);
    assert s[..] == s[0..0 + 16];
  }

  /** The blocks of `d` behind the first; what is still to be read of `data` is as it was. */
  method EncryptMiddle(keys: RoundKeys, data: array<Byte>, n: nat, ghost mode: Mode, s: array<Byte>, encrypted: array<Byte>,
                       ghost pads: bool, ghost m: Bytes, ghost d: Bytes)
    returns (ghost writes: set<nat>)
    requires mode.Cbc? && s != encrypted && s != data && s.Length == 16 && 16 <= n <= data.Length
    requires |d| == n && data[16..n] == d[16..] && m == Message(d, pads) && n <= |m| && n <= encrypted.Length
    requires Chained(keys, mode, m, encrypted[..], 1)
    modifies s, encrypted
    ensures Chained(keys, mode, m, encrypted[..], n / 16) && data[n - n % 16..n] == d[n - n % 16..]
    ensures forall k: nat :: k in writes <==> 1 <= k < n / 16
  {
    hide Chained, Padded, XorBlock, EncryptBlock;
    writes := {};
    for i := 1 to n / 16
      invariant forall k: nat :: k in writes <==> 1 <= k < i
      invariant Chained(keys, mode, m, encrypted[..], i)
      invariant forall k :: 16 * i <= k < n ==> data[k] == d[k]
    {
      CopyBytes(data[16 * i..16 * i + 16], s, 0);
      assert s[..] == s[0..0 + 16] == d[16 * i..16 * i + 16];
      MessageBlocks(d, pads);
      Chain(s, encrypted, i, mode, m);
      EncryptNext(keys, mode, s, encrypted, i, m);
      writes := writes + {i};
    }
  }

  method EncryptLast(keys: RoundKeys, data: array<Byte>, n: nat, ghost mode: Mode, encrypted: array<Byte>, ghost m: Bytes, ghost d: Bytes)
    requires mode.Cbc? && 16 <= n <= data.Length && |d| == n && data[n - n % 16..n] == d[n - n % 16..]
    requires m == Padded(d) && |m| <= encrypted.Length && Chained(keys, mode, m, encrypted[..], n / 16)
    modifies encrypted
    ensures Chained(keys, mode, m, encrypted[..], |m| / 16)
  {
    hide Chained, Padded, XorBlock, EncryptBlock;
    var ib := LastBlock(data, n, d);
    Chain(ib, encrypted, n / 16, mode, m);
    EncryptNext(keys, mode, ib, encrypted, n / 16, m);
  }

  lemma NothingChained(keys: RoundKeys, mode: Mode, p: Bytes, c: Bytes)
    ensures Chained(keys, mode, p, c, 0)
  {
  }

  /** Where the blocks of the message come from. */
  lemma MessageBlocks(data: Bytes, pads: bool)
    ensures (pads || |data| % 16 == 0) ==> |Message(data, pads)| % 16 == 0
    ensures |Message(data, pads)| == |data| + (if pads then PadSize(|data|) else 0)
    ensures forall j :: 0 <= j < |data| / 16 ==> Blk(Message(data, pads), j) == data[16 * j..16 * j + 16]
    ensures pads && |data| < 16 ==> Blk(Message(data, pads), 0) == Padded(data)
  {
  }

  lemma AllChained(keys: RoundKeys, mode: Mode, m: Bytes, c: Bytes)
    requires |m| % 16 == 0 && |m| <= |c| && Chained(keys, mode, m, c, |m| / 16)
    ensures Encrypted(keys, mode, m, c[..|m|])
  {
    hide EncryptBlock, XorBlock, Blk;
    SameBlocks(c, c[..|m|], |m| / 16);
    forall j | 0 <= j < |m| / 16
      ensures Blk(c[..|m|], j) == EncryptBlock(keys, XorBlock(Blk(m, j), Before(mode, c[..|m|], j)))
    {
      assert Before(mode, c[..|m|], j) == Before(mode, c, j);
    }
  }

  // ----- decryption

  /** The message that `c` decrypts to. */
  ghost function Plain(keys: RoundKeys, mode: Mode, c: Bytes): (p: Bytes)
    requires |c| % 16 == 0
    ensures |p| == |c|
  {
    seq(|c|, k requires 0 <= k < |c| => PlainBlock(keys, mode, c, k / 16)[k % 16])
  }

  lemma PlainBlocks(keys: RoundKeys, mode: Mode, c: Bytes)
    requires |c| % 16 == 0
    ensures forall j :: 0 <= j < |c| / 16 ==> Blk(Plain(keys, mode, c), j) == PlainBlock(keys, mode, c, j)
    ensures DecryptsTo(keys, mode, c, Plain(keys, mode, c))
  {
    hide PlainBlock;
    var p := Plain(keys, mode, c);
    forall j | 0 <= j < |c| / 16 ensures Blk(p, j) == PlainBlock(keys, mode, c, j) {
      forall i | 0 <= i < 16 ensures Blk(p, j)[i] == PlainBlock(keys, mode, c, j)[i] {
        assert Blk(p, j)[i] == p[16 * j + i];
      }
    }
  }

  /** Block `j` of what decryption in place makes of `c`: combined with the block before as already decrypted. */
  function OverBlock(keys: RoundKeys, iv: Block, c: Bytes, j: nat): Block
    requires 16 * j + 16 <= |c|
  {
    XorBlock(DecryptBlock(keys, Blk(c, j)), if j == 0 then iv else OverBlock(keys, iv, c, j - 1))
  }

  ghost function Over(keys: RoundKeys, iv: Block, c: Bytes): (p: Bytes)
    requires |c| % 16 == 0
    ensures |p| == |c|
  {
    seq(|c|, k requires 0 <= k < |c| => OverBlock(keys, iv, c, k / 16)[k % 16])
  }

  lemma OverBlocks(keys: RoundKeys, iv: Block, c: Bytes)
    requires |c| % 16 == 0
    ensures forall j :: 0 <= j < |c| / 16 ==> Blk(Over(keys, iv, c), j) == OverBlock(keys, iv, c, j)
  {
    hide OverBlock;
    var p := Over(keys, iv, c);
    forall j | 0 <= j < |c| / 16 ensures Blk(p, j) == OverBlock(keys, iv, c, j) {
      forall i | 0 <= i < 16 ensures Blk(p, j)[i] == OverBlock(keys, iv, c, j)[i] {
        assert Blk(p, j)[i] == p[16 * j + i];
      }
    }
  }

  /** What CBC decryption makes of block `j`, with one buffer or with two. */
  ghost function OutBlock(inPlace: bool, keys: RoundKeys, iv: Block, c: Bytes, j: nat): Block
    requires 16 * j + 16 <= |c|
  {
    if inPlace then OverBlock(keys, iv, c, j) else PlainBlock(keys, Cbc(iv), c, j)
  }

  ghost function Out(inPlace: bool, keys: RoundKeys, iv: Block, c: Bytes): (p: Bytes)
    requires |c| % 16 == 0
    ensures |p| == |c|
  {
    if inPlace then Over(keys, iv, c) else Plain(keys, Cbc(iv), c)
  }

  lemma OutBlocks(inPlace: bool, keys: RoundKeys, iv: Block, c: Bytes)
    requires |c| % 16 == 0
    ensures forall j :: 0 <= j < |c| / 16 ==> Blk(Out(inPlace, keys, iv, c), j) == OutBlock(inPlace, keys, iv, c, j)
  {
    hide OverBlock, PlainBlock, Over, Plain;
    OverBlocks(keys, iv, c);
    PlainBlocks(keys, Cbc(iv), c);
  }

  /** What block `n` is combined with, when the first `n` blocks are done. */
  ghost function Combined(inPlace: bool, keys: RoundKeys, iv: Block, c: Bytes, n: nat): Block
    requires 16 * n <= |c|
  {
    if n == 0 then iv else if inPlace then OverBlock(keys, iv, c, n - 1) else Blk(c, n - 1)
  }

  lemma OutStep(inPlace: bool, keys: RoundKeys, iv: Block, c: Bytes, n: nat)
    requires 16 * n + 16 <= |c|
    ensures OutBlock(inPlace, keys, iv, c, n)
         == XorBlock(DecryptBlock(keys, Blk(c, n)), Combined(inPlace, keys, iv, c, n))
  {
    hide XorBlock, DecryptBlock;
  }

  /** The first `n` blocks of `c` are done in `out`, and of `data` the rest is still as in `c`. */
  ghost predicate Halfway(keys: RoundKeys, iv: Block, c: Bytes, data: array<Byte>, out: array<Byte>, n: nat)
    reads data, out
  {
    && 16 * n <= |c| <= data.Length && 16 * n <= out.Length
    && (forall j :: 0 <= j < n ==> Blk(out[..], j) == OutBlock(data == out, keys, iv, c, j))
    && (forall k :: 16 * n <= k < |c| ==> data[k] == c[k])
    && (data != out ==> data[..|c|] == c)
  }

  lemma HalfwayPrior(keys: RoundKeys, iv: Block, c: Bytes, data: array<Byte>, out: array<Byte>, n: nat)
    requires Halfway(keys, iv, c, data, out, n) && 0 < n
    ensures data[16 * n - 16..16 * n] == Combined(data == out, keys, iv, c, n)
  {
    hide OverBlock, PlainBlock;
    if data == out {
      assert Blk(out[..], n - 1) == OutBlock(true, keys, iv, c, n - 1);
    } else {
      assert Blk(c, n - 1) == data[..|c|][16 * n - 16..16 * n];
    }
  }

  /** Decrypts block `n` of the data to a place in a buffer: its own place, or any place in a buffer of its own. */
  method DecryptNext(keys: RoundKeys, data: array<Byte>, iv: Option<Block>, decrypted: array<Byte>, out: array<Byte>, at: nat,
                     n: nat, ghost c: Bytes)
    requires Halfway(keys, IvOf(iv), c, data, decrypted, n) && 16 * n + 16 <= |c| && at + 16 <= out.Length
    requires if out == decrypted then at == 16 * n else out != data
    modifies out
    ensures out[at..at + 16] == OutBlock(data == decrypted, keys, IvOf(iv), c, n)
    ensures forall i :: 0 <= i < out.Length && !(at <= i < at + 16) ==> out[i] == old(out[i])
  {
    hide DecryptBlock, XorBlock, OutBlock, Combined;
    OutStep(data == decrypted, keys, IvOf(iv), c, n);
    ghost var prior := if n > 0 then data[16 * n - 16..16 * n] else [];
    if n > 0 { HalfwayPrior(keys, IvOf(iv), c, data, decrypted, n); }
    assert data[16 * n..16 * n + 16] == Blk(c, n);
    DecryptState(keys, data, 16 * n, out, at);
    if n > 0 {
      assert data[16 * n - 16..16 * n] == prior;
      XorData(out, at, data[16 * n - 16..16 * n]);
    } else {
      FirstCombined(data == decrypted, keys, IvOf(iv), c);
      if iv.Some? { XorData(out, at, iv.value); } else { XorBlockZero(out[at..at + 16]); }
    }
  }

  lemma FirstCombined(inPlace: bool, keys: RoundKeys, iv: Block, c: Bytes)
    ensures Combined(inPlace, keys, iv, c, 0) == iv
  {
  }

  lemma HalfwayNext(keys: RoundKeys, iv: Block, c: Bytes, data: array<Byte>, out: array<Byte>, before: Bytes, n: nat)
    requires 16 * n + 16 <= |c| <= data.Length && 16 * n + 16 <= out.Length == |before|
    requires forall j :: 0 <= j < n ==> Blk(before, j) == OutBlock(data == out, keys, iv, c, j)
    requires forall k :: 16 * n + 16 <= k < |c| ==> data[k] == c[k]
    requires data != out ==> data[..|c|] == c
    requires out[..16 * n] == before[..16 * n]
    requires out[16 * n..16 * n + 16] == OutBlock(data == out, keys, iv, c, n)
    ensures Halfway(keys, iv, c, data, out, n + 1)
  {
    hide OutBlock, Blk;
    SameBlocks(before, out[..], n);
    WholeBlock(out, n);
  }

  lemma WholeBlock(a: array<Byte>, n: nat)
    requires 16 * n + 16 <= a.Length
    ensures Blk(a[..], n) == a[16 * n..16 * n + 16]
  {
  }

  /** Blocks up to `m`, each to its own place. */
  method DecryptBlocks(keys: RoundKeys, data: array<Byte>, iv: Option<Block>, decrypted: array<Byte>, m: nat, ghost c: Bytes)
    returns (ghost touched: set<nat>)
    requires 16 * m <= |c| <= data.Length && 16 * m <= decrypted.Length && data[..|c|] == c
    modifies decrypted
    ensures Halfway(keys, IvOf(iv), c, data, decrypted, m)
    ensures forall k: nat :: k in touched <==> k < m
  {
    hide OutBlock, Blk;
    touched := {};
    for i := 0 to m
      invariant Halfway(keys, IvOf(iv), c, data, decrypted, i)
      invariant forall k: nat :: k in touched <==> k < i
    {
      ghost var before := decrypted[..];
      DecryptNext(keys, data, iv, decrypted, decrypted, 16 * i, i, c);
      HalfwayNext(keys, IvOf(iv), c, data, decrypted, before, i);
      touched := touched + {i};
    }
  }

  /** What becomes of the padding. */
  function Verdict(unpads: bool, count: nat, last: Block, dataSize: nat, decryptedSize: nat): Error {
    if !unpads then Ok
    else if !PaddingOk(count, last) then InvalidKey
    else if decryptedSize < dataSize - count then InvalidBufferSize
    else Ok
  }

  /** A message without its last `count` bytes. */
  function Unpadded(p: Bytes, count: nat): Bytes {
    if count <= |p| then p[..|p| - count] else p
  }

  /** What decryption of a message that came out as `p` answers. */
  ghost predicate Decrypted(p: Bytes, unpads: bool, buffer: Bytes, e: Error, padded: nat) {
    && |p| >= 16
    && var count := Value(p[|p| - 1]);
       && e == Verdict(unpads, count, p[|p| - 16..], |p|, |buffer|)
       && (e == Ok ==> if unpads then padded == count && Unpadded(p, count) <= buffer else p <= buffer)
  }

  /**
   The first `n` bytes of `data` are decrypted.  With one buffer for both, every block but the first is combined
   with a block that has already been overwritten.
   */
  method DecryptCbc(data: array<Byte>, n: nat, key: Bytes, iv: Option<Block>, decrypted: array<Byte>, unpads: bool,
                    ghost limit: nat)
    returns (e: Error, padded: nat, ghost fetched: set<nat>, ghost writes: set<nat>)
    requires n <= data.Length && n < limit
    requires CheckDecrypt(n, |key|, decrypted.Length, unpads) == Ok ==>
      CbcDecryptInBounds(n, limit, decrypted.Length, unpads)
    modifies decrypted
    ensures var check := CheckDecrypt(n, |key|, decrypted.Length, unpads);
      && (if check != Ok then e == check && decrypted[..] == old(decrypted[..])
          else Decrypted(Out(data == decrypted, Expanded(key), IvOf(iv), old(data[..n])), unpads, decrypted[..], e, padded))
      && (forall k: nat :: k in fetched <==> check == Ok && CbcDecryptReads(n, limit, k))
      && (e == Ok ==> forall k: nat :: k in writes <==> CbcDecryptWrites(n, limit, unpads, k))
  {
    hide Expanded, Out, Decrypted, OutBlock;
    padded, fetched, writes := 0, {}, {};
    e := CheckDecrypt(n, |key|, decrypted.Length, unpads);
    if e != Ok {
      return;
    }
    CbcDecryptExact(n, limit, |key|, decrypted.Length, unpads);
    var expanded := ExpandKey(key);
    var keys := expanded.value;
    ghost var c := data[..n];
    var last;
    last, fetched, writes := DecryptAll(keys, data, n, iv, decrypted, c);
    e, padded := Finish(Out(data == decrypted, keys, IvOf(iv), c), decrypted, last, unpads, n);
    if !unpads { writes := writes + {n / 16 - 1}; }
  }

  /** Decrypts all but the last block to their places, and the last one to a block of its own. */
  method DecryptAll(keys: RoundKeys, data: array<Byte>, n: nat, iv: Option<Block>, decrypted: array<Byte>, ghost c: Bytes)
    returns (last: array<Byte>, ghost fetched: set<nat>, ghost writes: set<nat>)
    requires 0 < n <= data.Length && n % 16 == 0 && c == data[..n]
    requires decrypted.Length >= 16 && decrypted.Length >= n - 16
    modifies decrypted
    ensures fresh(last) && last.Length == 16
    ensures var p := Out(data == decrypted, keys, IvOf(iv), c); last[..] == p[n - 16..] && p[..n - 16] <= decrypted[..]
    ensures forall k: nat :: k in fetched <==> k < n / 16
    ensures forall k: nat :: k in writes <==> k == 0 || k < n / 16 - 1
  {
    hide OutBlock, Out;
    var bc := n / 16 - 1;
    last := new Byte[16](_ => 0);
    if n > 16 {
      writes := DecryptBlocks(keys, data, iv, decrypted, bc, c);
      DecryptNext(keys, data, iv, decrypted, last, 0, bc, c);
      fetched := writes + {bc};
      assert forall k: nat :: k in fetched <==> k < bc + 1;
    } else {
      assert n / 16 == 1;
      NothingHalfway(keys, IvOf(iv), c, data, decrypted);
      DecryptNext(keys, data, iv, decrypted, decrypted, 0, 0, c);
      fetched, writes := {0}, {0};
      CopyBytes(decrypted[0..0 + 16], last, 0);
      Clear(decrypted);
    }
    assert last[..] == last[0..0 + 16];
    OutParts(data == decrypted, keys, IvOf(iv), c, decrypted[..], last[..]);
  }

  lemma NothingHalfway(keys: RoundKeys, iv: Block, c: Bytes, data: array<Byte>, out: array<Byte>)
    requires |c| <= data.Length && data[..|c|] == c
    ensures Halfway(keys, iv, c, data, out, 0)
  {
  }

  lemma OutParts(inPlace: bool, keys: RoundKeys, iv: Block, c: Bytes, done: Bytes, last: Bytes)
    requires 0 < |c| && |c| % 16 == 0 && |c| - 16 <= |done|
    requires forall j :: 0 <= j < |c| / 16 - 1 ==> Blk(done, j) == OutBlock(inPlace, keys, iv, c, j)
    requires last == OutBlock(inPlace, keys, iv, c, |c| / 16 - 1)
    ensures var p := Out(inPlace, keys, iv, c); last == p[|c| - 16..] && p[..|c| - 16] <= done
  {
    hide OutBlock, Out;
    var p, n := Out(inPlace, keys, iv, c), |c| / 16 - 1;
    OutBlocks(inPlace, keys, iv, c);
    assert Blk(p, n) == p[16 * n..];
    BlocksMatch(p, done, n);
  }

  /** Checks and removes the padding, or puts the whole last block in place. */
  method Finish(ghost p: Bytes, decrypted: array<Byte>, last: array<Byte>, unpads: bool, n: nat) returns (e: Error, padded: nat)
    requires last != decrypted && |p| == n > 0 && n % 16 == 0
    requires if unpads then decrypted.Length >= n - 16 else decrypted.Length >= n
    requires last.Length == 16 && last[..] == p[n - 16..] && p[..n - 16] <= decrypted[..]
    modifies decrypted
    ensures Decrypted(p, unpads, decrypted[..], e, padded)
    ensures !unpads ==> e == Ok
  {
    hide Value;
    e, padded := Ok, 0;
    assert p[n - 1] == p[n - 16..][15] == last[15];
    if unpads {
      padded := Value(last[15]);
      var ok := CheckPadding(padded, last);
      if !ok {
        e := InvalidKey;
      } else if decrypted.Length >= n - 16 + (16 - padded) {
        PutLast(p, decrypted, last, 16 - padded, n);
      } else {
        e := InvalidBufferSize;
      }
    } else {
      PutLast(p, decrypted, last, 16, n);
    }
  }

  method Clear(a: array<Byte>)
    modifies a
    ensures forall i :: 0 <= i < a.Length ==> a[i] == 0
  {
    for i := 0 to a.Length
      invariant forall k :: 0 <= k < i ==> a[k] == 0
    {
      a[i] := 0;
    }
  }

  lemma LastIs(keys: RoundKeys, mode: Mode, c: Bytes, last: Bytes)
    requires |c| % 16 == 0 && |c| > 0 && last == PlainBlock(keys, mode, c, |c| / 16 - 1)
    ensures |last| == 16 && Plain(keys, mode, c)[|c| - 16..] == last
  {
    hide PlainBlock;
    PlainBlocks(keys, mode, c);
    var p := Plain(keys, mode, c);
    assert Blk(p, |c| / 16 - 1) == p[|c| - 16..];
  }

  /** The first `count` bytes of the last block go behind the others. */
  method PutLast(ghost p: Bytes, decrypted: array<Byte>, last: array<Byte>, count: nat, n: nat)
    requires |p| == n >= 16 && count <= 16 && last.Length == 16 && last != decrypted && n - 16 + count <= decrypted.Length
    requires last[..] == p[n - 16..] && p[..n - 16] <= decrypted[..]
    modifies decrypted
    ensures Unpadded(p, 16 - count) <= decrypted[..]
  {
    ghost var front := decrypted[..n - 16];
    CopyBytes(last[..count], decrypted, n - 16);
    assert last[..][..count] == p[n - 16..][..count];
    assert decrypted[..n - 16] == front;
    assert p[..n - 16 + count] == front + p[n - 16..][..count];
  }

  // ----- decryption in place

  /** One buffer gives the right result exactly when every block but the last decrypts to itself. */
  lemma InPlaceRight(keys: RoundKeys, iv: Block, c: Bytes)
    requires |c| % 16 == 0
    ensures Over(keys, iv, c) == Plain(keys, Cbc(iv), c)
       <==> forall j :: 0 <= j < |c| / 16 - 1 ==> PlainBlock(keys, Cbc(iv), c, j) == Blk(c, j)
  {
    hide OverBlock, PlainBlock, Over, Plain, Blk;
    var n := |c| / 16;
    OverBlocks(keys, iv, c);
    PlainBlocks(keys, Cbc(iv), c);
    if forall j :: 0 <= j < n - 1 ==> PlainBlock(keys, Cbc(iv), c, j) == Blk(c, j) {
      forall j: nat | j < n ensures OverBlock(keys, iv, c, j) == PlainBlock(keys, Cbc(iv), c, j) {
        SelfDecrypted(keys, iv, c, j);
      }
      BlocksDetermine(Over(keys, iv, c), Plain(keys, Cbc(iv), c));
    }
    if Over(keys, iv, c) == Plain(keys, Cbc(iv), c) {
      forall j: nat | j < n - 1 ensures PlainBlock(keys, Cbc(iv), c, j) == Blk(c, j) {
        assert OverBlock(keys, iv, c, j) == PlainBlock(keys, Cbc(iv), c, j);
        assert OverBlock(keys, iv, c, j + 1) == PlainBlock(keys, Cbc(iv), c, j + 1);
        SameNext(keys, iv, c, j);
      }
    }
  }

  lemma {:induction false} SelfDecrypted(keys: RoundKeys, iv: Block, c: Bytes, j: nat)
    requires 16 * j + 16 <= |c| && forall i :: 0 <= i < j ==> PlainBlock(keys, Cbc(iv), c, i) == Blk(c, i)
    ensures OverBlock(keys, iv, c, j) == PlainBlock(keys, Cbc(iv), c, j)
  {
    hide XorBlock, DecryptBlock, Blk;
    if j > 0 { SelfDecrypted(keys, iv, c, j - 1); }
  }

  lemma SameNext(keys: RoundKeys, iv: Block, c: Bytes, j: nat)
    requires 16 * j + 32 <= |c| && OverBlock(keys, iv, c, j + 1) == PlainBlock(keys, Cbc(iv), c, j + 1)
    ensures OverBlock(keys, iv, c, j) == Blk(c, j)
  {
    hide DecryptBlock, XorBlock;
    var d := DecryptBlock(keys, Blk(c, j + 1));
    XorBlockCancel(d, OverBlock(keys, iv, c, j), Blk(c, j));
  }

  lemma XorBlockCancel(a: Block, b: Block, c: Block)
    requires XorBlock(a, b) == XorBlock(a, c)
    ensures b == c
  {
    hide Xor;
    forall i | 0 <= i < 16 ensures b[i] == c[i] {
      assert XorBlock(a, b)[i] == XorBlock(a, c)[i];
      XorCommutes(a[i], b[i]);
      XorCommutes(a[i], c[i]);
      XorTwice(b[i], a[i]);
      XorTwice(c[i], a[i]);
    }
  }

  /** Some initial vector shows it for any two blocks or more, whatever the keys. */
  lemma InPlaceWrong(keys: RoundKeys, c: Bytes) returns (iv: Block)
    requires |c| % 16 == 0 && |c| >= 32
    ensures Over(keys, iv, c) != Plain(keys, Cbc(iv), c)
  {
    hide DecryptBlock, XorBlock, Over, Plain;
    var d := DecryptBlock(keys, Blk(c, 0));
    var other: Block := Zero();
    if other == Blk(c, 0) {
      other := seq(16, _ => 1);
      assert other[0] == 1 && Zero()[0] == 0;
    }
    assert other != Blk(c, 0);
    iv := XorBlock(other, d);
    XorBlockTwice(other, d);
    XorBlockSwap(d, iv);
    assert PlainBlock(keys, Cbc(iv), c, 0) == other;
    InPlaceRight(keys, iv, c);
  }

  lemma XorBlockSwap(a: Block, b: Block)
    ensures XorBlock(a, b) == XorBlock(b, a)
  {
    hide Xor;
    forall i | 0 <= i < 16 ensures XorBlock(a, b)[i] == XorBlock(b, a)[i] {
      XorCommutes(a[i], b[i]);
    }
  }

  /** So decryption in place is right for all initial vectors exactly up to one block. */
  lemma InPlaceExact(keys: RoundKeys, c: Bytes)
    requires |c| % 16 == 0
    ensures (forall iv: Block :: Over(keys, iv, c) == Plain(keys, Cbc(iv), c)) <==> |c| <= 16
  {
    hide Over, Plain;
    if |c| <= 16 {
      forall iv: Block ensures Over(keys, iv, c) == Plain(keys, Cbc(iv), c) { InPlaceRight(keys, iv, c); }
    } else {
      var iv := InPlaceWrong(keys, c);
    }
  }

  lemma BlocksMatch(s: Bytes, t: Bytes, n: nat)
    requires 16 * n <= |s| && 16 * n <= |t| && forall j :: 0 <= j < n ==> Blk(t, j) == Blk(s, j)
    ensures forall i :: 0 <= i < 16 * n ==> t[i] == s[i]
  {
    forall i | 0 <= i < 16 * n ensures t[i] == s[i] {
      assert Blk(t, i / 16)[i % 16] == Blk(s, i / 16)[i % 16];
    }
  }

  /** Any message, padded and encrypted, decrypts to itself, with the right number of pad bytes. */
  lemma PaddedRoundTrip(keys: RoundKeys, mode: Mode, data: Bytes, c: Bytes)
    requires Encrypted(keys, mode, Padded(data), c)
    ensures IsPadded(Plain(keys, mode, c), data)
  {
    hide IsPadded, PlainBlock, Chained, Unchained, Value, Padded, Plain;
    PlainBlocks(keys, mode, c);
    DecryptionInverse(keys, mode, Padded(data), c, Plain(keys, mode, c));
    PaddedEnd(data);
  }

  /** The padding of `p` is in order, and without it `p` is `data`. */
  ghost predicate IsPadded(p: Bytes, data: Bytes) {
    var n := 16 - |data| % 16;
    |p| >= 16 && Value(p[|p| - 1]) == n && PaddingOk(n, p[|p| - 16..]) && Unpadded(p, n) == data
  }

  /** Then decryption into a buffer that is large enough returns the data and the number of pad bytes. */
  lemma PaddedDecrypts(p: Bytes, data: Bytes, buffer: Bytes, e: Error, padded: nat)
    requires IsPadded(p, data) && |buffer| >= |data| && Decrypted(p, true, buffer, e, padded)
    ensures e == Ok && padded == 16 - |data| % 16 && data <= buffer
  {
    hide Value;
  }

  lemma PaddedEnd(data: Bytes)
    ensures IsPadded(Padded(data), data)
  {
    var p, n := Padded(data), PadSize(|data|);
    SmallByteValue(n);
    hide SmallByte, Value;
    assert |p| == |data| + n && p[..|data|] == data;
    assert forall i :: |data| <= i < |p| ==> p[i] == SmallByte(n);
    var last := p[|p| - 16..];
    forall i | 16 - n <= i < 16 ensures Value(last[i]) == n {
      assert last[i] == p[|p| - 16 + i];
    }
  }

  // ----- ECB

  /** The first `n` bytes of `data` are encrypted; the buffers may be the same. */
  method EncryptEcb(data: array<Byte>, n: nat, key: Bytes, encrypted: array<Byte>, pads: bool)
    returns (e: Error, ghost writes: set<nat>)
    requires n <= data.Length
    modifies encrypted
    ensures e == CheckEncrypt(n, |key|, encrypted.Length, pads)
    ensures forall k: nat :: k in writes <==> e == Ok && EcbEncryptWrites(n, pads, k)
    ensures e == Ok ==> var m := Message(old(data[..n]), pads);
      |m| <= encrypted.Length && Encrypted(Expanded(key), Ecb, m, encrypted[..|m|])
    ensures e != Ok ==> encrypted[..] == old(encrypted[..])
  {
    hide Chained, Padded, Expanded, XorBlock, EncryptBlock;
    e, writes := CheckEncrypt(n, |key|, encrypted.Length, pads), {};
    if e != Ok {
      return;
    }
    var expanded := ExpandKey(key);
    var keys := expanded.value;
    ghost var d := data[..n];
    ghost var m := Message(d, pads);
    MessageBlocks(d, pads);
    NothingChained(keys, Ecb, m, encrypted[..]);
    for i := 0 to n / 16
      invariant Chained(keys, Ecb, m, encrypted[..], i)
      invariant forall k: nat :: k in writes <==> k < i
      invariant forall k :: 16 * i <= k < n ==> data[k] == d[k]
    {
      assert data[16 * i..16 * i + 16] == d[16 * i..16 * i + 16];
      EncryptAlone(keys, data, 16 * i, encrypted, i, m);
      writes := writes + {i};
    }
    if pads {
      var ib := LastBlock(data, n, d);
      assert ib[..] == ib[0..0 + 16];
      EncryptAlone(keys, ib, 0, encrypted, n / 16, m);
      writes := writes + {n / 16};
    }
    AllChained(keys, Ecb, m, encrypted[..]);
  }

  method EncryptAlone(keys: RoundKeys, data: array<Byte>, from: nat, encrypted: array<Byte>, n: nat, ghost p: Bytes)
    requires from + 16 <= data.Length && 16 * n + 16 <= encrypted.Length && 16 * n + 16 <= |p|
    requires Chained(keys, Ecb, p, encrypted[..], n) && data[from..from + 16] == Blk(p, n)
    modifies encrypted
    ensures Chained(keys, Ecb, p, encrypted[..], n + 1)
    ensures forall i :: 16 * n + 16 <= i < encrypted.Length ==> encrypted[i] == old(encrypted[i])
  {
    hide EncryptBlock, XorBlock, Chained;
    ghost var c := encrypted[..];
    XorBlockZero(Blk(p, n));
    EncryptState(keys, data, from, encrypted, 16 * n);
    OneMoreChained(keys, Ecb, p, c, encrypted[..], n);
  }

  /** The first `n` bytes of `data` are decrypted; the buffers may be the same. */
  method DecryptEcb(data: array<Byte>, n: nat, key: Bytes, decrypted: array<Byte>, unpads: bool, ghost limit: nat)
    returns (e: Error, padded: nat, ghost fetched: set<nat>, ghost writes: set<nat>)
    requires n <= data.Length && n < limit
    requires CheckDecrypt(n, |key|, decrypted.Length, unpads) == Ok ==>
      EcbDecryptInBounds(n, limit, decrypted.Length, unpads)
    modifies decrypted
    ensures var check := CheckDecrypt(n, |key|, decrypted.Length, unpads);
      && (if check != Ok then e == check && decrypted[..] == old(decrypted[..])
          else Decrypted(Plain(Expanded(key), Ecb, old(data[..n])), unpads, decrypted[..], e, padded))
      && (forall k: nat :: k in fetched <==> check == Ok && EcbDecryptReads(n, limit, k))
      && (e == Ok ==> forall k: nat :: k in writes <==> EcbDecryptWrites(n, limit, unpads, k))
  {
    hide Expanded, Plain, Decrypted, PlainBlock;
    padded, fetched, writes := 0, {}, {};
    e := CheckDecrypt(n, |key|, decrypted.Length, unpads);
    if e != Ok {
      return;
    }
    EcbDecryptExact(n, limit, |key|, decrypted.Length, unpads);
    var expanded := ExpandKey(key);
    var keys := expanded.value;
    ghost var c := data[..n];
    var bc := n / 16 - 1;
    for i := 0 to bc
      invariant Unchained(keys, Ecb, c, decrypted[..], i)
      invariant forall k :: 16 * i <= k < n ==> data[k] == c[k]
      invariant forall k: nat :: k in writes <==> k < i
    {
      ghost var before := decrypted[..];
      assert data[16 * i..16 * i + 16] == Blk(c, i);
      DecryptAlone(keys, data, decrypted, 16 * i, i, c);
      OneMoreUnchained(keys, Ecb, c, before, decrypted[..], i);
      writes := writes + {i};
    }
    assert data[16 * bc..n] == c[16 * bc..n] && 16 * bc + 16 == n;
    var last := new Byte[16](_ => 0);
    assert data[16 * bc..16 * bc + 16] == Blk(c, bc);
    DecryptAlone(keys, data, last, 0, bc, c);
    fetched := writes + {bc};
    assert last[..] == last[0..0 + 16];
    LastIs(keys, Ecb, c, last[..]);
    FrontIs(keys, Ecb, c, decrypted[..]);
    e, padded := Finish(Plain(keys, Ecb, c), decrypted, last, unpads, n);
    if !unpads { writes := writes + {bc}; }
  }

  lemma FrontIs(keys: RoundKeys, mode: Mode, c: Bytes, done: Bytes)
    requires 0 < |c| && |c| % 16 == 0 && |c| - 16 <= |done| && Unchained(keys, mode, c, done, |c| / 16 - 1)
    ensures Plain(keys, mode, c)[..|c| - 16] <= done
  {
    hide PlainBlock, Plain;
    PlainBlocks(keys, mode, c);
    BlocksMatch(Plain(keys, mode, c), done, |c| / 16 - 1);
  }

  method DecryptAlone(keys: RoundKeys, data: array<Byte>, out: array<Byte>, at: nat, n: nat, ghost c: Bytes)
    requires 16 * n + 16 <= data.Length && at + 16 <= out.Length && 16 * n + 16 <= |c| && data[16 * n..16 * n + 16] == Blk(c, n)
    modifies out
    ensures out[at..at + 16] == PlainBlock(keys, Ecb, c, n)
    ensures forall i :: 0 <= i < out.Length && !(at <= i < at + 16) ==> out[i] == old(out[i])
  {
    hide DecryptBlock, XorBlock;
    DecryptState(keys, data, 16 * n, out, at);
    XorBlockZero(out[at..at + 16]);
  }

  // ----- round trips

  /** Padded encryption and decryption of any data, the empty data included, also over the data itself. */
  method CbcRoundTrip(data: array<Byte>, n: nat, key: Bytes, iv: Option<Block>, encrypted: array<Byte>, decrypted: array<Byte>,
                      ghost limit: nat)
    returns (e: Error, d: Error, padded: nat)
    requires n <= data.Length && encrypted != decrypted
    requires n + PadSize(n) <= encrypted.Length && n + PadSize(n) < limit && decrypted.Length >= n && decrypted.Length >= 16
    modifies encrypted, decrypted
    ensures e == if ValidKeySize(|key|) then Ok else InvalidKeySize
    ensures e == Ok ==> d == Ok && padded == 16 - n % 16 && old(data[..n]) <= decrypted[..]
  {
    hide Expanded, Plain, Decrypted, Encrypted, Padded, IsPadded;
    var size := n + PadSize(n);
    if ValidKeySize(|key|) {
      CbcEncryptExact(n, |key|, encrypted.Length, true);
      CbcDecryptExact(size, limit, |key|, decrypted.Length, true);
    }
    ghost var writes, fetched, writes';
    e, writes := EncryptCbc(data, n, key, iv, encrypted, true);
    d, padded := e, 0;
    if e == Ok {
      ghost var c := encrypted[..size];
      PaddedRoundTrip(Expanded(key), Cbc(IvOf(iv)), old(data[..n]), c);
      d, padded, fetched, writes' := DecryptCbc(encrypted, size, key, iv, decrypted, true, limit);
      PaddedDecrypts(Plain(Expanded(key), Cbc(IvOf(iv)), c), old(data[..n]), decrypted[..], d, padded);
    }
  }

  /** The same for ECB, where one buffer will do for everything. */
  method EcbRoundTrip(data: array<Byte>, n: nat, key: Bytes, encrypted: array<Byte>, decrypted: array<Byte>, ghost limit: nat)
    returns (e: Error, d: Error, padded: nat)
    requires n <= data.Length && n + PadSize(n) <= encrypted.Length && n + PadSize(n) < limit && decrypted.Length >= n
    modifies encrypted, decrypted
    ensures e == if ValidKeySize(|key|) then Ok else InvalidKeySize
    ensures e == Ok ==> d == Ok && padded == 16 - n % 16 && old(data[..n]) <= decrypted[..]
  {
    hide Expanded, Plain, Decrypted, Encrypted, Padded, IsPadded;
    var size := n + PadSize(n);
    if ValidKeySize(|key|) { EcbDecryptExact(size, limit, |key|, decrypted.Length, true); }
    ghost var writes, fetched, writes';
    e, writes := EncryptEcb(data, n, key, encrypted, true);
    d, padded := e, 0;
    if e == Ok {
      ghost var c := encrypted[..size];
      PaddedRoundTrip(Expanded(key), Ecb, old(data[..n]), c);
      d, padded, fetched, writes' := DecryptEcb(encrypted, size, key, decrypted, true, limit);
      PaddedDecrypts(Plain(Expanded(key), Ecb, c), old(data[..n]), decrypted[..], d, padded);
    }
  }
}
