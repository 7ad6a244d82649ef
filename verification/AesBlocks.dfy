/** The block cipher on byte buffers: a working state of four words, changed in place. */
module AesBlocks {
  import opened AesTables
  import opened AesCipher

  type Block = b: seq<Byte> | |b| == 16 witness seq(16, _ => 0)

  function FromBytes(b: Block): State {
    State(Pack(b[0], b[1], b[2], b[3]), Pack(b[4], b[5], b[6], b[7]),
          Pack(b[8], b[9], b[10], b[11]), Pack(b[12], b[13], b[14], b[15]))
  }

  function ToBytes(s: State): Block {
    Four(s.w0) + Four(s.w1) + Four(s.w2) + Four(s.w3)
  }

  function Four(w: Word): (b: seq<Byte>)
    ensures |b| == 4
  {
    [Byte0(w), Byte1(w), Byte2(w), Byte3(w)]
  }

  lemma FourPack(b: seq<Byte>)
    requires |b| == 4
    ensures Four(Pack(b[0], b[1], b[2], b[3])) == b
  {
    hide Pack, Byte0, Byte1, Byte2, Byte3;
    BytesPack(b[0], b[1], b[2], b[3]);
  }

  lemma FromToBytes(s: State)
    ensures FromBytes(ToBytes(s)) == s
  {
    hide Pack, Byte0, Byte1, Byte2, Byte3;
    PackBytes(s.w0);
    PackBytes(s.w1);
    PackBytes(s.w2);
    PackBytes(s.w3);
  }

  lemma ToFromBytes(b: Block)
    ensures ToBytes(FromBytes(b)) == b
  {
    hide Pack, Four;
    FourPack(b[..4]);
    FourPack(b[4..8]);
    FourPack(b[8..12]);
    FourPack(b[12..]);
    assert b == b[..4] + b[4..8] + b[8..12] + b[12..];
  }

  function EncryptBlock(keys: RoundKeys, b: Block): Block {
    ToBytes(Encrypt(keys, FromBytes(b)))
  }

  function DecryptBlock(keys: RoundKeys, b: Block): Block {
    ToBytes(Decrypt(keys, FromBytes(b)))
  }

  lemma DecryptEncryptBlock(keys: RoundKeys, b: Block)
    ensures DecryptBlock(keys, EncryptBlock(keys, b)) == b
  {
    hide Encrypt, Decrypt, FromBytes, ToBytes;
    var s := FromBytes(b);
    FromToBytes(Encrypt(keys, s));
    DecryptEncrypt(keys, s);
    ToFromBytes(b);
  }

  // ----- the steps in place

  function StateOf(s: array<Word>): State
    requires s.Length == 4
    reads s
  {
    State(s[0], s[1], s[2], s[3])
  }

  method AddRoundKeyInPlace(key: State, s: array<Word>)
    requires s.Length == 4
    modifies s
    ensures StateOf(s) == AddRoundKey(key, old(StateOf(s)))
  {
    hide XorWord;
    var k := [key.w0, key.w1, key.w2, key.w3];
    for i := 0 to 4
      invariant forall j :: 0 <= j < 4 ==> s[j] == if j < i then XorWord(old(s[j]), k[j]) else old(s[j])
    {
      s[i] := XorWord(s[i], k[i]);
    }
  }

  method SubBytesInPlace(s: array<Word>)
    requires s.Length == 4
    modifies s
    ensures StateOf(s) == SubBytes(old(StateOf(s)))
  {
    hide SubWord;
    for i := 0 to 4
      invariant forall j :: 0 <= j < 4 ==> s[j] == if j < i then SubWord(old(s[j])) else old(s[j])
    {
      s[i] := SubWord(s[i]);
    }
  }

  method InvSubBytesInPlace(s: array<Word>)
    requires s.Length == 4
    modifies s
    ensures StateOf(s) == InvSubBytes(old(StateOf(s)))
  {
    hide InvSubWord;
    for i := 0 to 4
      invariant forall j :: 0 <= j < 4 ==> s[j] == if j < i then InvSubWord(old(s[j])) else old(s[j])
    {
      s[i] := InvSubWord(s[i]);
    }
  }

  method MixColumnsInPlace(s: array<Word>)
    requires s.Length == 4
    modifies s
    ensures StateOf(s) == MixColumns(old(StateOf(s)))
  {
    hide MixWord;
    for i := 0 to 4
      invariant forall j :: 0 <= j < 4 ==> s[j] == if j < i then MixWord(old(s[j])) else old(s[j])
    {
      s[i] := MixWord(s[i]);
    }
  }

  method InvMixColumnsInPlace(s: array<Word>)
    requires s.Length == 4
    modifies s
    ensures StateOf(s) == InvMixColumns(old(StateOf(s)))
  {
    hide InvMixWord;
    for i := 0 to 4
      invariant forall j :: 0 <= j < 4 ==> s[j] == if j < i then InvMixWord(old(s[j])) else old(s[j])
    {
      s[i] := InvMixWord(s[i]);
    }
  }

  // Shifting replaces one row (one byte of every word) after the other.

  function RowMask(r: nat): Word {
    if r == 1 then 0xFF00 else if r == 2 then 0xFF_0000 else 0xFF00_0000
  }

  function WithRow(x: Word, y: Word, r: nat): Word {
    (x & !RowMask(r)) | (y & RowMask(r))
  }

  /** Word `a` after the first `r` rows, taken from `b`, `c` and `d`. */
  function Replaced(a: Word, b: Word, c: Word, d: Word, r: nat): Word {
    if r == 0 then a
    else if r == 1 then WithRow(a, b, 1)
    else if r == 2 then WithRow(WithRow(a, b, 1), c, 2)
    else WithRow(WithRow(WithRow(a, b, 1), c, 2), d, 3)
  }

  /** The word that row `r` comes from. */
  function Pick(b: Word, c: Word, d: Word, r: nat): Word {
    if r == 1 then b else if r == 2 then c else d
  }

  lemma ReplacedStep(a: Word, b: Word, c: Word, d: Word, r: nat)
    requires 1 <= r <= 3
    ensures Replaced(a, b, c, d, r) == WithRow(Replaced(a, b, c, d, r - 1), Pick(b, c, d, r), r)
  {
    hide WithRow;
    if r == 1 {} else if r == 2 {} else {}
  }

  lemma AllReplaced(a: Word, b: Word, c: Word, d: Word)
    ensures Replaced(a, b, c, d, 3) == Diagonal(a, b, c, d)
  {
  }

  /** Column `c` of a state, counted modulo 4. */
  function Nth(s: State, c: nat): Word {
    if c % 4 == 0 then s.w0 else if c % 4 == 1 then s.w1 else if c % 4 == 2 then s.w2 else s.w3
  }

  /** Row `r` of every word from the word `k` columns on. */
  method ShiftRow(s: array<Word>, ori: State, r: nat, k: nat)
    requires s.Length == 4
    modifies s
    ensures forall c :: 0 <= c < 4 ==> s[c] == WithRow(old(s[c]), Nth(ori, c + k), r)
  {
    hide WithRow, Nth;
    for c := 0 to 4
      invariant forall j :: 0 <= j < 4 ==> s[j] == if j < c then WithRow(old(s[j]), Nth(ori, j + k), r) else old(s[j])
    {
      s[c] := WithRow(s[c], Nth(ori, c + k), r);
    }
  }

  ghost predicate RowsReplaced(s: State, ori: State, r: nat) {
    && s.w0 == Replaced(ori.w0, ori.w1, ori.w2, ori.w3, r) && s.w1 == Replaced(ori.w1, ori.w2, ori.w3, ori.w0, r)
    && s.w2 == Replaced(ori.w2, ori.w3, ori.w0, ori.w1, r) && s.w3 == Replaced(ori.w3, ori.w0, ori.w1, ori.w2, r)
  }

  method ShiftRowsInPlace(s: array<Word>)
    requires s.Length == 4
    modifies s
    ensures StateOf(s) == ShiftRows(old(StateOf(s)))
  {
    hide WithRow, Diagonal, Replaced, Nth;
    var was := StateOf(s);
    NoRowReplaced(was);
    for r := 1 to 4
      invariant RowsReplaced(StateOf(s), was, r - 1)
    {
      ghost var before := StateOf(s);
      ShiftRow(s, was, r, r);
      OneMoreRow(before, StateOf(s), was, r);
    }
    AllReplaced(was.w0, was.w1, was.w2, was.w3);
    AllReplaced(was.w1, was.w2, was.w3, was.w0);
    AllReplaced(was.w2, was.w3, was.w0, was.w1);
    AllReplaced(was.w3, was.w0, was.w1, was.w2);
  }

  lemma NoRowReplaced(s: State)
    ensures RowsReplaced(s, s, 0) && RowsReplacedBack(s, s, 0)
  {
  }

  lemma NthLeft(a: Word, b: Word, c: Word, d: Word, r: nat)
    requires 1 <= r <= 3
    ensures var s := State(a, b, c, d);
            && Nth(s, r) == Pick(b, c, d, r) && Nth(s, 1 + r) == Pick(c, d, a, r)
            && Nth(s, 2 + r) == Pick(d, a, b, r) && Nth(s, 3 + r) == Pick(a, b, c, r)
  {
    if r == 1 {} else if r == 2 {} else { assert r == 3; }
  }

  lemma NthRight(a: Word, b: Word, c: Word, d: Word, r: nat)
    requires 1 <= r <= 3
    ensures var s := State(a, b, c, d);
            && Nth(s, 4 - r) == Pick(d, c, b, r) && Nth(s, 5 - r) == Pick(a, d, c, r)
            && Nth(s, 6 - r) == Pick(b, a, d, r) && Nth(s, 7 - r) == Pick(c, b, a, r)
  {
    if r == 1 {} else if r == 2 {} else { assert r == 3; }
  }

  lemma OneMoreRow(before: State, s: State, was: State, r: nat)
    requires 1 <= r <= 3 && RowsReplaced(before, was, r - 1)
    requires s.w0 == WithRow(before.w0, Nth(was, r), r) && s.w1 == WithRow(before.w1, Nth(was, 1 + r), r)
    requires s.w2 == WithRow(before.w2, Nth(was, 2 + r), r) && s.w3 == WithRow(before.w3, Nth(was, 3 + r), r)
    ensures RowsReplaced(s, was, r)
  {
    NthLeft(was.w0, was.w1, was.w2, was.w3, r);
    hide WithRow, Replaced, Nth, Pick;
    ReplacedStep(was.w0, was.w1, was.w2, was.w3, r);
    ReplacedStep(was.w1, was.w2, was.w3, was.w0, r);
    ReplacedStep(was.w2, was.w3, was.w0, was.w1, r);
    ReplacedStep(was.w3, was.w0, was.w1, was.w2, r);
  }

  ghost predicate RowsReplacedBack(s: State, ori: State, r: nat) {
    && s.w0 == Replaced(ori.w0, ori.w3, ori.w2, ori.w1, r) && s.w1 == Replaced(ori.w1, ori.w0, ori.w3, ori.w2, r)
    && s.w2 == Replaced(ori.w2, ori.w1, ori.w0, ori.w3, r) && s.w3 == Replaced(ori.w3, ori.w2, ori.w1, ori.w0, r)
  }

  method InvShiftRowsInPlace(s: array<Word>)
    requires s.Length == 4
    modifies s
    ensures StateOf(s) == InvShiftRows(old(StateOf(s)))
  {
    hide WithRow, Diagonal, Replaced, Nth;
    var was := StateOf(s);
    NoRowReplaced(was);
    for r := 1 to 4
      invariant RowsReplacedBack(StateOf(s), was, r - 1)
    {
      ghost var before := StateOf(s);
      ShiftRow(s, was, r, 4 - r);
      OneMoreRowBack(before, StateOf(s), was, r);
    }
    AllReplaced(was.w0, was.w3, was.w2, was.w1);
    AllReplaced(was.w1, was.w0, was.w3, was.w2);
    AllReplaced(was.w2, was.w1, was.w0, was.w3);
    AllReplaced(was.w3, was.w2, was.w1, was.w0);
  }

  lemma OneMoreRowBack(before: State, s: State, was: State, r: nat)
    requires 1 <= r <= 3 && RowsReplacedBack(before, was, r - 1)
    requires s.w0 == WithRow(before.w0, Nth(was, 4 - r), r) && s.w1 == WithRow(before.w1, Nth(was, 5 - r), r)
    requires s.w2 == WithRow(before.w2, Nth(was, 6 - r), r) && s.w3 == WithRow(before.w3, Nth(was, 7 - r), r)
    ensures RowsReplacedBack(s, was, r)
  {
    NthRight(was.w0, was.w1, was.w2, was.w3, r);
    hide WithRow, Replaced, Nth, Pick;
    ReplacedStep(was.w0, was.w3, was.w2, was.w1, r);
    ReplacedStep(was.w1, was.w0, was.w3, was.w2, r);
    ReplacedStep(was.w2, was.w1, was.w0, was.w3, r);
    ReplacedStep(was.w3, was.w2, was.w1, was.w0, r);
  }

  // ----- whole blocks

  /** `encrypt_state` from one place of a buffer to one of another. */
  method EncryptState(keys: RoundKeys, data: array<Byte>, from: nat, encrypted: array<Byte>, to: nat)
    requires from + 16 <= data.Length && to + 16 <= encrypted.Length
    modifies encrypted
    ensures encrypted[to..to + 16] == EncryptBlock(keys, old(data[from..from + 16]))
    ensures forall i :: 0 <= i < encrypted.Length && !(to <= i < to + 16) ==> encrypted[i] == old(encrypted[i])
  {
    hide FromBytes, ToBytes, AddRoundKey, SubBytes, ShiftRows, MixColumns;
    var s := new Word[4](_ => 0);
    CopyIn(data, from, s);
    ghost var start := StateOf(s);
    AddRoundKeyInPlace(keys[0], s);
    for i := 1 to |keys| - 1
      invariant fresh(s) && StateOf(s) == Rounds(keys, start, i - 1)
      invariant encrypted[..] == old(encrypted[..])
    {
      SubBytesInPlace(s);
      ShiftRowsInPlace(s);
      MixColumnsInPlace(s);
      AddRoundKeyInPlace(keys[i], s);
    }
    SubBytesInPlace(s);
    ShiftRowsInPlace(s);
    AddRoundKeyInPlace(keys[|keys| - 1], s);
    CopyOut(s, encrypted, to);
  }

  method DecryptState(keys: RoundKeys, data: array<Byte>, from: nat, decrypted: array<Byte>, to: nat)
    requires from + 16 <= data.Length && to + 16 <= decrypted.Length
    modifies decrypted
    ensures decrypted[to..to + 16] == DecryptBlock(keys, old(data[from..from + 16]))
    ensures forall i :: 0 <= i < decrypted.Length && !(to <= i < to + 16) ==> decrypted[i] == old(decrypted[i])
  {
    hide FromBytes, ToBytes, AddRoundKey, InvSubBytes, InvShiftRows, InvMixColumns;
    var s := new Word[4](_ => 0);
    CopyIn(data, from, s);
    ghost var start := StateOf(s);
    var n := |keys| - 1;
    AddRoundKeyInPlace(keys[n], s);
    InvShiftRowsInPlace(s);
    InvSubBytesInPlace(s);
    for i := n - 1 downto 0
      invariant fresh(s) && InvRounds(keys, StateOf(s), i) == Decrypt(keys, start)
      invariant decrypted[..] == old(decrypted[..])
    {
      AddRoundKeyInPlace(keys[i + 1], s);
      InvMixColumnsInPlace(s);
      InvShiftRowsInPlace(s);
      InvSubBytesInPlace(s);
    }
    AddRoundKeyInPlace(keys[0], s);
    CopyOut(s, decrypted, to);
  }

  method CopyIn(data: array<Byte>, from: nat, s: array<Word>)
    requires from + 16 <= data.Length && s.Length == 4
    modifies s
    ensures StateOf(s) == FromBytes(data[from..from + 16])
  {
    hide Pack;
    for i := 0 to 4
      invariant forall j :: 0 <= j < i ==> s[j] == WordAt(data, from + 4 * j)
    {
      s[i] := Pack(data[from + 4 * i], data[from + 4 * i + 1], data[from + 4 * i + 2], data[from + 4 * i + 3]);
    }
  }

  function WordAt(data: array<Byte>, i: nat): Word
    requires i + 4 <= data.Length
    reads data
  {
    Pack(data[i], data[i + 1], data[i + 2], data[i + 3])
  }

  method CopyOut(s: array<Word>, buf: array<Byte>, to: nat)
    requires to + 16 <= buf.Length && s.Length == 4
    modifies buf
    ensures buf[to..to + 16] == ToBytes(StateOf(s))
    ensures forall i :: 0 <= i < buf.Length && !(to <= i < to + 16) ==> buf[i] == old(buf[i])
  {
    hide ToBytes;
    var b := ToBytes(StateOf(s));
    for i := 0 to 16
      invariant forall j :: 0 <= j < buf.Length ==> buf[j] == if to <= j < to + i then b[j - to] else old(buf[j])
    {
      buf[to + i] := b[i];
    }
  }
}
