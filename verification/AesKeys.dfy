/** Key expansion (section 5.2 of FIPS 197). */
module AesKeys {
  import opened Basics
  import opened AesTables
  import opened AesCipher

  predicate ValidKeySize(n: nat) {
    n == 16 || n == 24 || n == 32
  }

  function RoundCount(keySize: nat): nat
    requires ValidKeySize(keySize)
  {
    if keySize == 16 then 10 else if keySize == 24 then 12 else 14
  }

  /** `rot_word`: a shift, as the code does it. */
  function RotWord(v: Word): Word {
    ((v >> 8) & 0x00FF_FFFF) | ((v & 0xFF) << 24)
  }

  /** The standard's rotation of the four bytes of a word. */
  function Rotated(v: Word): Word {
    Pack(Byte1(v), Byte2(v), Byte3(v), Byte0(v))
  }

  lemma RotWordRotates(v: Word)
    ensures RotWord(v) == Rotated(v)
  {
  }

  /** The round constants of `expand_key`, entry 0 unused. */
  function Rcon(i: nat): Byte
    requires i <= 10
  {
    if i == 0 then 0x00 else if i == 1 then 0x01 else if i == 2 then 0x02 else if i == 3 then 0x04
    else if i == 4 then 0x08 else if i == 5 then 0x10 else if i == 6 then 0x20 else if i == 7 then 0x40
    else if i == 8 then 0x80 else if i == 9 then 0x1b else 0x36
  }

  /** The standard's round constants: the powers of x in the field. */
  function RoundConstant(i: nat): Byte
    requires i >= 1
  {
    if i == 1 then 0x01 else Mul2(RoundConstant(i - 1))
  }

  lemma RconNext(i: nat)
    requires 1 <= i < 10
    ensures Rcon(i + 1) == Mul2(Rcon(i))
  {
  }

  lemma {:induction false} RconPowers(i: nat)
    requires 1 <= i <= 10
    ensures Rcon(i) == RoundConstant(i)
  {
    hide Rcon, Mul2;
    if i > 1 {
      RconPowers(i - 1);
      RconNext(i - 1);
    } else {
      RconFirst();
    }
  }

  lemma RconFirst()
    ensures Rcon(1) == 0x01
  {
  }

  predicate ScheduleIndex(nk: nat, i: nat) {
    (nk == 4 || nk == 6 || nk == 8) && nk <= i < 4 * (nk + 7)
  }

  function Quotient(nk: nat, i: nat): (q: nat)
    requires ScheduleIndex(nk, i)
    ensures 1 <= q <= 10
  {
    if nk == 4 then i / 4 else if nk == 6 then i / 6 else i / 8
  }

  function Remainder(nk: nat, i: nat): nat
    requires ScheduleIndex(nk, i)
  {
    if nk == 4 then i % 4 else if nk == 6 then i % 6 else i % 8
  }

  /** A word of the schedule from the one before it and the one a key length back, as the standard has it. */
  function NextWord(nk: nat, i: nat, before: Word, back: Word): Word
    requires ScheduleIndex(nk, i)
  {
    var t := if Remainder(nk, i) == 0 then XorWord(SubWord(Rotated(before)), RoundConstant(Quotient(nk, i)) as bv32)
             else if nk > 6 && Remainder(nk, i) == 4 then SubWord(before)
             else before;
    XorWord(t, back)
  }

  /** Word `i` of the key schedule of figure 11. */
  function Scheduled(key: seq<Byte>, i: nat): Word
    requires ValidKeySize(|key|) && i < 4 * (RoundCount(|key|) + 1)
    decreases i
  {
    var nk := |key| / 4;
    if i < nk then Pack(key[4 * i], key[4 * i + 1], key[4 * i + 2], key[4 * i + 3])
    else NextWord(nk, i, Scheduled(key, i - 1), Scheduled(key, i - nk))
  }

  /** The round keys: the schedule, four words at a time. */
  function Expanded(key: seq<Byte>): (keys: RoundKeys)
    requires ValidKeySize(|key|)
    ensures |keys| == RoundCount(|key|) + 1
  {
    seq(RoundCount(|key|) + 1, i requires 0 <= i < RoundCount(|key|) + 1 =>
      State(Scheduled(key, 4 * i), Scheduled(key, 4 * i + 1), Scheduled(key, 4 * i + 2), Scheduled(key, 4 * i + 3)))
  }

  /** Figure 4 of FIPS 197: one round key more than there are rounds, and six rounds more than key words. */
  lemma ExpandedLength(key: seq<Byte>)
    requires ValidKeySize(|key|)
    ensures |Expanded(key)| == |key| / 4 + 7
  {
    assert |key| / 4 == if |key| == 16 then 4 else if |key| == 24 then 6 else 8;
  }

  lemma ScheduledKey(key: seq<Byte>, i: nat)
    requires ValidKeySize(|key|) && i < |key| / 4
    ensures Scheduled(key, i) == Pack(key[4 * i], key[4 * i + 1], key[4 * i + 2], key[4 * i + 3])
  {
    hide Pack;
  }

  lemma ScheduledNext(key: seq<Byte>, i: nat)
    requires ValidKeySize(|key|) && |key| / 4 <= i < 4 * (RoundCount(|key|) + 1)
    ensures Scheduled(key, i) == NextWord(|key| / 4, i, Scheduled(key, i - 1), Scheduled(key, i - |key| / 4))
  {
    hide NextWord;
  }

  /** `expand_key`; `None` for an invalid key size. */
  method ExpandKey(key: seq<Byte>) returns (r: Option<RoundKeys>)
    ensures r == if ValidKeySize(|key|) then Some(Expanded(key)) else None
  {
    if !ValidKeySize(|key|) {
      return None;
    }
    hide NextWord, Pack, Scheduled;
    var w := ScheduleWords(key);
    var words := w[..];
    var keys: RoundKeys := seq(RoundCount(|key|) + 1, i requires 0 <= i < RoundCount(|key|) + 1 && 4 * (RoundCount(|key|) + 1) == |words| =>
      State(words[4 * i], words[4 * i + 1], words[4 * i + 2], words[4 * i + 3]));
    assert keys == Expanded(key);
    r := Some(keys);
  }

  method ScheduleWords(key: seq<Byte>) returns (w: array<Word>)
    requires ValidKeySize(|key|)
    ensures fresh(w) && w.Length == 4 * (RoundCount(|key|) + 1)
    ensures forall j :: 0 <= j < w.Length ==> w[j] == Scheduled(key, j)
  {
    hide Pack, Scheduled, XorWord, SubWord, RotWord, Rotated, Rcon, RoundConstant, Remainder, Quotient;
    var nk, n := |key| / 4, 4 * (RoundCount(|key|) + 1);
    w := new Word[n](_ => 0);
    for i := 0 to nk
      invariant forall j :: 0 <= j < i ==> w[j] == Scheduled(key, j)
    {
      ScheduledKey(key, i);
      w[i] := Pack(key[4 * i], key[4 * i + 1], key[4 * i + 2], key[4 * i + 3]);
    }
    for i := nk to n
      invariant forall j :: 0 <= j < i ==> w[j] == Scheduled(key, j)
    {
      ScheduledNext(key, i);
      var t := w[i - 1];
      if Remainder(nk, i) == 0 {
        RotWordRotates(t);
        RconPowers(Quotient(nk, i));
        t := XorWord(SubWord(RotWord(t)), Rcon(Quotient(nk, i)) as bv32);
      } else if nk > 6 && Remainder(nk, i) == 4 {
        t := SubWord(t);
      }
      w[i] := XorWord(t, w[i - nk]);
    }
  }
}
