/** Numbers as bytes, highest first. */
module BigEndian {

  /** Byte `k` of a number, the lowest first. */
  function Digit(n: nat, k: nat): bv8 {
    if k == 0 then (n % 256) as bv8 else Digit(n / 256, k - 1)
  }

  /** A number in eight bytes, modulo 2 to the power 64. */
  function EightBytes(n: nat): (s: seq<bv8>)
    ensures |s| == 8
  {
    [Digit(n, 7), Digit(n, 6), Digit(n, 5), Digit(n, 4), Digit(n, 3), Digit(n, 2), Digit(n, 1), Digit(n, 0)]
  }

  lemma DigitZero(n: nat)
    requires n < 256
    ensures Digit(n, 0) == 0 <==> n == 0
  {
    if Digit(n, 0) == 0 { assert (n as bv8) as nat == n; }
  }

  lemma DigitStep(n: nat, k: nat)
    ensures Digit(n, k + 1) == Digit(n / 256, k)
  {
  }

  /** The lowest `j` bytes are zero. */
  predicate ZeroBelow(n: nat, j: nat) {
    j == 0 || (Digit(n, 0) == 0 && ZeroBelow(n / 256, j - 1))
  }

  function Power256(j: nat): nat {
    if j == 0 then 1 else 256 * Power256(j - 1)
  }

  lemma {:induction false} OnlyZero(n: nat, j: nat)
    requires n < Power256(j)
    ensures ZeroBelow(n, j) <==> n == 0
    decreases j
  {
    hide Digit;
    if j > 0 {
      LowDigit(n);
      OnlyZero(n / 256, j - 1);
    }
  }

  lemma LowDigit(n: nat)
    ensures Digit(n, 0) == 0 <==> n % 256 == 0
  {
    DigitZero(n % 256);
  }

  lemma FourDigits(n: nat)
    ensures ZeroBelow(n, 4) <==> Digit(n, 3) == 0 && Digit(n, 2) == 0 && Digit(n, 1) == 0 && Digit(n, 0) == 0
  {
    hide Digit;
    var n1 := n / 256;
    var n2 := n1 / 256;
    DigitStep(n, 2);
    DigitStep(n, 1);
    DigitStep(n, 0);
    DigitStep(n1, 1);
    DigitStep(n1, 0);
    DigitStep(n2, 0);
    assert ZeroBelow(n2 / 256, 1) <==> Digit(n2 / 256, 0) == 0;
    assert ZeroBelow(n2, 2) <==> Digit(n2, 0) == 0 && ZeroBelow(n2 / 256, 1);
    assert ZeroBelow(n1, 3) <==> Digit(n1, 0) == 0 && ZeroBelow(n2, 2);
  }

  /** The upper four bytes are zero exactly for numbers below 2 to the power 32. */
  lemma HighBytesZero(n: nat)
    requires n < 0x1_0000_0000_0000_0000
    ensures Digit(n, 7) == 0 && Digit(n, 6) == 0 && Digit(n, 5) == 0 && Digit(n, 4) == 0 <==> n < 0x1_0000_0000
  {
    var m := n / 256 / 256 / 256 / 256;
    assert m == n / 0x1_0000_0000 < Power256(4);
    hide Digit, ZeroBelow;
    HighDigit(n, 3);
    HighDigit(n, 2);
    HighDigit(n, 1);
    HighDigit(n, 0);
    FourDigits(m);
    OnlyZero(m, 4);
  }

  lemma HighDigit(n: nat, k: nat)
    ensures Digit(n, k + 4) == Digit(n / 256 / 256 / 256 / 256, k)
  {
    hide Digit;
    DigitStep(n, k + 3);
    DigitStep(n / 256, k + 2);
    DigitStep(n / 256 / 256, k + 1);
    DigitStep(n / 256 / 256 / 256, k);
  }

  // ----- reading the bytes back

  function Value(s: seq<bv8>): nat {
    if s == [] then 0 else 256 * Value(s[..|s| - 1]) + s[|s| - 1] as nat
  }

  /** The lowest `k` bytes of a number, highest first. */
  function Bytes(n: nat, k: nat): (s: seq<bv8>)
    ensures |s| == k
  {
    if k == 0 then [] else Bytes(n / 256, k - 1) + [Digit(n, 0)]
  }

  lemma {:induction false} BytesValue(n: nat, k: nat)
    requires n < Power256(k)
    ensures Value(Bytes(n, k)) == n
    decreases k
  {
    hide Digit;
    if k > 0 {
      BytesValue(n / 256, k - 1);
      var s := Bytes(n, k);
      assert s[..k - 1] == Bytes(n / 256, k - 1);
      LowByte(n);
    }
  }

  lemma LowByte(n: nat)
    ensures Digit(n, 0) as nat == n % 256
  {
    ByteNumber(n % 256);
  }

  lemma ByteNumber(m: nat)
    requires m < 256
    ensures (m as bv8) as nat == m
  {
    var b := ByteOf(m);
  }

  lemma {:induction false} ByteOf(m: nat) returns (b: bv8)
    requires m < 256
    ensures b as nat == m
  {
    if m == 0 {
      b := 0;
    } else {
      var c := ByteOf(m - 1);
      b := c + 1;
    }
  }

  lemma {:induction false} BytesAt(n: nat, k: nat, i: nat)
    requires i < k
    ensures Bytes(n, k)[i] == Digit(n, k - 1 - i)
    decreases k
  {
    hide Digit;
    if i < k - 1 {
      BytesAt(n / 256, k - 1, i);
      DigitStep(n, k - 2 - i);
    }
  }

  /** Eight bytes hold every 64-bit number. */
  lemma EightBytesValue(n: nat)
    requires n < 0x1_0000_0000_0000_0000
    ensures Value(EightBytes(n)) == n
  {
    hide Digit, Value;
    forall i | 0 <= i < 8 ensures EightBytes(n)[i] == Bytes(n, 8)[i] {
      BytesAt(n, 8, i);
    }
    assert EightBytes(n) == Bytes(n, 8);
    assert Power256(4) == 0x1_0000_0000;
    assert Power256(8) == 0x1_0000_0000_0000_0000;
    BytesValue(n, 8);
  }
}
