/** The word-packed bit array with range updates and range search, seen as a sequence of booleans. */
module BitArray {
  import opened Quadword

  /** Bit `i` of packed words. */
  predicate IsSet(words: seq<bv64>, i: nat)
    requires i < 64 * |words|
  {
    Bit(words[i / 64], i % 64)
  }

  // ----- masks

  /** All bits from `n` up. */
  function FromMask(n: nat): bv64 {
    NotW(DecW(ShlBy(1, n)))
  }

  /** All bits up to and including `n`. */
  function UpToMask(n: nat): bv64 {
    if n == 63 then ONES else DecW(ShlBy(1, n + 1))
  }

  lemma FromMaskBit(n: nat, i: nat)
    requires i < 64
    ensures Bit(FromMask(n), i) <==> i >= n
  {
    NotBit(DecW(ShlBy(1, n)), i);
    PredPowerBit(n, i);
  }

  lemma UpToMaskBit(n: nat, i: nat)
    requires n < 64 && i < 64
    ensures Bit(UpToMask(n), i) <==> i <= n
  {
    if n == 63 { OnesBit(i); } else { PredPowerBit(n + 1, i); }
  }

  lemma {:induction false} PowerBit(n: nat, i: nat)
    requires i < 64
    ensures Bit(ShlBy(1, n), i) <==> i == n
  {
    ShlBit(1, n, i);
    if i >= n { OneBit(i - n); }
  }

  /** Testing a bit with a mask. */
  lemma TestBit(x: bv64, n: nat)
    requires n < 64
    ensures AndW(x, ShlBy(1, n)) != 0 <==> Bit(x, n)
  {
    hide Bit, AndW, ShlBy;
    var m := AndW(x, ShlBy(1, n));
    forall i | 0 <= i < 64 ensures Bit(m, i) <==> Bit(x, i) && i == n {
      AndBit(x, ShlBy(1, n), i);
      PowerBit(n, i);
    }
    if Bit(x, n) {
      ZeroBit(n);
    } else {
      forall i | 0 <= i < 64 ensures Bit(m, i) <==> Bit(0, i) {
        ZeroBit(i);
      }
      BitsDetermine(m, 0);
    }
  }

  // ----- counting bits

  /** The first place at or above `i` where the bit of `x` is `v`; 64 if there is none. */
  function Scan(x: bv64, i: nat, v: bool): (n: nat)
    requires i <= 64
    ensures i <= n <= 64 && (n < 64 ==> Bit(x, n) == v) && forall k :: i <= k < n ==> Bit(x, k) != v
    decreases 64 - i
  {
    if i == 64 || Bit(x, i) == v then i else Scan(x, i + 1, v)
  }

  /** One above the last place below `i` where the bit of `x` is `v`; 0 if there is none. */
  function ScanDown(x: bv64, i: nat, v: bool): (n: nat)
    requires i <= 64
    ensures n <= i && (n > 0 ==> Bit(x, n - 1) == v) && forall k :: n <= k < i ==> Bit(x, k) != v
    decreases i
  {
    if i == 0 || Bit(x, i - 1) == v then i else ScanDown(x, i - 1, v)
  }

  function CountrZero(x: bv64): nat {
    Scan(x, 0, true)
  }

  function CountrOne(x: bv64): nat {
    Scan(x, 0, false)
  }

  function CountlZero(x: bv64): nat {
    64 - ScanDown(x, 64, true)
  }

  function CountlOne(x: bv64): nat {
    64 - ScanDown(x, 64, false)
  }

  /** The part of a range that lies in word `w`. */
  predicate InRange(start: nat, end: nat, w: nat, b: nat) {
    start <= 64 * w + b < end
  }

  /** Word `w` with the range set. */
  ghost predicate WordSet(was: bv64, now: bv64, start: nat, end: nat, w: nat) {
    forall b :: 0 <= b < 64 ==> (Bit(now, b) <==> Bit(was, b) || InRange(start, end, w, b))
  }

  /** Word `w` with the range cleared. */
  ghost predicate WordCleared(was: bv64, now: bv64, start: nat, end: nat, w: nat) {
    forall b :: 0 <= b < 64 ==> (Bit(now, b) <==> Bit(was, b) && !InRange(start, end, w, b))
  }

  /** Only the bits of the range. */
  ghost predicate WordKept(was: bv64, now: bv64, start: nat, end: nat, w: nat) {
    forall b :: 0 <= b < 64 ==> (Bit(now, b) <==> Bit(was, b) && InRange(start, end, w, b))
  }

  lemma OrMask(was: bv64, m: bv64, start: nat, end: nat, w: nat)
    requires forall b :: 0 <= b < 64 ==> (Bit(m, b) <==> InRange(start, end, w, b))
    ensures WordSet(was, OrW(was, m), start, end, w)
  {
    hide Bit, OrW;
    forall b | 0 <= b < 64 ensures Bit(OrW(was, m), b) <==> Bit(was, b) || InRange(start, end, w, b) {
      OrBit(was, m, b);
    }
  }

  lemma AndMask(was: bv64, m: bv64, start: nat, end: nat, w: nat)
    ensures (forall b :: 0 <= b < 64 ==> (Bit(m, b) <==> !InRange(start, end, w, b))) ==> WordCleared(was, AndW(was, m), start, end, w)
    ensures (forall b :: 0 <= b < 64 ==> (Bit(m, b) <==> InRange(start, end, w, b))) ==> WordKept(was, AndW(was, m), start, end, w)
  {
    hide Bit, AndW;
    forall b | 0 <= b < 64 ensures Bit(AndW(was, m), b) <==> Bit(was, b) && Bit(m, b) {
      AndBit(was, m, b);
    }
  }

  /** The masks of `SetRange` select the range in the first and the last word. */
  lemma RangeMasks(start: nat, end: nat)
    requires start < end
    ensures var first, last, s, e := start / 64, (end - 1) / 64, FromMask(start % 64), UpToMask((end - 1) % 64);
            forall b :: 0 <= b < 64 ==>
              && (first == last ==> (Bit(AndW(s, e), b) <==> InRange(start, end, first, b)))
              && (first < last ==> (Bit(s, b) <==> InRange(start, end, first, b)))
              && (first < last ==> (Bit(e, b) <==> InRange(start, end, last, b)))
  {
    hide Bit, AndW, FromMask, UpToMask;
    var first, last, s, e := start / 64, (end - 1) / 64, FromMask(start % 64), UpToMask((end - 1) % 64);
    forall b | 0 <= b < 64
      ensures first == last ==> (Bit(AndW(s, e), b) <==> InRange(start, end, first, b))
      ensures first < last ==> (Bit(s, b) <==> InRange(start, end, first, b))
      ensures first < last ==> (Bit(e, b) <==> InRange(start, end, last, b))
    {
      AndBit(s, e, b);
      FromMaskBit(start % 64, b);
      UpToMaskBit((end - 1) % 64, b);
    }
  }

  /** The masks of `UnsetRange` select what to keep. */
  lemma UnsetMasks(start: nat, end: nat)
    requires start < end
    ensures var first, last, s, e := start / 64, (end - 1) / 64, BeforeMask(start % 64), AfterMask((end - 1) % 64);
            forall b :: 0 <= b < 64 ==>
              && (first == last ==> (Bit(OrW(s, e), b) <==> !InRange(start, end, first, b)))
              && (first < last ==> (Bit(s, b) <==> !InRange(start, end, first, b)))
              && (first < last ==> (Bit(e, b) <==> !InRange(start, end, last, b)))
  {
    hide Bit, OrW, BeforeMask, AfterMask;
    var first, last, s, e := start / 64, (end - 1) / 64, BeforeMask(start % 64), AfterMask((end - 1) % 64);
    forall b | 0 <= b < 64
      ensures first == last ==> (Bit(OrW(s, e), b) <==> !InRange(start, end, first, b))
      ensures first < last ==> (Bit(s, b) <==> !InRange(start, end, first, b))
      ensures first < last ==> (Bit(e, b) <==> !InRange(start, end, last, b))
    {
      OrBit(s, e, b);
      BeforeMaskBit(start % 64, b);
      AfterMaskBit((end - 1) % 64, b);
    }
  }

  /** All bits below `n`, and all bits above `n`. */
  function BeforeMask(n: nat): bv64 {
    DecW(ShlBy(1, n))
  }

  function AfterMask(n: nat): bv64 {
    if n == 63 then 0 else NotW(DecW(ShlBy(1, n + 1)))
  }

  lemma BeforeMaskBit(n: nat, i: nat)
    requires i < 64
    ensures Bit(BeforeMask(n), i) <==> i < n
  {
    PredPowerBit(n, i);
  }

  lemma AfterMaskBit(n: nat, i: nat)
    requires n < 64 && i < 64
    ensures Bit(AfterMask(n), i) <==> i > n
  {
    if n == 63 {
      ZeroBit(i);
    } else {
      NotBit(DecW(ShlBy(1, n + 1)), i);
      PredPowerBit(n + 1, i);
    }
  }

  lemma OnesSet(was: bv64, start: nat, end: nat, w: nat)
    requires start <= 64 * w && 64 * (w + 1) <= end
    ensures WordSet(was, ONES, start, end, w) && WordCleared(was, 0, start, end, w) && WordKept(was, was, start, end, w)
  {
    hide Bit;
    forall b | 0 <= b < 64 ensures Bit(ONES, b) && !Bit(0, b) {
      OnesBit(b);
      ZeroBit(b);
    }
  }

  /** Every word has the range set, so every bit is as it should be. */
  lemma BitsSet(was: seq<bv64>, now: seq<bv64>, start: nat, end: nat)
    requires |was| == |now| && forall w :: 0 <= w < |was| ==> WordSet(was[w], now[w], start, end, w)
    ensures forall i :: 0 <= i < 64 * |was| ==> (IsSet(now, i) <==> IsSet(was, i) || start <= i < end)
  {
    hide Bit;
    forall i | 0 <= i < 64 * |was| ensures IsSet(now, i) <==> IsSet(was, i) || start <= i < end {
      var w, b := i / 64, i % 64;
      assert WordSet(was[w], now[w], start, end, w);
      assert Bit(now[w], b) <==> Bit(was[w], b) || InRange(start, end, w, b);
    }
  }

  lemma BitsCleared(was: seq<bv64>, now: seq<bv64>, start: nat, end: nat)
    requires |was| == |now| && forall w :: 0 <= w < |was| ==> WordCleared(was[w], now[w], start, end, w)
    ensures forall i :: 0 <= i < 64 * |was| ==> (IsSet(now, i) <==> IsSet(was, i) && !(start <= i < end))
  {
    hide Bit;
    forall i | 0 <= i < 64 * |was| ensures IsSet(now, i) <==> IsSet(was, i) && !(start <= i < end) {
      var w, b := i / 64, i % 64;
      assert WordCleared(was[w], now[w], start, end, w);
      assert Bit(now[w], b) <==> Bit(was[w], b) && !InRange(start, end, w, b);
    }
  }

  lemma BitsKept(was: seq<bv64>, now: seq<bv64>, start: nat, end: nat)
    requires |was| == |now| && forall w :: 0 <= w < |was| ==> WordKept(was[w], now[w], start, end, w)
    ensures forall i :: 0 <= i < 64 * |was| ==> (IsSet(now, i) <==> IsSet(was, i) && start <= i < end)
  {
    hide Bit;
    forall i | 0 <= i < 64 * |was| ensures IsSet(now, i) <==> IsSet(was, i) && start <= i < end {
      var w, b := i / 64, i % 64;
      assert WordKept(was[w], now[w], start, end, w);
      assert Bit(now[w], b) <==> Bit(was[w], b) && InRange(start, end, w, b);
    }
  }

  /** Words that the range does not reach. */
  lemma Outside(x: bv64, start: nat, end: nat, w: nat)
    requires end <= 64 * w || 64 * (w + 1) <= start || start >= end
    ensures WordSet(x, x, start, end, w) && WordCleared(x, x, start, end, w) && WordKept(x, 0, start, end, w)
  {
    hide Bit;
    forall b | 0 <= b < 64 ensures !Bit(0, b) {
      ZeroBit(b);
    }
  }

  // ----- runs of set bits

  datatype Range = Range(first: nat, second: nat)

  /** The first run of set bits at or after `start`, cut off below `start`; `(N, N)` if there is none. */
  ghost predicate IsFirstRange(words: seq<bv64>, start: nat, r: Range) {
    var n := 64 * |words|;
    if start >= n then r == Range(n, n)
    else
      && start <= r.first <= r.second <= n
      && (forall i :: start <= i < r.first ==> !IsSet(words, i))
      && (forall i :: r.first <= i < r.second ==> IsSet(words, i))
      && (r.first < n ==> r.first < r.second)
      && (r.second < n ==> !IsSet(words, r.second))
  }

  /** The last run of set bits below `end`, cut off at `end`; `(0, 0)` if there is none. */
  ghost predicate IsLastRange(words: seq<bv64>, end: nat, r: Range) {
    var e := if end > 64 * |words| then 64 * |words| else end;
    && r.first <= r.second <= e
    && (forall i :: r.second <= i < e ==> !IsSet(words, i))
    && (forall i :: r.first <= i < r.second ==> IsSet(words, i))
    && (r.second > 0 ==> r.first < r.second)
    && (r.first > 0 ==> !IsSet(words, r.first - 1))
  }

  /** These determine the range. */
  lemma FirstRangeUnique(words: seq<bv64>, start: nat, r: Range, r': Range)
    requires IsFirstRange(words, start, r) && IsFirstRange(words, start, r')
    ensures r == r'
  {
    hide IsSet;
    if start < 64 * |words| {
      assert r.first < 64 * |words| ==> IsSet(words, r.first);
      assert r'.first < 64 * |words| ==> IsSet(words, r'.first);
    }
  }

  lemma LastRangeUnique(words: seq<bv64>, end: nat, r: Range, r': Range)
    requires IsLastRange(words, end, r) && IsLastRange(words, end, r')
    ensures r == r'
  {
    hide IsSet;
    assert r.second > 0 ==> IsSet(words, r.second - 1);
    assert r'.second > 0 ==> IsSet(words, r'.second - 1);
  }

  lemma SomeBit(x: bv64)
    ensures x != 0 ==> CountrZero(x) < 64 && CountlZero(x) < 64
    ensures x != ONES ==> CountrOne(x) < 64 && CountlOne(x) < 64
  {
    hide Bit;
    if CountrZero(x) == 64 || CountlZero(x) == 64 {
      forall i | 0 <= i < 64 ensures Bit(x, i) <==> Bit(0, i) {
        ZeroBit(i);
      }
      BitsDetermine(x, 0);
    }
    if CountrOne(x) == 64 || CountlOne(x) == 64 {
      forall i | 0 <= i < 64 ensures Bit(x, i) <==> Bit(ONES, i) {
        OnesBit(i);
      }
      BitsDetermine(x, ONES);
    }
  }

  lemma TopOnes(x: bv64)
    requires x != ONES
    ensures var o := CountlOne(x); o < 64 && !Bit(x, 63 - o) && forall i :: 64 - o <= i < 64 ==> Bit(x, i)
  {
    hide Bit;
    SomeBit(x);
  }

  lemma BottomOnes(x: bv64)
    requires x != ONES
    ensures var o := CountrOne(x); o < 64 && !Bit(x, o) && forall i :: 0 <= i < o ==> Bit(x, i)
  {
    hide Bit;
    SomeBit(x);
  }

  /** The lowest run of ones in a word. */
  lemma LowRun(x: bv64)
    requires x != 0
    ensures var e := CountrZero(x); var o := CountrOne(ShrBy(x, e));
            && e < 64 && 0 < o && e + o <= 64 && Bit(x, e)
            && (forall i :: 0 <= i < e ==> !Bit(x, i)) && (forall i :: e <= i < e + o ==> Bit(x, i))
            && (e + o < 64 ==> !Bit(x, e + o))
  {
    hide Bit, ShrBy;
    SomeBit(x);
    var e := CountrZero(x);
    var o := CountrOne(ShrBy(x, e));
    forall i | 0 <= i <= 64 ensures Bit(ShrBy(x, e), i) <==> Bit(x, e + i) {
      ShrBit(x, e, i);
    }
    HighBit(x, 64);
    assert !Bit(ShrBy(x, e), 64 - e);
    forall i | e <= i < e + o ensures Bit(x, i) {
      assert Bit(ShrBy(x, e), i - e);
    }
    assert !Bit(ShrBy(x, e), 0) ==> !Bit(x, e);
  }

  /** The highest run of ones in a word. */
  lemma HighRun(x: bv64)
    requires x != 0
    ensures var e := CountlZero(x); var o := CountlOne(ShlBy(x, e));
            && e < 64 && 0 < o && e + o <= 64
            && (forall i :: 64 - e <= i < 64 ==> !Bit(x, i)) && (forall i :: 64 - e - o <= i < 64 - e ==> Bit(x, i))
            && (e + o < 64 ==> !Bit(x, 63 - e - o))
  {
    hide Bit, ShlBy, CountlZero, CountlOne;
    TopZeros(x);
    var e := CountlZero(x);
    var y := ShlBy(x, e);
    forall i | 0 <= i < 64 ensures Bit(y, i) <==> i >= e && Bit(x, i - e) {
      ShlBit(x, e, i);
    }
    LeadingOnes(y);
    TopRun(x, y, e, CountlOne(y));
  }

  lemma TopZeros(x: bv64)
    requires x != 0
    ensures var e := CountlZero(x); e < 64 && Bit(x, 63 - e) && forall i :: 64 - e <= i < 64 ==> !Bit(x, i)
  {
    hide Bit;
    SomeBit(x);
  }

  lemma LeadingOnes(x: bv64)
    ensures var o := CountlOne(x);
            o <= 64 && (o < 64 ==> !Bit(x, 63 - o)) && forall i :: 64 - o <= i < 64 ==> Bit(x, i)
  {
    hide Bit;
  }

  lemma TopRun(x: bv64, y: bv64, e: nat, o: nat)
    requires e < 64 && o <= 64 && Bit(x, 63 - e)
    requires forall i :: 0 <= i < 64 ==> (Bit(y, i) <==> i >= e && Bit(x, i - e))
    requires (forall i :: 64 - o <= i < 64 ==> Bit(y, i)) && (o < 64 ==> !Bit(y, 63 - o))
    ensures 0 < o && e + o <= 64 && (forall i :: 64 - e - o <= i < 64 - e ==> Bit(x, i))
    ensures e + o < 64 ==> !Bit(x, 63 - e - o)
  {
    hide Bit;
    assert Bit(y, 63);
    assert e > 0 ==> !Bit(y, e - 1);
    forall i | 64 - e - o <= i < 64 - e ensures Bit(x, i) {
      assert Bit(y, i + e);
    }
  }

  // ----- the array

  class Bits {
    const data: array<bv64>

    ghost function Words(): seq<bv64>
      reads data
    {
      data[..]
    }

    /** All bits clear. */
    constructor (words: nat)
      ensures fresh(data) && data.Length == words
      ensures forall i :: 0 <= i < 64 * words ==> !IsSet(Words(), i)
    {
      data := new bv64[words](_ => 0);
      new;
      forall i | 0 <= i < 64 * words ensures !IsSet(Words(), i) {
        ZeroBit(i % 64);
      }
    }

    method Set(idx: nat)
      requires idx < 64 * data.Length
      modifies data
      ensures forall i :: 0 <= i < 64 * data.Length ==> (IsSet(Words(), i) <==> old(IsSet(Words(), i)) || i == idx)
    {
      hide Bit, OrW, ShlBy;
      var w, m := idx / 64, ShlBy(1, idx % 64);
      data[w] := OrW(data[w], m);
      forall i | 0 <= i < 64 * data.Length ensures IsSet(Words(), i) <==> old(IsSet(Words(), i)) || i == idx {
        OrBit(old(data[w]), m, i % 64);
        PowerBit(idx % 64, i % 64);
      }
    }

    method Unset(idx: nat)
      requires idx < 64 * data.Length
      modifies data
      ensures forall i :: 0 <= i < 64 * data.Length ==> (IsSet(Words(), i) <==> old(IsSet(Words(), i)) && i != idx)
    {
      hide Bit, AndW, NotW, ShlBy;
      var w, m := idx / 64, ShlBy(1, idx % 64);
      data[w] := AndW(data[w], NotW(m));
      forall i | 0 <= i < 64 * data.Length ensures IsSet(Words(), i) <==> old(IsSet(Words(), i)) && i != idx {
        AndBit(old(data[w]), NotW(m), i % 64);
        NotBit(m, i % 64);
        PowerBit(idx % 64, i % 64);
      }
    }

    method Get(idx: nat) returns (r: bool)
      requires idx < 64 * data.Length
      ensures r == IsSet(Words(), idx)
    {
      hide Bit, AndW, ShlBy;
      TestBit(data[idx / 64], idx % 64);
      r := AndW(data[idx / 64], ShlBy(1, idx % 64)) != 0;
    }

    /** Sets exactly the bits of the range; a range that is empty or reaches past the end is ignored. */
    method SetRange(start: nat, end: nat)
      modifies data
      ensures forall i :: 0 <= i < 64 * data.Length ==>
        (IsSet(Words(), i) <==> old(IsSet(Words(), i)) || (end <= 64 * data.Length && start <= i < end))
    {
      hide Bit, OrW, AndW, FromMask, UpToMask, WordSet;
      if start >= end || end > 64 * data.Length {
        return;
      }
      var first, last := start / 64, (end - 1) / 64;
      var s, e := FromMask(start % 64), UpToMask((end - 1) % 64);
      RangeMasks(start, end);
      if first == last {
        OrMask(data[first], AndW(s, e), start, end, first);
        data[first] := OrW(data[first], AndW(s, e));
      } else {
        OrMask(data[first], s, start, end, first);
        data[first] := OrW(data[first], s);
        for i := first + 1 to last
          invariant forall w :: 0 <= w < first || i <= w < data.Length ==> data[w] == old(data[w])
          invariant forall w :: first <= w < i ==> WordSet(old(data[w]), data[w], start, end, w)
        {
          OnesSet(data[i], start, end, i);
          data[i] := ONES;
        }
        OrMask(data[last], e, start, end, last);
        data[last] := OrW(data[last], e);
      }
      forall w | 0 <= w < data.Length ensures WordSet(old(data[w]), data[w], start, end, w) {
        if w < first || w > last { Outside(data[w], start, end, w); }
      }
      BitsSet(old(Words()), Words(), start, end);
    }

    method UnsetRange(start: nat, end: nat)
      modifies data
      ensures forall i :: 0 <= i < 64 * data.Length ==>
        (IsSet(Words(), i) <==> old(IsSet(Words(), i)) && !(end <= 64 * data.Length && start <= i < end))
    {
      hide Bit, OrW, AndW, BeforeMask, AfterMask, WordCleared;
      if start >= end || end > 64 * data.Length {
        return;
      }
      var first, last := start / 64, (end - 1) / 64;
      var s, e := BeforeMask(start % 64), AfterMask((end - 1) % 64);
      UnsetMasks(start, end);
      if first == last {
        AndMask(data[first], OrW(s, e), start, end, first);
        data[first] := AndW(data[first], OrW(s, e));
      } else {
        AndMask(data[first], s, start, end, first);
        data[first] := AndW(data[first], s);
        for i := first + 1 to last
          invariant forall w :: 0 <= w < first || i <= w < data.Length ==> data[w] == old(data[w])
          invariant forall w :: first <= w < i ==> WordCleared(old(data[w]), data[w], start, end, w)
        {
          OnesSet(data[i], start, end, i);
          data[i] := 0;
        }
        AndMask(data[last], e, start, end, last);
        data[last] := AndW(data[last], e);
      }
      forall w | 0 <= w < data.Length ensures WordCleared(old(data[w]), data[w], start, end, w) {
        if w < first || w > last { Outside(data[w], start, end, w); }
      }
      BitsCleared(old(Words()), Words(), start, end);
    }

    /** A copy of the bits of `other` in the range and no others. */
    constructor CopyRange(other: Bits, start: nat, end: nat)
      ensures fresh(data) && data.Length == other.data.Length
      ensures forall i :: 0 <= i < 64 * data.Length ==>
        (IsSet(Words(), i) <==> end <= 64 * data.Length && start <= i < end && IsSet(other.Words(), i))
    {
      data := new bv64[other.data.Length](_ => 0);
      new;
      hide Bit;
      if start >= end || end > 64 * data.Length {
        forall i | 0 <= i < 64 * data.Length ensures !IsSet(Words(), i) {
          ZeroBit(i % 64);
        }
        return;
      }
      CopyWords(other.data, start, end);
      BitsKept(other.Words(), Words(), start, end);
    }

    method CopyWords(other: array<bv64>, start: nat, end: nat)
      requires start < end <= 64 * data.Length && data != other && other.Length == data.Length
      requires forall w :: 0 <= w < data.Length ==> data[w] == 0
      modifies data
      ensures forall w :: 0 <= w < data.Length ==> WordKept(other[w], data[w], start, end, w)
    {
      hide Bit, AndW, FromMask, UpToMask, WordKept;
      var first, last := start / 64, (end - 1) / 64;
      var s, e := FromMask(start % 64), UpToMask((end - 1) % 64);
      RangeMasks(start, end);
      if first == last {
        AndMask(other[first], AndW(s, e), start, end, first);
        data[first] := AndW(other[first], AndW(s, e));
      } else {
        AndMask(other[first], s, start, end, first);
        data[first] := AndW(other[first], s);
        for i := first + 1 to last
          invariant forall w :: 0 <= w < first || i <= w < data.Length ==> data[w] == 0
          invariant forall w :: first <= w < i ==> WordKept(other[w], data[w], start, end, w)
        {
          OnesSet(other[i], start, end, i);
          data[i] := other[i];
        }
        AndMask(other[last], e, start, end, last);
        data[last] := AndW(other[last], e);
      }
      forall w | 0 <= w < data.Length ensures WordKept(other[w], data[w], start, end, w) {
        if w < first || w > last { Outside(other[w], start, end, w); }
      }
    }

    /** The first clear bit from word `word` on. */
    method FindEndBit(word: nat) returns (n: nat)
      requires word <= data.Length
      ensures 64 * word <= n <= 64 * data.Length
      ensures forall i :: 64 * word <= i < n ==> IsSet(Words(), i)
      ensures n < 64 * data.Length ==> !IsSet(Words(), n)
    {
      hide Bit, CountrOne;
      for w := word to data.Length
        invariant forall i :: 64 * word <= i < 64 * w ==> IsSet(Words(), i)
      {
        if data[w] != ONES {
          BottomOnes(data[w]);
          return w * 64 + CountrOne(data[w]);
        }
        forall i | 64 * w <= i < 64 * (w + 1) ensures IsSet(Words(), i) {
          OnesBit(i % 64);
        }
      }
      return 64 * data.Length;
    }

    /** The run that begins in word `index`, of which `word` is the part from bit `from` up. */
    method WordBits(index: nat, word: bv64, ghost from: nat) returns (r: Range)
      requires index < data.Length && word != 0 && from < 64
      requires forall b :: 0 <= b < 64 ==> (Bit(word, b) <==> b >= from && Bit(data[index], b))
      ensures IsFirstRange(Words(), 64 * index + from, r)
    {
      hide Bit, ShrBy, CountrZero, CountrOne;
      LowRun(word);
      var empty := CountrZero(word);
      var ones := CountrOne(ShrBy(word, empty));
      var startBit := index * 64 + empty;
      assert from <= empty;
      forall i | 64 * index + from <= i < 64 * (index + 1)
        ensures IsSet(Words(), i) <==> Bit(word, i - 64 * index)
      {
      }
      if ones + empty < 64 {
        r := Range(startBit, startBit + ones);
      } else {
        var end := FindEndBit(index + 1);
        r := Range(startBit, end);
      }
    }

    method FirstRangeFrom(start: nat) returns (r: Range)
      ensures IsFirstRange(Words(), start, r)
    {
      hide Bit, AndW, FromMask;
      if start >= 64 * data.Length {
        return Range(64 * data.Length, 64 * data.Length);
      }
      var startWord, startBit := start / 64, start % 64;
      var masked := AndW(data[startWord], FromMask(startBit));
      forall b | 0 <= b < 64 ensures Bit(masked, b) <==> b >= startBit && Bit(data[startWord], b) {
        AndBit(data[startWord], FromMask(startBit), b);
        FromMaskBit(startBit, b);
      }
      if masked != 0 {
        r := WordBits(startWord, masked, startBit);
        return;
      }
      forall i | start <= i < 64 * (startWord + 1) ensures !IsSet(Words(), i) {
        ZeroBit(i - 64 * startWord);
      }
      for w := startWord + 1 to data.Length
        invariant forall i :: start <= i < 64 * w ==> !IsSet(Words(), i)
      {
        if data[w] != 0 {
          r := WordBits(w, data[w], 0);
          return;
        }
        forall i | 64 * w <= i < 64 * (w + 1) ensures !IsSet(Words(), i) {
          ZeroBit(i % 64);
        }
      }
      return Range(64 * data.Length, 64 * data.Length);
    }

    /** One above the last clear bit below word `word`. */
    method FindStartBit(word: nat) returns (n: nat)
      requires word <= data.Length
      ensures n <= 64 * word
      ensures forall i :: n <= i < 64 * word ==> IsSet(Words(), i)
      ensures n > 0 ==> !IsSet(Words(), n - 1)
      ensures n == StartBit(Words(), word)
    {
      hide Bit, CountlOne;
      for w := word downto 0
        invariant StartBit(Words(), word) == StartBit(Words(), w)
        invariant forall i :: 64 * w <= i < 64 * word ==> IsSet(Words(), i)
      {
        if data[w] != ONES {
          TopOnes(data[w]);
          return (w + 1) * 64 - CountlOne(data[w]);
        }
        forall i | 64 * w <= i < 64 * (w + 1) ensures IsSet(Words(), i) {
          OnesBit(i % 64);
        }
      }
      return 0;
    }

    /** The run that ends in word `index - 1`, of which `word` is the part up to bit `upTo`. */
    method WordBitsBelow(index: nat, word: bv64, ghost upTo: nat) returns (r: Range)
      requires 0 < index <= data.Length && word != 0 && upTo < 64
      requires forall b :: 0 <= b < 64 ==> (Bit(word, b) <==> b <= upTo && Bit(data[index - 1], b))
      ensures IsLastRange(Words(), 64 * (index - 1) + upTo + 1, r)
    {
      hide Bit, ShlBy, CountlZero, CountlOne;
      HighRun(word);
      var empty := CountlZero(word);
      var ones := CountlOne(ShlBy(word, empty));
      var endBit := index * 64 - empty;
      assert Bit(word, 63 - empty);
      forall i | 64 * (index - 1) <= i <= 64 * (index - 1) + upTo
        ensures IsSet(Words(), i) <==> Bit(word, i - 64 * (index - 1))
      {
      }
      if empty + ones < 64 {
        r := Range(endBit - ones, endBit);
      } else {
        var start := FindStartBit(index - 1);
        r := Range(start, endBit);
      }
    }

    method LastRangeFrom(end: nat) returns (r: Range)
      ensures IsLastRange(Words(), end, r)
    {
      hide Bit, AndW, UpToMask;
      var e := if end > 64 * data.Length then 64 * data.Length else end;
      if e == 0 {
        return Range(0, 0);
      }
      var endWord, endBit := (e - 1) / 64 + 1, (e - 1) % 64;
      var masked := data[endWord - 1];
      if endBit < 63 {
        masked := AndW(masked, UpToMask(endBit));
      }
      forall b | 0 <= b < 64 ensures Bit(masked, b) <==> b <= endBit && Bit(data[endWord - 1], b) {
        AndBit(data[endWord - 1], UpToMask(endBit), b);
        UpToMaskBit(endBit, b);
      }
      if masked != 0 {
        r := WordBitsBelow(endWord, masked, endBit);
        return;
      }
      forall i | 64 * (endWord - 1) <= i < e ensures !IsSet(Words(), i) {
        ZeroBit(i - 64 * (endWord - 1));
      }
      for w := endWord - 1 downto 0
        invariant forall i :: 64 * w <= i < e ==> !IsSet(Words(), i)
      {
        if data[w] != 0 {
          r := WordBitsBelow(w + 1, data[w], 63);
          return;
        }
        forall i | 64 * w <= i < 64 * (w + 1) ensures !IsSet(Words(), i) {
          ZeroBit(i % 64);
        }
      }
      return Range(0, 0);
    }

    /** Walking the array from `begin()` to `end()`. */
    method Ranges() returns (rs: seq<Range>)
      ensures AreRuns(Words(), rs, 64 * data.Length)
    {
      hide IsSet;
      rs := [];
      var n := 64 * data.Length;
      var r := FirstRangeFrom(0);
      var end := FirstRangeFrom(n);
      ghost var from := 0;
      while r != end
        invariant from <= n && AreRuns(Words(), rs, from) && IsFirstRange(Words(), from, r)
        invariant 0 < from < n ==> !IsSet(Words(), from)
        decreases n - from
      {
        AppendRun(Words(), rs, from, r);
        rs := rs + [r];
        from := r.second;
        r := FirstRangeFrom(r.second);
      }
    }
  }

  /** Ascending runs with gaps between them that hold exactly the set bits below `n`. */
  ghost predicate AreRuns(words: seq<bv64>, rs: seq<Range>, n: nat) {
    && (forall k :: 0 <= k < |rs| ==> rs[k].first < rs[k].second <= n)
    && (forall j, k :: 0 <= j < k < |rs| ==> rs[j].second < rs[k].first)
    && (forall i :: 0 <= i < n && i < 64 * |words| ==> (IsSet(words, i) <==> Covers(rs, i)))
  }

  ghost predicate Covers(rs: seq<Range>, i: nat) {
    exists k :: 0 <= k < |rs| && rs[k].first <= i < rs[k].second
  }

  lemma AppendRun(words: seq<bv64>, rs: seq<Range>, from: nat, r: Range)
    requires AreRuns(words, rs, from) && IsFirstRange(words, from, r) && r.first < 64 * |words|
    requires 0 < from < 64 * |words| ==> !IsSet(words, from)
    ensures AreRuns(words, rs + [r], r.second)
  {
    hide IsSet;
    var rs' := rs + [r];
    assert IsSet(words, r.first);
    forall i | 0 <= i < r.second ensures IsSet(words, i) <==> Covers(rs', i) {
      assert Covers(rs', i) <==> Covers(rs, i) || r.first <= i < r.second by {
        assert rs'[|rs|] == r;
        if Covers(rs, i) {
          var k :| 0 <= k < |rs| && rs[k].first <= i < rs[k].second;
          assert rs'[k] == rs[k];
        }
      }
    }
  }

  // ----- the vector path of LastRangeFrom

  /** What `FindStartBit` computes. */
  function StartBit(words: seq<bv64>, word: nat): (n: nat)
    requires word <= |words|
    ensures n <= 64 * word
  {
    if word == 0 then 0
    else if words[word - 1] != ONES then 64 * word - CountlOne(words[word - 1])
    else StartBit(words, word - 1)
  }

  /** With AVX, blocks of four words are skipped first, as long as all four are zero. */
  function SkipBlocks(words: seq<bv64>, word: nat): (w: nat)
    requires word <= |words|
    ensures w <= word
  {
    if ZeroBlock(words, word) then SkipBlocks(words, word - 4) else word
  }

  predicate ZeroBlock(words: seq<bv64>, word: nat)
    requires word <= |words|
  {
    word >= 4 && words[word - 4] == 0 && words[word - 3] == 0 && words[word - 2] == 0 && words[word - 1] == 0
  }

  /** The run of ones ending at the top of word `word - 1` starts here. */
  ghost predicate IsStartBit(words: seq<bv64>, word: nat, n: nat)
    requires word <= |words|
  {
    n <= 64 * word && (forall i :: n <= i < 64 * word ==> IsSet(words, i)) && (n > 0 ==> !IsSet(words, n - 1))
  }

  lemma {:induction false} StartBitIs(words: seq<bv64>, word: nat)
    requires word <= |words|
    ensures IsStartBit(words, word, StartBit(words, word))
  {
    hide Bit, CountlOne;
    if word > 0 {
      var w := word - 1;
      if words[w] != ONES {
        TopOnes(words[w]);
      } else {
        StartBitIs(words, w);
        forall i | 64 * w <= i < 64 * word ensures IsSet(words, i) {
          OnesBit(i % 64);
        }
      }
    }
  }

  /** The run that ends in word `index - 1`, given its top part `word` and where a run that fills it starts. */
  function WordRange(index: nat, word: bv64, start: nat): Range
    requires index > 0
  {
    var e := CountlZero(word);
    var o := CountlOne(ShlBy(word, e));
    if e + o < 64 then Range(64 * index - e - o, 64 * index - e) else Range(start, 64 * index - e)
  }

  /** One above the last word below `word` that is not zero; 0 if there is none. */
  function NonZeroBelow(words: seq<bv64>, word: nat): (w: nat)
    requires word <= |words|
    ensures w <= word
  {
    if word == 0 || words[word - 1] != 0 then word else NonZeroBelow(words, word - 1)
  }

  function VectorWordRange(words: seq<bv64>, index: nat, word: bv64): Range
    requires 0 < index <= |words|
  {
    WordRange(index, word, StartBit(words, SkipBlocks(words, index - 1)))
  }

  /** The top part of the word that holds bit `e - 1`, up to that bit. */
  function MaskedLast(words: seq<bv64>, e: nat): bv64
    requires 0 < e <= 64 * |words|
  {
    var word, bit := words[(e - 1) / 64], (e - 1) % 64;
    if bit < 63 then AndW(word, UpToMask(bit)) else word
  }

  /** `LastRangeFrom` with both block skips. */
  function VectorLastRangeFrom(words: seq<bv64>, end: nat): Range {
    var e := if end > 64 * |words| then 64 * |words| else end;
    if e == 0 then Range(0, 0)
    else if MaskedLast(words, e) != 0 then VectorWordRange(words, (e - 1) / 64 + 1, MaskedLast(words, e))
    else
      var w := NonZeroBelow(words, SkipBlocks(words, (e - 1) / 64));
      if w == 0 then Range(0, 0) else VectorWordRange(words, w, words[w - 1])
  }

  /** The run fills its only word down to the bottom, and the four words below are zero. */
  predicate AboveZeroBlock(words: seq<bv64>, r: Range) {
    r.first < r.second <= r.first + 64 && r.first % 64 == 0 && r.first <= 64 * |words| && ZeroBlock(words, r.first / 64)
  }

  lemma MaskedLastBits(words: seq<bv64>, e: nat)
    requires 0 < e <= 64 * |words|
    ensures forall b :: 0 <= b < 64 ==> (Bit(MaskedLast(words, e), b) <==> b <= (e - 1) % 64 && Bit(words[(e - 1) / 64], b))
  {
    hide Bit, AndW, UpToMask;
    var word, bit := words[(e - 1) / 64], (e - 1) % 64;
    forall b | 0 <= b < 64 ensures Bit(MaskedLast(words, e), b) <==> b <= bit && Bit(word, b) {
      AndBit(word, UpToMask(bit), b);
      UpToMaskBit(bit, b);
    }
  }

  /** `word` is the part of word `index - 1` up to bit `upTo`. */
  ghost predicate TopPart(words: seq<bv64>, index: nat, word: bv64, upTo: nat)
    requires 0 < index <= |words|
  {
    upTo < 64 && word != 0 && forall b :: 0 <= b < 64 ==> (Bit(word, b) <==> b <= upTo && Bit(words[index - 1], b))
  }

  /** With the right start, the run is the last one. */
  lemma WordRangeIs(words: seq<bv64>, index: nat, word: bv64, upTo: nat)
    requires 0 < index <= |words| && TopPart(words, index, word, upTo)
    ensures IsLastRange(words, 64 * (index - 1) + upTo + 1, WordRange(index, word, StartBit(words, index - 1)))
  {
    hide Bit, ShlBy, CountlZero, CountlOne, StartBit;
    HighRun(word);
    StartBitIs(words, index - 1);
    var e := CountlZero(word);
    var o := CountlOne(ShlBy(word, e));
    assert Bit(word, 63 - e);
    forall i | 64 * (index - 1) <= i <= 64 * (index - 1) + upTo
      ensures IsSet(words, i) <==> Bit(word, i - 64 * (index - 1))
    {
    }
  }

  lemma NoOnes()
    ensures CountlOne(0) == 0
  {
    hide Bit;
    ZeroBit(63);
  }

  /** The block skip gives the right run exactly when it is not above a zero block. */
  lemma VectorWordExact(words: seq<bv64>, index: nat, word: bv64)
    requires 0 < index <= |words| && word != 0
    ensures var r := WordRange(index, word, StartBit(words, index - 1));
            VectorWordRange(words, index, word) == r <==> !AboveZeroBlock(words, r)
  {
    hide Bit, ShlBy, CountlZero, CountlOne;
    HighRun(word);
    NoOnes();
    if ZeroBlock(words, index - 1) {
      assert StartBit(words, index - 1) == 64 * (index - 1);
      assert SkipBlocks(words, index - 1) <= index - 5;
    }
  }

  /** Clear bits above a run do not matter. */
  lemma ClearAbove(words: seq<bv64>, low: nat, high: nat, r: Range)
    requires low <= high <= 64 * |words| && forall i :: low <= i < high ==> !IsSet(words, i)
    requires IsLastRange(words, low, r)
    ensures IsLastRange(words, high, r)
  {
    hide IsSet;
  }

  lemma {:induction false} SkipClear(words: seq<bv64>, word: nat)
    requires word <= |words|
    ensures forall k :: SkipBlocks(words, word) <= k < word ==> words[k] == 0
  {
    if ZeroBlock(words, word) { SkipClear(words, word - 4); }
  }

  lemma {:induction false} NonZeroClear(words: seq<bv64>, word: nat)
    requires word <= |words|
    ensures forall k :: NonZeroBelow(words, word) <= k < word ==> words[k] == 0
    ensures NonZeroBelow(words, word) > 0 ==> words[NonZeroBelow(words, word) - 1] != 0
  {
    if word > 0 && words[word - 1] == 0 { NonZeroClear(words, word - 1); }
  }

  lemma ZeroWordsClear(words: seq<bv64>, low: nat, high: nat)
    requires low <= high <= |words| && forall k :: low <= k < high ==> words[k] == 0
    ensures forall i :: 64 * low <= i < 64 * high ==> !IsSet(words, i)
  {
    hide Bit;
    forall i | 64 * low <= i < 64 * high ensures !IsSet(words, i) {
      ZeroBit(i % 64);
    }
  }

  /**
   The vector path means to skip words of ones but tests for zeros. For every array and bound it returns the last
   run `r` exactly when `r` is not a run of one word, down to its lowest bit, above four words of zeros.
   */
  lemma VectorLastExact(words: seq<bv64>, end: nat, r: Range)
    requires IsLastRange(words, end, r)
    ensures IsLastRange(words, end, VectorLastRangeFrom(words, end)) <==> !AboveZeroBlock(words, r)
  {
    hide IsSet, Bit, MaskedLast, SkipBlocks, NonZeroBelow, VectorWordRange, AboveZeroBlock, IsLastRange;
    var e := if end > 64 * |words| then 64 * |words| else end;
    if e > 0 {
      var last := (e - 1) / 64;
      MaskedLastBits(words, e);
      if MaskedLast(words, e) != 0 {
        VectorFound(words, end, e, last + 1, MaskedLast(words, e), (e - 1) % 64, r);
      } else {
        LastWordClear(words, e);
        var w := NonZeroBelow(words, SkipBlocks(words, last));
        SkipClear(words, last);
        NonZeroClear(words, SkipBlocks(words, last));
        ZeroWordsClear(words, w, last);
        if w > 0 {
          WholeWord(words, w);
          VectorFound(words, end, e, w, words[w - 1], 63, r);
        } else {
          NothingSet(words, end, e, r);
        }
      }
    } else {
      NothingSet(words, end, e, r);
    }
  }

  lemma WholeWord(words: seq<bv64>, w: nat)
    requires 0 < w <= |words| && words[w - 1] != 0
    ensures TopPart(words, w, words[w - 1], 63)
  {
    hide Bit;
  }

  lemma LastWordClear(words: seq<bv64>, e: nat)
    requires 0 < e <= 64 * |words| && MaskedLast(words, e) == 0
    ensures forall i :: 64 * ((e - 1) / 64) <= i < e ==> !IsSet(words, i)
  {
    hide Bit, MaskedLast;
    MaskedLastBits(words, e);
    forall i | 64 * ((e - 1) / 64) <= i < e ensures !IsSet(words, i) {
      ZeroBit(i % 64);
      assert Bit(MaskedLast(words, e), i % 64) <==> i % 64 <= (e - 1) % 64 && Bit(words[(e - 1) / 64], i % 64);
    }
  }

  lemma NothingSet(words: seq<bv64>, end: nat, e: nat, r: Range)
    requires e == (if end > 64 * |words| then 64 * |words| else end) && IsLastRange(words, end, r)
    requires forall i :: 0 <= i < e ==> !IsSet(words, i)
    ensures r == Range(0, 0) && !AboveZeroBlock(words, r)
  {
    hide IsSet;
    LastRangeUnique(words, end, r, Range(0, 0));
  }

  lemma VectorFound(words: seq<bv64>, end: nat, e: nat, index: nat, word: bv64, upTo: nat, r: Range)
    requires e == (if end > 64 * |words| then 64 * |words| else end) && IsLastRange(words, end, r)
    requires 0 < index <= |words| && TopPart(words, index, word, upTo) && 64 * (index - 1) + upTo + 1 <= e
    requires forall i :: 64 * (index - 1) + upTo + 1 <= i < e ==> !IsSet(words, i)
    ensures IsLastRange(words, end, VectorWordRange(words, index, word)) <==> !AboveZeroBlock(words, r)
  {
    hide Bit, WordRange, VectorWordRange, AboveZeroBlock, StartBit;
    var r0 := WordRange(index, word, StartBit(words, index - 1));
    WordRangeIs(words, index, word, upTo);
    ClearAbove(words, 64 * (index - 1) + upTo + 1, e, r0);
    LastRangeUnique(words, end, r, r0);
    VectorWordExact(words, index, word);
    if IsLastRange(words, end, VectorWordRange(words, index, word)) {
      LastRangeUnique(words, end, VectorWordRange(words, index, word), r0);
    }
  }

  lemma AllOnes()
    ensures CountlZero(ONES) == 0 && CountlOne(ShlBy(ONES, 0)) == 64
  {
    hide Bit, ShlBy;
    HighRun(ONES);
    assert forall i :: 0 <= i < 64 ==> Bit(ONES, i) by {
      forall i | 0 <= i < 64 ensures Bit(ONES, i) { OnesBit(i); }
    }
  }

  /** A word of ones above four words of zeros: the run is (256, 320), the vector path returns (0, 320). */
  lemma VectorLastFails()
    ensures var words := [0, 0, 0, 0, ONES];
            && VectorLastRangeFrom(words, 320) == Range(0, 320)
            && IsLastRange(words, 320, Range(256, 320)) && !IsLastRange(words, 320, Range(0, 320))
  {
    var words := [0, 0, 0, 0, ONES];
    AllOnes();
    hide Bit, CountlZero, CountlOne, ShlBy;
    ZeroBit(63);
    assert !IsSet(words, 255);
    forall i | 256 <= i < 320 ensures IsSet(words, i) {
      OnesBit(i - 256);
    }
  }
}
