/** The slot vector: stable ids over a growing pool, a stack of free ids, and a packed set of the live ones. */
module SlotVector {
  import opened Basics
  import opened Quadword
  import opened BitArray

  /** Whether slot `i` is marked as stored. */
  predicate Stored(words: seq<bv64>, i: nat) {
    i < 64 * |words| && IsSet(words, i)
  }

  /** The number of stored slots below `n`. */
  function StoredCount(words: seq<bv64>, n: nat): nat {
    if n == 0 then 0 else StoredCount(words, n - 1) + if Stored(words, n - 1) then 1 else 0
  }

  lemma WithoutMembers(s: seq<nat>, k: nat)
    requires NoRepeat(s) && k < |s|
    ensures NoRepeat(Without(s, k)) && forall i :: i in Without(s, k) <==> i in s && i != s[k]
  {
    forall i | i in s && i != s[k] ensures i in Without(s, k) {
      var j :| 0 <= j < |s| && s[j] == i;
      assert Without(s, k)[if j < k then j else j - 1] == i;
    }
  }

  /** A list of exactly the slots below `n` that are not stored has a known length. */
  lemma {:induction false} FreeLength(free: seq<nat>, words: seq<bv64>, n: nat)
    requires NoRepeat(free) && forall i :: i in free <==> 0 <= i < n && !Stored(words, i)
    requires free != [] ==> free[0] < n
    ensures |free| + StoredCount(words, n) == n
    decreases n
  {
    hide Stored;
    if n == 0 {
    } else if Stored(words, n - 1) {
      assert free != [] ==> free[0] in free;
      FreeLength(free, words, n - 1);
    } else {
      assert n - 1 in free;
      var k :| 0 <= k < |free| && free[k] == n - 1;
      WithoutMembers(free, k);
      var rest := Without(free, k);
      assert rest != [] ==> rest[0] in rest;
      FreeLength(rest, words, n - 1);
    }
  }

  // ----- single bits of the set

  function WithBit(words: seq<bv64>, i: nat): seq<bv64>
    requires i < 64 * |words|
  {
    words[i / 64 := OrW(words[i / 64], ShlBy(1, i % 64))]
  }

  function WithoutBit(words: seq<bv64>, i: nat): seq<bv64>
    requires i < 64 * |words|
  {
    words[i / 64 := AndW(words[i / 64], NotW(ShlBy(1, i % 64)))]
  }

  lemma WithBitStores(words: seq<bv64>, i: nat)
    requires i < 64 * |words|
    ensures forall k: nat :: Stored(WithBit(words, i), k) <==> Stored(words, k) || k == i
  {
    hide Bit, OrW, ShlBy;
    forall k: nat ensures Stored(WithBit(words, i), k) <==> Stored(words, k) || k == i {
      OrBit(words[i / 64], ShlBy(1, i % 64), k % 64);
      PowerBit(i % 64, k % 64);
    }
  }

  lemma WithoutBitStores(words: seq<bv64>, i: nat)
    requires i < 64 * |words|
    ensures forall k: nat :: Stored(WithoutBit(words, i), k) <==> Stored(words, k) && k != i
  {
    hide Bit, AndW, NotW, ShlBy;
    forall k: nat ensures Stored(WithoutBit(words, i), k) <==> Stored(words, k) && k != i {
      AndBit(words[i / 64], NotW(ShlBy(1, i % 64)), k % 64);
      NotBit(ShlBy(1, i % 64), k % 64);
      PowerBit(i % 64, k % 64);
    }
  }

  function ZeroWords(n: nat): seq<bv64> {
    seq(n, _ => 0)
  }

  lemma MoreWords(words: seq<bv64>, n: nat)
    ensures forall k: nat :: Stored(words + ZeroWords(n), k) <==> Stored(words, k)
  {
    hide Bit;
    var more := words + ZeroWords(n);
    forall k: nat ensures Stored(more, k) <==> Stored(words, k) {
      ZeroBit(k % 64);
      assert k / 64 < |words| ==> more[k / 64] == words[k / 64];
      assert |words| <= k / 64 < |more| ==> more[k / 64] == 0;
    }
  }

  class SlotVec<T(0)> {
    var values: seq<T>
    var words: seq<bv64>
    var freeList: seq<nat>
    var capacity: nat

    /** The slots that are not in `free` are the stored ones. */
    ghost predicate Partition(free: seq<nat>)
      reads this
    {
      && |values| == capacity && |words| == (capacity + 63) / 64
      && NoRepeat(free)
      && (forall i :: i in free <==> 0 <= i < capacity && !Stored(words, i))
      && (forall i: nat :: Stored(words, i) ==> i < capacity)
    }

    ghost predicate Valid()
      reads this
    {
      Partition(freeList)
    }

    ghost predicate Live(id: nat)
      reads this
    {
      Stored(words, id)
    }

    constructor ()
      ensures Valid() && capacity == 2048 && forall id: nat :: !Live(id)
    {
      values, words, freeList, capacity := [], [], [], 0;
      new;
      Reserve(2048);
    }

    /** Grows the pool, moving the stored values, and pushes the new slots so that the lowest comes first. */
    method Reserve(newCapacity: nat)
      requires Valid() && newCapacity >= capacity
      modifies this
      ensures Valid() && capacity == newCapacity
      ensures forall id: nat :: Live(id) <==> old(Live(id))
      ensures forall id: nat :: old(Live(id)) && Live(id) ==> values[id] == old(values[id])
      ensures freeList == old(freeList) + Descending(old(capacity), newCapacity)
    {
      hide Stored;
      var newValues := MoveValues(newCapacity);
      var count := (newCapacity + 63) / 64 - |words|;
      MoreWords(words, count);
      words := words + ZeroWords(count);
      DescendingIs(capacity, newCapacity);
      JoinFree(freeList, Descending(capacity, newCapacity), capacity);
      freeList := freeList + Descending(capacity, newCapacity);
      values, capacity := newValues, newCapacity;
    }

    /** Takes a slot off the stack, growing the pool when there is none. */
    method FreeValueIndex() returns (index: nat)
      requires Valid()
      modifies this
      ensures Partition(freeList + [index]) && index < capacity && !Live(index)
      ensures forall id: nat :: Live(id) <==> old(Live(id))
      ensures forall id: nat :: old(Live(id)) && Live(id) ==> values[id] == old(values[id])
      ensures old(freeList) == [] ==> index == old(capacity) && capacity == if index == 0 then 1 else 2 * index
      ensures old(freeList) != [] ==> old(freeList) == freeList + [index] && capacity == old(capacity)
    {
      hide Stored;
      if freeList == [] {
        Reserve(if capacity != 0 then capacity * 2 else 1);
      }
      ghost var free := freeList;
      var n := |freeList| - 1;
      index := freeList[n];
      freeList := freeList[..n];
      assert free == freeList + [index] && index in free;
    }

    /** The new id was not in use; every id that was keeps its value. */
    method Insert(v: T) returns (id: nat)
      requires Valid()
      modifies this
      ensures Valid() && !old(Live(id)) && Live(id) && values[id] == v
      ensures forall i: nat :: Live(i) <==> old(Live(i)) || i == id
      ensures forall i: nat :: old(Live(i)) && Live(i) ==> values[i] == old(values[i])
    {
      hide Stored;
      id := FreeValueIndex();
      values := values[id := v];
      WithBitStores(words, id);
      words := WithBit(words, id);
      LastTaken(freeList, id);
    }

    method Erase(id: nat)
      requires Valid() && Live(id)
      modifies this
      ensures Valid() && capacity == old(capacity) && freeList == old(freeList) + [id]
      ensures forall i: nat :: Live(i) <==> old(Live(i)) && i != id
      ensures forall i: nat :: Live(i) ==> values[i] == old(values[i])
    {
      hide Stored;
      WithoutBitStores(words, id);
      words := WithoutBit(words, id);
      freeList := freeList + [id];
    }

    method Size() returns (n: nat)
      requires Valid()
      ensures n == StoredCount(words, capacity)
    {
      hide Stored;
      assert freeList != [] ==> freeList[0] in freeList;
      FreeLength(freeList, words, capacity);
      n := capacity - |freeList|;
    }

    /** Walking from `begin()` to `end()`: every live slot once, in order. */
    method LiveIds() returns (ids: seq<nat>)
      requires Valid()
      ensures forall j, k :: 0 <= j < k < |ids| ==> ids[j] < ids[k]
      ensures forall i: nat :: Live(i) <==> i in ids
    {
      hide Stored;
      ids := [];
      var slot := AdvanceToValid(0);
      while slot != capacity
        invariant slot <= capacity && (slot < capacity ==> Live(slot))
        invariant forall j, k :: 0 <= j < k < |ids| ==> ids[j] < ids[k]
        invariant forall k :: 0 <= k < |ids| ==> ids[k] < slot
        invariant forall i: nat :: i < slot ==> (Live(i) <==> i in ids)
        decreases capacity - slot
      {
        ghost var was := ids;
        ids := ids + [slot];
        assert forall i: nat :: i in ids <==> i in was || i == slot;
        slot := AdvanceToValid(slot + 1);
      }
    }

    /** The next live slot at or after `from`, or the end. */
    method AdvanceToValid(from: nat) returns (slot: nat)
      requires Valid() && from <= capacity
      ensures from <= slot <= capacity && (slot < capacity ==> Live(slot))
      ensures forall i :: from <= i < slot ==> !Live(i)
    {
      hide IsSet;
      slot := from;
      while slot < capacity && !IsSet(words, slot)
        invariant from <= slot <= capacity && forall i :: from <= i < slot ==> !Live(i)
      {
        slot := slot + 1;
      }
    }

    /** The two loops over the set bits. */
    method MoveValues(newCapacity: nat) returns (newValues: seq<T>)
      requires Valid() && newCapacity >= capacity
      ensures |newValues| == newCapacity
      ensures forall i: nat :: Stored(words, i) ==> newValues[i] == values[i]
    {
      var blank: T := *;
      newValues := seq(newCapacity, _ => blank);
      for w := 0 to |words|
        invariant |newValues| == newCapacity
        invariant forall i: nat :: i < 64 * w && Stored(words, i) ==> newValues[i] == values[i]
      {
        var bits, bit := words[w], 0;
        ShrNone(bits);
        while bits != 0
          invariant bit <= 64 && bits == ShrBy(words[w], bit) && |newValues| == newCapacity
          invariant forall i: nat :: i < 64 * w + bit && Stored(words, i) ==> newValues[i] == values[i]
          decreases 64 - bit
        {
          hide ShrBy, Bit;
          NextBit(words[w], bit, bits);
          if bits & 1 != 0 {
            assert Stored(words, 64 * w + bit);
            newValues := newValues[64 * w + bit := values[64 * w + bit]];
          }
          bit, bits := bit + 1, Half(bits);
        }
        NoMoreBits(words, w, bit);
      }
    }
  }

  lemma LastTaken(s: seq<nat>, x: nat)
    ensures NoRepeat(s + [x]) ==> NoRepeat(s) && x !in s
    ensures forall i :: i in s + [x] <==> i in s || i == x
  {
    if NoRepeat(s + [x]) {
      forall i, j | 0 <= i < j < |s| ensures s[i] != s[j] {
        assert (s + [x])[i] != (s + [x])[j];
      }
      forall i | 0 <= i < |s| ensures s[i] != x {
        assert (s + [x])[i] != (s + [x])[|s|];
      }
    }
  }

  lemma JoinFree(s: seq<nat>, t: seq<nat>, n: nat)
    requires NoRepeat(s) && NoRepeat(t) && (forall i :: i in s ==> i < n) && (forall i :: i in t ==> n <= i)
    ensures NoRepeat(s + t) && forall i :: i in s + t <==> i in s || i in t
  {
    assert forall i :: 0 <= i < |s| ==> s[i] in s;
    assert forall i :: 0 <= i < |t| ==> t[i] in t;
  }

  lemma NextBit(word: bv64, bit: nat, bits: bv64)
    requires bits == ShrBy(word, bit) && bits != 0 && bit <= 64
    ensures bit < 64 && (bits & 1 != 0 <==> Bit(word, bit)) && Half(bits) == ShrBy(word, bit + 1)
  {
    ShrBit(word, bit, 0);
    ShrAdd(word, bit, 1);
    ShrAll(word);
    OddBit(bits);
  }

  lemma OddBit(x: bv64)
    ensures x & 1 != 0 <==> x & 1 == 1
    ensures ShrBy(x, 1) == Half(x)
  {
    ShrNone(Half(x));
  }

  lemma NoMoreBits(words: seq<bv64>, w: nat, bit: nat)
    requires w < |words| && bit <= 64 && ShrBy(words[w], bit) == 0
    ensures forall i: nat :: 64 * w + bit <= i < 64 * (w + 1) ==> !Stored(words, i)
  {
    hide ShrBy, Bit;
    forall i: nat | 64 * w + bit <= i < 64 * (w + 1) ensures !Stored(words, i) {
      ShrBit(words[w], bit, i - 64 * w - bit);
      ZeroBit(i - 64 * w - bit);
    }
  }

  /** The slots from `hi - 1` down to `lo`. */
  function Descending(lo: nat, hi: nat): (s: seq<nat>)
    requires lo <= hi
    ensures |s| == hi - lo
  {
    seq(hi - lo, k requires 0 <= k < hi - lo => hi - 1 - k)
  }

  lemma DescendingIs(lo: nat, hi: nat)
    requires lo <= hi
    ensures NoRepeat(Descending(lo, hi)) && forall i :: i in Descending(lo, hi) <==> lo <= i < hi
  {
    forall i | lo <= i < hi ensures i in Descending(lo, hi) {
      assert Descending(lo, hi)[hi - 1 - i] == i;
    }
  }
}
