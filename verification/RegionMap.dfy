/**
 The region table of the Windows address space as a value: a map from base address to region, what it
 means for every single address, and how splitting and merging regions keeps that meaning.
 */
module RegionMap {

  datatype Prot = NoAccess | ReadOnly | ReadWrite | Execute | ExecuteRead | ExecuteReadWrite

  /** `PAddr(-1)`: no physical backing. */
  const NO_PHYS: nat := 0xFFFF_FFFF_FFFF_FFFF
  const NO_FD: int := -1

  /** `MemoryRegion`. */
  datatype Region = Region(base: nat, phys: nat, size: nat, prot: Prot, fd: int, mapped: bool)

  type Regions = map<nat, Region>

  function FreeRegion(base: nat, size: nat): Region {
    Region(base, NO_PHYS, size, NoAccess, NO_FD, false)
  }

  /** `MapRegion` maps a file view; otherwise it commits private memory. */
  predicate MapsView(r: Region) {
    r.phys != NO_PHYS && !(r.fd != NO_FD && r.prot == ReadOnly)
  }

  /** `UnmapRegion` unmaps a file view; otherwise it frees private memory. */
  predicate UnmapsView(r: Region) {
    (r.fd != NO_FD && r.prot != ReadOnly) || (r.fd == NO_FD && r.phys != NO_PHYS)
  }

  /** A file mapping without an offset, not read-only, would be mapped one way and unmapped another. */
  predicate Removable(r: Region) {
    !(r.phys == NO_PHYS && r.fd != NO_FD && r.prot != ReadOnly)
  }

  /** The two case distinctions agree exactly on the removable regions. */
  lemma UnmapMatchesMap(r: Region)
    ensures MapsView(r) == UnmapsView(r) <==> Removable(r)
  {
  }

  ghost predicate RegionOk(k: nat, r: Region) {
    && r.base == k && r.size > 0
    && (!r.mapped ==> r == FreeRegion(k, r.size))
    && (r.mapped ==> Removable(r) && (r.phys == NO_PHYS || r.phys + r.size <= NO_PHYS))
  }

  /** Every region is stored under its base and regions do not overlap. */
  ghost predicate RegionsOk(m: Regions) {
    && (forall k :: k in m ==> RegionOk(k, m[k]))
    && (forall k, k' :: k in m && k' in m && k < k' ==> k + m[k].size <= k')
  }

  ghost predicate Covers(m: Regions, k: nat, a: nat) {
    k in m && k <= a < k + m[k].size
  }

  // ----- what an address means

  datatype Cell =
    | Unreserved
    | Free
    | Anonymous(prot: Prot, fd: int)
    | Backed(fd: int, paddr: nat, prot: Prot)

  function CellOf(r: Region, a: nat): Cell
    requires r.base <= a
  {
    if !r.mapped then Free
    else if r.phys == NO_PHYS then Anonymous(r.prot, r.fd)
    else Backed(r.fd, r.phys + (a - r.base), r.prot)
  }

  ghost function Meaning(m: Regions, a: nat): Cell
    requires RegionsOk(m)
  {
    if exists k: nat :: Covers(m, k, a) then var k: nat :| Covers(m, k, a); CellOf(m[k], a) else Unreserved
  }

  lemma MeaningAt(m: Regions, k: nat, a: nat)
    requires RegionsOk(m) && Covers(m, k, a)
    ensures Meaning(m, a) == CellOf(m[k], a)
  {
  }

  lemma MeaningFree(m: Regions, a: nat) returns (k: nat)
    requires RegionsOk(m) && Meaning(m, a) != Unreserved
    ensures Covers(m, k, a) && Meaning(m, a) == CellOf(m[k], a)
  {
    k :| Covers(m, k, a);
  }

  // ----- looking up `std::prev(regions.upper_bound(a))`

  ghost predicate IsFloor(m: Regions, k: nat, a: nat) {
    k in m && k <= a && forall k' :: k' in m && k' <= a ==> k' <= k
  }

  lemma {:induction false} FloorExists(m: Regions, low: nat, a: nat) returns (k: nat)
    requires low in m && low <= a
    ensures IsFloor(m, k, a)
    decreases a - low
  {
    if k': nat :| k' in m && low < k' <= a {
      k := FloorExists(m, k', a);
    } else {
      k := low;
    }
  }

  lemma {:induction false} CeilingExists(m: Regions, a: nat, high: nat) returns (n: nat)
    requires high in m && a < high
    ensures n in m && a < n && forall k :: k in m && a < k ==> n <= k
    decreases high
  {
    if k: nat :| k in m && a < k < high {
      n := CeilingExists(m, a, k);
    } else {
      n := high;
    }
  }

  lemma FloorCovers(m: Regions, k: nat, a: nat, f: nat)
    requires RegionsOk(m) && Covers(m, k, a) && IsFloor(m, f, a)
    ensures f == k
  {
  }

  // ----- free regions that touch

  ghost predicate TouchingFree(m: Regions, k: nat, k': nat) {
    k in m && k' in m && !m[k].mapped && !m[k'].mapped && k + m[k].size == k'
  }

  /** Two free regions meet at boundary `y`. */
  ghost predicate TouchAt(m: Regions, y: nat) {
    exists x: nat :: TouchingFree(m, x, y)
  }

  /** No two touching regions are both free. */
  ghost predicate Coalesced(m: Regions) {
    forall y: nat :: !TouchAt(m, y)
  }

  /** Free regions touch only at boundaries from `lo` to `hi`. */
  ghost predicate TouchOnly(m: Regions, lo: nat, hi: nat) {
    forall y: nat :: TouchAt(m, y) ==> lo <= y <= hi
  }

  /** In a coalesced table a contiguous free range lies in one region. */
  lemma {:induction false} FreeRangeInOneRegion(m: Regions, lo: nat, hi: nat) returns (k: nat)
    requires RegionsOk(m) && Coalesced(m) && lo < hi
    requires forall a :: lo <= a < hi ==> Meaning(m, a) == Free
    ensures k in m && !m[k].mapped && k <= lo && hi <= k + m[k].size
    decreases hi
  {
    if hi == lo + 1 {
      k := MeaningFree(m, lo);
    } else {
      k := FreeRangeInOneRegion(m, lo, hi - 1);
      var k' := MeaningFree(m, hi - 1);
      assert k != k' ==> TouchingFree(m, k, k');
      assert !TouchAt(m, k');
    }
  }

  // ----- splitting one region in two

  /** The part of a region from offset `off` on, `len` bytes long. */
  function Piece(r: Region, off: nat, len: nat): Region {
    Region(r.base + off, if r.mapped then r.phys + off else NO_PHYS, len, r.prot, r.fd, r.mapped)
  }

  function SplitAt(m: Regions, k: nat, off: nat): Regions
    requires k in m && off <= m[k].size
  {
    m[k := m[k].(size := off)][k + off := Piece(m[k], off, m[k].size - off)]
  }

  ghost predicate Splittable(m: Regions, k: nat) {
    k in m && (m[k].mapped ==> m[k].phys != NO_PHYS)
  }

  lemma SplitAtOk(m: Regions, k: nat, off: nat)
    requires RegionsOk(m) && Splittable(m, k) && 0 < off < m[k].size
    ensures RegionsOk(SplitAt(m, k, off))
  {
    assert k + off !in m;
  }

  /** A split changes no address's meaning. */
  lemma SplitAtMeaning(m: Regions, k: nat, off: nat, a: nat)
    requires RegionsOk(m) && Splittable(m, k) && 0 < off < m[k].size && RegionsOk(SplitAt(m, k, off))
    ensures Meaning(SplitAt(m, k, off), a) == Meaning(m, a)
  {
    var m' := SplitAt(m, k, off);
    if k': nat :| Covers(m, k', a) {
      MeaningAt(m, k', a);
      var k'' := if k' != k then k' else if a < k + off then k else k + off;
      assert k + off !in m;
      MeaningAt(m', k'', a);
    } else if k': nat :| Covers(m', k', a) {
      assert Covers(m, if k' == k + off then k else k', a);
    }
  }

  /** A split makes at most the two pieces touch. */
  lemma SplitAtTouch(m: Regions, k: nat, off: nat, y: nat)
    requires RegionsOk(m) && Splittable(m, k) && 0 < off < m[k].size
    requires TouchAt(SplitAt(m, k, off), y) && y != k + off
    ensures TouchAt(m, y)
  {
    var x: nat :| TouchingFree(SplitAt(m, k, off), x, y);
    assert k + off !in m;
    assert TouchingFree(m, if x == k + off then k else x, y);
  }

  // ----- replacing one region

  lemma ReplaceOk(m: Regions, k: nat, r: Region)
    requires RegionsOk(m) && k in m && RegionOk(k, r) && r.size == m[k].size
    ensures RegionsOk(m[k := r])
  {
  }

  lemma ReplaceMeaning(m: Regions, k: nat, r: Region, a: nat)
    requires RegionsOk(m) && k in m && RegionOk(k, r) && r.size == m[k].size && RegionsOk(m[k := r])
    ensures Meaning(m[k := r], a) == if k <= a < k + r.size then CellOf(r, a) else Meaning(m, a)
  {
    var m' := m[k := r];
    assert k <= a < k + r.size ==> Covers(m, k, a);
    if j: nat :| Covers(m, j, a) {
      MeaningAt(m, j, a);
      MeaningAt(m', j, a);
    } else if j: nat :| Covers(m', j, a) {
      assert Covers(m, j, a);
    }
  }

  /** Mapping a region adds no touching free regions; freeing it adds at most its two ends. */
  lemma ReplaceTouch(m: Regions, k: nat, r: Region, y: nat)
    requires RegionsOk(m) && k in m && RegionOk(k, r) && r.size == m[k].size && TouchAt(m[k := r], y)
    ensures TouchAt(m, y) || (!r.mapped && (y == k || y == k + r.size))
    ensures r.mapped ==> y != k && y != k + r.size
  {
    var x: nat :| TouchingFree(m[k := r], x, y);
    assert x != k && y != k ==> TouchingFree(m, x, y);
  }

  // ----- anonymous mappings

  ghost predicate IsAnonymous(r: Region) {
    r.mapped && r.phys == NO_PHYS
  }

  /** Anonymous mappings that reach into [lo, hi) lie inside it. */
  ghost predicate AnonymousInside(m: Regions, lo: nat, hi: nat) {
    forall k :: k in m && IsAnonymous(m[k]) && k < hi && lo < k + m[k].size ==> lo <= k && k + m[k].size <= hi
  }

  /** `m'` has no anonymous mappings beyond those of `m`. */
  ghost predicate NoNewAnonymous(m: Regions, m': Regions) {
    forall k :: k in m' && IsAnonymous(m'[k]) ==> k in m && m[k] == m'[k]
  }

  // ----- merging a run of free regions

  ghost predicate CoveredFrom(m: Regions, lo: nat, a: nat) {
    exists k: nat :: lo <= k && Covers(m, k, a)
  }

  /** [lo, hi) is tiled by free regions. */
  ghost predicate Tiled(m: Regions, lo: nat, hi: nat) {
    && lo in m && lo < hi
    && (forall k :: k in m && lo <= k < hi ==> !m[k].mapped && k + m[k].size <= hi)
    && (forall a: nat :: lo <= a < hi ==> CoveredFrom(m, lo, a))
  }

  /** `m'` is `m` with the free regions tiling [lo, hi) merged into one. */
  ghost predicate MergedTo(m: Regions, m': Regions, lo: nat, hi: nat) {
    RegionsOk(m) && RegionsOk(m') && Tiled(m, lo, hi) && MergedShape(m, m', lo, hi)
  }

  ghost predicate MergedShape(m: Regions, m': Regions, lo: nat, hi: nat) {
    && lo in m' && lo < hi && m'[lo] == FreeRegion(lo, hi - lo)
    && (forall k :: k in m' && k != lo ==> !(lo <= k < hi) && k in m && m'[k] == m[k])
    && (forall k :: k in m && !(lo <= k < hi) ==> k in m')
  }

  lemma MergedShapeOk(m: Regions, m': Regions, lo: nat, hi: nat)
    requires RegionsOk(m) && Tiled(m, lo, hi) && MergedShape(m, m', lo, hi)
    ensures MergedTo(m, m', lo, hi)
  {
  }

  /** No other region starts inside a region. */
  lemma OnlyStart(m: Regions, k: nat)
    requires RegionsOk(m) && k in m
    ensures m[k].size > 0 && forall j :: j in m && k <= j < k + m[k].size ==> j == k
  {
  }

  /** Some boundary of `m` lies strictly inside (lo, hi). */
  ghost predicate Inside(m: Regions, lo: nat, hi: nat) {
    exists k :: k in m && lo < k < hi
  }

  lemma MergeAlone(m: Regions, k: nat)
    requires RegionsOk(m) && k in m && !m[k].mapped
    ensures MergedTo(m, m, k, k + m[k].size) && !Inside(m, k, k + m[k].size)
  {
    forall a: nat | k <= a < k + m[k].size ensures CoveredFrom(m, k, a) {
      assert Covers(m, k, a);
    }
    assert forall k' :: k' in m && k <= k' < k + m[k].size ==> k' == k;
  }

  lemma TiledLeft(m: Regions, lo: nat, hi: nat, p: nat)
    requires RegionsOk(m) && Tiled(m, lo, hi)
    requires p in m && p < lo && !m[p].mapped && p + m[p].size == lo
    ensures Tiled(m, p, hi) && Inside(m, p, hi)
  {
    forall a: nat | p <= a < hi ensures CoveredFrom(m, p, a) {
      if a < lo { assert Covers(m, p, a); } else { assert CoveredFrom(m, lo, a); }
    }
    assert forall k :: k in m && p <= k < lo ==> k == p;
  }

  lemma MergeLeft(m: Regions, m': Regions, lo: nat, hi: nat, p: nat, r: Regions)
    requires MergedTo(m, m', lo, hi)
    requires p in m' && p < lo && !m'[p].mapped && p + m'[p].size == lo
    requires r == (m' - {lo})[p := FreeRegion(p, m'[p].size + m'[lo].size)]
    ensures MergedTo(m, r, p, hi) && Inside(m, p, hi)
  {
    hide RegionsOk, Tiled, Inside;
    TiledLeft(m, lo, hi, p);
    OnlyStart(m, p);
    assert MergedShape(m, r, p, hi);
    MergedShapeOk(m, r, p, hi);
  }

  lemma TiledRight(m: Regions, lo: nat, hi: nat)
    requires RegionsOk(m) && Tiled(m, lo, hi) && hi in m && !m[hi].mapped
    ensures Tiled(m, lo, hi + m[hi].size) && Inside(m, lo, hi + m[hi].size)
  {
    var end := hi + m[hi].size;
    forall a: nat | lo <= a < end ensures CoveredFrom(m, lo, a) {
      if a >= hi { assert Covers(m, hi, a); } else { assert CoveredFrom(m, lo, a); }
    }
    assert forall k :: k in m && hi <= k < end ==> k == hi;
  }

  lemma MergeRight(m: Regions, m': Regions, lo: nat, hi: nat, r: Regions)
    requires MergedTo(m, m', lo, hi)
    requires hi in m' && !m'[hi].mapped
    requires r == (m' - {hi})[lo := FreeRegion(lo, m'[lo].size + m'[hi].size)]
    ensures hi in m && m[hi] == m'[hi] && m[hi].size > 0
    ensures MergedTo(m, r, lo, hi + m[hi].size) && Inside(m, lo, hi + m[hi].size)
  {
    hide RegionsOk, Tiled, Inside;
    TiledRight(m, lo, hi);
    OnlyStart(m, hi);
    assert MergedShape(m, r, lo, hi + m[hi].size);
    MergedShapeOk(m, r, lo, hi + m[hi].size);
  }

  /** Merging the whole run around the only touching boundaries leaves nothing to coalesce. */
  lemma MergedCoalesced(m: Regions, m': Regions, lo: nat, hi: nat, from: nat, to: nat)
    requires MergedTo(m, m', lo, hi) && TouchOnly(m, from, to)
    requires lo <= from && to <= hi
    requires forall p :: p in m' && p < lo && p + m'[p].size == lo ==> m'[p].mapped
    requires hi in m' ==> m'[hi].mapped
    ensures Coalesced(m')
  {
    forall y: nat ensures !TouchAt(m', y) {
      forall x: nat ensures !TouchingFree(m', x, y) {
        assert TouchingFree(m', x, y) && x != lo && y != lo ==> TouchingFree(m, x, y);
        assert TouchingFree(m, x, y) ==> TouchAt(m, y);
      }
    }
  }

  ghost function KeysFrom(m: Regions, a: nat): set<nat> {
    set k | k in m && k >= a
  }

  lemma KeysFromShrinks(m: Regions, a: nat, b: nat)
    requires a in m && a < b
    ensures KeysFrom(m, b) < KeysFrom(m, a)
  {
    assert a in KeysFrom(m, a) && a !in KeysFrom(m, b);
  }

  lemma FreeAt(m: Regions, k: nat)
    requires RegionsOk(m) && k in m && !m[k].mapped
    ensures m[k] == FreeRegion(k, m[k].size)
  {
  }

  /** When the region before `it` is not free and touching, no free region touches `it` from the left. */
  lemma LeftDone(m: Regions, it: nat, found: bool, p: nat)
    requires RegionsOk(m) && it in m
    requires found <==> exists k :: k in m && k < it
    requires found ==> p in m && p < it && forall k :: k in m && k < it ==> k <= p
    requires !(found && !m[p].mapped && p + m[p].size == it)
    ensures forall q :: q in m && q < it && q + m[q].size == it ==> m[q].mapped
  {
  }

  /** When the region after `it` is not free and touching, no free region touches `it` from the right. */
  lemma RightDone(m: Regions, it: nat, found: bool, n: nat)
    requires RegionsOk(m) && it in m
    requires found <==> exists k :: k in m && it < k
    requires found ==> n in m && it < n && forall k :: k in m && it < k ==> n <= k
    requires !(found && !m[n].mapped && it + m[it].size == n)
    ensures it + m[it].size in m ==> m[it + m[it].size].mapped
  {
  }

  /** A run that cannot be extended to the right reaches the end of the free range around it. */
  lemma MergedReaches(m: Regions, m': Regions, lo: nat, hi: nat, to: nat)
    requires MergedTo(m, m', lo, hi)
    requires forall a: nat :: hi <= a < to ==> Meaning(m, a) == Free
    requires hi in m' ==> m'[hi].mapped
    ensures to <= hi
  {
    if hi < to {
      var k := MeaningFree(m, hi);
      assert false;
    }
  }

  lemma MergedMeaning(m: Regions, m': Regions, lo: nat, hi: nat, a: nat)
    requires MergedTo(m, m', lo, hi)
    ensures Meaning(m', a) == Meaning(m, a)
  {
    if lo <= a < hi {
      assert CoveredFrom(m, lo, a);
      var k: nat :| lo <= k && Covers(m, k, a);
      MeaningAt(m, k, a);
      MeaningAt(m', lo, a);
    } else if k: nat :| Covers(m, k, a) {
      MeaningAt(m, k, a);
      assert !(lo <= k < hi);
      MeaningAt(m', k, a);
    } else if k: nat :| Covers(m', k, a) {
      assert Covers(m, k, a);
    }
  }
}
