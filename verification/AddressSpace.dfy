/**
 The Windows `AddressSpace::Impl`: the region table edited in place, in step with the host's partition of
 the reserved address space into placeholders and mappings.
 */
module AddressSpace {
  import opened Basics
  import opened RegionMap

  // ----- the host

  datatype Use = Placeholder | View(fd: int, offset: nat) | Private

  datatype Block = Block(size: nat, use: Use)

  type Blocks = map<nat, Block>

  /** [addr, addr + size) is an exact run of at least two placeholders. */
  ghost predicate PlaceholderRun(b: Blocks, addr: nat, size: nat) {
    && addr in b
    && (forall k :: k in b && addr <= k < addr + size ==> b[k].use == Placeholder && k + b[k].size <= addr + size)
    && (forall a: nat :: addr <= a < addr + size ==> InBlock(b, addr, a))
    && exists k :: k in b && addr < k < addr + size
  }

  ghost predicate InBlock(b: Blocks, lo: nat, a: nat) {
    exists k: nat :: k in b && lo <= k <= a < k + b[k].size
  }

  /**
   What the host allows on reserved address space.  Each precondition is a rule of the system call: a
   split is strictly inside one placeholder, a mapping replaces one whole placeholder, an unmapping names
   one whole mapping of the right kind, and a merge takes an exact run of placeholders.
   */
  class Host {
    var blocks: Blocks

    constructor ()
      ensures blocks == map[]
    {
      blocks := map[];
    }

    /** `VirtualAlloc2` with `MEM_RESERVE_PLACEHOLDER`. */
    method Reserve(addr: nat, size: nat)
      requires size > 0 && forall k :: k in blocks ==> k + blocks[k].size <= addr || addr + size <= k
      modifies this
      ensures blocks == old(blocks)[addr := Block(size, Placeholder)]
    {
      blocks := blocks[addr := Block(size, Placeholder)];
    }

    /** `VirtualFreeEx` with `MEM_RELEASE | MEM_PRESERVE_PLACEHOLDER` on part of a placeholder. */
    method SplitPlaceholder(addr: nat, size: nat)
      requires addr in blocks && blocks[addr].use == Placeholder && 0 < size < blocks[addr].size
      modifies this
      ensures blocks == old(blocks)[addr := Block(size, Placeholder)]
                          [addr + size := Block(old(blocks)[addr].size - size, Placeholder)]
    {
      blocks := blocks[addr := Block(size, Placeholder)][addr + size := Block(blocks[addr].size - size, Placeholder)];
    }

    /** `MapViewOfFile3` with `MEM_REPLACE_PLACEHOLDER`. */
    method MapView(fd: int, addr: nat, offset: nat, size: nat)
      requires addr in blocks && blocks[addr] == Block(size, Placeholder)
      modifies this
      ensures blocks == old(blocks)[addr := Block(size, View(fd, offset))]
    {
      blocks := blocks[addr := Block(size, View(fd, offset))];
    }

    /** `VirtualAlloc2` with `MEM_REPLACE_PLACEHOLDER`. */
    method AllocPrivate(addr: nat, size: nat)
      requires addr in blocks && blocks[addr] == Block(size, Placeholder)
      modifies this
      ensures blocks == old(blocks)[addr := Block(size, Private)]
    {
      blocks := blocks[addr := Block(size, Private)];
    }

    /** `UnmapViewOfFile2` with `MEM_PRESERVE_PLACEHOLDER`. */
    method UnmapView(addr: nat)
      requires addr in blocks && blocks[addr].use.View?
      modifies this
      ensures blocks == old(blocks)[addr := Block(old(blocks)[addr].size, Placeholder)]
    {
      blocks := blocks[addr := Block(blocks[addr].size, Placeholder)];
    }

    /** `VirtualFreeEx` with `MEM_RELEASE | MEM_PRESERVE_PLACEHOLDER` on private memory. */
    method FreePrivate(addr: nat, size: nat)
      requires addr in blocks && blocks[addr] == Block(size, Private)
      modifies this
      ensures blocks == old(blocks)[addr := Block(size, Placeholder)]
    {
      blocks := blocks[addr := Block(size, Placeholder)];
    }

    /** `VirtualFreeEx` with `MEM_RELEASE | MEM_COALESCE_PLACEHOLDERS`. */
    method Coalesce(addr: nat, size: nat)
      requires PlaceholderRun(blocks, addr, size)
      modifies this
      ensures blocks == (map k | k in old(blocks) && !(addr <= k < addr + size) :: old(blocks)[k])
                          [addr := Block(size, Placeholder)]
    {
      blocks := (map k | k in blocks && !(addr <= k < addr + size) :: blocks[k])[addr := Block(size, Placeholder)];
    }
  }

  // ----- the table and the host in step

  function BlockOf(r: Region): Block {
    Block(r.size, if !r.mapped then Placeholder else if MapsView(r) then View(r.fd, r.phys) else Private)
  }

  /** The host call that `UnmapRegion` chooses for `r` is one the host allows on block `b`. */
  predicate UnmapLegal(r: Region, b: Block) {
    if UnmapsView(r) then b.use.View? else b == Block(r.size, Private)
  }

  /** On what `MapRegion` left of a region, that call is legal exactly for the removable ones. */
  lemma UnmapLegalExact(r: Region)
    requires r.mapped
    ensures UnmapLegal(r, BlockOf(r)) <==> Removable(r)
  {
    UnmapMatchesMap(r);
  }

  /** A writable file mapping at offset -1: committed as private memory, and then unmapped as a view. */
  lemma UnmapIllegal()
    ensures var r := Region(0x1000, NO_PHYS, 0x4000, ReadWrite, 3, true);
            BlockOf(r).use == Private && UnmapsView(r) && !UnmapLegal(r, BlockOf(r))
  {
  }

  ghost predicate Synced(m: Regions, b: Blocks) {
    b.Keys == m.Keys && forall k :: k in m ==> b[k] == BlockOf(m[k])
  }

  // ----- what a program sees at an address

  /** Nothing reserved, reserved but empty, private memory, or one byte of a file. */
  datatype Sight = Nothing | Empty | Memory | FileByte(fd: int, offset: nat)

  /** What the host shows at an address, from its own blocks alone. */
  ghost function Seen(b: Blocks, a: nat): Sight {
    if exists k: nat :: InBlockAt(b, k, a) then
      var k: nat :| InBlockAt(b, k, a);
      match b[k].use
      case Placeholder => Empty
      case Private => Memory
      case View(fd, offset) => FileByte(fd, offset + (a - k))
    else Nothing
  }

  ghost predicate InBlockAt(b: Blocks, k: nat, a: nat) {
    k in b && k <= a < k + b[k].size
  }

  /** What a program is promised: physical memory and writable files byte by byte, a copy of read-only files. */
  function Promised(c: Cell): Sight {
    match c
    case Unreserved => Nothing
    case Free => Empty
    case Anonymous(_, _) => Memory
    case Backed(fd, paddr, prot) => if fd != NO_FD && prot == ReadOnly then Memory else FileByte(fd, paddr)
  }

  /** In step, the host shows at every address exactly what the table promises there. */
  lemma HostShowsMeaning(m: Regions, b: Blocks, a: nat)
    requires RegionsOk(m) && Synced(m, b)
    ensures Seen(b, a) == Promised(Meaning(m, a))
  {
    if k: nat :| Covers(m, k, a) {
      MeaningAt(m, k, a);
      assert InBlockAt(b, k, a);
    } else if k: nat :| InBlockAt(b, k, a) {
      assert Covers(m, k, a);
    }
  }

  /** Where the table has physical memory, the host's view of it starts at the right place of the right file. */
  lemma ViewShowsPhysical(m: Regions, b: Blocks, k: nat, a: nat)
    requires RegionsOk(m) && Synced(m, b) && Covers(m, k, a)
    ensures k in b && (b[k].use.View? <==> Meaning(m, a).Backed? && !(Meaning(m, a).fd != NO_FD && Meaning(m, a).prot == ReadOnly))
    ensures b[k].use.View? ==>
              b[k].use.fd == Meaning(m, a).fd && b[k].use.offset + (a - k) == Meaning(m, a).paddr
  {
    MeaningAt(m, k, a);
  }

  /** Effect of `Map` on the host: [va, va + size) shows the physical memory from `phys` on, and nothing else changes. */
  lemma MapShows(m: Regions, m': Regions, b: Blocks, b': Blocks, va: nat, phys: nat, size: nat, prot: Prot, fd: int, a: nat)
    requires MapsTo(m, m', Region(va, phys, size, prot, fd, true)) && Synced(m, b) && Synced(m', b')
    ensures Seen(b', a) == if !(va <= a < va + size) then Seen(b, a)
                           else if phys == NO_PHYS || (fd != NO_FD && prot == ReadOnly) then Memory
                           else FileByte(fd, phys + (a - va))
  {
    HostShowsMeaning(m, b, a);
    HostShowsMeaning(m', b', a);
  }

  /** Effect of `Unmap` on the host: [lo, hi) is empty, and nothing else changes. */
  lemma UnmapShows(m: Regions, m': Regions, b: Blocks, b': Blocks, lo: nat, hi: nat, a: nat)
    requires UnmapsTo(m, m', lo, hi) && Synced(m, b) && Synced(m', b')
    ensures Seen(b', a) == if lo <= a < hi then Empty else Seen(b, a)
  {
    HostShowsMeaning(m, b, a);
    HostShowsMeaning(m', b', a);
  }

  /** In step, except that region `at` may be a bare placeholder on the host. */
  ghost predicate SyncedBut(m: Regions, b: Blocks, at: nat) {
    && b.Keys == m.Keys && at in m
    && b[at] == Block(m[at].size, Placeholder)
    && forall k :: k in m && k != at ==> b[k] == BlockOf(m[k])
  }

  /** What `m` says about an address, with [lo, hi) made free. */
  ghost predicate ClearedIn(m: Regions, m': Regions, lo: nat, hi: nat)
    requires RegionsOk(m) && RegionsOk(m')
  {
    forall a: nat :: Meaning(m', a) == if lo <= a < hi then Free else Meaning(m, a)
  }

  ghost predicate SameMeaning(m: Regions, m': Regions)
    requires RegionsOk(m) && RegionsOk(m')
  {
    forall a: nat :: Meaning(m', a) == Meaning(m, a)
  }

  /** Free areas that do not touch make a table in step with their placeholders. */
  lemma FreeAreas(areas: map<nat, nat>, m: Regions, b: Blocks)
    requires forall k :: k in areas ==> areas[k] > 0
    requires forall k, k' :: k in areas && k' in areas && k < k' ==> k + areas[k] < k'
    requires m == map k | k in areas :: FreeRegion(k, areas[k])
    requires b == map k | k in areas :: Block(areas[k], Placeholder)
    ensures RegionsOk(m) && Synced(m, b) && Coalesced(m)
  {
  }

  /** Address `a` lies in a region that is not waiting in `todo`. */
  ghost predicate Swept(m: Regions, todo: set<nat>, a: nat) {
    exists k: nat :: k !in todo && Covers(m, k, a)
  }

  lemma SweptNext(m: Regions, todo: set<nat>, k: nat)
    requires RegionsOk(m) && k in todo && k in m
    ensures m[k].base == k
    ensures forall a: nat :: Swept(m, todo - {k}, a) <==> Swept(m, todo, a) || Covers(m, k, a)
  {
    hide Covers;
    forall a: nat ensures Swept(m, todo - {k}, a) <==> Swept(m, todo, a) || Covers(m, k, a) {
      if j: nat :| j !in todo && Covers(m, j, a) { assert j !in todo - {k}; }
      if Covers(m, k, a) { assert k !in todo - {k}; }
    }
  }

  lemma SweptAll(m: Regions, a: nat)
    requires RegionsOk(m)
    ensures Swept(m, {}, a) <==> Reserved(m, a)
    ensures !Swept(m, m.Keys, a)
  {
    if k: nat :| k !in {} && Covers(m, k, a) { MeaningAt(m, k, a); }
  }

  class Impl {
    var regions: Regions
    const host: Host

    ghost predicate InStep()
      reads this, host
    {
      RegionsOk(regions) && Synced(regions, host.blocks)
    }

    /** What holds between public operations. */
    ghost predicate Valid()
      reads this, host
    {
      InStep() && Coalesced(regions)
    }

    /** Reserves the free areas found at start-up; no two of them touch. */
    constructor (areas: map<nat, nat>)
      requires forall k :: k in areas ==> areas[k] > 0
      requires forall k, k' :: k in areas && k' in areas && k < k' ==> k + areas[k] < k'
      ensures Valid() && fresh(host)
      ensures regions == map k | k in areas :: FreeRegion(k, areas[k])
    {
      hide RegionsOk, Coalesced, Synced;
      host := new Host();
      regions := map k | k in areas :: FreeRegion(k, areas[k]);
      new;
      var todo := areas.Keys;
      while todo != {}
        invariant todo <= areas.Keys
        invariant fresh(host)
        invariant regions == map k | k in areas :: FreeRegion(k, areas[k])
        invariant host.blocks == map k | k in areas && k !in todo :: Block(areas[k], Placeholder)
      {
        var k :| k in todo;
        host.Reserve(k, areas[k]);
        todo := todo - {k};
      }
      FreeAreas(areas, regions, host.blocks);
    }

    /** `std::prev(regions.upper_bound(a))`. */
    method Floor(a: nat) returns (k: nat)
      requires exists k: nat :: k in regions && k <= a
      ensures IsFloor(regions, k, a)
    {
      ghost var low: nat :| low in regions && low <= a;
      ghost var f := FloorExists(regions, low, a);
      assert f in regions && f <= a && forall k' :: k' in regions && k' <= a ==> k' <= f;
      k :| k in regions && k <= a && forall k' :: k' in regions && k' <= a ==> k' <= k;
    }

    /** `MapRegion`: the placeholder of a region becomes its mapping. */
    method MapRegion(r: Region)
      requires r.mapped && r.base in host.blocks && host.blocks[r.base] == Block(r.size, Placeholder)
      modifies host
      ensures host.blocks == old(host.blocks)[r.base := BlockOf(r)]
    {
      if r.phys != NO_PHYS {
        if r.fd != NO_FD && r.prot == ReadOnly {
          host.AllocPrivate(r.base, r.size);
        } else {
          host.MapView(r.fd, r.base, r.phys, r.size);
        }
      } else {
        host.AllocPrivate(r.base, r.size);
      }
    }

    /** `UnmapRegion`: the mapping of a region becomes a placeholder. */
    method UnmapRegion(r: Region)
      requires r.mapped && Removable(r) && r.base in host.blocks && host.blocks[r.base] == BlockOf(r)
      modifies host
      ensures host.blocks == old(host.blocks)[r.base := Block(r.size, Placeholder)]
    {
      UnmapMatchesMap(r);
      if (r.fd != NO_FD && r.prot != ReadOnly) || (r.fd == NO_FD && r.phys != NO_PHYS) {
        host.UnmapView(r.base);
      } else {
        host.FreePrivate(r.base, r.size);
      }
    }

    /** First half of `SplitRegion`: cut off what lies before `va`. */
    method CutFront(k: nat, va: nat)
      requires RegionsOk(regions) && SyncedBut(regions, host.blocks, k)
      requires Splittable(regions, k) && k < va < k + regions[k].size
      modifies this, host
      ensures RegionsOk(regions) && SyncedBut(regions, host.blocks, va)
      ensures CutsAt(old(regions), regions, va)
      ensures regions[va] == Piece(old(regions)[k], va - k, old(regions)[k].size - (va - k))
    {
      var region := regions[k];
      var base_offset := va - region.base;
      var next_region := Region(va, if region.mapped then region.phys + base_offset else NO_PHYS,
                                region.size - base_offset, region.prot, region.fd, region.mapped);
      region := region.(size := base_offset);
      regions := regions[k := region];
      host.SplitPlaceholder(region.base, region.size);
      if region.mapped {
        MapRegion(region);
      }
      regions := regions[va := next_region];
      assert next_region == Piece(old(regions)[k], va - k, old(regions)[k].size - (va - k));
      assert regions == SplitAt(old(regions), k, va - k);
      SplitDone(old(regions), regions, old(host.blocks), host.blocks, k, va - k, k, va);
    }

    /** Second half of `SplitRegion`: cut off what lies behind the first `size` bytes. */
    method CutBack(va: nat, size: nat)
      requires RegionsOk(regions) && SyncedBut(regions, host.blocks, va)
      requires Splittable(regions, va) && 0 < size < regions[va].size
      modifies this, host
      ensures RegionsOk(regions) && SyncedBut(regions, host.blocks, va)
      ensures CutsAt(old(regions), regions, va + size)
      ensures regions[va] == old(regions)[va].(size := size)
    {
      var region := regions[va];
      var next_addr := region.base + size;
      var next_region := Region(next_addr, if region.mapped then region.phys + size else NO_PHYS,
                                region.size - size, region.prot, region.fd, region.mapped);
      region := region.(size := size);
      regions := regions[va := region][next_addr := next_region];
      host.SplitPlaceholder(region.base, region.size);
      if region.mapped {
        MapRegion(next_region);
      }
      assert next_region == Piece(old(regions)[va], size, old(regions)[va].size - size);
      assert regions == SplitAt(old(regions), va, size);
      SplitDone(old(regions), regions, old(host.blocks), host.blocks, va, size, va + size, va);
    }

    /** `SplitRegion`: make [va, va + size) a region of its own. */
    method SplitRegion(va: nat, size: nat)
      requires InStep() && size > 0
      requires exists k: nat :: FitsIn(regions, k, va, size)
      modifies this, host
      ensures InStep() && SameMeaning(old(regions), regions)
      ensures va in regions && regions[va].size == size
      ensures NoNewAnonymous(old(regions), regions)
      ensures forall y: nat :: TouchAt(regions, y) ==> TouchAt(old(regions), y) || y == va || y == va + size
    {
      ghost var k: nat :| FitsIn(regions, k, va, size);
      var it := Floor(va);
      FloorCovers(regions, k, va, it);
      var region := regions[it];
      OpenStep(regions, host.blocks, it);
      if region.mapped {
        UnmapRegion(region);
      }
      if region.base != va {
        CutFront(it, va);
      }
      if regions[va].size != size {
        CutBack(va, size);
      }
      CloseStep(regions, host.blocks, va);
      if regions[va].mapped {
        MapRegion(regions[va]);
      }
    }

    /** The opening of `Map` and of each round of `Unmap`: find the region, split it off if it is larger. */
    method Isolate(va: nat, size: nat) returns (it: nat)
      requires InStep() && size > 0
      requires exists k: nat :: CanIsolate(regions, k, va, size)
      modifies this, host
      ensures it == va && va in regions && regions[va].size == size
      ensures InStep() && SameMeaning(old(regions), regions)
      ensures NoNewAnonymous(old(regions), regions)
      ensures forall y: nat :: TouchAt(regions, y) ==> TouchAt(old(regions), y) || y == va || y == va + size
    {
      ghost var k: nat :| CanIsolate(regions, k, va, size);
      it := Floor(va);
      FloorCovers(regions, k, va, it);
      if it != va || regions[it].size != size {
        assert FitsIn(regions, k, va, size);
        SplitRegion(va, size);
        assert Covers(regions, va, va);
        it := Floor(va);
        FloorCovers(regions, va, va, it);
      }
    }

    /** `Map`: back the free range [va, va + size). */
    method Map(va: nat, phys: nat, size: nat, prot: Prot, fd: int) returns (ptr: nat)
      requires Valid() && size > 0
      requires forall a: nat :: va <= a < va + size ==> Meaning(regions, a) == Free
      requires RegionOk(va, Region(va, phys, size, prot, fd, true))
      modifies this, host
      ensures Valid() && ptr == va
      ensures MapsTo(old(regions), regions, Region(va, phys, size, prot, fd, true))
    {
      ghost var k := FreeRangeInOneRegion(regions, va, va + size);
      assert CanIsolate(regions, k, va, size);
      var it := Isolate(va, size);
      ghost var m := regions;
      assert Covers(m, va, va);
      MeaningAt(m, va, va);
      OpenStep(m, host.blocks, va);
      var region := Region(va, phys, size, prot, fd, true);
      regions := regions[it := region];
      Occupy(m, region);
      CloseStep(regions, host.blocks, va);
      MapRegion(region);
      return region.base;
    }

    /** `std::prev(it)`, unless `it` is the first region. */
    method Previous(it: nat) returns (found: bool, p: nat)
      ensures found <==> exists k :: k in regions && k < it
      ensures found ==> p in regions && p < it && forall k :: k in regions && k < it ==> k <= p
    {
      p := 0;
      found := exists k :: k in regions && k < it;
      if found {
        p := Floor(it - 1);
      }
    }

    /** `std::next(it)`, unless `it` is the last region. */
    method Next(it: nat) returns (found: bool, n: nat)
      ensures found <==> exists k :: k in regions && it < k
      ensures found ==> n in regions && it < n && forall k :: k in regions && it < k ==> n <= k
    {
      n := 0;
      found := exists k :: k in regions && it < k;
      if found {
        ghost var high: nat :| high in regions && it < high;
        ghost var c := CeilingExists(regions, it, high);
        n :| n in regions && it < n && forall k :: k in regions && it < k ==> n <= k;
      }
    }

    /** First loop of `CoalesceFreeRegions`: absorb free regions that end where `it` begins. */
    method AbsorbLeft(it0: nat) returns (it: nat, can: bool)
      requires RegionsOk(regions) && it0 in regions && !regions[it0].mapped
      modifies this`regions
      ensures it <= it0 && MergedTo(old(regions), regions, it, it0 + old(regions)[it0].size)
      ensures can <==> Inside(old(regions), it, it0 + old(regions)[it0].size)
      ensures forall p :: p in regions && p < it && p + regions[p].size == it ==> regions[p].mapped
    {
      hide RegionsOk, Tiled, Inside;
      ghost var m, hi := regions, it0 + regions[it0].size;
      MergeAlone(m, it0);
      it, can := it0, false;
      var found: bool, p: nat := Previous(it);
      while found && !regions[p].mapped && p + regions[p].size == it
        invariant it <= it0 && MergedTo(m, regions, it, hi)
        invariant can <==> Inside(m, it, hi)
        invariant found <==> exists k :: k in regions && k < it
        invariant found ==> p in regions && p < it && forall k :: k in regions && k < it ==> k <= p
        decreases it
      {
        ghost var m' := regions;
        FreeAt(m', p);
        regions := (regions - {it})[p := regions[p].(size := regions[p].size + regions[it].size)];
        MergeLeft(m, m', it, hi, p, regions);
        it, can := p, true;
        found, p := Previous(it);
      }
      LeftDone(regions, it, found, p);
    }

    /** Second loop of `CoalesceFreeRegions`: absorb free regions that begin where `it` ends. */
    method AbsorbRight(it: nat, can0: bool, ghost m: Regions, ghost hi0: nat) returns (can: bool, ghost hi: nat)
      requires MergedTo(m, regions, it, hi0) && (can0 <==> Inside(m, it, hi0))
      modifies this`regions
      ensures hi0 <= hi && MergedTo(m, regions, it, hi) && (can <==> Inside(m, it, hi))
      ensures hi in regions ==> regions[hi].mapped
      ensures forall p :: p in regions && p < it ==> p in old(regions) && regions[p] == old(regions)[p]
    {
      hide RegionsOk, Tiled, Inside, KeysFrom;
      can, hi := can0, hi0;
      var found: bool, n: nat := Next(it);
      while found && !regions[n].mapped && it + regions[it].size == n
        invariant hi0 <= hi && MergedTo(m, regions, it, hi) && (can <==> Inside(m, it, hi))
        invariant found <==> exists k :: k in regions && it < k
        invariant found ==> n in regions && it < n && forall k :: k in regions && it < k ==> n <= k
        invariant forall p :: p in regions && p < it ==> p in old(regions) && regions[p] == old(regions)[p]
        decreases KeysFrom(m, hi)
      {
        ghost var m' := regions;
        regions := (regions - {n})[it := regions[it].(size := regions[it].size + regions[n].size)];
        MergeRight(m, m', it, hi, regions);
        KeysFromShrinks(m, hi, hi + m[hi].size);
        hi, can := hi + m[hi].size, true;
        found, n := Next(it);
      }
      RightDone(regions, it, found, n);
    }

    /** `CoalesceFreeRegions`, where [va, to) is free and free regions touch nowhere else. */
    method CoalesceFreeRegions(va: nat, ghost to: nat)
      requires InStep() && va <= to && Meaning(regions, va) == Free
      requires forall a: nat :: va <= a < to ==> Meaning(regions, a) == Free
      requires TouchOnly(regions, va, to)
      modifies this, host
      ensures Valid() && SameMeaning(old(regions), regions)
    {
      hide RegionsOk, Tiled, Inside, TouchOnly, Synced;
      ghost var m := regions;
      ghost var k := MeaningFree(m, va);
      var it := Floor(va);
      FloorCovers(m, k, va, it);
      ghost var hi := it + regions[it].size;
      var can;
      it, can := AbsorbLeft(it);
      can, hi := AbsorbRight(it, can, m, hi);
      MergedReaches(m, regions, it, hi, to);
      MergedCoalesced(m, regions, it, hi, va, to);
      forall a: nat ensures Meaning(regions, a) == Meaning(m, a) {
        MergedMeaning(m, regions, it, hi, a);
      }
      if can {
        RunOfTiles(m, host.blocks, it, hi);
        host.Coalesce(it, regions[it].size);
        MergeKeepsStep(m, regions, old(host.blocks), host.blocks, it, hi);
      } else {
        MergeNothing(m, regions, host.blocks, it, hi);
      }
    }

    /** `GetUsableRegions`: the union of all regions, mapped or not. */
    method GetUsableRegions() returns (usable: set<nat>)
      requires InStep()
      ensures forall a: nat :: a in usable <==> Reserved(regions, a)
    {
      hide Swept, RegionsOk, Synced;
      usable := {};
      var todo := regions.Keys;
      forall a: nat ensures !Swept(regions, todo, a) { SweptAll(regions, a); }
      while todo != {}
        invariant todo <= regions.Keys
        invariant forall a: nat :: a in usable <==> Swept(regions, todo, a)
      {
        var k :| k in todo;
        var region := regions[k];
        SweptNext(regions, todo, k);
        usable := usable + Interval(region.base, region.base + region.size);
        todo := todo - {k};
      }
      forall a: nat ensures Reserved(regions, a) <==> Swept(regions, {}, a) { SweptAll(regions, a); }
    }

    /** Unmap the region at `it` if it is mapped, and mark it free. */
    method FreeRegionAt(it: nat)
      requires InStep() && it in regions
      modifies this, host
      ensures regions == old(regions)[it := FreeRegion(it, old(regions)[it].size)]
      ensures Synced(regions, host.blocks)
    {
      var region := regions[it];
      OpenStep(regions, host.blocks, it);
      if region.mapped {
        UnmapRegion(region);
      }
      regions := regions[it := region.(mapped := false, fd := NO_FD, phys := NO_PHYS, prot := NoAccess)];
      ReleaseStep(old(regions), regions, host.blocks, it);
    }

    /** One round of the loop of `Unmap`: free what the region at `cur` shares with the range. */
    method UnmapRound(cur: nat, remaining: nat) returns (n: nat)
      requires InStep() && remaining > 0 && Meaning(regions, cur) != Unreserved
      requires AnonymousInside(regions, cur, cur + remaining)
      modifies this, host
      ensures 0 < n <= remaining
      ensures InStep() && ClearedIn(old(regions), regions, cur, cur + n)
      ensures AnonymousInside(regions, cur + n, cur + remaining)
      ensures forall y: nat :: TouchAt(regions, y) ==> TouchAt(old(regions), y) || y == cur || y == cur + n
    {
      ghost var k := MeaningFree(regions, cur);
      var it := Floor(cur);
      FloorCovers(regions, k, cur, it);
      var base_offset := cur - regions[it].base;
      n := regions[it].size - base_offset;
      if remaining < n { n := remaining; }
      assert CanIsolate(regions, it, cur, n);
      it := Isolate(cur, n);
      ghost var m := regions;
      FreeRegionAt(it);
      Release(old(regions), m, regions, cur, n, cur + remaining);
    }

    /** `Unmap`: free the reserved range [va, va + size). */
    method Unmap(va: nat, size: nat)
      requires Valid() && (size == 0 ==> Meaning(regions, va) == Free)
      requires forall a: nat :: va <= a < va + size ==> Meaning(regions, a) != Unreserved
      requires AnonymousInside(regions, va, va + size)
      modifies this, host
      ensures Valid() && UnmapsTo(old(regions), regions, va, va + size)
    {
      hide RegionsOk, Synced;
      var remaining, cur := size, va;
      ghost var m := regions;
      while remaining > 0
        invariant InStep() && cur + remaining == va + size && va <= cur
        invariant ClearedIn(m, regions, va, cur)
        invariant AnonymousInside(regions, cur, va + size)
        invariant TouchOnly(regions, va, cur)
      {
        var n := UnmapRound(cur, remaining);
        remaining, cur := remaining - n, cur + n;
      }
      CoalesceFreeRegions(va, va + size);
    }
  }

  // ----- whole runs

  /** Effect of `Map`: exactly the addresses of `r` change, from free to what `r` says. */
  ghost predicate MapsTo(m: Regions, m': Regions, r: Region) {
    && RegionsOk(m) && RegionsOk(m') && Coalesced(m) && Coalesced(m')
    && forall a: nat ::
         if r.base <= a < r.base + r.size then Meaning(m, a) == Free && Meaning(m', a) == CellOf(r, a)
         else Meaning(m', a) == Meaning(m, a)
  }

  /** Effect of `Unmap`: exactly the addresses of [lo, hi) become free, and all of them were reserved. */
  ghost predicate UnmapsTo(m: Regions, m': Regions, lo: nat, hi: nat) {
    && RegionsOk(m) && RegionsOk(m') && Coalesced(m) && Coalesced(m') && ClearedIn(m, m', lo, hi)
    && forall a: nat :: lo <= a < hi ==> Meaning(m, a) != Unreserved
  }

  /** Coalesced tables with the same meaning have the same free regions. */
  lemma FreeRegionsCanonical(m: Regions, m': Regions, k: nat)
    requires RegionsOk(m) && RegionsOk(m') && Coalesced(m) && Coalesced(m') && SameMeaning(m, m')
    requires k in m && !m[k].mapped
    ensures k in m' && m'[k] == m[k]
  {
    forall a: nat | k <= a < k + m[k].size ensures Meaning(m', a) == Free { MeaningAt(m, k, a); }
    var k' := FreeRangeInOneRegion(m', k, k + m[k].size);
    forall a: nat | k' <= a < k' + m'[k'].size ensures Meaning(m, a) == Free { MeaningAt(m', k', a); }
    var k'' := FreeRangeInOneRegion(m, k', k' + m'[k'].size);
  }

  /** Unmapping what was mapped restores every address and every placeholder. */
  lemma UnmapUndoesMap(m: Regions, m1: Regions, m2: Regions, r: Region)
    requires r.mapped && MapsTo(m, m1, r) && UnmapsTo(m1, m2, r.base, r.base + r.size)
    ensures SameMeaning(m, m2)
    ensures forall k :: k in m && !m[k].mapped ==> k in m2 && m2[k] == m[k]
  {
    forall k | k in m && !m[k].mapped ensures k in m2 && m2[k] == m[k] {
      FreeRegionsCanonical(m, m2, k);
    }
  }

  ghost predicate PublicStep(m: Regions, m': Regions) {
    (exists r: Region :: MapsTo(m, m', r)) || (exists lo: nat, hi: nat :: UnmapsTo(m, m', lo, hi))
  }

  ghost predicate Reserved(m: Regions, a: nat)
    requires RegionsOk(m)
  {
    Meaning(m, a) != Unreserved
  }

  lemma StepKeepsReserved(m: Regions, m': Regions, a: nat)
    requires PublicStep(m, m')
    ensures RegionsOk(m) && RegionsOk(m') && (Reserved(m', a) <==> Reserved(m, a))
  {
  }

  /** Over every run of `Map` and `Unmap` the usable address set is constant. */
  lemma {:induction false} RunKeepsReserved(run: seq<Regions>, i: nat, a: nat)
    requires i < |run| && RegionsOk(run[0])
    requires forall j :: 0 <= j < |run| - 1 ==> PublicStep(run[j], run[j + 1])
    ensures RegionsOk(run[i]) && (Reserved(run[i], a) <==> Reserved(run[0], a))
  {
    if i > 0 {
      RunKeepsReserved(run, i - 1, a);
      StepKeepsReserved(run[i - 1], run[i - 1 + 1], a);
    }
  }

  /** Freeing an isolated region at `cur` clears its addresses and keeps the rest of an unmapping possible. */
  lemma Release(m0: Regions, m: Regions, m': Regions, cur: nat, n: nat, end: nat)
    requires RegionsOk(m0) && RegionsOk(m) && SameMeaning(m0, m) && NoNewAnonymous(m0, m)
    requires cur in m && m[cur].size == n && m' == m[cur := FreeRegion(cur, n)]
    requires AnonymousInside(m0, cur, end)
    requires forall y: nat :: TouchAt(m, y) ==> TouchAt(m0, y) || y == cur || y == cur + n
    ensures RegionsOk(m') && ClearedIn(m0, m', cur, cur + n) && AnonymousInside(m', cur + n, end)
    ensures forall y: nat :: TouchAt(m', y) ==> TouchAt(m0, y) || y == cur || y == cur + n
  {
    ReplaceOk(m, cur, FreeRegion(cur, n));
    forall a: nat ensures Meaning(m', a) == if cur <= a < cur + n then Free else Meaning(m0, a) {
      ReplaceMeaning(m, cur, FreeRegion(cur, n), a);
    }
    forall y: nat | TouchAt(m', y) ensures TouchAt(m0, y) || y == cur || y == cur + n {
      ReplaceTouch(m, cur, FreeRegion(cur, n), y);
    }
  }

  lemma ReleaseStep(m: Regions, m': Regions, b: Blocks, k: nat)
    requires SyncedBut(m, b, k) && m' == m[k := FreeRegion(k, m[k].size)]
    ensures Synced(m', b)
  {
    assert m'.Keys == m.Keys;
  }

  /** A tiled run of free regions is a run of placeholders on the host. */
  lemma RunOfTiles(m: Regions, b: Blocks, lo: nat, hi: nat)
    requires Synced(m, b) && Tiled(m, lo, hi) && Inside(m, lo, hi)
    ensures PlaceholderRun(b, lo, hi - lo)
  {
    forall a: nat | lo <= a < hi ensures InBlock(b, lo, a) {
      assert CoveredFrom(m, lo, a);
      var k: nat :| lo <= k && Covers(m, k, a);
      assert k in b && lo <= k <= a < k + b[k].size;
    }
  }

  /** A merge that found no boundary to absorb needs no host call. */
  lemma MergeNothing(m: Regions, m': Regions, b: Blocks, lo: nat, hi: nat)
    requires Synced(m, b) && MergedTo(m, m', lo, hi) && !Inside(m, lo, hi)
    ensures Synced(m', b)
  {
    assert CoveredFrom(m, lo, hi - 1);
    assert m[lo] == FreeRegion(lo, hi - lo);
    assert m'.Keys == m.Keys;
  }

  lemma MergeKeepsStep(m: Regions, m': Regions, b: Blocks, b': Blocks, lo: nat, hi: nat)
    requires Synced(m, b) && MergedTo(m, m', lo, hi)
    requires b' == (map k | k in b && !(lo <= k < hi) :: b[k])[lo := Block(hi - lo, Placeholder)]
    ensures Synced(m', b')
  {
  }

  /** Mapping a free region whose ends are the only touching boundaries. */
  lemma Occupy(m: Regions, r: Region)
    requires RegionsOk(m) && r.base in m && !m[r.base].mapped && m[r.base].size == r.size
    requires r.mapped && RegionOk(r.base, r)
    requires forall y: nat :: TouchAt(m, y) ==> y == r.base || y == r.base + r.size
    ensures var m' := m[r.base := r];
            && RegionsOk(m') && Coalesced(m')
            && forall a: nat :: Meaning(m', a) ==
                 if r.base <= a < r.base + r.size then CellOf(r, a) else Meaning(m, a)
  {
    var k, m' := r.base, m[r.base := r];
    ReplaceOk(m, k, r);
    forall a: nat ensures Meaning(m', a) == if k <= a < k + r.size then CellOf(r, a) else Meaning(m, a) {
      ReplaceMeaning(m, k, r, a);
    }
    forall y: nat ensures !TouchAt(m', y) {
      if TouchAt(m', y) { ReplaceTouch(m, k, r, y); }
    }
  }

  /** `m'` is `m` with one region cut at `y`: same meaning, and at most the two pieces newly touch. */
  ghost predicate CutsAt(m: Regions, m': Regions, y: nat) {
    && RegionsOk(m) && RegionsOk(m') && SameMeaning(m, m') && NoNewAnonymous(m, m')
    && forall z: nat :: TouchAt(m', z) ==> TouchAt(m, z) || z == y
  }

  lemma OpenStep(m: Regions, b: Blocks, k: nat)
    requires Synced(m, b) && k in m
    ensures SyncedBut(m, if m[k].mapped then b[k := Block(m[k].size, Placeholder)] else b, k)
  {
    var b' := b[k := Block(m[k].size, Placeholder)];
    assert b'.Keys == m.Keys;
  }

  lemma CloseStep(m: Regions, b: Blocks, k: nat)
    requires SyncedBut(m, b, k)
    ensures Synced(m, if m[k].mapped then b[k := BlockOf(m[k])] else b)
  {
    var b' := b[k := BlockOf(m[k])];
    assert b'.Keys == m.Keys;
  }

  /** The range is region `k`, or lies in it and it can be split. */
  ghost predicate CanIsolate(m: Regions, k: nat, va: nat, size: nat) {
    FitsIn(m, k, va, size) || (k in m && k == va && size == m[k].size)
  }

  /** The range lies in region `k`, which can be split. */
  ghost predicate FitsIn(m: Regions, k: nat, va: nat, size: nat) {
    Splittable(m, k) && k <= va && va + size <= k + m[k].size
  }

  /** The host after a split of placeholder `k`, with the piece at `done` mapped again if need be. */
  function SplitBlocks(m: Regions, b: Blocks, k: nat, off: nat, done: nat): Blocks
    requires k in m && off <= m[k].size && (done == k || done == k + off)
  {
    var cut := b[k := Block(off, Placeholder)][k + off := Block(m[k].size - off, Placeholder)];
    if m[k].mapped then cut[done := BlockOf(SplitAt(m, k, off)[done])] else cut
  }

  lemma SplitKeepsStep(m: Regions, b: Blocks, b': Blocks, k: nat, off: nat, done: nat)
    requires SyncedBut(m, b, k) && 0 < off < m[k].size
    requires done == k || done == k + off
    requires b' == SplitBlocks(m, b, k, off, done)
    ensures SyncedBut(SplitAt(m, k, off), b', if done == k then k + off else k)
  {
    var m' := SplitAt(m, k, off);
    assert b'.Keys == m.Keys + {k + off} == m'.Keys;
    forall j | j in m' && j != k && j != k + off ensures b'[j] == BlockOf(m'[j]) {
      assert b'[j] == b[j] && m'[j] == m[j];
    }
  }

  lemma SplitDone(m: Regions, m': Regions, b: Blocks, b': Blocks, k: nat, off: nat, done: nat, open: nat)
    requires RegionsOk(m) && SyncedBut(m, b, k) && Splittable(m, k) && 0 < off < m[k].size
    requires (done == k && open == k + off) || (done == k + off && open == k)
    requires m' == SplitAt(m, k, off)
    requires b' == SplitBlocks(m, b, k, off, done)
    ensures RegionsOk(m') && CutsAt(m, m', k + off) && SyncedBut(m', b', open)
  {
    SplitCuts(m, k, off);
    SplitKeepsStep(m, b, b', k, off, done);
  }

  /** Splitting a region in two is a cut. */
  lemma SplitCuts(m: Regions, k: nat, off: nat)
    requires RegionsOk(m) && Splittable(m, k) && 0 < off < m[k].size
    ensures CutsAt(m, SplitAt(m, k, off), k + off)
  {
    var m' := SplitAt(m, k, off);
    SplitAtOk(m, k, off);
    forall a: nat ensures Meaning(m', a) == Meaning(m, a) {
      SplitAtMeaning(m, k, off, a);
    }
    forall z: nat | TouchAt(m', z) && z != k + off ensures TouchAt(m, z) {
      SplitAtTouch(m, k, off, z);
    }
  }
}
