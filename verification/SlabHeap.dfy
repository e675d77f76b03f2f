/** rt_malloc and rt_free of the slab allocator (slab.c), in place. */
module SlabHeap {
  import opened Arith
  import opened SortedList
  import opened SlabPages
  import opened SlabZone
  import opened Slab
  import opened SlabKeep

  const NULL := -1
  const WORD := 0x1_0000_0000

  /** ZALLOC_MIN_ZONE_SIZE, ZALLOC_MAX_ZONE_SIZE and ZALLOC_ZONE_LIMIT. */
  const MIN_ZONE := 0x8000
  const MAX_ZONE := 0x2_0000
  const ZONE_LIMIT := 0x4000

  // ----- pages in use and free pages -----

  ghost predicate Occupied(blocks: map<int, nat>, p: int) {
    exists b :: b in blocks && In(p, b, blocks[b])
  }

  /** Every page of the heap is free or in exactly one block. */
  ghost predicate PagesOk(blocks: map<int, nat>, list: seq<Span>, total: nat) {
    && (forall b :: b in blocks ==> 0 <= b && b + blocks[b] <= total)
    && (forall p :: 0 <= p < total ==> (Has(list, p) <==> !Occupied(blocks, p)))
  }

  lemma BlockPage(blocks: map<int, nat>, b: int, p: int)
    requires b in blocks && In(p, b, blocks[b])
    ensures Occupied(blocks, p)
  {
  }

  /** Pages that were free are fresh, and become a block. */
  lemma PagesTake(s: State, list: seq<Span>, list': seq<Span>, total: nat, b: int, n: nat)
    requires Inv(s) && PagesOk(s.blocks, list, total) && n > 0 && 0 <= b && b + n <= total
    requires forall p :: In(p, b, n) ==> Has(list, p)
    requires forall p :: Has(list', p) <==> Has(list, p) && !In(p, b, n)
    ensures Fresh(s, b, n) && b !in s.blocks && PagesOk(s.blocks[b := n], list', total)
  {
    hide Has;
    forall q | q in s.blocks ensures b + n <= q || q + s.blocks[q] <= b {
      forall p | In(p, b, n) ensures !(q <= p < q + s.blocks[q]) {
        if q <= p < q + s.blocks[q] { BlockPage(s.blocks, q, p); }
      }
      Overlap(Span(q, s.blocks[q]), b, n);
    }
    assert b !in s.blocks;
    var blocks := s.blocks[b := n];
    forall p | 0 <= p < total ensures Has(list', p) <==> !Occupied(blocks, p) {
      if Occupied(s.blocks, p) {
        var q :| q in s.blocks && In(p, q, s.blocks[q]);
        BlockPage(blocks, q, p);
      }
      if In(p, b, n) { BlockPage(blocks, b, p); }
      if Occupied(blocks, p) {
        var q :| q in blocks && In(p, q, blocks[q]);
        if q != b { BlockPage(s.blocks, q, p); }
      }
    }
  }

  /** A block that is no longer one can be freed. */
  lemma PagesGive(s: State, blocks: map<int, nat>, list: seq<Span>, total: nat, b: int, n: nat)
    requires Inv(s) && PagesOk(blocks, list, total) && b in blocks && blocks[b] == n && s.blocks == blocks - {b}
    requires Fresh(s, b, n)
    ensures 0 <= b && b + n <= total && forall p :: In(p, b, n) ==> !Has(list, p)
    ensures forall list' ::
              (forall p :: Has(list', p) <==> Has(list, p) || In(p, b, n)) ==> PagesOk(s.blocks, list', total)
  {
    hide Has;
    forall p | In(p, b, n) ensures !Has(list, p) { BlockPage(blocks, b, p); }
    forall p | 0 <= p < total ensures Occupied(s.blocks, p) <==> Occupied(blocks, p) && !In(p, b, n) {
      if Occupied(s.blocks, p) {
        var q :| q in s.blocks && In(p, q, s.blocks[q]);
        BlockPage(blocks, q, p);
      }
      if Occupied(blocks, p) && !In(p, b, n) {
        var q :| q in blocks && In(p, q, blocks[q]);
        BlockPage(s.blocks, q, p);
      }
    }
  }

  // ----- sizes -----

  /** The pages of a large request. RT_ALIGN wraps around. */
  function PagesFor(size: nat): nat {
    (size + PAGE - 1) % WORD / PAGE
  }

  /** A request whose alignment wraps around asks for no pages, which rt_page_alloc refuses;
      all others are covered by their pages. */
  lemma PagesCover(size: nat)
    requires 0 < size < WORD
    ensures PagesFor(size) == 0 <==> size + PAGE - 1 >= WORD
    ensures PagesFor(size) > 0 ==> size <= PagesFor(size) * PAGE < size + PAGE
  {
  }

  /** The zone size that rt_system_heap_init chooses for a heap of this size. */
  function ZoneSize(limsize: nat): nat {
    if limsize / 1024 <= 0x1_0000 then 0x8000 else if limsize / 1024 <= 0x2_0000 then 0x1_0000 else 0x2_0000
  }

  /** The loop that doubles the zone size. */
  method ChooseZoneSize(limsize: nat) returns (zoneSize: nat)
    ensures zoneSize == ZoneSize(limsize)
  {
    zoneSize := MIN_ZONE;
    while zoneSize < MAX_ZONE && zoneSize * 2 < limsize / 1024
      invariant zoneSize == 0x8000 || zoneSize == 0x1_0000 || zoneSize == 0x2_0000
      invariant zoneSize <= ZoneSize(limsize)
      decreases MAX_ZONE - zoneSize
    {
      zoneSize := zoneSize * 2;
    }
  }

  /** No span has n pages, or none are asked for. */
  ghost predicate NoRoom(list: seq<Span>, n: nat) {
    n == 0 || forall i :: 0 <= i < |list| ==> list[i].n < n
  }

  ghost predicate Limits(zonePages: nat, limit: nat) {
    && (zonePages == 8 || zonePages == 16 || zonePages == 32)
    && limit == (if zonePages == 8 then 0x2000 else 0x4000)
  }

  /** A small request fits a class with at least four chunks' space in a zone. */
  lemma SmallFits(size: nat, zonePages: nat, limit: nat)
    requires Limits(zonePages, limit) && 0 < size < limit
    ensures 0 <= ZoneIndex(size) < ZONES && size <= ClassSize(ZoneIndex(size))
    ensures ClassSize(ZoneIndex(size)) * 4 <= zonePages * PAGE
  {
    hide ZoneIndex, ChunkSize;
    SmallestClass(size);
    var i := ZoneIndex(size);
    if i < 71 { ClassesAscend(i, 71); }
    if i < 63 { ClassesAscend(i, 63); }
  }

  /** The pages of the page table: four bytes for every page. */
  function TablePages(total: nat): nat {
    (total * 4 + PAGE - 1) / PAGE
  }

  // ----- alignment -----

  /** The address a in a heap from page `start` on is a multiple of the size exactly when its
      page z is. */
  ghost predicate LikePage(start: nat, a: int, z: int, size: nat)
    requires size > 0
  {
    (start * PAGE + a) % size == 0 <==> (start + z) * PAGE % size == 0
  }

  /** A chunk for a power-of-two request is aligned to it exactly when the zone is. */
  lemma PowerAligned(s: State, z: nat, a: int, size: nat, start: nat)
    requires Inv(s) && InUse(s, z, a) && PowerOfTwo(size) && size < 16384
    requires s.zones[z].chunk == ClassSize(ZoneIndex(size))
    ensures LikePage(start, a, z, size)
  {
    hide Inv;
    ZoneIs(s, z);
    PowerClass(size);
    var x, c := s.zones[z], if size < 8 then 8 else size;
    assert PowerOfTwo(8) by { assert PowerOfTwo(4) && PowerOfTwo(2); }
    hide ZoneIndex, ClassSize;
    AlignedLikeZone(x, z * PAGE, s.pages * PAGE, a, start * PAGE);
    assert start * PAGE + z * PAGE == (start + z) * PAGE;
    if size < 8 {
      PowersBelow(size);
      hide PowerOfTwo;
      Multiple8(start * PAGE + a);
      Multiple8((start + z) * PAGE);
    }
  }

  lemma Multiple8(x: nat)
    requires x % 8 == 0
    ensures x % 2 == 0 && x % 4 == 0
  {
    ModExact(x / 8 * 2, 4);
    ModExact(x / 8 * 4, 2);
  }

  /** Every page is aligned to the powers of two up to its size. */
  lemma SmallPowersAligned(start: nat, a: int, z: nat, size: nat)
    requires PowerOfTwo(size) && size <= PAGE && LikePage(start, a, z, size)
    ensures (start * PAGE + a) % size == 0
  {
    hide PowerOfTwo;
    var q := DividesPage(size);
    PageMultiple(start + z, q, size);
  }

  lemma DividesPage(size: nat) returns (q: nat)
    requires PowerOfTwo(size) && size <= PAGE
    ensures size > 0 && PAGE == q * size
  {
    PowersBelow(size);
    hide PowerOfTwo;
    q := if size == 1 then 4096 else if size == 2 then 2048 else if size == 4 then 1024 else if size == 8 then 512
         else if size == 16 then 256 else if size == 32 then 128 else if size == 64 then 64 else if size == 128 then 32
         else if size == 256 then 16 else if size == 512 then 8 else if size == 1024 then 4 else if size == 2048 then 2
         else 1;
  }

  lemma PageMultiple(p: nat, q: nat, size: nat)
    requires size > 0 && PAGE == q * size
    ensures p * PAGE % size == 0
  {
    assert p * PAGE == (p * q) * size;
    ModExact(p * q, size);
  }

  lemma PageIsPage(start: nat, z: nat, size: nat)
    requires size > 0
    ensures LikePage(start, z * PAGE, z, size)
  {
    assert start * PAGE + z * PAGE == (start + z) * PAGE;
  }

  lemma ZoneIs(s: State, z: int)
    requires Inv(s) && z in s.zones
    ensures z >= 0 && ZoneOk(s.zones[z], z * PAGE, s.pages * PAGE)
  {
    assert ZoneAt(s, z);
  }

  /** A heap with nothing but the page table. */
  function Start(zonePages: nat, table: nat): State {
    State(zonePages, map[], seq(ZONES, _ => []), [], map[], map[], map[0 := table])
  }

  lemma StartOk(zonePages: nat, table: nat)
    requires zonePages > 0 && table > 0
    ensures var s := Start(zonePages, table); Inv(s) && OneEmpty(s) && Accounted(s, table)
  {
  }

  lemma TableFits(total: nat)
    requires total > 0
    ensures 0 < TablePages(total) <= total
  {
  }

  lemma StartPages(list: seq<Span>, total: nat, n: nat)
    requires 0 < n <= total && forall p :: Has(list, p) <==> Has([Span(0, total)], p) && !In(p, 0, n)
    ensures PagesOk(map[0 := n], list, total)
  {
    var l := [Span(0, total)];
    forall q | 0 <= q < total ensures Has(list, q) <==> !Occupied(map[0 := n], q) {
      assert l[0].start <= q < End(l[0]);
      if In(q, 0, n) { BlockPage(map[0 := n], 0, q); }
    }
  }

  class Heap {
    const start: nat
    const pages: PageHeap
    const zonePages: nat
    const limit: nat
    var zones: map<int, Zone>
    var lists: seq<seq<int>>
    var idle: seq<int>
    var usage: map<int, Usage>
    ghost var spec: State

    /** The heap, but for what it keeps of the chunks given back. */
    ghost predicate Sound()
      reads this, pages
    {
      && pages.Valid() && Limits(zonePages, limit)
      && spec.pages == zonePages && spec.zones == zones && spec.lists == lists
      && spec.idle == idle && spec.usage == usage
      && Inv(spec) && PagesOk(spec.blocks, pages.list, pages.total) && Accounted(spec, TablePages(pages.total))
    }

    /** ZONE_RELEASE_THRESH idle zones at most, and of each class at most one zone that is empty. */
    ghost predicate Valid()
      reads this, pages
    {
      Sound() && OneEmpty(spec) && |idle| <= KEEP_IDLE
    }

    /** Class i has a zone with a free chunk. */
    ghost predicate Stocked(i: int)
      reads this
    {
      0 <= i < |lists| && lists[i] != []
    }

    /** rt_system_heap_init for a heap from page `start` of the memory on: the zone size grows
        with the heap, and the page table takes the first pages. Pages and addresses count
        from there. */
    constructor (start: nat, total: nat)
      requires start > 0 && total > 0 && (start + total) * PAGE <= WORD
      ensures Valid() && fresh(pages) && pages.total == total && this.start == start
      ensures zonePages * PAGE == ZoneSize(total * PAGE)
      ensures zones == map[] && spec.large == map[] && spec.blocks == map[0 := TablePages(total)]
      ensures pages.list == AllocSpans([Span(0, total)], 0, TablePages(total))
      ensures idle == [] && forall i :: !Stocked(i)
    {
      hide Inv, OneEmpty, Accounted, PagesOk, Has, TablePages;
      this.start := start;
      var heap := new PageHeap(total);
      pages := heap;
      var zoneSize := ChooseZoneSize(total * PAGE);
      limit := if zoneSize / 4 > ZONE_LIMIT then ZONE_LIMIT else zoneSize / 4;
      zonePages := zoneSize / PAGE;
      var n := TablePages(total);
      TableFits(total);
      zones, lists, idle, usage := map[], seq(ZONES, _ => []), [], map[];
      StartOk(zoneSize / PAGE, n);
      spec := Start(zoneSize / PAGE, n);
      new;
      ghost var l := pages.list;
      var p := pages.Alloc(n);
      assert l[0].n >= n;
      assert p == 0;
      StartPages(pages.list, total, n);
    }

    /** A chunk of a zone that has one. */
    method TakeChunk(i: nat) returns (a: int, ghost z: int)
      requires Valid() && i < ZONES && lists[i] != []
      modifies `zones, `lists, `spec
      ensures Valid() && spec.large == old(spec.large)
      ensures a > 0 && InUse(spec, z, a) && spec.zones[z].chunk == ClassSize(i) && !InUse(old(spec), z, a)
      ensures forall y, b :: InUse(spec, y, b) <==> InUse(old(spec), y, b) || (y == z && b == a)
      ensures z == old(lists)[i][0]
    {
      hide TablePages, Inv, Live;
      ListCount(spec);
      FirstZone(spec, i);
      TakeKeeps(spec, i);
      var first := lists[i][0];
      z := first;
      var x := zones[first];
      ClassOf(spec, z);
      spec := TakeStep(spec, i);
      x := x.(nfree := x.nfree - 1);
      if x.nfree == 0 {
        lists := lists[i := lists[i][1..]];
      }
      if x.uindex + 1 != x.nmax {
        x := x.(uindex := x.uindex + 1);
        a := x.base + x.uindex * x.chunk;
      } else {
        a := x.free[0];
        x := x.(free := x.free[1..]);
      }
      zones := zones[first := x];
      assert InUse(spec, z, a);
      BusyKeeps(old(spec), spec, z, a);
      BehindHeader(spec, z, a);
    }

    /** The page table entries of a new zone. */
    method Mark(z: int)
      requires Limits(zonePages, limit)
      modifies `usage
      ensures usage == MarkPages(old(usage), z, zonePages)
    {
      var off := 0;
      while off < zonePages
        invariant 0 <= off <= zonePages && usage == MarkPages(old(usage), z, off)
      {
        usage := usage[z + off := Usage(Small, off)];
        off := off + 1;
      }
    }

    /** Zone z, idle or new, is set up for class i and hands out its first chunk. */
    method Setup(i: nat) returns (a: int, ghost z: int)
      requires Valid() && i < ZONES && idle != [] && ClassSize(i) * 4 <= zonePages * PAGE
      modifies `zones, `lists, `idle, `spec
      ensures Valid() && spec.large == old(spec.large) && z == old(idle)[0] && idle == old(idle)[1..]
      ensures a > 0 && InUse(spec, z, a) && spec.zones[z].chunk == ClassSize(i) && !InUse(old(spec), z, a)
      ensures forall y, b :: InUse(spec, y, b) <==> InUse(old(spec), y, b) || (y == z && b == a)
    {
      hide TablePages, Inv, Live;
      ListCount(spec);
      SetupKeeps(spec, i);
      var zone := idle[0];
      z := zone;
      idle := idle[1..];
      spec := SetupStep(spec.(idle := spec.idle[1..]), zone, i);
      var size := ClassSize(i);
      var off := FirstOffset(size);
      var nmax := (zonePages * PAGE - off) / size;
      zones := zones[zone := Zone(i, size, zone * PAGE + off, nmax, nmax - 1, 0, [])];
      a := zone * PAGE + off;
      lists := lists[i := [zone] + lists[i]];
      assert InUse(spec, z, a);
      BusyKeeps(old(spec), spec, z, a);
      BehindHeader(spec, z, a);
    }

    /** A zone from the page allocator. */
    method NewIdle() returns (ok: bool)
      requires Valid() && idle == []
      modifies pages, `usage, `idle, `spec
      ensures Valid() && spec.large == old(spec.large)
      ensures ok <==> !NoRoom(old(pages.list), zonePages)
      ensures ok ==>
                var k := Fit(old(pages.list), zonePages);
                k < |old(pages.list)| && idle == [old(pages.list)[k].start] + old(idle)
      ensures !ok ==> idle == old(idle)
      ensures forall y, b :: InUse(spec, y, b) <==> InUse(old(spec), y, b)
    {
      hide TablePages, Inv, PagesOk, Live, OneEmpty, Accounted;
      ghost var l := pages.list;
      var zone := pages.Alloc(zonePages);
      if zone == NO_PAGE {
        assert pages.list == l;
        return false;
      }
      PagesTake(spec, l, pages.list, pages.total, zone, zonePages);
      BlocksKeep(spec, zone, 0, TablePages(pages.total));
      AdoptKeeps(spec, zone);
      spec := AdoptStep(spec, zone);
      Mark(zone);
      idle := [zone] + idle;
      return true;
    }

    /** rt_malloc. A small request gets a chunk of the smallest class that is large enough; a
        large one gets whole pages. Nothing else changes, and on failure nothing at all. A
        request fails exactly if it is 0, wraps around, or finds neither a chunk nor pages. A
        power of two is aligned to itself exactly when the first page of the zone or of the
        pages it gets is, which is always so up to the page size. */
    method Malloc(size: nat) returns (a: int, ghost z: int)
      requires Valid() && size < WORD
      modifies this, pages
      ensures Valid()
      ensures a == NULL <==>
                || size == 0
                || (size < limit && old(!Stocked(ZoneIndex(size)) && idle == [] && NoRoom(pages.list, zonePages)))
                || (size >= limit && old(NoRoom(pages.list, PagesFor(size))))
      ensures a == NULL ==>
                spec.large == old(spec.large) && forall y, b :: InUse(spec, y, b) <==> InUse(old(spec), y, b)
      ensures a != NULL && size < limit ==>
                && InUse(spec, z, a) && !InUse(old(spec), z, a)
                && spec.zones[z].chunk == ClassSize(ZoneIndex(size)) >= size
                && spec.large == old(spec.large)
                && forall y, b :: InUse(spec, y, b) <==> InUse(old(spec), y, b) || (y == z && b == a)
      ensures a != NULL && size >= limit ==>
                && a == z * PAGE && z !in old(spec.blocks) && spec.large == old(spec.large)[z := PagesFor(size)]
                && spec.large[z] * PAGE >= size
                && forall y, b :: InUse(spec, y, b) <==> InUse(old(spec), y, b)
      ensures a != NULL && size < limit && old(!Stocked(ZoneIndex(size)) && idle == []) ==>
                var k := Fit(old(pages.list), zonePages);
                k < |old(pages.list)| && z == old(pages.list)[k].start
      ensures a != NULL && size < limit && old(Stocked(ZoneIndex(size))) ==>
                z == old(lists)[ZoneIndex(size)][0] && idle == old(idle) && pages.list == old(pages.list)
      ensures a != NULL && size < limit && old(!Stocked(ZoneIndex(size)) && idle != []) ==>
                z == old(idle)[0] && idle == old(idle)[1..] && pages.list == old(pages.list)
      ensures a != NULL && PowerOfTwo(size) ==> LikePage(start, a, z, size)
      ensures a != NULL && PowerOfTwo(size) && size <= PAGE ==> (start * PAGE + a) % size == 0
    {
      hide TablePages, Inv, PagesOk, Live, ClassSize, ZoneIndex, NoRoom, Fit, LikePage, PagesFor, PowerOfTwo;
      a, z := MallocAny(size);
      if a != NULL && PowerOfTwo(size) {
        if size < limit {
          ZoneIs(spec, z);
          PowerAligned(spec, z, a, size, start);
        } else {
          PageIsPage(start, z, size);
        }
        if size <= PAGE { SmallPowersAligned(start, a, z, size); }
      }
    }

    method MallocAny(size: nat) returns (a: int, ghost z: int)
      requires Valid() && size < WORD
      modifies this, pages
      ensures Valid()
      ensures a == NULL <==>
                || size == 0
                || (size < limit && old(!Stocked(ZoneIndex(size)) && idle == [] && NoRoom(pages.list, zonePages)))
                || (size >= limit && old(NoRoom(pages.list, PagesFor(size))))
      ensures a == NULL ==>
                spec.large == old(spec.large) && forall y, b :: InUse(spec, y, b) <==> InUse(old(spec), y, b)
      ensures a != NULL && size < limit ==>
                && InUse(spec, z, a) && !InUse(old(spec), z, a)
                && spec.zones[z].chunk == ClassSize(ZoneIndex(size)) >= size
                && spec.large == old(spec.large)
                && forall y, b :: InUse(spec, y, b) <==> InUse(old(spec), y, b) || (y == z && b == a)
      ensures a != NULL && size >= limit ==>
                && a == z * PAGE && z !in old(spec.blocks) && spec.large == old(spec.large)[z := PagesFor(size)]
                && spec.large[z] * PAGE >= size && z >= 0
                && forall y, b :: InUse(spec, y, b) <==> InUse(old(spec), y, b)
      ensures a != NULL && size < limit && old(!Stocked(ZoneIndex(size)) && idle == []) ==>
                var k := Fit(old(pages.list), zonePages);
                k < |old(pages.list)| && z == old(pages.list)[k].start
      ensures a != NULL && size < limit && old(Stocked(ZoneIndex(size))) ==>
                z == old(lists)[ZoneIndex(size)][0] && idle == old(idle) && pages.list == old(pages.list)
      ensures a != NULL && size < limit && old(!Stocked(ZoneIndex(size)) && idle != []) ==>
                z == old(idle)[0] && idle == old(idle)[1..] && pages.list == old(pages.list)
    {
      hide TablePages, Inv, PagesOk, Live, ClassSize, ZoneIndex, NoRoom, Fit;
      z := 0;
      if size == 0 {
        return NULL, z;
      }
      if size >= limit {
        a, z := MallocLarge(size);
        return a, z;
      }
      SmallFits(size, zonePages, limit);
      ListCount(spec);
      var i := ZoneIndex(size);
      if lists[i] != [] {
        a, z := TakeChunk(i);
        return a, z;
      }
      if idle == [] {
        var ok := NewIdle();
        if !ok {
          return NULL, z;
        }
      }
      a, z := Setup(i);
    }

    /** The large case of rt_malloc. */
    method MallocLarge(size: nat) returns (a: int, ghost z: int)
      requires Valid() && limit <= size < WORD
      modifies pages, `usage, `spec
      ensures Valid()
      ensures forall y, b :: InUse(spec, y, b) <==> InUse(old(spec), y, b)
      ensures a == NULL <==> NoRoom(old(pages.list), PagesFor(size))
      ensures a == NULL ==> spec.large == old(spec.large)
      ensures a != NULL ==>
                && a == z * PAGE && z !in old(spec.blocks) && spec.large == old(spec.large)[z := PagesFor(size)]
                && z >= 0 && PagesFor(size) * PAGE >= size
    {
      hide TablePages, Inv, PagesOk, Live, OneEmpty, Accounted;
      z := 0;
      ghost var l := pages.list;
      var n := PagesFor(size);
      PagesCover(size);
      var p := pages.Alloc(n);
      if p == NO_PAGE {
        assert pages.list == l;
        return NULL, z;
      }
      PagesTake(spec, l, pages.list, pages.total, p, n);
      BlocksKeep(spec, p, n, TablePages(pages.total));
      LargeKeeps(spec, p, n);
      spec := LargeStep(spec, p, n);
      usage := usage[p := Usage(Large, n)];
      return p * PAGE, p;
    }

    /** rt_free: exactly the chunk or the pages given are no longer in use. A zone leaves its class
        exactly if the chunk was the only one of the zone in use and the class has another zone
        with a free chunk. Then it is kept idle, or its pages are free if enough zones are. */
    method Free(a: int, ghost z: int)
      requires Valid()
      requires a != NULL ==> InUse(spec, z, a) || (a == z * PAGE && z in spec.large)
      modifies this, pages
      ensures Valid()
      ensures a == NULL ==> spec == old(spec)
      ensures a != NULL && old(InUse(spec, z, a)) ==>
                && spec.large == old(spec.large)
                && forall y, b :: InUse(spec, y, b) <==> InUse(old(spec), y, b) && !(y == z && b == a)
      ensures a != NULL && old(InUse(spec, z, a)) ==>
                && (z !in zones <==> old(OnlyChunk(spec, z, a) && HasOther(spec, z)))
                && Kept(old(idle), old(pages.list), z)
      ensures a != NULL && !old(InUse(spec, z, a)) ==>
                && spec.large == old(spec.large) - {z} && zones == old(zones) && idle == old(idle)
                && (forall p :: Has(pages.list, p) <==> Has(old(pages.list), p) || In(p, z, old(spec.large)[z]))
                && forall y, b :: InUse(spec, y, b) <==> InUse(old(spec), y, b)
    {
      hide TablePages, Inv, PagesOk, Live, OneEmpty, Accounted, OnlyChunk, HasOther;
      if a == NULL {
        return;
      }
      KindOf(spec, z, a);
      var page := a / PAGE;
      var kup := usage[page];
      if kup.kind == Large {
        FreePages(page, kup.size);
        return;
      }
      FreeChunk(page - kup.size, a);
    }

    /** Where zone z is after a chunk of it was given back, with the idle zones and the free pages
        as they were before. */
    ghost predicate Kept(idle0: seq<int>, list0: seq<Span>, z: int)
      reads this, pages
    {
      if z in zones then idle == idle0 && pages.list == list0
      else if |idle0| < KEEP_IDLE then idle == [z] + idle0 && pages.list == list0
      else idle == idle0 && forall p :: Has(pages.list, p) <==> Has(list0, p) || In(p, z, zonePages)
    }

    /** The zone case of rt_free. */
    method FreeChunk(zone: int, a: int)
      requires Valid() && InUse(spec, zone, a)
      modifies this, pages
      ensures Valid() && spec.large == old(spec.large)
      ensures forall y, b :: InUse(spec, y, b) <==> InUse(old(spec), y, b) && !(y == zone && b == a)
      ensures zone !in zones <==> old(OnlyChunk(spec, zone, a) && HasOther(spec, zone))
      ensures Kept(old(idle), old(pages.list), zone)
    {
      hide TablePages, Inv, PagesOk, Live, OneEmpty, Accounted, OnlyChunk, HasOther;
      ghost var s := spec;
      RetireTest(s, zone, a);
      GiveChunk(zone, a);
      if zones[zone].nfree == zones[zone].nmax && lists[zones[zone].zi] != [zone] {
        RetireOneEmpty(s, zone, a);
        Retire(zone);
        if |idle| > KEEP_IDLE {
          ghost var s' := spec;
          ReleaseZone();
          SameZones(s', spec);
        }
      } else {
        GiveOneEmpty(s, zone, a);
      }
    }

    /** Page p belongs to a zone that the heap keeps. */
    ghost predicate Held(p: int)
      reads this
    {
      exists z :: (z in zones || z in idle) && In(p, z, zonePages)
    }

    /** When everything has been given back, each class has at most one zone, at most
        ZONE_RELEASE_THRESH more are idle, and all other pages behind the page table are free. */
    lemma AllBack()
      requires Valid() && spec.large == map[] && forall y, b :: !InUse(spec, y, b)
      ensures forall y, z :: y in zones && z in zones && zones[y].zi == zones[z].zi ==> y == z
      ensures |lists| == ZONES && forall i :: 0 <= i < ZONES ==> |lists[i]| <= 1
      ensures |idle| <= KEEP_IDLE
      ensures forall p :: TablePages(pages.total) <= p < pages.total ==> Has(pages.list, p) || Held(p)
    {
      AllFreed(spec);
      hide Has, TablePages;
      forall p | TablePages(pages.total) <= p < pages.total && !Has(pages.list, p) ensures Held(p) {
        var b :| b in spec.blocks && In(p, b, spec.blocks[b]);
        if b in zones { assert ZoneAt(spec, b); } else { assert IdleAt(spec, b); }
      }
    }

    method FreePages(p: int, n: nat)
      requires Valid() && p in spec.large && n == spec.large[p]
      modifies pages, `usage, `spec
      ensures Valid() && spec.large == old(spec.large) - {p}
      ensures forall q :: Has(pages.list, q) <==> Has(old(pages.list), q) || In(q, p, n)
      ensures forall y, b :: InUse(spec, y, b) <==> InUse(old(spec), y, b)
    {
      hide TablePages, Inv, PagesOk, Live, OneEmpty, Accounted;
      BlocksKeep(spec, p, 0, TablePages(pages.total));
      FreeLargeKeeps(spec, p);
      LargeBlock(spec, p);
      ghost var blocks := spec.blocks;
      spec := FreeLargeStep(spec, p);
      usage := usage[p := Usage(Large, 0)];
      PagesGive(spec, blocks, pages.list, pages.total, p, n);
      pages.Free(p, n);
    }

    method GiveChunk(zone: int, a: int)
      requires Sound() && InUse(spec, zone, a) && spec.zones[zone].zi < |spec.lists|
      modifies `zones, `lists, `spec
      ensures Sound() && spec == GiveStep(old(spec), zone, a)
      ensures forall y, b :: InUse(spec, y, b) <==> InUse(old(spec), y, b) && !(y == zone && b == a)
    {
      hide TablePages, Inv, Live;
      GiveKeeps(spec, zone, a);
      ListCount(spec);
      spec := GiveStep(spec, zone, a);
      var x := zones[zone];
      x := x.(free := [a] + x.free);
      if x.nfree == 0 {
        lists := lists[x.zi := [zone] + lists[x.zi]];
      }
      x := x.(nfree := x.nfree + 1);
      zones := zones[zone := x];
    }

    /** The zone is taken out of its class list and set aside. */
    method Retire(zone: int)
      requires Sound() && zone in zones && zones[zone].zi < |lists| && Empty(zones[zone])
      modifies `zones, `lists, `idle, `spec
      ensures Sound() && spec == RetireStep(old(spec), zone)
      ensures forall y, b :: InUse(spec, y, b) <==> InUse(old(spec), y, b)
    {
      hide TablePages, Inv, Live;
      RetireKeeps(spec, zone);
      ListCount(spec);
      spec := RetireStep(spec, zone);
      var i := zones[zone].zi;
      lists := lists[i := Without(lists[i], zone)];
      zones := zones - {zone};
      idle := [zone] + idle;
    }

    /** The pages of an idle zone go back to the page allocator. */
    method ReleaseZone()
      requires Sound() && idle != []
      modifies pages, `idle, `usage, `spec
      ensures Sound() && spec.large == old(spec.large) && spec.zones == old(spec.zones) && idle == old(idle)[1..]
      ensures forall p :: Has(pages.list, p) <==> Has(old(pages.list), p) || In(p, old(idle)[0], zonePages)
      ensures forall y, b :: InUse(spec, y, b) <==> InUse(old(spec), y, b)
    {
      hide TablePages, Inv, PagesOk, Live;
      ReleaseKeeps(spec);
      IdleBlock(spec);
      ghost var blocks := spec.blocks;
      var zone := idle[0];
      spec := ReleaseStep(spec);
      idle := idle[1..];
      Clear(zone);
      PagesGive(spec, blocks, pages.list, pages.total, zone, zonePages);
      pages.Free(zone, zonePages);
    }

    method Clear(z: int)
      requires Limits(zonePages, limit)
      modifies `usage
      ensures usage == ClearPages(old(usage), z, zonePages)
    {
      var i := 0;
      while i < zonePages
        invariant 0 <= i <= zonePages && usage == ClearPages(old(usage), z, i)
      {
        usage := usage[z + i := Usage(FreePage, 0)];
        i := i + 1;
      }
    }
  }

  /** The promise that powers of two are aligned to themselves fails above a page: in a heap
      with zones of 16 pages or more 8192 is a chunk size, and the first such request is
      aligned exactly if the page behind the page table has an even number. For a heap of 17408
      pages from page 2 on that page is number 19. */
  method FirstChunk8192(start: nat, total: nat) returns (a: int)
    requires start > 0 && total > 16384 && (start + total) * PAGE <= WORD
    ensures a > 0 && ((start * PAGE + a) % 8192 == 0 <==> (start + TablePages(total)) % 2 == 0)
    ensures start == 2 && total == 17408 ==> (start * PAGE + a) % 8192 != 0
  {
    hide PowerOfTwo, Inv, PagesOk, LikePage, ZoneIndex, ClassSize, Fit, NoRoom, OneEmpty, Accounted, AllocSpans;
    var heap := new Heap(start, total);
    var n := TablePages(total);
    FirstSpan(total, heap.zonePages);
    Power8192();
    ghost var z;
    a, z := heap.Malloc(8192);
    BehindHeader(heap.spec, z, a);
    OddPage(start, n, a);
  }

  /** The free pages of a new heap start behind the page table and have room for a zone. */
  lemma FirstSpan(total: nat, zonePages: nat)
    requires total > 16384 && zonePages * PAGE == ZoneSize(total * PAGE)
    ensures zonePages == 16 || zonePages == 32
    ensures var n := TablePages(total);
            var l := AllocSpans([Span(0, total)], 0, n);
            l == [Span(n, total - n)] && Fit(l, zonePages) == 0 && !NoRoom(l, zonePages)
  {
    var n := TablePages(total);
    var l := AllocSpans([Span(0, total)], 0, n);
    assert l == [Span(n, total - n)];
    assert l[0].n >= zonePages;
  }

  lemma OddPage(start: nat, n: nat, a: int)
    requires LikePage(start, a, n, 8192)
    ensures (start * PAGE + a) % 8192 == 0 <==> (start + n) % 2 == 0
  {
  }

  lemma Power8192()
    ensures PowerOfTwo(8192)
  {
    assert PowerOfTwo(2) && PowerOfTwo(8) && PowerOfTwo(32) && PowerOfTwo(128) && PowerOfTwo(512) && PowerOfTwo(2048);
  }

  lemma ClassOf(s: State, z: int)
    requires Inv(s) && z in s.zones
    ensures s.zones[z].chunk == ClassSize(s.zones[z].zi) && s.zones[z].zi < ZONES
  {
    assert ZoneAt(s, z);
  }

  lemma BehindHeader(s: State, z: int, a: int)
    requires Inv(s) && InUse(s, z, a)
    ensures a > 0
  {
    assert ZoneAt(s, z);
    ChunkInside(s.zones[z], z * PAGE, s.pages * PAGE, a);
  }

  lemma ListCount(s: State)
    requires Inv(s)
    ensures |s.lists| == ZONES
  {
  }

  lemma LargeBlock(s: State, p: int)
    requires Inv(s) && p in s.large
    ensures p in s.blocks && s.blocks[p] == s.large[p]
  {
    assert LargeAt(s, p);
  }

  lemma IdleBlock(s: State)
    requires Inv(s) && s.idle != []
    ensures s.idle[0] in s.blocks && s.blocks[s.idle[0]] == s.pages
  {
    var z := s.idle[0];
    assert z in s.idle && IdleAt(s, z);
  }

  /** What the page table says about an address that may be freed. */
  lemma KindOf(s: State, z: int, a: int)
    requires Inv(s) && (InUse(s, z, a) || (a == z * PAGE && z in s.large))
    ensures a / PAGE in s.usage
    ensures InUse(s, z, a) ==> s.usage[a / PAGE].kind == Small && a / PAGE - s.usage[a / PAGE].size == z
    ensures !InUse(s, z, a) ==> a / PAGE == z && s.usage[z] == Usage(Large, s.large[z])
  {
    if InUse(s, z, a) {
      LookupFinds(s, z, a);
    } else {
      assert LargeAt(s, z);
    }
  }
}
