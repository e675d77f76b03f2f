/** The slab heap (slab.c): zones of equal chunks on top of the page allocator, and the table
    that leads from a page back to its zone. Addresses count from the start of the heap. */
module Slab {
  import opened RingList
  import opened SortedList
  import opened SlabPages
  import opened SlabZone

  /** ZONE_RELEASE_THRESH. */
  const KEEP_IDLE := 2

  datatype Kind = FreePage | Small | Large
  datatype Usage = Usage(kind: Kind, size: nat)

  /** Zones are named by their first page. `lists[i]` are the zones of class i with free chunks,
      `idle` the zones without chunks in use that are kept for reuse. `blocks` are all runs of
      pages that the page allocator has handed out. */
  datatype State = State(pages: nat, zones: map<int, Zone>, lists: seq<seq<int>>, idle: seq<int>,
                         usage: map<int, Usage>, large: map<int, nat>, blocks: map<int, nat>)

  // ----- invariants -----

  /** The class list holds exactly the zones of the class with free chunks. */
  ghost predicate Filed(s: State, i: nat, z: int)
    requires i < |s.lists|
  {
    z in s.lists[i] <==> z in s.zones && s.zones[z].zi == i && s.zones[z].nfree > 0
  }

  /** Every page of the zone z has its distance from the zone in the table. */
  ghost predicate AllMarked(usage: map<int, Usage>, pages: nat, z: int) {
    forall p :: In(p, z, pages) ==> p in usage && usage[p] == Usage(Small, p - z)
  }

  ghost predicate Apart(blocks: map<int, nat>, p: int, q: int)
    requires p in blocks && q in blocks
  {
    p == q || p + blocks[p] <= q || q + blocks[q] <= p
  }

  ghost predicate ZoneAt(s: State, z: int)
    requires z in s.zones
  {
    && z >= 0 && ZoneOk(s.zones[z], z * PAGE, s.pages * PAGE)
    && z in s.blocks && s.blocks[z] == s.pages && AllMarked(s.usage, s.pages, z)
    && z !in s.idle && z !in s.large
  }

  ghost predicate IdleAt(s: State, z: int) {
    z >= 0 && z in s.blocks && s.blocks[z] == s.pages && AllMarked(s.usage, s.pages, z) && z !in s.large
  }

  ghost predicate LargeAt(s: State, p: int)
    requires p in s.large
  {
    p >= 0 && p in s.blocks && s.blocks[p] == s.large[p] > 0 && p in s.usage && s.usage[p] == Usage(Large, s.large[p])
  }

  ghost predicate Inv(s: State) {
    && s.pages >= 1
    && |s.lists| == ZONES
    && (forall z :: z in s.zones ==> ZoneAt(s, z))
    && (forall z :: z in s.idle ==> IdleAt(s, z))
    && (forall p :: p in s.large ==> LargeAt(s, p))
    && (forall i: nat, z :: i < ZONES ==> Filed(s, i, z))
    && (forall i :: 0 <= i < ZONES ==> Distinct(s.lists[i]))
    && Distinct(s.idle)
    && (forall p :: p in s.blocks ==> p >= 0 && s.blocks[p] > 0)
    && (forall p, q :: p in s.blocks && q in s.blocks ==> Apart(s.blocks, p, q))
  }

  // ----- what is in use -----

  /** A chunk in use. */
  ghost predicate InUse(s: State, z: int, a: int) {
    z in s.zones && Live(s.zones[z], a)
  }

  /** The zone that rt_free finds for an address. */
  function Lookup(usage: map<int, Usage>, a: int): int
    requires a / PAGE in usage
  {
    a / PAGE - usage[a / PAGE].size
  }

  /** The table maps every chunk in use back to its own zone. */
  lemma LookupFinds(s: State, z: int, a: int)
    requires Inv(s) && InUse(s, z, a)
    ensures a / PAGE in s.usage && s.usage[a / PAGE].kind == Small && Lookup(s.usage, a) == z
  {
    assert ZoneAt(s, z);
    ChunkInside(s.zones[z], z * PAGE, s.pages * PAGE, a);
    assert In(a / PAGE, z, s.pages);
  }

  /** Chunks in use never overlap, whatever zones they are in. */
  lemma UseApart(s: State, z: int, a: int, y: int, b: int)
    requires Inv(s) && InUse(s, z, a) && InUse(s, y, b) && a != b
    ensures a + s.zones[z].chunk <= b || b + s.zones[y].chunk <= a
  {
    assert ZoneAt(s, z) && ZoneAt(s, y);
    ChunkInside(s.zones[z], z * PAGE, s.pages * PAGE, a);
    ChunkInside(s.zones[y], y * PAGE, s.pages * PAGE, b);
    if z == y {
      ChunksApart(s.zones[z], z * PAGE, s.pages * PAGE, a, b);
    } else {
      assert Apart(s.blocks, z, y);
    }
  }

  /** Chunks in use and large allocations never overlap either. */
  lemma UseApartFromLarge(s: State, z: int, a: int, p: int)
    requires Inv(s) && InUse(s, z, a) && p in s.large
    ensures a + s.zones[z].chunk <= p * PAGE || (p + s.large[p]) * PAGE <= a
  {
    assert ZoneAt(s, z) && LargeAt(s, p);
    ChunkInside(s.zones[z], z * PAGE, s.pages * PAGE, a);
    assert Apart(s.blocks, z, p);
  }

  // ----- steps -----

  /** A chunk from the first zone of class i. */
  function TakeStep(s: State, i: nat): State
    requires i < |s.lists| && s.lists[i] != [] && s.lists[i][0] in s.zones
    requires var x := s.zones[s.lists[i][0]]; x.uindex + 1 == x.nmax ==> x.free != []
  {
    var z := s.lists[i][0];
    var x := TakeNext(s.zones[z]);
    s.(zones := s.zones[z := x], lists := if x.nfree == 0 then s.lists[i := s.lists[i][1..]] else s.lists)
  }

  lemma FirstZone(s: State, i: nat)
    requires Inv(s) && i < ZONES && s.lists[i] != []
    ensures var z := s.lists[i][0];
            && z in s.zones && s.zones[z].zi == i && s.zones[z].nfree > 0 && ZoneAt(s, z)
            && (s.zones[z].uindex + 1 == s.zones[z].nmax ==> s.zones[z].free != [])
  {
    var z := s.lists[i][0];
    assert z in s.lists[i] && Filed(s, i, z);
    assert ZoneAt(s, z);
    TakeOk(s.zones[z], z * PAGE, s.pages * PAGE);
  }

  /** The chunk was not in use, now it is, and nothing else changes. */
  lemma TakeKeeps(s: State, i: nat)
    requires Inv(s) && i < ZONES && s.lists[i] != []
    ensures var z := s.lists[i][0];
            && z in s.zones && (s.zones[z].uindex + 1 == s.zones[z].nmax ==> s.zones[z].free != [])
            && Inv(TakeStep(s, i))
            && !InUse(s, z, Taken(s.zones[z]))
            && forall y, a :: InUse(TakeStep(s, i), y, a) <==> InUse(s, y, a) || (y == z && a == Taken(s.zones[z]))
  {
    hide ZoneOk, Live;
    FirstZone(s, i);
    var z := s.lists[i][0];
    var x := s.zones[z];
    TakeOk(x, z * PAGE, s.pages * PAGE);
    var s' := TakeStep(s, i);
    HeadTail(s.lists[i]);
    ZoneChange(s, s', z);
    forall j: nat, y | j < ZONES ensures Filed(s', j, y) {
      assert Filed(s, j, y) && Filed(s, i, y);
    }
  }

  /** Only zone z, the class lists and nothing else may differ. */
  lemma ZoneChange(s: State, s': State, z: int)
    requires Inv(s) && z in s.zones && s' == s.(zones := s'.zones, lists := s'.lists)
    requires z in s'.zones && s'.zones == s.zones[z := s'.zones[z]]
    requires ZoneOk(s'.zones[z], z * PAGE, s.pages * PAGE)
    ensures forall y :: y in s'.zones ==> ZoneAt(s', y)
    ensures forall y :: y in s'.idle ==> IdleAt(s', y)
    ensures forall p :: p in s'.large ==> LargeAt(s', p)
  {
    hide ZoneOk;
    forall y | y in s'.zones ensures ZoneAt(s', y) {
      assert ZoneAt(s, y);
    }
    forall y | y in s'.idle ensures IdleAt(s', y) {
      assert IdleAt(s, y);
    }
    forall p | p in s'.large ensures LargeAt(s', p) {
      assert LargeAt(s, p);
    }
  }

  // ----- setting up a zone -----

  /** Zone z gets chunks for class i; the first is handed out. */
  function SetupStep(s: State, z: int, i: nat): State
    requires i < |s.lists|
  {
    s.(zones := s.zones[z := NewZone(z * PAGE, i, ClassSize(i), s.pages * PAGE)],
       lists := s.lists[i := [z] + s.lists[i]])
  }

  function SetupChunk(z: int, i: nat): int {
    z * PAGE + FirstOffset(ClassSize(i))
  }

  /** The table entries that rt_malloc writes for a new zone. */
  function MarkPages(usage: map<int, Usage>, z: int, n: nat): map<int, Usage> {
    if n == 0 then usage else MarkPages(usage, z, n - 1)[z + n - 1 := Usage(Small, n - 1)]
  }

  lemma {:induction false} MarkPagesIs(usage: map<int, Usage>, z: int, n: nat)
    ensures forall p :: p in MarkPages(usage, z, n) <==> p in usage || In(p, z, n)
    ensures forall p :: p in MarkPages(usage, z, n) ==>
              MarkPages(usage, z, n)[p] == if In(p, z, n) then Usage(Small, p - z) else usage[p]
  {
    if n > 0 { MarkPagesIs(usage, z, n - 1); }
  }

  /** A run of pages from the page allocator becomes a zone without chunks. */
  function AdoptStep(s: State, z: int): State {
    s.(usage := MarkPages(s.usage, z, s.pages), idle := [z] + s.idle, blocks := s.blocks[z := s.pages])
  }

  /** The run does not touch any other block. */
  ghost predicate Fresh(s: State, z: int, n: nat) {
    z >= 0 && n > 0 && forall p :: p in s.blocks ==> z + n <= p || p + s.blocks[p] <= z
  }

  lemma AdoptKeeps(s: State, z: int)
    requires Inv(s) && Fresh(s, z, s.pages)
    ensures Inv(AdoptStep(s, z))
    ensures forall y, a :: InUse(AdoptStep(s, z), y, a) <==> InUse(s, y, a)
  {
    hide ZoneOk, MarkPages;
    var s' := AdoptStep(s, z);
    MarkPagesIs(s.usage, z, s.pages);
    assert z !in s.blocks;
    forall j | 0 <= j < |s.idle| ensures s.idle[j] != z {
      assert s.idle[j] in s.idle && IdleAt(s, s.idle[j]);
    }
    forall y | y in s'.zones ensures ZoneAt(s', y) {
      assert ZoneAt(s, y);
      forall p | In(p, y, s.pages) ensures !In(p, z, s.pages) { }
    }
    forall y | y in s'.idle ensures IdleAt(s', y) {
      if y in s.idle {
        assert IdleAt(s, y);
        forall p | In(p, y, s.pages) ensures !In(p, z, s.pages) { }
      }
    }
    forall p | p in s'.large ensures LargeAt(s', p) {
      assert LargeAt(s, p);
      assert !In(p, z, s.pages);
    }
    forall j: nat, y | j < ZONES ensures Filed(s', j, y) {
      assert Filed(s, j, y);
    }
    forall p, q | p in s'.blocks && q in s'.blocks ensures Apart(s'.blocks, p, q) {
      if p in s.blocks && q in s.blocks { assert Apart(s.blocks, p, q); }
    }
  }

  /** rt_malloc reuses the idle zone z for class i. */
  lemma SetupKeeps(s: State, i: nat)
    requires Inv(s) && i < ZONES && s.idle != [] && ClassSize(i) * 4 <= s.pages * PAGE
    ensures ClassSize(i) > 0
    ensures var z := s.idle[0];
            var s' := SetupStep(s.(idle := s.idle[1..]), z, i);
            && Inv(s') && !InUse(s, z, SetupChunk(z, i))
            && forall y, a :: InUse(s', y, a) <==> InUse(s, y, a) || (y == z && a == SetupChunk(z, i))
  {
    hide ZoneOk, NewZone, Live;
    var z := s.idle[0];
    assert z in s.idle && IdleAt(s, z);
    var s' := SetupStep(s.(idle := s.idle[1..]), z, i);
    NewZoneOk(z * PAGE, i, ClassSize(i), s.pages * PAGE);
    HeadTail(s.idle);
    assert z !in s.zones;
    assert Filed(s, i, z);
    forall y | y in s'.zones ensures ZoneAt(s', y) {
      if y != z { assert ZoneAt(s, y); }
    }
    forall y | y in s'.idle ensures IdleAt(s', y) {
      assert IdleAt(s, y);
    }
    forall p | p in s'.large ensures LargeAt(s', p) {
      assert LargeAt(s, p);
    }
    forall j: nat, y | j < ZONES ensures Filed(s', j, y) {
      assert Filed(s, j, y);
    }
  }

  // ----- giving a chunk back -----

  /** The chunk goes to the free list, and a zone that was full to its class list. */
  function GiveStep(s: State, z: int, a: int): State
    requires z in s.zones && s.zones[z].zi < |s.lists|
  {
    var x := s.zones[z];
    s.(zones := s.zones[z := GiveNext(x, a)],
       lists := if x.nfree == 0 then s.lists[x.zi := [z] + s.lists[x.zi]] else s.lists)
  }

  /** A zone without chunks in use is set aside. */
  function RetireStep(s: State, z: int): State
    requires z in s.zones && s.zones[z].zi < |s.lists|
  {
    var i := s.zones[z].zi;
    s.(zones := s.zones - {z}, lists := s.lists[i := Without(s.lists[i], z)], idle := [z] + s.idle)
  }

  function ClearPages(usage: map<int, Usage>, z: int, n: nat): map<int, Usage> {
    if n == 0 then usage else ClearPages(usage, z, n - 1)[z + n - 1 := Usage(FreePage, 0)]
  }

  lemma {:induction false} ClearPagesIs(usage: map<int, Usage>, z: int, n: nat)
    ensures forall p :: p in ClearPages(usage, z, n) <==> p in usage || In(p, z, n)
    ensures forall p :: p in ClearPages(usage, z, n) ==>
              ClearPages(usage, z, n)[p] == if In(p, z, n) then Usage(FreePage, 0) else usage[p]
  {
    if n > 0 { ClearPagesIs(usage, z, n - 1); }
  }

  /** The first idle zone goes back to the page allocator. */
  function ReleaseStep(s: State): State
    requires s.idle != []
  {
    var z := s.idle[0];
    s.(idle := s.idle[1..], usage := ClearPages(s.usage, z, s.pages), blocks := s.blocks - {z})
  }

  /** Exactly the given chunk is no longer in use. */
  lemma GiveKeeps(s: State, z: int, a: int)
    requires Inv(s) && InUse(s, z, a)
    ensures s.zones[z].zi < |s.lists| && Inv(GiveStep(s, z, a))
    ensures forall y, b :: InUse(GiveStep(s, z, a), y, b) <==> InUse(s, y, b) && !(y == z && b == a)
  {
    hide ZoneOk, Live;
    var x := s.zones[z];
    assert ZoneAt(s, z);
    ZoneClass(x, z * PAGE, s.pages * PAGE);
    GiveOk(x, z * PAGE, s.pages * PAGE, a);
    var s' := GiveStep(s, z, a);
    ZoneChange(s, s', z);
    assert Filed(s, x.zi, z);
    forall j: nat, y | j < ZONES ensures Filed(s', j, y) {
      assert Filed(s, j, y);
    }
    forall j | 0 <= j < ZONES ensures Distinct(s'.lists[j]) {
      if j == x.zi && x.nfree == 0 { Prepend(z, s.lists[j]); }
    }
  }

  lemma Prepend(z: int, s: seq<int>)
    requires Distinct(s) && z !in s
    ensures Distinct([z] + s)
  {
  }

  lemma ZoneClass(x: Zone, z: int, zoneSize: nat)
    requires ZoneOk(x, z, zoneSize)
    ensures x.zi < ZONES && x.nfree >= 0
  {
  }

  lemma NothingLive(x: Zone, z: int, zoneSize: nat, a: int)
    requires ZoneOk(x, z, zoneSize) && x.nfree == x.nmax
    ensures !Live(x, a)
  {
    if Live(x, a) { GiveOk(x, z, zoneSize, a); }
  }

  lemma RetireKeeps(s: State, z: int)
    requires Inv(s) && z in s.zones && s.zones[z].nfree == s.zones[z].nmax
    ensures s.zones[z].zi < |s.lists| && Inv(RetireStep(s, z))
    ensures forall y, a :: InUse(RetireStep(s, z), y, a) <==> InUse(s, y, a)
  {
    hide ZoneOk, Live, Without;
    var x := s.zones[z];
    assert ZoneAt(s, z);
    ZoneClass(x, z * PAGE, s.pages * PAGE);
    forall a ensures !Live(x, a) { NothingLive(x, z * PAGE, s.pages * PAGE, a); }
    var s', i := RetireStep(s, z), x.zi;
    WithoutMembers(s.lists[i], z);
    WithoutDistinct(s.lists[i], z);
    Prepend(z, s.idle);
    forall y | y in s'.zones ensures ZoneAt(s', y) { assert ZoneAt(s, y); }
    forall y | y in s'.idle ensures IdleAt(s', y) { if y != z { assert IdleAt(s, y); } }
    forall p | p in s'.large ensures LargeAt(s', p) { assert LargeAt(s, p); }
    forall j: nat, y | j < ZONES ensures Filed(s', j, y) { assert Filed(s, j, y); }
  }

  lemma ReleaseKeeps(s: State)
    requires Inv(s) && s.idle != []
    ensures Inv(ReleaseStep(s))
    ensures forall y, a :: InUse(ReleaseStep(s), y, a) <==> InUse(s, y, a)
    ensures Fresh(ReleaseStep(s), s.idle[0], s.pages)
  {
    hide ZoneOk, ClearPages;
    var s', z := ReleaseStep(s), s.idle[0];
    assert z in s.idle && IdleAt(s, z);
    HeadTail(s.idle);
    ClearPagesIs(s.usage, z, s.pages);
    forall y | y in s'.zones ensures ZoneAt(s', y) {
      assert ZoneAt(s, y) && Apart(s.blocks, y, z);
    }
    forall y | y in s'.idle ensures IdleAt(s', y) {
      assert IdleAt(s, y) && Apart(s.blocks, y, z);
    }
    forall p | p in s'.large ensures LargeAt(s', p) {
      assert LargeAt(s, p) && Apart(s.blocks, p, z);
    }
    forall j: nat, y | j < ZONES ensures Filed(s', j, y) { assert Filed(s, j, y); }
    forall p, q | p in s'.blocks && q in s'.blocks ensures Apart(s'.blocks, p, q) { assert Apart(s.blocks, p, q); }
    forall p | p in s'.blocks ensures z + s.pages <= p || p + s'.blocks[p] <= z { assert Apart(s.blocks, p, z); }
  }

  // ----- large allocations -----

  function LargeStep(s: State, p: int, n: nat): State {
    s.(usage := s.usage[p := Usage(Large, n)], large := s.large[p := n], blocks := s.blocks[p := n])
  }

  /** rt_free of a large allocation clears the size but not the kind. */
  function FreeLargeStep(s: State, p: int): State {
    s.(usage := s.usage[p := Usage(Large, 0)], large := s.large - {p}, blocks := s.blocks - {p})
  }

  lemma LargeKeeps(s: State, p: int, n: nat)
    requires Inv(s) && Fresh(s, p, n)
    ensures Inv(LargeStep(s, p, n)) && p !in s.blocks
    ensures forall y, a :: InUse(LargeStep(s, p, n), y, a) <==> InUse(s, y, a)
  {
    hide ZoneOk;
    var s' := LargeStep(s, p, n);
    assert p !in s.blocks;
    forall y | y in s'.zones ensures ZoneAt(s', y) {
      assert ZoneAt(s, y) && !In(p, y, s.pages);
    }
    forall y | y in s'.idle ensures IdleAt(s', y) {
      assert IdleAt(s, y) && !In(p, y, s.pages);
    }
    forall q | q in s'.large ensures LargeAt(s', q) { if q != p { assert LargeAt(s, q); } }
    forall j: nat, y | j < ZONES ensures Filed(s', j, y) { assert Filed(s, j, y); }
    forall q, r | q in s'.blocks && r in s'.blocks ensures Apart(s'.blocks, q, r) {
      if q in s.blocks && r in s.blocks { assert Apart(s.blocks, q, r); }
    }
  }

  lemma FreeLargeKeeps(s: State, p: int)
    requires Inv(s) && p in s.large
    ensures Inv(FreeLargeStep(s, p))
    ensures forall y, a :: InUse(FreeLargeStep(s, p), y, a) <==> InUse(s, y, a)
    ensures Fresh(FreeLargeStep(s, p), p, s.large[p])
  {
    hide ZoneOk;
    var s' := FreeLargeStep(s, p);
    assert LargeAt(s, p);
    forall y | y in s'.zones ensures ZoneAt(s', y) {
      assert ZoneAt(s, y) && Apart(s.blocks, y, p);
    }
    forall y | y in s'.idle ensures IdleAt(s', y) {
      assert IdleAt(s, y) && Apart(s.blocks, y, p);
    }
    forall q | q in s'.large ensures LargeAt(s', q) { assert LargeAt(s, q); }
    forall j: nat, y | j < ZONES ensures Filed(s', j, y) { assert Filed(s, j, y); }
    forall q, r | q in s'.blocks && r in s'.blocks ensures Apart(s'.blocks, q, r) { assert Apart(s.blocks, q, r); }
    forall q | q in s'.blocks ensures p + s.large[p] <= q || q + s'.blocks[q] <= p { assert Apart(s.blocks, q, p); }
  }
}
