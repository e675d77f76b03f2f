/** What the slab heap (slab.c) keeps when chunks are given back: at most one zone without chunks
    in use for each class, and no pages that nobody knows of. */
module SlabKeep {
  import opened Arith
  import opened RingList
  import opened SortedList
  import opened SlabZone
  import opened Slab

  predicate Empty(x: Zone) {
    x.nfree == x.nmax
  }

  /** All the first n chunks are in the list, so it has at least n elements. */
  lemma {:induction false} AllListed(x: Zone, s: seq<int>, n: nat)
    requires Distinct(s) && x.chunk > 0 && forall k: nat :: k < n ==> Addr(x, k) in s
    ensures n <= |s|
    decreases n
  {
    hide Without;
    if n > 0 {
      var a := Addr(x, n - 1);
      WithoutMembers(s, a);
      WithoutDistinct(s, a);
      WithoutShorter(s, a);
      forall k: nat | k < n - 1 ensures Addr(x, k) in Without(s, a) {
        Different(x, k, n - 1);
      }
      AllListed(x, Without(s, a), n - 1);
    }
  }

  lemma Different(x: Zone, j: nat, k: nat)
    requires x.chunk > 0 && j < k
    ensures Addr(x, j) != Addr(x, k)
  {
    Mul(j, k, x.chunk);
  }

  /** The counter says that a zone is empty exactly when none of its chunks is in use. */
  lemma EmptyExactly(x: Zone, z: int, zoneSize: nat)
    requires ZoneOk(x, z, zoneSize)
    ensures Empty(x) <==> forall a :: !Live(x, a)
    ensures x.nmax > 0
  {
    if Empty(x) {
      forall a ensures !Live(x, a) { NothingLive(x, z, zoneSize, a); }
    } else if forall a :: !Live(x, a) {
      forall k: nat | k < x.uindex + 1 ensures Addr(x, k) in x.free {
        assert Carved(x, Addr(x, k)) && !Live(x, Addr(x, k));
      }
      AllListed(x, x.free, x.uindex + 1);
      assert forall a :: a in x.free ==> Carved(x, a);
      forall b | b in x.free ensures Numbered(x, x.uindex + 1, b) {
        assert Carved(x, b);
      }
      Pigeonhole(x, x.free, x.uindex + 1);
    }
  }

  lemma EmptyZone(s: State, z: int)
    requires Inv(s) && z in s.zones
    ensures Empty(s.zones[z]) <==> forall a :: !InUse(s, z, a)
    ensures s.zones[z].nmax > 0 && s.zones[z].zi < ZONES && z >= 0
  {
    assert ZoneAt(s, z);
    EmptyExactly(s.zones[z], z * PAGE, s.pages * PAGE);
    hide ZoneOk, Live;
    if Empty(s.zones[z]) {
      forall a ensures !InUse(s, z, a) { assert !Live(s.zones[z], a); }
    } else if forall a :: !InUse(s, z, a) {
      forall a ensures !Live(s.zones[z], a) { assert !InUse(s, z, a); }
    }
    ZoneClass(s.zones[z], z * PAGE, s.pages * PAGE);
  }

  /** No class has two zones without chunks in use. */
  ghost predicate OneEmpty(s: State) {
    forall y, z :: y in s.zones && z in s.zones && Empty(s.zones[y]) && Empty(s.zones[z]) && y != z ==>
                     s.zones[y].zi != s.zones[z].zi
  }

  /** Every block of pages is the page table, a zone, an idle zone or a large allocation. */
  ghost predicate Accounted(s: State, table: nat) {
    && 0 in s.blocks && s.blocks[0] == table && 0 !in s.zones && 0 !in s.idle && 0 !in s.large
    && forall b :: b in s.blocks ==> b == 0 || b in s.zones || b in s.idle || b in s.large
  }

  lemma Another(s: seq<int>, z: int) returns (y: int)
    requires Distinct(s) && s != [] && s != [z]
    ensures y in s && y != z
  {
    y := if s[0] == z then s[1] else s[0];
  }

  /** When everything has been given back, each class has at most one zone. */
  lemma AllFreed(s: State)
    requires Inv(s) && OneEmpty(s) && forall z, a :: !InUse(s, z, a)
    ensures forall y, z :: y in s.zones && z in s.zones && s.zones[y].zi == s.zones[z].zi ==> y == z
    ensures |s.lists| == ZONES && forall i :: 0 <= i < ZONES ==> |s.lists[i]| <= 1
  {
    hide ZoneOk, Live;
    forall z | z in s.zones ensures Empty(s.zones[z]) { EmptyZone(s, z); }
    forall i | 0 <= i < ZONES ensures |s.lists[i]| <= 1 {
      forall z | z in s.lists[i] ensures z in s.zones && s.zones[z].zi == i { assert Filed(s, i, z); }
      if |s.lists[i]| >= 2 {
        var z := Member(s.lists[i]);
        var y := Another(s.lists[i], z);
        assert false;
      }
    }
  }

  // ----- every step keeps it -----

  /** Only zone z may differ, and it has a chunk in use. */
  lemma BusyKeeps(s: State, s': State, z: int, a: int)
    requires OneEmpty(s) && Inv(s') && InUse(s', z, a)
    requires forall y :: y != z && y in s'.zones ==> y in s.zones && s'.zones[y] == s.zones[y]
    ensures OneEmpty(s')
  {
    hide Inv, Live;
    EmptyZone(s', z);
    assert !Empty(s'.zones[z]);
  }

  lemma SameZones(s: State, s': State)
    requires OneEmpty(s) && s'.zones == s.zones
    ensures OneEmpty(s')
  {
  }

  /** The steps that change no zone. */
  lemma BlocksKeep(s: State, z: int, n: nat, table: nat)
    requires OneEmpty(s) && Accounted(s, table)
    ensures z !in s.blocks ==> OneEmpty(AdoptStep(s, z)) && Accounted(AdoptStep(s, z), table)
    ensures z !in s.blocks ==> OneEmpty(LargeStep(s, z, n)) && Accounted(LargeStep(s, z, n), table)
    ensures z in s.large ==> OneEmpty(FreeLargeStep(s, z)) && Accounted(FreeLargeStep(s, z), table)
  {
    hide MarkPages;
    SameZones(s, AdoptStep(s, z));
    SameZones(s, LargeStep(s, z, n));
    SameZones(s, FreeLargeStep(s, z));
  }

  /** Chunk a is the only one of zone z in use. */
  ghost predicate OnlyChunk(s: State, z: int, a: int) {
    forall b :: InUse(s, z, b) ==> b == a
  }

  /** The class of zone z has another zone with a free chunk. */
  ghost predicate HasOther(s: State, z: int)
    requires z in s.zones
  {
    exists y :: y != z && y in s.zones && s.zones[y].zi == s.zones[z].zi && s.zones[y].nfree > 0
  }

  /** The test of rt_free after the chunk went to the free list. */
  lemma RetireTest(s: State, z: int, a: int)
    requires Inv(s) && InUse(s, z, a)
    ensures s.zones[z].zi < |s.lists|
    ensures var s' := GiveStep(s, z, a);
            && z in s'.zones && s'.zones[z].zi == s.zones[z].zi < |s'.lists|
            && (Empty(s'.zones[z]) <==> OnlyChunk(s, z, a))
            && (Empty(s'.zones[z]) ==> (s'.lists[s.zones[z].zi] != [z] <==> HasOther(s, z)))
  {
    GiveKeeps(s, z, a);
    var s', i := GiveStep(s, z, a), s.zones[z].zi;
    EmptyZone(s', z);
    hide Live, ZoneOk;
    if OnlyChunk(s, z, a) {
      forall b ensures !InUse(s', z, b) { }
    }
    if Empty(s'.zones[z]) {
      forall b | InUse(s, z, b) ensures b == a { assert !InUse(s', z, b); }
      OthersListed(s, s', z);
    }
  }

  lemma OthersListed(s: State, s': State, z: int)
    requires Inv(s') && z in s.zones && z in s'.zones && s'.zones == s.zones[z := s'.zones[z]]
    requires s'.zones[z].zi == s.zones[z].zi < |s'.lists| && s'.zones[z].nfree > 0
    ensures s'.lists[s.zones[z].zi] != [z] <==> HasOther(s, z)
  {
    hide ZoneOk;
    var i := s.zones[z].zi;
    var list := s'.lists[i];
    assert Filed(s', i, z);
    if HasOther(s, z) {
      var y :| y != z && y in s.zones && s.zones[y].zi == i && s.zones[y].nfree > 0;
      assert Filed(s', i, y);
    }
    if list != [z] {
      var y := Another(list, z);
      assert Filed(s', i, y);
    }
  }

  /** rt_free keeps one zone at most: the zone stays if it is in use or the only one listed. */
  lemma GiveOneEmpty(s: State, z: int, a: int)
    requires Inv(s) && InUse(s, z, a) && OneEmpty(s) && s.zones[z].zi < |s.lists|
    requires var s' := GiveStep(s, z, a); !(Empty(s'.zones[z]) && s'.lists[s.zones[z].zi] != [z])
    ensures OneEmpty(GiveStep(s, z, a))
  {
    RetireTest(s, z, a);
    hide Inv, Live;
    if Empty(GiveStep(s, z, a).zones[z]) {
      var s' := GiveStep(s, z, a);
      forall y | y in s'.zones && s'.zones[y].zi == s'.zones[z].zi && Empty(s'.zones[y]) ensures y == z {
        if y != z {
          GivenZone(s, y);
          assert false;
        }
      }
    }
  }

  lemma GivenZone(s: State, y: int)
    requires Inv(s) && y in s.zones && Empty(s.zones[y])
    ensures s.zones[y].nfree > 0
  {
    EmptyZone(s, y);
  }

  lemma RetireOneEmpty(s: State, z: int, a: int)
    requires OneEmpty(s) && z in s.zones && s.zones[z].zi < |s.lists|
    ensures OneEmpty(RetireStep(GiveStep(s, z, a), z))
  {
    var s' := RetireStep(GiveStep(s, z, a), z);
    assert forall y :: y in s'.zones ==> y in s.zones && s'.zones[y] == s.zones[y];
  }
}
