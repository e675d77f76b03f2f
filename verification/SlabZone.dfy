/** Size classes and single zones of the slab allocator (slab.c). */
module SlabZone {
  import opened Arith
  import opened RingList
  import opened SortedList

  const PAGE := 4096
  const ZONES := 72

  /** sizeof(struct slab_zone). */
  const HEADER := 36

  // ----- size classes -----

  function RoundUp(n: nat, m: nat): (r: nat)
    requires m > 0
  {
    (n + m - 1) / m * m
  }

  /** The index that zoneindex returns. */
  function ZoneIndex(n: nat): int {
    if n < 128 then RoundUp(n, 8) / 8 - 1
    else if n < 256 then RoundUp(n, 16) / 16 + 7
    else if n < 512 then RoundUp(n, 32) / 32 + 15
    else if n < 1024 then RoundUp(n, 64) / 64 + 23
    else if n < 2048 then RoundUp(n, 128) / 128 + 31
    else if n < 4096 then RoundUp(n, 256) / 256 + 39
    else if n < 8192 then RoundUp(n, 512) / 512 + 47
    else if n < 16384 then RoundUp(n, 1024) / 1024 + 55
    else 0
  }

  /** The size that zoneindex rounds the request to. */
  function ChunkSize(n: nat): nat {
    if n < 128 then RoundUp(n, 8)
    else if n < 256 then RoundUp(n, 16)
    else if n < 512 then RoundUp(n, 32)
    else if n < 1024 then RoundUp(n, 64)
    else if n < 2048 then RoundUp(n, 128)
    else if n < 4096 then RoundUp(n, 256)
    else if n < 8192 then RoundUp(n, 512)
    else if n < 16384 then RoundUp(n, 1024)
    else n
  }

  /** The chunk size of each class. */
  function ClassSize(i: nat): nat {
    if i < 16 then 8 * (i + 1)
    else if i < 24 then 16 * (i - 7)
    else if i < 32 then 32 * (i - 15)
    else if i < 40 then 64 * (i - 23)
    else if i < 48 then 128 * (i - 31)
    else if i < 56 then 256 * (i - 39)
    else if i < 64 then 512 * (i - 47)
    else 1024 * (i - 55)
  }

  /** A request goes to the smallest class that is large enough. */
  lemma SmallestClass(n: nat)
    requires 0 < n < 16384
    ensures 0 <= ZoneIndex(n) < ZONES
    ensures ChunkSize(n) == ClassSize(ZoneIndex(n)) >= n
    ensures ZoneIndex(n) > 0 ==> ClassSize(ZoneIndex(n) - 1) < n
  {
    hide RoundUp;
    if n < 128 { Rounded(n, 8); }
    else if n < 256 { Rounded(n, 16); }
    else if n < 512 { Rounded(n, 32); }
    else if n < 1024 { Rounded(n, 64); }
    else if n < 2048 { Rounded(n, 128); }
    else if n < 4096 { Rounded(n, 256); }
    else if n < 8192 { Rounded(n, 512); }
    else { Rounded(n, 1024); }
  }

  lemma Rounded(n: nat, m: nat)
    requires m > 0
    ensures var q := RoundUp(n, m) / m;
            RoundUp(n, m) == q * m && n <= q * m < n + m
  {
    var a := n + m - 1;
    assert a == a / m * m + a % m;
    DivExact(a / m, m);
  }

  lemma ClassesAscend(i: nat, j: nat)
    requires i < j < ZONES
    ensures 0 < ClassSize(i) < ClassSize(j)
  {
  }

  /** Requests share a class exactly when they are rounded to the same size. */
  lemma SameClass(n: nat, m: nat)
    requires 0 < n < 16384 && 0 < m < 16384
    ensures ZoneIndex(n) == ZoneIndex(m) <==> ChunkSize(n) == ChunkSize(m)
  {
    hide ClassSize, ChunkSize, ZoneIndex;
    SmallestClass(n);
    SmallestClass(m);
    var i, j := ZoneIndex(n), ZoneIndex(m);
    if i < j { ClassesAscend(i, j); }
    if j < i { ClassesAscend(j, i); }
  }

  // ----- one zone -----

  /** `free` is z_freechunk: the addresses of the chunks that were used and given back. */
  datatype Zone = Zone(zi: nat, chunk: nat, base: int, nmax: int, nfree: int, uindex: int, free: seq<int>)

  function Addr(x: Zone, k: int): int {
    x.base + k * x.chunk
  }

  /** a is one of the chunks that were handed out at least once. */
  ghost predicate Carved(x: Zone, a: int) {
    exists k: int :: 0 <= k <= x.uindex && a == Addr(x, k)
  }

  ghost predicate Live(x: Zone, a: int) {
    Carved(x, a) && a !in x.free
  }

  /** The chunks begin where the zone was set up to, are as many as fit between the header and
      the end of the zone, and the free counter is the untouched chunks plus the length of the free list. */
  ghost predicate ZoneOk(x: Zone, z: int, zoneSize: nat) {
    && x.zi < ZONES && x.chunk > 0 && x.chunk == ClassSize(x.zi) && x.base == z + FirstOffset(x.chunk)
    && z + HEADER <= x.base && Addr(x, x.nmax) <= z + zoneSize < Addr(x, x.nmax + 1)
    && 0 <= x.uindex < x.nmax
    && x.nfree == (x.nmax - 1 - x.uindex) + |x.free|
    && Distinct(x.free) && (forall a :: a in x.free ==> Carved(x, a))
  }

  /** A chunk is taken: from the untouched part if there is one, else from the free list. */
  function TakeNext(x: Zone): Zone
    requires x.uindex + 1 == x.nmax ==> x.free != []
  {
    if x.uindex + 1 != x.nmax then x.(nfree := x.nfree - 1, uindex := x.uindex + 1)
    else x.(nfree := x.nfree - 1, free := x.free[1..])
  }

  function Taken(x: Zone): int
    requires x.uindex + 1 == x.nmax ==> x.free != []
  {
    if x.uindex + 1 != x.nmax then Addr(x, x.uindex + 1) else x.free[0]
  }

  function GiveNext(x: Zone, a: int): Zone {
    x.(nfree := x.nfree + 1, free := [a] + x.free)
  }

  /** Chunks lie in the zone, behind the header. */
  lemma ChunkInside(x: Zone, z: int, zoneSize: nat, a: int)
    requires ZoneOk(x, z, zoneSize) && Carved(x, a)
    ensures z + HEADER <= a && a + x.chunk <= z + zoneSize
  {
    var k: int :| 0 <= k <= x.uindex && a == Addr(x, k);
    Mul(k, x.nmax, x.chunk);
    Positive(k, x.chunk);
  }

  /** Different chunks do not overlap. */
  lemma ChunksApart(x: Zone, z: int, zoneSize: nat, a: int, b: int)
    requires ZoneOk(x, z, zoneSize) && Carved(x, a) && Carved(x, b) && a != b
    ensures a + x.chunk <= b || b + x.chunk <= a
  {
    var k: int :| 0 <= k <= x.uindex && a == Addr(x, k);
    var j: int :| 0 <= j <= x.uindex && b == Addr(x, j);
    if k < j { Mul(k, j, x.chunk); }
    if j < k { Mul(j, k, x.chunk); }
  }

  /** Taking a chunk makes exactly that chunk live. */
  lemma TakeOk(x: Zone, z: int, zoneSize: nat)
    requires ZoneOk(x, z, zoneSize) && x.nfree > 0
    ensures x.uindex + 1 == x.nmax ==> x.free != []
    ensures ZoneOk(TakeNext(x), z, zoneSize)
    ensures !Live(x, Taken(x))
    ensures forall a :: Live(TakeNext(x), a) <==> Live(x, a) || a == Taken(x)
  {
    if x.uindex + 1 != x.nmax { TakeNew(x, z, zoneSize); } else { TakeOld(x, z, zoneSize); }
  }

  lemma TakeNew(x: Zone, z: int, zoneSize: nat)
    requires ZoneOk(x, z, zoneSize) && x.uindex + 1 != x.nmax
    ensures ZoneOk(TakeNext(x), z, zoneSize)
    ensures !Live(x, Taken(x))
    ensures forall a :: Live(TakeNext(x), a) <==> Live(x, a) || a == Taken(x)
  {
    var x', new_ := TakeNext(x), Addr(x, x.uindex + 1);
    forall a ensures Carved(x', a) <==> Carved(x, a) || a == new_ {
      if Carved(x, a) {
        var k: int :| 0 <= k <= x.uindex && a == Addr(x, k);
        assert a == Addr(x', k);
      }
      if Carved(x', a) {
        var k: int :| 0 <= k <= x'.uindex && a == Addr(x', k);
        assert a == Addr(x, k);
      }
      assert new_ == Addr(x', x'.uindex);
    }
    if Carved(x, new_) {
      var k: int :| 0 <= k <= x.uindex && new_ == Addr(x, k);
      Mul(k, x.uindex + 1, x.chunk);
    }
  }

  lemma TakeOld(x: Zone, z: int, zoneSize: nat)
    requires ZoneOk(x, z, zoneSize) && x.uindex + 1 == x.nmax && x.nfree > 0
    ensures x.free != []
    ensures ZoneOk(TakeNext(x), z, zoneSize)
    ensures !Live(x, Taken(x))
    ensures forall a :: Live(TakeNext(x), a) <==> Live(x, a) || a == Taken(x)
  {
    var x' := TakeNext(x);
    HeadTail(x.free);
    SameCarved(x, x');
    var a := x.free[0];
    assert a in x.free;
  }

  lemma SameCarved(x: Zone, x': Zone)
    requires x'.base == x.base && x'.chunk == x.chunk && x'.uindex == x.uindex
    ensures forall a :: Carved(x', a) <==> Carved(x, a)
  {
    forall a ensures Carved(x', a) <==> Carved(x, a) {
      if Carved(x, a) {
        var k: int :| 0 <= k <= x.uindex && a == Addr(x, k);
        assert a == Addr(x', k);
      }
      if Carved(x', a) {
        var k: int :| 0 <= k <= x'.uindex && a == Addr(x', k);
        assert a == Addr(x, k);
      }
    }
  }

  /** Giving a live chunk back makes exactly that chunk free. */
  lemma GiveOk(x: Zone, z: int, zoneSize: nat, a: int)
    requires ZoneOk(x, z, zoneSize) && Live(x, a)
    ensures ZoneOk(GiveNext(x, a), z, zoneSize)
    ensures forall b :: Live(GiveNext(x, a), b) <==> Live(x, b) && b != a
    ensures x.nfree < x.nmax
  {
    var x' := GiveNext(x, a);
    SameCarved(x, x');
    FreeFits(x, z, zoneSize, a);
  }

  /** With a chunk in use, the free list is shorter than the number of carved chunks. */
  lemma FreeFits(x: Zone, z: int, zoneSize: nat, a: int)
    requires ZoneOk(x, z, zoneSize) && Live(x, a)
    ensures |x.free| <= x.uindex
  {
    var s := [a] + x.free;
    forall b | b in s ensures Numbered(x, x.uindex + 1, b) {
      assert Carved(x, b);
    }
    Pigeonhole(x, s, x.uindex + 1);
  }

  /** b is a chunk with a number below n. */
  ghost predicate Numbered(x: Zone, n: int, b: int) {
    exists k: int :: 0 <= k < n && b == Addr(x, k)
  }

  lemma NumberedLess(x: Zone, n: int, b: int)
    ensures n <= 0 ==> !Numbered(x, n, b)
    ensures Numbered(x, n, b) && b != Addr(x, n - 1) ==> Numbered(x, n - 1, b)
  {
    if Numbered(x, n, b) && b != Addr(x, n - 1) {
      var k: int :| 0 <= k < n && b == Addr(x, k);
      assert k != n - 1;
    }
  }

  /** There are at most n distinct chunks with numbers below n. */
  lemma {:induction false} Pigeonhole(x: Zone, s: seq<int>, n: int)
    requires Distinct(s) && n >= 0 && forall b :: b in s ==> Numbered(x, n, b)
    ensures |s| <= n
    decreases n
  {
    hide Numbered, Without;
    if n == 0 {
      forall b ensures !Numbered(x, n, b) { NumberedLess(x, n, b); }
      if s != [] {
        var b := Member(s);
        assert false;
      }
    } else {
      var t := Without(s, Addr(x, n - 1));
      WithoutMembers(s, Addr(x, n - 1));
      WithoutDistinct(s, Addr(x, n - 1));
      WithoutShorter(s, Addr(x, n - 1));
      forall b | b in t ensures Numbered(x, n - 1, b) { NumberedLess(x, n, b); }
      Pigeonhole(x, t, n - 1);
    }
  }

  lemma Member(s: seq<int>) returns (b: int)
    requires s != []
    ensures b in s
  {
    b := s[0];
  }

  lemma WithoutShorter(s: seq<int>, a: int)
    requires Distinct(s)
    ensures |Without(s, a)| >= |s| - 1
    ensures a in s ==> |Without(s, a)| == |s| - 1
  {
    if a in s {
      var i :| 0 <= i < |s| && s[i] == a;
      WithoutAt(s, i);
    } else {
      WithoutAbsent(s, a);
    }
  }

  // ----- a new zone -----

  predicate PowerOfTwo(n: nat) {
    n == 1 || (n > 0 && n % 2 == 0 && PowerOfTwo(n / 2))
  }

  /** Where the chunks begin: behind the header, aligned to the chunk size if that is a power
      of two and to 8 bytes otherwise. */
  function FirstOffset(size: nat): nat
    requires size > 0
  {
    if PowerOfTwo(size) then RoundUp(HEADER, size) else RoundUp(HEADER, 8)
  }

  /** The zone that rt_malloc sets up; its first chunk is handed out at once. */
  function NewZone(z: int, zi: nat, size: nat, zoneSize: nat): Zone
    requires size > 0
  {
    var off := FirstOffset(size);
    var nmax := (zoneSize - off) / size;
    Zone(zi, size, z + off, nmax, nmax - 1, 0, [])
  }

  lemma NewZoneOk(z: int, zi: nat, size: nat, zoneSize: nat)
    requires zi < ZONES && size == ClassSize(zi) && size * 4 <= zoneSize && 1024 <= zoneSize
    ensures size > 0
    ensures ZoneOk(NewZone(z, zi, size, zoneSize), z, zoneSize)
    ensures NewZone(z, zi, size, zoneSize).nfree > 0 && NewZone(z, zi, size, zoneSize).zi == zi
    ensures forall a :: Live(NewZone(z, zi, size, zoneSize), a) <==> a == z + FirstOffset(size)
  {
    var x, off := NewZone(z, zi, size, zoneSize), FirstOffset(size);
    OffsetFits(size);
    ThreeFit(zoneSize - off, size);
    forall a ensures Live(x, a) <==> a == x.base {
      assert Addr(x, 0) == x.base;
    }
  }

  lemma OffsetFits(size: nat)
    requires size > 0
    ensures HEADER <= FirstOffset(size)
    ensures if size < HEADER then FirstOffset(size) < 2 * HEADER
            else FirstOffset(size) <= size || FirstOffset(size) == 40
    ensures PowerOfTwo(size) ==> FirstOffset(size) % size == 0
  {
    assert RoundUp(HEADER, 8) == 40;
    hide RoundUp, PowerOfTwo;
    Rounded(HEADER, size);
    var q := RoundUp(HEADER, size) / size;
    if size >= HEADER && q > 1 { Mul(1, q, size); }
    ModExact(q, size);
  }

  lemma ThreeFit(space: int, size: nat)
    requires size > 0 && 3 * size <= space
    ensures 3 <= space / size && space / size * size <= space < (space / size + 1) * size
  {
    var e := space / size;
    assert space == e * size + space % size;
    if e < 3 { Mul(e, 3, size); }
  }

  /** Chunks of a power-of-two size are aligned to it exactly when their zone is, wherever the
      heap starts. */
  lemma AlignedLikeZone(x: Zone, z: nat, zoneSize: nat, a: int, start: nat)
    requires ZoneOk(x, z, zoneSize) && Carved(x, a) && PowerOfTwo(x.chunk)
    ensures a >= 0 && (start + a) % x.chunk == (start + z) % x.chunk
  {
    hide PowerOfTwo, ClassSize, FirstOffset;
    var k: int :| 0 <= k <= x.uindex && a == Addr(x, k);
    OffsetFits(x.chunk);
    SameRemainder(start + z, FirstOffset(x.chunk), k, x.chunk);
    Positive(k, x.chunk);
  }

  lemma SameRemainder(n: nat, off: nat, k: nat, c: nat)
    requires c > 0 && off % c == 0
    ensures (n + off + k * c) % c == n % c
  {
    assert off == off / c * c;
    AddMultiple(n, off / c, c);
    AddMultiple(n + off, k, c);
  }

  /** The powers of two that zones serve. */
  lemma {:induction false} PowersBelow(n: nat)
    requires PowerOfTwo(n) && n < 16384
    ensures n in {1, 2, 4, 8, 16, 32, 64, 128, 256, 512, 1024, 2048, 4096, 8192}
  {
    if n > 1 { PowersBelow(n / 2); }
  }

  /** A request that is a chunk size gets chunks of that size. */
  lemma ExactClass(n: nat, j: nat)
    requires j < ZONES && ClassSize(j) == n && n < 16384
    ensures 0 <= ZoneIndex(n) < ZONES && ClassSize(ZoneIndex(n)) == n
  {
    assert n > 0;
    hide ClassSize, ZoneIndex, ChunkSize;
    SmallestClass(n);
    var i := ZoneIndex(n);
    if i < j { ClassesAscend(i, j); }
    if j < i - 1 { ClassesAscend(j, i - 1); }
  }

  /** They are their own chunk size, except those below the smallest chunk. */
  lemma PowerClass(n: nat)
    requires PowerOfTwo(n) && n < 16384
    ensures 0 <= ZoneIndex(n) < ZONES && ClassSize(ZoneIndex(n)) == if n < 8 then 8 else n
  {
    PowersBelow(n);
    hide PowerOfTwo, ZoneIndex, ClassSize;
    if n < 8 {
      SmallIndex(n);
    } else {
      var j := PowerIndex(n);
      ExactClass(n, j);
    }
  }

  lemma PowerIndex(n: nat) returns (j: nat)
    requires n in {8, 16, 32, 64, 128, 256, 512, 1024, 2048, 4096, 8192}
    ensures j < ZONES && ClassSize(j) == n
  {
    j := if n == 8 then 0 else if n == 16 then 1 else if n == 32 then 3 else if n == 64 then 7 else if n == 128 then 15
         else if n == 256 then 23 else if n == 512 then 31 else if n == 1024 then 39 else if n == 2048 then 47
         else if n == 4096 then 55 else 63;
  }

  lemma SmallIndex(n: nat)
    requires 0 < n <= 8
    ensures ZoneIndex(n) == 0 && ClassSize(0) == 8
  {
    assert RoundUp(n, 8) == 8;
  }
}
