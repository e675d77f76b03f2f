/** rt_memheap: allocation from a pool whose block headers live in the managed memory. */
module Memheap {
  import opened RingList
  import opened Segments
  import opened HeapMemory
  import opened HeapSpec
  import opened MemheapModel

  const NULL := 0
  const MINIALLOC := 12

  /** A free list entry and its neighbours on the list are headers of the row. */
  lemma ListRow(p: Pool, hd: Headers, segs: seq<Seg>, frees: seq<int>, pending: set<int>, k: nat)
    requires Ok(p, hd, segs, frees, pending) && k < |frees|
    ensures frees[k] in Row(p, segs) && p.head in Row(p, segs)
    ensures k > 0 ==> frees[k - 1] in Row(p, segs)
    ensures k + 1 < |frees| ==> frees[k + 1] in Row(p, segs)
  {
    hide Ok, Row;
    TailRow(p, segs);
    var i := ListedFree(p, hd, segs, frees, pending, k);
    BlockRow(p, segs, i);
    if k > 0 {
      var j := ListedFree(p, hd, segs, frees, pending, k - 1);
      BlockRow(p, segs, j);
    }
    if k + 1 < |frees| {
      var j := ListedFree(p, hd, segs, frees, pending, k + 1);
      BlockRow(p, segs, j);
    }
  }

  /** So are the head, the first entry and a free block that waits to be listed. */
  lemma HeadRow(p: Pool, hd: Headers, segs: seq<Seg>, frees: seq<int>, pending: set<int>, a: int)
    requires Ok(p, hd, segs, frees, pending) && a in pending
    ensures p.head in Row(p, segs) && a in Row(p, segs) && a !in frees && a != p.head
    ensures frees != [] ==> frees[0] in Row(p, segs)
  {
    if frees != [] { ListRow(p, hd, segs, frees, pending, 0); }
    assert a in FreeSet(segs) && a !in ToSet(frees);
    var i := FreeIndex(segs, a);
    BlockRow(p, segs, i);
    TailRow(p, segs);
    HeadAbsent(p, segs);
  }

  /** The payload size an allocation looks for. */
  function Request(size: nat, align: Align): (n: nat)
    ensures MINIALLOC <= n <= WORD_LIMIT - align && Div(n, 4)
  {
    var n := AlignUp(size, align);
    if n < MINIALLOC then MINIALLOC else n
  }

  /** A request is met in full exactly when aligning it does not wrap around. */
  lemma RequestCoversSize(size: nat, align: Align)
    requires size < WORD_LIMIT
    ensures Request(size, align) >= size <==> size <= WORD_LIMIT - align
    ensures Request(size, align) == MINIALLOC || Request(size, align) < size + align
  {
  }

  /** With RT_ALIGN_SIZE 8 the minimum request of 12 bytes is not a multiple of 8, and every
      larger one is. */
  lemma Request8(size: nat)
    requires size < WORD_LIMIT
    ensures Div(Request(size, 8), 8) <==> 8 < size <= WORD_LIMIT - 8
  {
  }

  /** Requests that were aligned before, as rt_memheap_realloc passes them on. */
  lemma RequestAgain(size: nat, align: Align)
    requires MINIALLOC <= size <= WORD_LIMIT - align
    ensures Div(Request(size, align), align)
  {
  }

  lemma RequestTwice(size: nat, align: Align)
    ensures Request(Request(size, align), align) >= Request(size, align)
  {
  }

  lemma InitOk(p: Pool, available: nat)
    requires PoolOk(p) && p.tail == p.start + available + p.h
    ensures var hd := Headers(Links(map[p.start := p.tail, p.tail := p.start],
                                    map[p.start := p.tail, p.tail := p.start]),
                              Links(map[p.head := p.start, p.start := p.head, p.tail := NULL],
                                    map[p.head := p.start, p.start := p.head, p.tail := NULL]),
                              map[p.start := false, p.tail := true]);
            var segs := [Seg(p.start, available, false)];
            Ok(p, hd, segs, [p.start], {}) && Coalesced(segs) && FreeTotal(segs) == available
  {
    var segs := [Seg(p.start, available, false)];
    assert Addrs(segs) + [p.tail] == [p.start, p.tail];
    assert segs[0] in segs;
    assert FreeSet(segs) == {p.start};
    assert ToSet([p.start]) == {p.start};
    assert [p.head] + [p.start] == [p.head, p.start];
    TotalShort(segs[0], segs[0]);
  }

  lemma InitDivides(start: int, size: nat, h: nat, align: Align)
    requires 2 * h <= AlignDown(size, align)
    ensures var segs := [Seg(start, AlignDown(size, align) - 2 * h, false)];
            && (Div(start, align) && Div(h, align) ==> Aligned(segs, align))
            && (Div(start, 4) && Div(h, 4) ==> Aligned(segs, 4))
  {
    var n := AlignDown(size, align);
    assert Div(n, align) && Div(n, 4);
    if Div(h, align) {
      DivSum(n, h, align);
      DivSum(n - h, h, align);
    }
    if Div(h, 4) {
      DivSum(n, h, 4);
      DivSum(n - h, h, 4);
    }
  }

  lemma DivNull()
    ensures Div(NULL, 4) && Div(NULL, 8)
  {
  }

  /** The payload of an aligned row. */
  lemma PayloadAligned(segs: seq<Seg>, i: nat, h: nat, g: Align)
    requires Aligned(segs, g) && i < |segs| && Div(h, g)
    ensures Div(segs[i].addr + h, g)
  {
    DivSum(segs[i].addr, h, g);
  }

  lemma NoneFits(p: Pool, hd: Headers, segs: seq<Seg>, frees: seq<int>, n: nat)
    requires Ok(p, hd, segs, frees, {}) && forall j :: 0 <= j < |frees| ==> TooSmall(segs, frees[j], n)
    ensures forall s :: s in segs && !s.used ==> s.size < n
  {
    forall s | s in segs && !s.used
      ensures s.size < n
    {
      var i :| 0 <= i < |segs| && segs[i] == s;
      var k := FreeListed(p, hd, segs, frees, {}, i);
      assert TooSmall(segs, frees[k], n);
    }
  }

  lemma NextDiffers(p: Pool, hd: Headers, segs: seq<Seg>, frees: seq<int>, pending: set<int>, j: nat)
    requires Ok(p, hd, segs, frees, pending) && j + 1 < |segs|
    ensures segs[j].addr != segs[j + 1].addr
  {
    Ordered(segs, p.start, p.tail, p.h, j, j + 1);
  }

  /** The test of memheap.c:350 on 32-bit sizes: can the free right neighbour supply the bytes? */
  predicate GrowTest(oldSize: nat, nextSize: nat, n: nat) {
    (nextSize + oldSize) % WORD_LIMIT > (n + MINIALLOC) % WORD_LIMIT
  }

  /** The test is right exactly when the sum on its right side does not wrap around. */
  lemma GrowTestExact(oldSize: nat, nextSize: nat, n: nat)
    requires oldSize + nextSize < WORD_LIMIT && n < WORD_LIMIT && oldSize + nextSize > MINIALLOC
    ensures n + MINIALLOC < WORD_LIMIT <==> (GrowTest(oldSize, nextSize, n) <==> nextSize + oldSize > n + MINIALLOC)
  {
  }

  /** What happens where it does: the test succeeds unless both blocks are tiny, and the header
      of the rebuilt neighbour, at ptr + n in 32-bit addresses, lies inside the header of the
      block itself. */
  lemma GrowWraps(ptr: nat, h: nat, oldSize: nat, nextSize: nat, n: nat)
    requires MINIALLOC <= h <= ptr < WORD_LIMIT && oldSize + nextSize < WORD_LIMIT
    requires n < WORD_LIMIT <= n + MINIALLOC
    ensures GrowTest(oldSize, nextSize, n) <==> oldSize + nextSize > n + MINIALLOC - WORD_LIMIT
    ensures ptr - h <= (ptr + n) % WORD_LIMIT < ptr
  {
  }

  function GrowSpec(segs: seq<Seg>, i: nat, n: nat, h: nat): seq<Seg>
    requires i + 1 < |segs| && n <= segs[i].size + segs[i + 1].size
  {
    Split(Merge(segs, i, h), i, n, h)
  }

  lemma GrowFacts(p: Pool, hd: Headers, segs: seq<Seg>, frees: seq<int>, i: nat, n: nat)
    requires Ok(p, hd, segs, frees, {}) && Coalesced(segs)
    requires i + 1 < |segs| && segs[i].used && !segs[i + 1].used && n <= segs[i].size + segs[i + 1].size
    ensures var r := GrowSpec(segs, i, n, p.h);
            && i < |r| && r[i] == Seg(segs[i].addr, n, true)
            && Coalesced(r)
            && Live(r) == Live(segs) - {segs[i]} + {r[i]}
            && FreeTotal(r) == FreeTotal(segs) + segs[i].size - n
  {
    hide FreeTotal, Live, Tiled, Ring, FreeSet;
    var m := Merge(segs, i, p.h);
    MergeTiled(segs, p.start, p.tail, p.h, i);
    MergeSets(segs, p.start, p.tail, p.h, i);
    SplitSets(m, p.start, p.tail, p.h, i, n);
    MergeSums(segs, p.h, i);
    SplitSums(m, p.h, i, n);
    TotalShort(segs[i], segs[i + 1]);
    TotalShort(segs[i + 1], segs[i]);
    MergedNotLive(p, segs, i);
    GrowCoalesced(segs, i, p.h);
    CoalescedSplit(m, i, n, p.h);
  }

  lemma MergedNotLive(p: Pool, segs: seq<Seg>, i: nat)
    requires PoolOk(p) && Tiled(segs, p.start, p.tail, p.h) && i + 1 < |segs|
    ensures segs[i].(size := segs[i].size + p.h + segs[i + 1].size) !in Live(segs)
  {
    var z := segs[i].(size := segs[i].size + p.h + segs[i + 1].size);
    Alone(segs, p.start, p.tail, p.h, i);
    SetsMiddle(segs[..i], [segs[i]], segs[i + 1..]);
    AbsentSets(segs[..i], z);
    AbsentSets(segs[i + 1..], z);
  }

  lemma GrowCoalesced(segs: seq<Seg>, i: nat, h: nat)
    requires Coalesced(segs) && i + 1 < |segs| && segs[i].used && !segs[i + 1].used
    ensures Coalesced(Merge(segs, i, h)) && (i + 1 < |Merge(segs, i, h)| ==> Merge(segs, i, h)[i + 1].used)
  {
    var r := Merge(segs, i, h);
    if i + 1 < |r| { assert r[i + 1] == segs[i + 2] && segs[i + 2].used; }
    forall k | 0 <= k < |r| - 1
      ensures r[k].used || r[k + 1].used
    {
      if k < i - 1 { assert segs[k].used || segs[k + 1].used; }
      else if k > i { assert segs[k + 1].used || segs[k + 2].used; }
    }
  }

  lemma PayloadInMemory(p: Pool, hd: Headers, segs: seq<Seg>, frees: seq<int>, i: nat)
    requires Ok(p, hd, segs, frees, {}) && i < |segs|
    ensures p.start <= segs[i].addr && segs[i].addr + p.h + segs[i].size <= p.tail
  {
    StartsFirst(segs, p.start, p.tail, p.h, i);
    Ordered(segs, p.start, p.tail, p.h, i, |segs|);
  }

  lemma Apart(p: Pool, hd: Headers, segs: seq<Seg>, frees: seq<int>, i: nat, j: nat)
    requires Ok(p, hd, segs, frees, {}) && i < |segs| && j < |segs| && segs[i] != segs[j]
    ensures segs[i].addr + p.h + segs[i].size <= segs[j].addr || segs[j].addr + p.h + segs[j].size <= segs[i].addr
  {
    Disjoint(segs, p.start, p.tail, p.h, i, j);
  }

  lemma OkTiled(p: Pool, hd: Headers, segs: seq<Seg>, frees: seq<int>)
    requires Ok(p, hd, segs, frees, {})
    ensures RowOk(p, segs) && PoolOk(p)
  {
  }

  lemma PairFits(p: Pool, hd: Headers, segs: seq<Seg>, frees: seq<int>, i: nat)
    requires Ok(p, hd, segs, frees, {}) && i + 1 < |segs|
    ensures segs[i].size + segs[i + 1].size <= p.tail - p.start
  {
    StartsFirst(segs, p.start, p.tail, p.h, i);
    Ordered(segs, p.start, p.tail, p.h, i, i + 1);
    Ordered(segs, p.start, p.tail, p.h, i + 1, |segs|);
  }

  lemma GrowAligned(segs: seq<Seg>, i: nat, n: nat, h: nat, g: Align)
    requires Aligned(segs, g) && i + 1 < |segs| && n <= segs[i].size + segs[i + 1].size && Div(h, g)
    ensures Aligned(GrowSpec(segs, i, n, h), g) <==> Div(n, g)
  {
    hide Aligned;
    AlignedMerge(segs, i, h, g);
    AlignedSplit(Merge(segs, i, h), i, n, h, g);
  }

  class MemHeap {
    const pool: Pool
    const align: Align
    const poolSize: int
    var next: map<int, int>
    var prev: map<int, int>
    var nextFree: map<int, int>
    var prevFree: map<int, int>
    var used: map<int, bool>
    var available: int
    var maxUsed: int
    var bytes: map<int, Cell>
    ghost var segs: seq<Seg>
    ghost var frees: seq<int>

    ghost function Heads(): Headers
      reads this
    {
      Headers(Links(next, prev), Links(nextFree, prevFree), used)
    }

    ghost predicate MemoryOk()
      reads this
    {
      forall k :: pool.start <= k < pool.tail + pool.h ==> k in bytes
    }

    /** The structure of the pool: blocks tile it, `prev` inverts `next`, neighbours are not
        both free, the free list holds exactly the free blocks once each, and the byte count
        is the sum of the free payloads. */
    ghost predicate Valid()
      reads this
    {
      && Ok(pool, Heads(), segs, frees, {})
      && Coalesced(segs)
      && pool.start > 0
      && poolSize == pool.tail + pool.h - pool.start < WORD_LIMIT
      && available == FreeTotal(segs)
      && poolSize - available <= maxUsed
      && MemoryOk()
      && (Even(4) ==> Aligned(segs, 4))
    }

    /** The pool starts at a multiple of g, and so does every payload behind such a header. */
    predicate Even(g: Align) {
      Div(pool.start, g) && Div(pool.h, g)
    }

    /** Neither the total nor a single free block is large enough for n bytes. */
    ghost predicate NoRoom(n: nat)
      reads this
    {
      n >= available || forall s :: s in segs && !s.used ==> s.size < n
    }

    /** The free right neighbour can supply the bytes to make block i as large as n. */
    ghost predicate CanGrow(i: nat, n: nat)
      reads this
    {
      i + 1 < |segs| && !segs[i + 1].used && segs[i].size + segs[i + 1].size > n + MINIALLOC
    }

    /** Making block i as large as n moves the boundary to its right neighbour, or makes one. */
    ghost predicate CutsInPlace(i: nat, n: nat)
      reads this
      requires i < |segs|
    {
      (n > segs[i].size && CanGrow(i, n)) || n + pool.h + MINIALLOC < segs[i].size
    }

    // ----- single header writes -----
    // b is the memory at the start of the operation, w the headers it may write to.

    method SetNext(a: int, v: int, ghost b: map<int, Cell>, ghost w: set<int>)
      requires a in w && Untouched(b, bytes, w, pool.h)
      modifies `next, `bytes
      ensures next == old(next)[a := v] && Untouched(b, bytes, w, pool.h)
    {
      next := next[a := v];
      UntouchedStamp(b, bytes, w, a, pool.h);
      bytes := Stamp(bytes, a, pool.h);
    }

    method SetPrev(a: int, v: int, ghost b: map<int, Cell>, ghost w: set<int>)
      requires a in w && Untouched(b, bytes, w, pool.h)
      modifies `prev, `bytes
      ensures prev == old(prev)[a := v] && Untouched(b, bytes, w, pool.h)
    {
      prev := prev[a := v];
      UntouchedStamp(b, bytes, w, a, pool.h);
      bytes := Stamp(bytes, a, pool.h);
    }

    method SetNextFree(a: int, v: int, ghost b: map<int, Cell>, ghost w: set<int>)
      requires a in w && Untouched(b, bytes, w, pool.h)
      modifies `nextFree, `bytes
      ensures nextFree == old(nextFree)[a := v] && Untouched(b, bytes, w, pool.h)
    {
      nextFree := nextFree[a := v];
      UntouchedStamp(b, bytes, w, a, pool.h);
      bytes := Stamp(bytes, a, pool.h);
    }

    method SetPrevFree(a: int, v: int, ghost b: map<int, Cell>, ghost w: set<int>)
      requires a in w && Untouched(b, bytes, w, pool.h)
      modifies `prevFree, `bytes
      ensures prevFree == old(prevFree)[a := v] && Untouched(b, bytes, w, pool.h)
    {
      prevFree := prevFree[a := v];
      UntouchedStamp(b, bytes, w, a, pool.h);
      bytes := Stamp(bytes, a, pool.h);
    }

    method SetUsed(a: int, v: bool, ghost b: map<int, Cell>, ghost w: set<int>)
      requires a in w && Untouched(b, bytes, w, pool.h)
      modifies `used, `bytes
      ensures used == old(used)[a := v] && Untouched(b, bytes, w, pool.h)
    {
      used := used[a := v];
      UntouchedStamp(b, bytes, w, a, pool.h);
      bytes := Stamp(bytes, a, pool.h);
    }

    // ----- the pointer sequences that the operations share -----

    /** A new header behind block `at` in the address-ordered list (memheap.c:210-213). */
    method LinkBlock(at: int, n: int, ghost b: map<int, Cell>, ghost w: set<int>)
      requires at in next && n != next[at] && n != at
      requires {at, n, next[at]} <= w && Untouched(b, bytes, w, pool.h)
      modifies `next, `prev, `bytes
      ensures Links(next, prev) == InsertAfter(old(Links(next, prev)), at, n)
      ensures Untouched(b, bytes, w, pool.h)
    {
      hide Untouched;
      SetPrev(n, at, b, w);
      SetNext(n, next[at], b, w);
      SetPrev(next[at], n, b, w);
      SetNext(at, n, b, w);
      assert prev == InsertAfter(old(Links(next, prev)), at, n).prev;
    }

    /** A block leaves the address-ordered list (memheap.c:550-551). */
    method UnlinkBlock(n: int, ghost b: map<int, Cell>, ghost w: set<int>)
      requires n in next && n in prev
      requires {next[n], prev[n]} <= w && Untouched(b, bytes, w, pool.h)
      modifies `next, `prev, `bytes
      ensures Links(next, prev) == Unlink(old(Links(next, prev)), n)
      ensures Untouched(b, bytes, w, pool.h)
    {
      hide Untouched;
      var after, before := next[n], prev[n];
      SetNext(before, after, b, w);
      SetPrev(after, before, b, w);
    }

    /** A block goes to the front of the free list (memheap.c:583-586). */
    method PushFree(n: int, ghost b: map<int, Cell>, ghost w: set<int>)
      requires pool.head in nextFree && n != nextFree[pool.head] && n != pool.head
      requires {pool.head, n, nextFree[pool.head]} <= w && Untouched(b, bytes, w, pool.h)
      modifies `nextFree, `prevFree, `bytes
      ensures Links(nextFree, prevFree) == InsertAfter(old(Links(nextFree, prevFree)), pool.head, n)
      ensures Untouched(b, bytes, w, pool.h)
    {
      hide Untouched;
      var first := nextFree[pool.head];
      SetNextFree(n, first, b, w);
      SetPrevFree(n, pool.head, b, w);
      SetPrevFree(first, n, b, w);
      SetNextFree(pool.head, n, b, w);
      assert prevFree == InsertAfter(old(Links(nextFree, prevFree)), pool.head, n).prev;
    }

    /** A block leaves the free list (memheap.c:216-217). */
    method UnlinkFree(n: int, ghost b: map<int, Cell>, ghost w: set<int>)
      requires n in nextFree && n in prevFree
      requires {nextFree[n], prevFree[n]} <= w && Untouched(b, bytes, w, pool.h)
      modifies `nextFree, `prevFree, `bytes
      ensures Links(nextFree, prevFree) == Unlink(old(Links(nextFree, prevFree)), n)
      ensures Untouched(b, bytes, w, pool.h)
    {
      hide Untouched;
      var after, before := nextFree[n], prevFree[n];
      SetPrevFree(after, before, b, w);
      SetNextFree(before, after, b, w);
    }

    // ----- the steps on the pool -----

    /** A block leaves the free list and becomes used (memheap.c:251-258). */
    method DoTakeOut(a: int, ghost i: nat, ghost k: nat, ghost b: map<int, Cell>, ghost w: set<int>)
      requires Ok(pool, Heads(), segs, frees, {}) && i < |segs| && segs[i].addr == a && !segs[i].used
      requires k < |frees| && frees[k] == a
      requires Row(pool, segs) <= w && Untouched(b, bytes, w, pool.h)
      modifies `nextFree, `prevFree, `used, `bytes, `segs, `frees
      ensures Ok(pool, Heads(), segs, frees, {}) && Untouched(b, bytes, w, pool.h)
      ensures segs == Mark(old(segs), i, true)
    {
      hide Ok, Untouched, Row;
      ghost var hd0, s0, f0 := Heads(), segs, frees;
      FreeFacts(pool, hd0, s0, f0, {}, k);
      ListRow(pool, hd0, s0, f0, {}, k);
      TakeOut(pool, hd0, s0, f0, {}, i, k);
      RemovedGone(pool, hd0, s0, f0, {}, k);
      UnlinkFree(a, b, w);
      SetUsed(a, true, b, w);
      segs, frees := Mark(s0, i, true), RemoveAt(f0, k);
      Forget(pool, Heads(), segs, frees, {}, a, NULL, NULL);
      SetNextFree(a, NULL, b, w);
      SetPrevFree(a, NULL, b, w);
    }

    /** The rest of used block a behind its first n bytes gets a header of its own and is
        linked into the address-ordered list (memheap.c:193-213, 433-452). */
    method DoSplitOff(a: int, n: nat, ghost i: nat, ghost b: map<int, Cell>, ghost w: set<int>) returns (rest: int)
      requires Ok(pool, Heads(), segs, frees, {}) && i < |segs| && segs[i].addr == a && segs[i].used
      requires n + pool.h <= segs[i].size
      requires Row(pool, segs) <= w && Row(pool, Split(segs, i, n, pool.h)) <= w && Untouched(b, bytes, w, pool.h)
      modifies `next, `prev, `used, `bytes, `segs
      ensures rest == a + n + pool.h
      ensures Ok(pool, Heads(), segs, frees, {rest}) && Untouched(b, bytes, w, pool.h)
      ensures segs == Split(old(segs), i, n, pool.h)
    {
      hide Ok, Untouched, Row;
      ghost var hd0, s0 := Heads(), segs;
      BlockFacts(pool, hd0, s0, frees, {}, i);
      BlockRow(pool, s0, i);
      SplitOff(pool, hd0, s0, frees, i, n);
      segs := Split(s0, i, n, pool.h);
      BlockRow(pool, segs, i + 1);
      rest := a + n + pool.h;
      OkTiled(pool, hd0, s0, frees);
      RestInside(pool, s0, i, n);
      SetUsed(rest, false, b, w);
      LinkBlock(a, rest, b, w);
    }

    /** A free block that is not listed goes to the front of the free list. */
    method DoPutBack(a: int, ghost b: map<int, Cell>, ghost w: set<int>)
      requires Ok(pool, Heads(), segs, frees, {a})
      requires Row(pool, segs) <= w && Untouched(b, bytes, w, pool.h)
      modifies `nextFree, `prevFree, `bytes, `frees
      ensures Ok(pool, Heads(), segs, frees, {}) && Untouched(b, bytes, w, pool.h)
    {
      hide Untouched, Row, Ring, Tiled;
      ghost var hd0, f0 := Heads(), frees;
      HeadFacts(pool, hd0, segs, f0, {a});
      HeadRow(pool, hd0, segs, f0, {a}, a);
      PutBack(pool, hd0, segs, f0, a);
      hide Ok;
      PushFree(a, b, w);
      frees := [a] + f0;
    }

    /** A used block becomes free, not yet listed (memheap.c:536). */
    method DoRelease(a: int, ghost i: nat, ghost b: map<int, Cell>, ghost w: set<int>)
      requires Ok(pool, Heads(), segs, frees, {}) && i < |segs| && segs[i].addr == a && segs[i].used
      requires Row(pool, segs) <= w && Untouched(b, bytes, w, pool.h)
      modifies `used, `bytes, `segs
      ensures Ok(pool, Heads(), segs, frees, {a}) && Untouched(b, bytes, w, pool.h)
      ensures segs == Mark(old(segs), i, false)
    {
      hide Ok, Untouched, Row;
      BlockRow(pool, segs, i);
      Release(pool, Heads(), segs, frees, i);
      SetUsed(a, false, b, w);
      segs := Mark(segs, i, false);
    }

    /** Block a swallows its free right neighbour, which leaves both lists
        (memheap.c:566-577, 364-367, 460-472). */
    method DoSwallow(a: int, ghost i: nat, ghost pending: set<int>, ghost b: map<int, Cell>, ghost w: set<int>)
      requires Ok(pool, Heads(), segs, frees, pending) && i + 1 < |segs| && segs[i].addr == a
      requires !segs[i + 1].used && segs[i + 1].addr !in pending
      requires Row(pool, segs) <= w && Untouched(b, bytes, w, pool.h)
      modifies `next, `prev, `nextFree, `prevFree, `bytes, `segs, `frees
      ensures Ok(pool, Heads(), segs, frees, pending) && Untouched(b, bytes, w, pool.h)
      ensures segs == Merge(old(segs), i, pool.h)
    {
      hide Ok, Untouched, Row;
      ghost var hd0, s0, f0 := Heads(), segs, frees;
      ghost var k := FreeListed(pool, hd0, s0, f0, pending, i + 1);
      BlockFacts(pool, hd0, s0, f0, pending, i);
      BlockFacts(pool, hd0, s0, f0, pending, i + 1);
      BlockRow(pool, s0, i);
      if i + 2 < |s0| { BlockRow(pool, s0, i + 2); } else { TailRow(pool, s0); }
      FreeFacts(pool, hd0, s0, f0, pending, k);
      ListRow(pool, hd0, s0, f0, pending, k);
      Swallow(pool, hd0, s0, f0, pending, i, k);
      var n := next[a];
      UnlinkBlock(n, b, w);
      UnlinkFree(n, b, w);
      segs, frees := Merge(s0, i, pool.h), RemoveAt(f0, k);
    }

    /** A freed block is swallowed by its free left neighbour, which is listed already
        (memheap.c:550-556). */
    method DoMergeLeft(a: int, ghost i: nat, ghost b: map<int, Cell>, ghost w: set<int>) returns (left: int)
      requires i + 1 < |segs| && segs[i + 1].addr == a && Ok(pool, Heads(), segs, frees, {a})
      requires !segs[i].used && !segs[i + 1].used
      requires Row(pool, segs) <= w && Untouched(b, bytes, w, pool.h)
      modifies `next, `prev, `bytes, `segs
      ensures left == old(segs)[i].addr
      ensures Ok(pool, Heads(), segs, frees, {}) && Untouched(b, bytes, w, pool.h)
      ensures segs == Merge(old(segs), i, pool.h)
    {
      hide Ok, Untouched, Row;
      ghost var hd0, s0 := Heads(), segs;
      BlockFacts(pool, hd0, s0, frees, {a}, i + 1);
      BlockRow(pool, s0, i);
      if i + 2 < |s0| { BlockRow(pool, s0, i + 2); } else { TailRow(pool, s0); }
      MergeLeft(pool, hd0, s0, frees, i);
      left := prev[a];
      UnlinkBlock(a, b, w);
      segs := Merge(s0, i, pool.h);
    }

    // ----- operations -----

    /** rt_memheap_init: one free block and the used end marker, in whatever the memory held. */
    constructor (start: int, size: nat, h: nat, head: int, align: Align, memory: map<int, Cell>)
      requires start > 0 && h > 0 && 2 * h <= AlignDown(size, align) && size < WORD_LIMIT
      requires head + h <= start || start + size <= head
      requires forall k :: start <= k < start + size ==> k in memory
      ensures Valid()
      ensures pool.start == start && pool.h == h && poolSize == AlignDown(size, align)
      ensures segs == [Seg(start, AlignDown(size, align) - 2 * h, false)]
      ensures Even(align) ==> Aligned(segs, align)
    {
      var poolSize := AlignDown(size, align);
      var available := poolSize - 2 * h;
      var tail := start + available + h;
      this.align, this.poolSize, this.available := align, poolSize, available;
      this.maxUsed := poolSize - available;
      this.pool := Pool(start, tail, h, head);
      this.next := map[start := tail, tail := start];
      this.prev := map[start := tail, tail := start];
      this.nextFree := map[head := start, start := head, tail := NULL];
      this.prevFree := map[head := start, start := head, tail := NULL];
      this.used := map[start := false, tail := true];
      this.bytes := Stamp(Stamp(memory, start, h), tail, h);
      this.segs := [Seg(start, available, false)];
      this.frees := [start];
      new;
      hide Ok, Stamp, Coalesced, FreeTotal, Aligned, Div;
      InitDivides(start, size, h, align);
      StampKeys(memory, start, h);
      StampKeys(Stamp(memory, start, h), tail, h);
      InitOk(pool, available);
    }

    /** The search of rt_memheap_alloc: along the free list to the first block that is large
        enough. */
    method FindFit(size: nat) returns (header: int, freeSize: int, ghost k: nat, ghost i: nat)
      requires Valid() && size > 0
      ensures freeSize >= size ==>
                && k < |frees| && header == frees[k] && i < |segs| && segs[i].addr == header
                && !segs[i].used && freeSize == segs[i].size
      ensures freeSize < size ==> k == |frees|
      ensures forall j :: 0 <= j < k ==> TooSmall(segs, frees[j], size)
    {
      hide Ring, Tiled;
      freeSize := 0;
      ghost var hd := Heads();
      HeadFacts(pool, hd, segs, frees, {});
      header := nextFree[pool.head];
      k, i := 0, 0;
      while header != pool.head && freeSize < size
        invariant k <= |frees| && header == (if k < |frees| then frees[k] else pool.head)
        invariant forall j :: 0 <= j < k ==> TooSmall(segs, frees[j], size)
        invariant freeSize >= size ==>
                    k < |frees| && i < |segs| && segs[i].addr == header && !segs[i].used && freeSize == segs[i].size
        decreases |frees| - k, freeSize < size
      {
        if k == |frees| { assert false; }
        i := ListedFree(pool, hd, segs, frees, {}, k);
        BlockFacts(pool, hd, segs, frees, {}, i);
        FreeFacts(pool, hd, segs, frees, {}, k);
        freeSize := next[header] - header - pool.h;
        if freeSize < size {
          OnlySegment(pool, segs, i, size);
          header := nextFree[header];
          k := k + 1;
        }
      }
      if freeSize < size && k < |frees| {
        FreeFacts(pool, hd, segs, frees, {}, k);
      }
    }

    /** rt_memheap_alloc. A block is returned exactly when the request is below the available
        bytes and some free block is large enough; it is the first such block on the free
        list, cut to size when the rest can stand alone. All other live blocks keep their
        place, size and bytes. */
    method Alloc(size0: nat) returns (ptr: int, ghost i: nat, ghost k: nat)
      requires Valid()
      modifies this
      ensures Valid()
      ensures var n := Request(size0, align);
              if ptr == NULL then
                && segs == old(segs) && frees == old(frees) && bytes == old(bytes)
                && old(NoRoom(n))
              else
                && n < old(available)
                && i < |old(segs)| && !old(segs)[i].used && n <= old(segs)[i].size
                && segs == AllocSpec(old(segs), i, n, pool.h, MINIALLOC) && ptr == old(segs)[i].addr + pool.h
                && i < |segs| && segs[i].used && segs[i].addr == old(segs)[i].addr
                && k < |old(frees)| && old(frees)[k] == old(segs)[i].addr
                && (forall j :: 0 <= j < k ==> TooSmall(old(segs), old(frees)[j], n))
                && Live(segs) == old(Live(segs)) + {segs[i]} && segs[i] !in old(Live(segs)) && segs[i].size >= n
                && segs[i].size == (if old(segs)[i].size >= n + pool.h + MINIALLOC then n else old(segs)[i].size)
      ensures Spared(pool, old(segs), segs, old(bytes), bytes)
      ensures Even(4) ==> Div(ptr, 4)
      ensures Even(8) && old(Aligned(segs, 8)) ==>
                var n := Request(size0, align);
                && Div(ptr, 8)
                && (Aligned(segs, 8) <==> ptr == NULL || Div(n, 8) || old(segs)[i].size < n + pool.h + MINIALLOC)
    {
      hide Ring, Tiled, Untouched, Row, Spared, Live, FreeTotal, AllocSpec, Stamp, Coalesced, Aligned, Div, Request;
      ghost var s0, b := segs, bytes;
      assert Div(NULL, 4) && Div(NULL, 8) by { DivNull(); }
      var size := Request(size0, align);
      ptr, i, k := NULL, 0, 0;
      if size < available {
        var header, freeSize;
        header, freeSize, k, i := FindFit(size);
        if freeSize >= size {
          AllocSets(pool, s0, i, size, MINIALLOC);
          AllocTotal(s0, i, size, pool.h, MINIALLOC);
          AllocKeepsCoalesced(s0, i, size, pool.h, MINIALLOC);
          if Even(4) {
            AllocAligned(s0, i, size, pool.h, MINIALLOC, 4);
            PayloadAligned(s0, i, pool.h, 4);
          }
          if Even(8) && Aligned(s0, 8) {
            AllocAligned(s0, i, size, pool.h, MINIALLOC, 8);
            PayloadAligned(s0, i, pool.h, 8);
          }
          Take(header, size, freeSize, i, k);
          BlockFacts(pool, old(Heads()), s0, old(frees), {}, i);
          ptr := header + pool.h;
        } else {
          NoneFits(pool, Heads(), segs, frees, size);
          NothingTouched(pool, segs, bytes);
        }
      } else {
        NothingTouched(pool, segs, bytes);
      }
    }

    /** The chosen block is taken, with or without a split (memheap.c:188-258). */
    method Take(header: int, size: nat, freeSize: int, ghost i: nat, ghost k: nat)
      requires Valid()
      requires i < |segs| && segs[i].addr == header && !segs[i].used && freeSize == segs[i].size && size <= freeSize
      requires k < |frees| && frees[k] == header
      modifies this
      ensures Ok(pool, Heads(), segs, frees, {})
      ensures segs == AllocSpec(old(segs), i, size, pool.h, MINIALLOC)
      ensures available == old(available) - (if freeSize >= size + pool.h + MINIALLOC then size + pool.h else freeSize)
      ensures poolSize - available <= maxUsed && MemoryOk()
      ensures Spared(pool, old(segs), segs, old(bytes), bytes)
    {
      hide Ring, Tiled, Row, Spared, FreeTotal, Coalesced;
      ghost var s0, b := segs, bytes;
      ghost var s1 := AllocSpec(s0, i, size, pool.h, MINIALLOC);
      ghost var w := Row(pool, s0) + Row(pool, s1);
      RowMark(pool, s0, i, true);
      BlockFacts(pool, Heads(), s0, frees, {}, i);
      DoTakeOut(header, i, k, b, w);
      if freeSize >= size + pool.h + MINIALLOC {
        var rest := DoSplitOff(header, size, i, b, w);
        DoPutBack(rest, b, w);
        available := available - size - pool.h;
      } else {
        available := available - freeSize;
      }
      if poolSize - available > maxUsed { maxUsed := poolSize - available; }
      hide Untouched, AllocSpec;
      AllSpared(pool, s0, segs, b, bytes);
      KeysKept(b, bytes, w, pool.h);
    }

    /** rt_memheap_free. The block is no longer live, every other live block keeps its place,
        size and bytes, and free neighbours are joined. */
    method Free(ptr: int, ghost i: nat)
      requires Valid()
      requires ptr != NULL ==> i < |segs| && segs[i].used && segs[i].addr + pool.h == ptr
      modifies this
      ensures Valid()
      ensures ptr == NULL ==> segs == old(segs) && frees == old(frees) && bytes == old(bytes)
      ensures ptr != NULL ==> segs == FreeSpec(old(segs), i, pool.h) && Live(segs) == old(Live(segs)) - {old(segs)[i]}
      ensures Spared(pool, old(segs), segs, old(bytes), bytes)
      ensures Even(8) && old(Aligned(segs, 8)) ==> Aligned(segs, 8)
    {
      hide Ring, Tiled, Row, Spared, FreeTotal, Live, Coalesced, Untouched, Aligned, Div;
      ghost var s0, b := segs, bytes;
      if ptr == NULL {
        NothingTouched(pool, segs, bytes);
        return;
      }
      ghost var w := Row(pool, s0) + Row(pool, FreeSpec(s0, i, pool.h));
      FreeKeepsCoalesced(s0, i, pool.h);
      FreeSets(pool, s0, i);
      FreeTotals(s0, i, pool.h);
      FreeLeftShape(s0, i, pool.h);
      if Even(4) { FreeAligned(s0, i, pool.h, 4); }
      if Even(8) && Aligned(s0, 8) { FreeAligned(s0, i, pool.h, 8); }
      StartUntouched(bytes, w, pool.h);
      Join(ptr - pool.h, i, b, w);
      AllSpared(pool, s0, segs, b, bytes);
      KeysKept(b, bytes, w, pool.h);
    }

    /** The merging part of rt_memheap_free (memheap.c:535-591). */
    method Join(header0: int, ghost i: nat, ghost b: map<int, Cell>, ghost w: set<int>)
      requires Ok(pool, Heads(), segs, frees, {}) && i < |segs| && segs[i].used && segs[i].addr == header0
      requires Row(pool, segs) <= w && Untouched(b, bytes, w, pool.h)
      modifies `next, `prev, `nextFree, `prevFree, `used, `bytes, `segs, `frees, `available
      ensures Ok(pool, Heads(), segs, frees, {}) && Untouched(b, bytes, w, pool.h)
      ensures segs == FreeSpec(old(segs), i, pool.h)
      ensures available == old(available) + old(segs)[i].size
                           + (if i > 0 && !old(segs)[i - 1].used then pool.h else 0)
                           + (if i + 1 < |old(segs)| && !old(segs)[i + 1].used then pool.h else 0)
    {
      hide Ok, Row, Untouched, Merge;
      ghost var s0 := segs;
      var header := header0;
      RowMark(pool, s0, i, false);
      DoRelease(header, i, b, w);
      BlockFacts(pool, Heads(), segs, frees, {header}, i);
      available := available + (next[header] - header - pool.h);
      var insertHeader := true;
      ghost var pending := {header};
      if !used[prev[header]] {
        available := available + pool.h;
        RowMerge(pool, segs, i - 1);
        header := DoMergeLeft(header, i - 1, b, w);
        insertHeader := false;
        pending := {};
      }
      ghost var j := FreedAt(s0, i);
      FreeLeftShape(s0, i, pool.h);
      BlockFacts(pool, Heads(), segs, frees, pending, j);
      if !used[next[header]] {
        available := available + pool.h;
        RowMerge(pool, segs, j);
        NextDiffers(pool, Heads(), segs, frees, pending, j);
        DoSwallow(header, j, pending, b, w);
      }
      if insertHeader {
        DoPutBack(header, b, w);
      }
    }

    /** The pointer writes of growing: the free right neighbour is rebuilt further right
        (memheap.c:364-401). */
    method PushBack(header: int, n: nat, ghost i: nat, ghost b: map<int, Cell>, ghost w: set<int>)
      requires Ok(pool, Heads(), segs, frees, {}) && i + 1 < |segs| && segs[i].addr == header && segs[i].used
      requires !segs[i + 1].used && n <= segs[i].size + segs[i + 1].size && Untouched(b, bytes, w, pool.h)
      requires Row(pool, segs) <= w && Row(pool, GrowSpec(segs, i, n, pool.h)) <= w
      modifies `next, `prev, `nextFree, `prevFree, `used, `bytes, `segs, `frees
      ensures Ok(pool, Heads(), segs, frees, {}) && Untouched(b, bytes, w, pool.h)
      ensures segs == GrowSpec(old(segs), i, n, pool.h)
    {
      hide Ok, Row, Untouched;
      RowMerge(pool, segs, i);
      DoSwallow(header, i, {}, b, w);
      var rest := DoSplitOff(header, n, i, b, w);
      DoPutBack(rest, b, w);
    }

    /** The free right neighbour gives up bytes (memheap.c:352-401). */
    method GrowInPlace(header: int, n: nat, oldSize: nat, ghost i: nat)
      requires Valid() && i + 1 < |segs| && segs[i].addr == header && segs[i].used && !segs[i + 1].used
      requires oldSize == segs[i].size < n <= segs[i].size + segs[i + 1].size && Div(n, 4)
      modifies this
      ensures Valid()
      ensures i < |segs| && segs[i].addr == header && segs[i].size == n
      ensures Resized(pool, old(segs), segs, old(bytes), bytes, i, i, n)
      ensures segs == GrowSpec(old(segs), i, n, pool.h)
      ensures Even(8) && old(Aligned(segs, 8)) ==> (Aligned(segs, 8) <==> Div(n, 8))
    {
      hide Ok, Row, FreeTotal, Coalesced, Untouched, Resized, Live, Aligned, Div, GrowSpec;
      ghost var s0, b := segs, bytes;
      ghost var w := Row(pool, s0) + Row(pool, GrowSpec(s0, i, n, pool.h));
      GrowFacts(pool, Heads(), s0, frees, i, n);
      if Even(4) { GrowAligned(s0, i, n, pool.h, 4); }
      if Even(8) && Aligned(s0, 8) { GrowAligned(s0, i, n, pool.h, 8); }
      StartUntouched(bytes, w, pool.h);
      available := available - (n - oldSize);
      if poolSize - available > maxUsed { maxUsed := poolSize - available; }
      OkTiled(pool, Heads(), s0, frees);
      PushBack(header, n, i, b, w);
      OkTiled(pool, Heads(), segs, frees);
      InPlace(pool, s0, segs, b, bytes, w, i, n);
    }

    /** The pointer writes of shrinking (memheap.c:433-488). */
    method CutBack(header: int, n: nat, ghost i: nat, ghost b: map<int, Cell>, ghost w: set<int>)
      requires Ok(pool, Heads(), segs, frees, {}) && i < |segs| && segs[i].addr == header && segs[i].used
      requires n + pool.h <= segs[i].size && Untouched(b, bytes, w, pool.h)
      requires Row(pool, segs) <= w && Row(pool, Split(segs, i, n, pool.h)) <= w
      modifies `next, `prev, `nextFree, `prevFree, `used, `bytes, `segs, `frees, `available
      ensures Ok(pool, Heads(), segs, frees, {}) && Untouched(b, bytes, w, pool.h)
      ensures segs == ShrinkSpec(old(segs), i, n, pool.h) && i + 1 < |segs|
      ensures available == old(available) + segs[i + 1].size
                           - if i + 1 < |old(segs)| && !old(segs)[i + 1].used then old(segs)[i + 1].size else 0
      ensures available >= old(available)
    {
      hide Ok, Row, Untouched;
      var rest := DoSplitOff(header, n, i, b, w);
      BlockFacts(pool, Heads(), segs, frees, {rest}, i + 1);
      if !used[next[rest]] {
        BlockFacts(pool, Heads(), segs, frees, {rest}, i + 2);
        available := available - (next[next[rest]] - next[rest] - pool.h);
        NextDiffers(pool, Heads(), segs, frees, {rest}, i + 1);
        RowMerge(pool, segs, i + 1);
        DoSwallow(rest, i + 1, {rest}, b, w);
      }
      DoPutBack(rest, b, w);
      BlockFacts(pool, Heads(), segs, frees, {}, i + 1);
      available := available + (next[rest] - rest - pool.h);
    }

    /** The back part of the block is cut off and joined with a free right neighbour
        (memheap.c:433-491). */
    method Shrink(header: int, n: nat, ghost i: nat)
      requires Valid() && i < |segs| && segs[i].addr == header && segs[i].used && n + pool.h <= segs[i].size
      requires Div(n, 4)
      modifies this
      ensures Valid()
      ensures i < |segs| && segs[i].addr == header && segs[i].size == n
      ensures Resized(pool, old(segs), segs, old(bytes), bytes, i, i, n)
      ensures segs == ShrinkSpec(old(segs), i, n, pool.h)
      ensures Even(8) && old(Aligned(segs, 8)) ==> (Aligned(segs, 8) <==> Div(n, 8))
    {
      hide Ok, Row, FreeTotal, Coalesced, Untouched, Resized, Live, Aligned, Div, ShrinkSpec, Split;
      ghost var s0, b := segs, bytes;
      ghost var w := Row(pool, s0) + Row(pool, ShrinkSpec(s0, i, n, pool.h));
      OkTiled(pool, Heads(), s0, frees);
      ShrinkFacts(pool, s0, i, n);
      if Even(4) { ShrinkAligned(s0, i, n, pool.h, 4); }
      if Even(8) && Aligned(s0, 8) { ShrinkAligned(s0, i, n, pool.h, 8); }
      CutRow(pool, s0, i, n);
      StartUntouched(bytes, w, pool.h);
      CutBack(header, n, i, b, w);
      OkTiled(pool, Heads(), segs, frees);
      InPlace(pool, s0, segs, b, bytes, w, i, n);
    }

    /** A new block, the old contents, and the old block freed (memheap.c:409-416). */
    method Move(ptr: int, n: nat, oldSize: nat, ghost i: nat) returns (r: int, ghost j: nat)
      requires Valid() && i < |segs| && segs[i].addr + pool.h == ptr && segs[i].used && oldSize == segs[i].size < n
      requires MINIALLOC <= n <= WORD_LIMIT - align
      modifies this
      ensures Valid()
      ensures r == NULL ==> segs == old(segs) && bytes == old(bytes) && old(NoRoom(Request(n, align)))
      ensures r != NULL ==> Resized(pool, old(segs), segs, old(bytes), bytes, i, j, n) && r == segs[j].addr + pool.h
      ensures r != NULL ==> r != ptr
      ensures align == 8 && Even(8) && old(Aligned(segs, 8)) ==> Aligned(segs, 8)
    {
      hide Ring, Row, Spared, FreeTotal, Coalesced, Untouched, SameStart, Live, AllocSpec, FreeSpec, Ok, SamePayload;
      hide Aligned, Div, Request;
      ghost var s0, b0 := segs, bytes;
      j := 0;
      ghost var a, k;
      r, a, k := Alloc(n);
      if r != NULL {
        ghost var s1, b1 := segs, bytes;
        RequestCoversSize(n, align);
        RequestAgain(n, align);
        LiveHas(s0, i);
        ghost var i1 := StillThere(s0, i, s1);
        LiveHas(s1, a);
        PayloadInMemory(pool, Heads(), s1, frees, i1);
        PayloadInMemory(pool, Heads(), s1, frees, a);
        Apart(pool, Heads(), s1, frees, i1, a);
        OkTiled(pool, Heads(), s1, frees);
        bytes := CopyBytes(bytes, r, ptr, oldSize);
        ghost var b2 := bytes;
        Free(ptr, i1);
        j := StillThere(s1, a, segs);
        MoveResized(pool, s0, s1, segs, b0, b1, b2, bytes, i, i1, a, j, n, oldSize);
      }
    }

    /** rt_memheap_realloc on a live block, the new size n already aligned
        (memheap.c:311-492). */
    method Resize(ptr: int, n: nat, ghost i: nat) returns (r: int, ghost j: nat)
      requires Valid() && i < |segs| && segs[i].used && segs[i].addr + pool.h == ptr
      requires MINIALLOC <= n <= WORD_LIMIT - align && Div(n, 4)
      requires n + MINIALLOC < WORD_LIMIT || i + 1 == |segs| || segs[i + 1].used
      modifies this
      ensures Valid()
      ensures r == NULL ==>
                && segs == old(segs) && bytes == old(bytes)
                && n > segs[i].size && old(!CanGrow(i, n) && NoRoom(Request(n, align)))
      ensures r != NULL ==> Resized(pool, old(segs), segs, old(bytes), bytes, i, j, n) && r == segs[j].addr + pool.h
      ensures old(CutsInPlace(i, n)) ==> r == ptr && j == i && segs[i].size == n
      ensures n <= old(segs)[i].size && old(!CutsInPlace(i, n)) ==> r == ptr && segs == old(segs) && bytes == old(bytes)
      ensures align == 8 && Even(8) && old(Aligned(segs, 8)) ==>
                (Aligned(segs, 8) <==> Div(n, 8) || old(!CutsInPlace(i, n)))
    {
      hide Ok, FreeTotal, Coalesced, Live, Resized, Aligned, GrowSpec, ShrinkSpec, Div, Request;
      j := i;
      var header := ptr - pool.h;
      BlockFacts(pool, Heads(), segs, frees, {}, i);
      var oldSize := next[header] - header - pool.h;
      if n > oldSize {
        var nextPtr := next[header];
        if !used[nextPtr] {
          BlockFacts(pool, Heads(), segs, frees, {}, i + 1);
          var nextSize := next[nextPtr] - nextPtr - pool.h;
          PairFits(pool, Heads(), segs, frees, i);
          if GrowTest(oldSize, nextSize, n) {
            GrowInPlace(header, n, oldSize, i);
            return ptr, j;
          }
        }
        r, j := Move(ptr, n, oldSize, i);
        return r, j;
      }
      if n + pool.h + MINIALLOC >= oldSize {
        OkTiled(pool, Heads(), segs, frees);
        KeptAsIs(pool, segs, bytes, i, n);
        return ptr, j;
      }
      Shrink(header, n, i);
      r := ptr;
    }

    /** rt_memheap_realloc. With a new size of 0 it frees, without a block it allocates;
        otherwise either nothing changes and NULL is returned, or the block, in place or
        moved, has the new size, the bytes both sizes have in common, and no other live block
        is disturbed. Shrinking never fails; growing fails only if neither the right neighbour
        nor a new block can supply the bytes. With RT_ALIGN_SIZE 8 the pool stays aligned
        unless a size of at most 8 is cut to the minimum of 12 in place. */
    method Realloc(ptr: int, newsize: nat, ghost i: nat) returns (r: int, ghost j: nat)
      requires Valid() && newsize < WORD_LIMIT
      requires ptr != NULL ==> i < |segs| && segs[i].used && segs[i].addr + pool.h == ptr
      requires ptr != NULL ==>
                 Request(newsize, align) + MINIALLOC < WORD_LIMIT || i + 1 == |segs| || segs[i + 1].used
      modifies this
      ensures Valid()
      ensures newsize == 0 ==> r == NULL && Spared(pool, old(segs), segs, old(bytes), bytes)
      ensures newsize == 0 ==> Live(segs) == if ptr == NULL then old(Live(segs)) else old(Live(segs)) - {old(segs)[i]}
      ensures newsize != 0 && r == NULL ==>
                && segs == old(segs) && bytes == old(bytes)
                && var n := Request(newsize, align);
                   && old(NoRoom(Request(n, align)))
                   && (ptr != NULL ==> n > segs[i].size && old(!CanGrow(i, n)))
      ensures newsize != 0 && r != NULL ==>
                j < |segs| && segs[j].size >= Request(newsize, align) && r == segs[j].addr + pool.h
      ensures newsize != 0 && r != NULL && ptr == NULL ==>
                && Live(segs) == old(Live(segs)) + {segs[j]} && segs[j] !in old(Live(segs))
                && Spared(pool, old(segs), segs, old(bytes), bytes)
      ensures newsize != 0 && r != NULL && ptr != NULL ==>
                && Resized(pool, old(segs), segs, old(bytes), bytes, i, j, Request(newsize, align))
                && (newsize <= WORD_LIMIT - align ==> Resized(pool, old(segs), segs, old(bytes), bytes, i, j, newsize))
      ensures newsize != 0 && ptr != NULL ==>
                var n := Request(newsize, align);
                if old(CutsInPlace(i, n)) then r == ptr && j == i && segs[i].size == n
                else n <= old(segs)[i].size ==> r == ptr && segs == old(segs) && bytes == old(bytes)
      ensures align == 8 && Even(8) && old(Aligned(segs, 8)) ==>
                (Aligned(segs, 8) <==>
                   || newsize == 0 || 8 < newsize <= WORD_LIMIT - 8
                   || ptr == NULL || old(!CutsInPlace(i, Request(newsize, align))))
    {
      hide Ok, FreeTotal, Coalesced, Live, Resized, Spared, AllocSpec, FreeSpec, Aligned, Div, Request;
      j := i;
      if newsize == 0 {
        Free(ptr, i);
        return NULL, j;
      }
      var n := Request(newsize, align);
      RequestCoversSize(newsize, align);
      Request8(newsize);
      if ptr == NULL {
        ghost var k;
        RequestTwice(newsize, align);
        RequestAgain(n, align);
        r, j, k := Alloc(n);
      } else {
        r, j := Resize(ptr, n, i);
        if r != NULL {
          ResizedSize(pool, old(segs), segs, old(bytes), bytes, i, j, n);
          if newsize <= n { ResizedLess(pool, old(segs), segs, old(bytes), bytes, i, j, n, newsize); }
        }
      }
    }
  }
}
