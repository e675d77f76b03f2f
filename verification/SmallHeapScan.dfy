/** When the scan of rt_malloc in mem.c ends. It follows `next` from lfree on and leaves at the
    first block that fits or at the first offset that reaches its bound, which is computed on
    32 bits. */
module SmallHeapScan {
  import opened Segments
  import opened HeapMemory
  import opened HeapSpec
  import opened SmallHeapModel
  import opened SmallHeap

  /** The offset after k steps from a. */
  function ScanAt(hd: Headers, a: int, k: nat): int
    decreases k
  {
    if k == 0 || a !in hd.next then a else ScanAt(hd, hd.next[a], k - 1)
  }

  predicate Fits(hd: Headers, a: int, n: nat, h: nat) {
    a in hd.used && !hd.used[a] && a in hd.next && hd.next[a] - (a + h) >= n
  }

  /** The condition of mem.c:306 fails, or the one of mem.c:311 holds. */
  predicate Leaves(hd: Headers, a: int, n: nat, h: nat, memSize: nat) {
    a >= (memSize - n) % WORD_LIMIT || Fits(hd, a, n, h)
  }

  ghost predicate ScanEnds(hd: Headers, a: int, n: nat, h: nat, memSize: nat) {
    exists k: nat :: Leaves(hd, ScanAt(hd, a, k), n, h, memSize)
  }

  /** The scan goes from block to block and stays at the end marker. */
  lemma {:induction false} ScanIs(p: Pool, hd: Headers, segs: seq<Seg>, i: nat, k: nat)
    requires Ok(p, hd, segs) && i <= |segs|
    ensures ScanAt(hd, StartOf(segs, p.tail, i), k) == StartOf(segs, p.tail, if i + k < |segs| then i + k else |segs|)
    decreases k
  {
    if k > 0 {
      if i < |segs| {
        BlockFacts(p, hd, segs, i);
        ScanIs(p, hd, segs, i + 1, k - 1);
      } else {
        ScanIs(p, hd, segs, i, k - 1);
      }
    }
  }

  /** In a heap smaller than the request no block fits, and the end marker is below the bound. */
  lemma NeverLeaves(p: Pool, hd: Headers, segs: seq<Seg>, i: nat, n: nat, memSize: nat)
    requires Ok(p, hd, segs) && i <= |segs| && p.tail == memSize + p.h
    requires memSize < n && n + p.h < WORD_LIMIT && memSize < WORD_LIMIT
    ensures !Leaves(hd, StartOf(segs, p.tail, i), n, p.h, memSize)
  {
    ScanBound(memSize, p.h, n);
    if i < |segs| {
      BlockFacts(p, hd, segs, i);
      Ordered(segs, p.start, p.tail, p.h, i, |segs|);
    }
  }

  /** A request that is not refused before the scan is scanned for in finitely many steps if and
      only if the heap is not smaller than the minimum block. */
  lemma ScanEndsExactly(heap: Heap, size0: nat)
    requires heap.Valid() && size0 != 0 && AlignUp(size0, heap.align) <= heap.memSize
    ensures ScanEnds(heap.Heads(), heap.lfree, Need(size0, heap.align), heap.h, heap.memSize) <==> heap.Scans(size0)
  {
    var p, hd, segs, n := heap.P(), heap.Heads(), heap.segs, Need(size0, heap.align);
    if heap.Scans(size0) {
      var k := |segs| - heap.lf;
      ScanIs(p, hd, segs, heap.lf, k);
      assert Leaves(hd, ScanAt(hd, heap.lfree, k), n, heap.h, heap.memSize);
    } else {
      forall k: nat ensures !Leaves(hd, ScanAt(hd, heap.lfree, k), n, heap.h, heap.memSize) {
        ScanIs(p, hd, segs, heap.lf, k);
        NeverLeaves(p, hd, segs, if heap.lf + k < |segs| then heap.lf + k else |segs|, n, heap.memSize);
      }
    }
  }
}
