/** rt_malloc, rt_free and rt_realloc of mem.c: first fit from the lowest free block. */
module SmallHeap {
  import opened Segments
  import opened HeapMemory
  import opened HeapSpec
  import opened SmallHeapModel

  const NULL := 0
  const MIN_SIZE := 12

  /** MIN_SIZE_ALIGNED. */
  function MinAligned(align: Align): (m: nat)
    ensures MIN_SIZE <= m
  {
    AlignUp(MIN_SIZE, align)
  }

  /** The payload size that rt_malloc looks for. */
  function Need(size: nat, align: Align): (n: nat)
    ensures n >= MinAligned(align) && Div(n, align)
  {
    if AlignUp(size, align) < MinAligned(align) then MinAligned(align) else AlignUp(size, align)
  }

  /** A request is met in full exactly when aligning it does not wrap around. */
  lemma NeedCoversSize(size: nat, align: Align)
    requires size < WORD_LIMIT
    ensures Need(size, align) >= size <==> size <= WORD_LIMIT - align
    ensures Need(size, align) == MinAligned(align) < MIN_SIZE + align || Need(size, align) < size + align
  {
  }

  /** The scan stops below memSize - size, computed on 32 bits. The end marker at memSize + h,
      which is its own successor, passes that test exactly when the size exceeds the heap (and
      does not come within a header of the word limit); the scan would then never leave it. */
  lemma ScanBound(memSize: nat, h: nat, size: nat)
    requires memSize < WORD_LIMIT && size < WORD_LIMIT
    ensures memSize + h < (memSize - size) % WORD_LIMIT <==> memSize < size && size + h < WORD_LIMIT
  {
  }

  /** Only one kind of free block that would fit is never considered: the last block of the
      heap when it fits exactly (the test of mem.c:306 is strict). */
  lemma OnlyExactLastFitSkipped(memSize: nat, h: nat, segs: seq<Seg>, j: nat, n: nat)
    requires RowOk(HeapPool(memSize, h), segs) && j < |segs| && segs[j].size >= n
    ensures segs[j].addr >= memSize - n <==> j == |segs| - 1 && segs[j].size == n
  {
    var tail := memSize + h;
    assert Abuts(segs, tail, h, j);
    if j + 1 < |segs| { Ordered(segs, 0, tail, h, j + 1, |segs|); }
  }

  lemma ZeroDivides(align: Align)
    ensures Div(NULL, align)
  {
  }

  lemma PayloadDivides(segs: seq<Seg>, i: nat, h: nat, align: Align)
    requires Aligned(segs, align) && Div(h, align) && i < |segs|
    ensures Div(segs[i].addr + h, align)
  {
    DivSum(segs[i].addr, h, align);
  }

  class Heap {
    const memSize: nat
    const h: nat
    const align: Align
    var next: map<int, int>
    var prev: map<int, int>
    var used: map<int, bool>
    var lfree: int
    var usedMem: int
    var maxMem: int
    var bytes: map<int, Cell>
    ghost var segs: seq<Seg>
    ghost var lf: nat

    ghost function P(): Pool {
      HeapPool(memSize, h)
    }

    function Tail(): int {
      memSize + h
    }

    ghost function Heads(): Headers
      reads this
    {
      Headers(next, prev, used)
    }

    /** lfree is a free block, the one at position lf of the row, or the end marker. */
    ghost predicate LfreeOk()
      reads this
    {
      lf <= |segs| && lfree == StartOf(segs, memSize + h, lf) && (lf < |segs| ==> !segs[lf].used)
    }

    /** No free block lies below lfree. */
    ghost predicate Lowest()
      reads this
      requires lf <= |segs|
    {
      forall k :: 0 <= k < lf ==> segs[k].used
    }

    /** No free block from lfree on is large enough for n bytes and starts below memSize - n. */
    ghost predicate NoFit(n: nat)
      reads this
    {
      forall j :: lf <= j < |segs| && segs[j].addr < memSize - n ==> segs[j].used || segs[j].size < n
    }

    /** The sizes for which the scan ends: the minimum block does not exceed the heap, or the
        request is refused before the scan. */
    predicate Scans(size0: nat) {
      AlignUp(size0, align) > memSize || MinAligned(align) <= memSize
    }

    ghost predicate MemoryOk()
      reads this
    {
      forall k :: 0 <= k < memSize + 2 * h ==> k in bytes
    }

    /** Blocks tile the heap, neighbours are not both free, `prev` inverts `next`, and the
        statistics are the bytes that used blocks take up. Offsets and sizes are aligned. */
    ghost predicate Valid()
      reads this
    {
      && h > 0 && memSize + 2 * h < WORD_LIMIT
      && Div(h, align) && Aligned(segs, align)
      && Ok(P(), Heads(), segs)
      && Coalesced(segs)
      && LfreeOk()
      && usedMem == UsedExtent(segs, h) <= maxMem
      && MemoryOk()
    }

    /** rt_system_heap_init on an aligned range of memSize + 2 * h bytes. */
    constructor (memSize: nat, h: nat, align: Align, memory: map<int, Cell>)
      requires h > 0 && memSize + 2 * h < WORD_LIMIT && Div(memSize, align) && Div(h, align)
      requires forall k :: 0 <= k < memSize + 2 * h ==> k in memory
      ensures Valid() && Lowest()
      ensures segs == [Seg(0, memSize, false)] && this.memSize == memSize && this.h == h && this.align == align
    {
      this.memSize, this.h, this.align := memSize, h, align;
      var tail := memSize + h;
      next := map[0 := tail, tail := tail];
      prev := map[0 := 0, tail := tail];
      used := map[0 := false, tail := true];
      lfree, usedMem, maxMem := 0, 0, 0;
      bytes := Stamp(Stamp(memory, 0, h), tail, h);
      segs, lf := [Seg(0, memSize, false)], 0;
      new;
      hide Ok, Stamp, Coalesced, UsedExtent;
      assert Div(0, align);
      InitOk(memSize, h);
      StampKeys(memory, 0, h);
      StampKeys(Stamp(memory, 0, h), tail, h);
    }

    // ----- single header writes -----
    // b is the memory at the start of the operation, w the headers it may write to.

    method SetNext(a: int, v: int, ghost b: map<int, Cell>, ghost w: set<int>)
      requires a in w && Untouched(b, bytes, w, h)
      modifies `next, `bytes
      ensures next == old(next)[a := v] && Untouched(b, bytes, w, h)
    {
      next := next[a := v];
      UntouchedStamp(b, bytes, w, a, h);
      bytes := Stamp(bytes, a, h);
    }

    method SetPrev(a: int, v: int, ghost b: map<int, Cell>, ghost w: set<int>)
      requires a in w && Untouched(b, bytes, w, h)
      modifies `prev, `bytes
      ensures prev == old(prev)[a := v] && Untouched(b, bytes, w, h)
    {
      prev := prev[a := v];
      UntouchedStamp(b, bytes, w, a, h);
      bytes := Stamp(bytes, a, h);
    }

    method SetUsedFlag(a: int, v: bool, ghost b: map<int, Cell>, ghost w: set<int>)
      requires a in w && Untouched(b, bytes, w, h)
      modifies `used, `bytes
      ensures used == old(used)[a := v] && Untouched(b, bytes, w, h)
    {
      used := used[a := v];
      UntouchedStamp(b, bytes, w, a, h);
      bytes := Stamp(bytes, a, h);
    }

    // ----- header sequences -----

    /** A free header behind the first n bytes of used block a (mem.c:329-348, 478-491). */
    method Cut(a: int, n: nat, ghost i: nat, ghost b: map<int, Cell>, ghost w: set<int>) returns (rest: int)
      requires Ok(P(), Heads(), segs) && i < |segs| && segs[i].addr == a && segs[i].used && n + h <= segs[i].size
      requires Row(P(), segs) <= w && Row(P(), Split(segs, i, n, h)) <= w && Untouched(b, bytes, w, h)
      modifies `next, `prev, `used, `bytes, `segs
      ensures rest == a + h + n && segs == Split(old(segs), i, n, h)
      ensures Ok(P(), Heads(), segs) && Untouched(b, bytes, w, h)
    {
      hide Ok, Untouched, Row;
      BlockFacts(P(), Heads(), segs, i);
      BlockRow(P(), segs, i);
      CutOk(P(), Heads(), segs, i, n);
      BlockRow(P(), Split(segs, i, n, h), i + 1);
      rest := a + h + n;
      SetUsedFlag(rest, false, b, w);
      SetNext(rest, next[a], b, w);
      SetPrev(rest, a, b, w);
      SetNext(a, rest, b, w);
      CutAway(P(), old(Heads()), segs, i, n);
      if next[rest] != Tail() {
        SetPrev(next[rest], rest, b, w);
      }
      segs := Split(segs, i, n, h);
    }

    /** Block a swallows the block after it (mem.c:178-179). */
    method Swallow(a: int, ghost i: nat, ghost b: map<int, Cell>, ghost w: set<int>)
      requires Ok(P(), Heads(), segs) && i + 1 < |segs| && segs[i].addr == a
      requires Row(P(), segs) <= w && Untouched(b, bytes, w, h)
      modifies `next, `prev, `bytes, `segs
      ensures segs == Merge(old(segs), i, h)
      ensures Ok(P(), Heads(), segs) && Untouched(b, bytes, w, h)
    {
      hide Ok, Untouched, Row;
      BlockFacts(P(), Heads(), segs, i);
      BlockFacts(P(), Heads(), segs, i + 1);
      BlockRow(P(), segs, i);
      BlockRow(P(), segs, i + 1);
      DropOk(P(), Heads(), segs, i);
      var n := next[a];
      SetNext(a, next[n], b, w);
      SetPrev(next[a], a, b, w);
      segs := Merge(segs, i, h);
    }

    method MarkBlock(a: int, u: bool, ghost i: nat, ghost b: map<int, Cell>, ghost w: set<int>)
      requires Ok(P(), Heads(), segs) && i < |segs| && segs[i].addr == a
      requires Row(P(), segs) <= w && Untouched(b, bytes, w, h)
      modifies `used, `bytes, `segs
      ensures segs == Mark(old(segs), i, u)
      ensures Ok(P(), Heads(), segs) && Untouched(b, bytes, w, h)
    {
      hide Ok, Untouched, Row;
      BlockRow(P(), segs, i);
      MarkOk(P(), Heads(), segs, i, u);
      SetUsedFlag(a, u, b, w);
      segs := Mark(segs, i, u);
    }

    // ----- allocation -----

    /** The scan of rt_malloc from lfree on (mem.c:305-311). */
    method FindFit(size: nat) returns (ptr: int, found: bool, ghost i: nat)
      requires Valid() && size <= memSize
      ensures found ==>
                i < |segs| && segs[i].addr == ptr && !segs[i].used && size <= segs[i].size && ptr < memSize - size
      ensures found ==> lf <= i && forall j :: lf <= j < i ==> segs[j].used || segs[j].size < size
      ensures !found ==> NoFit(size)
    {
      hide Ok, Coalesced, UsedExtent;
      ptr, i := lfree, lf;
      while ptr < memSize - size
        invariant lf <= i <= |segs| && ptr == StartOf(segs, Tail(), i)
        invariant forall j :: lf <= j < i ==> segs[j].used || segs[j].size < size
        decreases |segs| - i
      {
        BlockFacts(P(), Heads(), segs, i);
        if !used[ptr] && next[ptr] - (ptr + h) >= size {
          return ptr, true, i;
        }
        ptr := next[ptr];
        i := i + 1;
      }
      found := false;
      forall j | lf <= j < |segs| && segs[j].addr < memSize - size
        ensures segs[j].used || segs[j].size < size
      {
        if i <= j { Behind(P(), Heads(), segs, i, j); }
      }
    }

    /** lfree moves on over used blocks (mem.c:383-384). */
    method AdvanceLfree()
      requires Ok(P(), Heads(), segs) && lf <= |segs| && lfree == StartOf(segs, Tail(), lf)
      modifies `lfree, `lf
      ensures LfreeOk() && old(lf) <= lf && forall k :: old(lf) <= k < lf ==> segs[k].used
    {
      hide Ok;
      EndFacts(P(), Heads(), segs);
      while true
        invariant old(lf) <= lf <= |segs| && lfree == StartOf(segs, Tail(), lf)
        invariant forall k :: old(lf) <= k < lf ==> segs[k].used
        decreases |segs| - lf
      {
        if lf < |segs| { BlockFacts(P(), Heads(), segs, lf); }
        if !(used[lfree] && lfree != Tail()) { break; }
        lfree := next[lfree];
        lf := lf + 1;
      }
    }

    /** The found block is taken, cut when the rest can stand alone (mem.c:316-370). */
    method TakeBlock(ptr: int, size: nat, ghost i: nat)
      requires Valid() && i < |segs| && segs[i].addr == ptr && !segs[i].used && size <= segs[i].size
      modifies `next, `prev, `used, `bytes, `segs, `usedMem, `maxMem
      ensures Ok(P(), Heads(), segs) && MemoryOk() && usedMem == UsedExtent(segs, h) <= maxMem
      ensures segs == AllocSpec(old(segs), i, size, h, MinAligned(align))
      ensures Spared(P(), old(segs), segs, old(bytes), bytes)
    {
      hide Ok, Coalesced, UsedExtent, Row, Untouched, Spared, MinAligned;
      ghost var s0, b, min := segs, bytes, MinAligned(align);
      ghost var s1 := AllocSpec(s0, i, size, h, min);
      ghost var w := Row(P(), s0) + Row(P(), s1);
      AllocExtent(s0, i, size, h, min);
      StartUntouched(b, w, h);
      BlockFacts(P(), Heads(), s0, i);
      RowMark(P(), s0, i, true);
      MarkBlock(ptr, true, i, b, w);
      if next[ptr] - (ptr + h) >= size + h + MinAligned(align) {
        var rest := Cut(ptr, size, i, b, w);
        usedMem := usedMem + size + h;
      } else {
        usedMem := usedMem + (next[ptr] - ptr);
      }
      if maxMem < usedMem { maxMem := usedMem; }
      Finish(P(), old(Heads()), s0, Heads(), segs, b, bytes, w);
    }

    /** The block is taken and lfree moves on if it was the lowest (mem.c:380-387). */
    method Take(ptr: int, size: nat, ghost i: nat)
      requires Valid() && i < |segs| && segs[i].addr == ptr && !segs[i].used && size <= segs[i].size && lf <= i
      requires Div(size, align)
      modifies this
      ensures Valid()
      ensures segs == AllocSpec(old(segs), i, size, h, MinAligned(align))
      ensures Spared(P(), old(segs), segs, old(bytes), bytes)
      ensures old(Lowest()) ==> Lowest()
    {
      hide Ok, Coalesced, UsedExtent, Spared, MinAligned, AllocSpec, Aligned, Div;
      ghost var s0 := segs;
      AllocAligned(s0, i, size, h, MinAligned(align), align);
      AllocKeepsCoalesced(s0, i, size, h, MinAligned(align));
      AllocPrefix(s0, i, size, h, MinAligned(align));
      if lf < i { Apart(P(), Heads(), s0, lf, i); }
      TakeBlock(ptr, size, i);
      if ptr == lfree {
        AdvanceLfree();
      }
    }

    /** rt_malloc. The block is the first free one from lfree on that is large enough and
        starts below memSize - n; NULL means there is none. If no free block lies below
        lfree, that is first fit over the whole heap. */
    method Malloc(size0: nat) returns (r: int, ghost i: nat)
      requires Valid() && (size0 == 0 || Scans(size0))
      modifies this
      ensures Valid() && (old(Lowest()) ==> Lowest())
      ensures r == NULL <==> size0 == 0 || AlignUp(size0, align) > memSize || old(NoFit(Need(size0, align)))
      ensures Div(r, align)
      ensures var n := Need(size0, align);
              if r == NULL then
                segs == old(segs) && bytes == old(bytes) && lf == old(lf)
              else
                && size0 != 0 && old(lf) <= i < |old(segs)| && r == old(segs)[i].addr + h
                && !old(segs)[i].used && n <= old(segs)[i].size && old(segs)[i].addr < memSize - n
                && (forall j :: old(lf) <= j < i ==> old(segs)[j].used || old(segs)[j].size < n)
                && segs == AllocSpec(old(segs), i, n, h, MinAligned(align))
                && i < |segs| && segs[i].used && segs[i].size >= n && segs[i].addr == old(segs)[i].addr
                && Live(segs) == old(Live(segs)) + {segs[i]} && segs[i] !in old(Live(segs))
                && segs[i].size == (if old(segs)[i].size >= n + h + MinAligned(align) then n else old(segs)[i].size)
      ensures Spared(P(), old(segs), segs, old(bytes), bytes)
    {
      hide Ok, Coalesced, UsedExtent, Spared, AllocSpec, MinAligned, Live, Aligned, Div, AlignUp;
      ZeroDivides(align);
      OkRow(P(), Heads(), segs);
      MemoryCovers(P(), bytes);
      NothingTouched(P(), segs, bytes);
      r, i := NULL, 0;
      if size0 == 0 { return; }
      var size := AlignUp(size0, align);
      if size > memSize { return; }
      if size < MinAligned(align) { size := MinAligned(align); }
      assert size == Need(size0, align);
      var ptr, found;
      ptr, found, i := FindFit(size);
      if found {
        AllocSets(P(), segs, i, size, MinAligned(align));
        BlockFacts(P(), Heads(), segs, i);
        PayloadDivides(segs, i, h, align);
        NotNull(P(), Heads(), segs, i);
        Take(ptr, size, i);
        r := ptr + h;
      }
    }

    // ----- freeing -----

    /** Free block a takes over the free block n after it; lfree moves with it
        (mem.c:174-179, 187-192). */
    method JoinNext(a: int, n: int, ghost i: nat, ghost b: map<int, Cell>, ghost w: set<int>)
      requires Ok(P(), Heads(), segs) && i + 1 < |segs| && segs[i].addr == a && segs[i + 1].addr == n
      requires !segs[i].used && !segs[i + 1].used && LfreeOk()
      requires Row(P(), segs) <= w && Untouched(b, bytes, w, h)
      modifies `next, `prev, `bytes, `segs, `lfree, `lf
      ensures Ok(P(), Heads(), segs) && LfreeOk() && Untouched(b, bytes, w, h)
      ensures segs == Merge(old(segs), i, h) && lf == MergeLf(i, old(lf)) && Row(P(), segs) <= w
    {
      hide Ok, Untouched, Row, Merge;
      LfreePlace(P(), Heads(), segs, i, lf);
      if lfree == n {
        lfree := a;
      }
      MergeLfree(segs, i, h, Tail(), lf);
      lf := MergeLf(i, lf);
      RowMerge(P(), segs, i);
      Swallow(a, i, b, w);
    }

    /** plug_holes: a free block joins its free neighbours, and lfree follows. */
    method PlugHoles(mem: int, ghost i: nat, ghost b: map<int, Cell>, ghost w: set<int>)
      requires Ok(P(), Heads(), segs) && i < |segs| && segs[i].addr == mem && !segs[i].used && LfreeOk()
      requires Row(P(), segs) <= w && Untouched(b, bytes, w, h)
      modifies `next, `prev, `bytes, `segs, `lfree, `lf
      ensures Ok(P(), Heads(), segs) && LfreeOk() && Untouched(b, bytes, w, h)
      ensures segs == PlugSpec(old(segs), i, h) && lf == PlugLf(old(segs), i, old(lf))
    {
      hide Ok, Untouched, Row, Merge, MergeLf;
      BlockFacts(P(), Heads(), segs, i);
      EndFacts(P(), Heads(), segs);
      if i + 1 < |segs| { MergeShape(segs, i, h); }
      var nmem := next[mem];
      if mem != nmem && !used[nmem] && nmem != Tail() {
        JoinNext(mem, nmem, i, b, w);
        BlockFacts(P(), Heads(), segs, i);
      }
      var pmem := prev[mem];
      if pmem != mem && !used[pmem] {
        JoinNext(pmem, mem, i - 1, b, w);
      }
    }

    /** rt_free. The block is no longer live, every other live block keeps its place, size
        and bytes, free neighbours are joined, and lfree stays the lowest free block if it
        was. */
    method Free(rmem: int, ghost i: nat)
      requires Valid()
      requires 0 < rmem < Tail() ==> i < |segs| && segs[i].used && segs[i].addr + h == rmem
      modifies this
      ensures Valid() && (old(Lowest()) ==> Lowest())
      ensures !(0 < rmem < Tail()) ==> segs == old(segs) && bytes == old(bytes)
      ensures 0 < rmem < Tail() ==> segs == FreeSpec(old(segs), i, h) && Live(segs) == old(Live(segs)) - {old(segs)[i]}
      ensures Spared(P(), old(segs), segs, old(bytes), bytes)
    {
      hide Ok, Coalesced, UsedExtent, Row, Untouched, Spared, Live, FreeSpec, PlugSpec, Aligned, Div;
      OkRow(P(), Heads(), segs);
      ghost var s0, b := segs, bytes;
      if rmem == NULL || rmem < 0 || rmem >= Tail() {
        MemoryCovers(P(), bytes);
        NothingTouched(P(), segs, bytes);
        return;
      }
      var mem := rmem - h;
      ghost var w := Row(P(), s0) + Row(P(), FreeSpec(s0, i, h));
      FreeKeepsCoalesced(s0, i, h);
      FreeAligned(s0, i, h, align);
      FreeSets(P(), s0, i);
      FreeExtent(s0, i, h);
      PlugIsFree(s0, i, h);
      StartUntouched(b, w, h);
      RowMark(P(), s0, i, false);
      BlockFacts(P(), Heads(), s0, i);
      LfreePlace(P(), Heads(), s0, i, lf);
      MarkBlock(mem, false, i, b, w);
      MarkShape(s0, i, false);
      if mem < lfree {
        lfree := mem;
        lf := i;
      }
      usedMem := usedMem - (next[mem] - mem);
      PlugLowest(segs, i, lf, h);
      PlugHoles(mem, i, b, w);
      Finish(P(), old(Heads()), s0, Heads(), segs, b, bytes, w);
    }

    // ----- resizing -----

    /** The back part of a block is cut off and joined with a free right neighbour
        (mem.c:471-498). lfree is not lowered: it stays the lowest free block exactly when it
        lies below the block already or is the neighbour that the cut-off part joins. */
    method Shrink(mem: int, n: nat, ghost i: nat)
      requires Valid() && i < |segs| && segs[i].addr == mem && segs[i].used && n + h <= segs[i].size
      requires Div(n, align)
      modifies this
      ensures Valid()
      ensures i < |segs| && segs[i].addr == mem && segs[i].size == n
      ensures Resized(P(), old(segs), segs, old(bytes), bytes, i, i, n)
      ensures old(Lowest()) ==>
                (Lowest() <==> old(lfree) < mem || (i + 1 < |old(segs)| && !old(segs)[i + 1].used))
    {
      hide Ok, Coalesced, UsedExtent, Row, Untouched, Resized, Live, PlugSpec, ShrinkSpec, Aligned, Div;
      ghost var s0, b, l0 := segs, bytes, lf;
      ghost var w := Row(P(), s0) + Row(P(), ShrinkSpec(s0, i, n, h));
      OkRow(P(), Heads(), s0);
      ShrinkFacts(P(), s0, i, n);
      ShrinkAligned(s0, i, n, h, align);
      ShrinkExtent(s0, i, n, h);
      CutRow(P(), s0, i, n);
      PlugIsShrink(s0, i, n, h);
      StartUntouched(b, w, h);
      BlockFacts(P(), Heads(), s0, i);
      LfreePlace(P(), Heads(), s0, i, lf);
      usedMem := usedMem - ((next[mem] - mem - h) - n);
      CutLfree(s0, i, n, h, Tail(), lf);
      var rest := Cut(mem, n, i, b, w);
      if lf > i { lf := lf + 1; }
      PlugHoles(rest, i + 1, b, w);
      ShrinkLowest(s0, i, n, h, l0);
      OkRow(P(), Heads(), segs);
      InPlace(P(), s0, segs, b, bytes, w, i, n);
    }

    /** A new block, the common bytes, and the old block freed (mem.c:502-509). */
    method Move(rmem: int, n: nat, size: nat, ghost i: nat) returns (r: int, ghost j: nat)
      requires Valid() && Scans(n) && 0 < n <= memSize && AlignUp(n, align) == n
      requires rmem < Tail() && i < |segs| && segs[i].addr + h == rmem && segs[i].used && size == segs[i].size
      modifies this
      ensures Valid() && (old(Lowest()) ==> Lowest())
      ensures r == NULL <==> old(NoFit(Need(n, align)))
      ensures r == NULL ==> segs == old(segs) && bytes == old(bytes)
      ensures r != NULL ==> Resized(P(), old(segs), segs, old(bytes), bytes, i, j, n) && r == segs[j].addr + h
      ensures Div(r, align)
    {
      hide Ok, Coalesced, UsedExtent, Spared, AllocSpec, Live, FreeSpec, SamePayload, SameStart, RowOk;
      hide Need, MinAligned, Aligned, Div, AlignUp, NoFit;
      ghost var s0, b0 := segs, bytes;
      j := 0;
      ghost var a;
      NeedAtLeast(n, align, memSize);
      r, a := Malloc(n);
      if r != NULL {
        ghost var s1, b1 := segs, bytes;
        LiveHas(s0, i);
        ghost var i1 := StillThere(s0, i, s1);
        LiveHas(s1, a);
        Separate(P(), Heads(), s1, i1, a);
        OkRow(P(), Heads(), s1);
        var len := if size < n then size else n;
        bytes := CopyBytes(bytes, r, rmem, len);
        ghost var b2 := bytes;
        NotNull(P(), Heads(), s1, i1);
        Free(rmem, i1);
        j := StillThere(s1, a, segs);
        MoveResized(P(), s0, s1, segs, b0, b1, b2, bytes, i, i1, a, j, n, len);
      }
    }

    /** rt_realloc. Sizes that align to 0 free the block; a pointer outside the heap is
        returned as it is. Otherwise either nothing changes and NULL is returned, or the
        block, in place or moved, has the new size and the common bytes, and no other live
        block is disturbed. It fails exactly if the size exceeds the heap, or if the block
        neither has the size nor can be cut to it and rt_malloc has no room; so making a block
        a little smaller can fail. lfree stays the lowest free block unless the block is cut in
        place below lfree and its right neighbour is used. */
    method Realloc(rmem: int, newsize0: nat, ghost i: nat) returns (r: int, ghost j: nat)
      requires Valid() && (AlignUp(newsize0, align) == 0 || Scans(newsize0))
      requires 0 < rmem < Tail() ==> i < |segs| && segs[i].used && segs[i].addr + h == rmem
      modifies this
      ensures Valid()
      ensures var n := AlignUp(newsize0, align);
              && (n == 0 ==> r == NULL && Spared(P(), old(segs), segs, old(bytes), bytes)
                             && Live(segs) == if 0 < rmem < Tail() then old(Live(segs)) - {old(segs)[i]}
                                              else old(Live(segs)))
              && (n != 0 && r == NULL ==> segs == old(segs) && bytes == old(bytes))
              && (n != 0 && 0 <= rmem < Tail() ==>
                    (r == NULL <==>
                       || n > memSize
                       || (old(NoFit(Need(n, align)))
                           && (rmem != NULL ==> old(segs)[i].size != n && old(segs)[i].size <= n + h + MIN_SIZE))))
              && (n != 0 && r != NULL && 0 < rmem < Tail() ==>
                    Resized(P(), old(segs), segs, old(bytes), bytes, i, j, n) && r == segs[j].addr + h)
              && (n != 0 && r != NULL && rmem == NULL ==>
                    && j < |segs| && r == segs[j].addr + h && segs[j].size >= n
                    && Live(segs) == old(Live(segs)) + {segs[j]} && Spared(P(), old(segs), segs, old(bytes), bytes))
              && (0 < n <= memSize && (rmem < 0 || rmem >= Tail()) ==>
                    r == rmem && segs == old(segs) && bytes == old(bytes))
      ensures 0 < rmem < Tail() && 0 < AlignUp(newsize0, align) <= memSize ==>
                var n, size := AlignUp(newsize0, align), old(segs)[i].size;
                && (n + h + MIN_SIZE < size ==> r == rmem && j == i && segs[i].size == n)
                && (n == size ==> r == rmem && segs == old(segs) && bytes == old(bytes))
      ensures 0 <= rmem < Tail() ==> Div(r, align)
      ensures old(Lowest()) ==>
                (Lowest() <==>
                   || !(0 < rmem < Tail() && 0 < AlignUp(newsize0, align) <= memSize
                        && AlignUp(newsize0, align) + h + MIN_SIZE < old(segs)[i].size)
                   || old(lfree) < rmem - h
                   || (i + 1 < |old(segs)| && !old(segs)[i + 1].used))
    {
      hide Ok, Coalesced, UsedExtent, Spared, AllocSpec, Live, FreeSpec, Resized;
      hide Need, MinAligned, Aligned, Div, AlignUp, NoFit;
      ZeroDivides(align);
      j := i;
      var newsize := AlignUp(newsize0, align);
      if newsize > memSize {
        return NULL, j;
      } else if newsize == 0 {
        Free(rmem, i);
        return NULL, j;
      }
      AlignUpAgain(newsize0, align);
      NeedAtLeast(newsize, align, memSize);
      if rmem == NULL {
        r, j := Malloc(newsize);
        return r, j;
      }
      if rmem < 0 || rmem >= Tail() {
        return rmem, j;
      }
      var mem := rmem - h;
      BlockFacts(P(), Heads(), segs, i);
      PayloadDivides(segs, i, h, align);
      OkRow(P(), Heads(), segs);
      var size := next[mem] - mem - h;
      if size == newsize {
        MemoryCovers(P(), bytes);
        KeptAsIs(P(), segs, bytes, i, newsize);
        return rmem, j;
      }
      if newsize + h + MIN_SIZE < size {
        Shrink(mem, newsize, i);
        return rmem, j;
      }
      r, j := Move(rmem, newsize, size, i);
    }
  }

  /** A block's payload is not at the null address. */
  lemma NotNull(p: Pool, hd: Headers, segs: seq<Seg>, i: nat)
    requires Ok(p, hd, segs) && i < |segs| && p.h > 0
    ensures 0 < segs[i].addr + p.h
  {
    StartsFirst(segs, p.start, p.tail, p.h, i);
  }

  lemma AlignUpAgain(n: nat, align: Align)
    ensures AlignUp(AlignUp(n, align), align) == AlignUp(n, align) && Div(AlignUp(n, align), align)
  {
  }

  lemma NeedAtLeast(n: nat, align: Align, memSize: nat)
    requires n <= memSize < WORD_LIMIT && AlignUp(n, align) == n
    ensures Need(n, align) >= n
  {
  }

  lemma Separate(p: Pool, hd: Headers, segs: seq<Seg>, i: nat, j: nat)
    requires Ok(p, hd, segs) && i < |segs| && j < |segs| && segs[i] != segs[j]
    ensures segs[i].addr + p.h + segs[i].size <= segs[j].addr || segs[j].addr + p.h + segs[j].size <= segs[i].addr
    ensures 0 <= segs[i].addr && segs[i].addr + p.h + segs[i].size <= p.tail
    ensures 0 <= segs[j].addr && segs[j].addr + p.h + segs[j].size <= p.tail
  {
    Disjoint(segs, p.start, p.tail, p.h, i, j);
    StartsFirst(segs, p.start, p.tail, p.h, i);
    StartsFirst(segs, p.start, p.tail, p.h, j);
    Ordered(segs, p.start, p.tail, p.h, i, |segs|);
    Ordered(segs, p.start, p.tail, p.h, j, |segs|);
  }

  /** Cutting a block shifts the positions behind it. */
  lemma CutLfree(segs: seq<Seg>, i: nat, n: nat, h: nat, tail: int, lf: nat)
    requires i < |segs| && segs[i].used && n + h <= segs[i].size && lf <= |segs| && (lf < |segs| ==> !segs[lf].used)
    ensures var r, l := Split(segs, i, n, h), if lf > i then lf + 1 else lf;
            && |r| == |segs| + 1 && r[i + 1].addr == segs[i].addr + h + n && !r[i + 1].used
            && l <= |r| && StartOf(r, tail, l) == StartOf(segs, tail, lf) && (l < |r| ==> !r[l].used)
  {
    var r, l := Split(segs, i, n, h), if lf > i then lf + 1 else lf;
    if l < |r| { assert r[l] == if l < i then segs[l] else segs[l - 1]; }
  }

  /** When lfree is still the lowest free block after a block was cut. */
  lemma ShrinkLowest(segs: seq<Seg>, i: nat, n: nat, h: nat, lf: nat)
    requires i < |segs| && segs[i].used && n + h <= segs[i].size
    requires lf <= |segs| && (lf < |segs| ==> !segs[lf].used)
    ensures var s := Split(segs, i, n, h);
            var l, r := PlugLf(s, i + 1, if lf > i then lf + 1 else lf), PlugSpec(s, i + 1, h);
            && l <= |r|
            && ((forall k :: 0 <= k < lf ==> segs[k].used) ==>
                  ((forall k :: 0 <= k < l ==> r[k].used)
                   <==> lf < i || (i + 1 < |segs| && !segs[i + 1].used)))
  {
    hide ShrinkSpec;
    var s := Split(segs, i, n, h);
    var r := PlugSpec(s, i + 1, h);
    assert |s| == |segs| + 1 && s[i].used && !s[i + 1].used;
    assert i + 1 < |segs| ==> s[i + 2] == segs[i + 1];
    assert r[i].used && !r[i + 1].used;
    assert forall k :: 0 <= k < i ==> r[k] == segs[k];
  }

  lemma ShrinkExtent(segs: seq<Seg>, i: nat, n: nat, h: nat)
    requires i < |segs| && segs[i].used && n + h <= segs[i].size
    ensures UsedExtent(ShrinkSpec(segs, i, n, h), h) == UsedExtent(segs, h) - (segs[i].size - n)
  {
    hide UsedExtent;
    var s := Split(segs, i, n, h);
    SplitExtent(segs, h, i, n);
    ExtentShort(segs[i], segs[i], h);
    if i + 1 < |segs| && !segs[i + 1].used {
      assert s[i + 2] == segs[i + 1];
      MergeExtent(s, h, i + 1);
    }
  }

  /** Where position lf of a row is after segments i and i + 1 are merged. */
  function MergeLf(i: nat, lf: nat): nat {
    if lf == i + 1 then i else if lf > i + 1 then lf - 1 else lf
  }

  function PlugLf(segs: seq<Seg>, i: nat, lf: nat): nat
    requires i < |segs|
  {
    var l := if i + 1 < |segs| && !segs[i + 1].used then MergeLf(i, lf) else lf;
    if i > 0 && !segs[i - 1].used then MergeLf(i - 1, l) else l
  }

  /** After a merge the position that MergeLf gives is free, or the end, and has the address
      that lfree has been moved to. */
  lemma MergeLfree(segs: seq<Seg>, i: nat, h: nat, tail: int, lf: nat)
    requires i + 1 < |segs| && !segs[i].used && lf <= |segs| && (lf < |segs| ==> !segs[lf].used)
    ensures var r, l := Merge(segs, i, h), MergeLf(i, lf);
            && l <= |r| && (l < |r| ==> !r[l].used)
            && StartOf(r, tail, l) == if lf == i + 1 then segs[i].addr else StartOf(segs, tail, lf)
  {
    var r, l := Merge(segs, i, h), MergeLf(i, lf);
    if l < |r| { assert r[l] == if l < i then segs[l] else if l == i then r[i] else segs[l + 1]; }
  }

  lemma MergeShape(segs: seq<Seg>, i: nat, h: nat)
    requires i + 1 < |segs|
    ensures var r := Merge(segs, i, h);
            && |r| == |segs| - 1 && r[i].addr == segs[i].addr && r[i].used == segs[i].used
            && (i > 0 ==> r[i - 1] == segs[i - 1])
  {
  }

  lemma MarkShape(segs: seq<Seg>, i: nat, u: bool)
    requires i < |segs|
    ensures var r := Mark(segs, i, u);
            |r| == |segs| && r[i] == segs[i].(used := u) && forall k :: 0 <= k < |r| && k != i ==> r[k] == segs[k]
  {
  }

  /** lfree points at segment i exactly when its position is i. */
  lemma LfreePlace(p: Pool, hd: Headers, segs: seq<Seg>, i: nat, lf: nat)
    requires Ok(p, hd, segs) && i < |segs| && lf <= |segs|
    ensures StartOf(segs, p.tail, lf) == segs[i].addr <==> lf == i
    ensures StartOf(segs, p.tail, lf) > segs[i].addr <==> lf > i
    ensures i + 1 < |segs| ==> (StartOf(segs, p.tail, lf) == segs[i + 1].addr <==> lf == i + 1)
  {
    if lf < i { Before(p, segs, lf, i); }
    if i < lf { Before(p, segs, i, lf); }
    if i + 1 < |segs| {
      if lf < i + 1 { Before(p, segs, lf, i + 1); }
      if i + 1 < lf { Before(p, segs, i + 1, lf); }
    }
  }

  /** Plugging does not put a free block below lfree. */
  lemma PlugLowest(segs: seq<Seg>, i: nat, lf: nat, h: nat)
    requires i < |segs| && !segs[i].used && lf <= i
    ensures PlugLf(segs, i, lf) <= |PlugSpec(segs, i, h)|
    ensures (forall k :: 0 <= k < lf ==> segs[k].used) ==>
              forall k :: 0 <= k < PlugLf(segs, i, lf) ==> PlugSpec(segs, i, h)[k].used
  {
  }

  lemma FreeExtent(segs: seq<Seg>, i: nat, h: nat)
    requires i < |segs| && segs[i].used
    ensures UsedExtent(FreeSpec(segs, i, h), h) == UsedExtent(segs, h) - segs[i].size - h
  {
    hide UsedExtent;
    var m := Mark(segs, i, false);
    MarkExtent(segs, h, i, false);
    ExtentShort(segs[i], m[i], h);
    if i > 0 && !segs[i - 1].used { MergeExtent(m, h, i - 1); }
    FreeLeftShape(segs, i, h);
    if i + 1 < |segs| && !segs[i + 1].used { MergeExtent(FreeLeft(segs, i, h), h, FreedAt(segs, i)); }
  }

  lemma MemoryCovers(p: Pool, b: map<int, Cell>)
    requires forall k :: p.start <= k < p.tail + p.h ==> k in b
    ensures forall k :: p.start <= k < p.tail ==> k in b
  {
  }

  lemma OkRow(p: Pool, hd: Headers, segs: seq<Seg>)
    requires Ok(p, hd, segs)
    ensures RowOk(p, segs)
  {
  }

  lemma EndFacts(p: Pool, hd: Headers, segs: seq<Seg>)
    requires Ok(p, hd, segs)
    ensures p.tail in hd.used && hd.used[p.tail]
  {
  }

  lemma Behind(p: Pool, hd: Headers, segs: seq<Seg>, i: nat, j: nat)
    requires Ok(p, hd, segs) && i <= j < |segs|
    ensures segs[i].addr <= segs[j].addr
  {
    if i < j { Before(p, segs, i, j); }
  }

  lemma Apart(p: Pool, hd: Headers, segs: seq<Seg>, i: nat, j: nat)
    requires Ok(p, hd, segs) && i < j <= |segs|
    ensures segs[i].addr < StartOf(segs, p.tail, j)
  {
    Before(p, segs, i, j);
  }

  /** Header writes within the rows before and after spare the live payloads. */
  lemma Finish(p: Pool, hd: Headers, segs: seq<Seg>, hd': Headers, segs': seq<Seg>, b: map<int, Cell>,
               b': map<int, Cell>, w: set<int>)
    requires Ok(p, hd, segs) && Ok(p, hd', segs') && w == Row(p, segs) + Row(p, segs') && Untouched(b, b', w, p.h)
    requires forall k :: p.start <= k < p.tail + p.h ==> k in b
    ensures Spared(p, segs, segs', b, b')
    ensures forall k :: p.start <= k < p.tail + p.h ==> k in b'
  {
    hide Row, Untouched, Spared;
    KeysKept(b, b', w, p.h);
    AllSpared(p, segs, segs', b, b');
  }

  lemma AllocPrefix(segs: seq<Seg>, i: nat, n: nat, h: nat, min: nat)
    requires i < |segs| && n <= segs[i].size
    ensures var r := AllocSpec(segs, i, n, h, min);
            |r| >= |segs| && r[i].addr == segs[i].addr && forall k :: 0 <= k < i ==> r[k] == segs[k]
  {
  }

  lemma AllocExtent(segs: seq<Seg>, i: nat, n: nat, h: nat, min: nat)
    requires i < |segs| && n <= segs[i].size && !segs[i].used
    ensures UsedExtent(AllocSpec(segs, i, n, h, min), h)
         == UsedExtent(segs, h) + if segs[i].size >= n + h + min then n + h else segs[i].size + h
  {
    hide UsedExtent;
    var m := Mark(segs, i, true);
    MarkExtent(segs, h, i, true);
    ExtentShort(segs[i], m[i], h);
    ExtentShort(m[i], m[i], h);
    if segs[i].size >= n + h + min { SplitExtent(m, h, i, n); }
  }

  /** The place of a new header differs from the headers around it. */
  lemma CutAway(p: Pool, hd: Headers, segs: seq<Seg>, i: nat, n: nat)
    requires Ok(p, hd, segs) && i < |segs| && n + p.h <= segs[i].size
    ensures var rest := segs[i].addr + p.h + n;
            rest != segs[i].addr && rest != StartOf(segs, p.tail, i + 1) && rest != p.tail
  {
    assert Abuts(segs, p.tail, p.h, i);
    InsideAbsent(segs, p.start, p.tail, p.h, i, segs[i].addr + p.h + n);
  }
}
