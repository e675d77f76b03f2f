/** The headers of a memheap pool and what they have to agree on: the address-ordered block
    list, the free list, and the row of segments they both describe. */
module MemheapModel {
  import opened RingList
  import opened Segments
  import opened HeapMemory

  /** next/prev, next_free/prev_free and the used bit of all headers. */
  datatype Headers = Headers(block: Links, free: Links, used: map<int, bool>)

  ghost predicate Flags(p: Pool, used: map<int, bool>, segs: seq<Seg>) {
    && p.tail in used && used[p.tail]
    && forall i :: 0 <= i < |segs| ==> segs[i].addr in used && used[segs[i].addr] == segs[i].used
  }

  /** The headers describe segs. `frees` is the free list in order; `pending` are the free
      segments that an operation in progress has not put on the list. */
  ghost predicate Ok(p: Pool, hd: Headers, segs: seq<Seg>, frees: seq<int>, pending: set<int>) {
    && PoolOk(p)
    && Tiled(segs, p.start, p.tail, p.h)
    && Ring(hd.block, Addrs(segs) + [p.tail])
    && Flags(p, hd.used, segs)
    && Ring(hd.free, [p.head] + frees)
    && ToSet(frees) !! pending
    && ToSet(frees) + pending == FreeSet(segs)
  }

  /** Headers lie in the pool. */
  lemma HeadAbsent(p: Pool, segs: seq<Seg>)
    requires PoolOk(p) && Tiled(segs, p.start, p.tail, p.h)
    ensures Absent(segs, p.head) && p.head != p.tail && p.head !in FreeSet(segs)
  {
    forall s | s in segs
      ensures s.addr != p.head
    {
      var i :| 0 <= i < |segs| && segs[i] == s;
      StartsFirst(segs, p.start, p.tail, p.h, i);
      Ordered(segs, p.start, p.tail, p.h, i, |segs|);
    }
  }

  lemma FreeIndex(segs: seq<Seg>, a: int) returns (i: nat)
    requires a in FreeSet(segs)
    ensures i < |segs| && segs[i].addr == a && !segs[i].used
  {
    var s :| s in segs && !s.used && s.addr == a;
    i :| 0 <= i < |segs| && segs[i] == s;
  }

  lemma ListedIndex(frees: seq<int>, a: int) returns (k: nat)
    requires a in ToSet(frees)
    ensures k < |frees| && frees[k] == a
  {
    k :| 0 <= k < |frees| && frees[k] == a;
  }

  // ----- the free list -----

  lemma FreeListRemove(p: Pool, l: Links, frees: seq<int>, k: nat)
    requires Ring(l, [p.head] + frees) && k < |frees|
    requires frees[k] in l.next && frees[k] in l.prev
    ensures Ring(Unlink(l, frees[k]), [p.head] + RemoveAt(frees, k))
    ensures ToSet(RemoveAt(frees, k)) == ToSet(frees) - {frees[k]}
  {
    var s := [p.head] + frees;
    assert s[k + 1] == frees[k];
    RingUnlink(l, s, k + 1);
    assert RemoveAt(s, k + 1) == [p.head] + RemoveAt(frees, k);
    assert Distinct(frees) by {
      forall i, j | 0 <= i < j < |frees| ensures frees[i] != frees[j] { assert s[i + 1] != s[j + 1]; }
    }
    DistinctRemove(frees, k);
  }

  lemma FreeListPush(p: Pool, l: Links, frees: seq<int>, a: int)
    requires Ring(l, [p.head] + frees) && a !in frees && a != p.head
    requires p.head in l.next
    ensures Ring(InsertAfter(l, p.head, a), [p.head] + ([a] + frees))
    ensures ToSet([a] + frees) == ToSet(frees) + {a}
  {
    var s := [p.head] + frees;
    RingInsertAfter(l, s, 0, a);
    assert InsertAt(s, 1, a) == [p.head] + ([a] + frees);
  }

  // ----- the steps -----

  /** A free listed block is taken off the list and becomes used. */
  lemma TakeOut(p: Pool, hd: Headers, segs: seq<Seg>, frees: seq<int>, pending: set<int>, i: nat, k: nat)
    requires Ok(p, hd, segs, frees, pending) && i < |segs| && k < |frees| && frees[k] == segs[i].addr && !segs[i].used
    requires frees[k] in hd.free.next && frees[k] in hd.free.prev
    ensures Ok(p, Headers(hd.block, Unlink(hd.free, frees[k]), hd.used[segs[i].addr := true]),
               Mark(segs, i, true), RemoveAt(frees, k), pending)
  {
    hide Ring, Tiled, FreeSet, ToSet;
    FreeListRemove(p, hd.free, frees, k);
    AddrsChange(segs, p.h, i, 0, true);
    MarkTiled(segs, p.start, p.tail, p.h, i, true);
    MarkSets(segs, p.start, p.tail, p.h, i, true);
    FlagsMark(p, hd.used, segs, i, true);
    ListedInSet(frees, k);
  }

  lemma ListedInSet(frees: seq<int>, k: nat)
    requires k < |frees|
    ensures frees[k] in ToSet(frees)
  {
  }

  lemma FlagsMark(p: Pool, used: map<int, bool>, segs: seq<Seg>, i: nat, u: bool)
    requires PoolOk(p) && Tiled(segs, p.start, p.tail, p.h) && Flags(p, used, segs) && i < |segs|
    ensures Flags(p, used[segs[i].addr := u], Mark(segs, i, u))
  {
    AddrsDistinct(segs, p.start, p.tail, p.h);
    var r := Addrs(segs) + [p.tail];
    assert r[|segs|] == p.tail && r[i] == segs[i].addr;
    forall k | 0 <= k < |segs| && k != i ensures segs[k].addr != segs[i].addr { assert r[k] != r[i]; }
  }

  /** A used block becomes free, not yet listed. */
  lemma Release(p: Pool, hd: Headers, segs: seq<Seg>, frees: seq<int>, i: nat)
    requires Ok(p, hd, segs, frees, {}) && i < |segs| && segs[i].used
    ensures Ok(p, hd.(used := hd.used[segs[i].addr := false]), Mark(segs, i, false), frees, {segs[i].addr})
  {
    UsedNotFree(p, segs, i);
    hide Ring, Tiled, FreeSet;
    AddrsChange(segs, p.h, i, 0, false);
    MarkTiled(segs, p.start, p.tail, p.h, i, false);
    MarkSets(segs, p.start, p.tail, p.h, i, false);
    FlagsMark(p, hd.used, segs, i, false);
  }

  lemma UsedNotFree(p: Pool, segs: seq<Seg>, i: nat)
    requires PoolOk(p) && Tiled(segs, p.start, p.tail, p.h) && i < |segs| && segs[i].used
    ensures segs[i].addr !in FreeSet(segs)
  {
    Alone(segs, p.start, p.tail, p.h, i);
    SetsMiddle(segs[..i], [segs[i]], segs[i + 1..]);
  }

  /** A pending block goes to the front of the free list. */
  lemma PutBack(p: Pool, hd: Headers, segs: seq<Seg>, frees: seq<int>, a: int)
    requires Ok(p, hd, segs, frees, {a}) && p.head in hd.free.next
    ensures Ok(p, hd.(free := InsertAfter(hd.free, p.head, a)), segs, [a] + frees, {})
  {
    HeadAbsent(p, segs);
    FreeListPush(p, hd.free, frees, a);
  }

  /** The back part of a used block becomes a pending free block. */
  lemma SplitOff(p: Pool, hd: Headers, segs: seq<Seg>, frees: seq<int>, i: nat, n: nat)
    requires Ok(p, hd, segs, frees, {}) && i < |segs| && segs[i].used && n + p.h <= segs[i].size
    requires segs[i].addr in hd.block.next
    ensures var a := segs[i].addr + p.h + n;
            Ok(p, Headers(InsertAfter(hd.block, segs[i].addr, a), hd.free, hd.used[a := false]),
               Split(segs, i, n, p.h), frees, {a})
  {
    var a := segs[i].addr + p.h + n;
    var row := Addrs(segs) + [p.tail];
    hide Ring, Tiled, FreeSet, ToSet, Flags;
    RestInside(p, segs, i, n);
    InsideNotInRow(p, segs, i, a);
    UsedNotFree(p, segs, i);
    RingInsertAfter(hd.block, row, i, a);
    AddrsChange(segs, p.h, i, n, true);
    assert InsertAt(row, i + 1, a) == InsertAt(Addrs(segs), i + 1, a) + [p.tail];
    SplitTiled(segs, p.start, p.tail, p.h, i, n);
    SplitSets(segs, p.start, p.tail, p.h, i, n);
    FlagsSplit(p, hd.used, segs, i, n);
  }

  lemma RestInside(p: Pool, segs: seq<Seg>, i: nat, n: nat)
    requires PoolOk(p) && Tiled(segs, p.start, p.tail, p.h) && i < |segs| && n + p.h <= segs[i].size
    ensures segs[i].addr < segs[i].addr + p.h + n < StartOf(segs, p.tail, i + 1)
  {
    assert Abuts(segs, p.tail, p.h, i);
  }

  lemma InsideNotInRow(p: Pool, segs: seq<Seg>, i: nat, a: int)
    requires PoolOk(p) && Tiled(segs, p.start, p.tail, p.h) && i < |segs|
    requires segs[i].addr < a < StartOf(segs, p.tail, i + 1)
    ensures a !in Addrs(segs) + [p.tail] && a !in FreeSet(segs) && a != p.tail && a != p.head
  {
    InsideAbsent(segs, p.start, p.tail, p.h, i, a);
    StartsFirst(segs, p.start, p.tail, p.h, i);
    if i + 1 < |segs| { Ordered(segs, p.start, p.tail, p.h, i + 1, |segs|); }
  }

  lemma FlagsSplit(p: Pool, used: map<int, bool>, segs: seq<Seg>, i: nat, n: nat)
    requires PoolOk(p) && Tiled(segs, p.start, p.tail, p.h) && Flags(p, used, segs)
    requires i < |segs| && segs[i].used && n + p.h <= segs[i].size
    ensures Flags(p, used[segs[i].addr + p.h + n := false], Split(segs, i, n, p.h))
  {
    var a, r := segs[i].addr + p.h + n, Split(segs, i, n, p.h);
    assert Abuts(segs, p.tail, p.h, i);
    InsideAbsent(segs, p.start, p.tail, p.h, i, a);
    forall k | 0 <= k < |r|
      ensures r[k].addr in used[a := false] && used[a := false][r[k].addr] == r[k].used
    {
      if k < i { assert r[k] == segs[k]; } else if k > i + 1 { assert r[k] == segs[k - 1]; }
    }
  }

  /** Block i swallows its right neighbour, which is free and leaves the free list. */
  lemma Swallow(p: Pool, hd: Headers, segs: seq<Seg>, frees: seq<int>, pending: set<int>, i: nat, k: nat)
    requires Ok(p, hd, segs, frees, pending) && i + 1 < |segs| && !segs[i + 1].used
    requires k < |frees| && frees[k] == segs[i + 1].addr
    requires frees[k] in hd.free.next && frees[k] in hd.free.prev
    requires frees[k] in hd.block.next && frees[k] in hd.block.prev
    ensures Ok(p, Headers(Unlink(hd.block, frees[k]), Unlink(hd.free, frees[k]), hd.used),
               Merge(segs, i, p.h), RemoveAt(frees, k), pending)
  {
    hide FreeSet, ToSet;
    FreeListRemove(p, hd.free, frees, k);
    ListedInSet(frees, k);
    MergeBlocks(p, hd, segs, i);
    MergeSets(segs, p.start, p.tail, p.h, i);
  }

  /** A pending block is swallowed by its free left neighbour. */
  lemma MergeLeft(p: Pool, hd: Headers, segs: seq<Seg>, frees: seq<int>, i: nat)
    requires i + 1 < |segs| && Ok(p, hd, segs, frees, {segs[i + 1].addr}) && !segs[i + 1].used
    requires segs[i + 1].addr in hd.block.next && segs[i + 1].addr in hd.block.prev
    ensures Ok(p, hd.(block := Unlink(hd.block, segs[i + 1].addr)), Merge(segs, i, p.h), frees, {})
  {
    hide FreeSet, ToSet;
    MergeBlocks(p, hd, segs, i);
    MergeSets(segs, p.start, p.tail, p.h, i);
  }

  lemma MergeBlocks(p: Pool, hd: Headers, segs: seq<Seg>, i: nat)
    requires PoolOk(p) && Tiled(segs, p.start, p.tail, p.h) && i + 1 < |segs|
    requires Ring(hd.block, Addrs(segs) + [p.tail]) && Flags(p, hd.used, segs)
    requires segs[i + 1].addr in hd.block.next && segs[i + 1].addr in hd.block.prev
    ensures Tiled(Merge(segs, i, p.h), p.start, p.tail, p.h)
    ensures Ring(Unlink(hd.block, segs[i + 1].addr), Addrs(Merge(segs, i, p.h)) + [p.tail])
    ensures Flags(p, hd.used, Merge(segs, i, p.h))
  {
    var row := Addrs(segs) + [p.tail];
    assert row[i + 1] == segs[i + 1].addr;
    RingUnlink(hd.block, row, i + 1);
    AddrsChange(segs, p.h, i, 0, true);
    assert RemoveAt(row, i + 1) == RemoveAt(Addrs(segs), i + 1) + [p.tail];
    MergeTiled(segs, p.start, p.tail, p.h, i);
  }

  // ----- what the headers say -----

  /** The header of segment i: its neighbours, its size and its flag. */
  lemma BlockFacts(p: Pool, hd: Headers, segs: seq<Seg>, frees: seq<int>, pending: set<int>, i: nat)
    requires Ok(p, hd, segs, frees, pending) && i < |segs|
    ensures var a := segs[i].addr;
            && a in hd.block.next && a in hd.block.prev && a in hd.used
            && hd.block.next[a] == StartOf(segs, p.tail, i + 1)
            && hd.block.prev[a] == (if i == 0 then p.tail else segs[i - 1].addr)
            && hd.block.next[a] - a - p.h == segs[i].size
            && hd.used[a] == segs[i].used
            && hd.block.next[a] in hd.used && hd.block.prev[a] in hd.used
            && (hd.used[hd.block.next[a]] <==> i + 1 < |segs| ==> segs[i + 1].used)
            && (hd.used[hd.block.prev[a]] <==> i > 0 ==> segs[i - 1].used)
            && a != p.tail && a != p.head && p.start <= a
  {
    var row := Addrs(segs) + [p.tail];
    assert Linked(hd.block, row, i) && Abuts(segs, p.tail, p.h, i);
    HeadAbsent(p, segs);
    StartsFirst(segs, p.start, p.tail, p.h, i);
    Ordered(segs, p.start, p.tail, p.h, i, |segs|);
  }

  /** The place of entry k in the free list, and the first entry. */
  lemma FreeFacts(p: Pool, hd: Headers, segs: seq<Seg>, frees: seq<int>, pending: set<int>, k: nat)
    requires Ok(p, hd, segs, frees, pending) && k < |frees|
    ensures var a := frees[k];
            && a in hd.free.next && a in hd.free.prev && a != p.head
            && hd.free.next[a] == (if k + 1 < |frees| then frees[k + 1] else p.head)
            && hd.free.prev[a] == if k > 0 then frees[k - 1] else p.head
  {
    var s := [p.head] + frees;
    assert Linked(hd.free, s, k + 1) && s[k + 1] == frees[k] && s[0] == p.head;
  }

  lemma HeadFacts(p: Pool, hd: Headers, segs: seq<Seg>, frees: seq<int>, pending: set<int>)
    requires Ok(p, hd, segs, frees, pending)
    ensures p.head in hd.free.next && p.head in hd.free.prev
    ensures hd.free.next[p.head] == if frees == [] then p.head else frees[0]
  {
    var s := [p.head] + frees;
    assert Linked(hd.free, s, 0);
  }

  /** The free links of a block that is not on the list do not matter. */
  lemma Forget(p: Pool, hd: Headers, segs: seq<Seg>, frees: seq<int>, pending: set<int>, a: int, v: int, v': int)
    requires Ok(p, hd, segs, frees, pending) && a !in frees && a != p.head
    ensures Ok(p, hd.(free := Links(hd.free.next[a := v], hd.free.prev[a := v'])), segs, frees, pending)
  {
    RingFrame(hd.free, Links(hd.free.next[a := v], hd.free.prev[a := v']), [p.head] + frees);
  }

  /** Free list entries are segments. */
  lemma ListedFree(p: Pool, hd: Headers, segs: seq<Seg>, frees: seq<int>, pending: set<int>, k: nat) returns (i: nat)
    requires Ok(p, hd, segs, frees, pending) && k < |frees|
    ensures i < |segs| && segs[i].addr == frees[k] && !segs[i].used
  {
    ListedInSet(frees, k);
    i := FreeIndex(segs, frees[k]);
  }

  /** Free segments are free list entries. */
  lemma FreeListed(p: Pool, hd: Headers, segs: seq<Seg>, frees: seq<int>, pending: set<int>, i: nat) returns (k: nat)
    requires Ok(p, hd, segs, frees, pending) && i < |segs| && !segs[i].used && segs[i].addr !in pending
    ensures k < |frees| && frees[k] == segs[i].addr
  {
    assert segs[i] in segs && segs[i].addr in FreeSet(segs);
    k := ListedIndex(frees, segs[i].addr);
  }

  lemma RemovedGone(p: Pool, hd: Headers, segs: seq<Seg>, frees: seq<int>, pending: set<int>, k: nat)
    requires Ok(p, hd, segs, frees, pending) && k < |frees|
    ensures frees[k] !in RemoveAt(frees, k)
  {
    var s := [p.head] + frees;
    assert Distinct(frees) by {
      forall i, j | 0 <= i < j < |frees| ensures frees[i] != frees[j] { assert s[i + 1] != s[j + 1]; }
    }
    DistinctRemove(frees, k);
  }
}
