/** The headers of the small-memory heap (mem.c): offsets of the next and the previous block
    and a used flag, and the row of segments they describe. */
module SmallHeapModel {
  import opened Segments
  import opened HeapMemory
  import opened HeapSpec

  datatype Headers = Headers(next: map<int, int>, prev: map<int, int>, used: map<int, bool>)

  /** The heap as a pool: offset 0 to the end marker; no header lies outside. */
  function HeapPool(memSize: nat, h: nat): Pool {
    Pool(0, memSize + h, h, memSize + 2 * h)
  }

  /** Header i names its neighbours and carries its flag. The first block is its own
      predecessor; the end marker is its own successor, and its `prev` is not kept up to date
      and not relied on. */
  ghost predicate Chained(hd: Headers, segs: seq<Seg>, tail: int, i: nat)
    requires i < |segs|
  {
    var a := segs[i].addr;
    && a in hd.next && hd.next[a] == StartOf(segs, tail, i + 1)
    && a in hd.prev && hd.prev[a] == (if i == 0 then 0 else segs[i - 1].addr)
    && a in hd.used && hd.used[a] == segs[i].used
  }

  ghost predicate Ok(p: Pool, hd: Headers, segs: seq<Seg>) {
    && RowOk(p, segs) && p.start == 0 && segs != []
    && p.tail in hd.used && hd.used[p.tail] && p.tail in hd.next && hd.next[p.tail] == p.tail
    && forall i :: 0 <= i < |segs| ==> Chained(hd, segs, p.tail, i)
  }

  /** Different positions have different headers. */
  lemma Before(p: Pool, segs: seq<Seg>, i: nat, j: nat)
    requires RowOk(p, segs) && i < j <= |segs|
    ensures segs[i].addr < StartOf(segs, p.tail, j)
  {
    Ordered(segs, p.start, p.tail, p.h, i, j);
  }

  // ----- the header changes -----

  function SetUsed(hd: Headers, a: int, u: bool): Headers {
    hd.(used := hd.used[a := u])
  }

  /** A new free header at `rest` behind block a (mem.c:332-348, 479-491). */
  function CutHeader(hd: Headers, a: int, rest: int, tail: int): Headers
    requires a in hd.next
  {
    var n := hd.next[a];
    Headers(hd.next[rest := n][a := rest],
            if n != tail then hd.prev[rest := a][n := rest] else hd.prev[rest := a],
            hd.used[rest := false])
  }

  /** Block a takes over the block after it (mem.c:178-179, 191-192). */
  function DropNext(hd: Headers, a: int): Headers
    requires a in hd.next && hd.next[a] in hd.next
  {
    var n := hd.next[hd.next[a]];
    hd.(next := hd.next[a := n], prev := hd.prev[n := a])
  }

  lemma MarkOk(p: Pool, hd: Headers, segs: seq<Seg>, i: nat, u: bool)
    requires Ok(p, hd, segs) && i < |segs|
    ensures Ok(p, SetUsed(hd, segs[i].addr, u), Mark(segs, i, u))
  {
    var r, hd' := Mark(segs, i, u), SetUsed(hd, segs[i].addr, u);
    MarkTiled(segs, p.start, p.tail, p.h, i, u);
    Before(p, segs, i, |segs|);
    forall k | 0 <= k < |r|
      ensures Chained(hd', r, p.tail, k)
    {
      assert Chained(hd, segs, p.tail, k);
      if k < i { Before(p, segs, k, i); } else if i < k { Before(p, segs, i, k); }
    }
  }

  lemma CutOk(p: Pool, hd: Headers, segs: seq<Seg>, i: nat, n: nat)
    requires Ok(p, hd, segs) && i < |segs| && segs[i].used && n + p.h <= segs[i].size
    requires segs[i].addr in hd.next
    ensures Ok(p, CutHeader(hd, segs[i].addr, segs[i].addr + p.h + n, p.tail), Split(segs, i, n, p.h))
  {
    var a, rest := segs[i].addr, segs[i].addr + p.h + n;
    var r, hd' := Split(segs, i, n, p.h), CutHeader(hd, a, rest, p.tail);
    SplitTiled(segs, p.start, p.tail, p.h, i, n);
    assert Abuts(segs, p.tail, p.h, i);
    InsideAbsent(segs, p.start, p.tail, p.h, i, rest);
    assert Chained(hd, segs, p.tail, i);
    assert RowOk(p, r);
    forall k | 0 <= k < |r|
      ensures Chained(hd', r, p.tail, k)
    {
      if k < i {
        assert Chained(hd, segs, p.tail, k) && r[k] == segs[k];
        Before(p, segs, k, i);
        Before(p, segs, k, i + 1);
      } else if k > i + 1 {
        assert Chained(hd, segs, p.tail, k - 1) && r[k] == segs[k - 1];
        Before(p, segs, i, k - 1);
        if i + 1 < k - 1 { Before(p, segs, i + 1, k - 1); }
        Before(p, segs, k - 1, |segs|);
      } else if k == i {
        if i + 1 < |segs| { Before(p, segs, i, i + 1); } else { Before(p, segs, i, |segs|); }
      }
    }
  }

  lemma DropOk(p: Pool, hd: Headers, segs: seq<Seg>, i: nat)
    requires Ok(p, hd, segs) && i + 1 < |segs|
    requires segs[i].addr in hd.next && hd.next[segs[i].addr] in hd.next
    ensures Ok(p, DropNext(hd, segs[i].addr), Merge(segs, i, p.h))
  {
    var a := segs[i].addr;
    var r, hd' := Merge(segs, i, p.h), DropNext(hd, a);
    MergeTiled(segs, p.start, p.tail, p.h, i);
    assert Chained(hd, segs, p.tail, i) && Chained(hd, segs, p.tail, i + 1);
    forall k | 0 <= k < |r|
      ensures Chained(hd', r, p.tail, k)
    {
      if k <= i {
        assert Chained(hd, segs, p.tail, k);
        Before(p, segs, k, i + 2);
        if k < i { Before(p, segs, k, i); }
      } else {
        assert Chained(hd, segs, p.tail, k + 1) && r[k] == segs[k + 1];
        Before(p, segs, i, k + 1);
        if i + 2 < k + 1 { Before(p, segs, i + 2, k + 1); }
        Before(p, segs, k + 1, |segs|);
      }
    }
  }

  /** What the header of segment i says about itself and its neighbours. */
  lemma BlockFacts(p: Pool, hd: Headers, segs: seq<Seg>, i: nat)
    requires Ok(p, hd, segs) && i < |segs|
    ensures var a := segs[i].addr;
            && a in hd.next && a in hd.prev && a in hd.used
            && hd.next[a] == StartOf(segs, p.tail, i + 1) && hd.next[a] in hd.used && hd.next[a] != a
            && (i + 1 < |segs| ==> hd.next[a] in hd.next && hd.next[hd.next[a]] == StartOf(segs, p.tail, i + 2)
                                   && hd.used[hd.next[a]] == segs[i + 1].used && hd.next[a] != p.tail)
            && hd.next[a] - a - p.h == segs[i].size
            && hd.prev[a] == (if i == 0 then a else segs[i - 1].addr)
            && (i > 0 ==> hd.prev[a] in hd.used && hd.used[hd.prev[a]] == segs[i - 1].used && hd.prev[a] != a
                          && hd.prev[a] in hd.next && hd.next[hd.prev[a]] == a)
            && hd.used[a] == segs[i].used && a != p.tail && 0 <= a
  {
    assert Chained(hd, segs, p.tail, i) && Abuts(segs, p.tail, p.h, i);
    if i + 1 < |segs| {
      assert Chained(hd, segs, p.tail, i + 1);
      Before(p, segs, i + 1, |segs|);
    }
    if i > 0 {
      assert Chained(hd, segs, p.tail, i - 1);
      Before(p, segs, i - 1, i);
    }
    Before(p, segs, i, i + 1);
    Before(p, segs, i, |segs|);
    StartsFirst(segs, p.start, p.tail, p.h, i);
  }

  lemma InitOk(memSize: nat, h: nat)
    requires h > 0
    ensures var p := HeapPool(memSize, h);
            var hd := Headers(map[0 := p.tail, p.tail := p.tail], map[0 := 0, p.tail := p.tail],
                              map[0 := false, p.tail := true]);
            Ok(p, hd, [Seg(0, memSize, false)]) && Coalesced([Seg(0, memSize, false)])
            && UsedExtent([Seg(0, memSize, false)], h) == 0
  {
    var p := HeapPool(memSize, h);
    var hd := Headers(map[0 := p.tail, p.tail := p.tail], map[0 := 0, p.tail := p.tail],
                      map[0 := false, p.tail := true]);
    var segs := [Seg(0, memSize, false)];
    assert Chained(hd, segs, p.tail, 0) && Abuts(segs, p.tail, h, 0);
  }

  // ----- plug_holes -----

  /** Joining free segment i with its free neighbours, the right one first. */
  function PlugRight(segs: seq<Seg>, i: nat, h: nat): seq<Seg>
    requires i < |segs|
  {
    if i + 1 < |segs| && !segs[i + 1].used then Merge(segs, i, h) else segs
  }

  function PlugSpec(segs: seq<Seg>, i: nat, h: nat): seq<Seg>
    requires i < |segs|
  {
    if i > 0 && !segs[i - 1].used then Merge(PlugRight(segs, i, h), i - 1, h) else PlugRight(segs, i, h)
  }

  /** The order of the two merges does not matter: plugging after a release is freeing. */
  lemma PlugIsFree(segs: seq<Seg>, i: nat, h: nat)
    requires i < |segs|
    ensures PlugSpec(Mark(segs, i, false), i, h) == FreeSpec(segs, i, h)
  {
    hide FreeSpec, FreeLeft;
    FreeForm(segs, i, h);
    var m, x := Mark(segs, i, false), segs[i].(used := false);
    var right := i + 1 < |segs| && !segs[i + 1].used;
    var l, r := segs[..i], segs[if right then i + 2 else i + 1..];
    var y := if right then x.(size := x.size + h + segs[i + 1].size) else x;
    assert PlugRight(m, i, h) == l + [y] + r by {
      if right {
        assert m == l + [x, segs[i + 1]] + r;
        MergeForm(l, x, segs[i + 1], r, h);
      }
    }
    if i > 0 && !segs[i - 1].used {
      var l' := segs[..i - 1];
      assert l + [y] + r == l' + [segs[i - 1], y] + r;
      MergeForm(l', segs[i - 1], y, r, h);
    }
  }

  /** Plugging the free rest of a cut block is shrinking. */
  lemma PlugIsShrink(segs: seq<Seg>, i: nat, n: nat, h: nat)
    requires i < |segs| && segs[i].used && n + h <= segs[i].size
    ensures PlugSpec(Split(segs, i, n, h), i + 1, h) == ShrinkSpec(segs, i, n, h)
  {
    var s := Split(segs, i, n, h);
    assert s[i].used && |s| == |segs| + 1;
    if i + 1 < |segs| { assert s[i + 2] == segs[i + 1]; }
  }
}
