/** What allocating, freeing and shrinking do to a row of segments, shared by memheap.c and
    mem.c. */
module HeapSpec {
  import opened Segments
  import opened HeapMemory

  const WORD_LIMIT := 0x1_0000_0000

  /** RT_ALIGN on a 32-bit size: the addition wraps around. */
  function AlignUp(size: nat, align: Align): nat {
    var x := (size + align - 1) % WORD_LIMIT;
    if align == 4 then x / 4 * 4 else x / 8 * 8
  }

  /** RT_ALIGN_DOWN. */
  function AlignDown(size: nat, align: Align): nat {
    if align == 4 then size / 4 * 4 else size / 8 * 8
  }

  /** They are the multiples next to the size, unless aligning up wraps around; then the result
      is 0. */
  lemma AlignExact(size: nat, align: Align)
    requires size < WORD_LIMIT
    ensures Div(AlignUp(size, align), align) && Div(AlignDown(size, align), align)
    ensures size <= WORD_LIMIT - align ==> size <= AlignUp(size, align) < size + align
    ensures size > WORD_LIMIT - align ==> AlignUp(size, align) == 0
    ensures AlignDown(size, align) <= size < AlignDown(size, align) + align
  {
    var x := (size + align - 1) % WORD_LIMIT;
    assert if size <= WORD_LIMIT - align then x == size + align - 1 else x < align - 1;
    if align == 4 {
      MultipleBelow(x, 4);
      MultipleBelow(size, 4);
    } else {
      MultipleBelow(x, 8);
      MultipleBelow(size, 8);
    }
  }

  lemma MultipleBelow(x: nat, align: Align)
    ensures var y := if align == 4 then x / 4 * 4 else x / 8 * 8; y <= x < y + align && Div(y, align)
  {
  }

  /** The row after an allocation of n bytes from the free segment i. */
  function AllocSpec(segs: seq<Seg>, i: nat, n: nat, h: nat, min: nat): seq<Seg>
    requires i < |segs| && n <= segs[i].size
  {
    if segs[i].size >= n + h + min then Split(Mark(segs, i, true), i, n, h) else Mark(segs, i, true)
  }

  ghost predicate TooSmall(segs: seq<Seg>, a: int, n: nat) {
    forall s :: s in segs && s.addr == a ==> s.size < n
  }

  lemma OnlySegment(p: Pool, segs: seq<Seg>, i: nat, n: nat)
    requires RowOk(p, segs) && i < |segs| && segs[i].size < n
    ensures TooSmall(segs, segs[i].addr, n)
  {
    forall s | s in segs && s.addr == segs[i].addr
      ensures s.size < n
    {
      var k :| 0 <= k < |segs| && segs[k] == s;
      SameAddr(segs, p.start, p.tail, p.h, i, k);
    }
  }

  lemma {:induction false} CoalescedMark(segs: seq<Seg>, i: nat)
    requires Coalesced(segs) && i < |segs|
    ensures Coalesced(Mark(segs, i, true))
  {
    var r := Mark(segs, i, true);
    forall k | 0 <= k < |r| - 1 ensures r[k].used || r[k + 1].used { assert segs[k].used || segs[k + 1].used; }
  }

  /** Splitting off a free rest keeps the row coalesced when the next segment is used. */
  lemma CoalescedSplit(segs: seq<Seg>, i: nat, n: nat, h: nat)
    requires Coalesced(segs) && i < |segs| && n + h <= segs[i].size && (i + 1 < |segs| ==> segs[i + 1].used)
    ensures Coalesced(Split(segs, i, n, h))
  {
    var r := Split(segs, i, n, h);
    forall k | 0 <= k < |r| - 1
      ensures r[k].used || r[k + 1].used
    {
      if k < i - 1 { assert segs[k].used || segs[k + 1].used; }
      else if k > i + 1 { assert segs[k - 1].used || segs[k].used; }
    }
  }

  lemma AllocKeepsCoalesced(segs: seq<Seg>, i: nat, n: nat, h: nat, min: nat)
    requires Coalesced(segs) && i < |segs| && n <= segs[i].size && !segs[i].used
    ensures Coalesced(AllocSpec(segs, i, n, h, min))
  {
    CoalescedMark(segs, i);
    if segs[i].size >= n + h + min {
      assert i + 1 < |segs| ==> segs[i].used || segs[i + 1].used;
      CoalescedSplit(Mark(segs, i, true), i, n, h);
    }
  }

  /** An allocation adds one live block and leaves the others as they were. */
  lemma AllocSets(p: Pool, segs: seq<Seg>, i: nat, n: nat, min: nat)
    requires RowOk(p, segs) && i < |segs| && n <= segs[i].size && !segs[i].used
    ensures var r := AllocSpec(segs, i, n, p.h, min);
            && i < |r| && r[i].addr == segs[i].addr && r[i].used && r[i].size >= n
            && r[i].size == (if segs[i].size >= n + p.h + min then n else segs[i].size)
            && Live(r) == Live(segs) + {r[i]} && r[i] !in Live(segs)
  {
    var x, m := segs[i], Mark(segs, i, true);
    MarkTiled(segs, p.start, p.tail, p.h, i, true);
    MarkSets(segs, p.start, p.tail, p.h, i, true);
    Alone(segs, p.start, p.tail, p.h, i);
    SetsMiddle(segs[..i], [x], segs[i + 1..]);
    AbsentSets(segs[..i], x.(used := true));
    AbsentSets(segs[i + 1..], x.(used := true));
    AbsentSets(segs[..i], Seg(x.addr, n, true));
    AbsentSets(segs[i + 1..], Seg(x.addr, n, true));
    if x.size >= n + p.h + min {
      SplitSets(m, p.start, p.tail, p.h, i, n);
    }
  }

  lemma AllocTotal(segs: seq<Seg>, i: nat, n: nat, h: nat, min: nat)
    requires i < |segs| && n <= segs[i].size && !segs[i].used
    ensures FreeTotal(AllocSpec(segs, i, n, h, min))
         == FreeTotal(segs) - if segs[i].size >= n + h + min then n + h else segs[i].size
  {
    hide FreeTotal;
    MarkSums(segs, i, true);
    if segs[i].size >= n + h + min { SplitSums(Mark(segs, i, true), h, i, n); }
  }

  /** Segment i becomes free and merges with a free left neighbour. */
  function FreeLeft(segs: seq<Seg>, i: nat, h: nat): seq<Seg>
    requires i < |segs|
  {
    var m := Mark(segs, i, false);
    if i > 0 && !segs[i - 1].used then Merge(m, i - 1, h) else m
  }

  /** Where the freed segment is after that. */
  function FreedAt(segs: seq<Seg>, i: nat): nat
    requires i < |segs|
  {
    if i > 0 && !segs[i - 1].used then i - 1 else i
  }

  /** The row after freeing segment i. */
  function FreeSpec(segs: seq<Seg>, i: nat, h: nat): seq<Seg>
    requires i < |segs|
  {
    var m, j := FreeLeft(segs, i, h), FreedAt(segs, i);
    if i + 1 < |segs| && !segs[i + 1].used then Merge(m, j, h) else m
  }

  /** The freed segment and its right neighbour in the intermediate row. */
  lemma FreeLeftShape(segs: seq<Seg>, i: nat, h: nat)
    requires i < |segs|
    ensures var m, j := FreeLeft(segs, i, h), FreedAt(segs, i);
            && j < |m| && !m[j].used
            && (i + 1 < |segs| <==> j + 1 < |m|)
            && (i + 1 < |segs| ==> m[j + 1] == segs[i + 1])
            && (j > 0 ==> m[j - 1] == segs[j - 1])
            && m[j].addr == segs[j].addr
  {
    var m := Mark(segs, i, false);
    assert forall k :: 0 <= k < |segs| && k != i ==> m[k] == segs[k];
    if i > 0 && !segs[i - 1].used {
      var r := Merge(m, i - 1, h);
      assert i > 1 ==> r[i - 2] == m[i - 2];
      assert i + 1 < |segs| ==> r[i] == m[i + 1];
    }
  }

  /** The single free segment that takes the place of segment i and its free neighbours. */
  function Joined(segs: seq<Seg>, i: nat, h: nat): Seg
    requires i < |segs|
  {
    var left := if i > 0 && !segs[i - 1].used then segs[i - 1].size + h else 0;
    var right := if i + 1 < |segs| && !segs[i + 1].used then h + segs[i + 1].size else 0;
    Seg(segs[FreedAt(segs, i)].addr, left + segs[i].size + right, false)
  }

  lemma MergeForm(l: seq<Seg>, x: Seg, y: Seg, r: seq<Seg>, h: nat)
    ensures Merge(l + [x, y] + r, |l|, h) == l + [x.(size := x.size + h + y.size)] + r
  {
    var s := l + [x, y] + r;
    assert s[..|l|] == l && s[|l| + 2..] == r && s[|l|] == x && s[|l| + 1] == y;
  }

  lemma FreeLeftForm(segs: seq<Seg>, i: nat, h: nat)
    requires i < |segs|
    ensures var j, x := FreedAt(segs, i), segs[i].(used := false);
            var y := if j < i then segs[j].(size := segs[j].size + h + x.size) else x;
            FreeLeft(segs, i, h) == segs[..j] + [y] + segs[i + 1..]
  {
    hide Merge;
    var j, x := FreedAt(segs, i), segs[i].(used := false);
    if j < i {
      assert Mark(segs, i, false) == segs[..j] + [segs[j], x] + segs[i + 1..];
      MergeForm(segs[..j], segs[j], x, segs[i + 1..], h);
    }
  }

  lemma FreeForm(segs: seq<Seg>, i: nat, h: nat)
    requires i < |segs|
    ensures FreeSpec(segs, i, h)
         == segs[..FreedAt(segs, i)] + [Joined(segs, i, h)]
            + segs[if i + 1 < |segs| && !segs[i + 1].used then i + 2 else i + 1..]
  {
    hide FreeLeft, Merge;
    FreeLeftForm(segs, i, h);
    var j, x := FreedAt(segs, i), segs[i].(used := false);
    var y := if j < i then segs[j].(size := segs[j].size + h + x.size) else x;
    if i + 1 < |segs| && !segs[i + 1].used {
      assert segs[..j] + [y] + segs[i + 1..] == segs[..j] + [y, segs[i + 1]] + segs[i + 2..];
      MergeForm(segs[..j], y, segs[i + 1], segs[i + 2..], h);
    }
  }

  lemma FreeKeepsCoalesced(segs: seq<Seg>, i: nat, h: nat)
    requires Coalesced(segs) && i < |segs| && segs[i].used
    ensures Coalesced(FreeSpec(segs, i, h))
  {
    hide FreeSpec, FreeLeft;
    FreeForm(segs, i, h);
    var x := Joined(segs, i, h);
    var j := FreedAt(segs, i);
    var e := if i + 1 < |segs| && !segs[i + 1].used then i + 2 else i + 1;
    if j < i && j > 0 { assert segs[j - 1].used; }
    if e == i + 2 && e < |segs| { assert segs[i + 2].used; }
    CoalescedReplace(segs, j, e, x);
  }

  lemma FreeTiled(p: Pool, segs: seq<Seg>, i: nat)
    requires RowOk(p, segs) && i < |segs|
    ensures Tiled(FreeLeft(segs, i, p.h), p.start, p.tail, p.h)
    ensures Tiled(FreeSpec(segs, i, p.h), p.start, p.tail, p.h)
  {
    MarkTiled(segs, p.start, p.tail, p.h, i, false);
    if i > 0 && !segs[i - 1].used { MergeTiled(Mark(segs, i, false), p.start, p.tail, p.h, i - 1); }
    FreeLeftShape(segs, i, p.h);
    if i + 1 < |segs| && !segs[i + 1].used {
      MergeTiled(FreeLeft(segs, i, p.h), p.start, p.tail, p.h, FreedAt(segs, i));
    }
  }

  /** Freeing takes away exactly the freed block. */
  lemma FreeSets(p: Pool, segs: seq<Seg>, i: nat)
    requires RowOk(p, segs) && i < |segs| && segs[i].used
    ensures Live(FreeSpec(segs, i, p.h)) == Live(segs) - {segs[i]}
  {
    hide Live, FreeSet, Tiled;
    var m := Mark(segs, i, false);
    MarkTiled(segs, p.start, p.tail, p.h, i, false);
    MarkSets(segs, p.start, p.tail, p.h, i, false);
    FreeIsNotLive(m);
    if i > 0 && !segs[i - 1].used { MergeSets(m, p.start, p.tail, p.h, i - 1); }
    FreeTiled(p, segs, i);
    FreeLeftShape(segs, i, p.h);
    FreeIsNotLive(FreeLeft(segs, i, p.h));
    if i + 1 < |segs| && !segs[i + 1].used {
      MergeSets(FreeLeft(segs, i, p.h), p.start, p.tail, p.h, FreedAt(segs, i));
    }
  }

  lemma FreeIsNotLive(segs: seq<Seg>)
    ensures forall i :: 0 <= i < |segs| && !segs[i].used ==> segs[i] !in Live(segs)
  {
  }

  /** The freed bytes, and a header for every merge, become available. */
  lemma FreeTotals(segs: seq<Seg>, i: nat, h: nat)
    requires i < |segs| && segs[i].used
    ensures FreeTotal(FreeLeft(segs, i, h))
         == FreeTotal(segs) + segs[i].size + if i > 0 && !segs[i - 1].used then h else 0
    ensures FreeTotal(FreeSpec(segs, i, h))
         == FreeTotal(FreeLeft(segs, i, h)) + if i + 1 < |segs| && !segs[i + 1].used then h else 0
  {
    hide FreeTotal;
    var m := Mark(segs, i, false);
    MarkSums(segs, i, false);
    if i > 0 && !segs[i - 1].used {
      MergeSums(m, h, i - 1);
      TotalShort(m[i - 1], m[i]);
      TotalShort(m[i], m[i]);
    }
    FreeLeftShape(segs, i, h);
    if i + 1 < |segs| && !segs[i + 1].used {
      var l, j := FreeLeft(segs, i, h), FreedAt(segs, i);
      MergeSums(l, h, j);
      TotalShort(l[j], l[j + 1]);
      TotalShort(l[j + 1], l[j]);
    }
  }

  function ShrinkSpec(segs: seq<Seg>, i: nat, n: nat, h: nat): seq<Seg>
    requires i < |segs| && n + h <= segs[i].size
  {
    var r := Split(segs, i, n, h);
    if i + 1 < |segs| && !segs[i + 1].used then Merge(r, i + 1, h) else r
  }

  lemma ShrinkFacts(p: Pool, segs: seq<Seg>, i: nat, n: nat)
    requires RowOk(p, segs) && Coalesced(segs)
    requires i < |segs| && segs[i].used && n + p.h <= segs[i].size
    ensures var r := ShrinkSpec(segs, i, n, p.h);
            && i + 1 < |r| && r[i] == Seg(segs[i].addr, n, true)
            && Coalesced(r)
            && Live(r) == Live(segs) - {segs[i]} + {r[i]}
            && FreeTotal(r) == FreeTotal(segs) + r[i + 1].size
                               - if i + 1 < |segs| && !segs[i + 1].used then segs[i + 1].size else 0
  {
    hide FreeTotal, Live, Tiled, FreeSet;
    var s := Split(segs, i, n, p.h);
    SplitTiled(segs, p.start, p.tail, p.h, i, n);
    SplitSets(segs, p.start, p.tail, p.h, i, n);
    SplitSums(segs, p.h, i, n);
    FreeIsNotLive(s);
    if i + 1 < |segs| && !segs[i + 1].used {
      assert s[i + 2] == segs[i + 1];
      MergeSets(s, p.start, p.tail, p.h, i + 1);
      MergeSums(s, p.h, i + 1);
      TotalShort(s[i + 1], s[i + 2]);
      TotalShort(s[i + 2], s[i + 1]);
      ShrinkCoalesced(segs, i, n, p.h);
    } else {
      CoalescedSplit(segs, i, n, p.h);
    }
  }

  lemma ShrinkCoalesced(segs: seq<Seg>, i: nat, n: nat, h: nat)
    requires Coalesced(segs) && i + 1 < |segs| && segs[i].used && !segs[i + 1].used && n + h <= segs[i].size
    ensures Coalesced(Merge(Split(segs, i, n, h), i + 1, h))
  {
    var r := Merge(Split(segs, i, n, h), i + 1, h);
    var m := segs[i := segs[i].(size := n)];
    assert Coalesced(m);
    assert r == m[..i + 1] + [r[i + 1]] + m[i + 2..];
    if i + 2 < |segs| { assert segs[i + 1].used || segs[i + 2].used; }
    CoalescedReplace(m, i + 1, i + 2, r[i + 1]);
  }

  /** The headers written while cutting a block are headers before or after. */
  lemma CutRow(p: Pool, segs: seq<Seg>, i: nat, n: nat)
    requires i < |segs| && n + p.h <= segs[i].size
    ensures Row(p, Split(segs, i, n, p.h)) <= Row(p, segs) + Row(p, ShrinkSpec(segs, i, n, p.h))
  {
    AddrsChange(segs, p.h, i, n, true);
    var a, r, t := Addrs(segs), Addrs(Split(segs, i, n, p.h)), ShrinkSpec(segs, i, n, p.h);
    forall x | x in r ensures x in a || x in Addrs(t) {
      var k :| 0 <= k < |r| && r[k] == x;
      if k <= i { assert x == a[k]; }
      else if k == i + 1 { assert x == Addrs(t)[i + 1]; }
      else { assert x == a[k - 1]; }
    }
  }

  /** An allocation keeps the alignment exactly when it cuts at a multiple of g, or not at all. */
  lemma AllocAligned(segs: seq<Seg>, i: nat, n: nat, h: nat, min: nat, g: Align)
    requires Aligned(segs, g) && i < |segs| && n <= segs[i].size && Div(h, g)
    ensures Aligned(AllocSpec(segs, i, n, h, min), g) <==> Div(n, g) || segs[i].size < n + h + min
  {
    hide Aligned;
    AlignedMark(segs, i, true, g);
    if segs[i].size >= n + h + min { AlignedSplit(Mark(segs, i, true), i, n, h, g); }
  }

  lemma FreeAligned(segs: seq<Seg>, i: nat, h: nat, g: Align)
    requires Aligned(segs, g) && i < |segs| && Div(h, g)
    ensures Aligned(FreeSpec(segs, i, h), g)
  {
    hide Aligned;
    AlignedMark(segs, i, false, g);
    if i > 0 && !segs[i - 1].used { AlignedMerge(Mark(segs, i, false), i - 1, h, g); }
    FreeLeftShape(segs, i, h);
    if i + 1 < |segs| && !segs[i + 1].used { AlignedMerge(FreeLeft(segs, i, h), FreedAt(segs, i), h, g); }
  }

  lemma ShrinkAligned(segs: seq<Seg>, i: nat, n: nat, h: nat, g: Align)
    requires Aligned(segs, g) && i < |segs| && n + h <= segs[i].size && Div(h, g)
    ensures Aligned(ShrinkSpec(segs, i, n, h), g) <==> Div(n, g)
  {
    var s := Split(segs, i, n, h);
    AlignedSplit(segs, i, n, h, g);
    if i + 1 < |segs| && !segs[i + 1].used {
      if Div(n, g) { AlignedMerge(s, i + 1, h, g); }
      assert Merge(s, i + 1, h)[i].size == n;
    }
  }
}
