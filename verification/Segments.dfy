/** A heap as its allocators cut it: a row of segments, each a header of h bytes followed by
    `size` payload bytes, laid end to end from `start` to the end marker at `tail`. Both
    memheap.c and mem.c keep such a row; this module holds the row and what splitting,
    marking and merging do to it. */
module Segments {
  import opened RingList

  datatype Seg = Seg(addr: int, size: nat, used: bool)

  // ----- tiling -----

  function StartOf(segs: seq<Seg>, tail: int, i: nat): int
    requires i <= |segs|
  {
    if i < |segs| then segs[i].addr else tail
  }

  ghost predicate Abuts(segs: seq<Seg>, tail: int, h: nat, i: nat)
    requires i < |segs|
  {
    segs[i].addr + h + segs[i].size == StartOf(segs, tail, i + 1)
  }

  /** No gap and no overlap between start and tail. */
  ghost predicate Tiled(segs: seq<Seg>, start: int, tail: int, h: nat) {
    && StartOf(segs, tail, 0) == start
    && forall i :: 0 <= i < |segs| ==> Abuts(segs, tail, h, i)
  }

  /** Neighbours are never both free. */
  ghost predicate Coalesced(segs: seq<Seg>) {
    forall i {:trigger segs[i]} :: 0 <= i < |segs| - 1 ==> segs[i].used || segs[i + 1].used
  }

  /** The header addresses in order. */
  function Addrs(segs: seq<Seg>): (r: seq<int>)
    ensures |r| == |segs| && forall i :: 0 <= i < |segs| ==> r[i] == segs[i].addr
  {
    seq(|segs|, i requires 0 <= i < |segs| => segs[i].addr)
  }

  /** Free payload bytes. */
  function FreeTotal(segs: seq<Seg>): nat {
    if segs == [] then 0 else (if segs[0].used then 0 else segs[0].size) + FreeTotal(segs[1..])
  }

  /** Payload bytes handed out. */
  function UsedTotal(segs: seq<Seg>): nat {
    if segs == [] then 0 else (if segs[0].used then segs[0].size else 0) + UsedTotal(segs[1..])
  }

  /** Bytes that used segments take up, headers included. */
  function UsedExtent(segs: seq<Seg>, h: nat): nat {
    if segs == [] then 0 else (if segs[0].used then segs[0].size + h else 0) + UsedExtent(segs[1..], h)
  }

  ghost function Live(segs: seq<Seg>): set<Seg> {
    set s | s in segs && s.used
  }

  ghost function FreeSet(segs: seq<Seg>): set<int> {
    set s | s in segs && !s.used :: s.addr
  }

  // ----- the three changes -----

  /** Segment i keeps its first n payload bytes and is used; the rest becomes a free segment. */
  function Split(segs: seq<Seg>, i: nat, n: nat, h: nat): seq<Seg>
    requires i < |segs| && n + h <= segs[i].size
  {
    segs[..i] + [Seg(segs[i].addr, n, true), Seg(segs[i].addr + h + n, segs[i].size - h - n, false)] + segs[i + 1..]
  }

  function Mark(segs: seq<Seg>, i: nat, used: bool): seq<Seg>
    requires i < |segs|
  {
    segs[..i] + [segs[i].(used := used)] + segs[i + 1..]
  }

  /** Segment i swallows the segment after it. */
  function Merge(segs: seq<Seg>, i: nat, h: nat): seq<Seg>
    requires i + 1 < |segs|
  {
    segs[..i] + [segs[i].(size := segs[i].size + h + segs[i + 1].size)] + segs[i + 2..]
  }

  // ----- order of addresses -----

  lemma {:induction false} Ordered(segs: seq<Seg>, start: int, tail: int, h: nat, i: nat, j: nat)
    requires Tiled(segs, start, tail, h) && i < j <= |segs|
    ensures segs[i].addr + h + segs[i].size <= StartOf(segs, tail, j)
    decreases j - i
  {
    assert Abuts(segs, tail, h, i);
    if i + 1 < j { Ordered(segs, start, tail, h, i + 1, j); }
  }

  lemma StartsFirst(segs: seq<Seg>, start: int, tail: int, h: nat, i: nat)
    requires Tiled(segs, start, tail, h) && i <= |segs|
    ensures start <= StartOf(segs, tail, i)
  {
    if i > 0 { Ordered(segs, start, tail, h, 0, i); }
  }

  lemma AddrsDistinct(segs: seq<Seg>, start: int, tail: int, h: nat)
    requires Tiled(segs, start, tail, h) && h > 0
    ensures Distinct(Addrs(segs) + [tail])
  {
    var r := Addrs(segs) + [tail];
    forall i, j | 0 <= i < j < |r|
      ensures r[i] != r[j]
    {
      Ordered(segs, start, tail, h, i, j);
    }
  }

  lemma SameAddr(segs: seq<Seg>, start: int, tail: int, h: nat, i: nat, j: nat)
    requires Tiled(segs, start, tail, h) && h > 0 && i < |segs| && j < |segs| && segs[i].addr == segs[j].addr
    ensures i == j
  {
    if i < j { Ordered(segs, start, tail, h, i, j); }
    if j < i { Ordered(segs, start, tail, h, j, i); }
  }

  // ----- tiling is kept -----

  lemma SplitTiled(segs: seq<Seg>, start: int, tail: int, h: nat, i: nat, n: nat)
    requires Tiled(segs, start, tail, h) && i < |segs| && n + h <= segs[i].size
    ensures Tiled(Split(segs, i, n, h), start, tail, h)
  {
    var r := Split(segs, i, n, h);
    forall k | 0 <= k < |r|
      ensures Abuts(r, tail, h, k)
    {
      if k < i { assert Abuts(segs, tail, h, k); }
      else if k == i + 1 { assert Abuts(segs, tail, h, i); }
      else if k > i + 1 { assert Abuts(segs, tail, h, k - 1); }
    }
  }

  lemma MarkTiled(segs: seq<Seg>, start: int, tail: int, h: nat, i: nat, used: bool)
    requires Tiled(segs, start, tail, h) && i < |segs|
    ensures Tiled(Mark(segs, i, used), start, tail, h)
  {
    var r := Mark(segs, i, used);
    forall k | 0 <= k < |r|
      ensures Abuts(r, tail, h, k)
    {
      assert Abuts(segs, tail, h, k);
    }
  }

  lemma MergeTiled(segs: seq<Seg>, start: int, tail: int, h: nat, i: nat)
    requires Tiled(segs, start, tail, h) && i + 1 < |segs|
    ensures Tiled(Merge(segs, i, h), start, tail, h)
  {
    var r := Merge(segs, i, h);
    forall k | 0 <= k < |r|
      ensures Abuts(r, tail, h, k)
    {
      if k < i { assert Abuts(segs, tail, h, k); }
      else if k == i { assert Abuts(segs, tail, h, i) && Abuts(segs, tail, h, i + 1); }
      else { assert Abuts(segs, tail, h, k + 1); }
    }
  }

  // ----- sums and sets over parts -----

  lemma {:induction false} TotalConcat(a: seq<Seg>, b: seq<Seg>)
    ensures FreeTotal(a + b) == FreeTotal(a) + FreeTotal(b)
    ensures UsedTotal(a + b) == UsedTotal(a) + UsedTotal(b)
  {
    if a == [] {
      assert a + b == b;
    } else {
      TotalConcat(a[1..], b);
      assert (a + b)[1..] == a[1..] + b;
    }
  }

  lemma TotalMiddle(l: seq<Seg>, m: seq<Seg>, r: seq<Seg>)
    ensures FreeTotal(l + m + r) == FreeTotal(l) + FreeTotal(m) + FreeTotal(r)
    ensures UsedTotal(l + m + r) == UsedTotal(l) + UsedTotal(m) + UsedTotal(r)
  {
    hide FreeTotal, UsedTotal;
    TotalConcat(l + m, r);
    TotalConcat(l, m);
  }

  lemma TotalShort(x: Seg, y: Seg)
    ensures FreeTotal([x]) == if x.used then 0 else x.size
    ensures UsedTotal([x]) == if x.used then x.size else 0
    ensures FreeTotal([x, y]) == FreeTotal([x]) + FreeTotal([y])
    ensures UsedTotal([x, y]) == UsedTotal([x]) + UsedTotal([y])
  {
    assert [x, y][1..] == [y];
  }

  lemma {:induction false} ExtentConcat(a: seq<Seg>, b: seq<Seg>, h: nat)
    ensures UsedExtent(a + b, h) == UsedExtent(a, h) + UsedExtent(b, h)
  {
    if a == [] {
      assert a + b == b;
    } else {
      ExtentConcat(a[1..], b, h);
      assert (a + b)[1..] == a[1..] + b;
    }
  }

  lemma ExtentMiddle(l: seq<Seg>, m: seq<Seg>, r: seq<Seg>, h: nat)
    ensures UsedExtent(l + m + r, h) == UsedExtent(l, h) + UsedExtent(m, h) + UsedExtent(r, h)
  {
    hide UsedExtent;
    ExtentConcat(l + m, r, h);
    ExtentConcat(l, m, h);
  }

  lemma ExtentShort(x: Seg, y: Seg, h: nat)
    ensures UsedExtent([x], h) == if x.used then x.size + h else 0
    ensures UsedExtent([x, y], h) == UsedExtent([x], h) + UsedExtent([y], h)
  {
    assert [x, y][1..] == [y];
  }

  lemma SplitExtent(segs: seq<Seg>, h: nat, i: nat, n: nat)
    requires i < |segs| && n + h <= segs[i].size
    ensures UsedExtent(Split(segs, i, n, h), h) == UsedExtent(segs, h) - UsedExtent([segs[i]], h) + n + h
  {
    hide UsedExtent;
    var x, l, r := segs[i], segs[..i], segs[i + 1..];
    var y, z := Seg(x.addr, n, true), Seg(x.addr + h + n, x.size - h - n, false);
    assert segs == l + [x] + r;
    assert Split(segs, i, n, h) == l + [y, z] + r;
    ExtentMiddle(l, [x], r, h);
    ExtentMiddle(l, [y, z], r, h);
    ExtentShort(y, z, h);
    ExtentShort(z, x, h);
  }

  lemma MarkExtent(segs: seq<Seg>, h: nat, i: nat, used: bool)
    requires i < |segs|
    ensures UsedExtent(Mark(segs, i, used), h)
         == UsedExtent(segs, h) - UsedExtent([segs[i]], h) + if used then segs[i].size + h else 0
  {
    hide UsedExtent;
    var x, l, r := segs[i], segs[..i], segs[i + 1..];
    assert segs == l + [x] + r;
    ExtentMiddle(l, [x], r, h);
    ExtentMiddle(l, [x.(used := used)], r, h);
    ExtentShort(x.(used := used), x, h);
  }

  lemma MergeExtent(segs: seq<Seg>, h: nat, i: nat)
    requires i + 1 < |segs| && !segs[i].used && !segs[i + 1].used
    ensures UsedExtent(Merge(segs, i, h), h) == UsedExtent(segs, h)
  {
    hide UsedExtent;
    var x, y, l, r := segs[i], segs[i + 1], segs[..i], segs[i + 2..];
    assert segs == l + [x, y] + r;
    var z := x.(size := x.size + h + y.size);
    ExtentMiddle(l, [x, y], r, h);
    ExtentMiddle(l, [z], r, h);
    ExtentShort(x, y, h);
    ExtentShort(y, z, h);
    ExtentShort(z, z, h);
  }

  lemma SetsMiddle(l: seq<Seg>, m: seq<Seg>, r: seq<Seg>)
    ensures Live(l + m + r) == Live(l) + Live(m) + Live(r)
    ensures FreeSet(l + m + r) == FreeSet(l) + FreeSet(m) + FreeSet(r)
  {
    assert forall s :: s in l + m + r <==> s in l || s in m || s in r;
  }

  lemma SplitSums(segs: seq<Seg>, h: nat, i: nat, n: nat)
    requires i < |segs| && n + h <= segs[i].size
    ensures FreeTotal(Split(segs, i, n, h))
         == FreeTotal(segs) - (if segs[i].used then 0 else segs[i].size) + segs[i].size - h - n
  {
    hide FreeTotal, UsedTotal;
    var x, l, r := segs[i], segs[..i], segs[i + 1..];
    assert segs == l + [x] + r;
    var y, z := Seg(x.addr, n, true), Seg(x.addr + h + n, x.size - h - n, false);
    assert Split(segs, i, n, h) == l + [y, z] + r;
    TotalMiddle(l, [x], r);
    TotalMiddle(l, [y, z], r);
    TotalShort(x, x);
    TotalShort(y, z);
    TotalShort(z, x);
  }

  lemma MarkSums(segs: seq<Seg>, i: nat, used: bool)
    requires i < |segs|
    ensures FreeTotal(Mark(segs, i, used))
         == FreeTotal(segs) - (if segs[i].used then 0 else segs[i].size) + (if used then 0 else segs[i].size)
  {
    hide FreeTotal, UsedTotal;
    var x, l, r := segs[i], segs[..i], segs[i + 1..];
    assert segs == l + [x] + r;
    TotalMiddle(l, [x], r);
    TotalMiddle(l, [x.(used := used)], r);
    TotalShort(x, x);
    TotalShort(x.(used := used), x);
  }

  lemma MergeSums(segs: seq<Seg>, h: nat, i: nat)
    requires i + 1 < |segs|
    ensures FreeTotal(Merge(segs, i, h))
         == FreeTotal(segs) - FreeTotal([segs[i]]) - FreeTotal([segs[i + 1]])
            + (if segs[i].used then 0 else segs[i].size + h + segs[i + 1].size)
  {
    hide FreeTotal, UsedTotal;
    var x, y, l, r := segs[i], segs[i + 1], segs[..i], segs[i + 2..];
    assert segs == l + [x, y] + r;
    var z := x.(size := x.size + h + y.size);
    TotalMiddle(l, [x, y], r);
    TotalMiddle(l, [z], r);
    TotalShort(x, y);
    TotalShort(y, z);
    TotalShort(z, z);
  }

  /** Address a belongs to no segment of l. */
  ghost predicate Absent(l: seq<Seg>, a: int) {
    forall s :: s in l ==> s.addr != a
  }

  /** A segment's address belongs to no other segment. */
  lemma Alone(segs: seq<Seg>, start: int, tail: int, h: nat, i: nat)
    requires Tiled(segs, start, tail, h) && h > 0 && i < |segs|
    ensures Absent(segs[..i], segs[i].addr) && Absent(segs[i + 1..], segs[i].addr)
    ensures segs == segs[..i] + [segs[i]] + segs[i + 1..]
  {
    forall s | s in segs[..i] || s in segs[i + 1..]
      ensures s.addr != segs[i].addr
    {
      var k :| 0 <= k < |segs| && k != i && segs[k] == s;
      if k < i { Ordered(segs, start, tail, h, k, i); } else { Ordered(segs, start, tail, h, i, k); }
    }
  }

  /** An address strictly inside segment i belongs to no segment. */
  lemma InsideAbsent(segs: seq<Seg>, start: int, tail: int, h: nat, i: nat, a: int)
    requires Tiled(segs, start, tail, h) && h > 0 && i < |segs|
    requires segs[i].addr < a && a < StartOf(segs, tail, i + 1)
    ensures Absent(segs, a) && a != tail
  {
    forall s | s in segs
      ensures s.addr != a
    {
      var k :| 0 <= k < |segs| && segs[k] == s;
      if k < i { Ordered(segs, start, tail, h, k, i); }
      if i + 1 < k { Ordered(segs, start, tail, h, i + 1, k); }
    }
    if i + 1 < |segs| { Ordered(segs, start, tail, h, i + 1, |segs|); }
  }

  lemma SetsShort(x: Seg, y: Seg)
    ensures Live([x]) == (if x.used then {x} else {}) && FreeSet([x]) == if x.used then {} else {x.addr}
    ensures Live([x, y]) == Live([x]) + Live([y]) && FreeSet([x, y]) == FreeSet([x]) + FreeSet([y])
  {
    assert x in [x] && y in [y] && x in [x, y] && y in [x, y];
    assert [x, y] == [] + [x] + [y];
    SetsMiddle([], [x], [y]);
  }

  lemma AbsentSets(l: seq<Seg>, x: Seg)
    requires Absent(l, x.addr)
    ensures x !in Live(l) && x.addr !in FreeSet(l)
  {
  }

  lemma SplitSets(segs: seq<Seg>, start: int, tail: int, h: nat, i: nat, n: nat)
    requires Tiled(segs, start, tail, h) && h > 0 && i < |segs| && n + h <= segs[i].size
    ensures Live(Split(segs, i, n, h)) == Live(segs) - {segs[i]} + {Seg(segs[i].addr, n, true)}
    ensures FreeSet(Split(segs, i, n, h)) == FreeSet(segs) - {segs[i].addr} + {segs[i].addr + h + n}
  {
    hide Live, FreeSet, Absent, Tiled;
    var x, l, r := segs[i], segs[..i], segs[i + 1..];
    var y, z := Seg(x.addr, n, true), Seg(x.addr + h + n, x.size - h - n, false);
    Alone(segs, start, tail, h, i);
    SetsMiddle(l, [x], r);
    SetsMiddle(l, [y, z], r);
    SetsShort(x, y);
    SetsShort(y, z);
    SetsShort(z, z);
    AbsentSets(l, x);
    AbsentSets(r, x);
  }

  lemma MarkSets(segs: seq<Seg>, start: int, tail: int, h: nat, i: nat, used: bool)
    requires Tiled(segs, start, tail, h) && h > 0 && i < |segs|
    ensures Live(Mark(segs, i, used)) == Live(segs) - {segs[i]} + (if used then {segs[i].(used := true)} else {})
    ensures FreeSet(Mark(segs, i, used)) == FreeSet(segs) - {segs[i].addr} + (if used then {} else {segs[i].addr})
  {
    hide Live, FreeSet, Absent, Tiled;
    var x, l, r := segs[i], segs[..i], segs[i + 1..];
    var y := x.(used := used);
    Alone(segs, start, tail, h, i);
    SetsMiddle(l, [x], r);
    SetsMiddle(l, [y], r);
    SetsShort(x, y);
    SetsShort(y, y);
    AbsentSets(l, x);
    AbsentSets(r, x);
  }

  /** Merging a free segment into the one before it. */
  lemma MergeSets(segs: seq<Seg>, start: int, tail: int, h: nat, i: nat)
    requires Tiled(segs, start, tail, h) && h > 0 && i + 1 < |segs| && !segs[i + 1].used
    ensures var x := segs[i];
            var z := x.(size := x.size + h + segs[i + 1].size);
            && Live(Merge(segs, i, h)) == Live(segs) - {x} + (if x.used then {z} else {})
            && FreeSet(Merge(segs, i, h)) == FreeSet(segs) - {segs[i + 1].addr}
  {
    hide Live, FreeSet, Absent, Tiled;
    var x, y, l, r := segs[i], segs[i + 1], segs[..i], segs[i + 2..];
    var z := x.(size := x.size + h + y.size);
    Alone(segs, start, tail, h, i);
    Alone(segs, start, tail, h, i + 1);
    AbsentParts(segs, i, x.addr, y.addr);
    assert segs == l + [x, y] + r;
    SetsMiddle(l, [x, y], r);
    SetsMiddle(l, [z], r);
    SetsShort(x, y);
    SetsShort(y, z);
    SetsShort(z, z);
    AbsentSets(l, x);
    AbsentSets(r, x);
    AbsentSets(l, y);
    AbsentSets(r, y);
    Ordered(segs, start, tail, h, i, i + 1);
  }

  lemma AbsentParts(segs: seq<Seg>, i: nat, a: int, b: int)
    requires i + 1 < |segs| && Absent(segs[i + 1..], a) && Absent(segs[..i + 1], b)
    ensures Absent(segs[i + 2..], a) && Absent(segs[..i], b)
  {
    var tail, front := segs[i + 1..], segs[..i + 1];
    assert segs[i + 2..] == tail[1..] && segs[..i] == front[..i];
  }

  // ----- coalescing -----

  /** A free segment in place of segments j to e - 1, between used neighbours. */
  lemma CoalescedReplace(segs: seq<Seg>, j: nat, e: nat, x: Seg)
    requires Coalesced(segs) && j < e <= |segs|
    requires j > 0 ==> segs[j - 1].used
    requires e < |segs| ==> segs[e].used
    ensures Coalesced(segs[..j] + [x] + segs[e..])
  {
    var r := segs[..j] + [x] + segs[e..];
    forall k | 0 <= k < |r| - 1
      ensures r[k].used || r[k + 1].used
    {
      if k < j - 1 { assert segs[k].used || segs[k + 1].used; }
      else if k == j - 1 { assert r[k] == segs[k]; }
      else if k == j { assert r[k + 1] == segs[e]; }
      else {
        var d := k - j - 1 + e;
        assert r[k] == segs[d] && r[k + 1] == segs[d + 1];
        assert segs[d].used || segs[d + 1].used;
      }
    }
  }

  // ----- addresses -----

  lemma AddrsChange(segs: seq<Seg>, h: nat, i: nat, n: nat, used: bool)
    requires i < |segs|
    ensures n + h <= segs[i].size ==> Addrs(Split(segs, i, n, h)) == InsertAt(Addrs(segs), i + 1, segs[i].addr + h + n)
    ensures Addrs(Mark(segs, i, used)) == Addrs(segs)
    ensures i + 1 < |segs| ==> Addrs(Merge(segs, i, h)) == RemoveAt(Addrs(segs), i + 1)
  {
  }

  // ----- alignment -----

  /** RT_ALIGN_SIZE. */
  type Align = a: int | a == 4 || a == 8 witness 4

  predicate Div(x: int, g: Align) {
    if g == 4 then x % 4 == 0 else x % 8 == 0
  }

  lemma DivSum(x: int, y: int, g: Align)
    requires Div(y, g)
    ensures Div(x + y, g) <==> Div(x, g)
    ensures Div(x - y, g) <==> Div(x, g)
  {
  }

  /** Headers and payload sizes are multiples of g. */
  ghost predicate Aligned(segs: seq<Seg>, g: Align) {
    forall i :: 0 <= i < |segs| ==> Div(segs[i].addr, g) && Div(segs[i].size, g)
  }

  lemma AlignedSplit(segs: seq<Seg>, i: nat, n: nat, h: nat, g: Align)
    requires Aligned(segs, g) && i < |segs| && n + h <= segs[i].size && Div(h, g)
    ensures Aligned(Split(segs, i, n, h), g) <==> Div(n, g)
  {
    hide Div;
    var r := Split(segs, i, n, h);
    assert r[i].size == n;
    if Div(n, g) {
      DivSum(segs[i].addr, h, g);
      DivSum(segs[i].addr + h, n, g);
      DivSum(segs[i].size, h, g);
      DivSum(segs[i].size - h, n, g);
      forall k | 0 <= k < |r| ensures Div(r[k].addr, g) && Div(r[k].size, g) {
        if k < i { assert r[k] == segs[k]; } else if k > i + 1 { assert r[k] == segs[k - 1]; }
      }
    }
  }

  lemma AlignedMark(segs: seq<Seg>, i: nat, used: bool, g: Align)
    requires Aligned(segs, g) && i < |segs|
    ensures Aligned(Mark(segs, i, used), g)
  {
  }

  lemma AlignedMerge(segs: seq<Seg>, i: nat, h: nat, g: Align)
    requires Aligned(segs, g) && i + 1 < |segs| && Div(h, g)
    ensures Aligned(Merge(segs, i, h), g)
  {
    hide Div;
    var r := Merge(segs, i, h);
    DivSum(segs[i].size, h, g);
    DivSum(segs[i].size + h, segs[i + 1].size, g);
    forall k | 0 <= k < |r| ensures Div(r[k].addr, g) && Div(r[k].size, g) {
      if k < i { assert r[k] == segs[k]; } else if k > i { assert r[k] == segs[k + 1]; }
    }
  }

  // ----- conservation -----

  /** Headers, free bytes and used bytes add up to the whole pool. */
  lemma {:induction false} Conservation(segs: seq<Seg>, start: int, tail: int, h: nat)
    requires Tiled(segs, start, tail, h)
    ensures h * |segs| + FreeTotal(segs) + UsedTotal(segs) == tail - start
  {
    if segs != [] {
      var rest := segs[1..];
      assert Abuts(segs, tail, h, 0);
      assert Tiled(rest, segs[0].addr + h + segs[0].size, tail, h) by {
        forall k | 0 <= k < |rest|
          ensures Abuts(rest, tail, h, k)
        {
          assert Abuts(segs, tail, h, k + 1);
        }
      }
      Conservation(rest, segs[0].addr + h + segs[0].size, tail, h);
      assert h * |segs| == h + h * |rest|;
    }
  }

  /** Payloads of different segments do not overlap, and no header lies in a payload. */
  lemma Disjoint(segs: seq<Seg>, start: int, tail: int, h: nat, i: nat, j: nat)
    requires Tiled(segs, start, tail, h) && i < |segs| && j < |segs| && i != j
    ensures segs[i].addr + h + segs[i].size <= segs[j].addr || segs[j].addr + h + segs[j].size <= segs[i].addr
  {
    if i < j { Ordered(segs, start, tail, h, i, j); } else { Ordered(segs, start, tail, h, j, i); }
  }
}
