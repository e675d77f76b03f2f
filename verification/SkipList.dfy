/** The timer lists of timer.c: a skip list of any number of levels over circular linked
    lists, ordered by subtraction of 32-bit ticks that wrap around. */
module SkipList {
  import opened Arith
  import opened RingList
  import opened SortedList
  import opened TimerSpec

  const WRAP := 0x1_0000_0000
  const TICK_MAX := 0xffff_ffff

  /** The list heads are the node 0 of their level; timer x is node x on every level. */
  const HEAD := 0

  // ----- tick arithmetic -----

  /** Unsigned subtraction of two ticks. */
  function Minus(a: int, b: int): int {
    (a - b) % WRAP
  }

  /** Times that wrapped subtraction compares correctly: a is at most half the range after b,
      and at most the rest of the range before it. */
  predicate Comparable(a: int, b: int) {
    HALF - WRAP <= a - b < HALF
  }

  /** The test of rt_timer_start on wrapped ticks decides the order of the real times. */
  lemma Compare(a: int, b: int)
    requires Comparable(a, b)
    ensures Minus(a % WRAP, b % WRAP) == 0 <==> a == b
    ensures 0 < Minus(a % WRAP, b % WRAP) < HALF <==> a > b
  {
  }

  /** The window is exact: beyond it the test gives the wrong order. */
  lemma CompareOutside(a: int, b: int)
    requires -WRAP < a - b < WRAP && !Comparable(a, b)
    ensures (0 < Minus(a % WRAP, b % WRAP) < HALF) != (a > b)
  {
  }

  // ----- one level -----

  /** The nodes of a level, in list order. */
  function Nodes(s: seq<int>): (r: seq<int>)
    ensures |r| == |s| + 1
  {
    [HEAD] + s
  }

  /** The level links s behind its head; the other timers are linked to themselves. */
  ghost predicate RowOk(l: Links, s: seq<int>, timers: set<int>) {
    && Ring(l, Nodes(s))
    && HEAD !in timers
    && (forall x :: x in s ==> x in timers)
    && (forall x :: x in timers && x !in s ==> Ring(l, [x]))
  }

  lemma RowInsert(l: Links, s: seq<int>, timers: set<int>, p: nat, x: int)
    requires RowOk(l, s, timers) && p <= |s| && x in timers && x !in s
    ensures Nodes(s)[p] in l.next
    ensures RowOk(InsertAfter(l, Nodes(s)[p], x), InsertAt(s, p, x), timers)
  {
    var n := Nodes(s);
    assert Linked(l, n, p);
    RingInsertAfter(l, n, p, x);
    assert InsertAt(n, p + 1, x) == Nodes(InsertAt(s, p, x));
    forall y | y in timers && y !in InsertAt(s, p, x)
      ensures Ring(InsertAfter(l, n[p], x), [y])
    {
      assert y !in s && y != x by { InsertMembers(s, p, x); }
      OtherRing(l, n, [y], p, x);
    }
    InsertMembers(s, p, x);
  }

  lemma InsertMembers(s: seq<int>, p: nat, x: int)
    requires p <= |s|
    ensures forall y :: y in InsertAt(s, p, x) <==> y in s || y == x
  {
    assert s == s[..p] + s[p..];
  }

  lemma RowRemove(l: Links, s: seq<int>, timers: set<int>, x: int)
    requires RowOk(l, s, timers) && x in timers
    ensures x in l.next && x in l.prev
    ensures RowOk(Remove(l, x), Without(s, x), timers) && Ring(Remove(l, x), [x])
  {
    if x in s {
      var i :| 0 <= i < |s| && s[i] == x;
      RowRemoveAt(l, s, timers, i);
    } else {
      WithoutAbsent(s, x);
      assert Linked(l, [x], 0);
      assert Remove(l, x) == l;
    }
  }

  lemma RowRemoveAt(l: Links, s: seq<int>, timers: set<int>, i: nat)
    requires RowOk(l, s, timers) && i < |s|
    ensures s[i] in l.next && s[i] in l.prev
    ensures RowOk(Remove(l, s[i]), Without(s, s[i]), timers) && Ring(Remove(l, s[i]), [s[i]])
  {
    hide Without, Ring, Remove;
    var n, x := Nodes(s), s[i];
    RingAt(l, n, i + 1);
    NodesDistinct(s);
    WithoutAt(s, i);
    WithoutMembers(s, x);
    RingRemove(l, n, i + 1);
    assert RemoveAt(n, i + 1) == Nodes(Without(s, x));
    forall y | y in timers && y !in Without(s, x) && y != x
      ensures Ring(Remove(l, x), [y])
    {
      OtherRing(l, n, [y], i + 1, x);
    }
  }

  lemma RingAt(l: Links, n: seq<int>, i: nat)
    requires Ring(l, n) && i < |n|
    ensures n[i] in l.next && n[i] in l.prev && Distinct(n)
  {
    assert Linked(l, n, i);
  }

  lemma NodesDistinct(s: seq<int>)
    requires Distinct(Nodes(s))
    ensures Distinct(s)
  {
    forall i, j | 0 <= i < j < |s| ensures s[i] != s[j] {
      assert Nodes(s)[i + 1] == s[i] && Nodes(s)[j + 1] == s[j];
    }
  }

  // ----- the levels together -----

  /** Every level is the part of the bottom level with its own timers, and each level has all
      timers of the level above. */
  ghost predicate Layered(order: seq<seq<int>>) {
    && |order| > 0
    && (forall k :: 0 <= k < |order| ==> PartOf(order[k], order[|order| - 1]))
    && (forall k :: 0 < k < |order| ==> Above(order, k))
  }

  ghost predicate Above(order: seq<seq<int>>, k: nat)
    requires 0 < k < |order|
  {
    forall x :: x in order[k - 1] ==> x in order[k]
  }

  ghost predicate PartOf(s: seq<int>, bottom: seq<int>) {
    s == Keep(bottom, Elems(s))
  }

  ghost function RemoveRows(order: seq<seq<int>>, x: int): (r: seq<seq<int>>)
    ensures |r| == |order| && forall k :: 0 <= k < |r| ==> r[k] == Without(order[k], x)
  {
    seq(|order|, k requires 0 <= k < |order| => Without(order[k], x))
  }

  /** x is put in its place on the lowest h levels. */
  ghost function InsertRows(order: seq<seq<int>>, due: map<int, int>, x: int, h: nat): (r: seq<seq<int>>)
    ensures |r| == |order|
    ensures forall k :: 0 <= k < |r| ==> r[k] == if k + h >= |order| then PlainInsert(order[k], due, x) else order[k]
  {
    seq(|order|, k requires 0 <= k < |order| => if k + h >= |order| then PlainInsert(order[k], due, x) else order[k])
  }

  /** Each level is a subsequence of the next lower one. */
  lemma LevelBelow(order: seq<seq<int>>, k: nat)
    requires Layered(order) && 0 < k < |order|
    ensures order[k - 1] == Keep(order[k], Elems(order[k - 1]))
  {
    var s, t, b := order[k - 1], order[k], order[|order| - 1];
    assert PartOf(s, b) && PartOf(t, b);
    KeepKeep(b, Elems(t), Elems(s));
    assert Above(order, k);
    SameElems(s, Elems(t) * Elems(s));
  }

  lemma LevelListed(order: seq<seq<int>>, k: nat, due: map<int, int>)
    requires Layered(order) && k < |order| && Distinct(order[|order| - 1]) && Sorted(order[|order| - 1], due)
    ensures Distinct(order[k]) && Sorted(order[k], due)
    ensures forall x :: x in order[k] ==> x in order[|order| - 1]
  {
    assert PartOf(order[k], order[|order| - 1]);
    KeepDistinct(order[|order| - 1], Elems(order[k]));
    KeepSorted(order[|order| - 1], Elems(order[k]), due);
    KeepMembers(order[|order| - 1], Elems(order[k]));
  }

  lemma PartRemove(s: seq<int>, b: seq<int>, x: int)
    requires PartOf(s, b)
    ensures PartOf(Without(s, x), Without(b, x))
  {
    RemoveFromPart(b, Elems(s), x);
    WithoutElems(s, x);
  }

  lemma PartInsert(s: seq<int>, b: seq<int>, due: map<int, int>, x: int)
    requires PartOf(s, b) && Sorted(b, due) && x !in b
    ensures PartOf(PlainInsert(s, due, x), PlainInsert(b, due, x))
  {
    hide PlainInsert;
    InsertIntoPart(b, Elems(s), due, x);
    PlainInsertMembers(s, due, x);
    SameElems(PlainInsert(s, due, x), Elems(s) + {x});
  }

  lemma PartBeside(s: seq<int>, b: seq<int>, due: map<int, int>, x: int)
    requires PartOf(s, b) && x !in b
    ensures PartOf(s, PlainInsert(b, due, x))
  {
    KeepMembers(b, Elems(s));
    InsertBesidePart(b, Elems(s), due, x);
  }

  lemma LayeredRemove(order: seq<seq<int>>, x: int)
    requires Layered(order)
    ensures Layered(RemoveRows(order, x))
  {
    hide Without, PartOf;
    var r, b := RemoveRows(order, x), order[|order| - 1];
    forall k | 0 <= k < |r|
      ensures PartOf(r[k], r[|r| - 1])
    {
      PartRemove(order[k], b, x);
    }
    forall k | 0 < k < |r|
      ensures Above(r, k)
    {
      assert Above(order, k);
      WithoutMembers(order[k - 1], x);
      WithoutMembers(order[k], x);
    }
  }

  lemma LayeredInsert(order: seq<seq<int>>, due: map<int, int>, x: int, h: nat)
    requires Layered(order) && h > 0 && Sorted(order[|order| - 1], due) && x !in order[|order| - 1]
    ensures Layered(InsertRows(order, due, x, h))
  {
    hide PlainInsert, PartOf, Sorted;
    var r, b := InsertRows(order, due, x, h), order[|order| - 1];
    forall k | 0 <= k < |r|
      ensures PartOf(r[k], r[|r| - 1])
    {
      if k + h >= |order| {
        PartInsert(order[k], b, due, x);
      } else {
        PartBeside(order[k], b, due, x);
      }
    }
    forall k | 0 < k < |r|
      ensures Above(r, k)
    {
      assert Above(order, k);
      PlainInsertMembers(order[k - 1], due, x);
      PlainInsertMembers(order[k], due, x);
    }
  }

  /** How many levels a timer is put on: one more for every group of zero bits. */
  function Height(nr: nat, mask: nat, levels: nat): nat {
    if levels <= 1 || nr % (mask + 1) != 0 then 1 else 1 + Height(nr / (mask + 1), mask, levels - 1)
  }

  lemma {:induction false} HeightBound(nr: nat, mask: nat, levels: nat)
    requires levels >= 1
    ensures 1 <= Height(nr, mask, levels) <= levels
  {
    if levels > 1 && nr % (mask + 1) == 0 { HeightBound(nr / (mask + 1), mask, levels - 1); }
  }

  /** Heights are spread evenly: exactly every (mask + 1)^j-th start gives a timer more than j
      levels. */
  lemma {:induction false} HeightEvery(nr: nat, mask: nat, levels: nat, j: nat)
    requires j < levels
    ensures Height(nr, mask, levels) > j <==> nr % Power(mask + 1, j) == 0
    decreases j
  {
    if j == 0 {
      HeightBound(nr, mask, levels);
    } else {
      ModProduct(nr, mask + 1, Power(mask + 1, j - 1));
      if nr % (mask + 1) == 0 { HeightEvery(nr / (mask + 1), mask, levels - 1, j - 1); }
    }
  }

  /** Where the scan of a level can start: at the node reached on the level above. */
  lemma Descend(order: seq<seq<int>>, k: nat, due: map<int, int>, t: int) returns (q: nat)
    requires Layered(order) && 0 < k < |order| && Distinct(order[|order| - 1]) && Sorted(order[|order| - 1], due)
    ensures Upper(order[k - 1], due, t) <= |order[k - 1]|
    ensures q <= |order[k]| && Nodes(order[k])[q] == Nodes(order[k - 1])[Upper(order[k - 1], due, t)]
    ensures forall i :: 0 <= i < q ==> At(due, order[k][i]) <= t
  {
    var s, p := order[k - 1], Upper(order[k - 1], due, t);
    UpperBounds(s, due, t);
    LevelListed(order, k, due);
    if p == 0 { return 0; }
    var x := s[p - 1];
    assert x in s && Above(order, k);
    assert x in order[k];
    var j :| 0 <= j < |order[k]| && order[k][j] == x;
    q := j + 1;
  }

  /** The node behind which x belongs on a level. */
  ghost predicate Placed(node: int, s: seq<int>, due: map<int, int>, x: int) {
    Upper(s, due, At(due, x)) <= |s| && node == Nodes(s)[Upper(s, due, At(due, x))]
  }

  class TimerList {
    const levels: nat
    const mask: nat
    var rows: seq<Links>
    var timeout: map<int, int>
    var init: map<int, int>
    var periodic: set<int>
    var active: set<int>
    var tick: int
    var randomNr: nat
    ghost var timers: set<int>
    ghost var order: seq<seq<int>>
    ghost var now: nat
    ghost var due: map<int, int>

    ghost function Bottom(): seq<int>
      reads this
      requires |order| > 0
    {
      order[|order| - 1]
    }

    /** The timers as the plain sorted list. */
    ghost function View(): State
      reads this
      requires |order| > 0
    {
      State(now, Bottom(), due, init, periodic, active)
    }

    ghost predicate Shaped()
      reads this
    {
      && levels >= 1 && (mask == 1 || mask == 3)
      && |rows| == levels && |order| == levels
      && HEAD !in timers
      && (forall x :: x in timers ==> x in timeout && x in init)
      && 0 <= randomNr < WRAP
    }

    ghost predicate Rows()
      reads `rows, `order, `timers
      requires |rows| == |order|
    {
      forall k :: 0 <= k < |rows| ==> RowOk(rows[k], order[k], timers)
    }

    /** The ticks in the timers are the real times modulo the counter range. */
    ghost predicate Clocks()
      reads `tick, `now, `timers, `timeout, `due
    {
      tick == now % WRAP && forall x :: x in timers && x in timeout ==> timeout[x] == At(due, x) % WRAP
    }

    ghost predicate Valid()
      reads this
    {
      Shaped() && Rows() && Clocks() && Layered(order)
    }

    /** rt_system_timer_init with no timers yet. */
    constructor (levels: nat, mask: nat)
      requires levels >= 1 && (mask == 1 || mask == 3)
      ensures Valid() && Inv(View()) && Settled(View()) && this.levels == levels && this.mask == mask
      ensures View() == State(0, [], map[], map[], {}, {}) && timers == {}
    {
      this.levels, this.mask := levels, mask;
      rows := seq(levels, _ => Init(Links(map[], map[]), HEAD));
      order := seq(levels, _ => []);
      timeout, init, periodic, active, tick, randomNr := map[], map[], {}, {}, 0, 0;
      timers, now, due := {}, 0, map[];
    }

    /** _rt_timer_remove: the timer leaves every level. */
    method Detach(x: int)
      requires Valid() && x in timers
      modifies this`rows, this`order
      ensures Valid() && order == RemoveRows(old(order), x) && Bottom() == Without(old(Bottom()), x)
    {
      hide Layered, RowOk, Clocks;
      ghost var order0 := order;
      var i := 0;
      while i < levels
        invariant 0 <= i <= levels && |rows| == levels && |order| == levels
        invariant Rows()
        invariant forall k :: 0 <= k < i ==> order[k] == Without(order0[k], x)
        invariant forall k :: i <= k < levels ==> order[k] == order0[k]
      {
        hide Without;
        RowRemove(rows[i], order[i], timers, x);
        rows := rows[i := Remove(rows[i], x)];
        order := order[i := Without(order[i], x)];
        i := i + 1;
      }
      assert order == RemoveRows(order0, x);
      LayeredRemove(order0, x);
    }

    /** The scan of one level: from a node that is not behind the place for x to the place. */
    method Scan(k: nat, from: int, x: int, ghost q: nat) returns (p: int)
      requires Shaped() && Clocks() && k < levels && RowOk(rows[k], order[k], timers) && x in timers
      requires q <= |order[k]| && from == Nodes(order[k])[q]
      requires forall i :: 0 <= i < q ==> At(due, order[k][i]) <= At(due, x)
      requires forall i :: 0 <= i < |order[k]| ==> Comparable(At(due, order[k][i]), At(due, x))
      ensures Placed(p, order[k], due, x)
    {
      hide Clocks, RowOk;
      RowLinks(rows[k], order[k], timers, q);
      ghost var s, t, i := order[k], At(due, x), q;
      p := from;
      while p != rows[k].prev[HEAD]
        invariant i <= |s| && p == Nodes(s)[i] && p in rows[k].next
        invariant forall j :: 0 <= j < i ==> At(due, s[j]) <= t
        decreases |s| - i
      {
        RowLinks(rows[k], s, timers, i);
        var next := rows[k].next[p];
        TickOf(s[i]);
        TickOf(x);
        Compare(At(due, s[i]), t);
        var diff := Minus(timeout[next], timeout[x]);
        if diff == 0 {
        } else if diff < HALF {
          UpperUnique(s, due, t, i);
          return;
        }
        p := next;
        i := i + 1;
        RowLinks(rows[k], s, timers, i);
      }
      RowLinks(rows[k], s, timers, i);
      UpperUnique(s, due, t, i);
    }

    lemma TickOf(x: int)
      requires Shaped() && Clocks() && x in timers
      ensures timeout[x] == At(due, x) % WRAP
    {
    }

    /** The second half of rt_timer_start: the timer is linked in behind every timer that is
        due no later, on the bottom level and as many levels above as the counter says. */
    method Insert(x: int)
      requires Valid() && x in timers && x !in Bottom()
      requires Distinct(Bottom()) && Sorted(Bottom(), due)
      requires forall y :: y in Bottom() ==> Comparable(At(due, y), At(due, x))
      modifies this`rows, this`order, this`randomNr
      ensures Valid() && randomNr == (old(randomNr) + 1) % WRAP
      ensures order == InsertRows(old(order), due, x, Height(randomNr, mask, levels))
      ensures Bottom() == PlainInsert(old(Bottom()), due, x)
    {
      hide Height, InsertRows, PlainInsert, Rows, Clocks, Layered, Sorted, Distinct, Placed, Comparable;
      HeightBound((randomNr + 1) % WRAP, mask, levels);
      var rowHead := FindPlaces(x);
      randomNr := (randomNr + 1) % WRAP;
      LinkIn(x, rowHead);
    }

    /** The nodes behind which x belongs, level by level. */
    method FindPlaces(x: int) returns (rowHead: seq<int>)
      requires Valid() && x in timers && x !in Bottom()
      requires Distinct(Bottom()) && Sorted(Bottom(), due)
      requires forall y :: y in Bottom() ==> Comparable(At(due, y), At(due, x))
      ensures |rowHead| == levels
      ensures forall k :: 0 <= k < levels ==> Placed(rowHead[k], order[k], due, x)
    {
      hide Layered, Sorted, Distinct, Comparable, RowOk;
      rowHead := [HEAD];
      var lvl := 0;
      ghost var q: nat := 0;
      while lvl < levels
        invariant 0 <= lvl <= levels && |rowHead| == if lvl < levels then lvl + 1 else levels
        invariant forall k :: 0 <= k < lvl ==> Placed(rowHead[k], order[k], due, x)
        invariant lvl < levels ==> q <= |order[lvl]| && rowHead[lvl] == Nodes(order[lvl])[q]
        invariant lvl < levels ==> forall i :: 0 <= i < q ==> At(due, order[lvl][i]) <= At(due, x)
      {
        LevelListed(order, lvl, due);
        assert forall i :: 0 <= i < |order[lvl]| ==> order[lvl][i] in order[lvl];
        var p := Scan(lvl, rowHead[lvl], x, q);
        rowHead := rowHead[lvl := p];
        if lvl != levels - 1 {
          rowHead := rowHead + [p];
          q := Descend(order, lvl + 1, due, At(due, x));
        }
        lvl := lvl + 1;
      }
    }

    /** The timer is linked in on the bottom level and, while the tested bits are zero, on the
        levels above it. */
    method LinkIn(x: int, rowHead: seq<int>)
      requires Valid() && x in timers && x !in Bottom() && Sorted(Bottom(), due) && Distinct(Bottom())
      requires |rowHead| == levels && forall k :: 0 <= k < levels ==> Placed(rowHead[k], order[k], due, x)
      modifies this`rows, this`order
      ensures Valid() && order == InsertRows(old(order), due, x, Height(randomNr, mask, levels))
    {
      hide RowOk, Placed, PlainInsert, Clocks, Layered;
      ghost var order0 := order;
      var tst := randomNr;
      Absent(order, x, due);
      LinkRow(levels - 1, rowHead[levels - 1], x);
      var lvl := 2;
      while lvl <= levels && tst % (mask + 1) == 0
        invariant 2 <= lvl <= levels + 1 && |rows| == levels && |order| == levels
        invariant Rows() && tst >= 0
        invariant forall k :: 0 <= k < levels ==>
                    order[k] == if k + lvl > levels then PlainInsert(order0[k], due, x) else order0[k]
        invariant Height(randomNr, mask, levels) == lvl - 2 + Height(tst, mask, levels - (lvl - 2))
      {
        LinkRow(levels - lvl, rowHead[levels - lvl], x);
        tst := tst / (mask + 1);
        lvl := lvl + 1;
      }
      assert order == InsertRows(order0, due, x, Height(randomNr, mask, levels));
      LayeredInsert(order0, due, x, Height(randomNr, mask, levels));
    }

    method LinkRow(k: nat, node: int, x: int)
      requires |rows| == |order| && k < |rows| && Rows()
      requires x in timers && x !in order[k] && Placed(node, order[k], due, x)
      modifies this`rows, this`order
      ensures |rows| == |order| == old(|rows|) && Rows()
      ensures order == old(order)[k := PlainInsert(old(order)[k], due, x)]
    {
      ghost var p := Upper(order[k], due, At(due, x));
      RowInsert(rows[k], order[k], timers, p, x);
      PlainInsertAt(order[k], due, x);
      rows := rows[k := InsertAfter(rows[k], node, x)];
      order := order[k := PlainInsert(order[k], due, x)];
    }

    /** rt_timer_init: a timer that is not linked anywhere. */
    method InitTimer(x: int, time: nat, repeat: bool)
      requires Valid() && Inv(View()) && x !in timers && x != HEAD && x !in active
      requires time < HALF && (repeat ==> time >= 1)
      modifies this
      ensures Valid() && Inv(View()) && (old(Settled(View())) ==> Settled(View()))
      ensures timers == old(timers) + {x} && order == old(order)
      ensures View() == NewState(old(View()), x, time, repeat)
    {
      hide Layered, Rows, Inv, Settled;
      AllIn();
      NewTimer(View(), x, time, repeat);
      InitRows(x);
      timeout, init := timeout[x := 0], init[x := time];
      due := due[x := 0];
      periodic := if repeat then periodic + {x} else periodic - {x};
    }

    method InitRows(x: int)
      requires |rows| == |order| == levels && Rows() && x !in timers && x != HEAD
      modifies `rows, `timers
      ensures |rows| == levels && timers == old(timers) + {x} && Rows()
    {
      hide RowOk;
      var i := 0;
      while i < levels
        invariant 0 <= i <= levels && |rows| == levels && timers == old(timers)
        invariant forall k :: 0 <= k < i ==> RowOk(rows[k], order[k], timers + {x})
        invariant forall k :: i <= k < levels ==> RowOk(rows[k], order[k], timers)
      {
        RowNew(rows[i], order[i], timers, x);
        rows := rows[i := Init(rows[i], x)];
        i := i + 1;
      }
      timers := timers + {x};
    }

    lemma AllIn()
      requires Valid()
      ensures Distinct(Bottom()) && forall x :: x in Bottom() ==> x in timers
    {
      RowIn(rows[levels - 1], Bottom(), timers);
    }

    method SetTimeout(x: int)
      requires Valid() && x in timers
      modifies `timeout, `due
      ensures Valid() && due == old(due)[x := now + init[x]]
    {
      timeout := timeout[x := (tick + init[x]) % WRAP];
      due := due[x := now + init[x]];
    }

    /** The first critical section of rt_timer_start: the timer is taken out, pending or not. */
    method StartDetach(x: int)
      requires Valid() && x in timers
      modifies this
      ensures Valid() && timers == old(timers)
      ensures View() == Detached(old(View()), x)
      ensures order == RemoveRows(old(order), x)
      ensures now == old(now) && due == old(due) && init == old(init) && randomNr == old(randomNr)
    {
      hide Layered, Rows, Clocks, RemoveRows, Without;
      Detach(x);
      active := active - {x};
    }

    /** The rest of rt_timer_start, for a timer that is not pending. */
    method StartLink(x: int)
      requires Valid() && x in timers && x !in Bottom() && Listed(View()) && Near(View()) && Periods(View())
      modifies this
      ensures Valid() && timers == old(timers)
      ensures View() == TimerSpec.Start(old(View()), x)
      ensures order == InsertRows(old(order), due, x, Height(randomNr, mask, levels))
    {
      hide Layered, Rows, Clocks, Sorted, Distinct, Without, PlainInsert;
      hide Near, Periods, Comparable, Height, InsertRows;
      WithoutAbsent(Bottom(), x);
      ghost var due0 := due;
      SetTimeout(x);
      NewTime(old(View()), x, due);
      SameKeys(Bottom(), due0, due, 0);
      Insert(x);
      active := active + {x};
    }

    /** rt_timer_start. Between its two parts other timers may be started and stopped and ticks
        may pass: the parts are a stop and a start of their own. */
    method Start(x: int)
      requires Valid() && x in timers && Listed(View()) && Near(View()) && Periods(View())
      modifies this
      ensures Valid() && timers == old(timers)
      ensures View() == TimerSpec.Start(old(View()), x)
      ensures order == InsertRows(RemoveRows(old(order), x), due, x, Height(randomNr, mask, levels))
    {
      hide Layered, Rows, Clocks, TimerSpec.Start, Height, InsertRows, RemoveRows, Periods, Listed, Near;
      StartParts(View(), x);
      StartDetach(x);
      StartLink(x);
    }

    /** rt_timer_stop. */
    method Stop(x: int) returns (ok: bool)
      requires Valid() && x in timers
      modifies this
      ensures Valid() && timers == old(timers) && ok == (x in old(active))
      ensures View() == TimerSpec.Stop(old(View()), x)
      ensures order == if ok then RemoveRows(old(order), x) else old(order)
    {
      hide Layered, Rows, Clocks, RemoveRows, Without;
      if x !in active {
        return false;
      }
      Detach(x);
      active := active - {x};
      return true;
    }

    /** What a callback does: it stops timers. */
    method Callback(xs: seq<int>)
      requires Valid() && forall x :: x in xs ==> x in timers
      modifies this
      ensures Valid() && timers == old(timers)
      ensures View() == StopAll(old(View()), xs)
    {
      hide Layered, Rows, Clocks, TimerSpec.Stop, RemoveRows;
      var i := 0;
      while i < |xs|
        invariant 0 <= i <= |xs| && Valid() && timers == old(timers)
        invariant StopAll(View(), xs[i..]) == StopAll(old(View()), xs)
      {
        assert xs[i..][1..] == xs[i + 1..];
        var x := xs[i];
        assert x in xs;
        var _ := Stop(x);
        i := i + 1;
      }
    }

    /** One round of the loop of rt_timer_check. */
    method FireFirst(t: int, cb: Callbacks)
      requires Valid() && Inv(View()) && Bottom() != [] && t == Bottom()[0]
      requires forall x :: x in Stops(cb, t) ==> x in timers
      modifies this
      ensures Valid() && timers == old(timers)
      ensures View() == Fire(old(View()), cb)
    {
      hide Layered, Rows, Clocks, Sorted, StopAll, RemoveRows, InsertRows, Without, TimerSpec.Start, Near, Periods;
      hide Height;
      ghost var s := View();
      First();
      WithoutAt(Bottom(), 0);
      MidFacts(s, Stops(cb, t));
      Detach(t);
      assert View() == s.(pending := s.pending[1..]);
      Callback(if t in cb then cb[t] else []);
      if t in periodic && t in active {
        active := active - {t};
        Start(t);
      } else {
        active := active - {t};
      }
    }

    /** The first pending timer, or the head. */
    lemma First()
      requires Valid()
      ensures HEAD in rows[levels - 1].next
      ensures var t := rows[levels - 1].next[HEAD];
              && (t == HEAD <==> Bottom() == [])
              && (t != HEAD ==> t == Bottom()[0] && t in timers && timeout[t] == At(due, t) % WRAP)
    {
      RowLinks(rows[levels - 1], Bottom(), timers, 0);
    }

    lemma DueTest(t: int)
      requires Valid() && Inv(View()) && t in Bottom() && t in timers
      ensures Minus(tick, timeout[t]) < HALF <==> At(due, t) <= now
    {
      CompareDue(now, At(due, t));
    }

    /** rt_timer_check. */
    method Check(cb: Callbacks) returns (fired: seq<int>)
      requires Valid() && Inv(View()) && forall y, x :: x in Stops(cb, y) ==> x in timers
      modifies this
      ensures Valid() && timers == old(timers)
      ensures Outcome(View(), fired) == TimerSpec.Check(old(View()), cb)
    {
      hide Layered, RowOk, Rows, Clocks, Fire, TimerSpec.Check, Upper, Inv;
      fired := [];
      ghost var s0 := View();
      First();
      while rows[levels - 1].next[HEAD] != HEAD
        invariant Valid() && timers == old(timers) && Inv(View())
        invariant HEAD in rows[levels - 1].next
        invariant TimerSpec.Check(s0, cb)
               == Outcome(TimerSpec.Check(View(), cb).state, fired + TimerSpec.Check(View(), cb).fired)
        decreases Upper(Bottom(), due, now)
      {
        First();
        var t := rows[levels - 1].next[HEAD];
        DueTest(t);
        if Minus(tick, timeout[t]) < HALF {
          CheckStep(View(), cb);
          FireFirst(t, cb);
          fired := fired + [t];
          First();
        } else {
          break;
        }
      }
      First();
      CheckDone(View(), cb);
    }

    /** The timer part of rt_tick_increase. */
    method TickIncrease(cb: Callbacks) returns (fired: seq<int>)
      requires Valid() && Inv(View()) && Settled(View()) && forall y, x :: x in Stops(cb, y) ==> x in timers
      modifies this
      ensures Valid() && timers == old(timers)
      ensures Outcome(View(), fired) == Next(old(View()), Tick(cb))
      ensures Inv(View()) && Settled(View())
    {
      hide Layered, RowOk, Rows, Inv, Settled, TimerSpec.Check;
      NextKeeps(View(), Tick(cb));
      TickNear(View());
      tick := (tick + 1) % WRAP;
      now := now + 1;
      fired := Check(cb);
    }

    /** rt_timer_list_next_timeout: the tick of a timer that no pending timer precedes. */
    method NextTimeout() returns (t: int)
      requires Valid() && Listed(View())
      ensures Bottom() == [] ==> t == TICK_MAX
      ensures Bottom() != [] ==> t == At(due, Bottom()[0]) % WRAP
      ensures forall x :: x in Bottom() ==> At(due, Bottom()[0]) <= At(due, x)
    {
      RowLinks(rows[levels - 1], Bottom(), timers, 0);
      if rows[levels - 1].next[HEAD] == HEAD {
        return TICK_MAX;
      }
      return timeout[rows[levels - 1].next[HEAD]];
    }
  }

  /** The time of a timer started now: it is comparable with every pending one. */
  lemma NewTime(s: State, x: int, due: map<int, int>)
    requires Near(s) && Periods(s) && due == s.due[x := s.now + At(s.init, x)]
    ensures At(s.init, x) >= 0
    ensures (s.now % WRAP + At(s.init, x)) % WRAP == At(due, x) % WRAP
    ensures forall y :: y in s.pending && y != x ==> At(due, y) == At(s.due, y) && Comparable(At(due, y), At(due, x))
  {
  }

  function NewState(s: State, x: int, n: nat, repeat: bool): State {
    s.(due := s.due[x := 0], init := s.init[x := n],
       periodic := if repeat then s.periodic + {x} else s.periodic - {x})
  }

  lemma NewTimer(s: State, x: int, n: nat, repeat: bool)
    requires Inv(s) && x !in s.pending && n < HALF && (repeat ==> n >= 1)
    ensures Inv(NewState(s, x, n, repeat)) && (Settled(s) ==> Settled(NewState(s, x, n, repeat)))
  {
    hide Sorted;
    var init, due := s.init[x := n], s.due[x := 0];
    forall y ensures At(init, y) == if y == x then n else At(s.init, y) {
    }
    SameKeys(s.pending, s.due, due, 0);
  }

  lemma RowIn(l: Links, s: seq<int>, timers: set<int>)
    requires RowOk(l, s, timers)
    ensures Distinct(s) && forall x :: x in s ==> x in timers
  {
    NodesDistinct(s);
  }

  lemma RowNew(l: Links, s: seq<int>, timers: set<int>, x: int)
    requires RowOk(l, s, timers) && x !in timers && x != HEAD
    ensures RowOk(Init(l, x), s, timers + {x})
  {
    var l' := Init(l, x);
    RingFrame(l, l', Nodes(s));
    forall y | y in timers + {x} && y !in s
      ensures Ring(l', [y])
    {
      if y != x { RingFrame(l, l', [y]); }
    }
  }

  /** The test of rt_timer_check on wrapped ticks decides whether a timer is due. */
  lemma CompareDue(now: int, due: int)
    requires now - 1 <= due < now + HALF
    ensures Minus(now % WRAP, due % WRAP) < HALF <==> due <= now
  {
  }

  lemma RowLinks(l: Links, s: seq<int>, timers: set<int>, i: nat)
    requires RowOk(l, s, timers) && i <= |s|
    ensures Nodes(s)[i] in l.next && HEAD in l.prev
    ensures Nodes(s)[i] == l.prev[HEAD] <==> i == |s|
    ensures i < |s| ==> l.next[Nodes(s)[i]] == s[i] == Nodes(s)[i + 1] && s[i] in timers
    ensures i == |s| ==> l.next[Nodes(s)[i]] == HEAD
  {
    var n := Nodes(s);
    assert Linked(l, n, i) && Linked(l, n, 0);
    assert n[|s|] == l.prev[HEAD];
    if i < |s| { assert n[i + 1] == s[i] && s[i] in s; }
  }

  lemma Absent(order: seq<seq<int>>, x: int, due: map<int, int>)
    requires Layered(order) && Distinct(order[|order| - 1]) && Sorted(order[|order| - 1], due)
    requires x !in order[|order| - 1]
    ensures forall k :: 0 <= k < |order| ==> x !in order[k]
  {
    forall k | 0 <= k < |order| ensures x !in order[k] {
      LevelListed(order, k, due);
    }
  }
}
