/** Lists of nodes kept in the order of a key: timers by the time they are due, waiting
    threads by priority. */
module SortedList {
  import opened RingList

  /** The key of x; nodes without a key have key 0. */
  function At(key: map<int, int>, x: int): int {
    if x in key then key[x] else 0
  }

  function Elems(s: seq<int>): set<int> {
    set x | x in s
  }

  /** The subsequence of the members of h. */
  function Keep(s: seq<int>, h: set<int>): seq<int> {
    if s == [] then [] else (if s[0] in h then [s[0]] else []) + Keep(s[1..], h)
  }

  function Without(s: seq<int>, x: int): seq<int> {
    Keep(s, Elems(s) - {x})
  }

  ghost predicate Sorted(s: seq<int>, key: map<int, int>) {
    forall i, j :: 0 <= i < j < |s| ==> At(key, s[i]) <= At(key, s[j])
  }

  /** How many nodes at the front have a key of at most t. */
  function Upper(s: seq<int>, key: map<int, int>, t: int): nat {
    if s == [] || At(key, s[0]) > t then 0 else 1 + Upper(s[1..], key, t)
  }

  /** Linear insertion into a sorted list: behind every node whose key is not greater. */
  function PlainInsert(s: seq<int>, key: map<int, int>, x: int): seq<int> {
    if s == [] || At(key, s[0]) > At(key, x) then [x] + s else [s[0]] + PlainInsert(s[1..], key, x)
  }

  // ----- keeping a part -----

  lemma {:induction false} KeepMembers(s: seq<int>, h: set<int>)
    ensures forall x :: x in Keep(s, h) <==> x in s && x in h
  {
    if s != [] { KeepMembers(s[1..], h); }
  }

  lemma KeepFrom(s: seq<int>, h: set<int>, i: nat)
    requires i < |Keep(s, h)|
    ensures exists k :: 0 <= k < |s| && s[k] == Keep(s, h)[i]
  {
    KeepMembers(s, h);
    assert Keep(s, h)[i] in Keep(s, h);
  }

  lemma {:induction false} KeepConcat(a: seq<int>, b: seq<int>, h: set<int>)
    ensures Keep(a + b, h) == Keep(a, h) + Keep(b, h)
  {
    if a == [] {
      assert a + b == b;
    } else {
      KeepConcat(a[1..], b, h);
      assert (a + b)[1..] == a[1..] + b;
    }
  }

  lemma KeepSplit(a: seq<int>, x: int, b: seq<int>, h: set<int>)
    ensures Keep(a + [x] + b, h) == Keep(a, h) + (if x in h then [x] else []) + Keep(b, h)
  {
    KeepConcat(a + [x], b, h);
    KeepConcat(a, [x], h);
  }

  lemma {:induction false} KeepKeep(s: seq<int>, g: set<int>, h: set<int>)
    ensures Keep(Keep(s, g), h) == Keep(s, g * h)
  {
    if s != [] {
      KeepKeep(s[1..], g, h);
      KeepConcat(if s[0] in g then [s[0]] else [], Keep(s[1..], g), h);
    }
  }

  /** Only the members of s matter. */
  lemma {:induction false} KeepSame(s: seq<int>, g: set<int>, h: set<int>)
    requires forall x :: x in s ==> (x in g <==> x in h)
    ensures Keep(s, g) == Keep(s, h)
  {
    if s != [] {
      KeepSame(s[1..], g, h);
      var x := s[0];
      assert x in s;
    }
  }

  lemma {:induction false} KeepAll(s: seq<int>, h: set<int>)
    requires forall x :: x in s ==> x in h
    ensures Keep(s, h) == s
  {
    if s != [] {
      KeepAll(s[1..], h);
      var x := s[0];
      assert x in s;
    }
  }

  lemma {:induction false} KeepDistinct(s: seq<int>, h: set<int>)
    requires Distinct(s)
    ensures Distinct(Keep(s, h))
  {
    if s != [] {
      KeepDistinct(s[1..], h);
      KeepMembers(s[1..], h);
    }
  }

  lemma {:induction false} KeepSorted(s: seq<int>, h: set<int>, key: map<int, int>)
    requires Sorted(s, key)
    ensures Sorted(Keep(s, h), key)
  {
    if s != [] {
      KeepSorted(s[1..], h, key);
      KeepMembers(s[1..], h);
      var r := Keep(s[1..], h);
      forall j | 0 <= j < |r| ensures At(key, s[0]) <= At(key, r[j]) {
        assert r[j] in r && r[j] in s[1..];
      }
    }
  }

  lemma WithoutMembers(s: seq<int>, x: int)
    ensures forall y :: y in Without(s, x) <==> y in s && y != x
  {
    KeepMembers(s, Elems(s) - {x});
  }

  lemma SameElems(s: seq<int>, h: set<int>)
    requires forall x :: x in s <==> x in h
    ensures Elems(s) == h
  {
    forall x ensures x in Elems(s) <==> x in h {
      assert x in s <==> x in h;
    }
  }

  lemma WithoutElems(s: seq<int>, x: int)
    ensures Elems(Without(s, x)) == Elems(s) - {x}
  {
    hide Without;
    WithoutMembers(s, x);
    SameElems(Without(s, x), Elems(s) - {x});
  }

  lemma WithoutAbsent(s: seq<int>, x: int)
    requires x !in s
    ensures Without(s, x) == s
  {
    KeepAll(s, Elems(s) - {x});
  }

  /** Taking one node out of a list of distinct nodes. */
  lemma WithoutAt(s: seq<int>, i: nat)
    requires Distinct(s) && i < |s|
    ensures Without(s, s[i]) == s[..i] + s[i + 1..]
  {
    hide Keep;
    var h := Elems(s) - {s[i]};
    KeepSplit(s[..i], s[i], s[i + 1..], h);
    assert s == s[..i] + [s[i]] + s[i + 1..];
    KeepAll(s[..i], h);
    KeepAll(s[i + 1..], h);
  }

  /** The rest of a list of distinct nodes. */
  lemma HeadTail(s: seq<int>)
    requires s != [] && Distinct(s)
    ensures Distinct(s[1..]) && forall x :: x in s[1..] <==> x in s && x != s[0]
  {
    assert s == [s[0]] + s[1..];
  }

  lemma WithoutDistinct(s: seq<int>, x: int)
    requires Distinct(s)
    ensures Distinct(Without(s, x))
  {
    KeepDistinct(s, Elems(s) - {x});
  }

  // ----- positions in a sorted list -----

  lemma {:induction false} UpperBounds(s: seq<int>, key: map<int, int>, t: int)
    ensures var p := Upper(s, key, t);
            && p <= |s|
            && (forall i :: 0 <= i < p ==> At(key, s[i]) <= t)
            && (p < |s| ==> At(key, s[p]) > t)
  {
    if s != [] && At(key, s[0]) <= t {
      UpperBounds(s[1..], key, t);
      var p := Upper(s, key, t);
      forall i | 0 <= i < p ensures At(key, s[i]) <= t {
        if i > 0 { assert s[i] == s[1..][i - 1]; }
      }
    }
  }

  /** Upper is the only place that separates the smaller keys from the greater ones. */
  lemma UpperUnique(s: seq<int>, key: map<int, int>, t: int, p: nat)
    requires p <= |s| && (forall i :: 0 <= i < p ==> At(key, s[i]) <= t) && (p < |s| ==> At(key, s[p]) > t)
    ensures p == Upper(s, key, t)
  {
    UpperBounds(s, key, t);
  }

  lemma UpperBeyond(s: seq<int>, key: map<int, int>, t: int)
    requires Sorted(s, key)
    ensures Upper(s, key, t) <= |s|
    ensures forall i :: Upper(s, key, t) <= i < |s| ==> At(key, s[i]) > t
  {
    UpperBounds(s, key, t);
  }

  lemma {:induction false} PlainInsertAt(s: seq<int>, key: map<int, int>, x: int)
    ensures Upper(s, key, At(key, x)) <= |s|
    ensures PlainInsert(s, key, x) == InsertAt(s, Upper(s, key, At(key, x)), x)
  {
    UpperBounds(s, key, At(key, x));
    if s != [] && At(key, s[0]) <= At(key, x) {
      PlainInsertAt(s[1..], key, x);
      var p := Upper(s[1..], key, At(key, x));
      assert [s[0]] + InsertAt(s[1..], p, x) == InsertAt(s, p + 1, x);
    }
  }

  lemma PlainInsertSorted(s: seq<int>, key: map<int, int>, x: int)
    requires Sorted(s, key)
    ensures Sorted(PlainInsert(s, key, x), key)
  {
    PlainInsertAt(s, key, x);
    UpperBounds(s, key, At(key, x));
    UpperBeyond(s, key, At(key, x));
  }

  lemma PlainInsertMembers(s: seq<int>, key: map<int, int>, x: int)
    ensures forall y :: y in PlainInsert(s, key, x) <==> y in s || y == x
  {
    PlainInsertAt(s, key, x);
    var p := Upper(s, key, At(key, x));
    var r := InsertAt(s, p, x);
    assert r[p] == x;
    forall y | y in s ensures y in r {
      var i :| 0 <= i < |s| && s[i] == y;
      assert y == if i < p then r[i] else r[i + 1];
    }
  }

  lemma PlainInsertDistinct(s: seq<int>, key: map<int, int>, x: int)
    requires Distinct(s) && x !in s
    ensures Distinct(PlainInsert(s, key, x))
  {
    PlainInsertAt(s, key, x);
  }

  /** Order and position depend on the keys of the listed nodes only. */
  lemma {:induction false} SameKeys(s: seq<int>, key: map<int, int>, key': map<int, int>, t: int)
    requires forall y :: y in s ==> At(key, y) == At(key', y)
    ensures Upper(s, key, t) == Upper(s, key', t)
    ensures Sorted(s, key) ==> Sorted(s, key')
  {
    if s != [] { SameKeys(s[1..], key, key', t); }
  }

  // ----- parts of a list -----

  /** A part of a list is split at the part's own place for key t. */
  lemma UpperOfPart(s: seq<int>, h: set<int>, key: map<int, int>, t: int)
    requires Sorted(s, key)
    ensures var p := Upper(s, key, t);
            && p <= |s| && Upper(Keep(s, h), key, t) == |Keep(s[..p], h)|
            && Keep(s, h) == Keep(s[..p], h) + Keep(s[p..], h)
  {
    hide Keep, Upper;
    var p := Upper(s, key, t);
    UpperBounds(s, key, t);
    UpperBeyond(s, key, t);
    assert s == s[..p] + s[p..];
    KeepConcat(s[..p], s[p..], h);
    var a, b := Keep(s[..p], h), Keep(s[p..], h);
    forall i | 0 <= i < |a| ensures At(key, (a + b)[i]) <= t { KeepFrom(s[..p], h, i); }
    if b != [] { KeepFrom(s[p..], h, 0); }
    UpperUnique(a + b, key, t, |a|);
  }

  /** Inserting into a list and into a part of it, each at its own place, leaves the
      part a part. */
  lemma InsertIntoPart(s: seq<int>, h: set<int>, key: map<int, int>, x: int)
    requires Sorted(s, key) && x !in s
    ensures Keep(PlainInsert(s, key, x), h + {x}) == PlainInsert(Keep(s, h), key, x)
  {
    hide Keep, Upper, PlainInsert, Sorted;
    var t, g := At(key, x), h + {x};
    var p := Upper(s, key, t);
    UpperOfPart(s, h, key, t);
    PlainInsertAt(s, key, x);
    PlainInsertAt(Keep(s, h), key, x);
    KeepSame(s[..p], g, h);
    KeepSame(s[p..], g, h);
    KeepSplit(s[..p], x, s[p..], g);
  }

  /** A part that does not take x is not changed by the insertion. */
  lemma InsertBesidePart(s: seq<int>, h: set<int>, key: map<int, int>, x: int)
    requires x !in h
    ensures Keep(PlainInsert(s, key, x), h) == Keep(s, h)
  {
    PlainInsertAt(s, key, x);
    var p := Upper(s, key, At(key, x));
    assert s == s[..p] + s[p..];
    KeepSplit(s[..p], x, s[p..], h);
    KeepConcat(s[..p], s[p..], h);
  }

  /** Removing from a list and from a part of it. */
  lemma RemoveFromPart(s: seq<int>, h: set<int>, x: int)
    ensures Without(Keep(s, h), x) == Keep(Without(s, x), h - {x})
  {
    KeepMembers(s, h);
    KeepKeep(s, h, Elems(Keep(s, h)) - {x});
    KeepKeep(s, Elems(s) - {x}, h - {x});
    KeepSame(s, h * (Elems(Keep(s, h)) - {x}), (Elems(s) - {x}) * (h - {x}));
  }
}
