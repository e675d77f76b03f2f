/** The page allocator under the slab heap (slab.c): free spans of pages in address order. */
module SlabPages {

  /** n free pages from page `start` on. */
  datatype Span = Span(start: int, n: nat)

  function End(s: Span): int {
    s.start + s.n
  }

  /** Spans lie in the heap, are not empty, ascend, and never touch. */
  ghost predicate SpansOk(l: seq<Span>, total: int) {
    && (forall i :: 0 <= i < |l| ==> l[i].n > 0 && 0 <= l[i].start && End(l[i]) <= total)
    && (forall i, j :: 0 <= i < j < |l| ==> End(l[i]) < l[j].start)
  }

  ghost predicate Has(l: seq<Span>, p: int) {
    exists i :: 0 <= i < |l| && l[i].start <= p < End(l[i])
  }

  predicate In(p: int, start: int, n: nat) {
    start <= p < start + n
  }

  // ----- specification -----

  /** The first span with at least n pages. */
  function Fit(l: seq<Span>, n: nat): (i: nat)
    ensures i <= |l|
    ensures i < |l| ==> l[i].n >= n
    ensures forall j :: 0 <= j < i ==> l[j].n < n
  {
    if l == [] || l[0].n >= n then 0 else 1 + Fit(l[1..], n)
  }

  /** rt_page_alloc takes the pages from the front of that span. */
  function AllocSpans(l: seq<Span>, i: nat, n: nat): seq<Span>
    requires i < |l| && n <= l[i].n
  {
    if l[i].n > n then l[i := Span(l[i].start + n, l[i].n - n)] else l[..i] + l[i + 1..]
  }

  /** rt_page_free: the pages join the span before, the span behind, both or none. */
  function FreeSpans(l: seq<Span>, a: int, n: nat): seq<Span> {
    if l == [] then [Span(a, n)]
    else if End(l[0]) == a then
      if |l| > 1 && a + n == l[1].start then [Span(l[0].start, l[0].n + n + l[1].n)] + l[2..]
      else [Span(l[0].start, l[0].n + n)] + l[1..]
    else if l[0].start == a + n then [Span(a, l[0].n + n)] + l[1..]
    else if l[0].start > a + n then [Span(a, n)] + l
    else [l[0]] + FreeSpans(l[1..], a, n)
  }

  // ----- the free pages -----

  lemma HasCons(s: Span, l: seq<Span>, p: int)
    ensures Has([s] + l, p) <==> s.start <= p < End(s) || Has(l, p)
  {
    var r := [s] + l;
    if Has(l, p) {
      var i :| 0 <= i < |l| && l[i].start <= p < End(l[i]);
      assert r[i + 1] == l[i];
    }
    if Has(r, p) {
      var i :| 0 <= i < |r| && r[i].start <= p < End(r[i]);
      if i > 0 { assert l[i - 1] == r[i]; }
    }
    assert r[0] == s;
  }

  lemma HasSplit(l: seq<Span>, p: int)
    requires l != []
    ensures Has(l, p) <==> l[0].start <= p < End(l[0]) || Has(l[1..], p)
  {
    assert l == [l[0]] + l[1..];
    HasCons(l[0], l[1..], p);
  }

  lemma SpansTail(l: seq<Span>, total: int)
    requires SpansOk(l, total) && l != []
    ensures SpansOk(l[1..], total)
    ensures forall p :: Has(l[1..], p) ==> End(l[0]) < p
  {
    forall p | Has(l[1..], p) ensures End(l[0]) < p {
      var i :| 0 <= i < |l[1..]| && l[1..][i].start <= p < End(l[1..][i]);
      assert l[1..][i] == l[i + 1];
    }
  }

  lemma SpansCons(s: Span, l: seq<Span>, total: int)
    requires SpansOk(l, total) && s.n > 0 && 0 <= s.start && End(s) <= total && (l != [] ==> End(s) < l[0].start)
    ensures SpansOk([s] + l, total)
  {
    var r := [s] + l;
    forall i, j | 0 <= i < j < |r| ensures End(r[i]) < r[j].start {
      if i == 0 && j > 1 { assert End(l[0]) < l[j - 1].start; }
    }
  }

  /** Freeing keeps the list in order and maximally merged, and adds exactly the pages. */
  lemma {:induction false} FreeFacts(l: seq<Span>, total: int, a: int, n: nat)
    requires SpansOk(l, total) && n > 0 && 0 <= a && a + n <= total
    requires forall p :: In(p, a, n) ==> !Has(l, p)
    ensures SpansOk(FreeSpans(l, a, n), total)
    ensures forall p :: Has(FreeSpans(l, a, n), p) <==> Has(l, p) || In(p, a, n)
    ensures l != [] && l[0].start < a ==> FreeSpans(l, a, n)[0].start == l[0].start
  {
    var r := FreeSpans(l, a, n);
    if l == [] {
      assert r == [Span(a, n)] + [];
      forall p ensures Has(r, p) <==> Has(l, p) || In(p, a, n) { HasCons(Span(a, n), [], p); }
    } else {
      SpansTail(l, total);
      Separate(l, a, n);
      forall p ensures Has(l, p) <==> l[0].start <= p < End(l[0]) || Has(l[1..], p) { HasSplit(l, p); }
      if End(l[0]) == a && |l| > 1 && a + n == l[1].start {
        var s := Span(l[0].start, l[0].n + n + l[1].n);
        SpansTail(l[1..], total);
        assert l[1..][1..] == l[2..];
        SpansCons(s, l[2..], total);
        forall p ensures Has(r, p) <==> Has(l, p) || In(p, a, n) {
          HasCons(s, l[2..], p);
          HasSplit(l[1..], p);
        }
      } else if End(l[0]) == a {
        FreeBehind(l, total, a, n);
      } else if l[0].start == a + n {
        var s := Span(a, l[0].n + n);
        SpansCons(s, l[1..], total);
        forall p ensures Has(r, p) <==> Has(l, p) || In(p, a, n) { HasCons(s, l[1..], p); }
      } else if l[0].start > a + n {
        SpansCons(Span(a, n), l, total);
        forall p ensures Has(r, p) <==> Has(l, p) || In(p, a, n) { HasCons(Span(a, n), l, p); }
      } else {
        forall p | In(p, a, n) ensures !Has(l[1..], p) { }
        FreeFacts(l[1..], total, a, n);
        var t := FreeSpans(l[1..], a, n);
        FreeFirst(l[1..], a, n);
        SpansCons(l[0], t, total);
        forall p ensures Has(r, p) <==> Has(l, p) || In(p, a, n) { HasCons(l[0], t, p); }
      }
    }
  }

  /** Free pages and pages to be freed do not overlap. */
  lemma Separate(l: seq<Span>, a: int, n: nat)
    requires l != [] && n > 0 && forall p :: In(p, a, n) ==> !Has(l, p)
    requires l[0].n > 0
    ensures End(l[0]) <= a || a + n <= l[0].start
    ensures |l| > 1 && l[1].n > 0 ==> End(l[1]) <= a || a + n <= l[1].start
  {
    Overlap(l[0], a, n);
    if |l| > 1 { Overlap(l[1], a, n); }
  }

  /** Two ranges that are not apart have a page in common. */
  lemma Overlap(s: Span, a: int, n: nat)
    requires n > 0
    ensures s.n > 0 && !(End(s) <= a || a + n <= s.start) ==> exists p :: In(p, a, n) && s.start <= p < End(s)
  {
    if s.n > 0 && !(End(s) <= a || a + n <= s.start) {
      var p := if s.start < a then a else s.start;
      assert In(p, a, n) && s.start <= p < End(s);
    }
  }

  lemma FreeBehind(l: seq<Span>, total: int, a: int, n: nat)
    requires SpansOk(l, total) && n > 0 && 0 <= a && a + n <= total && l != [] && End(l[0]) == a
    requires !(|l| > 1 && a + n == l[1].start)
    requires forall p :: In(p, a, n) ==> !Has(l, p)
    ensures SpansOk(FreeSpans(l, a, n), total)
    ensures forall p :: Has(FreeSpans(l, a, n), p) <==> Has(l, p) || In(p, a, n)
  {
    var s := Span(l[0].start, l[0].n + n);
    SpansTail(l, total);
    Separate(l, a, n);
    SpansCons(s, l[1..], total);
    forall p ensures Has([s] + l[1..], p) <==> Has(l, p) || In(p, a, n) {
      HasCons(s, l[1..], p);
      HasSplit(l, p);
    }
  }

  /** The first span of the result starts at the old first span or at the freed pages. */
  lemma FreeFirst(l: seq<Span>, a: int, n: nat)
    ensures FreeSpans(l, a, n) != []
    ensures FreeSpans(l, a, n)[0].start == a || (l != [] && FreeSpans(l, a, n)[0].start == l[0].start)
  {
  }

  /** Allocating keeps the list in order and maximally merged, and takes exactly the pages. */
  lemma AllocFacts(l: seq<Span>, total: int, i: nat, n: nat)
    requires SpansOk(l, total) && i < |l| && 0 < n <= l[i].n
    ensures SpansOk(AllocSpans(l, i, n), total)
    ensures forall p :: Has(AllocSpans(l, i, n), p) <==> Has(l, p) && !In(p, l[i].start, n)
    ensures forall p :: In(p, l[i].start, n) ==> Has(l, p)
  {
    var r := AllocSpans(l, i, n);
    forall p ensures Has(r, p) <==> Has(l, p) && !In(p, l[i].start, n) {
      AllocTakes(l, total, i, n, p);
      AllocLeaves(l, total, i, n, p);
    }
  }

  lemma AllocTakes(l: seq<Span>, total: int, i: nat, n: nat, p: int)
    requires SpansOk(l, total) && i < |l| && 0 < n <= l[i].n
    ensures Has(AllocSpans(l, i, n), p) ==> Has(l, p) && !In(p, l[i].start, n)
  {
    var r := AllocSpans(l, i, n);
    if Has(r, p) {
      var j :| 0 <= j < |r| && r[j].start <= p < End(r[j]);
      var k := if l[i].n > n || j < i then j else j + 1;
      assert l[k].start <= p < End(l[k]);
      if k < i { assert End(l[k]) < l[i].start; }
    }
  }

  lemma AllocLeaves(l: seq<Span>, total: int, i: nat, n: nat, p: int)
    requires SpansOk(l, total) && i < |l| && 0 < n <= l[i].n
    ensures Has(l, p) && !In(p, l[i].start, n) ==> Has(AllocSpans(l, i, n), p)
  {
    var r := AllocSpans(l, i, n);
    if Has(l, p) && !In(p, l[i].start, n) {
      var k :| 0 <= k < |l| && l[k].start <= p < End(l[k]);
      var j := if l[i].n > n || k < i then k else k - 1;
      assert r[j].start <= p < End(r[j]);
    }
  }

  // ----- the list is determined by the pages -----

  /** Two lists with the same free pages are the same: the merged form is canonical. */
  lemma {:induction false} Canonical(l: seq<Span>, m: seq<Span>, total: int)
    requires SpansOk(l, total) && SpansOk(m, total) && forall p :: Has(l, p) <==> Has(m, p)
    ensures l == m
    decreases |l|
  {
    if l == [] {
      if m != [] {
        NotEmpty(m, total);
        assert false;
      }
    } else {
      SameFirst(l, m, total);
      SpansTail(l, total);
      SpansTail(m, total);
      forall p ensures Has(l[1..], p) <==> Has(m[1..], p) {
        HasSplit(l, p);
        HasSplit(m, p);
      }
      Canonical(l[1..], m[1..], total);
      assert l == [l[0]] + l[1..] && m == [m[0]] + m[1..];
    }
  }

  lemma NotEmpty(l: seq<Span>, total: int)
    requires SpansOk(l, total) && l != []
    ensures Has(l, l[0].start)
  {
    assert l[0].start <= l[0].start < End(l[0]);
  }

  lemma SameFirst(l: seq<Span>, m: seq<Span>, total: int)
    requires SpansOk(l, total) && SpansOk(m, total) && (forall p :: Has(l, p) <==> Has(m, p)) && l != []
    ensures m != [] && l[0] == m[0]
  {
    NotEmpty(l, total);
    FirstPage(m, total, l[0].start);
    NotEmpty(m, total);
    FirstPage(l, total, m[0].start);
    AfterFirst(l, total);
    AfterFirst(m, total);
    FirstSpan(l, End(m[0]));
    FirstSpan(m, End(l[0]));
  }

  lemma FirstSpan(l: seq<Span>, p: int)
    ensures l != [] && l[0].start <= p < End(l[0]) ==> Has(l, p)
  {
  }

  lemma FirstPage(l: seq<Span>, total: int, p: int)
    requires SpansOk(l, total) && Has(l, p)
    ensures l != [] && l[0].start <= p
  {
    var i :| 0 <= i < |l| && l[i].start <= p < End(l[i]);
    if i > 0 { assert End(l[0]) < l[i].start; }
  }

  lemma AfterFirst(l: seq<Span>, total: int)
    requires SpansOk(l, total) && l != []
    ensures !Has(l, End(l[0]))
  {
  }

  /** Freeing what was allocated restores the list. */
  lemma FreeUndoesAlloc(l: seq<Span>, total: int, i: nat, n: nat)
    requires SpansOk(l, total) && i < |l| && 0 < n <= l[i].n
    ensures FreeSpans(AllocSpans(l, i, n), l[i].start, n) == l
  {
    AllocFacts(l, total, i, n);
    var m := AllocSpans(l, i, n);
    FreeFacts(m, total, l[i].start, n);
    Canonical(FreeSpans(m, l[i].start, n), l, total);
  }

  // ----- the allocator -----

  /** No page, for RT_NULL. */
  const NO_PAGE := -1

  class PageHeap {
    const total: nat
    var list: seq<Span>

    ghost predicate Valid()
      reads this
    {
      SpansOk(list, total)
    }

    /** rt_page_init. */
    constructor (total: nat)
      requires total > 0
      ensures Valid() && list == [Span(0, total)] && this.total == total
    {
      this.total := total;
      list := [Span(0, total)];
    }

    /** rt_page_alloc: the lowest span that is large enough, if there is one. */
    method Alloc(n: nat) returns (b: int)
      requires Valid()
      modifies this
      ensures Valid()
      ensures b == NO_PAGE <==> n == 0 || forall i :: 0 <= i < |old(list)| ==> old(list)[i].n < n
      ensures b == NO_PAGE ==> list == old(list)
      ensures b != NO_PAGE ==>
                var i := Fit(old(list), n);
                i < |old(list)| && b == old(list)[i].start && list == AllocSpans(old(list), i, n)
      ensures b != NO_PAGE ==> 0 <= b && b + n <= total
      ensures b != NO_PAGE ==> forall p :: In(p, b, n) ==> Has(old(list), p)
      ensures forall p :: Has(list, p) <==> Has(old(list), p) && !(b != NO_PAGE && In(p, b, n))
    {
      if n == 0 {
        return NO_PAGE;
      }
      var i := 0;
      while i < |list|
        invariant 0 <= i <= |list| && forall j :: 0 <= j < i ==> list[j].n < n
        invariant list == old(list)
      {
        if list[i].n >= n {
          FitIs(list, n, i);
          AllocFacts(list, total, i, n);
          b := list[i].start;
          if list[i].n > n {
            list := list[i := Span(b + n, list[i].n - n)];
          } else {
            list := list[..i] + list[i + 1..];
          }
          return;
        }
        i := i + 1;
      }
      return NO_PAGE;
    }

    /** rt_page_free. */
    method Free(a: int, n: nat)
      requires Valid() && n > 0 && 0 <= a && a + n <= total && forall p :: In(p, a, n) ==> !Has(list, p)
      modifies this
      ensures Valid() && list == FreeSpans(old(list), a, n)
      ensures forall p :: Has(list, p) <==> Has(old(list), p) || In(p, a, n)
    {
      hide SpansOk, Has, FreeSpans;
      FreeFacts(list, total, a, n);
      var i := 0;
      assert list[..0] + FreeSpans(list[0..], a, n) == FreeSpans(list, a, n) by { assert list[0..] == list; }
      while i < |list|
        invariant 0 <= i <= |list| && list == old(list)
        invariant list[..i] + FreeSpans(list[i..], a, n) == FreeSpans(old(list), a, n)
      {
        var b := list[i];
        FreeAt(list, i, a, n);
        if End(b) == a {
          if i + 1 < |list| && a + n == list[i + 1].start {
            list := list[..i] + [Span(b.start, b.n + n + list[i + 1].n)] + list[i + 2..];
          } else {
            list := list[..i] + [Span(b.start, b.n + n)] + list[i + 1..];
          }
          return;
        }
        if b.start == a + n {
          list := list[..i] + [Span(a, b.n + n)] + list[i + 1..];
          return;
        }
        if b.start > a + n {
          break;
        }
        i := i + 1;
      }
      FreeAtEnd(list, i, a, n);
      list := list[..i] + [Span(a, n)] + list[i..];
    }
  }

  /** What the search finds at span i. */
  lemma FreeAt(l: seq<Span>, i: nat, a: int, n: nat)
    requires i < |l|
    ensures l[..i] + FreeSpans(l[i..], a, n) ==
            if End(l[i]) == a then
              if i + 1 < |l| && a + n == l[i + 1].start then
                l[..i] + [Span(l[i].start, l[i].n + n + l[i + 1].n)] + l[i + 2..]
              else l[..i] + [Span(l[i].start, l[i].n + n)] + l[i + 1..]
            else if l[i].start == a + n then l[..i] + [Span(a, l[i].n + n)] + l[i + 1..]
            else if l[i].start > a + n then l[..i] + [Span(a, n)] + l[i..]
            else l[..i + 1] + FreeSpans(l[i + 1..], a, n)
  {
    var r := l[i..];
    assert r[0] == l[i] && r[1..] == l[i + 1..];
    if i + 1 < |l| { assert r[1] == l[i + 1] && r[2..] == l[i + 2..]; }
    var t := FreeSpans(l[i + 1..], a, n);
    assert l[..i] + ([l[i]] + t) == l[..i + 1] + t;
    hide FreeSpans;
    Glue(l[..i], Span(l[i].start, l[i].n + n), l[i + 1..]);
    Glue(l[..i], Span(a, l[i].n + n), l[i + 1..]);
    Glue(l[..i], Span(a, n), l[i..]);
    if i + 1 < |l| { Glue(l[..i], Span(l[i].start, l[i].n + n + l[i + 1].n), l[i + 2..]); }
  }

  lemma Glue(l: seq<Span>, s: Span, r: seq<Span>)
    ensures l + ([s] + r) == l + [s] + r
  {
  }

  lemma FreeAtEnd(l: seq<Span>, i: nat, a: int, n: nat)
    requires i <= |l| && (i < |l| ==> End(l[i]) != a && l[i].start > a + n)
    ensures l[..i] + FreeSpans(l[i..], a, n) == l[..i] + [Span(a, n)] + l[i..]
  {
    if i < |l| { FreeAt(l, i, a, n); } else { assert l[i..] == []; }
  }

  lemma FitIs(l: seq<Span>, n: nat, i: nat)
    requires i < |l| && l[i].n >= n && forall j :: 0 <= j < i ==> l[j].n < n
    ensures Fit(l, n) == i
  {
  }
}
