/** The intrusive circular doubly linked lists of rtservice.h. A node is an address; the
    `next` and `prev` members of all nodes are two maps. `Ring(l, s)` says that the nodes of
    s, in that order, form one circular list. */
module RingList {

  datatype Links = Links(next: map<int, int>, prev: map<int, int>)

  ghost predicate Distinct(s: seq<int>) {
    forall i, j :: 0 <= i < j < |s| ==> s[i] != s[j]
  }

  ghost predicate Ring(l: Links, s: seq<int>) {
    && |s| > 0
    && Distinct(s)
    && forall i :: 0 <= i < |s| ==> Linked(l, s, i)
  }

  /** Node i of s has its neighbours in s as next and prev. */
  ghost predicate Linked(l: Links, s: seq<int>, i: nat)
    requires i < |s|
  {
    && s[i] in l.next && l.next[s[i]] == s[Fore(|s|, i)]
    && s[i] in l.prev && l.prev[s[i]] == s[Back(|s|, i)]
  }

  /** The index after, respectively before, index i in a ring of n nodes. */
  function Fore(n: nat, i: nat): (j: nat)
    requires i < n
    ensures j < n
  {
    if i + 1 == n then 0 else i + 1
  }

  function Back(n: nat, i: nat): (j: nat)
    requires i < n
    ensures j < n
  {
    if i == 0 then n - 1 else i - 1
  }

  /** rt_list_init. */
  function Init(l: Links, n: int): Links {
    Links(l.next[n := n], l.prev[n := n])
  }

  /** rt_list_insert_after: n behind `at`. */
  function InsertAfter(l: Links, at: int, n: int): Links
    requires at in l.next
  {
    var after := l.next[at];
    Links(l.next[n := after][at := n], l.prev[after := n][n := at])
  }

  /** rt_list_insert_before: n in front of `at`. */
  function InsertBefore(l: Links, at: int, n: int): Links
    requires at in l.prev
  {
    var before := l.prev[at];
    Links(l.next[before := n][n := at], l.prev[n := before][at := n])
  }

  /** The first half of rt_list_remove: the neighbours of n are linked to each other. */
  function Unlink(l: Links, n: int): Links
    requires n in l.next && n in l.prev
  {
    Links(l.next[l.prev[n] := l.next[n]], l.prev[l.next[n] := l.prev[n]])
  }

  /** rt_list_remove: n is taken out and linked to itself. */
  function Remove(l: Links, n: int): Links
    requires n in l.next && n in l.prev
  {
    Init(Unlink(l, n), n)
  }

  // ----- what the operations do to the ring -----

  lemma RingInit(l: Links, n: int)
    ensures Ring(Init(l, n), [n])
  {
  }

  function InsertAt(s: seq<int>, i: nat, n: int): seq<int>
    requires i <= |s|
  {
    s[..i] + [n] + s[i..]
  }

  function RemoveAt(s: seq<int>, i: nat): seq<int>
    requires i < |s|
  {
    s[..i] + s[i + 1..]
  }

  lemma DistinctInsert(s: seq<int>, i: nat, n: int)
    requires Distinct(s) && n !in s && i <= |s|
    ensures Distinct(InsertAt(s, i, n))
  {
  }

  lemma DistinctRemove(s: seq<int>, i: nat)
    requires Distinct(s) && i < |s|
    ensures Distinct(RemoveAt(s, i)) && s[i] !in RemoveAt(s, i)
    ensures forall x :: x in RemoveAt(s, i) <==> x in s && x != s[i]
  {
    var r := RemoveAt(s, i);
    forall x | x in s && x != s[i]
      ensures x in r
    {
      var k :| 0 <= k < |s| && s[k] == x;
      assert x == if k < i then r[k] else r[k - 1];
    }
  }

  /** Inserting behind node i of the ring. */
  lemma RingInsertAfter(l: Links, s: seq<int>, i: nat, n: int)
    requires Ring(l, s) && i < |s| && n !in s
    requires s[i] in l.next
    ensures Ring(InsertAfter(l, s[i], n), InsertAt(s, i + 1, n))
  {
    DistinctInsert(s, i + 1, n);
    var t, l' := InsertAt(s, i + 1, n), InsertAfter(l, s[i], n);
    assert Linked(l, s, i);
    forall k | 0 <= k < |t|
      ensures Linked(l', t, k)
    {
      if k != i + 1 {
        var j := if k <= i then k else k - 1;
        assert Linked(l, s, j) && t[k] == s[j] && s[j] != n;
        assert t[Fore(|t|, k)] == if k == i then n else s[Fore(|s|, j)];
        assert t[Back(|t|, k)] == if j == Fore(|s|, i) then n else s[Back(|s|, j)];
      }
    }
  }

  /** Inserting in front of node i; in front of the head means at the end of the list. */
  lemma RingInsertBefore(l: Links, s: seq<int>, i: nat, n: int)
    requires Ring(l, s) && i < |s| && n !in s
    requires s[i] in l.prev
    ensures Ring(InsertBefore(l, s[i], n), if i == 0 then s + [n] else InsertAt(s, i, n))
  {
    var b := Back(|s|, i);
    assert Linked(l, s, b) && Linked(l, s, i);
    RingInsertAfter(l, s, b, n);
    assert InsertAt(s, |s|, n) == s + [n];
    RingFrame(InsertAfter(l, s[b], n), InsertBefore(l, s[i], n), InsertAt(s, b + 1, n));
  }

  /** Unlinking a node other than the head. */
  lemma RingUnlink(l: Links, s: seq<int>, i: nat)
    requires Ring(l, s) && 0 < i < |s|
    requires s[i] in l.next && s[i] in l.prev
    ensures Ring(Unlink(l, s[i]), RemoveAt(s, i))
  {
    DistinctRemove(s, i);
    var t, l' := RemoveAt(s, i), Unlink(l, s[i]);
    assert Linked(l, s, i);
    forall k | 0 <= k < |t|
      ensures Linked(l', t, k)
    {
      var j := if k < i then k else k + 1;
      assert Linked(l, s, j);
      assert t[Fore(|t|, k)] == if j == i - 1 then s[Fore(|s|, i)] else s[Fore(|s|, j)];
      assert t[Back(|t|, k)] == if j == Fore(|s|, i) then s[i - 1] else s[Back(|s|, j)];
    }
  }

  lemma RingRemove(l: Links, s: seq<int>, i: nat)
    requires Ring(l, s) && 0 < i < |s|
    requires s[i] in l.next && s[i] in l.prev
    ensures Ring(Remove(l, s[i]), RemoveAt(s, i)) && Ring(Remove(l, s[i]), [s[i]])
  {
    RingUnlink(l, s, i);
    DistinctRemove(s, i);
    RingFrame(Unlink(l, s[i]), Remove(l, s[i]), RemoveAt(s, i));
  }

  /** A ring depends on the links of its own nodes only. */
  lemma RingFrame(l: Links, l': Links, s: seq<int>)
    requires Ring(l, s)
    requires forall i :: 0 <= i < |s| ==> SameLinks(l, l', s[i])
    ensures Ring(l', s)
  {
    forall i | 0 <= i < |s|
      ensures Linked(l', s, i)
    {
      assert Linked(l, s, i) && SameLinks(l, l', s[i]);
    }
  }

  ghost predicate SameLinks(l: Links, l': Links, x: int) {
    && (x in l.next ==> x in l'.next && l'.next[x] == l.next[x])
    && (x in l.prev ==> x in l'.prev && l'.prev[x] == l.prev[x])
  }

  /** Operations on one ring leave the rings that share no node with it alone. */
  lemma OtherRing(l: Links, s: seq<int>, other: seq<int>, i: nat, n: int)
    requires Ring(l, s) && Ring(l, other) && i < |s|
    requires s[i] in l.next && s[i] in l.prev
    requires forall k :: 0 <= k < |other| ==> other[k] !in s && other[k] != n
    ensures Ring(InsertAfter(l, s[i], n), other)
    ensures Ring(InsertBefore(l, s[i], n), other)
    ensures Ring(Remove(l, s[i]), other)
  {
    assert Linked(l, s, i);
    RingFrame(l, InsertAfter(l, s[i], n), other);
    RingFrame(l, InsertBefore(l, s[i], n), other);
    RingFrame(l, Remove(l, s[i]), other);
  }

  /** Removing what was inserted restores the ring. */
  lemma RemoveUndoesInsert(l: Links, s: seq<int>, i: nat, n: int)
    requires Ring(l, s) && i < |s| && n !in s
    requires s[i] in l.next
    ensures n in InsertAfter(l, s[i], n).next && n in InsertAfter(l, s[i], n).prev
    ensures Ring(Remove(InsertAfter(l, s[i], n), n), s)
  {
    RingInsertAfter(l, s, i, n);
    var t := InsertAt(s, i + 1, n);
    assert t[i + 1] == n && RemoveAt(t, i + 1) == s;
    RingRemove(InsertAfter(l, s[i], n), t, i + 1);
  }

  /** The list operations on the links in place. */
  class ListMemory {
    var next: map<int, int>
    var prev: map<int, int>

    ghost function View(): Links
      reads this
    {
      Links(next, prev)
    }

    method ListInit(n: int)
      modifies this
      ensures View() == Init(old(View()), n) && Ring(View(), [n])
    {
      RingInit(View(), n);
      next := next[n := n];
      prev := prev[n := n];
    }

    method ListInsertAfter(l: int, n: int)
      requires l in next
      modifies this
      ensures View() == InsertAfter(old(View()), l, n)
    {
      prev := prev[next[l] := n];
      next := next[n := next[l]];
      next := next[l := n];
      prev := prev[n := l];
    }

    method ListInsertBefore(l: int, n: int)
      requires l in prev
      modifies this
      ensures View() == InsertBefore(old(View()), l, n)
    {
      next := next[prev[l] := n];
      prev := prev[n := prev[l]];
      prev := prev[l := n];
      next := next[n := l];
    }

    method ListRemove(n: int)
      requires n in next && n in prev
      modifies this
      ensures View() == Remove(old(View()), n)
    {
      prev := prev[next[n] := prev[n]];
      next := next[prev[n] := next[n]];
      next := next[n := n];
      prev := prev[n := n];
    }

    /** rt_list_isempty. */
    method ListIsEmpty(ghost s: seq<int>, l: int) returns (empty: bool)
      requires Ring(View(), s) && s[0] == l
      ensures empty <==> |s| == 1
    {
      assert Linked(View(), s, 0);
      empty := next[l] == l;
    }

    /** rt_list_len: the number of nodes besides the head. */
    method ListLen(ghost s: seq<int>, l: int) returns (len: nat)
      requires Ring(View(), s) && s[0] == l
      ensures len == |s| - 1
    {
      len := 0;
      var p := l;
      assert Linked(View(), s, 0);
      while next[p] != l
        invariant len < |s| && p == s[len] && Linked(View(), s, len)
        decreases |s| - len
      {
        p := next[p];
        len := len + 1;
        assert Linked(View(), s, len);
      }
    }
  }
}
