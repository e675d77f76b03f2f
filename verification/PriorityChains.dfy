/** Owners and waiters without the restriction to one mutex per thread: when exactly the owners
    of all mutexes stay at least as urgent as their waiters, with either order of the wait lists. */
module PriorityChains {
  import opened RingList
  import opened SortedList
  import opened WaitList
  import opened Mutex

  ghost predicate UrgentAt(s: State, m: int)
    requires m in s.mutexes
  {
    forall w :: w in s.mutexes[m].waiting ==> At(s.prio, s.mutexes[m].owner) <= At(s.prio, w)
  }

  /** No thread waits for a mutex of a less urgent thread. */
  ghost predicate Urgent(s: State) {
    forall m :: m in s.mutexes ==> UrgentAt(s, m)
  }

  // ----- the conditions, as a caller could check them -----

  /** The owner that a blocking take makes more urgent waits for nothing itself, or for a thread
      that is urgent enough already. */
  ghost predicate TakePasses(s: State, t: int, m: int, time: int)
    requires m in s.mutexes
  {
    var o := s.mutexes[m].owner;
    Blocks(s.mutexes[m], t, time) && o in s.waits && s.waits[o] in s.mutexes
    ==> At(s.prio, s.mutexes[s.waits[o]].owner) <= At(s.prio, t)
  }

  /** The first waiter is the most urgent one, and the recorded priority is urgent enough for
      the waiters of the other mutexes that the thread keeps. */
  ghost predicate ReleasePasses(s: State, t: int, m: int)
    requires m in s.mutexes
  {
    var x := s.mutexes[m];
    LastRelease(x, t) ==>
      && (forall w :: w in x.waiting ==> At(s.prio, x.waiting[0]) <= At(s.prio, w))
      && (forall n :: n in s.mutexes && n != m && s.mutexes[n].owner == t ==>
            Covers(x.original, s.mutexes[n].waiting, s.prio))
  }

  ghost predicate Covers(p: int, list: seq<int>, prio: map<int, int>) {
    forall w :: w in list ==> p <= At(prio, w)
  }

  ghost predicate Passes(s: State, a: Action)
    requires Enabled(s, a)
  {
    match a
    case Take(t, m, time) => TakePasses(s, t, m, time)
    case Release(t, m) => ReleasePasses(s, t, m)
    case _ => true
  }

  // ----- one step -----

  lemma Facts(s: State, m: int)
    requires Inv(s) && m in s.mutexes
    ensures var x := s.mutexes[m];
            && (x.value == 1 <==> x.owner == NONE) && x.value <= 1 && x.owner !in x.waiting
            && (x.owner == NONE ==> x.waiting == []) && Distinct(x.waiting)
    ensures forall w :: w in s.mutexes[m].waiting <==> w in s.waits && s.waits[w] == m
  {
    assert Safe(s.mutexes[m]);
    forall w ensures w in s.mutexes[m].waiting <==> w in s.waits && s.waits[w] == m {
      assert Listed(s, m, w);
    }
  }

  /** A take that blocks leaves the owner of every mutex urgent enough, except for the mutex for
      which the owner that was raised waits itself. */
  lemma BlockUrgentAt(s: State, t: int, m: int, time: int, order: Order, n: int)
    requires Inv(s) && Urgent(s) && Enabled(s, Take(t, m, time)) && Blocks(s.mutexes[m], t, time) && n in s.mutexes
    ensures n in TakeStep(s, t, m, time, order).mutexes
    ensures var o := s.mutexes[m].owner;
            UrgentAt(TakeStep(s, t, m, time, order), n)
            <==> (o in s.waits && s.waits[o] == n ==> At(s.prio, s.mutexes[n].owner) <= At(s.prio, t))
  {
    hide Inv, Enqueue;
    var s', x, y := TakeStep(s, t, m, time, order), s.mutexes[m], s.mutexes[n];
    Facts(s, m);
    Facts(s, n);
    assert UrgentAt(s, m) && UrgentAt(s, n);
    EnqueueMembers(x.waiting, Boost(s.prio, x.owner, t), t, order);
    if n == m {
      assert s'.mutexes[n].owner == x.owner;
    } else if x.owner in y.waiting {
      assert s'.mutexes[n] == y && y.owner != x.owner;
      assert At(s'.prio, y.owner) == At(s.prio, y.owner);
    } else {
      assert s'.mutexes[n] == y;
    }
  }

  lemma TakeUrgent(s: State, t: int, m: int, time: int, order: Order)
    requires Inv(s) && Urgent(s) && Enabled(s, Take(t, m, time))
    ensures Urgent(TakeStep(s, t, m, time, order)) <==> TakePasses(s, t, m, time)
  {
    var s', x := TakeStep(s, t, m, time, order), s.mutexes[m];
    assert s'.mutexes.Keys == s.mutexes.Keys;
    Facts(s, m);
    if Blocks(x, t, time) {
      hide UrgentAt, TakeNext, TakePrio, Inv;
      forall n | n in s.mutexes
        ensures UrgentAt(s', n)
           <==> (x.owner in s.waits && s.waits[x.owner] == n ==> At(s.prio, s.mutexes[n].owner) <= At(s.prio, t))
      {
        BlockUrgentAt(s, t, m, time, order, n);
      }
    } else {
      forall n | n in s'.mutexes ensures UrgentAt(s', n) {
        assert UrgentAt(s, n);
      }
    }
  }

  lemma ReleaseUrgentAt(s: State, t: int, m: int, n: int)
    requires Inv(s) && Urgent(s) && Enabled(s, Release(t, m)) && LastRelease(s.mutexes[m], t) && n in s.mutexes
    ensures n in ReleaseStep(s, t, m).mutexes
    ensures var x := s.mutexes[m];
            UrgentAt(ReleaseStep(s, t, m), n)
            <==> if n == m then forall w :: w in x.waiting ==> At(s.prio, x.waiting[0]) <= At(s.prio, w)
                 else s.mutexes[n].owner == t ==> Covers(x.original, s.mutexes[n].waiting, s.prio)
  {
    hide Inv;
    var s', x, y := ReleaseStep(s, t, m), s.mutexes[m], s.mutexes[n];
    Facts(s, m);
    Facts(s, n);
    assert UrgentAt(s, n);
    assert t !in y.waiting;
    if n == m {
      if x.waiting != [] {
        HeadTail(x.waiting);
        var w := x.waiting[0];
        assert w in x.waiting;
      }
    } else {
      assert s'.mutexes[n] == y;
    }
  }

  lemma ReleaseUrgent(s: State, t: int, m: int)
    requires Inv(s) && Urgent(s) && Enabled(s, Release(t, m))
    ensures Urgent(ReleaseStep(s, t, m)) <==> ReleasePasses(s, t, m)
  {
    var s', x := ReleaseStep(s, t, m), s.mutexes[m];
    assert s'.mutexes.Keys == s.mutexes.Keys;
    if LastRelease(x, t) {
      hide UrgentAt, ReleaseNext, ReleasePrio, Covers, Inv;
      forall n | n in s.mutexes
        ensures UrgentAt(s', n)
           <==> if n == m then forall w :: w in x.waiting ==> At(s.prio, x.waiting[0]) <= At(s.prio, w)
                else s.mutexes[n].owner == t ==> Covers(x.original, s.mutexes[n].waiting, s.prio)
      {
        ReleaseUrgentAt(s, t, m, n);
      }
      assert UrgentAt(s', m) <==> forall w :: w in x.waiting ==> At(s.prio, x.waiting[0]) <= At(s.prio, w);
    } else {
      forall n | n in s'.mutexes ensures UrgentAt(s', n) {
        assert UrgentAt(s, n);
      }
    }
  }

  /** One step keeps every owner at least as urgent as its waiters exactly if its condition
      held before. */
  lemma NextUrgent(s: State, a: Action, order: Order)
    requires Inv(s) && Urgent(s) && Enabled(s, a)
    ensures Urgent(Next(s, a, order)) <==> Passes(s, a)
  {
    match a
    case Take(t, m, time) => TakeUrgent(s, t, m, time, order);
    case Release(t, m) => ReleaseUrgent(s, t, m);
    case Timeout(t) =>
      var s' := Next(s, a, order);
      forall n | n in s'.mutexes ensures UrgentAt(s', n) {
        assert UrgentAt(s, n);
        WithoutMembers(s.mutexes[n].waiting, t);
      }
    case Return(_) =>
      var s' := Next(s, a, order);
      forall n | n in s'.mutexes ensures UrgentAt(s', n) {
        assert UrgentAt(s, n);
      }
  }

  // ----- runs -----

  /** Every state of the run is urgent. */
  ghost predicate Throughout(s: State, run: seq<Action>, order: Order)
    requires Legal(s, run, order)
    decreases |run|
  {
    Urgent(s) && (run != [] ==> Throughout(Next(s, run[0], order), run[1..], order))
  }

  /** Every step meets its condition in the state in which it is taken. */
  ghost predicate AllPass(s: State, run: seq<Action>, order: Order)
    requires Legal(s, run, order)
    decreases |run|
  {
    run != [] ==> Passes(s, run[0]) && AllPass(Next(s, run[0], order), run[1..], order)
  }

  /** In a run with any nesting and any chains, no thread ever waits for a less urgent owner if
      and only if every step meets its condition. */
  lemma {:induction false} UrgentExactly(s: State, run: seq<Action>, order: Order)
    requires Inv(s) && Urgent(s) && Legal(s, run, order)
    ensures Throughout(s, run, order) <==> AllPass(s, run, order)
    decreases |run|
  {
    hide Inv, Urgent, Next, Passes;
    if run != [] {
      var s' := Next(s, run[0], order);
      NextKeeps(s, run[0], order);
      NextUrgent(s, run[0], order);
      if Passes(s, run[0]) {
        UrgentExactly(s', run[1..], order);
      } else {
        NotThroughout(s', run[1..], order);
      }
    }
  }

  lemma NotThroughout(s: State, run: seq<Action>, order: Order)
    requires Legal(s, run, order) && !Urgent(s)
    ensures !Throughout(s, run, order)
  {
  }

  /** Nobody waits at the start. */
  lemma StartUrgent(ids: set<int>, prio: map<int, int>)
    ensures Urgent(Start(ids, prio))
  {
    forall m | m in Start(ids, prio).mutexes ensures UrgentAt(Start(ids, prio), m) {
    }
  }
}
