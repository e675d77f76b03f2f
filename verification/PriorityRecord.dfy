/** The priority that a mutex records for its owner, in runs with any nesting of mutexes and
    either order of the wait lists. */
module PriorityRecord {
  import opened SortedList
  import opened WaitList
  import opened Mutex

  /** `base` is the priority of each thread at the start. `taken` is the priority that the owner
      of a mutex had when it became the owner, `last` the one it had when it took the mutex that
      it gave up last, and `first` the mutex that a thread got while it had none. */
  datatype Record = Record(s: State, base: map<int, int>, taken: map<int, int>, last: map<int, int>,
                           first: map<int, int>)

  ghost predicate Owns(s: State, t: int) {
    exists m :: m in s.mutexes && s.mutexes[m].owner == t
  }

  lemma OwnsIt(s: State, m: int)
    requires m in s.mutexes
    ensures Owns(s, s.mutexes[m].owner)
  {
  }

  /** A step changes the owner of mutex m at most. */
  lemma OwnsOther(s: State, s': State, m: int, u: int)
    requires m in s.mutexes && s'.mutexes.Keys == s.mutexes.Keys
    requires forall n :: n in s.mutexes && n != m ==> s'.mutexes[n].owner == s.mutexes[n].owner
    requires s.mutexes[m].owner == u ==> s'.mutexes[m].owner == u
    ensures Owns(s', u) <==> Owns(s, u) || s'.mutexes[m].owner == u
  {
    if Owns(s, u) {
      var n :| n in s.mutexes && s.mutexes[n].owner == u;
      assert n in s'.mutexes && s'.mutexes[n].owner == u;
    }
    if Owns(s', u) {
      var n :| n in s'.mutexes && s'.mutexes[n].owner == u;
      assert n == m || (n in s.mutexes && s.mutexes[n].owner == u);
    }
  }

  /** Mutex m goes from one owner to another in the step to s'. */
  ghost function PassOn(r: Record, s': State, m: int): Record
    requires m in r.s.mutexes && m in s'.mutexes
  {
    var o, u := r.s.mutexes[m].owner, s'.mutexes[m].owner;
    if o == u then r.(s := s')
    else
      Record(s', r.base,
             if u == NONE then r.taken else r.taken[m := At(s'.prio, u)],
             if o == NONE then r.last else r.last[o := At(r.taken, m)],
             if u == NONE || Owns(r.s, u) then r.first else r.first[u := m])
  }

  ghost function RecordNext(r: Record, a: Action, order: Order): Record
    requires Enabled(r.s, a)
  {
    var s' := Next(r.s, a, order);
    match a
    case Take(_, m, _) => PassOn(r, s', m)
    case Release(_, m) => PassOn(r, s', m)
    case _ => r.(s := s')
  }

  // ----- what a step changes -----

  lemma TakeFacts(s: State, t: int, m: int, time: int, order: Order)
    requires Inv(s) && Enabled(s, Take(t, m, time))
    ensures var s', x := TakeStep(s, t, m, time, order), s.mutexes[m];
            && s'.mutexes.Keys == s.mutexes.Keys
            && (forall n :: n in s.mutexes && n != m ==> s'.mutexes[n] == s.mutexes[n])
            && (forall u :: u != x.owner ==> At(s'.prio, u) == At(s.prio, u))
            && (if x.owner == NONE then s'.mutexes[m].owner == t && s'.mutexes[m].original == At(s.prio, t)
                else s'.mutexes[m].owner == x.owner && s'.mutexes[m].original == x.original)
  {
    assert Safe(s.mutexes[m]);
    hide Inv, Enqueue, Count;
  }

  lemma ReleaseFacts(s: State, t: int, m: int)
    requires Inv(s) && Enabled(s, Release(t, m))
    ensures var s', x := ReleaseStep(s, t, m), s.mutexes[m];
            && s'.mutexes.Keys == s.mutexes.Keys
            && (forall n :: n in s.mutexes && n != m ==> s'.mutexes[n] == s.mutexes[n])
            && (forall u :: u != t ==> At(s'.prio, u) == At(s.prio, u))
            && var x' := s'.mutexes[m];
               if LastRelease(x, t) then
                 && At(s'.prio, t) == x.original && x'.owner != t
                 && (x'.owner != NONE ==> x'.original == At(s.prio, x'.owner))
               else x'.owner == x.owner && x'.original == x.original && s'.prio == s.prio
  {
    var x := s.mutexes[m];
    assert Safe(x);
    if x.waiting != [] { assert x.waiting[0] in x.waiting; }
    hide Inv, Count;
  }

  // ----- what is recorded -----

  /** The recorded priority of a mutex is the one its owner had when it became the owner. */
  ghost predicate Recorded(r: Record, m: int)
    requires m in r.s.mutexes
  {
    var x := r.s.mutexes[m];
    x.owner != NONE ==> m in r.taken && x.original == r.taken[m]
  }

  /** What the priority of a thread is when it owns nothing. */
  ghost predicate Left(r: Record, t: int) {
    t != NONE && !Owns(r.s, t) ==> At(r.s.prio, t) == if t in r.last then r.last[t] else At(r.base, t)
  }

  ghost predicate RecordInv(r: Record) {
    && Inv(r.s)
    && (forall m :: m in r.s.mutexes ==> Recorded(r, m))
    && (forall t :: Left(r, t))
  }

  lemma TakeRecorded(r: Record, t: int, m: int, time: int, order: Order)
    requires RecordInv(r) && Enabled(r.s, Take(t, m, time))
    ensures RecordInv(RecordNext(r, Take(t, m, time), order))
  {
    var r', x := RecordNext(r, Take(t, m, time), order), r.s.mutexes[m];
    TakeKeeps(r.s, t, m, time, order);
    TakeFacts(r.s, t, m, time, order);
    hide Inv, TakeStep;
    forall n | n in r'.s.mutexes ensures Recorded(r', n) {
      assert Recorded(r, n);
    }
    forall u ensures Left(r', u) {
      assert Left(r, u);
      if u != NONE { OwnsOther(r.s, r'.s, m, u); }
      OwnsIt(r'.s, m);
    }
  }

  lemma ReleaseRecorded(r: Record, t: int, m: int, order: Order)
    requires RecordInv(r) && Enabled(r.s, Release(t, m))
    ensures RecordInv(RecordNext(r, Release(t, m), order))
  {
    var r', x := RecordNext(r, Release(t, m), order), r.s.mutexes[m];
    ReleaseKeeps(r.s, t, m);
    ReleaseFacts(r.s, t, m);
    assert Recorded(r, m);
    hide Inv, ReleaseStep;
    forall n | n in r'.s.mutexes ensures Recorded(r', n) {
      assert Recorded(r, n);
    }
    forall u ensures Left(r', u) {
      assert Left(r, u);
      if u != t || !LastRelease(x, t) { OwnsOther(r.s, r'.s, m, u); }
    }
  }

  lemma NextRecorded(r: Record, a: Action, order: Order)
    requires RecordInv(r) && Enabled(r.s, a)
    ensures RecordInv(RecordNext(r, a, order))
  {
    match a
    case Take(t, m, time) => TakeRecorded(r, t, m, time, order);
    case Release(t, m) => ReleaseRecorded(r, t, m, order);
    case _ =>
      var r' := RecordNext(r, a, order);
      NextKeeps(r.s, a, order);
      forall n | n in r'.s.mutexes ensures Recorded(r', n) {
        assert Recorded(r, n);
      }
      forall u ensures Left(r', u) {
        assert Left(r, u);
        if Owns(r.s, u) {
          var n :| n in r.s.mutexes && r.s.mutexes[n].owner == u;
          assert r'.s.mutexes[n].owner == u;
        }
      }
  }

  // ----- runs -----

  ghost function RecordRun(r: Record, run: seq<Action>, order: Order): Record
    requires Legal(r.s, run, order)
    decreases |run|
  {
    if run == [] then r else RecordRun(RecordNext(r, run[0], order), run[1..], order)
  }

  ghost function Begin(ids: set<int>, prio: map<int, int>): Record {
    Record(Start(ids, prio), prio, map[], map[], map[])
  }

  lemma BeginRecorded(ids: set<int>, prio: map<int, int>)
    ensures RecordInv(Begin(ids, prio)) && FirstInv(Begin(ids, prio))
  {
    var r := Begin(ids, prio);
    StartInv(ids, prio);
    forall t ensures Left(r, t) && (t != NONE ==> KeptFirst(r, t)) {
    }
  }

  /** In every run the priority that a mutex records is the one its owner had when it became
      the owner. A thread that owns nothing has the priority at which it took the mutex that it
      gave up last, so it is back at its own priority if and only if it had it then; a thread
      that never gave up a mutex has its own. */
  lemma {:induction false} RestoresRecorded(r: Record, run: seq<Action>, order: Order)
    requires RecordInv(r) && Legal(r.s, run, order)
    ensures var e := RecordRun(r, run, order);
            && RecordInv(e) && e.s == Run(r.s, run, order) && e.base == r.base
            && (forall m :: m in e.s.mutexes && e.s.mutexes[m].owner != NONE ==>
                  m in e.taken && e.s.mutexes[m].original == e.taken[m])
            && (forall t :: t != NONE && !Owns(e.s, t) ==>
                  (At(e.s.prio, t) == At(r.base, t) <==> (t in e.last ==> e.last[t] == At(r.base, t))))
    decreases |run|
  {
    if run != [] {
      hide RecordInv;
      NextRecorded(r, run[0], order);
      RestoresRecorded(RecordNext(r, run[0], order), run[1..], order);
    } else {
      forall m | m in r.s.mutexes && r.s.mutexes[m].owner != NONE
        ensures m in r.taken && r.s.mutexes[m].original == r.taken[m]
      {
        assert Recorded(r, m);
      }
      forall t | t != NONE && !Owns(r.s, t)
        ensures At(r.s.prio, t) == At(r.base, t) <==> (t in r.last ==> r.last[t] == At(r.base, t))
      {
        assert Left(r, t);
      }
    }
  }

  // ----- nesting -----

  /** A thread gives up the mutex it got first only when it owns no other one. */
  ghost predicate Nested(r: Record, a: Action)
    requires Enabled(r.s, a)
  {
    a.Release? && LastRelease(r.s.mutexes[a.m], a.t) && a.t in r.first && r.first[a.t] == a.m ==>
      forall n :: n in r.s.mutexes && n != a.m ==> r.s.mutexes[n].owner != a.t
  }

  /** A thread still owns the mutex it got first, for which its own priority is recorded, or
      owns nothing and has its own priority. */
  ghost predicate KeptFirst(r: Record, t: int) {
    if Owns(r.s, t) then
      && t in r.first && r.first[t] in r.s.mutexes && r.s.mutexes[r.first[t]].owner == t
      && r.s.mutexes[r.first[t]].original == At(r.base, t)
    else At(r.s.prio, t) == At(r.base, t)
  }

  ghost predicate FirstInv(r: Record) {
    forall t :: t != NONE ==> KeptFirst(r, t)
  }

  lemma TakeNested(r: Record, t: int, m: int, time: int, order: Order)
    requires Inv(r.s) && FirstInv(r) && Enabled(r.s, Take(t, m, time))
    ensures FirstInv(RecordNext(r, Take(t, m, time), order))
  {
    var r', x := RecordNext(r, Take(t, m, time), order), r.s.mutexes[m];
    TakeFacts(r.s, t, m, time, order);
    hide Inv, TakeStep;
    OwnsIt(r.s, m);
    forall u | u != NONE ensures KeptFirst(r', u) {
      assert KeptFirst(r, u);
      OwnsOther(r.s, r'.s, m, u);
    }
  }

  /** The thread that gives up a mutex. */
  lemma GiverNested(r: Record, t: int, m: int, order: Order)
    requires Inv(r.s) && FirstInv(r) && Enabled(r.s, Release(t, m)) && Nested(r, Release(t, m))
    requires LastRelease(r.s.mutexes[m], t)
    ensures KeptFirst(RecordNext(r, Release(t, m), order), t)
  {
    var r', x := RecordNext(r, Release(t, m), order), r.s.mutexes[m];
    assert KeptFirst(r, t);
    ReleaseFacts(r.s, t, m);
    hide Inv, FirstInv, ReleaseStep;
    OwnsIt(r.s, m);
    if r.first[t] != m { OwnsIt(r'.s, r.first[t]); }
  }

  /** All other threads, or a release that does not give the mutex up. */
  lemma OthersNested(r: Record, t: int, m: int, order: Order, u: int)
    requires Inv(r.s) && FirstInv(r) && Enabled(r.s, Release(t, m)) && u != NONE
    requires u != t || !LastRelease(r.s.mutexes[m], t)
    ensures KeptFirst(RecordNext(r, Release(t, m), order), u)
  {
    var r', x := RecordNext(r, Release(t, m), order), r.s.mutexes[m];
    assert KeptFirst(r, u);
    ReleaseFacts(r.s, t, m);
    hide Inv, FirstInv, ReleaseStep;
    OwnsOther(r.s, r'.s, m, u);
  }

  lemma ReleaseNested(r: Record, t: int, m: int, order: Order)
    requires Inv(r.s) && FirstInv(r) && Enabled(r.s, Release(t, m)) && Nested(r, Release(t, m))
    ensures FirstInv(RecordNext(r, Release(t, m), order))
  {
    hide Inv, Nested, KeptFirst, RecordNext;
    forall u | u != NONE ensures KeptFirst(RecordNext(r, Release(t, m), order), u) {
      if u == t && LastRelease(r.s.mutexes[m], t) {
        GiverNested(r, t, m, order);
      } else {
        OthersNested(r, t, m, order, u);
      }
    }
  }

  lemma NextNested(r: Record, a: Action, order: Order)
    requires Inv(r.s) && FirstInv(r) && Enabled(r.s, a) && Nested(r, a)
    ensures FirstInv(RecordNext(r, a, order))
  {
    match a
    case Take(t, m, time) => TakeNested(r, t, m, time, order);
    case Release(t, m) => ReleaseNested(r, t, m, order);
    case _ =>
      var r' := RecordNext(r, a, order);
      forall u | u != NONE ensures KeptFirst(r', u) {
        assert KeptFirst(r, u);
        if Owns(r.s, u) { OwnsIt(r'.s, r.first[u]); }
        if Owns(r'.s, u) {
          var n :| n in r'.s.mutexes && r'.s.mutexes[n].owner == u;
          OwnsIt(r.s, n);
        }
      }
  }

  ghost predicate NestedRun(r: Record, run: seq<Action>, order: Order)
    requires Legal(r.s, run, order)
    decreases |run|
  {
    run != [] ==> Nested(r, run[0]) && NestedRun(RecordNext(r, run[0], order), run[1..], order)
  }

  /** Threads that hold several mutexes and give up the first one last are always back at
      their own priority when they own nothing. */
  lemma {:induction false} NestingRestores(r: Record, run: seq<Action>, order: Order)
    requires Inv(r.s) && FirstInv(r) && Legal(r.s, run, order) && NestedRun(r, run, order)
    ensures var e := RecordRun(r, run, order);
            && FirstInv(e)
            && forall t :: t != NONE && !Owns(e.s, t) ==> At(e.s.prio, t) == At(e.base, t)
    decreases |run|
  {
    if run != [] {
      hide Inv, FirstInv, Nested;
      NextKeeps(r.s, run[0], order);
      NextNested(r, run[0], order);
      NestingRestores(RecordNext(r, run[0], order), run[1..], order);
    } else {
      forall t | t != NONE && !Owns(r.s, t) ensures At(r.s.prio, t) == At(r.base, t) {
        assert KeptFirst(r, t);
      }
    }
  }
}
