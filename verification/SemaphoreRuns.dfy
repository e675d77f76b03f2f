/** Semaphores over whole runs: how many calls succeed, who is served first, and whose timers
    run, told from the calls of the run. */
module SemaphoreRuns {
  import opened SortedList
  import opened WaitList
  import opened Semaphore

  // ----- how many succeed -----

  function Releases(run: seq<Turn>): nat {
    if run == [] then 0 else (if run[0].a.Release? then 1 else 0) + Releases(run[1..])
  }

  /** The takes that succeed: at once, or because a release finds the caller waiting. */
  function Successes(s: State, run: seq<Turn>, order: Order): nat
    decreases |run|
  {
    if run == [] then 0
    else
      var a := run[0].a;
      (if (a.Take? && s.value > 0) || (a.Release? && s.waiting != []) then 1 else 0)
      + Successes(Next(s, a, run[0].prio, order), run[1..], order)
  }

  /** The value and the releases of a run are spent on its successful takes and the value left. */
  lemma {:induction false} Conserved(s: State, run: seq<Turn>, order: Order)
    requires Inv(s) && Legal(s, run, order)
    ensures s.value + Releases(run) == Run(s, run, order).value + Successes(s, run, order)
    decreases |run|
  {
    if run != [] {
      var a, p := run[0].a, run[0].prio;
      NextKeeps(s, a, p, order);
      hide Inv, Enqueue, Without;
      Conserved(Next(s, a, p, order), run[1..], order);
    }
  }

  // ----- who is served, and whose timers run -----

  /** `rank`, `arrival` and `times` are the priority, the moment and the waiting time with which
      each thread was suspended. */
  datatype Trace = Trace(s: State, rank: map<int, int>, arrival: map<int, int>, times: map<int, int>, clock: nat)

  function TraceNext(r: Trace, a: Action, prio: map<int, int>, order: Order): Trace {
    var s' := Next(r.s, a, prio, order);
    if a.Take? && r.s.value == 0 && a.time != 0 then
      Trace(s', r.rank[a.t := At(prio, a.t)], r.arrival[a.t := r.clock], r.times[a.t := a.time], r.clock + 1)
    else r.(s := s')
  }

  /** The key of the order of the list. */
  function Key(r: Trace, order: Order): map<int, int> {
    if order == Prio then r.rank else map[]
  }

  /** Waiting threads do not change their priority. */
  ghost predicate Steady(r: Trace, prio: map<int, int>) {
    forall w :: w in r.s.waiting ==> At(prio, w) == At(r.rank, w)
  }

  ghost predicate TraceInv(r: Trace, order: Order) {
    && Inv(r.s)
    && Ranked(r.s.waiting, Key(r, order), r.arrival)
    && (forall w :: w in r.s.waiting ==> At(r.arrival, w) < r.clock)
    && (forall t :: t in r.s.armed <==> t in r.s.waiting && At(r.times, t) > 0)
  }

  lemma SameRank(list: seq<int>, p: map<int, int>, q: map<int, int>, a: map<int, int>, b: map<int, int>)
    requires Ranked(list, p, a) && forall x :: x in list ==> At(p, x) == At(q, x) && At(a, x) == At(b, x)
    ensures Ranked(list, q, b)
  {
    forall i, j | 0 <= i < j < |list| ensures Precedes(list[i], list[j], q, b) {
      assert list[i] in list && list[j] in list && Precedes(list[i], list[j], p, a);
    }
  }

  lemma BlockTraced(r: Trace, t: int, time: int, prio: map<int, int>, order: Order)
    requires TraceInv(r, order) && t !in r.s.waiting && (order == Prio ==> Steady(r, prio))
    requires r.s.value == 0 && time != 0
    ensures TraceInv(TraceNext(r, Take(t, time), prio, order), order)
  {
    NextKeeps(r.s, Take(t, time), prio, order);
    EnqueueMembers(r.s.waiting, prio, t, order);
    hide Inv, Enqueue;
    var r' := TraceNext(r, Take(t, time), prio, order);
    if order == Prio {
      SameRank(r.s.waiting, r.rank, prio, r.arrival, r'.arrival);
      EnqueueRanked(r.s.waiting, prio, r'.arrival, t);
      SameRank(r'.s.waiting, prio, r'.rank, r'.arrival, r'.arrival);
    } else {
      SameRank(r.s.waiting, map[], map[], r.arrival, r'.arrival);
      EnqueueFifo(r.s.waiting, prio, r'.arrival, t);
    }
  }

  /** A thread leaves the list, and the others keep their places and timers. */
  lemma LeaveTraced(r: Trace, s': State, t: int, order: Order)
    requires TraceInv(r, order) && Inv(s') && s'.waiting == Without(r.s.waiting, t) && s'.armed == r.s.armed - {t}
    ensures TraceInv(r.(s := s'), order)
  {
    hide Inv, Ranked;
    WithoutMembers(r.s.waiting, t);
    RankedSub(r.s.waiting, Elems(r.s.waiting) - {t}, Key(r, order), r.arrival);
  }

  lemma NextTraced(r: Trace, a: Action, prio: map<int, int>, order: Order)
    requires TraceInv(r, order) && Enabled(r.s, a) && (order == Prio ==> Steady(r, prio))
    ensures TraceInv(TraceNext(r, a, prio, order), order)
  {
    if a.Take? && r.s.value == 0 && a.time != 0 {
      BlockTraced(r, a.t, a.time, prio, order);
    } else {
      NextKeeps(r.s, a, prio, order);
      if a.Release? && r.s.waiting != [] { HeadLeaves(r.s.waiting); }
      hide Inv, Ranked, Without;
      var s' := Next(r.s, a, prio, order);
      match a
      case Take(_, _) =>
      case Release => if r.s.waiting != [] { LeaveTraced(r, s', r.s.waiting[0], order); }
      case Timeout(t) => LeaveTraced(r, s', t, order);
    }
  }

  ghost predicate AllSteady(r: Trace, run: seq<Turn>, order: Order)
    decreases |run|
  {
    run == [] || (Steady(r, run[0].prio) && AllSteady(TraceNext(r, run[0].a, run[0].prio, order), run[1..], order))
  }

  function TraceRun(r: Trace, run: seq<Turn>, order: Order): Trace
    decreases |run|
  {
    if run == [] then r else TraceRun(TraceNext(r, run[0].a, run[0].prio, order), run[1..], order)
  }

  /** In every run the list is in the order of priority and arrival, or of arrival alone, and
      the timers that run are those of the waiting threads with a finite waiting time. */
  lemma {:induction false} InOrder(r: Trace, run: seq<Turn>, order: Order)
    requires TraceInv(r, order) && Legal(r.s, run, order) && (order == Prio ==> AllSteady(r, run, order))
    ensures var e := TraceRun(r, run, order); TraceInv(e, order) && e.s == Run(r.s, run, order)
    decreases |run|
  {
    hide TraceInv, Next;
    if run != [] {
      NextTraced(r, run[0].a, run[0].prio, order);
      InOrder(TraceNext(r, run[0].a, run[0].prio, order), run[1..], order);
    }
  }

  /** A release with threads waiting grants the semaphore to one that comes before all others,
      and to nobody else. */
  lemma GrantsFirst(r: Trace, prio: map<int, int>, order: Order)
    requires TraceInv(r, order) && r.s.waiting != []
    ensures var s' := Next(r.s, Release, prio, order);
            exists g :: g in r.s.waiting && s'.log == r.s.log + [Granted(g)] && s'.waiting == Without(r.s.waiting, g)
                        && s'.value == r.s.value && g !in s'.armed
                        && forall w :: w in s'.waiting ==> Precedes(g, w, Key(r, order), r.arrival)
  {
    var w := Waiters(r.s.waiting, {});
    WakeFirst(w, Key(r, order), r.arrival);
    var g := r.s.waiting[0];
    HeadLeaves(r.s.waiting);
    assert g in r.s.waiting && Wake(w).woken == {g};
  }
}
