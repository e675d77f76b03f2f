/** Mutexes over whole runs: how often each is held, whose timers run, and who gets a mutex that
    is given up, told from the calls of the run. */
module MutexRuns {
  import opened SortedList
  import opened WaitList
  import opened Mutex

  // ----- how often a mutex is held -----

  /** How often thread t holds the mutex. */
  function HeldBy(x: Mutex, t: int): nat {
    if x.owner == t then x.hold else 0
  }

  /** A take of t succeeds at once, or a release hands the mutex to t. */
  predicate Gains(x: Mutex, a: Action, t: int, m: int) {
    match a
    case Take(u, n, _) => n == m && u == t && (x.owner == t || x.value > 0)
    case Release(u, n) => n == m && u == x.owner && x.hold == 1 && x.waiting != [] && x.waiting[0] == t
    case _ => false
  }

  /** A release of t succeeds. */
  predicate Loses(x: Mutex, a: Action, t: int, m: int) {
    a == Release(t, m) && x.owner == t
  }

  /** The successful takes minus the successful releases of thread t and mutex m in the run. */
  function Balance(s: State, run: seq<Action>, order: Order, t: int, m: int): int
    requires Legal(s, run, order)
    decreases |run|
  {
    if run == [] || m !in s.mutexes then 0
    else
      var x, a := s.mutexes[m], run[0];
      (if Gains(x, a, t, m) then 1 else 0) - (if Loses(x, a, t, m) then 1 else 0)
      + Balance(Next(s, a, order), run[1..], order, t, m)
  }

  lemma StepCounts(s: State, a: Action, order: Order, t: int, m: int)
    requires Inv(s) && Enabled(s, a) && m in s.mutexes && t != NONE
    ensures m in Next(s, a, order).mutexes
    ensures var x, x' := s.mutexes[m], Next(s, a, order).mutexes[m];
            HeldBy(x', t) == HeldBy(x, t) + (if Gains(x, a, t, m) then 1 else 0) - (if Loses(x, a, t, m) then 1 else 0)
  {
    assert Listed(s, m, t);
    hide Enqueue, Without;
    if s.mutexes[m].waiting != [] { assert s.mutexes[m].waiting[0] in s.mutexes[m].waiting; }
  }

  /** In every run a thread holds a mutex as often as it took it and did not release it. */
  lemma {:induction false} HoldsExactly(s: State, run: seq<Action>, order: Order, t: int, m: int)
    requires Inv(s) && Legal(s, run, order) && m in s.mutexes && t != NONE
    ensures m in Run(s, run, order).mutexes
    ensures HeldBy(Run(s, run, order).mutexes[m], t) == HeldBy(s.mutexes[m], t) + Balance(s, run, order, t, m)
    decreases |run|
  {
    hide Inv, Next, HeldBy, Gains, Loses;
    if run != [] {
      NextKeeps(s, run[0], order);
      StepCounts(s, run[0], order, t, m);
      HoldsExactly(Next(s, run[0], order), run[1..], order, t, m);
    }
  }

  // ----- whose timers run -----

  /** `times` is the waiting time with which each thread was suspended last. */
  datatype Trace = Trace(s: State, times: map<int, int>)

  function TraceNext(r: Trace, a: Action, order: Order): Trace
    requires Enabled(r.s, a)
  {
    var s' := Next(r.s, a, order);
    if a.Take? && Blocks(r.s.mutexes[a.m], a.t, a.time) then Trace(s', r.times[a.t := a.time]) else r.(s := s')
  }

  /** The timers that run are those of the waiting threads with a finite waiting time. */
  ghost predicate Armed(r: Trace) {
    forall t :: t in r.s.armed <==> t in r.s.waits && At(r.times, t) > 0
  }

  lemma StepArmed(r: Trace, a: Action, order: Order)
    requires Inv(r.s) && Armed(r) && Enabled(r.s, a)
    ensures Armed(TraceNext(r, a, order))
  {
    hide Safe, Enqueue, Without;
    match a
    case Take(t, m, time) =>
    case Release(t, m) =>
    case Timeout(t) =>
    case Return(t) =>
  }

  function TraceRun(r: Trace, run: seq<Action>, order: Order): Trace
    requires Legal(r.s, run, order)
    decreases |run|
  {
    if run == [] then r else TraceRun(TraceNext(r, run[0], order), run[1..], order)
  }

  lemma {:induction false} ArmedExactly(r: Trace, run: seq<Action>, order: Order)
    requires Inv(r.s) && Armed(r) && Legal(r.s, run, order)
    ensures var e := TraceRun(r, run, order); e.s == Run(r.s, run, order) && Armed(e)
    decreases |run|
  {
    hide Inv, Next, Armed, Blocks;
    if run != [] {
      NextKeeps(r.s, run[0], order);
      StepArmed(r, run[0], order);
      ArmedExactly(TraceNext(r, run[0], order), run[1..], order);
    }
  }

  // ----- who gets the mutex -----

  /** A thread that finds the mutex taken and has time waits for it, and nobody else moves. */
  lemma TakeWaits(s: State, t: int, m: int, time: int, order: Order)
    requires Inv(s) && Enabled(s, Take(t, m, time)) && Blocks(s.mutexes[m], t, time)
    ensures var s' := Next(s, Take(t, m, time), order);
            var x, x' := s.mutexes[m], s'.mutexes[m];
            && t in s'.waits && s'.waits[t] == m && t in x'.waiting && Without(x'.waiting, t) == x.waiting
            && x'.owner == x.owner && x'.hold == x.hold && (t in s'.armed <==> time > 0)
  {
    var x := s.mutexes[m];
    assert Listed(s, m, t);
    hide Enqueue, Without;
    EnqueueMembers(x.waiting, Boost(s.prio, x.owner, t), t, order);
    EnqueueKeeps(x.waiting, Boost(s.prio, x.owner, t), t, order);
  }

  /** A thread that times out leaves its list with nothing, and one that returns may call again. */
  lemma LeaveEffect(s: State, t: int, order: Order)
    requires Inv(s)
    ensures Enabled(s, Timeout(t)) ==>
              var s', m := Next(s, Timeout(t), order), s.waits[t];
              && s'.waits == s.waits - {t} && t !in s'.armed && s'.prio == s.prio && s'.returning == s.returning
              && m in s'.mutexes && s'.mutexes[m].owner == s.mutexes[m].owner && s'.mutexes[m].hold == s.mutexes[m].hold
              && forall u :: u in s'.mutexes[m].waiting <==> u in s.mutexes[m].waiting && u != t
    ensures Enabled(s, Return(t)) ==>
              var s' := Next(s, Return(t), order); Running(s', t) && s' == s.(returning := s.returning - {t})
  {
    hide Without, Safe;
    if Enabled(s, Timeout(t)) { WithoutMembers(s.mutexes[s.waits[t]].waiting, t); }
    if Enabled(s, Return(t)) { assert Owned(s, t, s.returning[t]); }
  }

  /** A mutex that is given up goes to a waiting thread that comes before all others, once. */
  lemma GrantsFirst(s: State, t: int, m: int, order: Order, rank: map<int, int>, arrival: map<int, int>)
    requires Inv(s) && Enabled(s, Release(t, m)) && s.mutexes[m].owner == t && s.mutexes[m].hold == 1
    requires s.mutexes[m].waiting != [] && Ranked(s.mutexes[m].waiting, rank, arrival)
    ensures var s' := Next(s, Release(t, m), order);
            var x, x' := s.mutexes[m], s'.mutexes[m];
            && x'.owner in x.waiting && x'.hold == 1 && x'.waiting == Without(x.waiting, x'.owner)
            && (forall w :: w in x'.waiting ==> Precedes(x'.owner, w, rank, arrival))
            && s'.returning == s.returning[x'.owner := m] && x'.owner !in s'.waits && x'.owner !in s'.armed
  {
    var list := s.mutexes[m].waiting;
    HeadLeaves(list);
    HeadFirst(list, rank, arrival);
  }
}
