/** Priority inheritance through mutexes with RT_IPC_FLAG_PRIO, for threads that hold or wait
    for at most one mutex at a time and whose priority nobody else changes. */
module PriorityInheritance {
  import opened RingList
  import opened SortedList
  import opened WaitList
  import opened Mutex

  /** `base` is the priority of each thread without inheritance, `holds` the mutex it owns, and
      `arrival` when it last joined a wait list. */
  datatype Pi = Pi(s: State, base: map<int, int>, holds: map<int, int>, arrival: map<int, int>, clock: nat)

  /** A thread takes a mutex only if it owns no other one. */
  predicate Single(p: Pi, a: Action) {
    a.Take? && a.t in p.holds ==> p.holds[a.t] == a.m
  }

  function PiNext(p: Pi, a: Action): Pi
    requires Enabled(p.s, a)
  {
    var p' := p.(s := Next(p.s, a, Prio));
    match a
    case Take(t, m, time) =>
      var x := p.s.mutexes[m];
      if Blocks(x, t, time) then p'.(arrival := p.arrival[t := p.clock], clock := p.clock + 1)
      else if x.owner != t && x.value > 0 then p'.(holds := p.holds[t := m])
      else p'
    case Release(t, m) =>
      var x := p.s.mutexes[m];
      if !LastRelease(x, t) then p'
      else if x.waiting == [] then p'.(holds := p.holds - {t})
      else p'.(holds := (p.holds - {t})[x.waiting[0] := m])
    case _ => p'
  }

  // ----- what inheritance promises -----

  /** The owner is at least as urgent as every waiter and as itself without inheritance, its
      recorded priority is the one to go back to, and the wait list is in order. */
  ghost predicate Led(x: Mutex, prio: map<int, int>, base: map<int, int>, arrival: map<int, int>, clock: int) {
    && (x.owner != NONE ==> x.original == At(base, x.owner) && At(prio, x.owner) <= At(base, x.owner))
    && (forall w :: w in x.waiting ==> At(prio, x.owner) <= At(prio, w))
    && Ranked(x.waiting, prio, arrival)
    && (forall w :: w in x.waiting ==> At(arrival, w) < clock)
  }

  ghost predicate LedAt(p: Pi, m: int)
    requires m in p.s.mutexes
  {
    Led(p.s.mutexes[m], p.s.prio, p.base, p.arrival, p.clock)
  }

  /** Each mutex is held by its owner only, who waits for nothing. */
  ghost predicate Held(p: Pi) {
    && (forall m :: m in p.s.mutexes && p.s.mutexes[m].owner != NONE ==>
          p.s.mutexes[m].owner in p.holds && p.holds[p.s.mutexes[m].owner] == m)
    && (forall t :: t in p.holds ==> HoldsIt(p, t))
  }

  ghost predicate HoldsIt(p: Pi, t: int)
    requires t in p.holds
  {
    t != NONE && t !in p.s.waits && p.holds[t] in p.s.mutexes && p.s.mutexes[p.holds[t]].owner == t
  }

  /** A thread that holds nothing has its own priority. */
  ghost predicate AtBase(p: Pi, t: int) {
    t !in p.holds ==> At(p.s.prio, t) == At(p.base, t)
  }

  ghost predicate PiInv(p: Pi) {
    && Inv(p.s) && Held(p)
    && (forall m :: m in p.s.mutexes ==> LedAt(p, m))
    && (forall t :: AtBase(p, t))
  }

  // ----- one mutex -----

  /** Only the priorities of the owner and the waiters matter. */
  lemma LedFrame(x: Mutex, prio: map<int, int>, prio': map<int, int>, base: map<int, int>,
                 arrival: map<int, int>, arrival': map<int, int>, clock: int, clock': int)
    requires Led(x, prio, base, arrival, clock) && clock <= clock'
    requires x.waiting != [] || x.owner != NONE ==> At(prio, x.owner) == At(prio', x.owner)
    requires forall w :: w in x.waiting ==> At(prio, w) == At(prio', w) && At(arrival, w) == At(arrival', w)
    ensures Led(x, prio', base, arrival', clock')
  {
    forall i, j | 0 <= i < j < |x.waiting| ensures Precedes(x.waiting[i], x.waiting[j], prio', arrival') {
      assert x.waiting[i] in x.waiting && x.waiting[j] in x.waiting;
      assert Precedes(x.waiting[i], x.waiting[j], prio, arrival);
    }
    if x.waiting != [] {
      forall w | w in x.waiting ensures At(prio', x.owner) <= At(prio', w) {
      }
    }
  }

  lemma BlockLed(x: Mutex, prio: map<int, int>, base: map<int, int>, arrival: map<int, int>, clock: nat, t: int,
                 time: int)
    requires Safe(x) && Led(x, prio, base, arrival, clock) && Blocks(x, t, time) && t !in x.waiting && t != NONE
    requires At(prio, t) == At(base, t)
    ensures Led(TakeNext(x, prio, t, time, Prio), Boost(prio, x.owner, t), base, arrival[t := clock], clock + 1)
  {
    hide Enqueue;
    var prio', arrival' := Boost(prio, x.owner, t), arrival[t := clock];
    forall i, j | 0 <= i < j < |x.waiting| ensures Precedes(x.waiting[i], x.waiting[j], prio', arrival') {
      assert x.waiting[i] in x.waiting && x.waiting[j] in x.waiting;
      assert Precedes(x.waiting[i], x.waiting[j], prio, arrival);
    }
    EnqueueRanked(x.waiting, prio', arrival', t);
    EnqueueMembers(x.waiting, prio', t, Prio);
  }

  /** The first waiter becomes the owner, and is the most urgent one. */
  lemma PassLed(x: Mutex, prio: map<int, int>, base: map<int, int>, arrival: map<int, int>, clock: nat)
    requires Safe(x) && Led(x, prio, base, arrival, clock) && x.waiting != [] && LastRelease(x, x.owner)
    requires At(prio, x.waiting[0]) == At(base, x.waiting[0])
    ensures var prio' := ReleasePrio(x, prio, x.owner);
            Led(ReleaseNext(x, prio, x.owner), prio', base, arrival, clock)
  {
    var prio', w := ReleasePrio(x, prio, x.owner), x.waiting[0];
    HeadTail(x.waiting);
    RankedHead(x.waiting, prio, arrival);
    assert w in x.waiting;
    var rest := x.waiting[1..];
    forall i, j | 0 <= i < j < |rest| ensures Precedes(rest[i], rest[j], prio', arrival) {
      assert rest[i] in rest && rest[j] in rest;
      assert Precedes(x.waiting[i + 1], x.waiting[j + 1], prio, arrival);
    }
  }

  lemma ExpireLed(x: Mutex, prio: map<int, int>, base: map<int, int>, arrival: map<int, int>, clock: nat, t: int)
    requires Led(x, prio, base, arrival, clock)
    ensures Led(x.(waiting := Without(x.waiting, t)), prio, base, arrival, clock)
  {
    WithoutMembers(x.waiting, t);
    RankedSub(x.waiting, Elems(x.waiting) - {t}, prio, arrival);
  }

  // ----- all mutexes -----

  /** A step that changes mutex m, and the priority of thread o only, where o is in no wait
      list and owns no mutex but m. */
  lemma OthersLed(p: Pi, p': Pi, m: int, o: int, t: int)
    requires PiInv(p) && p'.base == p.base && p.clock <= p'.clock && p'.s.mutexes.Keys == p.s.mutexes.Keys
    requires forall n :: n in p.s.mutexes && n != m ==> p'.s.mutexes[n] == p.s.mutexes[n]
    requires forall u :: u != o ==> At(p'.s.prio, u) == At(p.s.prio, u)
    requires forall u :: u != t ==> At(p'.arrival, u) == At(p.arrival, u)
    requires o !in p.s.waits && (o in p.holds ==> p.holds[o] == m) && t !in p.s.waits
    ensures forall n :: n in p.s.mutexes && n != m ==> LedAt(p', n)
  {
    forall n | n in p.s.mutexes && n != m ensures LedAt(p', n) {
      var x := p.s.mutexes[n];
      assert LedAt(p, n) && Safe(x);
      forall w | w in x.waiting ensures w != o && w != t {
        assert Listed(p.s, n, w);
      }
      if x.owner == NONE { assert x.waiting == []; }
      LedFrame(x, p.s.prio, p'.s.prio, p.base, p.arrival, p'.arrival, p.clock, p'.clock);
    }
  }

  lemma TakePi(p: Pi, t: int, m: int, time: int)
    requires PiInv(p) && Enabled(p.s, Take(t, m, time)) && Single(p, Take(t, m, time))
    ensures PiInv(PiNext(p, Take(t, m, time)))
  {
    hide Safe, Led, Inv, Enqueue;
    var a := Take(t, m, time);
    var p', x := PiNext(p, a), p.s.mutexes[m];
    NextKeeps(p.s, a, Prio);
    MutexFacts(p.s, m, t);
    assert LedAt(p, m) && AtBase(p, t);
    if Blocks(x, t, time) {
      assert x.owner in p.holds && HoldsIt(p, x.owner);
      BlockLed(x, p.s.prio, p.base, p.arrival, p.clock, t, time);
      OthersLed(p, p', m, x.owner, t);
      forall u ensures AtBase(p', u) { assert AtBase(p, u); }
      assert Held(p') by {
        forall u | u in p'.holds ensures HoldsIt(p', u) { assert HoldsIt(p, u); }
      }
    } else {
      OthersLed(p, p', m, t, t);
      TakenLed(p, t, m, time);
      forall u ensures AtBase(p', u) { assert AtBase(p, u); }
      assert Held(p') by {
        forall u | u in p'.holds ensures HoldsIt(p', u) { if u in p.holds { assert HoldsIt(p, u); } }
      }
    }
  }

  lemma MutexFacts(s: State, m: int, t: int)
    requires Inv(s) && m in s.mutexes
    ensures Safe(s.mutexes[m]) && (t !in s.waits ==> t !in s.mutexes[m].waiting)
    ensures var x := s.mutexes[m];
            && (x.value == 1 <==> x.owner == NONE) && x.value <= 1 && x.owner !in x.waiting
            && (x.owner == NONE ==> x.waiting == []) && NONE !in x.waiting && Distinct(x.waiting)
    ensures forall w :: w in s.mutexes[m].waiting ==> w in s.waits && s.waits[w] == m
  {
    assert Listed(s, m, t);
    forall w | w in s.mutexes[m].waiting ensures w in s.waits && s.waits[w] == m {
      assert Listed(s, m, w);
    }
  }

  /** A take that does not block: the mutex has a new owner at its own priority, or is taken
      again by the same one, or is left alone. */
  lemma TakenLed(p: Pi, t: int, m: int, time: int)
    requires PiInv(p) && Enabled(p.s, Take(t, m, time)) && Single(p, Take(t, m, time))
    requires !Blocks(p.s.mutexes[m], t, time)
    ensures LedAt(PiNext(p, Take(t, m, time)), m)
  {
    MutexFacts(p.s, m, t);
    assert LedAt(p, m) && AtBase(p, t);
    if t in p.holds { assert HoldsIt(p, t); }
  }

  lemma ReleasePi(p: Pi, t: int, m: int)
    requires PiInv(p) && Enabled(p.s, Release(t, m))
    ensures PiInv(PiNext(p, Release(t, m)))
  {
    hide Safe, Led, Inv;
    var a := Release(t, m);
    var p', x := PiNext(p, a), p.s.mutexes[m];
    if t != x.owner {
      assert p'.s.mutexes == p.s.mutexes;
    } else {
      NextKeeps(p.s, a, Prio);
      MutexFacts(p.s, m, t);
      OthersLed(p, p', m, t, t);
      ReleasedLed(p, t, m);
      ReleaseHolds(p, t, m);
      assert LedAt(p, m);
      OwnPriority(p, m);
      forall u ensures AtBase(p', u) {
        assert AtBase(p, u);
      }
    }
  }

  lemma ReleaseHolds(p: Pi, t: int, m: int)
    requires PiInv(p) && Enabled(p.s, Release(t, m)) && t == p.s.mutexes[m].owner
    ensures Held(PiNext(p, Release(t, m)))
  {
    hide Safe, LedAt, Inv, ReleasePrio, AtBase, Count;
    var p', x := PiNext(p, Release(t, m)), p.s.mutexes[m];
    MutexFacts(p.s, m, t);
    if x.waiting != [] { assert x.waiting[0] in x.waiting; }
    forall u | u in p'.holds ensures HoldsIt(p', u) {
      if u in p.holds { assert HoldsIt(p, u); }
    }
  }

  lemma OwnPriority(p: Pi, m: int)
    requires m in p.s.mutexes && LedAt(p, m) && p.s.mutexes[m].owner != NONE
    ensures p.s.mutexes[m].original == At(p.base, p.s.mutexes[m].owner)
  {
  }

  lemma ReleasedLed(p: Pi, t: int, m: int)
    requires PiInv(p) && Enabled(p.s, Release(t, m))
    ensures LedAt(PiNext(p, Release(t, m)), m)
  {
    var x := p.s.mutexes[m];
    MutexFacts(p.s, m, t);
    assert LedAt(p, m);
    if LastRelease(x, t) && x.waiting != [] {
      var w := x.waiting[0];
      assert w in x.waiting && AtBase(p, w);
      PassLed(x, p.s.prio, p.base, p.arrival, p.clock);
    }
  }

  lemma TimeoutPi(p: Pi, t: int)
    requires PiInv(p) && Enabled(p.s, Timeout(t))
    ensures PiInv(PiNext(p, Timeout(t)))
  {
    assert t in p.s.waits && p.s.waits[t] in p.s.mutexes;
    hide Safe, Led, Inv;
    var a, m := Timeout(t), p.s.waits[t];
    var p' := PiNext(p, a);
    NextKeeps(p.s, a, Prio);
    assert LedAt(p, m);
    ExpireLed(p.s.mutexes[m], p.s.prio, p.base, p.arrival, p.clock, t);
    forall n | n in p'.s.mutexes ensures LedAt(p', n) { assert LedAt(p, n); }
    forall u ensures AtBase(p', u) { assert AtBase(p, u); }
    forall u | u in p'.holds ensures HoldsIt(p', u) { assert HoldsIt(p, u); }
  }

  lemma PiNextKeeps(p: Pi, a: Action)
    requires PiInv(p) && Enabled(p.s, a) && Single(p, a)
    ensures PiInv(PiNext(p, a))
  {
    match a
    case Take(t, m, time) => TakePi(p, t, m, time);
    case Release(t, m) => ReleasePi(p, t, m);
    case Timeout(t) => TimeoutPi(p, t);
    case Return(t) =>
      hide Led, Inv;
      NextKeeps(p.s, a, Prio);
      var p' := PiNext(p, a);
      forall n | n in p'.s.mutexes ensures LedAt(p', n) { assert LedAt(p, n); }
      forall u ensures AtBase(p', u) { assert AtBase(p, u); }
      forall u | u in p'.holds ensures HoldsIt(p', u) { assert HoldsIt(p, u); }
  }

  // ----- runs -----

  predicate PiLegal(p: Pi, run: seq<Action>)
    decreases |run|
  {
    run == [] || (Enabled(p.s, run[0]) && Single(p, run[0]) && PiLegal(PiNext(p, run[0]), run[1..]))
  }

  function PiRun(p: Pi, run: seq<Action>): Pi
    requires PiLegal(p, run)
    decreases |run|
  {
    if run == [] then p else PiRun(PiNext(p, run[0]), run[1..])
  }

  /** Every thread starts at its own priority. */
  lemma PiStart(ids: set<int>, prio: map<int, int>)
    ensures PiInv(Pi(Start(ids, prio), prio, map[], map[], 0))
  {
    StartInv(ids, prio);
    var p := Pi(Start(ids, prio), prio, map[], map[], 0);
    forall m | m in p.s.mutexes ensures LedAt(p, m) {
    }
    forall t ensures AtBase(p, t) {
    }
  }

  /** In every reachable state the owner of a mutex is at least as urgent as every waiter, the
      wait list is ordered by priority and, among equals, by arrival, and a thread that holds
      nothing is back at its own priority, also after waiters timed out. */
  lemma {:induction false} PiRunKeeps(p: Pi, run: seq<Action>)
    requires PiInv(p) && PiLegal(p, run)
    ensures var r := PiRun(p, run);
            && PiInv(r)
            && (forall m, w :: m in r.s.mutexes && w in r.s.mutexes[m].waiting ==>
                  At(r.s.prio, r.s.mutexes[m].owner) <= At(r.s.prio, w))
            && (forall m :: m in r.s.mutexes ==> Ranked(r.s.mutexes[m].waiting, r.s.prio, r.arrival))
            && (forall t :: t !in r.holds ==> At(r.s.prio, t) == At(r.base, t))
    decreases |run|
  {
    if run == [] {
      forall m | m in p.s.mutexes
        ensures Ranked(p.s.mutexes[m].waiting, p.s.prio, p.arrival)
        ensures forall w :: w in p.s.mutexes[m].waiting ==> At(p.s.prio, p.s.mutexes[m].owner) <= At(p.s.prio, w)
      {
        assert LedAt(p, m);
      }
      forall t | t !in p.holds ensures At(p.s.prio, t) == At(p.base, t) {
        assert AtBase(p, t);
      }
    } else {
      hide PiInv, PiNext;
      PiNextKeeps(p, run[0]);
      PiRunKeeps(PiNext(p, run[0]), run[1..]);
    }
  }

  // ----- where the promise ends -----

  /** Passing the mutex on keeps the owner most urgent exactly when the first waiter is the
      most urgent one, which a wait list in FIFO order does not ensure. */
  lemma PassedOnUrgent(x: Mutex, prio: map<int, int>)
    requires Safe(x) && LastRelease(x, x.owner) && x.waiting != []
    ensures var x', prio' := ReleaseNext(x, prio, x.owner), ReleasePrio(x, prio, x.owner);
            (forall w :: w in x'.waiting ==> At(prio', x'.owner) <= At(prio', w))
            <==> (forall w :: w in x.waiting ==> At(prio, x.waiting[0]) <= At(prio, w))
  {
    HeadTail(x.waiting);
    var w0 := x.waiting[0];
    assert w0 in x.waiting;
  }

  /** With FIFO order: thread 1 owns the mutex, 2 with priority 20 and 3 with priority 10 wait
      in this order. After the release thread 2 owns it at priority 20 and thread 3 waits. */
  lemma FifoInverts()
    ensures var s := Start({1}, map[1 := 30, 2 := 20, 3 := 10]);
            var run := [Take(1, 1, FOREVER), Take(2, 1, FOREVER), Take(3, 1, FOREVER), Release(1, 1)];
            && Legal(s, run, Fifo)
            && var r := Run(s, run, Fifo);
               1 in r.mutexes && r.mutexes[1].owner == 2 && r.mutexes[1].waiting == [3]
               && At(r.prio, 2) == 20 && At(r.prio, 3) == 10
  {
    hide Legal, Run;
    var s0 := Start({1}, map[1 := 30, 2 := 20, 3 := 10]);
    var a1, a2, a3, a4 := Take(1, 1, FOREVER), Take(2, 1, FOREVER), Take(3, 1, FOREVER), Release(1, 1);
    var s1 := Next(s0, a1, Fifo);
    var s2 := Next(s1, a2, Fifo);
    assert s2.mutexes[1] == Mutex(0, 1, 1, 30, [2]);
    var s3 := Next(s2, a3, Fifo);
    assert s3.mutexes[1] == Mutex(0, 1, 1, 30, [2, 3]);
    var s4 := Next(s3, a4, Fifo);
    RunNil(s4, Fifo);
    RunCons(s3, a4, [], [a4], Fifo);
    RunCons(s2, a3, [a4], [a3, a4], Fifo);
    RunCons(s1, a2, [a3, a4], [a2, a3, a4], Fifo);
    RunCons(s0, a1, [a2, a3, a4], [a1, a2, a3, a4], Fifo);
  }

  lemma StickEnd(s: State)
    requires s.mutexes == map[1 := Mutex(0, 1, 1, 20, [2]), 2 := Mutex(0, 1, 1, 10, [])]
    requires s.prio == map[1 := 10, 2 := 10] && s.waits == map[2 := 1] && s.returning == map[]
    ensures var run := [Release(1, 1), Release(1, 2)];
            && Legal(s, run, Prio)
            && var r := Run(s, run, Prio);
               {1, 2} <= r.mutexes.Keys && r.mutexes[1].owner == 2 && r.mutexes[2].owner == NONE && At(r.prio, 1) == 10
  {
    hide Legal, Run;
    var a4, a5 := Release(1, 1), Release(1, 2);
    var s4 := Next(s, a4, Prio);
    assert At(s4.prio, 1) == 20;
    var s5 := Next(s4, a5, Prio);
    RunNil(s5, Prio);
    RunCons(s4, a5, [], [a5], Prio);
    RunCons(s, a4, [a5], [a4, a5], Prio);
  }

  /** With two mutexes: thread 1 (priority 20) takes mutex 1, thread 2 (priority 10) waits for
      it, thread 1 takes mutex 2 at the inherited priority, releases mutex 1, then mutex 2. It
      holds nothing and has priority 10. */
  lemma TwoMutexesStick()
    ensures var s := Start({1, 2}, map[1 := 20, 2 := 10]);
            var run := [Take(1, 1, FOREVER), Take(2, 1, FOREVER), Take(1, 2, FOREVER), Release(1, 1), Release(1, 2)];
            && Legal(s, run, Prio)
            && var r := Run(s, run, Prio);
               {1, 2} <= r.mutexes.Keys && r.mutexes[1].owner == 2 && r.mutexes[2].owner == NONE && At(r.prio, 1) == 10
  {
    hide Legal, Run;
    var s0 := Start({1, 2}, map[1 := 20, 2 := 10]);
    var a1, a2, a3 := Take(1, 1, FOREVER), Take(2, 1, FOREVER), Take(1, 2, FOREVER);
    var a4, a5 := Release(1, 1), Release(1, 2);
    var s1 := Next(s0, a1, Prio);
    var s2 := Next(s1, a2, Prio);
    assert s2.mutexes[1] == Mutex(0, 1, 1, 20, [2]);
    var s3 := Next(s2, a3, Prio);
    assert s3.mutexes == map[1 := Mutex(0, 1, 1, 20, [2]), 2 := Mutex(0, 1, 1, 10, [])];
    StickEnd(s3);
    RunCons(s2, a3, [a4, a5], [a3, a4, a5], Prio);
    RunCons(s1, a2, [a3, a4, a5], [a2, a3, a4, a5], Prio);
    RunCons(s0, a1, [a2, a3, a4, a5], [a1, a2, a3, a4, a5], Prio);
  }

  /** Inheritance is not passed along a chain: thread 1 (priority 30) owns mutex 1, for which
      thread 2 (priority 20), the owner of mutex 2, waits. When thread 3 (priority 10) waits
      for mutex 2, thread 2 is raised to 10, but thread 1 stays at 20. */
  lemma NotTransitive()
    ensures var s := Start({1, 2}, map[1 := 30, 2 := 20, 3 := 10]);
            var run := [Take(1, 1, FOREVER), Take(2, 2, FOREVER), Take(2, 1, FOREVER), Take(3, 2, FOREVER)];
            && Legal(s, run, Prio)
            && var r := Run(s, run, Prio);
               {1, 2} <= r.mutexes.Keys && r.mutexes[1].owner == 1 && r.mutexes[1].waiting == [2]
               && r.mutexes[2].owner == 2 && r.mutexes[2].waiting == [3] && At(r.prio, 2) == 10 && At(r.prio, 1) == 20
  {
    hide Legal, Run;
    var s0 := Start({1, 2}, map[1 := 30, 2 := 20, 3 := 10]);
    var a1, a2, a3, a4 := Take(1, 1, FOREVER), Take(2, 2, FOREVER), Take(2, 1, FOREVER), Take(3, 2, FOREVER);
    var s1 := Next(s0, a1, Prio);
    var s2 := Next(s1, a2, Prio);
    var s3 := Next(s2, a3, Prio);
    assert s3.mutexes[1] == Mutex(0, 1, 1, 30, [2]) && At(s3.prio, 1) == 20;
    var s4 := Next(s3, a4, Prio);
    assert s4.mutexes[2] == Mutex(0, 2, 1, 20, [3]);
    RunNil(s4, Prio);
    RunCons(s3, a4, [], [a4], Prio);
    RunCons(s2, a3, [a4], [a3, a4], Prio);
    RunCons(s1, a2, [a3, a4], [a2, a3, a4], Prio);
    RunCons(s0, a1, [a2, a3, a4], [a1, a2, a3, a4], Prio);
  }
}
