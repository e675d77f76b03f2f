/** Recursive mutexes with priority inheritance (ipc.c). */
module Mutex {
  import opened RingList
  import opened SortedList
  import opened WaitList

  /** Threads are positive numbers; 0 is "no owner". */
  const NONE := 0
  const NO_PRIORITY := 0xff

  datatype Mutex = Mutex(value: nat, owner: int, hold: nat, original: int, waiting: seq<int>)

  const FRESH := Mutex(1, NONE, 0, NO_PRIORITY, [])

  // ----- the critical sections -----

  /** The owner is raised to the priority of a more urgent waiter. */
  function Boost(prio: map<int, int>, owner: int, t: int): map<int, int> {
    if At(prio, t) < At(prio, owner) then prio[owner := At(prio, t)] else prio
  }

  /** Whether rt_mutex_take suspends the caller. */
  predicate Blocks(m: Mutex, t: int, time: int) {
    m.owner != t && m.value == 0 && time != 0
  }

  /** rt_mutex_take up to the suspension. The hold counter has 8 bits. */
  function TakeNext(m: Mutex, prio: map<int, int>, t: int, time: int, order: Order): Mutex {
    if m.owner == t then m.(hold := (m.hold + 1) % 256)
    else if m.value > 0 then m.(value := m.value - 1, owner := t, original := At(prio, t), hold := (m.hold + 1) % 256)
    else if time != 0 then m.(waiting := Enqueue(m.waiting, Boost(prio, m.owner, t), t, order))
    else m
  }

  function TakePrio(m: Mutex, prio: map<int, int>, t: int, time: int): map<int, int> {
    if Blocks(m, t, time) then Boost(prio, m.owner, t) else prio
  }

  /** Whether rt_mutex_release gives the mutex up. */
  predicate LastRelease(m: Mutex, t: int) {
    t == m.owner && m.hold == 1
  }

  /** rt_mutex_release. */
  function ReleaseNext(m: Mutex, prio: map<int, int>, t: int): Mutex {
    if t != m.owner then m
    else if !LastRelease(m, t) then m.(hold := (m.hold - 1) % 256)
    else if m.waiting != [] then
      m.(owner := m.waiting[0], original := At(ReleasePrio(m, prio, t), m.waiting[0]), waiting := m.waiting[1..])
    else FRESH.(value := m.value + 1)
  }

  function ReleasePrio(m: Mutex, prio: map<int, int>, t: int): map<int, int> {
    if LastRelease(m, t) && m.original != At(prio, t) then prio[t := m.original] else prio
  }

  // ----- one mutex -----

  /** The mutex is free exactly when it has no owner and is not held, and then nobody waits. */
  ghost predicate Safe(m: Mutex) {
    && m.value <= 1 && m.hold < 256
    && (m.value == 1 <==> m.owner == NONE)
    && (m.owner == NONE <==> m.hold == 0)
    && (m.value == 1 ==> m.waiting == [])
    && m.owner !in m.waiting && NONE !in m.waiting && Distinct(m.waiting)
  }

  lemma TakeSafe(m: Mutex, prio: map<int, int>, t: int, time: int, order: Order)
    requires Safe(m) && t != NONE && t !in m.waiting && (m.owner == t ==> m.hold < 255)
    ensures Safe(TakeNext(m, prio, t, time, order))
  {
    EnqueueMembers(m.waiting, Boost(prio, m.owner, t), t, order);
  }

  lemma ReleaseSafe(m: Mutex, prio: map<int, int>, t: int)
    requires Safe(m) && t != NONE
    ensures Safe(ReleaseNext(m, prio, t))
  {
    if m.waiting != [] {
      HeadTail(m.waiting);
      var w := m.waiting[0];
      assert w in m.waiting;
    }
  }

  lemma TimeoutSafe(m: Mutex, t: int)
    requires Safe(m)
    ensures Safe(m.(waiting := Without(m.waiting, t)))
  {
    WithoutMembers(m.waiting, t);
    WithoutDistinct(m.waiting, t);
    if m.waiting == [] { assert Without(m.waiting, t) == []; }
  }

  /** The recursion bound is exact: one more take overflows the counter and the mutex looks
      free while it has an owner. */
  lemma TakeSafeExactly(m: Mutex, prio: map<int, int>, time: int, order: Order)
    requires Safe(m) && m.owner != NONE
    ensures Safe(TakeNext(m, prio, m.owner, time, order)) <==> m.hold < 255
  {
  }

  // ----- many mutexes and threads -----

  /** `waits` is the mutex in whose wait list a thread is. `returning` are the threads that got
      their mutex while suspended and have not run again. `armed` are the threads whose timers
      run. `net` counts, for every thread and mutex, the successful takes minus the releases. */
  datatype State = State(mutexes: map<int, Mutex>, prio: map<int, int>, waits: map<int, int>,
                         returning: map<int, int>, armed: set<int>, net: map<(int, int), int>)

  datatype Action =
    | Take(t: int, m: int, time: int)
    | Release(t: int, m: int)
    | Timeout(t: int)
    | Return(t: int)

  function Net(s: State, t: int, m: int): int {
    if (t, m) in s.net then s.net[(t, m)] else 0
  }

  function Count(s: State, t: int, m: int, d: int): map<(int, int), int> {
    s.net[(t, m) := Net(s, t, m) + d]
  }

  /** Only a thread that is neither suspended nor about to return from a take calls, and a
      thread times out exactly when its timer runs. */
  predicate Running(s: State, t: int) {
    t != NONE && t !in s.waits && t !in s.returning
  }

  predicate Enabled(s: State, a: Action) {
    match a
    case Take(t, m, _) => Running(s, t) && m in s.mutexes && (s.mutexes[m].owner == t ==> s.mutexes[m].hold < 255)
    case Release(t, m) => Running(s, t) && m in s.mutexes
    case Timeout(t) => t in s.armed
    case Return(t) => t in s.returning
  }

  function TakeStep(s: State, t: int, m: int, time: int, order: Order): State
    requires m in s.mutexes
  {
    var x := s.mutexes[m];
    s.(mutexes := s.mutexes[m := TakeNext(x, s.prio, t, time, order)], prio := TakePrio(x, s.prio, t, time),
       waits := if Blocks(x, t, time) then s.waits[t := m] else s.waits,
       armed := if Blocks(x, t, time) then Arm(s.armed, t, time) else s.armed,
       net := if x.owner == t || x.value > 0 then Count(s, t, m, 1) else s.net)
  }

  function ReleaseStep(s: State, t: int, m: int): State
    requires m in s.mutexes
  {
    var x := s.mutexes[m];
    var net := if t == x.owner then Count(s, t, m, -1) else s.net;
    var s' := s.(mutexes := s.mutexes[m := ReleaseNext(x, s.prio, t)], prio := ReleasePrio(x, s.prio, t), net := net);
    if LastRelease(x, t) && x.waiting != [] then
      var w := x.waiting[0];
      s'.(waits := s.waits - {w}, returning := s.returning[w := m], armed := s.armed - {w},
          net := Count(s', w, m, 1))
    else s'
  }

  /** rt_thread_timeout takes the thread out of the list it is in. */
  function TimeoutStep(s: State, t: int): State {
    if t in s.waits && s.waits[t] in s.mutexes then
      var m := s.waits[t];
      var x := s.mutexes[m];
      s.(mutexes := s.mutexes[m := x.(waiting := Without(x.waiting, t))], waits := s.waits - {t},
         armed := s.armed - {t})
    else s.(armed := s.armed - {t})
  }

  function Next(s: State, a: Action, order: Order): State
    requires Enabled(s, a)
  {
    match a
    case Take(t, m, time) => TakeStep(s, t, m, time, order)
    case Release(t, m) => ReleaseStep(s, t, m)
    case Timeout(t) => TimeoutStep(s, t)
    case Return(t) => s.(returning := s.returning - {t})
  }

  /** Mutual exclusion and exact accounting, for every mutex. */
  ghost predicate Inv(s: State) {
    && (forall m :: m in s.mutexes ==> Safe(s.mutexes[m]))
    && (forall m, t :: m in s.mutexes ==> Listed(s, m, t) && Counted(s, m, t))
    && (forall t :: t in s.waits ==> s.waits[t] in s.mutexes)
    && (forall t :: t in s.armed ==> t in s.waits)
    && (forall t :: t in s.returning ==> Owned(s, t, s.returning[t]))
  }

  /** A thread is in the wait list of the mutex it waits for and in no other. */
  ghost predicate Listed(s: State, m: int, t: int)
    requires m in s.mutexes
  {
    t in s.mutexes[m].waiting <==> t in s.waits && s.waits[t] == m
  }

  /** The hold counter is the owner's takes minus its releases; nobody else has any left. */
  ghost predicate Counted(s: State, m: int, t: int)
    requires m in s.mutexes
  {
    Net(s, t, m) == if t == s.mutexes[m].owner then s.mutexes[m].hold else 0
  }

  /** A thread about to return with success owns the mutex and waits for nothing. */
  ghost predicate Owned(s: State, t: int, m: int) {
    t != NONE && t !in s.waits && m in s.mutexes && s.mutexes[m].owner == t
  }

  lemma TakeKeeps(s: State, t: int, m: int, time: int, order: Order)
    requires Inv(s) && Enabled(s, Take(t, m, time))
    ensures Inv(TakeStep(s, t, m, time, order))
    ensures var x, x' := s.mutexes[m], TakeStep(s, t, m, time, order).mutexes[m];
            x.owner == t || x.value > 0 ==> x'.owner == t
  {
    hide Safe, Enqueue;
    var s', x := TakeStep(s, t, m, time, order), s.mutexes[m];
    assert Listed(s, m, t);
    TakeSafe(x, s.prio, t, time, order);
    SafeFacts(x);
    EnqueueMembers(x.waiting, Boost(s.prio, x.owner, t), t, order);
    TakeCounts(s, t, m, time, order);
    forall n, u | n in s'.mutexes ensures Listed(s', n, u) && Counted(s', n, u) {
      assert Listed(s, n, u);
    }
    forall u | u in s'.returning ensures Owned(s', u, s'.returning[u]) {
      assert Owned(s, u, s.returning[u]);
    }
  }

  lemma TakeCounts(s: State, t: int, m: int, time: int, order: Order)
    requires Inv(s) && Enabled(s, Take(t, m, time))
    ensures var s' := TakeStep(s, t, m, time, order);
            forall n, u :: n in s'.mutexes ==> Counted(s', n, u)
  {
    hide Safe, Enqueue;
    var s', x := TakeStep(s, t, m, time, order), s.mutexes[m];
    SafeFacts(x);
    forall n, u | n in s'.mutexes ensures Counted(s', n, u) {
      assert Counted(s, n, u);
    }
  }

  lemma SafeFacts(m: Mutex)
    requires Safe(m)
    ensures m.value <= 1 && (m.value == 1 <==> m.owner == NONE) && (m.owner == NONE <==> m.hold == 0) && m.hold < 256
    ensures m.owner !in m.waiting && NONE !in m.waiting && Distinct(m.waiting)
  {
  }

  lemma ReleaseKeeps(s: State, t: int, m: int)
    requires Inv(s) && Enabled(s, Release(t, m))
    ensures Inv(ReleaseStep(s, t, m))
  {
    hide Safe;
    var s', x := ReleaseStep(s, t, m), s.mutexes[m];
    ReleaseSafe(x, s.prio, t);
    SafeFacts(x);
    ReleaseCounts(s, t, m);
    if x.waiting != [] {
      var w := x.waiting[0];
      assert w in x.waiting && Listed(s, m, w);
      HeadTail(x.waiting);
    }
    forall n, u | n in s'.mutexes ensures Listed(s', n, u) && Counted(s', n, u) {
      assert Listed(s, n, u);
    }
    forall u | u in s'.returning ensures Owned(s', u, s'.returning[u]) {
      if u in s.returning { assert Owned(s, u, s.returning[u]); }
    }
  }

  lemma ReleaseCounts(s: State, t: int, m: int)
    requires Inv(s) && Enabled(s, Release(t, m))
    ensures var s' := ReleaseStep(s, t, m);
            forall n, u :: n in s'.mutexes ==> Counted(s', n, u)
  {
    hide Safe;
    var s', x := ReleaseStep(s, t, m), s.mutexes[m];
    SafeFacts(x);
    if x.waiting != [] {
      var w := x.waiting[0];
      assert w in x.waiting && Counted(s, m, w);
    }
    forall n, u | n in s'.mutexes ensures Counted(s', n, u) {
      assert Counted(s, n, u);
    }
  }

  lemma TimeoutKeeps(s: State, t: int)
    requires Inv(s) && Enabled(s, Timeout(t))
    ensures Inv(TimeoutStep(s, t))
  {
    hide Safe, Without;
    var s', m := TimeoutStep(s, t), s.waits[t];
    var x := s.mutexes[m];
    TimeoutSafe(x, t);
    WithoutMembers(x.waiting, t);
    forall n, u | n in s'.mutexes ensures Listed(s', n, u) && Counted(s', n, u) {
      assert Listed(s, n, u) && Counted(s, n, u);
    }
    forall u | u in s'.returning ensures Owned(s', u, s'.returning[u]) {
      assert Owned(s, u, s.returning[u]);
    }
  }

  lemma NextKeeps(s: State, a: Action, order: Order)
    requires Inv(s) && Enabled(s, a)
    ensures Inv(Next(s, a, order))
  {
    match a
    case Take(t, m, time) => TakeKeeps(s, t, m, time, order);
    case Release(t, m) => ReleaseKeeps(s, t, m);
    case Timeout(t) => TimeoutKeeps(s, t);
    case Return(t) =>
      var s' := Next(s, a, order);
      forall n, u | n in s'.mutexes ensures Listed(s', n, u) && Counted(s', n, u) {
        assert Listed(s, n, u) && Counted(s, n, u);
      }
      forall u | u in s'.returning ensures Owned(s', u, s'.returning[u]) {
        assert Owned(s, u, s.returning[u]);
      }
  }

  predicate Legal(s: State, run: seq<Action>, order: Order)
    decreases |run|
  {
    run == [] || (Enabled(s, run[0]) && Legal(Next(s, run[0], order), run[1..], order))
  }

  function Run(s: State, run: seq<Action>, order: Order): State
    requires Legal(s, run, order)
    decreases |run|
  {
    if run == [] then s else Run(Next(s, run[0], order), run[1..], order)
  }

  lemma RunNil(s: State, order: Order)
    ensures Legal(s, [], order) && Run(s, [], order) == s
  {
  }

  lemma RunCons(s: State, a: Action, rest: seq<Action>, run: seq<Action>, order: Order)
    requires run == [a] + rest && Enabled(s, a) && Legal(Next(s, a, order), rest, order)
    ensures Legal(s, run, order) && Run(s, run, order) == Run(Next(s, a, order), rest, order)
  {
    assert run[1..] == rest;
  }

  /** Mutex safety in every run, with any number of mutexes, nesting and either order of the
      wait lists. The timer of a thread runs only while it waits, so a take that was granted
      does not time out as well. */
  lemma {:induction false} RunKeeps(s: State, run: seq<Action>, order: Order)
    requires Inv(s) && Legal(s, run, order)
    ensures Inv(Run(s, run, order))
    ensures Run(s, run, order).armed <= Run(s, run, order).waits.Keys
    decreases |run|
  {
    if run != [] {
      hide Inv, Next;
      NextKeeps(s, run[0], order);
      RunKeeps(Next(s, run[0], order), run[1..], order);
    } else {
      assert forall t :: t in s.armed ==> t in s.waits.Keys;
    }
  }

  /** Fresh mutexes, and nobody waiting or returning. */
  function Start(ids: set<int>, prio: map<int, int>): State {
    State(map m | m in ids :: FRESH, prio, map[], map[], {}, map[])
  }

  lemma StartInv(ids: set<int>, prio: map<int, int>)
    ensures Inv(Start(ids, prio))
  {
    var s := Start(ids, prio);
    forall n, u | n in s.mutexes ensures Listed(s, n, u) && Counted(s, n, u) {
    }
  }

  /** A suspended take that returns with success returns to the owner. */
  lemma ReturnOwns(s: State, t: int)
    requires Inv(s) && Enabled(s, Return(t))
    ensures s.returning[t] in s.mutexes && s.mutexes[s.returning[t]].owner == t
  {
    assert Owned(s, t, s.returning[t]);
  }

  // ----- the object -----

  datatype Result = Ok | Error | TimedOut | Suspended

  class Threads {
    var prio: map<int, int>
    var armed: set<int>

    /** rt_thread_control with RT_THREAD_CTRL_CHANGE_PRIORITY. */
    method ChangePriority(t: int, p: int)
      modifies this`prio
      ensures prio == old(prio)[t := p]
    {
      prio := prio[t := p];
    }

    /** rt_thread_suspend and rt_thread_resume stop the thread timer. */
    method StopTimer(t: int)
      modifies this`armed
      ensures armed == old(armed) - {t}
    {
      armed := armed - {t};
    }

    method StartTimer(t: int)
      modifies this`armed
      ensures armed == old(armed) + {t}
    {
      armed := armed + {t};
    }
  }

  class MutexObject {
    const order: Order
    var value: nat
    var owner: int
    var hold: nat
    var original: int
    var waiting: seq<int>

    ghost function View(): Mutex
      reads this
    {
      Mutex(value, owner, hold, original, waiting)
    }

    /** rt_mutex_init. */
    constructor (order: Order)
      ensures View() == FRESH && Safe(View()) && this.order == order
    {
      this.order := order;
      value, owner, hold, original, waiting := 1, NONE, 0, NO_PRIORITY, [];
    }

    /** rt_mutex_take up to the suspension. */
    method Take(t: int, time: int, threads: Threads) returns (r: Result)
      requires Safe(View()) && t != NONE && t !in waiting
      modifies this, threads
      ensures Safe(View()) <==> old(owner) != t || old(hold) < 255
      ensures View() == TakeNext(old(View()), old(threads.prio), t, time, order)
      ensures threads.prio == TakePrio(old(View()), old(threads.prio), t, time)
      ensures threads.armed == if r == Suspended then Arm(old(threads.armed), t, time) else old(threads.armed)
      ensures r == Ok <==> owner == t
      ensures r == if old(owner) == t || old(value) > 0 then Ok else if time != 0 then Suspended else TimedOut
      ensures r == Suspended ==> t in waiting && Without(waiting, t) == old(waiting)
      ensures r != Suspended ==> waiting == old(waiting)
    {
      EnqueueMembers(waiting, Boost(threads.prio, owner, t), t, order);
      EnqueueKeeps(waiting, Boost(threads.prio, owner, t), t, order);
      if owner == t {
        TakeSafeExactly(View(), threads.prio, time, order);
      } else {
        TakeSafe(View(), threads.prio, t, time, order);
      }
      hide Enqueue, Without;
      if owner == t {
        hold := (hold + 1) % 256;
      } else if value > 0 {
        value := value - 1;
        owner := t;
        original := At(threads.prio, t);
        hold := (hold + 1) % 256;
      } else if time == 0 {
        return TimedOut;
      } else {
        if At(threads.prio, t) < At(threads.prio, owner) {
          threads.ChangePriority(owner, At(threads.prio, t));
        }
        waiting := Suspend(waiting, threads.prio, t, order);
        threads.StopTimer(t);
        if time > 0 {
          threads.StartTimer(t);
        }
        return Suspended;
      }
      return Ok;
    }

    /** rt_mutex_release. */
    method Release(t: int, threads: Threads) returns (r: Result)
      requires Safe(View()) && t != NONE
      modifies this, threads
      ensures Safe(View())
      ensures View() == ReleaseNext(old(View()), old(threads.prio), t)
      ensures threads.prio == ReleasePrio(old(View()), old(threads.prio), t)
      ensures threads.armed
           == if LastRelease(old(View()), t) && old(waiting) != [] then old(threads.armed) - {old(waiting)[0]}
              else old(threads.armed)
      ensures r == if t == old(owner) then Ok else Error
    {
      ReleaseSafe(View(), threads.prio, t);
      if t != owner {
        return Error;
      }
      hold := hold - 1;
      if hold == 0 {
        if original != At(threads.prio, owner) {
          threads.ChangePriority(owner, original);
        }
        if waiting != [] {
          var next := waiting[0];
          owner := next;
          original := At(threads.prio, next);
          hold := hold + 1;
          waiting := waiting[1..];
          threads.StopTimer(next);
        } else {
          value := value + 1;
          owner := NONE;
          original := NO_PRIORITY;
        }
      }
      return Ok;
    }
  }
}
