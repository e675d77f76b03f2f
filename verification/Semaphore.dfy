/** Counting semaphores (ipc.c): the value is handed over directly to a waiting thread. */
module Semaphore {
  import opened RingList
  import opened SortedList
  import opened WaitList

  /** The value is a 16-bit field. */
  const LIMIT := 0x1_0000

  /** What happens to the calls of rt_sem_take. */
  datatype Event =
    | Took(t: int)      // the value was available
    | Refused(t: int)   // it was not, and the caller does not wait
    | Blocked(t: int)
    | Granted(t: int)   // a release resumed the caller
    | Expired(t: int)   // its timer did

  /** `armed` are the threads whose timers run. `initial`, `releases` and `log` record the past. */
  datatype State = State(value: nat, waiting: seq<int>, armed: set<int>, initial: nat, releases: nat, log: seq<Event>)

  datatype Action = Take(t: int, time: int) | Release | Timeout(t: int)

  function TakeNext(s: State, t: int, time: int, prio: map<int, int>, order: Order): State {
    if s.value > 0 then s.(value := s.value - 1, log := s.log + [Took(t)])
    else if time == 0 then s.(log := s.log + [Refused(t)])
    else
      s.(waiting := Enqueue(s.waiting, prio, t, order), armed := Arm(s.armed, t, time),
         log := s.log + [Blocked(t)])
  }

  function ReleaseNext(s: State): State {
    if s.waiting != [] then
      s.(waiting := s.waiting[1..], armed := s.armed - {s.waiting[0]}, releases := s.releases + 1,
         log := s.log + [Granted(s.waiting[0])])
    else
      s.(value := (s.value + 1) % LIMIT, releases := s.releases + 1)
  }

  function TimeoutNext(s: State, t: int): State {
    s.(waiting := Without(s.waiting, t), armed := s.armed - {t}, log := s.log + [Expired(t)])
  }

  function Next(s: State, a: Action, prio: map<int, int>, order: Order): State {
    match a
    case Take(t, time) => TakeNext(s, t, time, prio, order)
    case Release => ReleaseNext(s)
    case Timeout(t) => TimeoutNext(s, t)
  }

  /** A suspended thread calls nothing, a thread times out exactly when its timer runs, and
      the counter does not overflow. */
  predicate Enabled(s: State, a: Action) {
    match a
    case Take(t, _) => t !in s.waiting
    case Release => s.waiting == [] ==> s.value + 1 < LIMIT
    case Timeout(t) => t in s.armed
  }

  // ----- what holds in every run -----

  /** Calls that got the semaphore. */
  function Takes(log: seq<Event>): nat {
    if log == [] then 0
    else Takes(log[..|log| - 1]) + if log[|log| - 1].Took? || log[|log| - 1].Granted? then 1 else 0
  }

  lemma TakesAdd(log: seq<Event>, e: Event)
    ensures Takes(log + [e]) == Takes(log) + if e.Took? || e.Granted? then 1 else 0
  {
    assert (log + [e])[..|log|] == log;
  }

  /** What one thread is doing, read off the log. `Broken` is a call that ends without having
      begun, ends twice, or begins inside another one. */
  datatype Phase = Idle | Waiting | Broken

  function Step(p: Phase, e: Event, t: int): Phase {
    if e.t != t then p
    else
      match e
      case Took(_) => if p == Idle then Idle else Broken
      case Refused(_) => if p == Idle then Idle else Broken
      case Blocked(_) => if p == Idle then Waiting else Broken
      case Granted(_) => if p == Waiting then Idle else Broken
      case Expired(_) => if p == Waiting then Idle else Broken
  }

  function PhaseOf(log: seq<Event>, t: int): Phase {
    if log == [] then Idle else Step(PhaseOf(log[..|log| - 1], t), log[|log| - 1], t)
  }

  lemma PhaseAdd(log: seq<Event>, e: Event, t: int)
    ensures PhaseOf(log + [e], t) == Step(PhaseOf(log, t), e, t)
  {
    assert (log + [e])[..|log|] == log;
  }

  /** Conservation, no waiting while the value is positive, timers run only for waiting threads,
      and every blocked call ends exactly once, by a grant or by a timeout. */
  ghost predicate Inv(s: State) {
    && s.value < LIMIT
    && s.initial + s.releases == s.value + Takes(s.log)
    && (s.value > 0 ==> s.waiting == [])
    && Distinct(s.waiting)
    && (forall t :: t in s.armed ==> t in s.waiting)
    && forall t :: PhaseIs(s, t)
  }

  ghost predicate PhaseIs(s: State, t: int) {
    PhaseOf(s.log, t) == if t in s.waiting then Waiting else Idle
  }

  lemma NextKeeps(s: State, a: Action, prio: map<int, int>, order: Order)
    requires Inv(s) && Enabled(s, a)
    ensures Inv(Next(s, a, prio, order))
  {
    hide PhaseOf, Takes, Enqueue, Without;
    var s' := Next(s, a, prio, order);
    if |s'.log| > |s.log| {
      var e := s'.log[|s.log|];
      assert s'.log == s.log + [e];
      TakesAdd(s.log, e);
      match a {
        case Take(t, time) => EnqueueMembers(s.waiting, prio, t, order);
        case Release => HeadTail(s.waiting);
        case Timeout(t) =>
          WithoutMembers(s.waiting, t);
          WithoutDistinct(s.waiting, t);
      }
      forall t ensures PhaseIs(s', t) {
        assert PhaseIs(s, t);
        PhaseAdd(s.log, e, t);
      }
    } else {
      forall t ensures PhaseIs(s', t) {
        assert PhaseIs(s, t);
      }
    }
  }

  /** rt_sem_take: one less, or the caller waits, or nothing. */
  lemma TakeEffect(s: State, t: int, time: int, prio: map<int, int>, order: Order)
    requires Inv(s) && t !in s.waiting
    ensures var s' := TakeNext(s, t, time, prio, order);
            if s.value > 0 then s'.value == s.value - 1 && s'.waiting == s.waiting && s'.armed == s.armed
            else if time == 0 then s'.value == s.value && s'.waiting == s.waiting && s'.armed == s.armed
            else
              && s'.value == s.value && t in s'.waiting && Without(s'.waiting, t) == s.waiting
              && (t in s'.armed <==> time > 0) && s'.armed - {t} == s.armed - {t}
  {
    EnqueueMembers(s.waiting, prio, t, order);
    EnqueueKeeps(s.waiting, prio, t, order);
  }

  /** The bound on the value is needed: a release keeps the balance exactly when the counter
      does not wrap around. */
  lemma ReleaseBalances(s: State)
    requires Inv(s)
    ensures s.initial + ReleaseNext(s).releases == ReleaseNext(s).value + Takes(ReleaseNext(s).log)
       <==> Enabled(s, Release)
  {
    if s.waiting != [] { TakesAdd(s.log, Granted(s.waiting[0])); }
  }

  lemma Unbalanced(s: State)
    requires s.initial + s.releases != s.value + Takes(s.log)
    ensures !Inv(s)
  {
  }

  datatype Turn = Turn(a: Action, prio: map<int, int>)

  function Run(s: State, run: seq<Turn>, order: Order): State
    decreases |run|
  {
    if run == [] then s else Run(Next(s, run[0].a, run[0].prio, order), run[1..], order)
  }

  predicate Legal(s: State, run: seq<Turn>, order: Order)
    decreases |run|
  {
    run == [] || (Enabled(s, run[0].a) && Legal(Next(s, run[0].a, run[0].prio, order), run[1..], order))
  }

  lemma {:induction false} RunKeeps(s: State, run: seq<Turn>, order: Order)
    requires Inv(s) && Legal(s, run, order)
    ensures var r := Run(s, run, order);
            && Inv(r)
            && r.initial + r.releases == r.value + Takes(r.log)
            && (r.value > 0 ==> r.waiting == [])
            && (forall t :: t in r.armed ==> t in r.waiting)
            && forall t :: PhaseOf(r.log, t) == if t in r.waiting then Waiting else Idle
    decreases |run|
  {
    hide PhaseOf, Takes, Next;
    if run != [] {
      NextKeeps(s, run[0].a, run[0].prio, order);
      RunKeeps(Next(s, run[0].a, run[0].prio, order), run[1..], order);
    } else {
      forall t ensures PhaseOf(s.log, t) == if t in s.waiting then Waiting else Idle {
        assert PhaseIs(s, t);
      }
    }
  }

  // ----- the object -----

  datatype Result = Ok | TimedOut | Suspended

  class SemaphoreObject {
    const order: Order
    var value: nat
    var waiting: seq<int>
    var armed: set<int>
    ghost var spec: State

    ghost predicate Tied()
      reads this
    {
      spec.value == value && spec.waiting == waiting && spec.armed == armed
    }

    ghost predicate Valid()
      reads this
    {
      Tied() && Inv(spec)
    }

    /** rt_sem_init. */
    constructor (value: nat, order: Order)
      requires value < LIMIT
      ensures Valid() && spec == State(value, [], {}, value, 0, [])
      ensures this.order == order
    {
      this.order := order;
      this.value, waiting, armed := value, [], {};
      ghost var s := State(value, [], {}, value, 0, []);
      forall t ensures PhaseIs(s, t) {
      }
      spec := s;
    }

    /** rt_sem_take up to the suspension. */
    method Take(t: int, time: int, prio: map<int, int>) returns (r: Result)
      requires Valid() && t !in waiting
      modifies this
      ensures Valid() && spec == TakeNext(old(spec), t, time, prio, order)
      ensures r == if old(value) > 0 then Ok else if time != 0 then Suspended else TimedOut
      ensures value == if r == Ok then old(value) - 1 else old(value)
      ensures r == Suspended ==> t in waiting && Without(waiting, t) == old(waiting) && (t in armed <==> time > 0)
      ensures r != Suspended ==> waiting == old(waiting) && armed == old(armed)
    {
      hide Inv, Enqueue, Without;
      TakeEffect(spec, t, time, prio, order);
      NextKeeps(spec, Action.Take(t, time), prio, order);
      spec := TakeNext(spec, t, time, prio, order);
      if value > 0 {
        value := value - 1;
        return Ok;
      } else if time == 0 {
        return TimedOut;
      }
      waiting := Suspend(waiting, prio, t, order);
      armed := armed - {t};
      if time > 0 {
        armed := armed + {t};
      }
      return Suspended;
    }

    /** rt_sem_release. */
    method Release() returns (resumed: bool)
      requires Valid()
      modifies this
      ensures Tied() && spec == ReleaseNext(old(spec))
      ensures Inv(spec) <==> old(waiting) != [] || old(value) + 1 < LIMIT
      ensures resumed <==> old(waiting) != []
      ensures resumed ==> value == old(value) && old(waiting) == [old(waiting)[0]] + waiting
                          && armed == old(armed) - {old(waiting)[0]}
      ensures !resumed ==> waiting == old(waiting) && armed == old(armed)
                           && (old(value) + 1 < LIMIT ==> value == old(value) + 1)
    {
      hide Inv, Takes;
      ReleaseBalances(spec);
      if Enabled(spec, Action.Release) {
        NextKeeps(spec, Action.Release, map[], order);
      } else {
        Unbalanced(ReleaseNext(spec));
      }
      spec := ReleaseNext(spec);
      if waiting != [] {
        armed := armed - {waiting[0]};
        waiting := waiting[1..];
        return true;
      }
      value := (value + 1) % LIMIT;
      return false;
    }

    /** rt_thread_timeout, when the timer of the thread expires. */
    method Timeout(t: int)
      requires Valid() && t in armed
      modifies this
      ensures t in old(waiting)
      ensures Valid() && spec == TimeoutNext(old(spec), t)
    {
      assert t in waiting;
      hide Inv;
      NextKeeps(spec, Action.Timeout(t), map[], order);
      spec := TimeoutNext(spec, t);
      armed := armed - {t};
      waiting := Without(waiting, t);
    }
  }
}
