/** When timers fire, told from the calls of a run. */
module TimerRuns {
  import opened SortedList
  import opened TimerSpec

  lemma RunCons(s: State, a: Action, rest: seq<Action>, x: int)
    requires Inv(s) && Settled(s) && Legal(s, [a] + rest)
    ensures Allowed(s, a) && Inv(Next(s, a).state) && Settled(Next(s, a).state) && Legal(Next(s, a).state, rest)
    ensures FiresIn(s, [a] + rest, x) <==> x in Next(s, a).fired || FiresIn(Next(s, a).state, rest, x)
  {
    hide Inv, Settled, Next;
    NextKeeps(s, a);
    assert ([a] + rest)[0] == a && ([a] + rest)[1..] == rest;
  }

  /** The settings of a timer are what they were set to last. */
  lemma SettingsEffect(s: State, x: int, n: nat, on: bool)
    requires Inv(s) && Settled(s)
    ensures var s' := Next(s, SetTime(x, n)).state; At(s'.init, x) == n && s' == s.(init := s'.init)
    ensures var s' := Next(s, SetPeriodic(x, on)).state;
            (x in s'.periodic <==> on) && s'.periodic - {x} == s.periodic - {x} && s' == s.(periodic := s'.periodic)
  {
  }

  /** A timer that is set to n ticks, started and then left alone fires after exactly n ticks; at
      the next tick if n is 0. */
  lemma FiresAfterPeriod(s: State, x: int, n: nat, rest: seq<Action>)
    requires Inv(s) && Settled(s) && Legal(s, [SetTime(x, n)] + ([Begin(x)] + rest))
    requires forall i :: 0 <= i < |rest| ==> Spares(rest[i], x)
    ensures FiresIn(s, [SetTime(x, n)] + ([Begin(x)] + rest), x) <==> Ticks(rest) >= if n == 0 then 1 else n
  {
    RunCons(s, SetTime(x, n), [Begin(x)] + rest, x);
    var s1 := Next(s, SetTime(x, n)).state;
    RunCons(s1, Begin(x), rest, x);
    StartKeeps(s1, x);
    FiresOnTime(Next(s1, Begin(x)).state, rest, x);
  }

  /** The run does not start x. */
  predicate Unstarted(run: seq<Action>, x: int) {
    forall i :: 0 <= i < |run| ==> run[i] != Begin(x)
  }

  lemma StaysOut(s: State, a: Action, x: int)
    requires Inv(s) && Settled(s) && Allowed(s, a) && a != Begin(x) && x !in s.pending
    ensures x !in Next(s, a).fired && x !in Next(s, a).state.pending
  {
    hide Without;
    match a
    case Begin(y) => StartKeeps(s, y);
    case End(y) => WithoutMembers(s.pending, y);
    case SetTime(_, _) =>
    case SetPeriodic(_, _) =>
    case Tick(cb) => CheckLeaves(s.(now := s.now + 1), cb, x);
  }

  lemma {:induction false} NotPending(s: State, run: seq<Action>, x: int)
    requires Inv(s) && Settled(s) && Legal(s, run) && Unstarted(run, x) && x !in s.pending
    ensures !FiresIn(s, run, x)
    decreases |run|
  {
    hide Inv, Settled, Next;
    if run != [] {
      NextKeeps(s, run[0]);
      StaysOut(s, run[0], x);
      NotPending(Next(s, run[0]).state, run[1..], x);
    }
  }

  /** A timer that was stopped does not fire before it is started again, however close it was. */
  lemma StoppedNeverFires(s: State, x: int, rest: seq<Action>)
    requires Inv(s) && Settled(s) && Legal(s, [End(x)] + rest) && Unstarted(rest, x)
    ensures !FiresIn(s, [End(x)] + rest, x)
  {
    RunCons(s, End(x), rest, x);
    WithoutMembers(s.pending, x);
    assert x !in Next(s, End(x)).state.pending;
    NotPending(Next(s, End(x)).state, rest, x);
  }

  /** What a tick does to a timer that fires. */
  lemma TickRearms(s: State, x: int, cb: Callbacks)
    requires Inv(s) && Settled(s) && x in s.pending
    ensures var r := Next(s, Tick(cb));
            && r.state.now == s.now + 1
            && (x !in s.periodic && x in r.fired ==> x !in r.state.pending)
            && (x in s.periodic && At(s.due, x) <= s.now + 1 && (forall y :: x !in Stops(cb, y)) ==>
                  x in r.fired && x in r.state.pending && At(r.state.due, x) == s.now + 1 + At(s.init, x))
  {
    var t := s.(now := s.now + 1);
    TickNear(s);
    CheckLeaves(t, cb, x);
    CheckRearms(t, cb);
    hide Inv, Check;
    if x in s.periodic && At(s.due, x) <= s.now + 1 && forall y :: x !in Stops(cb, y) {
      TickFires(t, cb, x);
      FiredAndUnstopped(Check(t, cb).fired, cb, x);
    }
  }

  lemma FiredAndUnstopped(fired: seq<int>, cb: Callbacks, x: int)
    requires x in fired && forall y :: x !in Stops(cb, y)
    ensures FiredAndLeft(fired, cb, x)
  {
    var i :| 0 <= i < |fired| && fired[i] == x;
  }

  lemma PeriodPositive(s: State, x: int)
    requires Inv(s) && x in s.periodic
    ensures At(s.init, x) >= 1
  {
  }

  /** A periodic timer that no callback stops fires again exactly one period after it fired. */
  lemma FiresEveryPeriod(s: State, x: int, cb: Callbacks, rest: seq<Action>)
    requires Inv(s) && Settled(s) && Legal(s, [Tick(cb)] + rest)
    requires x in s.pending && x in s.periodic && At(s.due, x) <= s.now + 1
    requires (forall y :: x !in Stops(cb, y)) && forall i :: 0 <= i < |rest| ==> Spares(rest[i], x)
    ensures x in Next(s, Tick(cb)).fired && Inv(Next(s, Tick(cb)).state) && Settled(Next(s, Tick(cb)).state)
    ensures Legal(Next(s, Tick(cb)).state, rest)
    ensures FiresIn(Next(s, Tick(cb)).state, rest, x) <==> Ticks(rest) >= At(s.init, x)
  {
    hide Inv, Settled, Next, Spares;
    RunCons(s, Tick(cb), rest, x);
    TickRearms(s, x, cb);
    PeriodPositive(s, x);
    FiresOnTime(Next(s, Tick(cb)).state, rest, x);
  }

  /** A timer that is not periodic fires at most once after it was started. */
  lemma OneShot(s: State, x: int, cb: Callbacks, rest: seq<Action>)
    requires Inv(s) && Settled(s) && Legal(s, [Tick(cb)] + rest) && Unstarted(rest, x)
    requires x in s.pending && x !in s.periodic && x in Next(s, Tick(cb)).fired
    ensures Inv(Next(s, Tick(cb)).state) && Settled(Next(s, Tick(cb)).state) && Legal(Next(s, Tick(cb)).state, rest)
    ensures !FiresIn(Next(s, Tick(cb)).state, rest, x)
  {
    hide Inv, Settled, Next;
    RunCons(s, Tick(cb), rest, x);
    TickRearms(s, x, cb);
    NotPending(Next(s, Tick(cb)).state, rest, x);
  }
}
