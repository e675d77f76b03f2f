/** Timers as one sorted list on unbounded time. This is the reference that the wrap-around
    skip list of timer.c is proved to implement, and where the whole-run properties live. */
module TimerSpec {
  import opened RingList
  import opened SortedList

  /** RT_TICK_MAX / 2. */
  const HALF := 0x7fff_ffff

  /** Timers are numbers. `pending` holds the started timers in firing order, `due` the time
      each one is due, `init` the period, `active` the RT_TIMER_FLAG_ACTIVATED flags. */
  datatype State = State(now: nat, pending: seq<int>, due: map<int, int>, init: map<int, int>,
                         periodic: set<int>, active: set<int>)

  /** The timers that the callback of each timer stops, in that order. */
  type Callbacks = map<int, seq<int>>

  function Stops(cb: Callbacks, x: int): seq<int> {
    if x in cb then cb[x] else []
  }

  // ----- operations -----

  /** rt_timer_start. */
  function Start(s: State, x: int): State {
    var due := s.due[x := s.now + At(s.init, x)];
    s.(pending := PlainInsert(Without(s.pending, x), due, x), due := due, active := s.active + {x})
  }

  /** rt_timer_stop. */
  function Stop(s: State, x: int): State {
    if x !in s.active then s else s.(pending := Without(s.pending, x), active := s.active - {x})
  }

  /** The first critical section of rt_timer_start. */
  function Detached(s: State, x: int): State {
    s.(pending := Without(s.pending, x), active := s.active - {x})
  }

  function StopAll(s: State, xs: seq<int>): State
    decreases |xs|
  {
    if xs == [] then s else StopAll(Stop(s, xs[0]), xs[1..])
  }

  /** One round of the loop of rt_timer_check: the first timer is taken out, its callback
      runs, and it is started again if it is periodic and still active. */
  function Fire(s: State, cb: Callbacks): State
    requires s.pending != []
  {
    var x := s.pending[0];
    var s' := StopAll(s.(pending := s.pending[1..]), Stops(cb, x));
    var idle := s'.(active := s'.active - {x});
    if x in s'.periodic && x in s'.active then Start(idle, x) else idle
  }

  // ----- invariants -----

  ghost predicate Listed(s: State) {
    Distinct(s.pending) && Sorted(s.pending, s.due)
  }

  /** Every pending timer is due within the half range of the tick counter. */
  ghost predicate Near(s: State) {
    forall x :: x in s.pending ==> s.now - 1 <= At(s.due, x) < s.now + HALF
  }

  ghost predicate Periods(s: State) {
    && (forall x :: 0 <= At(s.init, x) < HALF)
    && (forall x :: x in s.periodic ==> At(s.init, x) >= 1)
  }

  ghost predicate Flagged(s: State) {
    forall x :: x in s.pending <==> x in s.active
  }

  ghost predicate Inv(s: State) {
    Listed(s) && Flagged(s) && Near(s) && Periods(s)
  }

  /** No pending timer is overdue. */
  ghost predicate Settled(s: State) {
    forall x :: x in s.pending ==> s.now <= At(s.due, x)
  }

  lemma StartListed(s: State, x: int)
    requires Listed(s) && forall y :: y != x ==> (y in s.pending <==> y in s.active)
    ensures Listed(Start(s, x)) && Flagged(Start(s, x))
    ensures forall y :: y in Start(s, x).pending <==> y in s.pending || y == x
  {
    hide Without, PlainInsert, Sorted, Distinct;
    var r, due := Without(s.pending, x), s.due[x := s.now + At(s.init, x)];
    WithoutMembers(s.pending, x);
    WithoutListed(s.pending, s.due, x);
    SameKeys(r, s.due, due, 0);
    PlainInsertSorted(r, due, x);
    PlainInsertDistinct(r, due, x);
    PlainInsertMembers(r, due, x);
  }

  /** rt_timer_start is its first critical section, which stops the timer, and a start of a timer
      that is not pending. */
  lemma StartParts(s: State, x: int)
    requires Listed(s) && Near(s) && Periods(s)
    ensures var d := Detached(s, x);
            && x !in d.pending && Listed(d) && Near(d) && Periods(d)
            && Start(d, x) == Start(s, x)
            && (Flagged(s) ==> d == Stop(s, x))
  {
    hide PlainInsert, Sorted, Distinct;
    WithoutMembers(s.pending, x);
    WithoutListed(s.pending, s.due, x);
    WithoutAbsent(Without(s.pending, x), x);
    if x !in s.pending { WithoutAbsent(s.pending, x); }
    assert s.active - {x} + {x} == s.active + {x};
    if x !in s.active { assert s.active - {x} == s.active; }
    hide Without;
  }

  lemma StartKeeps(s: State, x: int)
    requires Listed(s) && Near(s) && Periods(s) && forall y :: y != x ==> (y in s.pending <==> y in s.active)
    ensures Inv(Start(s, x)) && (Settled(s) ==> Settled(Start(s, x)))
    ensures forall y :: y in Start(s, x).pending <==> y in s.pending || y == x
  {
    hide Without, PlainInsert, Sorted, Distinct;
    StartListed(s, x);
  }

  lemma WithoutListed(s: seq<int>, due: map<int, int>, x: int)
    requires Distinct(s) && Sorted(s, due)
    ensures Distinct(Without(s, x)) && Sorted(Without(s, x), due)
  {
    KeepSorted(s, Elems(s) - {x}, due);
    KeepDistinct(s, Elems(s) - {x});
  }

  function Drop(s: seq<int>, xs: seq<int>): seq<int> {
    Keep(s, Elems(s) - Elems(xs))
  }

  lemma DropMembers(s: seq<int>, xs: seq<int>)
    ensures forall x :: x in Drop(s, xs) <==> x in s && x !in xs
  {
    KeepMembers(s, Elems(s) - Elems(xs));
  }

  /** Stopping several timers drops them from the list. */
  lemma {:induction false} StopAllDrops(s: State, xs: seq<int>)
    requires forall x :: x in s.pending ==> x in s.active
    ensures StopAll(s, xs) == s.(pending := Drop(s.pending, xs), active := s.active - Elems(xs))
    decreases |xs|
  {
    if xs == [] {
      KeepAll(s.pending, Elems(s.pending) - Elems(xs));
      assert s.active - Elems(xs) == s.active;
    } else {
      var x := xs[0];
      StopOne(s, x);
      WithoutMembers(s.pending, x);
      StopAllDrops(Stop(s, x), xs[1..]);
      DropMore(s.pending, xs);
      assert s.active - {x} - Elems(xs[1..]) == s.active - Elems(xs);
    }
  }

  lemma StopOne(s: State, x: int)
    requires forall x :: x in s.pending ==> x in s.active
    ensures Stop(s, x) == s.(pending := Without(s.pending, x), active := s.active - {x})
  {
    if x !in s.active {
      WithoutAbsent(s.pending, x);
      assert s.active - {x} == s.active;
    }
  }

  lemma DropMore(p: seq<int>, xs: seq<int>)
    requires xs != []
    ensures Drop(Without(p, xs[0]), xs[1..]) == Drop(p, xs)
  {
    var r, x := Without(p, xs[0]), xs[0];
    WithoutMembers(p, x);
    KeepKeep(p, Elems(p) - {x}, Elems(r) - Elems(xs[1..]));
    KeepSame(p, (Elems(p) - {x}) * (Elems(r) - Elems(xs[1..])), Elems(p) - Elems(xs));
  }

  /** The timers that are due now: the front of the list. */
  function Due(s: State): (r: seq<int>)
    requires Upper(s.pending, s.due, s.now) <= |s.pending|
  {
    s.pending[..Upper(s.pending, s.due, s.now)]
  }

  /** A timer inserted with a later time does not move the timers due at time t. */
  lemma InsertLater(s: seq<int>, due: map<int, int>, x: int, t: int)
    requires Sorted(s, due) && At(due, x) > t
    ensures var p := Upper(s, due, t);
            && p <= |s| && Upper(PlainInsert(s, due, x), due, t) == p
            && p <= |PlainInsert(s, due, x)| && PlainInsert(s, due, x)[..p] == s[..p]
  {
    hide PlainInsert, Upper;
    var p, q := Upper(s, due, t), Upper(s, due, At(due, x));
    PlainInsertAt(s, due, x);
    UpperBounds(s, due, t);
    UpperBounds(s, due, At(due, x));
    UpperBeyond(s, due, t);
    if q < p { assert false; }
    var r := InsertAt(s, q, x);
    UpperUnique(r, due, t, p);
  }

  /** What one round of the loop does. */
  lemma FireFacts(s: State, cb: Callbacks)
    requires Inv(s) && s.pending != [] && At(s.due, s.pending[0]) <= s.now
    ensures Inv(Fire(s, cb))
    ensures var x, s' := s.pending[0], Fire(s, cb);
            var rest, again := Drop(s.pending[1..], Stops(cb, x)), x in s.periodic && x !in Stops(cb, x);
            && s' == s.(pending := if again then PlainInsert(rest, s'.due, x) else rest,
                        due := if again then s.due[x := s.now + At(s.init, x)] else s.due,
                        active := s'.active)
            && (forall y :: y in s'.pending <==> y in rest || (again && y == x))
            && x !in rest
            && Upper(s.pending, s.due, s.now) <= |s.pending|
            && Upper(s'.pending, s'.due, s.now) <= |s'.pending|
            && Upper(s'.pending, s'.due, s.now) < Upper(s.pending, s.due, s.now)
            && Due(s') == Drop(Due(s)[1..], Stops(cb, x))
  {
    hide Upper, PlainInsert, Drop, Sorted, Distinct, StopAll, Without;
    var x, xs := s.pending[0], Stops(cb, s.pending[0]);
    var tail := s.pending[1..];
    var rest := Drop(tail, xs);
    var s1 := s.(pending := tail);
    TailOrder(s.pending, s.due);
    StopAllDrops(s1, xs);
    var s2 := StopAll(s1, xs);
    var idle := s2.(active := s2.active - {x});
    DropMembers(tail, xs);
    DropListed(tail, s.due, xs);
    DuePart(s, xs);
    if x in s2.periodic && x in s2.active {
      WithoutAbsent(rest, x);
      StartKeeps(idle, x);
      var due := s.due[x := s.now + At(s.init, x)];
      SameKeys(rest, s.due, due, s.now);
      InsertLater(rest, due, x, s.now);
    }
  }

  /** The state in which a fired timer is started again. */
  lemma MidFacts(s: State, xs: seq<int>)
    requires Inv(s) && s.pending != []
    ensures var m := StopAll(s.(pending := s.pending[1..]), xs);
            var idle := m.(active := m.active - {s.pending[0]});
            Listed(idle) && Near(idle) && Periods(idle)
  {
    hide Drop, Sorted, Distinct, StopAll;
    var tail := s.pending[1..];
    TailOrder(s.pending, s.due);
    StopAllDrops(s.(pending := tail), xs);
    DropMembers(tail, xs);
    DropListed(tail, s.due, xs);
  }

  lemma TailOrder(s: seq<int>, due: map<int, int>)
    requires Distinct(s) && Sorted(s, due) && s != []
    ensures Distinct(s[1..]) && Sorted(s[1..], due) && s[0] !in s[1..]
    ensures forall y :: y in s <==> y == s[0] || y in s[1..]
  {
    assert s == [s[0]] + s[1..];
  }

  lemma DropListed(s: seq<int>, due: map<int, int>, xs: seq<int>)
    requires Distinct(s) && Sorted(s, due)
    ensures Distinct(Drop(s, xs)) && Sorted(Drop(s, xs), due)
  {
    KeepSorted(s, Elems(s) - Elems(xs), due);
    KeepDistinct(s, Elems(s) - Elems(xs));
  }

  lemma DuePart(s: State, xs: seq<int>)
    requires Listed(s) && s.pending != [] && At(s.due, s.pending[0]) <= s.now
    ensures var rest, n := Drop(s.pending[1..], xs), Upper(s.pending, s.due, s.now);
            && 0 < n <= |s.pending|
            && Upper(rest, s.due, s.now) < n
            && Upper(rest, s.due, s.now) <= |rest|
            && rest[..Upper(rest, s.due, s.now)] == Drop(s.pending[..n][1..], xs)
  {
    var tail := s.pending[1..];
    var h, m := Elems(tail) - Elems(xs), Upper(tail, s.due, s.now);
    UpperBounds(s.pending, s.due, s.now);
    UpperOfPart(tail, h, s.due, s.now);
    KeepShorter(tail[..m], h);
    assert s.pending[..m + 1][1..] == tail[..m];
    KeepSame(tail[..m], h, Elems(tail[..m]) - Elems(xs));
  }

  lemma {:induction false} KeepShorter(s: seq<int>, h: set<int>)
    ensures |Keep(s, h)| <= |s|
  {
    if s != [] { KeepShorter(s[1..], h); }
  }

  // ----- rt_timer_check -----

  datatype Outcome = Outcome(state: State, fired: seq<int>)

  /** rt_timer_check: it ends because the number of due timers falls. */
  function Check(s: State, cb: Callbacks): Outcome
    requires Inv(s)
    decreases Upper(s.pending, s.due, s.now)
  {
    if s.pending == [] || At(s.due, s.pending[0]) > s.now then Outcome(s, [])
    else
      FireFacts(s, cb);
      var r := Check(Fire(s, cb), cb);
      Outcome(r.state, [s.pending[0]] + r.fired)
  }

  lemma CheckStep(s: State, cb: Callbacks)
    requires Inv(s) && s.pending != [] && At(s.due, s.pending[0]) <= s.now
    ensures Inv(Fire(s, cb))
    ensures Upper(Fire(s, cb).pending, Fire(s, cb).due, Fire(s, cb).now) < Upper(s.pending, s.due, s.now)
    ensures Check(s, cb) == Outcome(Check(Fire(s, cb), cb).state, [s.pending[0]] + Check(Fire(s, cb), cb).fired)
  {
    hide Inv, Fire, Upper;
    FireFacts(s, cb);
  }

  lemma CheckDone(s: State, cb: Callbacks)
    requires Inv(s) && (s.pending == [] || At(s.due, s.pending[0]) > s.now)
    ensures Check(s, cb) == Outcome(s, [])
  {
  }

  /** The timers that fire: the due ones in order, except those that an earlier callback
      stopped. */
  function Fired(due: seq<int>, cb: Callbacks): seq<int>
    decreases |due|
  {
    if due == [] then []
    else
      var rest := Drop(due[1..], Stops(cb, due[0]));
      KeepShorter(due[1..], Elems(due[1..]) - Elems(Stops(cb, due[0])));
      [due[0]] + Fired(rest, cb)
  }

  /** x is stopped by the callback of one of these timers. */
  ghost predicate StoppedBy(fired: seq<int>, cb: Callbacks, x: int) {
    exists i :: 0 <= i < |fired| && x in Stops(cb, fired[i])
  }

  /** x fired, and neither its own callback nor a later one stopped it. */
  ghost predicate FiredAndLeft(fired: seq<int>, cb: Callbacks, x: int) {
    fired != [] && if fired[0] == x then !StoppedBy(fired, cb, x) else FiredAndLeft(fired[1..], cb, x)
  }

  lemma {:induction false} CheckFires(s: State, cb: Callbacks)
    requires Inv(s)
    ensures Upper(s.pending, s.due, s.now) <= |s.pending|
    ensures Check(s, cb).fired == Fired(Due(s), cb)
    decreases Upper(s.pending, s.due, s.now)
  {
    UpperBounds(s.pending, s.due, s.now);
    if s.pending != [] && At(s.due, s.pending[0]) <= s.now {
      FireFacts(s, cb);
      CheckFires(Fire(s, cb), cb);
      assert Due(s)[0] == s.pending[0];
    }
  }

  lemma {:induction false} FiredAreDue(d: seq<int>, cb: Callbacks)
    requires Distinct(d)
    ensures forall x :: x in Fired(d, cb) ==> x in d
    ensures Distinct(Fired(d, cb))
    ensures Fired(d, cb) == Keep(d, Elems(Fired(d, cb)))
    decreases |d|
  {
    if d != [] {
      var x, xs, tail := d[0], Stops(cb, d[0]), d[1..];
      var h := Elems(tail) - Elems(xs);
      var rest := Drop(tail, xs);
      KeepShorter(tail, h);
      KeepDistinct(tail, h);
      DropMembers(tail, xs);
      FiredAreDue(rest, cb);
      var f := Fired(rest, cb);
      assert Fired(d, cb) == [x] + f && x !in tail;
      KeepKeep(tail, h, Elems(f));
      KeepSame(tail, h * Elems(f), Elems([x] + f));
    }
  }

  /** A due timer fires unless the callback of an earlier one stops it. */
  lemma {:induction false} UnstoppedFire(d: seq<int>, cb: Callbacks, x: int)
    requires Distinct(d) && x in d && (forall y :: y in d && y != x ==> x !in Stops(cb, y))
    ensures x in Fired(d, cb)
    decreases |d|
  {
    if x != d[0] {
      var tail, xs := d[1..], Stops(cb, d[0]);
      KeepShorter(tail, Elems(tail) - Elems(xs));
      KeepDistinct(tail, Elems(tail) - Elems(xs));
      DropMembers(tail, xs);
      var y := d[0];
      assert y in d && y != x;
      UnstoppedFire(Drop(tail, xs), cb, x);
    }
  }

  /** With callbacks that stop nothing, exactly the due timers fire, in list order. */
  lemma {:induction false} AllDueFire(d: seq<int>, cb: Callbacks)
    requires forall x :: Stops(cb, x) == []
    ensures Fired(d, cb) == d
  {
    if d != [] {
      KeepAll(d[1..], Elems(d[1..]) - Elems(Stops(cb, d[0])));
      AllDueFire(d[1..], cb);
    }
  }

  /** Everything else that rt_timer_check promises: nothing due is left, the clock and the
      settings stay, the timers that did not fire keep their times, the ones started again
      are due one period from now, and the pending timers at the end are exactly the
      unstopped ones that were not due and the periodic ones that fired and were not stopped
      from then on. */
  lemma {:induction false} CheckRearms(s: State, cb: Callbacks)
    requires Inv(s)
    ensures var r := Check(s, cb).state;
            && Inv(r) && Settled(r)
            && r == s.(pending := r.pending, due := r.due, active := r.active)
            && (forall x :: x in r.pending ==> s.now < At(r.due, x))
    decreases Upper(s.pending, s.due, s.now)
  {
    if s.pending != [] && At(s.due, s.pending[0]) <= s.now {
      FireFacts(s, cb);
      CheckRearms(Fire(s, cb), cb);
    } else {
      UpperBeyond(s.pending, s.due, s.now);
      forall x | x in s.pending ensures s.now < At(s.due, x) {
        var i :| 0 <= i < |s.pending| && s.pending[i] == x;
      }
    }
  }

  /** Which timers are pending at the end. */
  ghost predicate LeftPending(s: State, fired: seq<int>, cb: Callbacks, x: int) {
    if x in fired then x in s.periodic && FiredAndLeft(fired, cb, x)
    else x in s.pending && !StoppedBy(fired, cb, x)
  }

  lemma {:induction false} CheckLeaves(s: State, cb: Callbacks, x: int)
    requires Inv(s)
    ensures var r := Check(s, cb);
            && (x in r.state.pending <==> LeftPending(s, r.fired, cb, x))
            && (x in r.fired ==> x in s.pending && At(s.due, x) <= s.now)
            && (x in r.fired && x in r.state.pending ==> At(r.state.due, x) == s.now + At(s.init, x))
            && (x !in r.fired ==> At(r.state.due, x) == At(s.due, x))
            && (x in s.pending && At(s.due, x) > s.now ==> x !in r.fired)
    decreases Upper(s.pending, s.due, s.now)
  {
    if s.pending != [] && At(s.due, s.pending[0]) <= s.now {
      hide Fire, Inv, Drop, Upper, PlainInsert, FiredAndLeft, StoppedBy;
      FireFacts(s, cb);
      var s', y := Fire(s, cb), s.pending[0];
      CheckLeaves(s', cb, x);
      var r, r' := Check(s, cb), Check(s', cb);
      NotTwice(s', cb, y, s.now);
      DropMembers(s.pending[1..], Stops(cb, y));
      PrependFired(y, r'.fired, cb, x);
    }
  }

  /** A timer that is not due does not fire. */
  lemma NotTwice(s: State, cb: Callbacks, y: int, now: int)
    requires Inv(s) && s.now == now && (y in s.pending ==> At(s.due, y) > now)
    ensures y !in Check(s, cb).fired
  {
    CheckFires(s, cb);
    UpperBounds(s.pending, s.due, s.now);
    FiredAreDue(Due(s), cb);
  }

  lemma PrependStopped(y: int, f: seq<int>, cb: Callbacks, x: int)
    ensures StoppedBy([y] + f, cb, x) <==> x in Stops(cb, y) || StoppedBy(f, cb, x)
  {
    var g := [y] + f;
    assert g[0] == y && forall i :: 0 <= i < |f| ==> g[i + 1] == f[i];
    if StoppedBy(f, cb, x) {
      var i :| 0 <= i < |f| && x in Stops(cb, f[i]);
      assert x in Stops(cb, g[i + 1]);
    }
  }

  lemma PrependFired(y: int, f: seq<int>, cb: Callbacks, x: int)
    ensures StoppedBy([y] + f, cb, x) <==> x in Stops(cb, y) || StoppedBy(f, cb, x)
    ensures FiredAndLeft([y] + f, cb, x) <==> if x == y then !StoppedBy([y] + f, cb, x) else FiredAndLeft(f, cb, x)
  {
    hide StoppedBy;
    PrependStopped(y, f, cb, x);
    assert ([y] + f)[1..] == f;
  }

  // ----- runs -----

  datatype Action =
    | Begin(x: int)
    | End(x: int)
    | SetTime(x: int, n: nat)
    | SetPeriodic(x: int, on: bool)
    | Tick(cb: Callbacks)

  /** Periods stay below RT_TICK_MAX / 2, and those of periodic timers are positive. */
  predicate Allowed(s: State, a: Action) {
    match a
    case SetTime(x, n) => n < HALF && (x in s.periodic ==> n >= 1)
    case SetPeriodic(x, on) => on ==> At(s.init, x) >= 1
    case _ => true
  }

  /** One step: a call of the timer interface, or rt_tick_increase with its rt_timer_check. */
  ghost function Next(s: State, a: Action): Outcome
    requires Inv(s) && Settled(s)
  {
    match a
    case Begin(x) => Outcome(Start(s, x), [])
    case End(x) => Outcome(Stop(s, x), [])
    case SetTime(x, n) => Outcome(s.(init := s.init[x := n]), [])
    case SetPeriodic(x, on) => Outcome(s.(periodic := if on then s.periodic + {x} else s.periodic - {x}), [])
    case Tick(cb) => Check(s.(now := s.now + 1), cb)
  }

  /** A tick makes timers at most one tick late. */
  lemma TickNear(s: State)
    requires Inv(s) && Settled(s)
    ensures Inv(s.(now := s.now + 1))
  {
  }

  lemma NextKeeps(s: State, a: Action)
    requires Inv(s) && Settled(s) && Allowed(s, a)
    ensures Inv(Next(s, a).state) && Settled(Next(s, a).state)
    ensures Next(s, a).state.now == s.now + if a.Tick? then 1 else 0
  {
    hide Without, Sorted, Distinct;
    match a
    case Begin(x) =>
      StartKeeps(s, x);
    case End(x) =>
      WithoutMembers(s.pending, x);
      WithoutListed(s.pending, s.due, x);
    case SetTime(x, n) =>
      var init := s.init[x := n];
      forall y ensures At(init, y) == if y == x then n else At(s.init, y) {
      }
    case SetPeriodic(x, on) =>
    case Tick(cb) =>
      CheckRearms(s.(now := s.now + 1), cb);
  }

  /** A run in which every action is allowed. */
  ghost predicate Legal(s: State, run: seq<Action>)
    requires Inv(s) && Settled(s)
    decreases |run|
  {
    run != [] ==>
      && Allowed(s, run[0])
      && (NextKeeps(s, run[0]); Legal(Next(s, run[0]).state, run[1..]))
  }

  ghost function Run(s: State, run: seq<Action>): State
    requires Inv(s) && Settled(s) && Legal(s, run)
    decreases |run|
  {
    if run == [] then s else NextKeeps(s, run[0]); Run(Next(s, run[0]).state, run[1..])
  }

  ghost predicate FiresIn(s: State, run: seq<Action>, x: int)
    requires Inv(s) && Settled(s) && Legal(s, run)
    decreases |run|
  {
    run != [] && (NextKeeps(s, run[0]); x in Next(s, run[0]).fired || FiresIn(Next(s, run[0]).state, run[1..], x))
  }

  /** In every reachable state the list is sorted, and every pending timer is due between now
      and half the counter range from now. The window is not an assumption: it follows from
      the bound on the periods and the check at every tick. */
  lemma {:induction false} RunKeeps(s: State, run: seq<Action>)
    requires Inv(s) && Settled(s) && Legal(s, run)
    ensures Inv(Run(s, run)) && Settled(Run(s, run))
    decreases |run|
  {
    if run != [] {
      NextKeeps(s, run[0]);
      RunKeeps(Next(s, run[0]).state, run[1..]);
    }
  }

  function Ticks(run: seq<Action>): nat {
    if run == [] then 0 else (if run[0].Tick? then 1 else 0) + Ticks(run[1..])
  }

  /** The action neither starts nor stops x. */
  ghost predicate Spares(a: Action, x: int) {
    match a
    case Begin(y) => y != x
    case End(y) => y != x
    case Tick(cb) => forall y :: y != x ==> x !in Stops(cb, y)
    case _ => true
  }

  /** A pending timer that is left alone fires at exactly the tick it is due (at the next tick
      if its period was 0), and not before. */
  lemma {:induction false} FiresOnTime(s: State, run: seq<Action>, x: int)
    requires Inv(s) && Settled(s) && Legal(s, run) && x in s.pending
    requires forall i :: 0 <= i < |run| ==> Spares(run[i], x)
    ensures FiresIn(s, run, x) <==> Ticks(run) >= 1 && s.now + Ticks(run) >= At(s.due, x)
    decreases |run|
  {
    hide Inv, Settled, Next, Spares;
    if run != [] {
      NextKeeps(s, run[0]);
      StepFires(s, run[0], x);
      if x !in Next(s, run[0]).fired {
        FiresOnTime(Next(s, run[0]).state, run[1..], x);
      }
    }
  }

  /** The same for one step. */
  lemma StepFires(s: State, a: Action, x: int)
    requires Inv(s) && Settled(s) && Allowed(s, a) && x in s.pending && Spares(a, x)
    ensures x in Next(s, a).fired <==> a.Tick? && At(s.due, x) <= s.now + 1
    ensures x !in Next(s, a).fired ==> x in Next(s, a).state.pending && At(Next(s, a).state.due, x) == At(s.due, x)
  {
    hide Without, Sorted, Distinct;
    match a
    case Begin(y) =>
      StartKeeps(s, y);
    case End(y) =>
      WithoutMembers(s.pending, y);
    case SetTime(y, n) =>
    case SetPeriodic(y, on) =>
    case Tick(cb) =>
      TickFires(s.(now := s.now + 1), cb, x);
  }

  lemma TickFires(s: State, cb: Callbacks, x: int)
    requires Inv(s) && x in s.pending && forall y :: y != x ==> x !in Stops(cb, y)
    ensures x in Check(s, cb).fired <==> At(s.due, x) <= s.now
    ensures At(s.due, x) > s.now ==> x in Check(s, cb).state.pending && At(Check(s, cb).state.due, x) == At(s.due, x)
  {
    CheckLeaves(s, cb, x);
    CheckFires(s, cb);
    UpperBounds(s.pending, s.due, s.now);
    UpperBeyond(s.pending, s.due, s.now);
    var n := Upper(s.pending, s.due, s.now);
    var i :| 0 <= i < |s.pending| && s.pending[i] == x;
    if At(s.due, x) <= s.now {
      assert i < n && Due(s)[i] == x;
      UnstoppedFire(Due(s), cb, x);
    } else {
      FiredAreDue(Due(s), cb);
      forall j | 0 <= j < |Check(s, cb).fired|
        ensures x !in Stops(cb, Check(s, cb).fired[j])
      {
        var z := Check(s, cb).fired[j];
        assert z in Check(s, cb).fired && z in Due(s);
      }
    }
  }
}
