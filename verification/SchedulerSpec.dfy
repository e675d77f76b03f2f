/** The scheduler as a step machine on ready queues (scheduler.c, thread.c). */
module SchedulerSpec {
  import opened RingList
  import opened SortedList

  /** Threads are positive numbers; 0 is "no thread". */
  const NONE := 0

  datatype Stat = Initial | Ready | Suspended

  /** queues[p] are the ready threads of priority p, except the running one. `lock` is the
      nesting depth of critical sections. */
  datatype State = State(queues: seq<seq<int>>, current: int, stat: map<int, Stat>, prio: map<int, int>, lock: nat)

  predicate IsReady(s: State, t: int) {
    t in s.stat && s.stat[t] == Ready
  }

  /** The reference for the bitmap lookup: the first non-empty queue from p on, or the number
      of queues. */
  function Top(queues: seq<seq<int>>, p: nat): nat
    requires p <= |queues|
    decreases |queues| - p
  {
    if p == |queues| || queues[p] != [] then p else Top(queues, p + 1)
  }

  lemma {:induction false} TopIs(queues: seq<seq<int>>, p: nat)
    requires p <= |queues|
    ensures var h := Top(queues, p);
            && p <= h <= |queues|
            && (h < |queues| ==> queues[h] != [])
            && forall q :: p <= q < h ==> queues[q] == []
    decreases |queues| - p
  {
    if p < |queues| && queues[p] == [] { TopIs(queues, p + 1); }
  }

  lemma TopUnique(queues: seq<seq<int>>, h: nat)
    requires h < |queues| && queues[h] != [] && forall q :: 0 <= q < h ==> queues[q] == []
    ensures Top(queues, 0) == h
  {
    TopIs(queues, 0);
  }

  // ----- steps -----

  /** The queue index of a thread; threads with a priority out of range are never queued. */
  predicate InRange(s: State, t: int) {
    0 <= At(s.prio, t) < |s.queues|
  }

  /** rt_schedule_insert_thread. */
  function Insert(s: State, t: int): State
    requires InRange(s, t)
  {
    var p := At(s.prio, t);
    var s' := s.(stat := s.stat[t := Ready]);
    if t == s.current then s' else s'.(queues := s.queues[p := s.queues[p] + [t]])
  }

  /** rt_schedule_remove_thread. */
  function Remove(s: State, t: int): State
    requires InRange(s, t)
  {
    var p := At(s.prio, t);
    s.(queues := s.queues[p := Without(s.queues[p], t)])
  }

  /** rt_schedule. */
  function Schedule(s: State): State
    requires InRange(s, s.current)
  {
    var h := Top(s.queues, 0);
    TopIs(s.queues, 0);
    if s.lock > 0 || h == |s.queues| then s
    else if IsReady(s, s.current) && At(s.prio, s.current) < h then Remove(s, s.current)
    else
      var from, to := s.current, s.queues[h][0];
      var s' := s.(current := to);
      var s'' := if IsReady(s, from) && from != to then Insert(s', from) else s';
      s''.(queues := s''.queues[h := Without(s''.queues[h], to)])
  }

  /** rt_thread_suspend of the running thread. */
  function Suspend(s: State): State
    requires InRange(s, s.current)
  {
    Remove(s.(stat := s.stat[s.current := Suspended]), s.current)
  }

  /** rt_thread_resume: an error for threads that are not suspended. */
  function Resume(s: State, t: int): State
    requires InRange(s, t)
  {
    if t in s.stat && s.stat[t] == Suspended then Insert(s, t) else s
  }

  /** rt_thread_control with RT_THREAD_CTRL_CHANGE_PRIORITY. */
  function SetPriority(s: State, t: int, p: nat): State
    requires InRange(s, t) && p < |s.queues|
  {
    if IsReady(s, t) then
      var r := Remove(s, t);
      Insert(r.(prio := r.prio[t := p]), t)
    else s.(prio := s.prio[t := p])
  }

  datatype Action =
    | Startup(t: int, p: nat)
    | Block
    | Wake(t: int)
    | Expire(t: int)
    | Change(t: int, p: nat)
    | Reschedule
    | Enter
    | Exit

  predicate Enabled(s: State, a: Action) {
    match a
    case Startup(t, p) => t != NONE && t in s.stat && s.stat[t] == Initial && p < |s.queues|
    case Block => IsReady(s, s.current)
    case Wake(t) => t in s.stat
    case Expire(t) => t in s.stat && s.stat[t] == Suspended
    case Change(t, p) => t in s.stat && s.stat[t] != Initial && p < |s.queues|
    case _ => true
  }

  /** One call. rt_thread_startup sets the priority, resumes the thread and reschedules;
      rt_thread_timeout resumes the thread and reschedules; the outermost rt_exit_critical
      reschedules. */
  function Next(s: State, a: Action): State
    requires Inv(s) && Enabled(s, a)
  {
    match a
    case Startup(t, p) =>
      var s1 := s.(prio := s.prio[t := p], stat := s.stat[t := Suspended]);
      StartKeeps(s, t, p);
      Schedule(Resume(s1, t))
    case Block => Suspend(s)
    case Wake(t) => if s.stat[t] == Initial then s else Resume(s, t)
    case Expire(t) => InsertKeeps(s, t); Schedule(Insert(s, t))
    case Change(t, p) => SetPriority(s, t, p)
    case Reschedule => Schedule(s)
    case Enter => s.(lock := s.lock + 1)
    case Exit =>
      var s1 := s.(lock := if s.lock <= 1 then 0 else s.lock - 1);
      if s.lock <= 1 then Schedule(s1) else s1
  }

  // ----- invariants -----

  /** Thread t is in queue p exactly if it is ready, has priority p and is not running. */
  ghost predicate Placed(s: State, t: int, p: nat)
    requires p < |s.queues|
  {
    t in s.queues[p] <==> IsReady(s, t) && At(s.prio, t) == p && t != s.current
  }

  ghost predicate Inv(s: State) {
    && (forall t, p: nat :: p < |s.queues| ==> Placed(s, t, p))
    && (forall p :: 0 <= p < |s.queues| ==> Distinct(s.queues[p]))
    && (forall t :: t in s.stat && s.stat[t] != Initial ==> InRange(s, t) && t != NONE)
    && s.current in s.stat && s.stat[s.current] != Initial
  }

  lemma InsertKeeps(s: State, t: int)
    requires Inv(s) && t in s.stat && s.stat[t] == Suspended
    ensures InRange(s, t) && Inv(Insert(s, t))
  {
    var s', p := Insert(s, t), At(s.prio, t);
    assert Placed(s, t, p);
    forall u, q: nat | q < |s'.queues| ensures Placed(s', u, q) {
      assert Placed(s, u, q);
    }
  }

  lemma StartKeeps(s: State, t: int, p: nat)
    requires Inv(s) && Enabled(s, Startup(t, p))
    ensures var s1 := s.(prio := s.prio[t := p], stat := s.stat[t := Suspended]);
            Inv(s1) && InRange(s1, t) && Inv(Resume(s1, t))
  {
    var s1 := s.(prio := s.prio[t := p], stat := s.stat[t := Suspended]);
    forall u, q: nat | q < |s1.queues| ensures Placed(s1, u, q) {
      assert Placed(s, u, q);
    }
    InsertKeeps(s1, t);
  }

  /** Removing the running thread from its queue changes nothing. */
  lemma RemoveCurrent(s: State)
    requires Inv(s)
    ensures InRange(s, s.current) && Remove(s, s.current) == s
  {
    var p := At(s.prio, s.current);
    assert Placed(s, s.current, p);
    WithoutAbsent(s.queues[p], s.current);
  }

  /** Whether rt_schedule switches to another thread. */
  ghost predicate Switches(s: State) {
    s.lock == 0 && Top(s.queues, 0) < |s.queues| && !(IsReady(s, s.current) && At(s.prio, s.current) < Top(s.queues, 0))
  }

  /** The queues after a switch: the first thread of the top queue leaves, and a running thread
      that is still ready goes to the end of its queue. */
  ghost function Switched(s: State): seq<seq<int>>
    requires InRange(s, s.current) && Top(s.queues, 0) < |s.queues| && s.queues[Top(s.queues, 0)] != []
  {
    var h, c := Top(s.queues, 0), At(s.prio, s.current);
    var q := s.queues[h := s.queues[h][1..]];
    if IsReady(s, s.current) then q[c := q[c] + [s.current]] else q
  }

  /** rt_schedule in plain terms. */
  lemma ScheduleIs(s: State)
    requires Inv(s)
    ensures InRange(s, s.current)
    ensures Switches(s) ==> s.queues[Top(s.queues, 0)] != []
    ensures Schedule(s)
         == if Switches(s) then s.(current := s.queues[Top(s.queues, 0)][0], queues := Switched(s)) else s
  {
    hide Without;
    var h := Top(s.queues, 0);
    TopIs(s.queues, 0);
    RemoveCurrent(s);
    if Switches(s) {
      var from, to, q := s.current, s.queues[h][0], s.queues[h];
      assert to in q && Placed(s, to, h) && Placed(s, from, h);
      WithoutAt(q, 0);
      assert q[..0] + q[1..] == q[1..];
      if IsReady(s, from) {
        assert s.stat[from := Ready] == s.stat;
        if At(s.prio, from) == h { WithoutAppend(q, to, from); }
      }
    }
  }

  lemma WithoutAppend(q: seq<int>, x: int, y: int)
    requires Distinct(q) && q != [] && q[0] == x && y != x && y !in q
    ensures Without(q + [y], x) == q[1..] + [y]
  {
    var r := q + [y];
    assert Distinct(r) && r[0] == x && r[..0] + r[1..] == q[1..] + [y];
    WithoutAt(r, 0);
  }

  lemma ScheduleKeeps(s: State)
    requires Inv(s)
    ensures InRange(s, s.current) && Inv(Schedule(s))
  {
    ScheduleIs(s);
    if Switches(s) {
      hide Schedule;
      var s', h, c := Schedule(s), Top(s.queues, 0), At(s.prio, s.current);
      var to := s.queues[h][0];
      assert to in s.queues[h] && Placed(s, to, h) && Placed(s, s.current, c);
      HeadTail(s.queues[h]);
      forall t, p: nat | p < |s'.queues| ensures Placed(s', t, p) {
        assert Placed(s, t, p) && Placed(s, t, h);
      }
      forall p | 0 <= p < |s'.queues| ensures Distinct(s'.queues[p]) {
        assert Placed(s, s.current, p);
      }
    }
  }

  // ----- what rt_schedule promises -----

  /** An unlocked rt_schedule with a ready thread leaves running a most urgent one among the
      ready queues and the running thread, if that is still ready. */
  lemma ScheduleMostUrgent(s: State)
    requires Inv(s) && s.lock == 0 && exists t :: IsReady(s, t)
    ensures InRange(s, s.current) && IsReady(s, Schedule(s).current)
    ensures forall t :: IsReady(s, t) ==> At(s.prio, Schedule(s).current) <= At(s.prio, t)
  {
    ScheduleIs(s);
    TopIs(s.queues, 0);
    hide Schedule;
    var h := Top(s.queues, 0);
    if Switches(s) {
      var to := s.queues[h][0];
      assert to in s.queues[h] && Placed(s, to, h);
    }
    forall t | IsReady(s, t)
      ensures t == s.current || h <= At(s.prio, t)
    {
      assert Placed(s, t, At(s.prio, t));
    }
    var t :| IsReady(s, t);
    assert t == s.current || h <= At(s.prio, t) < |s.queues|;
  }

  /** No thread is lost or duplicated: the running thread and the queued ones are the same
      before and after, except that a thread that is no longer ready stops running. */
  lemma ScheduleConserves(s: State, t: int)
    requires Inv(s)
    ensures InRange(s, s.current)
    ensures Schedule(s).stat == s.stat && Schedule(s).prio == s.prio && |Schedule(s).queues| == |s.queues|
    ensures IsReady(s, t) ==>
              InRange(s, t) && (t == Schedule(s).current) != (t in Schedule(s).queues[At(s.prio, t)])
    ensures forall p :: 0 <= p < |s.queues| ==> Distinct(Schedule(s).queues[p])
    ensures forall p: nat :: p < |s.queues| && p != At(s.prio, t) ==> t !in Schedule(s).queues[p]
  {
    ScheduleIs(s);
    ScheduleKeeps(s);
    hide Schedule;
    var s' := Schedule(s);
    if IsReady(s, t) { assert Placed(s', t, At(s.prio, t)); }
    forall p: nat | p < |s.queues| && p != At(s.prio, t) ensures t !in s'.queues[p] {
      assert Placed(s', t, p);
    }
  }

  // ----- runs -----

  lemma BlockKeeps(s: State)
    requires Inv(s) && IsReady(s, s.current)
    ensures Inv(Suspend(s))
  {
    var s0, p := s.(stat := s.stat[s.current := Suspended]), At(s.prio, s.current);
    assert Placed(s, s.current, p);
    WithoutAbsent(s.queues[p], s.current);
    assert s.queues[p := s.queues[p]] == s.queues;
    var s' := Suspend(s);
    forall u, q: nat | q < |s'.queues| ensures Placed(s', u, q) {
      assert Placed(s, u, q);
    }
  }

  lemma ChangeKeeps(s: State, t: int, p: nat)
    requires Inv(s) && Enabled(s, Change(t, p))
    ensures Inv(SetPriority(s, t, p))
  {
    hide Without;
    var s', c := SetPriority(s, t, p), At(s.prio, t);
    assert Placed(s, t, c) && Placed(s, t, p);
    WithoutMembers(s.queues[c], t);
    WithoutDistinct(s.queues[c], t);
    forall u, q: nat | q < |s'.queues| ensures Placed(s', u, q) {
      assert Placed(s, u, q);
    }
  }

  lemma NextKeeps(s: State, a: Action)
    requires Inv(s) && Enabled(s, a)
    ensures Inv(Next(s, a))
  {
    match a
    case Startup(t, p) =>
      StartKeeps(s, t, p);
      ScheduleKeeps(Resume(s.(prio := s.prio[t := p], stat := s.stat[t := Suspended]), t));
    case Block => BlockKeeps(s);
    case Wake(t) =>
      if s.stat[t] == Suspended { InsertKeeps(s, t); }
    case Expire(t) =>
      InsertKeeps(s, t);
      ScheduleKeeps(Insert(s, t));
    case Change(t, p) => ChangeKeeps(s, t, p);
    case Reschedule => ScheduleKeeps(s);
    case Enter => LockKeeps(s, s.lock + 1);
    case Exit =>
      var n: nat := if s.lock <= 1 then 0 else s.lock - 1;
      LockKeeps(s, n);
      ScheduleKeeps(s.(lock := n));
  }

  lemma LockKeeps(s: State, n: nat)
    requires Inv(s)
    ensures Inv(s.(lock := n))
  {
    var s' := s.(lock := n);
    forall u, q: nat | q < |s'.queues| ensures Placed(s', u, q) {
      assert Placed(s, u, q);
    }
  }

  ghost predicate Legal(s: State, run: seq<Action>)
    requires Inv(s)
    decreases |run|
  {
    run != [] ==> Enabled(s, run[0]) && (NextKeeps(s, run[0]); Legal(Next(s, run[0]), run[1..]))
  }

  ghost function Run(s: State, run: seq<Action>): State
    requires Inv(s) && Legal(s, run)
    decreases |run|
  {
    if run == [] then s else NextKeeps(s, run[0]); Run(Next(s, run[0]), run[1..])
  }

  /** In every run each ready thread is running or in the queue of its priority, exactly once,
      and no other thread is queued. */
  lemma {:induction false} RunKeeps(s: State, run: seq<Action>)
    requires Inv(s) && Legal(s, run)
    ensures Inv(Run(s, run))
    decreases |run|
  {
    if run != [] {
      NextKeeps(s, run[0]);
      RunKeeps(Next(s, run[0]), run[1..]);
    }
  }

  // ----- fairness among equals -----

  /** Thread x has k threads ahead of it in queue p, and no ready thread is more urgent. */
  ghost predicate Queued(s: State, x: int, p: nat, k: nat) {
    && p < |s.queues| && k < |s.queues[p]| && s.queues[p][k] == x
    && (forall q :: 0 <= q < p ==> s.queues[q] == [])
    && (IsReady(s, s.current) ==> p <= At(s.prio, s.current))
  }

  /** The action makes no thread ready that is more urgent than p, and leaves the priority of x
      alone. */
  predicate Calm(s: State, a: Action, x: int, p: nat) {
    match a
    case Startup(_, q) => q >= p
    case Wake(t) => t in s.stat && s.stat[t] == Suspended ==> At(s.prio, t) >= p
    case Expire(t) => At(s.prio, t) >= p
    case Change(t, q) => t != x && (IsReady(s, t) ==> q >= p)
    case _ => true
  }

  ghost predicate AllCalm(s: State, run: seq<Action>, x: int, p: nat)
    requires Inv(s) && Legal(s, run)
    decreases |run|
  {
    run != [] ==> Calm(s, run[0], x, p) && (NextKeeps(s, run[0]); AllCalm(Next(s, run[0]), run[1..], x, p))
  }

  /** Whether the action calls rt_schedule outside critical sections. */
  predicate Calls(s: State, a: Action) {
    match a
    case Startup(_, _) => s.lock == 0
    case Expire(_) => s.lock == 0
    case Reschedule => s.lock == 0
    case Exit => s.lock <= 1
    case _ => false
  }

  ghost function Schedules(s: State, run: seq<Action>): nat
    requires Inv(s) && Legal(s, run)
    decreases |run|
  {
    if run == [] then 0
    else NextKeeps(s, run[0]); (if Calls(s, run[0]) then 1 else 0) + Schedules(Next(s, run[0]), run[1..])
  }

  /** x runs at some point of the run. */
  ghost predicate Runs(s: State, run: seq<Action>, x: int)
    requires Inv(s) && Legal(s, run)
    decreases |run|
  {
    s.current == x || (run != [] && (NextKeeps(s, run[0]); Runs(Next(s, run[0]), run[1..], x)))
  }

  /** A thread with k threads ahead of it at the top priority runs within k + 1 unlocked calls of
      rt_schedule, whatever else happens as long as nothing more urgent becomes ready. */
  lemma {:induction false} RoundRobin(s: State, run: seq<Action>, x: int, p: nat, k: nat)
    requires Inv(s) && Legal(s, run) && Queued(s, x, p, k) && AllCalm(s, run, x, p) && Schedules(s, run) > k
    ensures Runs(s, run, x)
    decreases |run|
  {
    hide Inv, Enabled, Queued, Calm, Calls, Next;
    var a, s' := run[0], Next(s, run[0]);
    NextKeeps(s, a);
    var j := StepAdvances(s, a, x, p, k);
    if s'.current != x { RoundRobin(s', run[1..], x, p, j); }
  }

  /** No step puts a thread in front of x, and an unlocked schedule takes one away. */
  lemma StepAdvances(s: State, a: Action, x: int, p: nat, k: nat) returns (j: nat)
    requires Inv(s) && Enabled(s, a) && Queued(s, x, p, k) && Calm(s, a, x, p)
    ensures Next(s, a).current == x || (Queued(Next(s, a), x, p, j) && j <= k - if Calls(s, a) then 1 else 0)
  {
    hide Inv, Queued, Schedule, Resume, Insert, SetPriority, Suspend;
    j := k;
    match a {
      case Startup(t, q) =>
        StartQueued(s, t, q, x, p, k);
        StartKeeps(s, t, q);
        j := ScheduleAdvances(Resume(s.(prio := s.prio[t := q], stat := s.stat[t := Suspended]), t), x, p, k);
        StartLock(s, t, q);
      case Expire(t) =>
        InsertKeeps(s, t);
        InsertQueued(s, t, x, p, k);
        j := ScheduleAdvances(Insert(s, t), x, p, k);
      case Reschedule =>
        j := ScheduleAdvances(s, x, p, k);
      case Exit =>
        var n: nat := if s.lock <= 1 then 0 else s.lock - 1;
        LockKeeps(s, n);
        LockQueued(s, n, x, p, k);
        if s.lock <= 1 { j := ScheduleAdvances(s.(lock := n), x, p, k); }
      case Enter =>
        LockQueued(s, s.lock + 1, x, p, k);
      case Block =>
        BlockQueued(s, x, p, k);
      case Wake(t) =>
        if s.stat[t] == Suspended {
          InsertKeeps(s, t);
          InsertQueued(s, t, x, p, k);
        }
        WakeIs(s, t);
      case Change(t, q) =>
        j := ChangeQueued(s, t, q, x, p, k);
    }
  }

  /** rt_schedule in a state in which x is queued. */
  lemma ScheduleAdvances(s: State, x: int, p: nat, k: nat) returns (j: nat)
    requires Inv(s) && Queued(s, x, p, k)
    ensures InRange(s, s.current)
    ensures Schedule(s).current == x || (Queued(Schedule(s), x, p, j) && j <= k - if s.lock == 0 then 1 else 0)
  {
    ScheduleIs(s);
    j := k;
    if s.lock == 0 {
      TopUnique(s.queues, p);
      hide Schedule;
      var s' := Schedule(s);
      var to := s.queues[p][0];
      assert to in s.queues[p] && Placed(s, to, p);
      if k > 0 {
        j := k - 1;
        assert s'.queues[p][j] == s.queues[p][1..][j] == x;
      }
    }
  }

  /** A thread that becomes ready goes to the end of its queue. */
  lemma InsertQueued(s: State, t: int, x: int, p: nat, k: nat)
    requires Queued(s, x, p, k) && InRange(s, t) && At(s.prio, t) >= p
    ensures Queued(Insert(s, t), x, p, k) && Insert(s, t).lock == s.lock && Insert(s, t).current == s.current
  {
  }

  lemma StartQueued(s: State, t: int, q: nat, x: int, p: nat, k: nat)
    requires Inv(s) && Enabled(s, Startup(t, q)) && Queued(s, x, p, k) && q >= p
    ensures var s1 := s.(prio := s.prio[t := q], stat := s.stat[t := Suspended]);
            InRange(s1, t) && Queued(Resume(s1, t), x, p, k)
  {
    InsertQueued(s.(prio := s.prio[t := q], stat := s.stat[t := Suspended]), t, x, p, k);
  }

  lemma StartLock(s: State, t: int, q: nat)
    requires Inv(s) && Enabled(s, Startup(t, q))
    ensures var s1 := s.(prio := s.prio[t := q], stat := s.stat[t := Suspended]);
            InRange(s1, t) && Resume(s1, t).lock == s.lock
  {
  }

  lemma LockQueued(s: State, n: nat, x: int, p: nat, k: nat)
    requires Queued(s, x, p, k)
    ensures Queued(s.(lock := n), x, p, k)
  {
  }

  lemma BlockQueued(s: State, x: int, p: nat, k: nat)
    requires Inv(s) && IsReady(s, s.current) && Queued(s, x, p, k)
    ensures Queued(Suspend(s), x, p, k)
  {
    var c := At(s.prio, s.current);
    assert Placed(s, s.current, c);
    WithoutAbsent(s.queues[c], s.current);
  }

  lemma WakeIs(s: State, t: int)
    requires Inv(s) && Enabled(s, Wake(t))
    ensures Next(s, Wake(t)) == if s.stat[t] == Suspended then (InsertKeeps(s, t); Insert(s, t)) else s
  {
  }

  /** A thread that leaves the queue lets x move up; one that comes goes behind. */
  lemma ChangeQueued(s: State, t: int, q: nat, x: int, p: nat, k: nat) returns (j: nat)
    requires Inv(s) && Enabled(s, Change(t, q)) && Queued(s, x, p, k) && Calm(s, Change(t, q), x, p)
    ensures j <= k && Queued(SetPriority(s, t, q), x, p, j)
  {
    j := k;
    if IsReady(s, t) {
      j := RemoveQueued(s, t, x, p, k);
      var r := Remove(s, t);
      var r' := r.(prio := r.prio[t := q]);
      hide Remove;
      assert Queued(r', x, p, j);
      InsertQueued(r', t, x, p, j);
    }
  }

  lemma RemoveQueued(s: State, t: int, x: int, p: nat, k: nat) returns (j: nat)
    requires Inv(s) && IsReady(s, t) && t != x && Queued(s, x, p, k)
    ensures InRange(s, t) && j <= k && Queued(Remove(s, t), x, p, j)
    ensures |Remove(s, t).queues| == |s.queues| && Remove(s, t).current == s.current
  {
    hide Without;
    j := k;
    var c := At(s.prio, t);
    assert Placed(s, t, c);
    var l := s.queues[c];
    if t == s.current {
      WithoutAbsent(l, t);
    } else {
      var i :| 0 <= i < |l| && l[i] == t;
      WithoutAt(l, i);
      if c == p && i < k { j := k - 1; }
    }
  }
}
