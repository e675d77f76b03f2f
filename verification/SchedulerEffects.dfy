/** What each call does to the state, the priority and the queue place of every thread, and that
    a suspended thread does not run. */
module SchedulerEffects {
  import opened SortedList
  import opened SchedulerSpec

  /** The states and priorities of all threads but t are the same. */
  ghost predicate OthersSame(s: State, s': State, t: int) {
    && |s'.queues| == |s.queues|
    && forall u :: u != t ==> SameThread(s, s', u)
  }

  ghost predicate SameThread(s: State, s': State, u: int) {
    && (u in s'.stat <==> u in s.stat) && (u in s.stat ==> s'.stat[u] == s.stat[u])
    && At(s'.prio, u) == At(s.prio, u)
  }

  ghost predicate AllSame(s: State, s': State) {
    |s'.queues| == |s.queues| && forall u :: SameThread(s, s', u)
  }

  /** In every queue the threads but t keep their order. */
  ghost predicate OrderSame(s: State, s': State, t: int) {
    |s'.queues| == |s.queues| && forall q :: 0 <= q < |s.queues| ==> Without(s'.queues[q], t) == Without(s.queues[q], t)
  }

  /** Thread t is queued last at its priority, unless it is running. */
  ghost predicate Last(s: State, t: int) {
    t != s.current ==>
      InRange(s, t) && s.queues[At(s.prio, t)] != [] && s.queues[At(s.prio, t)][|s.queues[At(s.prio, t)]| - 1] == t
  }

  // ----- rt_schedule changes no thread -----

  lemma ScheduleSame(s: State)
    requires Inv(s)
    ensures InRange(s, s.current) && AllSame(s, Schedule(s)) && Schedule(s).lock == s.lock
  {
    ScheduleIs(s);
    hide Schedule;
  }

  // ----- one call -----

  /** The running thread is suspended; nothing else changes. */
  lemma BlockEffect(s: State)
    requires Inv(s) && Enabled(s, Block)
    ensures var s' := Next(s, Block);
            && s.current in s'.stat && s'.stat[s.current] == Suspended
            && OthersSame(s, s', s.current) && At(s'.prio, s.current) == At(s.prio, s.current)
            && s'.queues == s.queues && s'.current == s.current && s'.lock == s.lock
            && forall q :: 0 <= q < |s'.queues| ==> s.current !in s'.queues[q]
  {
    var c := At(s.prio, s.current);
    forall q: nat | q < |s.queues| ensures s.current !in s.queues[q] { assert Placed(s, s.current, q); }
    WithoutAbsent(s.queues[c], s.current);
    assert s.queues[c := s.queues[c]] == s.queues;
    hide Without;
  }

  /** A suspended thread becomes ready and goes to the end of its queue. */
  lemma InsertEffect(s: State, t: int)
    requires Inv(s) && t in s.stat && s.stat[t] == Suspended
    ensures InRange(s, t)
    ensures var s' := Insert(s, t);
            && IsReady(s', t) && At(s'.prio, t) == At(s.prio, t) && OthersSame(s, s', t)
            && Last(s', t) && OrderSame(s, s', t) && s'.current == s.current && s'.lock == s.lock
  {
    var s', p := Insert(s, t), At(s.prio, t);
    assert Placed(s, t, p);
    forall q | 0 <= q < |s.queues| ensures Without(s'.queues[q], t) == Without(s.queues[q], t) {
      if q == p && t != s.current { WithoutLast(s.queues[p], t); }
    }
  }

  lemma WithoutLast(l: seq<int>, t: int)
    ensures Without(l + [t], t) == Without(l, t)
  {
    var h := Elems(l + [t]) - {t};
    KeepConcat(l, [t], h);
    KeepSame(l, h, Elems(l) - {t});
    assert Keep([t], h) == [];
  }

  lemma WakeEffect(s: State, t: int)
    requires Inv(s) && Enabled(s, Wake(t))
    ensures var s' := Next(s, Wake(t));
            if s.stat[t] == Suspended then
              && IsReady(s', t) && At(s'.prio, t) == At(s.prio, t) && OthersSame(s, s', t)
              && Last(s', t) && OrderSame(s, s', t) && s'.current == s.current && s'.lock == s.lock
            else s' == s
  {
    WakeIs(s, t);
    if s.stat[t] == Suspended { InsertEffect(s, t); }
    hide Next;
  }

  /** A timeout makes the thread ready; who runs is rt_schedule's choice. */
  lemma ExpireEffect(s: State, t: int)
    requires Inv(s) && Enabled(s, Expire(t))
    ensures var s' := Next(s, Expire(t));
            IsReady(s', t) && At(s'.prio, t) == At(s.prio, t) && OthersSame(s, s', t) && s'.lock == s.lock
    ensures s.lock == 0 ==>
              forall u :: IsReady(Next(s, Expire(t)), u) ==>
                At(s.prio, Next(s, Expire(t)).current) <= At(s.prio, u)
  {
    hide Without, Schedule;
    InsertKeeps(s, t);
    InsertEffect(s, t);
    var i := Insert(s, t);
    ScheduleSame(i);
    forall u | u != t ensures SameThread(s, Next(s, Expire(t)), u) {
      assert SameThread(s, i, u) && SameThread(i, Schedule(i), u);
    }
    assert SameThread(i, Schedule(i), t);
    if s.lock == 0 {
      ScheduleMostUrgent(i);
      forall u | IsReady(Next(s, Expire(t)), u) ensures At(s.prio, Schedule(i).current) <= At(s.prio, u) {
        assert SameThread(i, Schedule(i), u);
      }
    }
  }

  /** A started thread is ready at the priority it was given. */
  lemma StartupEffect(s: State, t: int, p: nat)
    requires Inv(s) && Enabled(s, Startup(t, p))
    ensures var s' := Next(s, Startup(t, p));
            IsReady(s', t) && At(s'.prio, t) == p && OthersSame(s, s', t) && s'.lock == s.lock
  {
    hide Without, Schedule;
    var s1 := s.(prio := s.prio[t := p], stat := s.stat[t := Suspended]);
    StartKeeps(s, t, p);
    InsertEffect(s1, t);
    var i := Resume(s1, t);
    ScheduleSame(i);
    forall u | u != t ensures SameThread(s, Schedule(i), u) {
      assert SameThread(s1, i, u) && SameThread(i, Schedule(i), u);
    }
    assert SameThread(i, Schedule(i), t);
  }

  /** The priority becomes p; a ready thread goes to the end of the queue of p, all others keep
      their places. */
  lemma ChangeEffect(s: State, t: int, p: nat)
    requires Inv(s) && Enabled(s, Change(t, p))
    ensures var s' := Next(s, Change(t, p));
            && At(s'.prio, t) == p && t in s'.stat && s'.stat[t] == s.stat[t] && OthersSame(s, s', t)
            && OrderSame(s, s', t) && (IsReady(s, t) ==> Last(s', t))
            && s'.current == s.current && s'.lock == s.lock
  {
    hide Without;
    var s', c := SetPriority(s, t, p), At(s.prio, t);
    if IsReady(s, t) {
      forall q: nat | q < |s.queues| ensures Without(s'.queues[q], t) == Without(s.queues[q], t) {
        assert Placed(s, t, q);
        var l := s.queues[q];
        WithoutMembers(l, t);
        WithoutAbsent(Without(l, t), t);
        WithoutLast(l, t);
        WithoutLast(Without(l, t), t);
      }
    }
  }

  /** Critical sections change the nesting depth only. */
  lemma CriticalEffect(s: State)
    requires Inv(s)
    ensures Next(s, Enter) == s.(lock := s.lock + 1)
    ensures var s' := Next(s, Exit);
            && AllSame(s, s') && s'.lock == (if s.lock == 0 then 0 else s.lock - 1)
            && (s.lock > 1 ==> s' == s.(lock := s.lock - 1))
    ensures s.lock <= 1 && (exists t :: IsReady(s, t)) ==>
              forall u :: IsReady(s, u) ==> At(s.prio, Next(s, Exit).current) <= At(s.prio, u)
  {
    hide Schedule;
    if s.lock <= 1 {
      var s1 := s.(lock := 0);
      LockKeeps(s, 0);
      ScheduleSame(s1);
      forall u ensures SameThread(s, Schedule(s1), u) { assert SameThread(s1, Schedule(s1), u); }
      if exists t :: IsReady(s, t) {
        var t :| IsReady(s, t);
        assert IsReady(s1, t);
        ScheduleMostUrgent(s1);
        forall u | IsReady(s, u) ensures At(s.prio, Schedule(s1).current) <= At(s.prio, u) {
          assert IsReady(s1, u);
        }
      }
    }
  }

  // ----- a suspended thread does not run -----

  predicate Asleep(s: State, t: int) {
    t in s.stat && s.stat[t] == Suspended
  }

  /** Once another thread is ready, an unlocked schedule takes the processor from a thread that
      is not. */
  lemma LeavesProcessor(s: State)
    requires Inv(s) && s.lock == 0 && !IsReady(s, s.current) && exists t :: IsReady(s, t)
    ensures InRange(s, s.current) && Schedule(s).current != s.current
  {
    ScheduleMostUrgent(s);
  }

  lemma NeverChosen(s: State, t: int)
    requires Inv(s) && Asleep(s, t) && s.current != t
    ensures InRange(s, s.current) && Schedule(s).current != t
  {
    ScheduleIs(s);
    TopIs(s.queues, 0);
    hide Schedule;
    if Switches(s) {
      var h := Top(s.queues, 0);
      var to := s.queues[h][0];
      assert to in s.queues[h] && Placed(s, to, h);
    }
  }

  lemma StaysAsleep(s: State, a: Action, t: int)
    requires Inv(s) && Enabled(s, a) && Asleep(s, t) && a != Wake(t) && a != Expire(t)
    ensures Asleep(Next(s, a), t) && (s.current != t ==> Next(s, a).current != t)
  {
    hide Schedule, Without;
    match a
    case Startup(u, p) =>
      StartupEffect(s, u, p);
      assert SameThread(s, Next(s, a), t);
      var i := Resume(s.(prio := s.prio[u := p], stat := s.stat[u := Suspended]), u);
      StartKeeps(s, u, p);
      if s.current != t { NeverChosen(i, t); }
    case Block => BlockEffect(s);
    case Wake(u) => WakeEffect(s, u); assert u != t;
    case Expire(u) =>
      ExpireEffect(s, u);
      assert SameThread(s, Next(s, a), t);
      InsertKeeps(s, u);
      if s.current != t { NeverChosen(Insert(s, u), t); }
    case Change(u, p) => ChangeEffect(s, u, p);
    case Reschedule =>
      ScheduleSame(s);
      assert SameThread(s, Schedule(s), t);
      if s.current != t { NeverChosen(s, t); }
    case Enter =>
    case Exit =>
      CriticalEffect(s);
      assert SameThread(s, Next(s, a), t);
      if s.lock <= 1 {
        LockKeeps(s, 0);
        if s.current != t { NeverChosen(s.(lock := 0), t); }
      }
  }

  /** A suspended thread that is off the processor stays suspended and does not run in any run
      without a wake-up or a timeout of it. */
  lemma {:induction false} DoesNotRun(s: State, run: seq<Action>, t: int)
    requires Inv(s) && Legal(s, run) && Asleep(s, t) && s.current != t
    requires forall i :: 0 <= i < |run| ==> run[i] != Wake(t) && run[i] != Expire(t)
    ensures !Runs(s, run, t) && Asleep(Run(s, run), t)
    decreases |run|
  {
    hide Inv, Next, Enabled;
    if run != [] {
      NextKeeps(s, run[0]);
      StaysAsleep(s, run[0], t);
      DoesNotRun(Next(s, run[0]), run[1..], t);
    }
  }
}
