/** Event flags over whole runs: which flags are posted, told from the calls of the run. */
module EventRuns {
  import opened SortedList
  import opened WaitList
  import opened EventFlags

  /** A send posts the flag. */
  predicate Raises(a: Action, f: int) {
    a.Send? && f in a.flags
  }

  /** A satisfied receiver with RT_EVENT_FLAG_CLEAR that asked for the flag takes it, either at
      its call or when a send lets it go, or a reset clears all. */
  predicate Clears(s: State, a: Action, s': State, f: int) {
    match a
    case Send(_) =>
      exists t :: t in s.waiting && t !in s'.waiting && WantOf(s.wants, t).clear && f in WantOf(s.wants, t).flags
    case Receive(_, want, _) => want.clear && f in want.flags && Satisfied(s.posted, want)
    case Timeout(_) => false
    case Reset => true
  }

  lemma {:induction false} TakenBy(list: seq<int>, gone: set<int>, wants: map<int, Want>, f: int)
    ensures f in Taken(list, gone, wants)
       <==> exists t :: t in list && t in gone && WantOf(wants, t).clear && f in WantOf(wants, t).flags
  {
    if list != [] {
      var x := list[0];
      assert x in list;
      TakenBy(list[1..], gone, wants, f);
    }
  }

  /** One step: a flag is posted exactly if it was or has just been, and nobody took it. */
  lemma StepConserves(s: State, a: Action, prio: map<int, int>, order: Order, f: int)
    requires Inv(s)
    ensures var s' := Next(s, a, prio, order);
            f in s'.posted <==> (f in s.posted || Raises(a, f)) && !Clears(s, a, s', f)
  {
    if a.Send? && a.flags != {} {
      SendConserves(s, a.flags);
      var s' := Next(s, a, prio, order);
      hide SendNext, Inv, Before;
      TakenBy(s.waiting, Gone(s, s'), s.wants, f);
      hide Taken;
    }
  }

  /** A thread that times out leaves the list, and a reset lets everybody go. */
  lemma LeaveEffect(s: State, t: int, prio: map<int, int>, order: Order)
    ensures var s' := Next(s, Timeout(t), prio, order);
            s' == s.(waiting := s'.waiting) && forall x :: x in s'.waiting <==> x in s.waiting && x != t
    ensures Next(s, Reset, prio, order).posted == {} && Next(s, Reset, prio, order).waiting == []
  {
    hide Without;
    WithoutMembers(s.waiting, t);
  }

  /** No step of the run takes the flag. */
  predicate Stays(s: State, run: seq<Step>, order: Order, f: int)
    decreases |run|
  {
    run == [] ||
    var s' := Next(s, run[0].a, run[0].prio, order);
    !Clears(s, run[0].a, s', f) && Stays(s', run[1..], order, f)
  }

  /** Some send of the run posts the flag, and neither that send nor a later step takes it. */
  predicate Posted(s: State, run: seq<Step>, order: Order, f: int)
    decreases |run|
  {
    run != [] &&
    var s' := Next(s, run[0].a, run[0].prio, order);
    || (Raises(run[0].a, f) && Stays(s, run, order, f))
    || Posted(s', run[1..], order, f)
  }

  /** In every run a flag is posted exactly if it was at the start or a send of the run posted
      it, and since then there was no reset and no satisfied clearing receiver that asked for it. */
  lemma {:induction false} Conserved(s: State, run: seq<Step>, order: Order, f: int)
    requires Inv(s) && Legal(s, run, order)
    ensures f in Run(s, run, order).posted
       <==> (f in s.posted && Stays(s, run, order, f)) || Posted(s, run, order, f)
    decreases |run|
  {
    hide Inv, Next, Clears, Raises;
    if run != [] {
      var a, p := run[0].a, run[0].prio;
      NextKeeps(s, a, p, order);
      StepConserves(s, a, p, order, f);
      Conserved(Next(s, a, p, order), run[1..], order, f);
    }
  }
}
