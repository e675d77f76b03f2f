/** Event flag groups (ipc.c): 32 flags that threads wait for, all or any of some. */
module EventFlags {
  import opened RingList
  import opened SortedList
  import opened WaitList

  /** A 32-bit word of flags, as the set of the numbers of its one bits: `|` is union, `*` is
      intersection and `* ~` is difference. */
  type Flags = set<int>

  /** What a receiver asks for. `all` is RT_EVENT_FLAG_AND, `clear` RT_EVENT_FLAG_CLEAR. */
  datatype Want = Want(flags: Flags, all: bool, clear: bool)

  predicate Satisfied(posted: Flags, w: Want) {
    if w.all then posted * w.flags == w.flags else posted * w.flags != {}
  }

  /** The flags left after a receive. */
  function Left(posted: Flags, w: Want): Flags {
    if Satisfied(posted, w) && w.clear then posted - w.flags else posted
  }

  // ----- the reference: receives one after the other -----

  datatype Outcome = Outcome(posted: Flags, waiting: seq<int>, received: map<int, Flags>)

  function WantOf(wants: map<int, Want>, t: int): Want {
    if t in wants then wants[t] else Want({}, false, false)
  }

  /** A receive without waiting for every queued thread, in list order. The ones that succeed
      leave the list. */
  function Replay(posted: Flags, list: seq<int>, wants: map<int, Want>): Outcome
    decreases |list|
  {
    if list == [] then Outcome(posted, [], map[])
    else
      var t, w := list[0], WantOf(wants, list[0]);
      var r := Replay(Left(posted, w), list[1..], wants);
      if Satisfied(posted, w) then r.(received := r.received[t := posted * w.flags])
      else r.(waiting := [t] + r.waiting)
  }

  ghost predicate Below(a: Flags, b: Flags) {
    a * b == a
  }

  lemma BelowTrans(a: Flags, b: Flags, c: Flags)
    requires Below(a, b) && Below(b, c)
    ensures Below(a, c)
  {
    assert a * c == (a * b) * c == a * (b * c) == a * b;
  }

  lemma Bits(a: Flags, f: Flags)
    ensures a * f == f * a
    ensures Below(a - f, a) && Below(a, a) && Below(a * f, f)
    ensures a - (f * a) == a - f
  {
  }

  lemma LeftBelow(posted: Flags, w: Want)
    ensures Below(Left(posted, w), posted)
  {
    hide Below, Satisfied;
    Bits(posted, w.flags);
  }

  /** Clearing flags satisfies nobody. */
  lemma LessIsNotEnough(a: Flags, b: Flags, w: Want)
    requires Below(a, b) && Satisfied(a, w)
    ensures Satisfied(b, w)
  {
    MoreFlags(a, b, w.flags);
  }

  lemma MoreFlags(a: Flags, b: Flags, f: Flags)
    requires Below(a, b)
    ensures a * f == f ==> b * f == f
    ensures a * f != {} ==> b * f != {}
  {
  }

  lemma {:induction false} ReplayFacts(posted: Flags, list: seq<int>, wants: map<int, Want>)
    ensures Below(Replay(posted, list, wants).posted, posted)
    ensures forall t :: t in Replay(posted, list, wants).waiting ==> t in list
    ensures forall t :: t in Replay(posted, list, wants).received ==> t in list
    ensures Distinct(list) ==> Distinct(Replay(posted, list, wants).waiting)
    ensures forall t :: t in Replay(posted, list, wants).waiting ==>
              !Satisfied(Replay(posted, list, wants).posted, WantOf(wants, t))
    decreases |list|
  {
    hide Satisfied, Left, Below;
    if list == [] {
      Bits(posted, {});
    } else {
      var t, w := list[0], WantOf(wants, list[0]);
      ReplayFacts(Left(posted, w), list[1..], wants);
      var r := Replay(Left(posted, w), list[1..], wants);
      LeftBelow(posted, w);
      BelowTrans(r.posted, Left(posted, w), posted);
      if !Satisfied(posted, w) && Satisfied(r.posted, w) { LessIsNotEnough(r.posted, posted, w); }
      if Distinct(list) {
        HeadTail(list);
        forall j | 0 <= j < |r.waiting| ensures r.waiting[j] != t {
          assert r.waiting[j] in r.waiting;
        }
      }
    }
  }

  /** Each queued thread either stays queued or receives: everything it asked for, or at least
      one of the flags it asked for. */
  lemma {:induction false} ReplaySplits(posted: Flags, list: seq<int>, wants: map<int, Want>, t: int)
    requires Distinct(list) && t in list
    ensures var r := Replay(posted, list, wants);
            && (t in r.waiting <==> t !in r.received)
            && (t in r.received ==>
                  if WantOf(wants, t).all then r.received[t] == WantOf(wants, t).flags
                  else r.received[t] != {} && Below(r.received[t], WantOf(wants, t).flags))
    decreases |list|
  {
    hide Satisfied, Left, Below;
    var w := WantOf(wants, list[0]);
    ReplayFacts(Left(posted, w), list[1..], wants);
    HeadTail(list);
    SameFlags(posted, w);
    if t != list[0] { ReplaySplits(Left(posted, w), list[1..], wants, t); }
  }

  // ----- the step machine -----

  datatype State = State(posted: Flags, waiting: seq<int>, wants: map<int, Want>, received: map<int, Flags>)

  datatype Action = Send(flags: Flags) | Receive(t: int, want: Want, wait: bool) | Timeout(t: int) | Reset

  /** rt_event_send: OR in the flags, then a receive for every queued thread. */
  function SendNext(s: State, flags: Flags): State {
    if flags == {} then s
    else
      var r := Replay(s.posted + flags, s.waiting, s.wants);
      s.(posted := r.posted, waiting := r.waiting, received := s.received + r.received)
  }

  /** rt_event_recv up to the suspension. */
  function ReceiveNext(s: State, t: int, want: Want, wait: bool, prio: map<int, int>, order: Order): State {
    if want.flags == {} then s
    else if Satisfied(s.posted, want) then
      s.(posted := Left(s.posted, want), received := s.received[t := s.posted * want.flags])
    else if !wait then s
    else s.(waiting := Enqueue(s.waiting, prio, t, order), wants := s.wants[t := want])
  }

  function Next(s: State, a: Action, prio: map<int, int>, order: Order): State {
    match a
    case Send(flags) => SendNext(s, flags)
    case Receive(t, want, wait) => ReceiveNext(s, t, want, wait, prio, order)
    case Timeout(t) => s.(waiting := Without(s.waiting, t))
    case Reset => s.(posted := {}, waiting := [])
  }

  /** A suspended thread calls nothing. */
  predicate Enabled(s: State, a: Action) {
    a.Receive? ==> a.t !in s.waiting
  }

  /** Nobody waits for something that is there. */
  ghost predicate Inv(s: State) {
    Distinct(s.waiting) && forall t :: t in s.waiting ==> !Satisfied(s.posted, WantOf(s.wants, t))
  }

  lemma NextKeeps(s: State, a: Action, prio: map<int, int>, order: Order)
    requires Inv(s) && Enabled(s, a)
    ensures Inv(Next(s, a, prio, order))
  {
    hide Satisfied, Left, Replay, Enqueue, Without;
    match a
    case Send(flags) =>
      if flags != {} { ReplayFacts(s.posted + flags, s.waiting, s.wants); }
    case Receive(t, want, wait) =>
      EnqueueMembers(s.waiting, prio, t, order);
      LeftBelow(s.posted, want);
      forall x | x in s.waiting ensures !Satisfied(Left(s.posted, want), WantOf(s.wants, x)) {
        if Satisfied(Left(s.posted, want), WantOf(s.wants, x)) {
          LessIsNotEnough(Left(s.posted, want), s.posted, WantOf(s.wants, x));
        }
      }
    case Timeout(t) =>
      WithoutMembers(s.waiting, t);
      WithoutDistinct(s.waiting, t);
    case Reset =>
  }

  // ----- what a send does -----

  /** The flags that the clearing ones among the threads `gone` of the list asked for. */
  function Taken(list: seq<int>, gone: set<int>, wants: map<int, Want>): Flags {
    if list == [] then {}
    else
      var w := WantOf(wants, list[0]);
      (if list[0] in gone && w.clear then w.flags else {}) + Taken(list[1..], gone, wants)
  }

  lemma {:induction false} TakenSame(list: seq<int>, g: set<int>, g': set<int>, wants: map<int, Want>)
    requires forall x :: x in list ==> (x in g <==> x in g')
    ensures Taken(list, g, wants) == Taken(list, g', wants)
  {
    if list != [] {
      assert list[0] in list;
      TakenSame(list[1..], g, g', wants);
    }
  }

  /** What is still posted when the turn of thread i of the list comes. */
  function Before(posted: Flags, list: seq<int>, i: nat, gone: set<int>, wants: map<int, Want>): Flags
    requires i <= |list|
  {
    posted - Taken(list[..i], gone, wants)
  }

  lemma ReplayHead(posted: Flags, list: seq<int>, wants: map<int, Want>)
    requires list != [] && Distinct(list)
    ensures var t, w, r := list[0], WantOf(wants, list[0]), Replay(posted, list, wants);
            var q := Replay(Left(posted, w), list[1..], wants);
            && (t in r.received <==> Satisfied(posted, w)) && (t in r.received ==> r.received[t] == posted * w.flags)
            && t !in q.received && r.received.Keys == q.received.Keys + (if Satisfied(posted, w) then {t} else {})
            && (forall x :: x in q.received ==> r.received[x] == q.received[x]) && r.posted == q.posted
  {
    hide Satisfied, Left;
    HeadTail(list);
    ReplayFacts(Left(posted, WantOf(wants, list[0])), list[1..], wants);
  }

  /** The flags left for the i-th thread, seen from the head and from its successor. */
  lemma BeforeTail(posted: Flags, list: seq<int>, i: nat, wants: map<int, Want>)
    requires 0 < i <= |list| && Distinct(list)
    ensures var p' := Left(posted, WantOf(wants, list[0]));
            Before(posted, list, i, Replay(posted, list, wants).received.Keys, wants) ==
            Before(p', list[1..], i - 1, Replay(p', list[1..], wants).received.Keys, wants)
  {
    hide Satisfied, Replay;
    var w := WantOf(wants, list[0]);
    var g := Replay(posted, list, wants).received.Keys;
    var g' := Replay(Left(posted, w), list[1..], wants).received.Keys;
    ReplayHead(posted, list, wants);
    HeadTail(list);
    assert list[..i][1..] == list[1..][..i - 1];
    TakenSame(list[1..][..i - 1], g, g', wants);
    var rest := Taken(list[1..][..i - 1], g', wants);
    assert (posted - w.flags) - rest == posted - (w.flags + rest);
    assert {} + rest == rest;
  }

  lemma {:induction false} ReplayExact(posted: Flags, list: seq<int>, wants: map<int, Want>, i: nat)
    requires i < |list| && Distinct(list)
    ensures var r, w := Replay(posted, list, wants), WantOf(wants, list[i]);
            var have := Before(posted, list, i, r.received.Keys, wants);
            && (list[i] in r.received <==> Satisfied(have, w))
            && (list[i] in r.received ==> r.received[list[i]] == have * w.flags)
    decreases |list|
  {
    hide Satisfied, Replay, Left;
    ReplayHead(posted, list, wants);
    if i == 0 {
      assert posted - Taken(list[..0], Replay(posted, list, wants).received.Keys, wants) == posted;
    } else {
      BeforeTail(posted, list, i, wants);
      hide Before;
      HeadTail(list);
      assert list[i] == list[1..][i - 1];
      ReplayExact(Left(posted, WantOf(wants, list[0])), list[1..], wants, i - 1);
    }
  }

  lemma {:induction false} ReplayPosted(posted: Flags, list: seq<int>, wants: map<int, Want>)
    requires Distinct(list)
    ensures var r := Replay(posted, list, wants);
            r.posted == Before(posted, list, |list|, r.received.Keys, wants)
    decreases |list|
  {
    hide Satisfied, Left;
    if list == [] {
      assert posted - {} == posted;
    } else {
      var w := WantOf(wants, list[0]);
      ReplayHead(posted, list, wants);
      hide Replay;
      HeadTail(list);
      ReplayPosted(Left(posted, w), list[1..], wants);
      BeforeTail(posted, list, |list|, wants);
    }
  }

  lemma {:induction false} ReplayOrder(posted: Flags, list: seq<int>, wants: map<int, Want>, h: set<int>)
    requires Distinct(list) && forall x :: x in list ==> (x in h <==> x !in Replay(posted, list, wants).received)
    ensures Replay(posted, list, wants).waiting == Keep(list, h)
    decreases |list|
  {
    hide Satisfied, Left;
    if list != [] {
      ReplayHead(posted, list, wants);
      HeadTail(list);
      assert list[0] in list;
      ReplayOrder(Left(posted, WantOf(wants, list[0])), list[1..], wants, h);
    }
  }

  /** The threads of the list that a step took out of it. */
  function Gone(s: State, s': State): set<int> {
    set t | t in s.waiting && t !in s'.waiting
  }

  /** A send of `flags` from s to s': what is posted is the old flags and the new ones without
      those that the resumed clearing threads asked for. Each thread, in the order of the list, is
      resumed exactly if it is satisfied by what those before it left of that union, and then
      receives the flags it asked for out of it. The others keep their places. */
  ghost predicate Sent(s: State, flags: Flags, s': State) {
    var all, gone := s.posted + flags, Gone(s, s');
    && s'.posted == all - Taken(s.waiting, gone, s.wants)
    && (forall i :: 0 <= i < |s.waiting| ==> SentTo(s, all, gone, s', i))
    && s'.waiting == Keep(s.waiting, Elems(s.waiting) - gone)
    && (forall t :: t !in gone ==> (t in s'.received <==> t in s.received))
    && (forall t :: t !in gone && t in s.received ==> s'.received[t] == s.received[t])
    && s'.wants == s.wants
  }

  ghost predicate SentTo(s: State, all: Flags, gone: set<int>, s': State, i: nat)
    requires i < |s.waiting|
  {
    var t, w, have := s.waiting[i], WantOf(s.wants, s.waiting[i]), Before(all, s.waiting, i, gone, s.wants);
    && (t in gone <==> Satisfied(have, w))
    && (t in gone ==> t in s'.received && s'.received[t] == have * w.flags)
  }

  lemma GoneReceived(s: State, flags: Flags)
    requires Distinct(s.waiting) && flags != {}
    ensures Gone(s, SendNext(s, flags)) == Replay(s.posted + flags, s.waiting, s.wants).received.Keys
  {
    hide Replay;
    var s', r := SendNext(s, flags), Replay(s.posted + flags, s.waiting, s.wants);
    ReplayFacts(s.posted + flags, s.waiting, s.wants);
    forall t ensures t in Gone(s, s') <==> t in r.received.Keys {
      if t in s.waiting { ReplaySplits(s.posted + flags, s.waiting, s.wants, t); }
    }
  }

  /** One send conserves the flags. */
  lemma SendConserves(s: State, flags: Flags)
    requires Distinct(s.waiting) && flags != {}
    ensures Sent(s, flags, SendNext(s, flags))
  {
    hide Replay, Satisfied, Taken;
    var s', all := SendNext(s, flags), s.posted + flags;
    var r := Replay(all, s.waiting, s.wants);
    GoneReceived(s, flags);
    ReplayPosted(all, s.waiting, s.wants);
    ReplayOrder(all, s.waiting, s.wants, Elems(s.waiting) - r.received.Keys);
    assert s.waiting[..|s.waiting|] == s.waiting;
    forall i | 0 <= i < |s.waiting| ensures SentTo(s, all, Gone(s, s'), s', i) {
      ReplayExact(all, s.waiting, s.wants, i);
    }
  }

  datatype Step = Step(a: Action, prio: map<int, int>)

  function Run(s: State, run: seq<Step>, order: Order): State
    decreases |run|
  {
    if run == [] then s else Run(Next(s, run[0].a, run[0].prio, order), run[1..], order)
  }

  predicate Legal(s: State, run: seq<Step>, order: Order)
    decreases |run|
  {
    run == [] || (Enabled(s, run[0].a) && Legal(Next(s, run[0].a, run[0].prio, order), run[1..], order))
  }

  /** In every reachable state no queued thread's condition is met. */
  lemma {:induction false} RunKeeps(s: State, run: seq<Step>, order: Order)
    requires Inv(s) && Legal(s, run, order)
    ensures Inv(Run(s, run, order))
    decreases |run|
  {
    hide Inv, Next;
    if run != [] {
      NextKeeps(s, run[0].a, run[0].prio, order);
      RunKeeps(Next(s, run[0].a, run[0].prio, order), run[1..], order);
    }
  }

  // ----- the object -----

  datatype Result = Received(flags: Flags) | Error | TimedOut | Suspended

  class EventObject {
    const order: Order
    var posted: Flags
    var waiting: seq<int>
    /** event_set and event_info of the waiting threads. */
    var wants: map<int, Want>
    /** event_set of the threads that received something. */
    var received: map<int, Flags>

    ghost function View(): State
      reads this
    {
      State(posted, waiting, wants, received)
    }

    ghost predicate Valid()
      reads this
    {
      Inv(View()) && forall t :: t in waiting ==> t in wants
    }

    /** rt_event_init. */
    constructor (order: Order)
      ensures Valid() && View() == State({}, [], map[], map[]) && this.order == order
    {
      this.order := order;
      posted, waiting, wants, received := {}, [], map[], map[];
    }

    /** rt_event_send: one pass over the wait list that resumes threads and clears flags on
        the way. */
    method Send(flags: Flags) returns (ok: bool)
      requires Valid()
      modifies this
      ensures Valid() && View() == SendNext(old(View()), flags)
      ensures ok <==> flags != {}
      ensures if ok then Sent(old(View()), flags, View()) else View() == old(View())
    {
      hide Replay, Pending, Satisfied, Left, Sent;
      if flags == {} {
        return false;
      }
      SendConserves(View(), flags);
      NextKeeps(View(), Action.Send(flags), map[], order);
      ReplayFacts(posted + flags, waiting, wants);
      posted := posted + flags;
      var n := 0;
      ghost var all := Replay(posted, waiting, wants);
      ReplayStart(posted, waiting, wants);
      while n < |waiting|
        invariant 0 <= n <= |waiting| && wants == old(wants)
        invariant forall t :: t in waiting ==> t in wants
        invariant Pending(posted, waiting, n, wants, received, old(received), all)
        decreases |waiting| - n
      {
        var t := waiting[n];
        var w := wants[t];
        PendingStep(posted, waiting, n, wants, received, old(received), all);
        var ok := false;
        var got := w.flags;
        if w.all {
          if w.flags * posted == w.flags {
            ok := true;
          }
        } else if w.flags * posted != {} {
          got := w.flags * posted;
          ok := true;
        }
        SameFlags(posted, w);
        if ok {
          received := received[t := got];
          if w.clear {
            posted := posted - got;
          }
          waiting := waiting[..n] + waiting[n + 1..];
        } else {
          n := n + 1;
        }
      }
      PendingEnd(posted, waiting, wants, received, old(received), all);
      return true;
    }

    /** rt_event_recv up to the suspension. */
    method Receive(t: int, want: Want, wait: bool, prio: map<int, int>) returns (r: Result)
      requires Valid() && t !in waiting
      modifies this
      ensures Valid() && View() == ReceiveNext(old(View()), t, want, wait, prio, order)
      ensures r == if want.flags == {} then Error
                   else if Satisfied(old(posted), want) then Received(old(posted) * want.flags)
                   else if wait then Suspended else TimedOut
      ensures posted == if r.Received? && want.clear then old(posted) - want.flags else old(posted)
      ensures r == Suspended ==> t in waiting && Without(waiting, t) == old(waiting) && wants == old(wants)[t := want]
      ensures r != Suspended ==> waiting == old(waiting) && wants == old(wants)
    {
      EnqueueKeeps(waiting, prio, t, order);
      hide Enqueue, Inv, Left, Without;
      NextKeeps(View(), Action.Receive(t, want, wait), prio, order);
      LeftIs(posted, want);
      if want.flags == {} {
        return Error;
      }
      var ok := if want.all then posted * want.flags == want.flags else posted * want.flags != {};
      if ok {
        var flags := posted * want.flags;
        received := received[t := flags];
        if want.clear {
          posted := posted - want.flags;
        }
        return Received(flags);
      } else if !wait {
        return TimedOut;
      }
      EnqueueMembers(waiting, prio, t, order);
      wants := wants[t := want];
      waiting := Suspend(waiting, prio, t, order);
      return Suspended;
    }
  }

  /** rt_event_send tests, hands out and clears as a receive does. */
  lemma SameFlags(posted: Flags, w: Want)
    ensures Satisfied(posted, w) <==> if w.all then w.flags * posted == w.flags else w.flags * posted != {}
    ensures Satisfied(posted, w) ==> posted * w.flags == Given(posted, w)
    ensures Satisfied(posted, w) ==> Left(posted, w) == if w.clear then posted - Given(posted, w) else posted
    ensures Satisfied(posted, w) ==> if w.all then Given(posted, w) == w.flags
                                     else Given(posted, w) != {} && Below(Given(posted, w), w.flags)
  {
    hide Below;
    Bits(posted, w.flags);
  }

  /** What rt_event_send leaves in event_set of a thread that it resumes. */
  function Given(posted: Flags, w: Want): Flags {
    if w.all then w.flags else w.flags * posted
  }

  /** The pass has dealt with the first n threads that are still listed; replaying the rest
      gives the final outcome. */
  ghost predicate Pending(posted: Flags, list: seq<int>, n: nat, wants: map<int, Want>,
                          got: map<int, Flags>, got0: map<int, Flags>, all: Outcome)
    requires n <= |list|
  {
    && Distinct(list)
    && all.posted == Replay(posted, list[n..], wants).posted
    && all.waiting == list[..n] + Replay(posted, list[n..], wants).waiting
    && got0 + all.received == got + Replay(posted, list[n..], wants).received
  }

  lemma ReplayStart(posted: Flags, list: seq<int>, wants: map<int, Want>)
    requires Distinct(list)
    ensures forall got :: Pending(posted, list, 0, wants, got, got, Replay(posted, list, wants))
  {
    assert list[0..] == list;
    assert forall r: seq<int> :: list[..0] + r == r;
  }

  lemma PendingEnd(posted: Flags, list: seq<int>, wants: map<int, Want>,
                   got: map<int, Flags>, got0: map<int, Flags>, all: Outcome)
    requires Pending(posted, list, |list|, wants, got, got0, all)
    ensures posted == all.posted && list == all.waiting && got == got0 + all.received
  {
    assert got + map[] == got;
  }

  lemma PendingStep(posted: Flags, list: seq<int>, n: nat, wants: map<int, Want>,
                    got: map<int, Flags>, got0: map<int, Flags>, all: Outcome)
    requires n < |list| && Pending(posted, list, n, wants, got, got0, all)
    ensures var t, w := list[n], WantOf(wants, list[n]);
            if Satisfied(posted, w) then
              Pending(Left(posted, w), list[..n] + list[n + 1..], n, wants, got[t := posted * w.flags], got0, all)
            else
              Pending(posted, list, n + 1, wants, got, got0, all)
  {
    hide Satisfied, Left;
    var t, w, rest := list[n], WantOf(wants, list[n]), list[n + 1..];
    assert list[n..][0] == t && list[n..][1..] == rest;
    var r := Replay(Left(posted, w), rest, wants);
    ReplayFacts(Left(posted, w), rest, wants);
    if Satisfied(posted, w) {
      var l := list[..n] + rest;
      assert l[n..] == rest && l[..n] == list[..n];
      assert t !in r.received;
      var a := posted * w.flags;
      assert got + r.received[t := a] == got[t := a] + r.received;
    } else {
      assert list[..n] + ([t] + r.waiting) == list[..n + 1] + r.waiting;
      assert Left(posted, w) == posted by { NotCleared(posted, w); }
    }
  }

  lemma LeftIs(posted: Flags, w: Want)
    ensures Left(posted, w) == if Satisfied(posted, w) && w.clear then posted - w.flags else posted
  {
  }

  lemma NotCleared(posted: Flags, w: Want)
    requires !Satisfied(posted, w)
    ensures Left(posted, w) == posted
  {
  }
}
