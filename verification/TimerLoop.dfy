/** When the loop of rt_timer_check ends. Its rounds act on the due timers like on a queue: the
    first one leaves, its callback takes others out, and a periodic timer with period 0 is due
    again at once and goes to the end. */
module TimerLoop {
  import opened RingList
  import opened SortedList
  import opened TimerSpec

  ghost predicate Ready(s: State) {
    Listed(s) && Flagged(s) && forall x :: 0 <= At(s.init, x)
  }

  predicate Idle(s: State) {
    s.pending == [] || At(s.due, s.pending[0]) > s.now
  }

  /** The state after n rounds, or fewer if nothing is due any more. */
  function Rounds(s: State, cb: Callbacks, n: nat): State
    decreases n
  {
    if n == 0 || Idle(s) then s else Rounds(Fire(s, cb), cb, n - 1)
  }

  ghost predicate Ends(s: State, cb: Callbacks) {
    exists n: nat :: Idle(Rounds(s, cb, n))
  }

  /** Periodic timers with period 0. */
  function Zero(s: State): set<int> {
    set x | x in s.periodic && At(s.init, x) == 0
  }

  // ----- the queue of due timers -----

  function Turn(q: seq<int>, z: set<int>, cb: Callbacks): seq<int>
    requires q != []
  {
    var x := q[0];
    Drop(q[1..], Stops(cb, x)) + if x in z && x !in Stops(cb, x) then [x] else []
  }

  function Turns(q: seq<int>, z: set<int>, cb: Callbacks, n: nat): seq<int>
    decreases n
  {
    if n == 0 || q == [] then q else Turns(Turn(q, z, cb), z, cb, n - 1)
  }

  lemma DropConcat(a: seq<int>, b: seq<int>, xs: seq<int>)
    ensures Drop(a + b, xs) == Drop(a, xs) + Drop(b, xs)
  {
    var h := Elems(a + b) - Elems(xs);
    KeepConcat(a, b, h);
    KeepSame(a, h, Elems(a) - Elems(xs));
    KeepSame(b, h, Elems(b) - Elems(xs));
  }

  lemma TurnSplit(a: seq<int>, b: seq<int>, z: set<int>, cb: Callbacks)
    requires a != []
    ensures var x := a[0];
            Turn(a + b, z, cb)
            == Drop(a[1..], Stops(cb, x)) + (Drop(b, Stops(cb, x)) + if x in z && x !in Stops(cb, x) then [x] else [])
  {
    assert (a + b)[1..] == a[1..] + b;
    DropConcat(a[1..], b, Stops(cb, a[0]));
  }

  /** The timers fired by the first pass over d. */
  lemma FiredStep(d: seq<int>, cb: Callbacks)
    requires d != []
    ensures |Drop(d[1..], Stops(cb, d[0]))| < |d|
    ensures Fired(d, cb) == [d[0]] + Fired(Drop(d[1..], Stops(cb, d[0])), cb)
  {
    KeepShorter(d[1..], Elems(d[1..]) - Elems(Stops(cb, d[0])));
  }

  lemma {:induction false} FiredFrom(d: seq<int>, cb: Callbacks)
    ensures forall x :: x in Fired(d, cb) ==> x in d
    decreases |d|
  {
    if d != [] {
      var rest := Drop(d[1..], Stops(cb, d[0]));
      FiredStep(d, cb);
      FiredFrom(rest, cb);
      DropMembers(d[1..], Stops(cb, d[0]));
    }
  }

  /** Timer x is due again and again if none of the timers f, which are all that ever fire,
      stops it. The timers a have not fired in this pass, the timers b have. */
  lemma {:induction false} StaysForever(a: seq<int>, b: seq<int>, z: set<int>, cb: Callbacks, f: seq<int>, x: int,
                                        n: nat)
    requires (forall y :: y in Fired(a, cb) ==> y in f) && (forall y :: y in b ==> y in f)
    requires x in a + b && x in z && !StoppedBy(f, cb, x)
    ensures x in Turns(a + b, z, cb, n)
    decreases n, if a == [] then 1 else 0
  {
    hide Turn, Drop, StoppedBy;
    if a == [] {
      FiredFrom(b, cb);
      assert a + b == b + [];
      StaysForever(b, [], z, cb, f, x, n);
    } else if n > 0 {
      var y, xs := a[0], Stops(cb, a[0]);
      var a', b' := Drop(a[1..], xs), Drop(b, xs) + if y in z && y !in xs then [y] else [];
      TurnSplit(a, b, z, cb);
      FiredStep(a, cb);
      DropMembers(a[1..], xs);
      DropMembers(b, xs);
      assert y in Fired(a, cb);
      NotStopped(f, cb, x, y);
      assert a == [y] + a[1..];
      StaysForever(a', b', z, cb, f, x, n - 1);
    }
  }

  lemma NotStopped(f: seq<int>, cb: Callbacks, x: int, y: int)
    requires y in f && !StoppedBy(f, cb, x)
    ensures x !in Stops(cb, y)
  {
    var i :| 0 <= i < |f| && f[i] == y;
  }

  lemma HasMember(s: seq<int>)
    ensures s != [] ==> exists x :: x in s
  {
    if s != [] {
      var x := s[0];
      assert x in s;
    }
  }

  /** If everything that would come back is stopped by a timer of the current pass, the queue is
      empty after it. */
  lemma {:induction false} EmptyAfterPass(a: seq<int>, b: seq<int>, z: set<int>, cb: Callbacks)
    requires forall x :: x in a && x in z ==> StoppedBy(Fired(a, cb), cb, x)
    requires forall x :: x in b ==> StoppedBy(Fired(a, cb), cb, x)
    ensures Turns(a + b, z, cb, |Fired(a, cb)|) == []
    decreases |a|
  {
    hide Turn, Drop;
    if a == [] {
      HasMember(b);
      assert a + b == [];
    } else {
      hide StoppedBy;
      var y, xs := a[0], Stops(cb, a[0]);
      var a', b' := Drop(a[1..], xs), Drop(b, xs) + if y in z && y !in xs then [y] else [];
      TurnSplit(a, b, z, cb);
      FiredStep(a, cb);
      DropMembers(a[1..], xs);
      DropMembers(b, xs);
      forall x | (x in a' && x in z) || x in b' ensures StoppedBy(Fired(a', cb), cb, x) {
        assert x in a || x in b;
        PrependStopped(y, Fired(a', cb), cb, x);
      }
      EmptyAfterPass(a', b', z, cb);
    }
  }

  // ----- rounds act on the queue -----

  lemma InsertNow(s: seq<int>, due: map<int, int>, x: int)
    requires Upper(s, due, At(due, x)) <= |s|
    ensures var p := Upper(s, due, At(due, x));
            var r := PlainInsert(s, due, x);
            p + 1 <= |r| && Upper(r, due, At(due, x)) == p + 1 && r[..p + 1] == s[..p] + [x]
  {
    hide PlainInsert, Upper;
    var p := Upper(s, due, At(due, x));
    PlainInsertAt(s, due, x);
    UpperBounds(s, due, At(due, x));
    UpperUnique(InsertAt(s, p, x), due, At(due, x), p + 1);
  }

  lemma IdleExactly(s: State)
    requires Listed(s)
    ensures Upper(s.pending, s.due, s.now) <= |s.pending|
    ensures Idle(s) <==> Due(s) == []
  {
    UpperBounds(s.pending, s.due, s.now);
  }

  /** The state in which the fired timer is started again, if it is. */
  lemma Middle(s: State, cb: Callbacks)
    requires Ready(s) && !Idle(s)
    ensures var x := s.pending[0];
            var xs, tail := Stops(cb, x), s.pending[1..];
            var idle := s.(pending := Drop(tail, xs), active := s.active - Elems(xs) - {x});
            && Fire(s, cb) == (if x in s.periodic && x !in xs then Start(idle, x) else idle)
            && Listed(idle) && (forall y :: y in idle.pending <==> y in idle.active) && x !in idle.pending
            && Upper(idle.pending, s.due, s.now) <= |idle.pending|
            && Upper(s.pending, s.due, s.now) <= |s.pending| && Due(s) != [] && Due(s)[0] == x
            && Due(idle) == Drop(Due(s)[1..], xs)
  {
    hide Upper, PlainInsert, Drop, Sorted, Distinct, StopAll, Without;
    var x := s.pending[0];
    var xs, tail := Stops(cb, x), s.pending[1..];
    TailOrder(s.pending, s.due);
    StopAllDrops(s.(pending := tail), xs);
    DropMembers(tail, xs);
    DropListed(tail, s.due, xs);
    DuePart(s, xs);
  }

  lemma FireIsTurn(s: State, cb: Callbacks)
    requires Ready(s) && !Idle(s)
    ensures Upper(s.pending, s.due, s.now) <= |s.pending| && Due(s) != []
    ensures var s' := Fire(s, cb);
            && Ready(s') && Zero(s') == Zero(s)
            && Upper(s'.pending, s'.due, s'.now) <= |s'.pending|
            && Due(s') == Turn(Due(s), Zero(s), cb)
  {
    hide Upper, PlainInsert, Drop, Sorted, Distinct, Without, Fire;
    var x := s.pending[0];
    var xs := Stops(cb, x);
    var rest := Drop(s.pending[1..], xs);
    var idle := s.(pending := rest, active := s.active - Elems(xs) - {x});
    Middle(s, cb);
    if x in s.periodic && x !in xs {
      StartListed(idle, x);
      WithoutAbsent(rest, x);
      var due := s.due[x := s.now + At(s.init, x)];
      SameKeys(rest, s.due, due, s.now);
      if At(s.init, x) == 0 { InsertNow(rest, due, x); } else { InsertLater(rest, due, x, s.now); }
    }
  }

  lemma {:induction false} RoundsAreTurns(s: State, cb: Callbacks, n: nat)
    requires Ready(s)
    ensures Upper(s.pending, s.due, s.now) <= |s.pending|
    ensures Idle(Rounds(s, cb, n)) <==> Turns(Due(s), Zero(s), cb, n) == []
    decreases n
  {
    hide Fire, Turn;
    IdleExactly(s);
    if n > 0 && !Idle(s) {
      FireIsTurn(s, cb);
      RoundsAreTurns(Fire(s, cb), cb, n - 1);
    }
  }

  // ----- the exact condition -----

  /** The loop of rt_timer_check ends if and only if every due periodic timer with period 0 is
      stopped by the callback of one of the timers that the first pass over the due ones fires. */
  lemma EndsExactly(s: State, cb: Callbacks)
    requires Ready(s)
    ensures Upper(s.pending, s.due, s.now) <= |s.pending|
    ensures Ends(s, cb) <==>
              forall x :: x in Due(s) && x in s.periodic && At(s.init, x) == 0 ==> StoppedBy(Fired(Due(s), cb), cb, x)
  {
    hide StoppedBy, Turns;
    IdleExactly(s);
    var q, z := Due(s), Zero(s);
    var f := Fired(q, cb);
    assert q + [] == q;
    if Ends(s, cb) {
      var n: nat :| Idle(Rounds(s, cb, n));
      RoundsAreTurns(s, cb, n);
      forall x | x in q && x in z ensures StoppedBy(f, cb, x) {
        if !StoppedBy(f, cb, x) {
          StaysForever(q, [], z, cb, f, x, n);
          assert false;
        }
      }
    }
    if forall x :: x in q && x in z ==> StoppedBy(f, cb, x) {
      EmptyAfterPass(q, [], z, cb);
      RoundsAreTurns(s, cb, |f|);
      assert Idle(Rounds(s, cb, |f|));
    }
  }

  /** With callbacks that stop nothing: exactly if no due timer is periodic with period 0. */
  lemma ZeroPeriodNeverEnds(s: State, cb: Callbacks)
    requires Ready(s) && forall x :: Stops(cb, x) == []
    ensures Upper(s.pending, s.due, s.now) <= |s.pending|
    ensures Ends(s, cb) <==> forall x :: x in Due(s) ==> !(x in s.periodic && At(s.init, x) == 0)
  {
    EndsExactly(s, cb);
  }
}
