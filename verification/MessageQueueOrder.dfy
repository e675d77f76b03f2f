/** What receivers end up with over whole runs of a message queue, with any number of sends and
    receives under way at the same time. */
module MessageQueueOrder {
  import opened WaitList
  import opened MessageQueueSpec

  /** The past of a run. `took` are the messages taken from the queue; receives are numbered in
      this order. `number` is the receive that holds a slot, `asked` how many bytes each one
      copies, and `got` the buffers of those that are complete. `linked` is what the last sender
      of a slot passed, and `source` the same for the message of a receive. */
  datatype Trace = Trace(s: State, took: seq<Bytes>, number: map<int, nat>, asked: map<nat, nat>, got: map<nat, Bytes>,
                         linked: map<int, Bytes>, source: map<nat, Bytes>)

  ghost function TraceNext(r: Trace, a: Action, prio: map<int, int>, order: Order): Trace
    requires Inv(r.s) && Enabled(r.s, a)
  {
    var r' := r.(s := Next(r.s, a, prio, order));
    match a
    case LinkTail(x) => r'.(linked := r.linked[x := r.s.sending[x].buf])
    case LinkHead(x) => r'.(linked := r.linked[x := r.s.sending[x].buf])
    case Take(_, size, _) =>
      if r.s.queue == [] then r'
      else
        QueuedAt(r.s);
        var x, k := r.s.queue[0], |r.took|;
        r'.(took := r.took + [r.s.data[x]], number := r.number[x := k],
            asked := r.asked[k := if size > r.s.msgSize then r.s.msgSize else size],
            source := if x in r.linked then r.source[k := r.linked[x]] else r.source)
    case GiveBack(x) =>
      if x in r.number then r'.(number := r.number - {x}, got := r.got[r.number[x] := r.s.receiving[x].out])
      else r'
    case _ => r'
  }

  // ----- what every step keeps -----

  /** The receive that holds slot x copies the message of its number. */
  ghost predicate Reading(r: Trace, x: int)
    requires x in r.s.receiving
  {
    && x in r.number && r.number[x] < |r.took| && r.number[x] in r.asked
    && r.s.receiving[x].msg == r.took[r.number[x]]
    && r.s.receiving[x].want == r.asked[r.number[x]]
  }

  /** Receive number k ended with the first bytes of the message it took. */
  ghost predicate Complete(r: Trace, k: nat)
    requires k in r.got
  {
    k < |r.took| && k in r.asked && r.asked[k] <= |r.took[k]| && r.got[k] == r.took[k][..r.asked[k]]
  }

  /** The same number is not given twice, and no complete receive is still under way. */
  ghost predicate Numbered(r: Trace) {
    && (forall x :: x in r.number ==> x in r.s.receiving)
    && (forall x, y :: x in r.number && y in r.number && r.number[x] == r.number[y] ==> x == y)
    && (forall k :: k in r.got ==> k < |r.took|)
    && (forall x :: x in r.number ==> r.number[x] !in r.got)
  }

  /** Queued slots and taken messages begin with what their senders passed. */
  ghost predicate Sourced(r: Trace) {
    && (forall x :: x in r.s.queue && x in r.linked && x in r.s.data ==> r.linked[x] <= r.s.data[x])
    && (forall k :: k in r.source ==> k < |r.took| && r.source[k] <= r.took[k])
  }

  ghost predicate TraceInv(r: Trace) {
    && Inv(r.s) && Numbered(r) && Sourced(r)
    && (forall x :: x in r.s.receiving ==> Reading(r, x))
    && (forall k :: k in r.got ==> Complete(r, k))
  }

  lemma LinkTraced(r: Trace, a: Action, prio: map<int, int>, order: Order)
    requires TraceInv(r) && Enabled(r.s, a) && (a.LinkTail? || a.LinkHead?)
    ensures TraceInv(TraceNext(r, a, prio, order))
  {
    hide Inv, Contents;
    NextKeeps(r.s, a, prio, order);
    NextRefines(r.s, a, prio, order);
    var r' := TraceNext(r, a, prio, order);
    forall y | y in r'.s.receiving ensures Reading(r', y) { assert Reading(r, y); }
    forall k | k in r'.got ensures Complete(r', k) { assert Complete(r, k); }
  }

  /** A receive that finds a message. */
  lemma TakeFacts(s: State, t: int, size: nat, wait: bool, prio: map<int, int>, order: Order)
    requires Inv(s) && Enabled(s, Take(t, size, wait)) && s.queue != []
    ensures var s', x := Next(s, Take(t, size, wait), prio, order), s.queue[0];
            && x in s.data && x !in s.receiving
            && s'.receiving == s.receiving[x := Receiving(s.data[x], if size > s.msgSize then s.msgSize else size, [])]
            && s'.queue == s.queue[1..] && s'.data == s.data
  {
    QueuedAt(s);
    assert OnePlace(s, s.queue[0]) && s.queue[0] in s.queue;
  }

  lemma TakeTraced(r: Trace, t: int, size: nat, wait: bool, prio: map<int, int>, order: Order)
    requires TraceInv(r) && Enabled(r.s, Take(t, size, wait)) && r.s.queue != []
    ensures TraceInv(TraceNext(r, Take(t, size, wait), prio, order))
  {
    var a := Take(t, size, wait);
    NextKeeps(r.s, a, prio, order);
    TakeFacts(r.s, t, size, wait, prio, order);
    TakeNumbered(r, t, size, wait, prio, order);
    TakeSourced(r, t, size, wait, prio, order);
    hide Inv, Next, Numbered, Sourced;
    var r', x := TraceNext(r, a, prio, order), r.s.queue[0];
    forall y | y in r'.s.receiving ensures Reading(r', y) {
      if y != x { assert Reading(r, y); }
    }
    forall k | k in r'.got ensures Complete(r', k) { assert Complete(r, k); }
  }

  lemma TakeNumbered(r: Trace, t: int, size: nat, wait: bool, prio: map<int, int>, order: Order)
    requires TraceInv(r) && Enabled(r.s, Take(t, size, wait)) && r.s.queue != []
    ensures Numbered(TraceNext(r, Take(t, size, wait), prio, order))
  {
    hide Inv, Next, Sourced;
    TakeFacts(r.s, t, size, wait, prio, order);
    forall y | y in r.number ensures r.number[y] < |r.took| && y != r.s.queue[0] { assert Reading(r, y); }
  }

  lemma TakeSourced(r: Trace, t: int, size: nat, wait: bool, prio: map<int, int>, order: Order)
    requires TraceInv(r) && Enabled(r.s, Take(t, size, wait)) && r.s.queue != []
    ensures Sourced(TraceNext(r, Take(t, size, wait), prio, order))
  {
    hide Inv, Next, Numbered, Reading, Complete;
    TakeFacts(r.s, t, size, wait, prio, order);
    var x := r.s.queue[0];
    assert x in r.s.queue;
  }

  lemma GiveBackTraced(r: Trace, x: int, prio: map<int, int>, order: Order)
    requires TraceInv(r) && Enabled(r.s, GiveBack(x))
    ensures TraceInv(TraceNext(r, GiveBack(x), prio, order))
  {
    hide Inv;
    var a := GiveBack(x);
    NextKeeps(r.s, a, prio, order);
    Delivered(r.s, x);
    var r' := TraceNext(r, a, prio, order);
    assert Reading(r, x);
    forall y | y in r'.s.receiving ensures Reading(r', y) { assert Reading(r, y); }
    forall k | k in r'.got ensures Complete(r', k) {
      if k != r.number[x] { assert Complete(r, k); }
    }
  }

  /** Steps that neither link, take nor give back a slot. */
  lemma QuietFacts(s: State, a: Action, prio: map<int, int>, order: Order)
    requires Inv(s) && Enabled(s, a)
    requires !a.LinkTail? && !a.LinkHead? && !a.GiveBack? && (a.Take? ==> s.queue == [])
    ensures var s' := Next(s, a, prio, order);
            && (forall x :: x in s'.queue && x in s'.data ==> x in s.queue && x in s.data && s'.data[x] == s.data[x])
            && s'.receiving.Keys == s.receiving.Keys
            && forall x :: x in s.receiving ==>
                 s'.receiving[x].msg == s.receiving[x].msg && s'.receiving[x].want == s.receiving[x].want
  {
    if a.FillByte? { SendingAt(s, a.x); }
    hide Inv;
  }

  lemma QuietTraced(r: Trace, a: Action, prio: map<int, int>, order: Order)
    requires TraceInv(r) && Enabled(r.s, a)
    requires !a.LinkTail? && !a.LinkHead? && !a.GiveBack? && (a.Take? ==> r.s.queue == [])
    ensures TraceInv(TraceNext(r, a, prio, order))
  {
    hide Inv, Next;
    NextKeeps(r.s, a, prio, order);
    QuietFacts(r.s, a, prio, order);
    var r' := TraceNext(r, a, prio, order);
    assert r' == r.(s := r'.s);
    forall y | y in r'.s.receiving ensures Reading(r', y) { assert Reading(r, y); }
    forall k | k in r'.got ensures Complete(r', k) { assert Complete(r, k); }
  }

  lemma NextTraced(r: Trace, a: Action, prio: map<int, int>, order: Order)
    requires TraceInv(r) && Enabled(r.s, a)
    ensures TraceInv(TraceNext(r, a, prio, order))
  {
    hide TraceInv, TraceNext;
    if a.LinkTail? || a.LinkHead? { LinkTraced(r, a, prio, order); }
    else if a.GiveBack? { GiveBackTraced(r, a.x, prio, order); }
    else if a.Take? && r.s.queue != [] { TakeTraced(r, a.t, a.size, a.wait, prio, order); }
    else { QuietTraced(r, a, prio, order); }
  }

  /** The messages taken are those that the events take. */
  lemma TookNext(r: Trace, a: Action, prio: map<int, int>, order: Order)
    requires Inv(r.s) && Enabled(r.s, a)
    ensures var q, r' := Contents(r.s.queue, r.s.data), TraceNext(r, a, prio, order);
            && r'.s == Next(r.s, a, prio, order)
            && r'.took == r.took + if EventOf(r.s, a).Got? && q != [] then [q[0]] else []
  {
    if a.Take? && r.s.queue != [] { QueuedAt(r.s); }
  }

  // ----- runs -----

  ghost function TraceRun(r: Trace, run: seq<Step>, order: Order): Trace
    requires Inv(r.s) && Legal(r.s, run, order)
    decreases |run|
  {
    if run == [] then r
    else
      NextKeeps(r.s, run[0].a, run[0].prio, order);
      TraceRun(TraceNext(r, run[0].a, run[0].prio, order), run[1..], order)
  }

  lemma {:induction false} TraceRunKeeps(r: Trace, run: seq<Step>, order: Order)
    requires TraceInv(r) && Legal(r.s, run, order)
    ensures TraceInv(TraceRun(r, run, order))
    decreases |run|
  {
    if run != [] {
      var a, p := run[0].a, run[0].prio;
      NextKeeps(r.s, a, p, order);
      NextTraced(r, a, p, order);
      TookNext(r, a, p, order);
      hide TraceInv, TraceNext, Next, Inv;
      TraceRunKeeps(TraceNext(r, a, p, order), run[1..], order);
    }
  }

  lemma GotsCons(q: seq<Bytes>, e: Event, es: seq<Event>)
    ensures Gots(q, [e] + es) == (if e.Got? && q != [] then [q[0]] else []) + Gots(Apply(q, e), es)
  {
    assert ([e] + es)[1..] == es && ([e] + es)[0] == e;
  }

  lemma {:induction false} TookRun(r: Trace, run: seq<Step>, order: Order)
    requires Inv(r.s) && Legal(r.s, run, order)
    ensures var e := TraceRun(r, run, order);
            && e.s == Run(r.s, run, order)
            && e.took == r.took + Gots(Contents(r.s.queue, r.s.data), Events(r.s, run, order))
    decreases |run|
  {
    hide Inv, TraceNext, Next, Contents, Apply, Gots, EventOf;
    if run == [] {
      assert Gots(Contents(r.s.queue, r.s.data), []) == [] by { NoGots(Contents(r.s.queue, r.s.data)); }
    } else {
      var a, p, q := run[0].a, run[0].prio, Contents(r.s.queue, r.s.data);
      NextKeeps(r.s, a, p, order);
      NextRefines(r.s, a, p, order);
      TookNext(r, a, p, order);
      TookRun(TraceNext(r, a, p, order), run[1..], order);
      GotsCons(q, EventOf(r.s, a), Events(Next(r.s, a, p, order), run[1..], order));
    }
  }

  lemma NoGots(q: seq<Bytes>)
    ensures Gots(q, []) == []
  {
  }

  /** Nothing has been taken yet. */
  ghost function Begin(s: State): Trace {
    Trace(s, [], map[], map[], map[], map[], map[])
  }

  /** In every run of overlapping sends, urgent sends, receives and resets from a state without
      receives under way: receive number k ends with the first bytes of the message that the
      k-th receiving event of the run takes. If that message was sent in the run and the receive
      asked for no more than its sender passed, it has the first bytes of the sender's buffer. */
  lemma DeliveredByEvents(s: State, run: seq<Step>, order: Order)
    requires Inv(s) && s.receiving == map[] && Legal(s, run, order)
    ensures var e, gots := TraceRun(Begin(s), run, order), Gots(Contents(s.queue, s.data), Events(s, run, order));
            && e.s == Run(s, run, order)
            && (forall k :: k in e.got ==>
                  && k < |gots| && k in e.asked && e.asked[k] <= |gots[k]|
                  && e.got[k] == gots[k][..e.asked[k]])
            && (forall k :: k in e.got && k in e.source && k in e.asked && e.asked[k] <= |e.source[k]| ==>
                  e.got[k] == e.source[k][..e.asked[k]])
  {
    hide Inv, Contents;
    var r := Begin(s);
    assert TraceInv(r);
    TraceRunKeeps(r, run, order);
    TookRun(r, run, order);
    var e := TraceRun(r, run, order);
    assert e.took == Gots(Contents(s.queue, s.data), Events(s, run, order));
    forall k | k in e.got ensures Complete(e, k) && Arrived(e, k) { CompleteArrived(e, k); }
  }

  ghost predicate Arrived(r: Trace, k: nat)
    requires k in r.got && k in r.asked
  {
    k in r.source && r.asked[k] <= |r.source[k]| ==> r.got[k] == r.source[k][..r.asked[k]]
  }

  lemma CompleteArrived(r: Trace, k: nat)
    requires TraceInv(r) && k in r.got
    ensures Complete(r, k) && Arrived(r, k)
  {
    assert Complete(r, k);
    if k in r.source && r.asked[k] <= |r.source[k]| { PrefixOfPrefix(r.source[k], r.took[k], r.asked[k]); }
  }

  lemma PrefixOfPrefix(a: Bytes, b: Bytes, n: nat)
    requires a <= b && n <= |a|
    ensures b[..n] == a[..n]
  {
    assert b[..|a|] == a;
  }

  // ----- without urgent messages and resets -----

  /** What the senders of a run passed, in the order in which their messages were queued. */
  ghost function Buffers(s: State, run: seq<Step>, order: Order): seq<Bytes>
    requires Inv(s) && Legal(s, run, order)
    decreases |run|
  {
    if run == [] then []
    else
      var a, p := run[0].a, run[0].prio;
      NextKeeps(s, a, p, order);
      (if a.LinkTail? then [s.sending[a.x].buf] else []) + Buffers(Next(s, a, p, order), run[1..], order)
  }

  /** Each message begins with the buffer of its number. */
  ghost predicate BeginWith(messages: seq<Bytes>, bufs: seq<Bytes>) {
    |bufs| == |messages| && forall i :: 0 <= i < |bufs| ==> bufs[i] <= messages[i]
  }

  lemma BeginCons(m: Bytes, b: Bytes, messages: seq<Bytes>, bufs: seq<Bytes>)
    requires b <= m && BeginWith(messages, bufs)
    ensures BeginWith([m] + messages, [b] + bufs)
  {
  }

  lemma PutsCons(e: Event, es: seq<Event>)
    ensures Puts([e] + es) == (if e.Put? then [e.m] else []) + Puts(es)
  {
    assert ([e] + es)[1..] == es && ([e] + es)[0] == e;
  }

  lemma LinkIsPut(s: State, a: Action)
    requires Inv(s) && Enabled(s, a)
    ensures EventOf(s, a).Put? <==> a.LinkTail?
    ensures a.LinkTail? ==> s.sending[a.x].buf <= EventOf(s, a).m
  {
    if a.LinkTail? {
      SendingAt(s, a.x);
      var d := s.sending[a.x];
      assert s.data[a.x][..|d.buf|] == d.buf[..|d.buf|] == d.buf;
    }
  }

  lemma {:induction false} BuffersArePut(s: State, run: seq<Step>, order: Order)
    requires Inv(s) && Legal(s, run, order)
    ensures BeginWith(Puts(Events(s, run, order)), Buffers(s, run, order))
    decreases |run|
  {
    if run != [] {
      hide Inv, Next, BeginWith, EventOf, Puts;
      var a, p := run[0].a, run[0].prio;
      NextKeeps(s, a, p, order);
      LinkIsPut(s, a);
      var s' := Next(s, a, p, order);
      BuffersArePut(s', run[1..], order);
      var es, bufs := Events(s', run[1..], order), Buffers(s', run[1..], order);
      PutsCons(EventOf(s, a), es);
      if a.LinkTail? { BeginCons(EventOf(s, a).m, s.sending[a.x].buf, Puts(es), bufs); }
      assert [] + Puts(es) == Puts(es) && [] + bufs == bufs;
    }
  }

  /** The buffer b holds the first n bytes of message number k, and those of the k-th sender as
      far as it passed any. */
  ghost predicate HoldsMessage(b: Bytes, n: nat, k: nat, before: seq<Bytes>, sent: seq<Bytes>, bufs: seq<Bytes>) {
    && |bufs| == |sent| && k < |before| + |sent|
    && var m := if k < |before| then before[k] else sent[k - |before|];
       && n <= |m| && b == m[..n]
       && (k >= |before| && n <= |bufs[k - |before|]| ==> b == bufs[k - |before|][..n])
  }

  lemma HoldsIs(b: Bytes, n: nat, k: nat, gots: seq<Bytes>, left: seq<Bytes>, before: seq<Bytes>, sent: seq<Bytes>,
                  bufs: seq<Bytes>)
    requires before + sent == gots + left && BeginWith(sent, bufs)
    requires k < |gots| && n <= |gots[k]| && b == gots[k][..n]
    ensures HoldsMessage(b, n, k, before, sent, bufs)
  {
    assert |before + sent| == |gots + left|;
    assert (before + sent)[k] == (gots + left)[k] == gots[k];
    if k >= |before| && n <= |bufs[k - |before|]| { PrefixOfPrefix(bufs[k - |before|], sent[k - |before|], n); }
  }

  /** Then receive number k ends with the first bytes of message number k, counting the messages
      queued at the start and then those sent, in this order. */
  lemma DeliveredInOrder(s: State, run: seq<Step>, order: Order)
    requires Inv(s) && s.receiving == map[] && Legal(s, run, order) && forall i :: 0 <= i < |run| ==> Plain(run[i].a)
    ensures var e, q := TraceRun(Begin(s), run, order), Contents(s.queue, s.data);
            forall k :: k in e.got ==>
              && k in e.asked
              && HoldsMessage(e.got[k], e.asked[k], k, q, Puts(Events(s, run, order)), Buffers(s, run, order))
  {
    hide Inv, Contents, Events, TraceRun, Run, HoldsMessage, BeginWith, Gots, Puts, Buffers, Legal;
    DeliveredByEvents(s, run, order);
    FirstInFirstOut(s, run, order);
    BuffersArePut(s, run, order);
    var e, r := TraceRun(Begin(s), run, order), Run(s, run, order);
    var q, es := Contents(s.queue, s.data), Events(s, run, order);
    forall k | k in e.got ensures HoldsMessage(e.got[k], e.asked[k], k, q, Puts(es), Buffers(s, run, order)) {
      HoldsIs(e.got[k], e.asked[k], k, Gots(q, es), Contents(r.queue, r.data), q, Puts(es), Buffers(s, run, order));
    }
  }
}
