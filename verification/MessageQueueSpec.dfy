/** Message queues (ipc.c) as a step machine. A message is copied in and out one byte at a
    time outside the critical sections, so any number of sends and receives overlap. */
module MessageQueueSpec {
  import opened RingList
  import opened SortedList
  import opened WaitList

  type Bytes = seq<int>

  /** A sender that owns a slot and has copied the first `done` bytes. */
  datatype Sending = Sending(buf: Bytes, done: nat)

  /** A receiver that owns a slot and has copied out `out`. `msg` is what was at the head of
      the queue when the slot was taken. */
  datatype Receiving = Receiving(msg: Bytes, want: nat, out: Bytes)

  datatype State = State(msgSize: nat, slots: set<int>, free: seq<int>, queue: seq<int>,
                         sending: map<int, Sending>, receiving: map<int, Receiving>,
                         data: map<int, Bytes>, waiters: Waiters)

  datatype Action =
    | Acquire(buf: Bytes)
    | FillByte(x: int)
    | LinkTail(x: int)
    | LinkHead(x: int)
    | Take(t: int, size: nat, wait: bool)
    | ReadByte(x: int)
    | GiveBack(x: int)
    | Timeout(t: int)
    | Reset

  // ----- steps -----

  /** The first critical section of rt_mq_send and rt_mq_urgent. */
  function AcquireNext(s: State, buf: Bytes): State {
    if |buf| > s.msgSize || s.free == [] then s
    else s.(free := s.free[1..], sending := s.sending[s.free[0] := Sending(buf, 0)])
  }

  /** One byte of the copy into the slot. */
  function FillNext(s: State, x: int): State
    requires x in s.sending && x in s.data && s.sending[x].done < |s.sending[x].buf| <= |s.data[x]|
  {
    var d := s.sending[x];
    s.(data := s.data[x := s.data[x][d.done := d.buf[d.done]]], sending := s.sending[x := d.(done := d.done + 1)])
  }

  /** The second critical section of rt_mq_send. */
  function LinkTailNext(s: State, x: int): State {
    s.(queue := s.queue + [x], sending := s.sending - {x}, waiters := Wake(s.waiters))
  }

  /** The second critical section of rt_mq_urgent. */
  function LinkHeadNext(s: State, x: int): State {
    s.(queue := [x] + s.queue, sending := s.sending - {x}, waiters := Wake(s.waiters))
  }

  /** A critical section of rt_mq_recv, for a new call or for a woken thread. */
  function TakeNext(s: State, t: int, size: nat, wait: bool, prio: map<int, int>, order: Order): State
    requires s.queue != [] ==> s.queue[0] in s.data
  {
    var w := Resume(s.waiters, t);
    if s.queue == [] then s.(waiters := if wait then Block(w, prio, t, order) else w)
    else
      var x := s.queue[0];
      var want := if size > s.msgSize then s.msgSize else size;
      s.(queue := s.queue[1..], receiving := s.receiving[x := Receiving(s.data[x], want, [])], waiters := w)
  }

  /** One byte of the copy out of the slot. */
  function ReadNext(s: State, x: int): State
    requires x in s.receiving && x in s.data && |s.receiving[x].out| < |s.data[x]|
  {
    var r := s.receiving[x];
    s.(receiving := s.receiving[x := r.(out := r.out + [s.data[x][|r.out|]])])
  }

  /** The last critical section of rt_mq_recv. */
  function GiveBackNext(s: State, x: int): State {
    s.(free := [x] + s.free, receiving := s.receiving - {x})
  }

  function Reversed(s: seq<int>): seq<int> {
    if s == [] then [] else Reversed(s[1..]) + [s[0]]
  }

  /** rt_mq_control with RT_IPC_CMD_RESET. */
  function ResetNext(s: State): State {
    s.(free := Reversed(s.queue) + s.free, queue := [], waiters := Flush(s.waiters))
  }

  ghost predicate Enabled(s: State, a: Action) {
    match a
    case FillByte(x) => x in s.sending && s.sending[x].done < |s.sending[x].buf|
    case LinkTail(x) => x in s.sending && s.sending[x].done == |s.sending[x].buf|
    case LinkHead(x) => x in s.sending && s.sending[x].done == |s.sending[x].buf|
    case Take(t, _, _) => t !in s.waiters.waiting
    case ReadByte(x) => x in s.receiving && |s.receiving[x].out| < s.receiving[x].want
    case GiveBack(x) => x in s.receiving && |s.receiving[x].out| == s.receiving[x].want
    case _ => true
  }

  ghost function Next(s: State, a: Action, prio: map<int, int>, order: Order): State
    requires Inv(s) && Enabled(s, a)
  {
    match a
    case Acquire(buf) => AcquireNext(s, buf)
    case FillByte(x) => SendingAt(s, x); FillNext(s, x)
    case LinkTail(x) => LinkTailNext(s, x)
    case LinkHead(x) => LinkHeadNext(s, x)
    case Take(t, size, wait) => QueuedAt(s); TakeNext(s, t, size, wait, prio, order)
    case ReadByte(x) => ReceivingAt(s, x); ReadNext(s, x)
    case GiveBack(x) => GiveBackNext(s, x)
    case Timeout(t) => s.(waiters := Expire(s.waiters, t))
    case Reset => ResetNext(s)
  }

  // ----- invariants -----

  /** Every slot is in exactly one place, once. */
  ghost predicate Partition(s: State) {
    && Distinct(s.free) && Distinct(s.queue)
    && forall x :: OnePlace(s, x)
  }

  ghost predicate OnePlace(s: State, x: int) {
    && (x in s.slots <==> x in s.free || x in s.queue || x in s.sending || x in s.receiving)
    && (x in s.free ==> x !in s.queue && x !in s.sending && x !in s.receiving)
    && (x in s.queue ==> x !in s.sending && x !in s.receiving)
    && (x in s.sending ==> x !in s.receiving)
  }

  ghost predicate Stored(s: State) {
    forall x :: x in s.slots ==> x in s.data && |s.data[x]| == s.msgSize
  }

  /** A slot in a send holds the bytes copied so far. */
  ghost predicate SendOk(d: Sending, bytes: Bytes) {
    d.done <= |d.buf| <= |bytes| && bytes[..d.done] == d.buf[..d.done]
  }

  /** A slot in a receive still holds the message that was taken. */
  ghost predicate ReceiveOk(r: Receiving, bytes: Bytes) {
    bytes == r.msg && |r.out| <= r.want <= |r.msg| && r.out == r.msg[..|r.out|]
  }

  ghost predicate Transfers(s: State) {
    && (forall x :: x in s.sending && x in s.data ==> SendOk(s.sending[x], s.data[x]))
    && (forall x :: x in s.receiving && x in s.data ==> ReceiveOk(s.receiving[x], s.data[x]))
  }

  ghost predicate Inv(s: State) {
    Partition(s) && Stored(s) && Transfers(s) && Tidy(s.waiters) && Served(s.waiters, |s.queue|)
  }

  lemma SendingAt(s: State, x: int)
    requires Inv(s) && x in s.sending
    ensures x in s.data && |s.data[x]| == s.msgSize && SendOk(s.sending[x], s.data[x])
    ensures x in s.slots && x !in s.free && x !in s.queue && x !in s.receiving
  {
    assert OnePlace(s, x);
  }

  lemma ReceivingAt(s: State, x: int)
    requires Inv(s) && x in s.receiving
    ensures x in s.data && |s.data[x]| == s.msgSize && ReceiveOk(s.receiving[x], s.data[x])
    ensures x in s.slots && x !in s.free && x !in s.queue && x !in s.sending
  {
    assert OnePlace(s, x);
  }

  lemma QueuedAt(s: State)
    requires Inv(s)
    ensures forall i :: 0 <= i < |s.queue| ==> s.queue[i] in s.data && |s.data[s.queue[i]]| == s.msgSize
  {
    forall i | 0 <= i < |s.queue| ensures s.queue[i] in s.data && |s.data[s.queue[i]]| == s.msgSize {
      assert OnePlace(s, s.queue[i]) && s.queue[i] in s.queue;
    }
  }

  lemma AcquireKeeps(s: State, buf: Bytes)
    requires Inv(s)
    ensures Inv(AcquireNext(s, buf))
  {
    hide Served, Tidy;
    if |buf| <= s.msgSize && s.free != [] {
      var s', x := AcquireNext(s, buf), s.free[0];
      assert x in s.free && OnePlace(s, x);
      HeadTail(s.free);
      forall y ensures OnePlace(s', y) {
        assert OnePlace(s, y);
      }
    }
  }

  lemma FillKeeps(s: State, x: int)
    requires Inv(s) && Enabled(s, FillByte(x))
    ensures x in s.data && s.sending[x].done < |s.sending[x].buf| <= |s.data[x]|
    ensures Inv(FillNext(s, x))
  {
    hide Served, Tidy;
    SendingAt(s, x);
    var s', d, b := FillNext(s, x), s.sending[x], s.data[x];
    var b' := b[d.done := d.buf[d.done]];
    assert b'[..d.done + 1] == b[..d.done] + [d.buf[d.done]];
    assert d.buf[..d.done + 1] == d.buf[..d.done] + [d.buf[d.done]];
    forall y ensures OnePlace(s', y) {
      assert OnePlace(s, y);
    }
  }

  lemma LinkKeeps(s: State, x: int)
    requires Inv(s) && x in s.sending
    ensures Inv(LinkTailNext(s, x)) && Inv(LinkHeadNext(s, x))
  {
    hide Served, Tidy;
    SendingAt(s, x);
    var t, h := LinkTailNext(s, x), LinkHeadNext(s, x);
    WakeServes(s.waiters, |s.queue|);
    forall y ensures OnePlace(t, y) && OnePlace(h, y) {
      assert OnePlace(s, y);
    }
  }

  lemma TakeKeeps(s: State, t: int, size: nat, wait: bool, prio: map<int, int>, order: Order)
    requires Inv(s) && t !in s.waiters.waiting
    ensures s.queue != [] ==> s.queue[0] in s.data
    ensures Inv(TakeNext(s, t, size, wait, prio, order))
  {
    hide Served, Tidy;
    QueuedAt(s);
    TakeServes(s.waiters, |s.queue|, t);
    BlockServes(s.waiters, prio, t, order);
    var s' := TakeNext(s, t, size, wait, prio, order);
    if s.queue == [] {
      forall y ensures OnePlace(s', y) {
        assert OnePlace(s, y);
      }
    } else {
      var x := s.queue[0];
      assert x in s.queue && OnePlace(s, x);
      HeadTail(s.queue);
      forall y ensures OnePlace(s', y) {
        assert OnePlace(s, y);
      }
    }
  }

  lemma ReadKeeps(s: State, x: int)
    requires Inv(s) && Enabled(s, ReadByte(x))
    ensures x in s.data && |s.receiving[x].out| < |s.data[x]|
    ensures Inv(ReadNext(s, x))
  {
    hide Served, Tidy;
    ReceivingAt(s, x);
    var s' := ReadNext(s, x);
    forall y ensures OnePlace(s', y) {
      assert OnePlace(s, y);
    }
  }

  lemma GiveBackKeeps(s: State, x: int)
    requires Inv(s) && x in s.receiving
    ensures Inv(GiveBackNext(s, x))
  {
    hide Served, Tidy;
    ReceivingAt(s, x);
    var s' := GiveBackNext(s, x);
    forall y ensures OnePlace(s', y) {
      assert OnePlace(s, y);
    }
  }

  lemma {:induction false} ReversedMembers(s: seq<int>)
    ensures forall x :: x in Reversed(s) <==> x in s
    ensures Distinct(s) ==> Distinct(Reversed(s))
  {
    if s != [] {
      ReversedMembers(s[1..]);
      if Distinct(s) {
        HeadTail(s);
        var r := Reversed(s[1..]);
        forall i | 0 <= i < |r| ensures r[i] != s[0] {
          assert r[i] in r;
        }
      }
    }
  }

  lemma ResetKeeps(s: State)
    requires Inv(s)
    ensures Inv(ResetNext(s))
  {
    hide Reversed;
    var s' := ResetNext(s);
    ReversedMembers(s.queue);
    var r := Reversed(s.queue);
    forall i, j | 0 <= i < |r| && 0 <= j < |s.free| ensures r[i] != s.free[j] {
      assert r[i] in r && s.free[j] in s.free && OnePlace(s, r[i]);
    }
    forall y ensures OnePlace(s', y) {
      assert OnePlace(s, y);
    }
  }

  /** No step of any thread breaks the partition, a message in transfer, or the wake-ups. */
  lemma NextKeeps(s: State, a: Action, prio: map<int, int>, order: Order)
    requires Inv(s) && Enabled(s, a)
    ensures Inv(Next(s, a, prio, order))
  {
    hide Inv;
    match a
    case Acquire(buf) => AcquireKeeps(s, buf);
    case FillByte(x) => FillKeeps(s, x);
    case LinkTail(x) => LinkKeeps(s, x);
    case LinkHead(x) => LinkKeeps(s, x);
    case Take(t, size, wait) => TakeKeeps(s, t, size, wait, prio, order);
    case ReadByte(x) => ReadKeeps(s, x);
    case GiveBack(x) => GiveBackKeeps(s, x);
    case Timeout(t) => TimeoutKeeps(s, t);
    case Reset => ResetKeeps(s);
  }

  lemma TimeoutKeeps(s: State, t: int)
    requires Inv(s)
    ensures Inv(s.(waiters := Expire(s.waiters, t)))
  {
    hide Served, Tidy;
    ExpireServes(s.waiters, |s.queue|, t);
    var s' := s.(waiters := Expire(s.waiters, t));
    forall y ensures OnePlace(s', y) {
      assert OnePlace(s, y);
    }
  }

  // ----- what a call does -----

  /** A send takes a free slot for its own message, or fails if the message is too long or no
      slot is free. */
  lemma AcquireEffect(s: State, buf: Bytes, prio: map<int, int>, order: Order)
    requires Inv(s)
    ensures var s' := Next(s, Acquire(buf), prio, order);
            if |buf| <= s.msgSize && s.free != [] then
              exists x :: x in s.free && s'.free == Without(s.free, x) && s'.sending == s.sending[x := Sending(buf, 0)]
            else s' == s
  {
    if |buf| <= s.msgSize && s.free != [] { HeadLeaves(s.free); }
  }

  /** Nobody but its sender fills a slot, and only with the sender's message. */
  lemma {:induction false} BufferKept(s: State, run: seq<Step>, order: Order, x: int)
    requires Inv(s) && Legal(s, run, order) && x in s.sending
    requires forall i :: 0 <= i < |run| ==> run[i].a != LinkTail(x) && run[i].a != LinkHead(x)
    ensures x in Run(s, run, order).sending && Run(s, run, order).sending[x].buf == s.sending[x].buf
    decreases |run|
  {
    if run != [] {
      StepKept(s, run[0].a, run[0].prio, order, x);
      NextKeeps(s, run[0].a, run[0].prio, order);
      hide Inv, Next;
      BufferKept(Next(s, run[0].a, run[0].prio, order), run[1..], order, x);
    }
  }

  lemma StepKept(s: State, a: Action, prio: map<int, int>, order: Order, x: int)
    requires Inv(s) && Enabled(s, a) && x in s.sending && a != LinkTail(x) && a != LinkHead(x)
    ensures x in Next(s, a, prio, order).sending && Next(s, a, prio, order).sending[x].buf == s.sending[x].buf
  {
    SendingAt(s, x);
    if a.Acquire? && s.free != [] { assert s.free[0] in s.free; }
  }

  /** A receive that finds nothing and has time waits, and nobody else moves. */
  lemma TakeWaits(s: State, t: int, size: nat, wait: bool, prio: map<int, int>, order: Order)
    requires Inv(s) && t !in s.waiters.waiting && s.queue == []
    ensures var s' := Next(s, Take(t, size, wait), prio, order);
            && s'.queue == [] && s'.receiving == s.receiving && t !in s'.waiters.woken
            && (wait ==> t in s'.waiters.waiting && Without(s'.waiters.waiting, t) == s.waiters.waiting)
            && (!wait ==> s'.waiters.waiting == s.waiters.waiting)
  {
    BlockListed(Resume(s.waiters, t), prio, t, order);
  }

  /** A thread that times out leaves the list, and nothing else changes. */
  lemma TimeoutEffect(s: State, t: int, prio: map<int, int>, order: Order)
    requires Inv(s)
    ensures var s' := Next(s, Timeout(t), prio, order);
            s' == s.(waiters := s'.waiters) && s'.waiters.woken == s.waiters.woken
            && forall x :: x in s'.waiters.waiting <==> x in s.waiters.waiting && x != t
  {
    hide Without;
    WithoutMembers(s.waiters.waiting, t);
  }

  /** A message that is linked in wakes a receiver that comes before all others of the list. */
  lemma LinkWakesFirst(s: State, a: Action, prio: map<int, int>, order: Order,
                       rank: map<int, int>, arrival: map<int, int>)
    requires Inv(s) && Enabled(s, a) && (a.LinkTail? || a.LinkHead?)
    requires s.waiters.waiting != [] && Ranked(s.waiters.waiting, rank, arrival)
    ensures WokeFirst(s.waiters, Next(s, a, prio, order).waiters, rank, arrival)
  {
    WakeFirst(s.waiters, rank, arrival);
  }

  // ----- the queue of messages -----

  /** The queued messages in order. */
  ghost function Contents(queue: seq<int>, data: map<int, Bytes>): seq<Bytes> {
    if queue == [] then [] else [if queue[0] in data then data[queue[0]] else []] + Contents(queue[1..], data)
  }

  lemma {:induction false} ContentsAppend(q: seq<int>, x: int, data: map<int, Bytes>)
    requires x in data
    ensures Contents(q + [x], data) == Contents(q, data) + [data[x]]
  {
    if q != [] {
      ContentsAppend(q[1..], x, data);
      assert (q + [x])[1..] == q[1..] + [x];
    }
  }

  lemma {:induction false} ContentsFrame(q: seq<int>, data: map<int, Bytes>, x: int, b: Bytes)
    requires x !in q
    ensures Contents(q, data[x := b]) == Contents(q, data)
  {
    if q != [] { ContentsFrame(q[1..], data, x, b); }
  }

  /** What a step means for the queue of messages. */
  datatype Event = Put(m: Bytes) | Urge(m: Bytes) | Got | Cleared | Quiet

  ghost function EventOf(s: State, a: Action): Event
    requires Inv(s) && Enabled(s, a)
  {
    match a
    case LinkTail(x) => SendingAt(s, x); Put(s.data[x])
    case LinkHead(x) => SendingAt(s, x); Urge(s.data[x])
    case Take(t, size, wait) => if s.queue == [] then Quiet else Got
    case Reset => Cleared
    case _ => Quiet
  }

  function Apply(q: seq<Bytes>, e: Event): seq<Bytes> {
    match e
    case Put(m) => q + [m]
    case Urge(m) => [m] + q
    case Got => if q == [] then [] else q[1..]
    case Cleared => []
    case Quiet => q
  }

  /** Every step acts on the contents as its event says, whatever transfers are in progress.
      What is put is the sender's message, followed by old bytes of the slot. */
  lemma NextRefines(s: State, a: Action, prio: map<int, int>, order: Order)
    requires Inv(s) && Enabled(s, a)
    ensures var s' := Next(s, a, prio, order);
            Contents(s'.queue, s'.data) == Apply(Contents(s.queue, s.data), EventOf(s, a))
    ensures a.LinkTail? || a.LinkHead? ==> a.x in s.data && s.sending[a.x].buf <= s.data[a.x]
    ensures a.Take? && s.queue != [] ==>
              var s' := Next(s, a, prio, order);
              && s.queue[0] in s'.receiving && s'.receiving[s.queue[0]].msg == Contents(s.queue, s.data)[0]
              && s'.receiving[s.queue[0]].out == []
              && (if a.size <= s.msgSize then s'.receiving[s.queue[0]].want == a.size
                  else s'.receiving[s.queue[0]].want == |Contents(s.queue, s.data)[0]|)
  {
    match a
    case LinkTail(x) =>
      SendingAt(s, x);
      ContentsAppend(s.queue, x, s.data);
      assert s.data[x][..|s.sending[x].buf|] == s.sending[x].buf[..|s.sending[x].buf|] == s.sending[x].buf;
    case LinkHead(x) =>
      SendingAt(s, x);
      assert ([x] + s.queue)[1..] == s.queue;
      assert s.data[x][..|s.sending[x].buf|] == s.sending[x].buf[..|s.sending[x].buf|] == s.sending[x].buf;
    case FillByte(x) =>
      SendingAt(s, x);
      ContentsFrame(s.queue, s.data, x, FillNext(s, x).data[x]);
    case Take(t, size, wait) =>
      QueuedAt(s);
    case _ =>
  }

  /** What a receiver ends up with is a prefix of the message that was at the head when it
      took the slot, of the length it asked for. */
  lemma Delivered(s: State, x: int)
    requires Inv(s) && Enabled(s, GiveBack(x))
    ensures s.receiving[x].want <= |s.receiving[x].msg|
    ensures s.receiving[x].out == s.receiving[x].msg[..s.receiving[x].want]
  {
    ReceivingAt(s, x);
  }

  // ----- runs -----

  datatype Step = Step(a: Action, prio: map<int, int>)

  ghost predicate Legal(s: State, run: seq<Step>, order: Order)
    requires Inv(s)
    decreases |run|
  {
    run != [] ==>
      && Enabled(s, run[0].a)
      && (NextKeeps(s, run[0].a, run[0].prio, order); Legal(Next(s, run[0].a, run[0].prio, order), run[1..], order))
  }

  ghost function Run(s: State, run: seq<Step>, order: Order): State
    requires Inv(s) && Legal(s, run, order)
    decreases |run|
  {
    if run == [] then s
    else NextKeeps(s, run[0].a, run[0].prio, order); Run(Next(s, run[0].a, run[0].prio, order), run[1..], order)
  }

  ghost function Events(s: State, run: seq<Step>, order: Order): seq<Event>
    requires Inv(s) && Legal(s, run, order)
    decreases |run|
  {
    if run == [] then []
    else
      NextKeeps(s, run[0].a, run[0].prio, order);
      [EventOf(s, run[0].a)] + Events(Next(s, run[0].a, run[0].prio, order), run[1..], order)
  }

  function ApplyAll(q: seq<Bytes>, es: seq<Event>): seq<Bytes>
    decreases |es|
  {
    if es == [] then q else ApplyAll(Apply(q, es[0]), es[1..])
  }

  /** Every run of overlapping sends, urgent sends, receives and resets keeps the invariants
      and acts on the queue of messages like the sequence of its events. */
  lemma {:induction false} RunRefines(s: State, run: seq<Step>, order: Order)
    requires Inv(s) && Legal(s, run, order)
    ensures var r := Run(s, run, order);
            && Inv(r)
            && Contents(r.queue, r.data) == ApplyAll(Contents(s.queue, s.data), Events(s, run, order))
    decreases |run|
  {
    hide Inv, Next, Contents, Apply;
    if run != [] {
      var a, p := run[0].a, run[0].prio;
      NextKeeps(s, a, p, order);
      NextRefines(s, a, p, order);
      RunRefines(Next(s, a, p, order), run[1..], order);
      var rest := Events(Next(s, a, p, order), run[1..], order);
      assert Events(s, run, order) == [EventOf(s, a)] + rest;
      assert ([EventOf(s, a)] + rest)[1..] == rest;
    }
  }

  /** Messages put, and messages taken when `q` is the queue at the start. */
  function Puts(es: seq<Event>): seq<Bytes> {
    if es == [] then [] else (if es[0].Put? then [es[0].m] else []) + Puts(es[1..])
  }

  function Gots(q: seq<Bytes>, es: seq<Event>): seq<Bytes>
    decreases |es|
  {
    if es == [] then []
    else (if es[0].Got? && q != [] then [q[0]] else []) + Gots(Apply(q, es[0]), es[1..])
  }

  /** No urgent message and no reset. */
  ghost predicate PlainAll(es: seq<Event>) {
    forall i :: 0 <= i < |es| ==> !es[i].Urge? && !es[i].Cleared?
  }

  lemma {:induction false} FifoEvents(q: seq<Bytes>, es: seq<Event>)
    requires PlainAll(es)
    ensures q + Puts(es) == Gots(q, es) + ApplyAll(q, es)
    decreases |es|
  {
    if es != [] {
      var q', rest := Apply(q, es[0]), es[1..];
      FifoEvents(q', rest);
      var puts, gots, left := Puts(rest), Gots(q', rest), ApplyAll(q', rest);
      hide Puts, Gots, ApplyAll;
      FifoStep(q, es[0], puts, gots, left);
    }
  }

  lemma FifoStep(q: seq<Bytes>, e: Event, puts: seq<Bytes>, gots: seq<Bytes>, left: seq<Bytes>)
    requires !e.Urge? && !e.Cleared? && Apply(q, e) + puts == gots + left
    ensures q + ((if e.Put? then [e.m] else []) + puts) == (if e.Got? && q != [] then [q[0]] else []) + gots + left
  {
    assert [] + puts == puts && [] + gots == gots;
    if e.Put? {
      assert q + ([e.m] + puts) == (q + [e.m]) + puts;
    } else if e.Got? && q != [] {
      assert q + puts == [q[0]] + (q[1..] + puts) == [q[0]] + (gots + left) == [q[0]] + gots + left;
    }
  }

  /** Neither an urgent message nor a reset. */
  predicate Plain(a: Action) {
    !a.LinkHead? && !a.Reset?
  }

  lemma PlainNone()
    ensures PlainAll([])
  {
  }

  lemma PlainFirst(e: Event, rest: seq<Event>)
    requires !e.Urge? && !e.Cleared? && PlainAll(rest)
    ensures PlainAll([e] + rest)
  {
  }

  lemma {:induction false} PlainEvents(s: State, run: seq<Step>, order: Order)
    requires Inv(s) && Legal(s, run, order) && forall i :: 0 <= i < |run| ==> Plain(run[i].a)
    ensures PlainAll(Events(s, run, order))
    decreases |run|
  {
    hide Inv, Next, PlainAll;
    if run == [] {
      PlainNone();
    } else {
      var a, p := run[0].a, run[0].prio;
      assert Plain(a);
      NextKeeps(s, a, p, order);
      PlainEvents(Next(s, a, p, order), run[1..], order);
      PlainFirst(EventOf(s, a), Events(Next(s, a, p, order), run[1..], order));
    }
  }

  /** In every run without urgent messages and resets the queue is first in, first out. */
  lemma FirstInFirstOut(s: State, run: seq<Step>, order: Order)
    requires Inv(s) && Legal(s, run, order) && forall i :: 0 <= i < |run| ==> Plain(run[i].a)
    ensures var q, es, r := Contents(s.queue, s.data), Events(s, run, order), Run(s, run, order);
            q + Puts(es) == Gots(q, es) + Contents(r.queue, r.data)
  {
    hide Inv, Next;
    PlainEvents(s, run, order);
    RunRefines(s, run, order);
    FifoEvents(Contents(s.queue, s.data), Events(s, run, order));
  }
}
