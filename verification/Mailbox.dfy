/** Mailboxes (ipc.c). A blocking send or receive is a sequence of critical sections: each
    try either completes, or suspends the thread, which tries again when it is woken. */
module Mailbox {
  import opened RingList
  import opened WaitList

  // ----- the mailbox as a queue -----

  /** The mails in the order in which they will be received. `sent` and `received` are all
      mails accepted and handed out since the last reset. */
  datatype State = State(size: nat, mails: seq<int>, receivers: Waiters, senders: Waiters,
                         sent: seq<int>, received: seq<int>)

  datatype Action =
    | Send(t: int, v: int, wait: bool)
    | Receive(t: int, wait: bool)
    | SendTimeout(t: int)
    | ReceiveTimeout(t: int)
    | Reset

  datatype Result = Done | Mail(v: int) | Full | TimedOut | Blocked

  /** A critical section of rt_mb_send_wait, for a new call or for a woken thread. `wait` says
      whether time is left. */
  function SendNext(s: State, t: int, v: int, wait: bool, prio: map<int, int>, order: Order): State {
    var w := Resume(s.senders, t);
    if |s.mails| < s.size then
      s.(mails := s.mails + [v], sent := s.sent + [v], senders := w, receivers := Wake(s.receivers))
    else
      s.(senders := if wait then Block(w, prio, t, order) else w)
  }

  function SendResult(s: State, wait: bool): Result {
    if |s.mails| < s.size then Done else if wait then Blocked else Full
  }

  /** A critical section of rt_mb_recv. */
  function ReceiveNext(s: State, t: int, wait: bool, prio: map<int, int>, order: Order): State {
    var w := Resume(s.receivers, t);
    if s.mails != [] then
      s.(mails := s.mails[1..], received := s.received + [s.mails[0]], receivers := w, senders := Wake(s.senders))
    else
      s.(receivers := if wait then Block(w, prio, t, order) else w)
  }

  function ReceiveResult(s: State, wait: bool): Result {
    if s.mails != [] then Mail(s.mails[0]) else if wait then Blocked else TimedOut
  }

  /** rt_mb_control with RT_IPC_CMD_RESET. */
  function ResetNext(s: State): State {
    s.(mails := [], sent := [], received := [], receivers := Flush(s.receivers), senders := Flush(s.senders))
  }

  function Next(s: State, a: Action, prio: map<int, int>, order: Order): State {
    match a
    case Send(t, v, wait) => SendNext(s, t, v, wait, prio, order)
    case Receive(t, wait) => ReceiveNext(s, t, wait, prio, order)
    case SendTimeout(t) => s.(senders := Expire(s.senders, t))
    case ReceiveTimeout(t) => s.(receivers := Expire(s.receivers, t))
    case Reset => ResetNext(s)
  }

  /** Only a thread that is not suspended runs. */
  predicate Enabled(s: State, a: Action) {
    match a
    case Send(t, _, _) => t !in s.senders.waiting
    case Receive(t, _) => t !in s.receivers.waiting
    case _ => true
  }

  /** First in, first out, and no lost wake-up in either direction. */
  ghost predicate Inv(s: State) {
    && |s.mails| <= s.size
    && s.sent == s.received + s.mails
    && Tidy(s.receivers) && Served(s.receivers, |s.mails|)
    && Tidy(s.senders) && Served(s.senders, s.size - |s.mails|)
  }

  lemma NextKeeps(s: State, a: Action, prio: map<int, int>, order: Order)
    requires Inv(s) && Enabled(s, a)
    ensures Inv(Next(s, a, prio, order))
  {
    hide Tidy, Served, Resume, Block, Wake;
    match a
    case Send(t, v, wait) =>
      WakeServes(s.receivers, |s.mails|);
      TakeServes(s.senders, s.size - |s.mails|, t);
      BlockServes(s.senders, prio, t, order);
    case Receive(t, wait) =>
      WakeServes(s.senders, s.size - |s.mails|);
      TakeServes(s.receivers, |s.mails|, t);
      BlockServes(s.receivers, prio, t, order);
      if s.mails != [] { assert s.mails == [s.mails[0]] + s.mails[1..]; }
    case SendTimeout(t) =>
      ExpireServes(s.senders, s.size - |s.mails|, t);
    case ReceiveTimeout(t) =>
      ExpireServes(s.receivers, |s.mails|, t);
    case Reset =>
      FlushServes(s.receivers);
      FlushServes(s.senders);
  }

  lemma FlushServes(w: Waiters)
    ensures Tidy(Flush(w)) && forall n :: Served(Flush(w), n)
  {
  }

  /** Runs. The priorities may differ from step to step. */
  datatype Step = Step(a: Action, prio: map<int, int>)

  function Run(s: State, run: seq<Step>, order: Order): State
    decreases |run|
  {
    if run == [] then s else Run(Next(s, run[0].a, run[0].prio, order), run[1..], order)
  }

  predicate Legal(s: State, run: seq<Step>, order: Order)
    decreases |run|
  {
    run == [] || (Enabled(s, run[0].a) && Legal(Next(s, run[0].a, run[0].prio, order), run[1..], order))
  }

  /** In every reachable state the received mails are a prefix of the sent ones, a queued
      receiver means that the stored mails are all meant for woken receivers, and a queued
      sender means that the free places are all meant for woken senders. */
  lemma {:induction false} RunKeeps(s: State, run: seq<Step>, order: Order)
    requires Inv(s) && Legal(s, run, order)
    ensures var r := Run(s, run, order);
            && Inv(r) && r.received <= r.sent
            && (r.receivers.waiting != [] && r.receivers.woken == {} ==> r.mails == [])
            && (r.senders.waiting != [] && r.senders.woken == {} ==> |r.mails| == r.size)
    decreases |run|
  {
    if run != [] {
      NextKeeps(s, run[0].a, run[0].prio, order);
      RunKeeps(Next(s, run[0].a, run[0].prio, order), run[1..], order);
    }
  }

  // ----- the ring buffer -----

  /** An offset one round at most past the end. */
  function Wrap(k: nat, size: nat): nat {
    if k >= size then k - size else k
  }

  /** The n mails from offset `out` on. */
  function Window(pool: seq<int>, out: nat, n: nat): (r: seq<int>)
    requires n <= |pool| && (|pool| > 0 ==> out < |pool|)
    ensures |r| == n
  {
    seq(n, i requires 0 <= i < n => pool[Wrap(out + i, |pool|)])
  }

  class MailboxObject {
    const size: nat
    const pool: array<int>
    const order: Order
    var entry: nat
    var inOffset: nat
    var outOffset: nat
    var receivers: seq<int>
    var senders: seq<int>
    ghost var wokenReceivers: set<int>
    ghost var wokenSenders: set<int>
    ghost var sent: seq<int>
    ghost var received: seq<int>

    ghost predicate Shaped()
      reads this, pool
    {
      && pool.Length == size && entry <= size
      && (size > 0 ==> outOffset < size && inOffset == Wrap(outOffset + entry, size))
      && (size == 0 ==> outOffset == 0 && inOffset == 0)
    }

    ghost function View(): State
      reads this, pool
      requires Shaped()
    {
      State(size, Window(pool[..], outOffset, entry), Waiters(receivers, wokenReceivers),
            Waiters(senders, wokenSenders), sent, received)
    }

    /** rt_mb_init. */
    constructor (size: nat, order: Order)
      ensures Shaped() && fresh(pool) && this.size == size && this.order == order
      ensures View() == State(size, [], Waiters([], {}), Waiters([], {}), [], []) && Inv(View())
    {
      this.size, this.order := size, order;
      pool := new int[size];
      entry, inOffset, outOffset, receivers, senders := 0, 0, 0, [], [];
      wokenReceivers, wokenSenders, sent, received := {}, {}, [], [];
    }

    /** A mail is stored in the ring. */
    method Put(v: int)
      requires Shaped() && entry < size
      modifies pool, `inOffset, `entry, `sent
      ensures Shaped() && View() == old(View()).(mails := old(View()).mails + [v], sent := old(View()).sent + [v])
    {
      hide Window;
      PutWindow(pool[..], outOffset, entry, v);
      pool[inOffset] := v;
      inOffset := inOffset + 1;
      if inOffset >= size {
        inOffset := 0;
      }
      entry := entry + 1;
      sent := sent + [v];
    }

    /** The oldest mail is taken out of the ring. */
    method Get() returns (v: int)
      requires Shaped() && entry > 0
      modifies `outOffset, `entry, `received
      ensures Shaped() && [v] + View().mails == old(View()).mails
      ensures View() == old(View()).(mails := View().mails, received := old(View()).received + [v])
    {
      hide Window;
      GetWindow(pool[..], outOffset, entry);
      ghost var w := Window(pool[..], outOffset, entry);
      v := pool[outOffset];
      outOffset := outOffset + 1;
      if outOffset >= size {
        outOffset := 0;
      }
      entry := entry - 1;
      received := received + [v];
      assert w == [w[0]] + w[1..];
    }

    /** rt_mb_send_wait between two suspensions. */
    method Send(t: int, v: int, wait: bool, prio: map<int, int>) returns (r: Result)
      requires Shaped()
      modifies this, pool
      ensures Shaped() && View() == SendNext(old(View()), t, v, wait, prio, order)
      ensures r == SendResult(old(View()), wait)
      ensures r == if old(entry) < size then Done else if wait then Blocked else Full
      ensures View().mails == if r == Done then old(View()).mails + [v] else old(View()).mails
      ensures r == Blocked ==> t in senders
    {
      EnqueueMembers(senders, prio, t, order);
      hide Window, Enqueue;
      wokenSenders := wokenSenders - {t};
      if entry == size {
        if !wait {
          return Full;
        }
        senders := Suspend(senders, prio, t, order);
        return Blocked;
      }
      Put(v);
      if receivers != [] {
        wokenReceivers := wokenReceivers + {receivers[0]};
        receivers := receivers[1..];
      }
      return Done;
    }

    /** rt_mb_recv between two suspensions. */
    method Receive(t: int, wait: bool, prio: map<int, int>) returns (r: Result)
      requires Shaped()
      modifies this
      ensures Shaped() && View() == ReceiveNext(old(View()), t, wait, prio, order)
      ensures r == ReceiveResult(old(View()), wait)
      ensures if old(entry) == 0 then r == if wait then Blocked else TimedOut
              else r.Mail? && old(View()).mails == [r.v] + View().mails
      ensures r == Blocked ==> t in receivers
    {
      EnqueueMembers(receivers, prio, t, order);
      hide Window, Enqueue;
      wokenReceivers := wokenReceivers - {t};
      if entry == 0 {
        if !wait {
          return TimedOut;
        }
        receivers := Suspend(receivers, prio, t, order);
        return Blocked;
      }
      var value := Get();
      if senders != [] {
        wokenSenders := wokenSenders + {senders[0]};
        senders := senders[1..];
      }
      return Mail(value);
    }

    /** rt_mb_control. */
    method Control()
      requires Shaped()
      modifies this
      ensures Shaped() && View() == ResetNext(old(View()))
      ensures View().mails == [] && receivers == [] && senders == []
    {
      receivers := [];
      senders := [];
      entry, inOffset, outOffset := 0, 0, 0;
      sent, received := [], [];
    }
  }

  lemma WindowAt(pool: seq<int>, out: nat, n: nat)
    requires n <= |pool| && (|pool| > 0 ==> out < |pool|)
    ensures forall i :: 0 <= i < n ==> Window(pool, out, n)[i] == pool[Wrap(out + i, |pool|)]
  {
  }

  lemma PutWindow(pool: seq<int>, out: nat, n: nat, v: int)
    requires n < |pool| && out < |pool|
    ensures var k := Wrap(out + n, |pool|);
            k < |pool| && Window(pool[k := v], out, n + 1) == Window(pool, out, n) + [v]
  {
    hide Window;
    WindowAt(pool, out, n);
    WindowAt(pool[Wrap(out + n, |pool|) := v], out, n + 1);
  }

  lemma GetWindow(pool: seq<int>, out: nat, n: nat)
    requires 0 < n <= |pool| && out < |pool|
    ensures Window(pool, out, n)[0] == pool[out]
    ensures Window(pool, out, n)[1..] == Window(pool, Wrap(out + 1, |pool|), n - 1)
  {
    hide Window;
    var out' := Wrap(out + 1, |pool|);
    WindowAt(pool, out, n);
    WindowAt(pool, out', n - 1);
    forall i | 0 <= i < n - 1 ensures Window(pool, out, n)[1..][i] == Window(pool, out', n - 1)[i] {
      assert Wrap(out' + i, |pool|) == Wrap(out + (i + 1), |pool|);
    }
  }
}
