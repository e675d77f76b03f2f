/** Mailboxes over whole runs: which mails are handed out, and to whom, told from the calls of
    the run. */
module MailboxRuns {
  import opened SortedList
  import opened WaitList
  import opened Mailbox

  // ----- what one call does -----

  /** rt_mb_send_wait: the mail is stored behind the others, or the caller waits, or nothing. */
  lemma SendEffect(s: State, t: int, v: int, wait: bool, prio: map<int, int>, order: Order)
    requires Inv(s) && t !in s.senders.waiting
    ensures var s' := Next(s, Send(t, v, wait), prio, order);
            && (|s.mails| < s.size ==> s'.mails == s.mails + [v] && s'.senders.waiting == s.senders.waiting)
            && (|s.mails| == s.size ==> s'.mails == s.mails && s'.receivers == s.receivers)
            && (|s.mails| == s.size && wait ==>
                  t in s'.senders.waiting && Without(s'.senders.waiting, t) == s.senders.waiting)
            && (|s.mails| == s.size && !wait ==> s'.senders.waiting == s.senders.waiting)
            && t !in s'.senders.woken
  {
    BlockListed(Resume(s.senders, t), prio, t, order);
  }

  /** rt_mb_recv: the oldest mail is taken out, or the caller waits, or nothing. */
  lemma ReceiveEffect(s: State, t: int, wait: bool, prio: map<int, int>, order: Order)
    requires Inv(s) && t !in s.receivers.waiting
    ensures var s' := Next(s, Receive(t, wait), prio, order);
            && (s.mails != [] ==> |s'.mails| == |s.mails| - 1 && s'.receivers.waiting == s.receivers.waiting)
            && (s.mails == [] ==> s'.mails == [] && s'.senders == s.senders)
            && (s.mails == [] && wait ==>
                  t in s'.receivers.waiting && Without(s'.receivers.waiting, t) == s.receivers.waiting)
            && (s.mails == [] && !wait ==> s'.receivers.waiting == s.receivers.waiting)
            && t !in s'.receivers.woken
  {
    BlockListed(Resume(s.receivers, t), prio, t, order);
  }

  /** A thread that times out leaves the list, and nothing else changes. */
  lemma TimeoutEffect(s: State, t: int, prio: map<int, int>, order: Order)
    ensures var s' := Next(s, SendTimeout(t), prio, order);
            s' == s.(senders := s'.senders) && s'.senders.woken == s.senders.woken
            && forall x :: x in s'.senders.waiting <==> x in s.senders.waiting && x != t
    ensures var s' := Next(s, ReceiveTimeout(t), prio, order);
            s' == s.(receivers := s'.receivers) && s'.receivers.woken == s.receivers.woken
            && forall x :: x in s'.receivers.waiting <==> x in s.receivers.waiting && x != t
  {
    hide Without;
    WithoutMembers(s.senders.waiting, t);
    WithoutMembers(s.receivers.waiting, t);
  }

  // ----- first in, first out -----

  /** The mails of the sends of the run that completed. */
  function Accepted(s: State, run: seq<Step>, order: Order): seq<int>
    decreases |run|
  {
    if run == [] then []
    else
      var a := run[0].a;
      (if a.Send? && SendResult(s, a.wait) == Done then [a.v] else [])
      + Accepted(Next(s, a, run[0].prio, order), run[1..], order)
  }

  /** The mails that the receives of the run returned. */
  function HandedOut(s: State, run: seq<Step>, order: Order): seq<int>
    decreases |run|
  {
    if run == [] then []
    else
      var a := run[0].a;
      (if a.Receive? && ReceiveResult(s, a.wait).Mail? then [ReceiveResult(s, a.wait).v] else [])
      + HandedOut(Next(s, a, run[0].prio, order), run[1..], order)
  }

  predicate NoReset(run: seq<Step>) {
    forall i :: 0 <= i < |run| ==> !run[i].a.Reset?
  }

  lemma StepFifo(s: State, a: Action, prio: map<int, int>, order: Order)
    requires !a.Reset?
    ensures (if a.Receive? && ReceiveResult(s, a.wait).Mail? then [ReceiveResult(s, a.wait).v] else [])
            + Next(s, a, prio, order).mails
         == s.mails + if a.Send? && SendResult(s, a.wait) == Done then [a.v] else []
  {
    if a.Receive? && s.mails != [] { assert s.mails == [s.mails[0]] + s.mails[1..]; }
  }

  lemma Chain(a: seq<int>, b: seq<int>, h: seq<int>, hs: seq<int>, m: seq<int>, m': seq<int>, m'': seq<int>)
    requires h + m' == m + a && hs + m'' == m' + b
    ensures (h + hs) + m'' == m + (a + b)
  {
    assert (h + hs) + m'' == h + (hs + m'') == (h + m') + b == m + (a + b);
  }

  /** Without a reset, the mails handed out and then the stored ones are the mails stored at first
      and then those of the completed sends, in the order of the sends. */
  lemma {:induction false} FirstInFirstOut(s: State, run: seq<Step>, order: Order)
    requires NoReset(run)
    ensures HandedOut(s, run, order) + Run(s, run, order).mails == s.mails + Accepted(s, run, order)
    decreases |run|
  {
    if run == [] {
      assert [] + s.mails == s.mails + [];
    } else {
      var a, p := run[0].a, run[0].prio;
      var s', rest := Next(s, a, p, order), run[1..];
      StepFifo(s, a, p, order);
      hide Next, SendResult, ReceiveResult;
      FirstInFirstOut(s', rest, order);
      Chain(if a.Send? && SendResult(s, a.wait) == Done then [a.v] else [], Accepted(s', rest, order),
            if a.Receive? && ReceiveResult(s, a.wait).Mail? then [ReceiveResult(s, a.wait).v] else [],
            HandedOut(s', rest, order), s.mails, s'.mails, Run(s', rest, order).mails);
    }
  }

  // ----- who is woken -----

  /** A completed send wakes a receiver that comes before all others of the list. */
  lemma SendWakesFirst(s: State, t: int, v: int, wait: bool, prio: map<int, int>, order: Order,
                       rank: map<int, int>, arrival: map<int, int>)
    requires Inv(s) && SendResult(s, wait) == Done
    requires s.receivers.waiting != [] && Ranked(s.receivers.waiting, rank, arrival)
    ensures WokeFirst(s.receivers, Next(s, Send(t, v, wait), prio, order).receivers, rank, arrival)
  {
    WakeFirst(s.receivers, rank, arrival);
  }

  /** A completed receive wakes such a sender. */
  lemma ReceiveWakesFirst(s: State, t: int, wait: bool, prio: map<int, int>, order: Order,
                          rank: map<int, int>, arrival: map<int, int>)
    requires Inv(s) && ReceiveResult(s, wait).Mail?
    requires s.senders.waiting != [] && Ranked(s.senders.waiting, rank, arrival)
    ensures WokeFirst(s.senders, Next(s, Receive(t, wait), prio, order).senders, rank, arrival)
  {
    WakeFirst(s.senders, rank, arrival);
  }
}
