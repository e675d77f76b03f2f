/** The linked slots of a message queue (ipc.c), updated in place. Each method is one critical
    section, or one byte of a copy between two of them. */
module MessageQueue {
  import opened RingList
  import opened SortedList
  import opened WaitList
  import opened HeapSpec
  import Segments
  import opened MessageQueueSpec

  const NULL := 0

  /** sizeof(struct rt_mq_message). */
  const LINK := 4

  function First(s: seq<int>): int {
    if s == [] then NULL else s[0]
  }

  function Last(s: seq<int>): int {
    if s == [] then NULL else s[|s| - 1]
  }

  /** The slots of s are linked in this order and the last one ends the list. */
  ghost predicate Chain(next: map<int, int>, s: seq<int>) {
    forall i :: 0 <= i < |s| ==> Hop(next, s, i)
  }

  ghost predicate Hop(next: map<int, int>, s: seq<int>, i: nat)
    requires i < |s|
  {
    s[i] in next && next[s[i]] == if i + 1 < |s| then s[i + 1] else NULL
  }

  lemma ChainFrame(next: map<int, int>, s: seq<int>, x: int, y: int)
    requires Chain(next, s) && x !in s
    ensures Chain(next[x := y], s)
  {
    var n := next[x := y];
    forall i | 0 <= i < |s| ensures Hop(n, s, i) {
      assert Hop(next, s, i) && s[i] in s;
    }
  }

  lemma ChainTail(next: map<int, int>, s: seq<int>)
    requires Chain(next, s) && s != []
    ensures s[0] in next && next[s[0]] == First(s[1..]) && Chain(next, s[1..])
    ensures Last(s[1..]) == if |s| == 1 then NULL else Last(s)
  {
    assert Hop(next, s, 0);
    forall i | 0 <= i < |s| - 1 ensures Hop(next, s[1..], i) {
      assert Hop(next, s, i + 1);
    }
  }

  lemma ChainPush(next: map<int, int>, s: seq<int>, x: int)
    requires Chain(next, s) && x !in s
    ensures Chain(next[x := First(s)], [x] + s)
    ensures Last([x] + s) == if s == [] then x else Last(s)
  {
    var n, r := next[x := First(s)], [x] + s;
    ChainFrame(next, s, x, First(s));
    forall i | 0 <= i < |r| ensures Hop(n, r, i) {
      if i > 0 { assert Hop(n, s, i - 1); }
    }
  }

  lemma ChainAppend(next: map<int, int>, s: seq<int>, x: int)
    requires Chain(next, s) && Distinct(s) && x !in s && x in next && next[x] == NULL
    ensures Chain(if s == [] then next else next[Last(s) := x], s + [x])
  {
    var n, r := if s == [] then next else next[Last(s) := x], s + [x];
    forall i | 0 <= i < |r| ensures Hop(n, r, i) {
      if i < |s| { assert Hop(next, s, i) && s[i] in s; }
    }
  }

  datatype Answer = Slot(x: int) | TooLong | Full | TimedOut | Blocked

  // ----- the pointers and the slots -----

  datatype Pointers = Pointers(next: map<int, int>, head: int, tail: int, free: int)

  /** The pointers link the queue and the free list. `plain` are the slots that rt_mq_send,
      not rt_mq_urgent, is filling. */
  ghost predicate Wired(p: Pointers, s: State, plain: set<int>) {
    && p.head == First(s.queue) && p.tail == Last(s.queue) && p.free == First(s.free)
    && Chain(p.next, s.queue) && Chain(p.next, s.free)
    && NULL !in s.slots
    && (forall x :: x in plain && x in s.sending ==> x in p.next && p.next[x] == NULL)
  }

  lemma SlotFacts(s: State)
    requires Inv(s) && NULL !in s.slots
    ensures Distinct(s.free) && Distinct(s.queue)
    ensures forall x :: x in s.free ==> x != NULL && x !in s.queue && x !in s.sending && x !in s.receiving
    ensures forall x :: x in s.queue ==> x != NULL && x !in s.sending && x !in s.receiving && x in s.data
    ensures s.free == [] <==> First(s.free) == NULL
    ensures s.queue == [] <==> First(s.queue) == NULL
    ensures s.queue == [] <==> Last(s.queue) == NULL
    ensures s.queue != [] ==> First(s.queue) in s.queue && Last(s.queue) in s.queue && Last(s.queue) !in s.free
    ensures s.free != [] ==> First(s.free) in s.free
  {
    forall x | x in s.free ensures x != NULL && x !in s.queue && x !in s.sending && x !in s.receiving {
      assert OnePlace(s, x);
    }
    forall x | x in s.queue ensures x != NULL && x !in s.sending && x !in s.receiving && x in s.data {
      assert OnePlace(s, x);
    }
    if s.free != [] { assert s.free[0] in s.free; }
    if s.queue != [] { assert s.queue[0] in s.queue && s.queue[|s.queue| - 1] in s.queue; }
  }

  lemma AcquireWired(p: Pointers, s: State, plain: set<int>, buf: Bytes)
    requires Inv(s) && Wired(p, s, plain) && |buf| <= s.msgSize && s.free != []
    ensures p.free in p.next
    ensures Wired(p.(free := p.next[p.free]), AcquireNext(s, buf), plain - {p.free})
    ensures Wired(p.(free := p.next[p.free], next := p.next[p.free := NULL]), AcquireNext(s, buf), plain + {p.free})
  {
    hide Inv;
    SlotFacts(s);
    HeadTail(s.free);
    ChainTail(p.next, s.free);
    ChainFrame(p.next, s.free[1..], p.free, NULL);
    ChainFrame(p.next, s.queue, p.free, NULL);
  }

  lemma LinkTailWired(p: Pointers, s: State, plain: set<int>, x: int)
    requires Inv(s) && Wired(p, s, plain) && x in s.sending && x in plain
    ensures Wired(p.(next := if p.tail != NULL then p.next[p.tail := x] else p.next,
                     head := if p.head == NULL then x else p.head, tail := x), LinkTailNext(s, x), plain)
  {
    SendingAt(s, x);
    hide Inv;
    SlotFacts(s);
    ChainAppend(p.next, s.queue, x);
    if s.queue != [] { ChainFrame(p.next, s.free, p.tail, x); }
  }

  lemma LinkHeadWired(p: Pointers, s: State, plain: set<int>, x: int)
    requires Inv(s) && Wired(p, s, plain) && x in s.sending
    ensures Wired(p.(next := p.next[x := p.head], head := x, tail := if p.tail == NULL then x else p.tail),
                  LinkHeadNext(s, x), plain)
  {
    SendingAt(s, x);
    hide Inv;
    SlotFacts(s);
    ChainPush(p.next, s.queue, x);
    ChainFrame(p.next, s.free, x, p.head);
  }

  /** The head of the queue is unlinked. */
  lemma UnlinkWired(p: Pointers, s: State, plain: set<int>)
    requires Inv(s) && Wired(p, s, plain) && s.queue != []
    ensures p.head == s.queue[0] && p.head in p.next && p.head in s.data
    ensures var q := s.queue[1..];
            && p.next[p.head] == First(q) && (if p.tail == p.head then NULL else p.tail) == Last(q) && Chain(p.next, q)
  {
    hide Inv;
    SlotFacts(s);
    ChainTail(p.next, s.queue);
    LastIsHead(s.queue);
  }

  lemma TakeWired(p: Pointers, s: State, plain: set<int>, t: int, size: nat, wait: bool,
                  prio: map<int, int>, order: Order)
    requires Inv(s) && Wired(p, s, plain)
    ensures s.queue != [] ==> p.head == s.queue[0] && p.head in p.next && p.head in s.data
    ensures Wired(if s.queue == [] then p
                  else p.(head := p.next[p.head], tail := if p.tail == p.head then NULL else p.tail),
                  TakeNext(s, t, size, wait, prio, order), plain)
  {
    hide Inv;
    if s.queue != [] { UnlinkWired(p, s, plain); }
  }

  lemma GiveBackWired(p: Pointers, s: State, plain: set<int>, x: int)
    requires Inv(s) && Wired(p, s, plain) && x in s.receiving
    ensures Wired(p.(next := p.next[x := p.free], free := x), GiveBackNext(s, x), plain)
  {
    ReceivingAt(s, x);
    hide Inv;
    SlotFacts(s);
    ChainPush(p.next, s.free, x);
    ChainFrame(p.next, s.queue, x, p.free);
  }

  /** One round of the reset loop: the first queued slot becomes the first free one. */
  function Released(s: State): State
    requires s.queue != []
  {
    s.(queue := s.queue[1..], free := [s.queue[0]] + s.free)
  }

  lemma ReleaseWired(p: Pointers, s: State, plain: set<int>)
    requires Inv(s) && Wired(p, s, plain) && s.queue != [] && s.waiters.waiting == []
    ensures p.head in p.next
    ensures Wired(Pointers(p.next[p.head := p.free], p.next[p.head], if p.tail == p.head then NULL else p.tail, p.head),
                  Released(s), plain)
    ensures Inv(Released(s)) && ResetNext(Released(s)) == ResetNext(s)
  {
    ReleaseKeeps(s);
    hide Inv;
    SlotFacts(s);
    UnlinkWired(p, s, plain);
    HeadTail(s.queue);
    ChainFrame(p.next, s.queue[1..], p.head, p.free);
    ChainPush(p.next, s.free, p.head);
    var q := s.queue;
    assert Reversed(q) + s.free == Reversed(q[1..]) + ([q[0]] + s.free);
  }

  lemma ReleaseKeeps(s: State)
    requires Inv(s) && s.queue != [] && s.waiters.waiting == []
    ensures Inv(Released(s))
  {
    var x := s.queue[0];
    HeadTail(s.queue);
    assert x in s.queue && OnePlace(s, x);
    forall y ensures OnePlace(Released(s), y) {
      assert OnePlace(s, y);
    }
  }

  /** `spec` is the state of the step machine; the other ghost field says which senders are
      not urgent. */
  class QueueObject {
    const msgSize: nat
    const order: Order
    var next: map<int, int>
    var head: int
    var tail: int
    var free: int
    var entry: nat
    var data: map<int, Bytes>
    var waiting: seq<int>
    ghost var spec: State
    ghost var plain: set<int>

    ghost function P(): Pointers
      reads this
    {
      Pointers(next, head, tail, free)
    }

    ghost predicate Valid()
      reads this
    {
      && spec.msgSize == msgSize && spec.data == data && spec.waiters.waiting == waiting && |spec.queue| == entry
      && Wired(P(), spec, plain) && Inv(spec)
    }

    /** rt_mq_init. The sizes are kept in 16-bit fields. */
    constructor (pool: int, msgSize0: nat, poolSize: nat, align: Segments.Align, order: Order)
      requires pool > 0
      ensures Valid() && this.order == order
      ensures msgSize == AlignUp(msgSize0, align) % 0x1_0000
      ensures spec.queue == [] && |spec.free| == poolSize / (msgSize + LINK) % 0x1_0000
      ensures forall i :: 0 <= i < |spec.free| ==> Addressed(spec.free, pool, msgSize, i)
    {
      var size := AlignUp(msgSize0, align) % 0x1_0000;
      msgSize := size;
      this.order := order;
      var maxMsgs := poolSize / (size + LINK) % 0x1_0000;
      head, tail, entry, waiting, plain := NULL, NULL, 0, [], {};
      var links, bytes, f, list := BuildFree(pool, size, maxMsgs);
      next, data, free := links, bytes, f;
      spec := State(size, Elems(list), list, [], map[], map[], bytes, Waiters([], {}));
      new;
      forall x ensures OnePlace(spec, x) {
      }
    }

    /** The first critical section of rt_mq_send and rt_mq_urgent. rt_mq_send then clears the
        link of its slot. */
    method Acquire(buf: Bytes, urgent: bool) returns (r: Answer)
      requires Valid()
      modifies this
      ensures Valid() && spec == AcquireNext(old(spec), buf)
      ensures r == if |buf| > msgSize then TooLong else if old(spec.free) == [] then Full else Slot(old(spec.free)[0])
      ensures r.Slot? ==> (r.x in plain <==> !urgent)
    {
      hide Inv, Wired;
      if |buf| > msgSize {
        return TooLong;
      }
      Heads(P(), spec, plain);
      AcquireKeeps(spec, buf);
      var msg := free;
      if msg == NULL {
        return Full;
      }
      AcquireWired(P(), spec, plain, buf);
      spec := AcquireNext(spec, buf);
      free := next[msg];
      plain := plain - {msg};
      if !urgent {
        plain := old(plain) + {msg};
        next := next[msg := NULL];
      }
      return Slot(msg);
    }

    /** One byte of rt_memcpy into the slot. */
    method FillByte(x: int, k: nat, b: int)
      requires Valid() && x in spec.sending
      requires k == spec.sending[x].done < |spec.sending[x].buf| && b == spec.sending[x].buf[k]
      modifies `data, `spec
      ensures Valid() && spec == Next(old(spec), MessageQueueSpec.FillByte(x), map[], order)
    {
      hide Inv;
      SendingAt(spec, x);
      FillKeeps(spec, x);
      spec := FillNext(spec, x);
      data := data[x := data[x][k := b]];
    }

    /** The second critical section of rt_mq_send. */
    method LinkTail(x: int)
      requires Valid() && x in spec.sending && x in plain
      modifies this
      ensures Valid() && spec == LinkTailNext(old(spec), x)
    {
      hide Inv, Wired;
      LinkKeeps(spec, x);
      LinkTailWired(P(), spec, plain, x);
      spec := LinkTailNext(spec, x);
      if tail != NULL {
        next := next[tail := x];
      }
      tail := x;
      if head == NULL {
        head := x;
      }
      entry := entry + 1;
      if waiting != [] {
        waiting := waiting[1..];
      }
    }

    /** The second critical section of rt_mq_urgent. */
    method LinkHead(x: int)
      requires Valid() && x in spec.sending
      modifies this
      ensures Valid() && spec == LinkHeadNext(old(spec), x)
    {
      hide Inv, Wired;
      LinkKeeps(spec, x);
      LinkHeadWired(P(), spec, plain, x);
      spec := LinkHeadNext(spec, x);
      next := next[x := head];
      head := x;
      if tail == NULL {
        tail := x;
      }
      entry := entry + 1;
      if waiting != [] {
        waiting := waiting[1..];
      }
    }

    /** rt_mq_recv up to the copy, between two suspensions. */
    method Take(t: int, size: nat, wait: bool, prio: map<int, int>) returns (r: Answer)
      requires Valid() && t !in waiting
      modifies this
      ensures Valid() && spec == Next(old(spec), MessageQueueSpec.Take(t, size, wait), prio, order)
      ensures r == if old(spec.queue) != [] then Slot(old(spec.queue)[0]) else if wait then Blocked else TimedOut
      ensures r == Blocked ==> t in waiting
    {
      EnqueueMembers(waiting, prio, t, order);
      hide Inv, Wired, Enqueue;
      TakeKeeps(spec, t, size, wait, prio, order);
      TakeWired(P(), spec, plain, t, size, wait, prio, order);
      spec := TakeNext(spec, t, size, wait, prio, order);
      if entry == 0 {
        if !wait {
          return TimedOut;
        }
        waiting := Suspend(waiting, prio, t, order);
        return Blocked;
      }
      var msg := head;
      head := next[msg];
      if tail == msg {
        tail := NULL;
      }
      entry := entry - 1;
      return Slot(msg);
    }

    /** One byte of rt_memcpy out of the slot. */
    method ReadByte(x: int, k: nat) returns (b: int)
      requires Valid() && x in spec.receiving && k == |spec.receiving[x].out| < spec.receiving[x].want
      modifies `spec
      ensures Valid() && spec == Next(old(spec), MessageQueueSpec.ReadByte(x), map[], order)
      ensures x in spec.receiving && spec.receiving[x].out == old(spec.receiving[x].out) + [b]
    {
      hide Inv;
      ReceivingAt(spec, x);
      ReadKeeps(spec, x);
      b := data[x][k];
      spec := ReadNext(spec, x);
    }

    /** The last critical section of rt_mq_recv. */
    method GiveBack(x: int)
      requires Valid() && x in spec.receiving && |spec.receiving[x].out| == spec.receiving[x].want
      modifies this
      ensures Valid() && spec == GiveBackNext(old(spec), x)
    {
      hide Inv, Wired;
      GiveBackKeeps(spec, x);
      GiveBackWired(P(), spec, plain, x);
      spec := GiveBackNext(spec, x);
      next := next[x := free];
      free := x;
    }

    /** rt_mq_control with RT_IPC_CMD_RESET: every queued message goes to the free list. */
    method Reset()
      requires Valid()
      modifies this
      ensures Valid() && spec == ResetNext(old(spec))
    {
      hide Inv, Wired, ResetNext;
      FlushKeeps(P(), spec, plain);
      waiting := [];
      spec := spec.(waiters := Flush(spec.waiters));
      while head != NULL
        invariant Inv(spec) && Wired(P(), spec, plain) && waiting == [] == spec.waiters.waiting
        invariant spec.msgSize == msgSize && spec.data == data
        invariant ResetNext(spec) == ResetNext(old(spec))
        decreases |spec.queue|
      {
        Heads(P(), spec, plain);
        ReleaseWired(P(), spec, plain);
        spec := Released(spec);
        var msg := head;
        head := next[msg];
        if tail == msg {
          tail := NULL;
        }
        next := next[msg := free];
        free := msg;
      }
      Heads(P(), spec, plain);
      ResetDone(spec);
      entry := 0;
    }
  }

  /** The loop of rt_mq_init: the slots of the pool are linked, the last one first. */
  method BuildFree(pool: int, size: nat, maxMsgs: nat)
    returns (links: map<int, int>, bytes: map<int, Bytes>, f: int, ghost list: seq<int>)
    requires pool > 0
    ensures |list| == maxMsgs && f == First(list) && Chain(links, list) && Distinct(list) && NULL !in list
    ensures forall i :: 0 <= i < maxMsgs ==> Addressed(list, pool, size, i)
    ensures forall x :: x in list ==> x in bytes && |bytes[x]| == size
  {
    links, bytes, f, list := map[], map[], NULL, [];
    var temp := 0;
    while temp < maxMsgs
      invariant 0 <= temp <= maxMsgs && |list| == temp
      invariant f == First(list) && Chain(links, list) && Distinct(list)
      invariant forall i :: 0 <= i < temp ==> Addressed(list, pool, size, i)
      invariant forall x :: x in list ==> 0 < x < SlotAt(pool, size, temp)
      invariant forall x :: x in list ==> x in bytes && |bytes[x]| == size
    {
      hide Chain, SlotAt;
      var m := SlotAt(pool, size, temp);
      NextSlot(pool, size, temp);
      assert m !in list;
      ChainPush(links, list, m);
      ghost var longer := [m] + list;
      forall i | 0 <= i < temp + 1 ensures Addressed(longer, pool, size, i) {
        if i > 0 { assert Addressed(list, pool, size, i - 1); }
      }
      links := links[m := f];
      f := m;
      bytes := bytes[m := Zeros(size)];
      list := longer;
      temp := temp + 1;
    }
  }

  function SlotAt(pool: int, size: nat, k: nat): int {
    pool + k * (size + LINK)
  }

  lemma NextSlot(pool: int, size: nat, k: nat)
    requires pool > 0
    ensures 0 < SlotAt(pool, size, k) < SlotAt(pool, size, k + 1)
  {
    assert (k + 1) * (size + LINK) == k * (size + LINK) + (size + LINK);
  }

  lemma FlushKeeps(p: Pointers, s: State, plain: set<int>)
    requires Inv(s) && Wired(p, s, plain)
    ensures var f := s.(waiters := Flush(s.waiters));
            Inv(f) && Wired(p, f, plain) && ResetNext(f) == ResetNext(s)
  {
    var f := s.(waiters := Flush(s.waiters));
    forall y ensures OnePlace(f, y) {
      assert OnePlace(s, y);
    }
  }

  lemma Heads(p: Pointers, s: State, plain: set<int>)
    requires Inv(s) && Wired(p, s, plain)
    ensures s.queue == [] <==> p.head == NULL
    ensures s.queue != [] ==> p.head == s.queue[0]
    ensures s.free == [] <==> p.free == NULL
    ensures s.free != [] ==> p.free == s.free[0]
  {
    SlotFacts(s);
  }

  lemma ResetDone(s: State)
    requires s.queue == [] && s.waiters.waiting == []
    ensures ResetNext(s) == s
  {
    assert [] + s.free == s.free;
  }

  /** Slot i of the initial free list: the list starts at the end of the pool. */
  ghost predicate Addressed(list: seq<int>, pool: int, size: nat, i: nat)
    requires i < |list|
  {
    list[i] == SlotAt(pool, size, |list| - 1 - i)
  }

  function Zeros(n: nat): (r: Bytes)
    ensures |r| == n
  {
    seq(n, _ => 0)
  }

  lemma LastIsHead(q: seq<int>)
    requires Distinct(q) && q != []
    ensures Last(q) == q[0] <==> |q| == 1
  {
  }
}
