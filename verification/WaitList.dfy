/** The lists of suspended threads that every IPC object has, and the threads that were
    resumed from them but have not run yet. */
module WaitList {
  import opened RingList
  import opened SortedList

  /** RT_IPC_FLAG_FIFO and RT_IPC_FLAG_PRIO. */
  datatype Order = Fifo | Prio

  /** rt_ipc_list_suspend on the list. A smaller number is a more urgent priority. */
  function Enqueue(list: seq<int>, prio: map<int, int>, t: int, order: Order): seq<int> {
    match order
    case Fifo => list + [t]
    case Prio => PlainInsert(list, prio, t)
  }

  /** The search loop of rt_ipc_list_suspend. */
  method Suspend(list: seq<int>, prio: map<int, int>, t: int, order: Order) returns (r: seq<int>)
    ensures r == Enqueue(list, prio, t, order)
  {
    match order
    case Fifo =>
      return list + [t];
    case Prio =>
      PlainInsertAt(list, prio, t);
      var n := 0;
      while n < |list|
        invariant 0 <= n <= |list|
        invariant forall i :: 0 <= i < n ==> At(prio, list[i]) <= At(prio, t)
      {
        if At(prio, t) < At(prio, list[n]) {
          UpperUnique(list, prio, At(prio, t), n);
          return list[..n] + [t] + list[n..];
        }
        n := n + 1;
      }
      UpperUnique(list, prio, At(prio, t), n);
      return list + [t];
  }

  lemma EnqueueMembers(list: seq<int>, prio: map<int, int>, t: int, order: Order)
    ensures forall x :: x in Enqueue(list, prio, t, order) <==> x in list || x == t
    ensures Distinct(list) && t !in list ==> Distinct(Enqueue(list, prio, t, order))
    ensures Enqueue(list, prio, t, order) != []
  {
    PlainInsertMembers(list, prio, t);
    if Distinct(list) && t !in list { PlainInsertDistinct(list, prio, t); }
  }

  /** Most urgent first, and first come first served among equals. */
  ghost predicate Ranked(list: seq<int>, prio: map<int, int>, arrival: map<int, int>) {
    forall i, j :: 0 <= i < j < |list| ==> Precedes(list[i], list[j], prio, arrival)
  }

  ghost predicate Precedes(x: int, y: int, prio: map<int, int>, arrival: map<int, int>) {
    At(prio, x) < At(prio, y) || (At(prio, x) == At(prio, y) && At(arrival, x) < At(arrival, y))
  }

  /** A newcomer is put behind every thread of its own priority. */
  lemma EnqueueRanked(list: seq<int>, prio: map<int, int>, arrival: map<int, int>, t: int)
    requires Ranked(list, prio, arrival) && forall x :: x in list ==> At(arrival, x) < At(arrival, t)
    ensures Ranked(Enqueue(list, prio, t, Prio), prio, arrival)
  {
    hide PlainInsert, Upper;
    var p := Upper(list, prio, At(prio, t));
    assert Sorted(list, prio) by {
      forall i, j | 0 <= i < j < |list| ensures At(prio, list[i]) <= At(prio, list[j]) {
        assert Precedes(list[i], list[j], prio, arrival);
      }
    }
    PlainInsertAt(list, prio, t);
    UpperBounds(list, prio, At(prio, t));
    UpperBeyond(list, prio, At(prio, t));
    var r := InsertAt(list, p, t);
    forall i, j | 0 <= i < j < |r| ensures Precedes(r[i], r[j], prio, arrival) {
      if i != p && j != p {
        var i', j' := if i < p then i else i - 1, if j < p then j else j - 1;
        assert r[i] == list[i'] && r[j] == list[j'] && Precedes(list[i'], list[j'], prio, arrival);
      } else if j == p {
        assert r[i] == list[i] && list[i] in list;
      }
    }
  }

  /** A newcomer leaves the order of the others alone, and in FIFO order comes last. */
  lemma EnqueueKeeps(list: seq<int>, prio: map<int, int>, t: int, order: Order)
    requires Distinct(list) && t !in list
    ensures Without(Enqueue(list, prio, t, order), t) == list
    ensures order == Fifo ==> Enqueue(list, prio, t, order) == list + [t]
  {
    hide PlainInsert, Upper;
    EnqueueMembers(list, prio, t, order);
    PlainInsertAt(list, prio, t);
    UpperBounds(list, prio, At(prio, t));
    var p := if order == Fifo then |list| else Upper(list, prio, At(prio, t));
    var r := Enqueue(list, prio, t, order);
    assert r == InsertAt(list, p, t) && r[p] == t;
    WithoutAt(r, p);
    assert r[..p] + r[p + 1..] == list;
  }

  /** First come first served is the order of arrival alone. */
  lemma EnqueueFifo(list: seq<int>, prio: map<int, int>, arrival: map<int, int>, t: int)
    requires Ranked(list, map[], arrival) && forall x :: x in list ==> At(arrival, x) < At(arrival, t)
    ensures Ranked(Enqueue(list, prio, t, Fifo), map[], arrival)
  {
    var r := list + [t];
    forall i, j | 0 <= i < j < |r| ensures Precedes(r[i], r[j], map[], arrival) {
      if j < |list| { assert Precedes(list[i], list[j], map[], arrival); } else { assert list[i] in list; }
    }
  }

  lemma RankedSub(list: seq<int>, h: set<int>, prio: map<int, int>, arrival: map<int, int>)
    requires Ranked(list, prio, arrival)
    ensures Ranked(Keep(list, h), prio, arrival)
  {
    if list != [] {
      RankedSub(list[1..], h, prio, arrival);
      KeepMembers(list[1..], h);
      var r := Keep(list[1..], h);
      forall j | 0 <= j < |r| ensures Precedes(list[0], r[j], prio, arrival) {
        assert r[j] in r && r[j] in list[1..];
      }
    }
  }

  lemma RankedHead(list: seq<int>, prio: map<int, int>, arrival: map<int, int>)
    requires Ranked(list, prio, arrival) && list != []
    ensures forall x :: x in list ==> At(prio, list[0]) <= At(prio, x)
  {
    forall x | x in list ensures At(prio, list[0]) <= At(prio, x) {
      var i :| 0 <= i < |list| && list[i] == x;
      if i > 0 { assert Precedes(list[0], list[i], prio, arrival); }
    }
  }

  lemma HeadLeaves(list: seq<int>)
    requires list != [] && Distinct(list)
    ensures list[0] in list && Without(list, list[0]) == list[1..]
  {
    WithoutAt(list, 0);
    assert list[..0] + list[1..] == list[1..];
  }

  /** The head of the list comes before all others. */
  lemma HeadFirst(list: seq<int>, prio: map<int, int>, arrival: map<int, int>)
    requires list != [] && Ranked(list, prio, arrival)
    ensures forall x :: x in list[1..] ==> Precedes(list[0], x, prio, arrival)
  {
    forall x | x in list[1..] ensures Precedes(list[0], x, prio, arrival) {
      var i :| 0 <= i < |list[1..]| && list[1..][i] == x;
      assert Precedes(list[0], list[i + 1], prio, arrival);
    }
  }

  // ----- thread timers -----

  /** The waiting time RT_WAITING_FOREVER. A time of 0 means not to wait. */
  const FOREVER := -1

  /** A thread is suspended: rt_thread_suspend stops its timer, and a finite waiting time starts
      it again. `armed` are the threads whose timers run. */
  function Arm(armed: set<int>, t: int, time: int): set<int> {
    if time > 0 then armed + {t} else armed - {t}
  }

  // ----- waiting for something to become available -----

  /** `waiting` is the wait list. `woken` are the threads resumed without an error that have
      not run their critical section again. */
  datatype Waiters = Waiters(waiting: seq<int>, woken: set<int>)

  function Block(w: Waiters, prio: map<int, int>, t: int, order: Order): Waiters {
    w.(waiting := Enqueue(w.waiting, prio, t, order))
  }

  /** rt_ipc_list_resume, if there is a thread to resume. */
  function Wake(w: Waiters): Waiters {
    if w.waiting == [] then w else Waiters(w.waiting[1..], w.woken + {w.waiting[0]})
  }

  /** rt_thread_timeout. */
  function Expire(w: Waiters, t: int): Waiters {
    w.(waiting := Without(w.waiting, t))
  }

  /** A woken thread runs again. */
  function Resume(w: Waiters, t: int): Waiters {
    w.(woken := w.woken - {t})
  }

  /** rt_ipc_list_resume_all: all waiting threads return with an error. */
  function Flush(w: Waiters): Waiters {
    w.(waiting := [])
  }

  ghost predicate Tidy(w: Waiters) {
    Distinct(w.waiting) && forall x :: x in w.waiting ==> x !in w.woken
  }

  /** Nobody waits unless the n available items are already meant for woken threads. */
  ghost predicate Served(w: Waiters, n: int) {
    w.waiting != [] ==> n <= |w.woken|
  }

  lemma WakeServes(w: Waiters, n: int)
    requires Tidy(w) && Served(w, n)
    ensures Tidy(Wake(w)) && Served(Wake(w), n + 1)
  {
    if w.waiting != [] {
      var t := w.waiting[0];
      assert t in w.waiting;
      assert |w.woken + {t}| == |w.woken| + 1;
    }
  }

  /** One thread was woken, and it comes before all that stay. */
  ghost predicate WokeFirst(w: Waiters, w': Waiters, prio: map<int, int>, arrival: map<int, int>) {
    exists t :: t in w.waiting && w'.woken == w.woken + {t} && w'.waiting == Without(w.waiting, t)
                && forall u :: u in w'.waiting ==> Precedes(t, u, prio, arrival)
  }

  lemma WakeFirst(w: Waiters, prio: map<int, int>, arrival: map<int, int>)
    requires Tidy(w) && Ranked(w.waiting, prio, arrival) && w.waiting != []
    ensures WokeFirst(w, Wake(w), prio, arrival)
  {
    HeadLeaves(w.waiting);
    HeadFirst(w.waiting, prio, arrival);
    assert w.waiting[0] in w.waiting;
  }

  /** A thread that has to wait is listed, and nobody else moves. */
  lemma BlockListed(w: Waiters, prio: map<int, int>, t: int, order: Order)
    requires Tidy(w) && t !in w.waiting
    ensures t in Block(w, prio, t, order).waiting && Without(Block(w, prio, t, order).waiting, t) == w.waiting
    ensures Block(w, prio, t, order).woken == w.woken
  {
    EnqueueMembers(w.waiting, prio, t, order);
    EnqueueKeeps(w.waiting, prio, t, order);
  }

  /** An item is taken, by a woken thread or by another one. */
  lemma TakeServes(w: Waiters, n: int, t: int)
    requires Tidy(w) && Served(w, n)
    ensures Tidy(Resume(w, t)) && Served(Resume(w, t), n - 1)
  {
    if t in w.woken { assert |w.woken - {t}| == |w.woken| - 1; }
    else { assert w.woken - {t} == w.woken; }
  }

  /** With nothing available, a thread may wait or leave. */
  lemma BlockServes(w: Waiters, prio: map<int, int>, t: int, order: Order)
    requires Tidy(w) && t !in w.waiting
    ensures Tidy(Block(Resume(w, t), prio, t, order)) && Served(Block(Resume(w, t), prio, t, order), 0)
    ensures Tidy(Resume(w, t)) && Served(Resume(w, t), 0)
  {
    EnqueueMembers(w.waiting, prio, t, order);
  }

  lemma ExpireServes(w: Waiters, n: int, t: int)
    requires Tidy(w) && Served(w, n)
    ensures Tidy(Expire(w, t)) && Served(Expire(w, t), n)
  {
    WithoutMembers(w.waiting, t);
    KeepDistinct(w.waiting, Elems(w.waiting) - {t});
    if Without(w.waiting, t) != [] { assert Without(w.waiting, t)[0] in Without(w.waiting, t); }
  }
}
