/** The ready queues with their one- or two-level bitmap (scheduler.c, thread.c). */
module Scheduler {
  import opened SortedList
  import opened Bits
  import opened SchedulerSpec
  import opened SchedulerEffects

  const WORD := 0x1_0000_0000

  /** rt_thread_ready_priority_group, and rt_thread_ready_table for more than 32 priorities. */
  datatype Index = Index(group: nat, table: seq<nat>)

  // ----- the index and the queues -----

  /** RT_THREAD_PRIORITY_MAX > 32. */
  predicate TwoLevels(max: nat) {
    max > 32
  }

  ghost predicate HasThreads(queues: seq<seq<int>>, p: nat) {
    p < |queues| && queues[p] != []
  }

  ghost predicate GroupBit(x: Index, queues: seq<seq<int>>, p: nat) {
    Bit(x.group, p) <==> HasThreads(queues, p)
  }

  /** Byte n of the table says which of the priorities 8n .. 8n + 7 have threads. */
  ghost predicate TableBit(table: seq<nat>, queues: seq<seq<int>>, n: nat, b: nat)
    requires n < |table|
  {
    Bit(table[n], b) <==> b < 8 && HasThreads(queues, 8 * n + b)
  }

  ghost predicate TableOk(table: seq<nat>, queues: seq<seq<int>>) {
    forall n: nat, b: nat :: n < |table| ==> TableBit(table, queues, n, b)
  }

  ghost predicate TableGroup(x: Index, n: nat) {
    Bit(x.group, n) <==> n < |x.table| && x.table[n] != 0
  }

  /** Every bit is set exactly when its queue, or its byte of the table, is not empty. */
  ghost predicate IndexOk(x: Index, queues: seq<seq<int>>) {
    && x.group < WORD
    && |queues| <= 256
    && (forall n :: 0 <= n < |x.table| ==> x.table[n] < 256)
    && if TwoLevels(|queues|) then
         && |x.table| == 32
         && (forall n: nat :: TableGroup(x, n))
         && TableOk(x.table, queues)
       else
         forall p: nat :: GroupBit(x, queues, p)
  }

  /** The bits that rt_schedule_insert_thread sets. */
  function SetIndex(x: Index, p: nat, max: nat): Index
    requires TwoLevels(max) ==> p / 8 < |x.table|
  {
    if TwoLevels(max) then
      Index(SetBit(x.group, p / 8), x.table[p / 8 := SetBit(x.table[p / 8], p % 8)])
    else x.(group := SetBit(x.group, p))
  }

  /** The bits that rt_schedule_remove_thread clears when the queue has become empty. */
  function ClearIndex(x: Index, p: nat, max: nat): Index
    requires TwoLevels(max) ==> p / 8 < |x.table|
  {
    if TwoLevels(max) then
      var byte := ClearBit(x.table[p / 8], p % 8);
      Index(if byte == 0 then ClearBit(x.group, p / 8) else x.group, x.table[p / 8 := byte])
    else x.(group := ClearBit(x.group, p))
  }

  lemma Pow2Facts()
    ensures Pow2(32) == WORD && Pow2(8) == 256
  {
    assert Pow2(4) == 16;
    assert Pow2(8) == 256;
    assert Pow2(12) == 4096;
    assert Pow2(16) == 65536;
    assert Pow2(20) == 0x10_0000;
    assert Pow2(24) == 0x100_0000;
    assert Pow2(28) == 0x1000_0000;
  }

  lemma SetIndexOk(x: Index, queues: seq<seq<int>>, p: nat, q: seq<int>)
    requires IndexOk(x, queues) && p < |queues| && q != []
    ensures TwoLevels(|queues|) ==> p / 8 < |x.table|
    ensures IndexOk(SetIndex(x, p, |queues|), queues[p := q])
  {
    hide Bit, SetBit, TableOk;
    Pow2Facts();
    var x', queues' := SetIndex(x, p, |queues|), queues[p := q];
    if TwoLevels(|queues|) {
      var n0, b0 := p / 8, p % 8;
      StaysSmall(x.group, n0, 32);
      StaysSmall(x.table[n0], b0, 8);
      SetTable(x.table, queues, n0, b0, q);
      forall n: nat ensures TableGroup(x', n) {
        BitOfSet(x.group, n0, n);
        assert TableGroup(x, n);
      }
    } else {
      StaysSmall(x.group, p, 32);
      forall k: nat ensures GroupBit(x', queues', k) {
        BitOfSet(x.group, p, k);
        assert GroupBit(x, queues, k);
      }
    }
  }

  lemma SetTable(table: seq<nat>, queues: seq<seq<int>>, n0: nat, b0: nat, q: seq<int>)
    requires n0 < |table| && b0 < 8 && 8 * n0 + b0 < |queues| && q != [] && TableOk(table, queues)
    ensures SetBit(table[n0], b0) != 0
    ensures TableOk(table[n0 := SetBit(table[n0], b0)], queues[8 * n0 + b0 := q])
  {
    hide Bit, SetBit;
    BitOfSet(table[n0], b0, b0);
    NoBits(b0);
    var table', queues' := table[n0 := SetBit(table[n0], b0)], queues[8 * n0 + b0 := q];
    forall n: nat, b: nat | n < |table| ensures TableBit(table', queues', n, b) {
      assert TableBit(table, queues, n, b);
      if n == n0 { BitOfSet(table[n], b0, b); }
    }
  }

  lemma ClearIndexOk(x: Index, queues: seq<seq<int>>, p: nat)
    requires IndexOk(x, queues) && p < |queues|
    ensures TwoLevels(|queues|) ==> p / 8 < |x.table|
    ensures IndexOk(ClearIndex(x, p, |queues|), queues[p := []])
  {
    hide Bit, ClearBit, TableOk;
    Pow2Facts();
    var x', queues' := ClearIndex(x, p, |queues|), queues[p := []];
    if TwoLevels(|queues|) {
      var n0, b0 := p / 8, p % 8;
      StaysSmall(x.group, n0, 32);
      StaysSmall(x.table[n0], b0, 8);
      ClearTable(x.table, queues, n0, b0);
      forall n: nat ensures TableGroup(x', n) {
        BitOfClear(x.group, n0, n);
        assert TableGroup(x, n);
      }
    } else {
      StaysSmall(x.group, p, 32);
      forall k: nat ensures GroupBit(x', queues', k) {
        BitOfClear(x.group, p, k);
        assert GroupBit(x, queues, k);
      }
    }
  }

  lemma ClearTable(table: seq<nat>, queues: seq<seq<int>>, n0: nat, b0: nat)
    requires n0 < |table| && b0 < 8 && 8 * n0 + b0 < |queues| && TableOk(table, queues)
    ensures table[n0] == 0 ==> ClearBit(table[n0], b0) == 0
    ensures TableOk(table[n0 := ClearBit(table[n0], b0)], queues[8 * n0 + b0 := []])
  {
    hide Bit, ClearBit;
    ClearZero(b0);
    var table', queues' := table[n0 := ClearBit(table[n0], b0)], queues[8 * n0 + b0 := []];
    forall n: nat, b: nat | n < |table| ensures TableBit(table', queues', n, b) {
      assert TableBit(table, queues, n, b);
      if n == n0 { BitOfClear(table[n], b0, b); }
    }
  }

  lemma {:induction false} ClearZero(k: nat)
    ensures ClearBit(0, k) == 0
    decreases k
  {
    if k > 0 { ClearZero(k - 1); }
  }

  /** The index says whether a queue is empty, not which threads are in it. */
  lemma KeepIndexOk(x: Index, queues: seq<seq<int>>, p: nat, q: seq<int>)
    requires IndexOk(x, queues) && p < |queues|
    ensures (q != [] <==> queues[p] != []) ==> IndexOk(x, queues[p := q])
  {
    hide Bit;
    var queues' := queues[p := q];
    if (q != []) != (queues[p] != []) {
      return;
    }
    if TwoLevels(|queues|) {
      forall n: nat, b: nat | n < |x.table| ensures TableBit(x.table, queues', n, b) {
        assert TableBit(x.table, queues, n, b);
      }
    } else {
      forall k: nat ensures GroupBit(x, queues', k) {
        assert GroupBit(x, queues, k);
      }
    }
  }

  /** rt_thread_ready_priority_group is zero exactly when no thread is queued. */
  lemma GroupZero(x: Index, queues: seq<seq<int>>)
    requires IndexOk(x, queues)
    ensures x.group == 0 <==> Top(queues, 0) == |queues|
  {
    hide Bit;
    TopIs(queues, 0);
    var h := Top(queues, 0);
    if x.group > 0 {
      LowestIs(x.group);
      var k := Lowest(x.group);
      if TwoLevels(|queues|) {
        assert TableGroup(x, k);
        LowestIs(x.table[k]);
        assert TableBit(x.table, queues, k, Lowest(x.table[k]));
        assert HasThreads(queues, 8 * k + Lowest(x.table[k]));
      } else {
        assert GroupBit(x, queues, k);
      }
    } else if h < |queues| {
      if TwoLevels(|queues|) {
        assert TableBit(x.table, queues, h / 8, h % 8) && TableGroup(x, h / 8);
        NoBits(h / 8);
        NoBits(h % 8);
      } else {
        assert GroupBit(x, queues, h);
        NoBits(h);
      }
      assert false;
    }
  }

  /** The priority that the find-first-set lookup gives. */
  function Lookup(x: Index, max: nat): int
    requires x.group < WORD && (forall n :: 0 <= n < |x.table| ==> x.table[n] < WORD)
    requires TwoLevels(max) ==> 0 < Ffs(x.group) <= |x.table|
  {
    if TwoLevels(max) then
      var number := Ffs(x.group) - 1;
      number * 8 + Ffs(x.table[number]) - 1
    else Ffs(x.group) - 1
  }

  /** The lookup is the linear search for the most urgent queue with threads. */
  lemma LookupIsTop(x: Index, queues: seq<seq<int>>)
    requires IndexOk(x, queues) && x.group != 0
    ensures TwoLevels(|queues|) ==> 0 < Ffs(x.group) <= |x.table|
    ensures Lookup(x, |queues|) == Top(queues, 0) < |queues|
  {
    hide Bit, Ffs;
    FfsIs(x.group);
    LowestIs(x.group);
    var k := Lowest(x.group);
    if TwoLevels(|queues|) {
      assert TableGroup(x, k);
      FfsIs(x.table[k]);
      LowestIs(x.table[k]);
      var b := Lowest(x.table[k]);
      assert TableBit(x.table, queues, k, b);
      var h := 8 * k + b;
      forall q | 0 <= q < h ensures queues[q] == [] {
        assert TableBit(x.table, queues, q / 8, q % 8) && TableGroup(x, q / 8);
        if q / 8 < k { NoBits(q % 8); }
      }
      TopUnique(queues, h);
    } else {
      assert GroupBit(x, queues, k);
      forall q | 0 <= q < k ensures queues[q] == [] {
        assert GroupBit(x, queues, q);
      }
      TopUnique(queues, k);
    }
  }

  class Ready {
    const max: nat
    var queues: seq<seq<int>>
    var group: nat
    var table: seq<nat>
    var current: int
    var stat: map<int, Stat>
    var prio: map<int, int>
    var lock: nat

    ghost function View(): State
      reads this
    {
      State(queues, current, stat, prio, lock)
    }

    ghost function X(): Index
      reads this
    {
      Index(group, table)
    }

    ghost predicate Indexed()
      reads this
    {
      |queues| == max && IndexOk(X(), queues)
    }

    ghost predicate Valid()
      reads this
    {
      Indexed() && Inv(View())
    }

    /** rt_system_scheduler_init, with a first thread running. */
    constructor (max: nat, first: int, p: nat)
      requires p < max <= 256 && first != NONE
      ensures Valid() && this.max == max && current == first && stat == map[first := Stat.Ready]
      ensures queues == seq(max, _ => [])
    {
      this.max := max;
      queues := seq(max, _ => []);
      group := 0;
      table := if TwoLevels(max) then seq(32, _ => 0) else [];
      current, stat, prio, lock := first, map[first := Stat.Ready], map[first := p], 0;
      new;
      hide Bit;
      forall n: nat ensures TableGroup(X(), n) && GroupBit(X(), queues, n) {
        NoBits(n);
      }
      forall n: nat, b: nat | n < |table| ensures TableBit(table, queues, n, b) {
        NoBits(b);
      }
      assert forall t, q: nat :: q < |queues| ==> SchedulerSpec.Placed(View(), t, q);
    }

    /** _get_highest_priority_thread. */
    method Highest() returns (p: nat)
      requires Indexed() && group != 0
      ensures p == Top(queues, 0) < |queues| && queues[p] != []
    {
      hide GroupBit, TableOk, TableGroup, Ffs;
      LookupIsTop(X(), queues);
      TopIs(queues, 0);
      if TwoLevels(max) {
        var number := Ffs(group) - 1;
        p := number * 8 + Ffs(table[number]) - 1;
      } else {
        p := Ffs(group) - 1;
      }
    }

    /** rt_schedule_insert_thread. */
    method InsertThread(t: int)
      requires Indexed() && InRange(View(), t)
      modifies `queues, `group, `table, `stat
      ensures Indexed() && View() == Insert(old(View()), t)
    {
      stat := stat[t := Stat.Ready];
      if t == current {
        return;
      }
      var p := At(prio, t);
      SetIndexOk(X(), queues, p, queues[p] + [t]);
      queues := queues[p := queues[p] + [t]];
      if TwoLevels(max) {
        table := table[p / 8 := SetBit(table[p / 8], p % 8)];
        group := SetBit(group, p / 8);
      } else {
        group := SetBit(group, p);
      }
    }

    /** rt_schedule_remove_thread. */
    method RemoveThread(t: int)
      requires Indexed() && InRange(View(), t)
      modifies `queues, `group, `table
      ensures Indexed() && View() == Remove(old(View()), t)
    {
      var p := At(prio, t);
      ghost var q := Without(queues[p], t);
      KeepIndexOk(X(), queues, p, q);
      ClearIndexOk(X(), queues, p);
      queues := queues[p := Without(queues[p], t)];
      if queues[p] == [] {
        if TwoLevels(max) {
          table := table[p / 8 := ClearBit(table[p / 8], p % 8)];
          if table[p / 8] == 0 {
            group := ClearBit(group, p / 8);
          }
        } else {
          group := ClearBit(group, p);
        }
      }
    }

    /** rt_schedule. */
    method Reschedule()
      requires Valid()
      modifies `queues, `group, `table, `stat, `current
      ensures Valid() && View() == Schedule(old(View()))
    {
      hide Inv, IndexOk, Without;
      ScheduleKeeps(View());
      GroupZero(X(), queues);
      RunningReady(View());
      if lock == 0 {
        if group != 0 {
          var needInsert := false;
          var h := Highest();
          var to := queues[h][0];
          QueuedReady(View(), h);
          if stat[current] == Stat.Ready {
            if At(prio, current) < h {
              to := current;
            } else {
              needInsert := true;
            }
          }
          if to != current {
            var from := current;
            current := to;
            if needInsert {
              InsertThread(from);
            }
            RemoveThread(to);
          } else {
            RemoveThread(current);
          }
        }
      }
    }

    /** rt_thread_suspend of the running thread. */
    method SuspendSelf() returns (ok: bool)
      requires Valid()
      modifies `queues, `group, `table, `stat
      ensures Valid() && ok == IsReady(old(View()), current)
      ensures View() == if ok then Suspend(old(View())) else old(View())
      ensures ok ==> stat[current] == Stat.Suspended && queues == old(queues) && current == old(current)
    {
      RunningReady(View());
      hide Inv, IndexOk;
      if stat[current] != Stat.Ready {
        return false;
      }
      BlockKeeps(View());
      BlockEffect(View());
      stat := stat[current := Stat.Suspended];
      RemoveThread(current);
      return true;
    }

    /** rt_thread_resume. */
    method ResumeThread(t: int) returns (ok: bool)
      requires Valid() && t in stat && stat[t] != Initial
      modifies `queues, `group, `table, `stat
      ensures Valid() && View() == Resume(old(View()), t) && ok == (old(stat)[t] == Stat.Suspended)
      ensures ok ==> t in stat && stat[t] == Stat.Ready
    {
      hide IndexOk;
      if stat[t] != Stat.Suspended {
        return false;
      }
      InsertKeeps(View(), t);
      InsertThread(t);
      return true;
    }

    /** rt_thread_startup. */
    method Startup(t: int, p: nat)
      requires Valid() && Enabled(View(), Action.Startup(t, p))
      modifies `queues, `group, `table, `stat, `prio, `current
      ensures Valid() && View() == Next(old(View()), Action.Startup(t, p))
      ensures t in stat && stat[t] == Stat.Ready && t in prio && prio[t] == p
    {
      hide IndexOk, Schedule;
      StartupEffect(View(), t, p);
      StartKeeps(View(), t, p);
      prio := prio[t := p];
      stat := stat[t := Stat.Suspended];
      var _ := ResumeThread(t);
      Reschedule();
    }

    /** rt_thread_timeout. */
    method Timeout(t: int)
      requires Valid() && Enabled(View(), Expire(t))
      modifies `queues, `group, `table, `stat, `current
      ensures Valid() && View() == Next(old(View()), Expire(t))
      ensures t in stat && stat[t] == Stat.Ready
    {
      hide IndexOk, Schedule;
      ExpireEffect(View(), t);
      InsertKeeps(View(), t);
      InsertThread(t);
      Reschedule();
    }

    /** rt_thread_control with RT_THREAD_CTRL_CHANGE_PRIORITY. */
    method ChangePriority(t: int, p: nat)
      requires Valid() && Enabled(View(), Change(t, p))
      modifies `queues, `group, `table, `stat, `prio
      ensures Valid() && View() == SetPriority(old(View()), t, p)
      ensures prio == old(prio)[t := p] && current == old(current)
    {
      hide IndexOk, Without;
      ChangeKeeps(View(), t, p);
      if stat[t] == Stat.Ready {
        RemoveThread(t);
        prio := prio[t := p];
        InsertThread(t);
      } else {
        prio := prio[t := p];
      }
    }

    /** rt_enter_critical. */
    method EnterCritical()
      requires Valid()
      modifies `lock
      ensures Valid() && View() == Next(old(View()), Enter) && lock == old(lock) + 1
    {
      LockKeeps(View(), lock + 1);
      lock := lock + 1;
    }

    /** rt_exit_critical. */
    method ExitCritical()
      requires Valid()
      modifies `queues, `group, `table, `stat, `current, `lock
      ensures Valid() && View() == Next(old(View()), Exit) && lock == if old(lock) == 0 then 0 else old(lock) - 1
    {
      hide IndexOk, Schedule;
      var n: nat := if lock <= 1 then 0 else lock - 1;
      LockKeeps(View(), n);
      var outer := lock <= 1;
      lock := n;
      if outer {
        Reschedule();
      }
    }
  }

  lemma RunningReady(s: State)
    requires Inv(s)
    ensures s.current in s.stat && s.stat[s.current] != Initial && InRange(s, s.current)
  {
  }

  lemma QueuedReady(s: State, h: nat)
    requires Inv(s) && h < |s.queues| && s.queues[h] != []
    ensures var t := s.queues[h][0]; IsReady(s, t) && At(s.prio, t) == h && t != s.current
  {
    var t := s.queues[h][0];
    assert t in s.queues[h] && SchedulerSpec.Placed(s, t, h);
  }
}
