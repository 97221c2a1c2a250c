/**
 The scheduler as it works on its variables (scheduler.c, thread.c, clock.c).
 */
module SchedulerObject {
  import opened WaitLists
  import opened ReadyBits
  import opened ReadyWords
  import opened Scheduler
  import opened SchedulerRuns
  import opened SchedulerCalls

  lemma AfterResume(s: State, t: Tid) returns (s': State)
    requires Inv(s) && t in s.resuming
    ensures Placed(s, t) && s' == Insert(s, t).(resuming := s.resuming - multiset{t})
    ensures s' == Stepped(s, DoResumeInsert(t)) && (Inv(s') <==> s.threads[t].stat != Ready)
  {
    ResumeInsertInvIff(s, t);
    s' := ResumeInsert(s, t);
  }

  lemma AfterUnlink(s: State, t: Tid) returns (s': State)
    requires Inv(s) && t in s.tested
    ensures Placed(s, t) && s' == ResumeUnlink(s, t)
    ensures s' == Stepped(s, DoResumeUnlink(t)) && (Inv(s') <==> s.threads[t].stat != Ready)
  {
    ResumeUnlinkInvIff(s, t);
    s' := ResumeUnlink(s, t);
  }

  lemma AfterTimeout(s: State, t: Tid) returns (s1: State)
    requires Inv(s) && Enabled(s, DoTimeout(t))
    ensures Placed(s, t) && s1 == Insert(s, t) && Inv(s1) && s1.current.Runs?
    ensures Schedulable(s1) && Stepped(s, DoTimeout(t)) == Schedule(s1)
  {
    ResumeInv(s, t);
    s1 := Resume(s, t);
    ScheduleInv(s1);
  }

  lemma AfterCountDown(s: State) returns (s1: State)
    requires Inv(s) && s.current.Runs?
    ensures s.current.tid in s.threads && s.threads[s.current.tid].left >= 1 && s1 == CountDown(s)
    ensures Inv(s1) && s1.current.Runs? && Schedulable(s1)
    ensures Stepped(s, DoTick) == if s.threads[s.current.tid].left == 1 then Schedule(s1) else s1
  {
    CountDownInv(s);
    s1 := CountDown(s);
    ScheduleInv(s1);
  }

  lemma SwitchBest(s: State, step: Step, s': State)
    requires Inv(s) && Enabled(s, step) && EndsInSwitch(s, step) && s.current.Runs? && s' == Stepped(s, step)
    ensures s'.lock == 0 ==> BestRuns(s')
  {
    if s'.lock == 0 {
      StepRunsBest(s, step);
    }
  }

  lemma NoBits()
    ensures BitSet(0) == {}
  {
    FfsIsLowest(0);
  }

  class Kernel {
    const twoLevel: bool               // more than 32 priorities
    var threads: map<Tid, Thread>
    var queues: seq<seq<Tid>>          // rt_thread_priority_table
    var group: nat                     // rt_thread_ready_priority_group
    var table: seq<nat>                // rt_thread_ready_table
    var current: Current               // rt_current_thread
    var lock: nat                      // rt_scheduler_lock_nest
    ghost var tested: multiset<Tid>
    ghost var resuming: multiset<Tid>

    ghost function Sched(): State
      reads this
    {
      State(threads, queues, BitsOf(twoLevel, group, table), current, lock, tested, resuming)
    }

    /** The words have their width, and stand for a bitmap in agreement with the queues. */
    ghost predicate Valid()
      reads this
    {
      Inv(Sched()) && WordsOk(group, table)
    }

    /** rt_system_scheduler_init, with threads that have been initialised but not started. */
    constructor (priorities: nat, threads: map<Tid, Thread>)
      requires priorities <= 256
      requires forall t :: t in threads ==>
        && threads[t].stat == Init && threads[t].prio < priorities && threads[t].initPrio < priorities
        && 1 <= threads[t].left <= threads[t].slice
      ensures Valid() && Reset(Sched()) && this.threads == threads && |queues| == priorities
    {
      twoLevel := priorities > 32;
      this.threads := threads;
      queues := seq(priorities, _ => []);
      group, table := 0, seq(32, _ => 0);
      current, lock, tested, resuming := Nobody, 0, multiset{}, multiset{};
      new;
      NoBits();
      assert BitSets(table) == seq(32, _ => {});
      ResetInv(Sched());
    }

    /** rt_schedule_insert_thread. */
    method InsertThread(t: Tid)
      requires Placed(Sched(), t) && WordsOk(group, table)
      modifies this`threads, this`queues, this`group, this`table
      ensures Sched() == Insert(old(Sched()), t) && WordsOk(group, table)
    {
      var e := threads[t];
      if current == Runs(t) {
        threads := threads[t := e.(stat := Running)];
        return;
      }
      SetWords(twoLevel, group, table, e.mask);
      threads := threads[t := e.(stat := Ready)];
      queues := queues[e.prio := queues[e.prio] + [t]];
      if twoLevel {
        table := table[e.mask / 8 := OrBit(table[e.mask / 8], e.mask % 8)];
        group := OrBit(group, e.mask / 8);
      } else {
        group := OrBit(group, e.mask);
      }
    }

    /** rt_schedule_remove_thread. */
    method RemoveThread(t: Tid)
      requires Placed(Sched(), t) && WordsOk(group, table)
      modifies this`queues, this`group, this`table
      ensures Sched() == Remove(old(Sched()), t) && WordsOk(group, table)
    {
      var e := threads[t];
      ClearWords(twoLevel, group, table, e.mask);
      queues := queues[e.prio := Without(queues[e.prio], t)];
      if queues[e.prio] == [] {
        if twoLevel {
          table := table[e.mask / 8 := AndNotBit(table[e.mask / 8], e.mask % 8)];
          if table[e.mask / 8] == 0 {
            group := AndNotBit(group, e.mask / 8);
          }
        } else {
          group := AndNotBit(group, e.mask);
        }
      }
    }

    /** The best ready priority: find-first-set once or twice. */
    method HighestReady() returns (h: nat)
      requires Valid() && group != 0
      ensures h == Highest(Sched().bits) && h < |queues| && queues[h] != []
      ensures forall p :: 0 <= p < |queues| && queues[p] != [] ==> h <= p
    {
      FfsIsLowest(group);
      BestReady(queues, Sched().bits, ReadyMap(threads));
      HighestIsBest(Sched().bits);
      if twoLevel {
        TwoLevelLookup(group, table);
        var number := Ffs(group) - 1;
        h := number * 8 + Ffs(table[number]) - 1;
      } else {
        OneLevelLookup(group, table);
        h := Ffs(group) - 1;
      }
      forall p | 0 <= p < |queues| && queues[p] != []
        ensures h <= p
      {
        assert Contains(Sched().bits, p) <==> p < |queues| && queues[p] != [];
      }
    }

    /** rt_schedule. */
    method Reschedule()
      requires Valid() && current.Runs?
      modifies this`threads, this`queues, this`group, this`table, this`current
      ensures Valid() && current.Runs? && Schedulable(old(Sched())) && Sched() == Schedule(old(Sched()))
    {
      ghost var s := Sched();
      ScheduleInv(s);
      CanSchedule(s);
      FfsIsLowest(group);
      if lock != 0 || group == 0 {
        return;
      }
      var h := HighestReady();
      var to, c := queues[h][0], current.tid;
      var cur := threads[c];
      var putBack := false;
      if cur.stat == Running {
        if cur.prio < h || (cur.prio == h && !cur.spent) {
          to := c;
        } else {
          threads := threads[c := cur.(spent := false)];
          putBack := true;
        }
      }
      if to != c {
        SwitchTo(to, c, putBack);
      } else {
        RemoveThread(c);
        threads := threads[c := threads[c].(stat := Running)];
      }
    }

    /** The switch itself: the new current thread leaves its queue, the old one may go back to its own. */
    method SwitchTo(to: Tid, c: Tid, putBack: bool)
      requires Placed(Sched(), to) && Placed(Sched(), c) && to != c && WordsOk(group, table)
      modifies this`threads, this`queues, this`group, this`table, this`current
      ensures var s := old(Sched()).(current := Runs(to));
              && WordsOk(group, table)
              && Sched() == WithStat(Remove(if putBack then Insert(s, c) else s, to), to, Running)
    {
      current := Runs(to);
      if putBack {
        InsertThread(c);
      }
      RemoveThread(to);
      threads := threads[to := threads[to].(stat := Running)];
    }

    /** rt_thread_startup. */
    method StartThread(t: Tid)
      requires Valid() && t in threads && threads[t].stat == Init
      modifies this`threads, this`queues, this`group, this`table, this`current
      ensures Valid() && Sched() == Stepped(old(Sched()), DoStartup(t))
      ensures Eligible(Sched(), t) && threads[t].prio == old(threads)[t].initPrio
      ensures current.Runs? && lock == 0 ==> BestRuns(Sched())
    {
      CanRunNow(Sched(), DoStartup(t));
      ghost var s := Sched();
      StartupInv(s, t);
      var e := threads[t];
      threads := threads[t := e.(prio := e.initPrio, mask := e.initPrio, stat := Suspended, spent := false)];
      InsertThread(t);
      assert Sched() == Startup(s, t);
      if current.Runs? {
        Reschedule();
        SwitchBest(s, DoStartup(t), Sched());
      }
    }

    /** rt_thread_suspend. */
    method SuspendThread(t: Tid) returns (ok: bool)
      requires Valid() && t in threads
      modifies this`threads, this`queues, this`group, this`table
      ensures Valid() && Sched() == Stepped(old(Sched()), DoSuspend(t))
      ensures ok == (old(threads)[t].stat == Ready || old(threads)[t].stat == Running)
      ensures if ok then TakenOff(old(Sched()), Sched(), t, old(threads)[t].(stat := Suspended))
              else Sched() == old(Sched())
    {
      SuspendInv(Sched(), t);
      SuspendMeans(Sched(), t);
      ok := threads[t].stat == Ready || threads[t].stat == Running;
      if ok {
        RemoveThread(t);
        threads := threads[t := threads[t].(stat := Suspended)];
      }
    }

    /** The test of rt_thread_resume. */
    method TestResume(t: Tid) returns (ok: bool)
      requires Valid() && t in threads
      modifies this`tested
      ensures Valid() && Sched() == Stepped(old(Sched()), DoResumeTest(t))
      ensures ok == (threads[t].stat == Suspended)
    {
      ResumeTestInv(Sched(), t);
      ok := threads[t].stat == Suspended;
      if ok {
        tested := tested + multiset{t};
      }
    }

    /** The first region of rt_thread_resume; it unlinks the thread from whatever queue it is in. */
    method UnlinkResume(t: Tid)
      requires Valid() && t in tested
      modifies this`queues, this`tested, this`resuming
      ensures Sched() == Stepped(old(Sched()), DoResumeUnlink(t))
      ensures Valid() <==> threads[t].stat != Ready
    {
      ghost var s := Sched();
      ghost var s' := AfterUnlink(s, t);
      var p := threads[t].prio;
      queues := queues[p := Without(queues[p], t)];
      tested, resuming := tested - multiset{t}, resuming + multiset{t};
      assert Sched() == s';
    }

    /** The second region of rt_thread_resume; it does not look at the thread again. */
    method FinishResume(t: Tid)
      requires Valid() && t in resuming
      modifies this`threads, this`queues, this`group, this`table, this`resuming
      ensures Sched() == Stepped(old(Sched()), DoResumeInsert(t))
      ensures Valid() <==> old(threads[t].stat) != Ready
      ensures Valid() ==> ResumedLate(old(Sched()), Sched(), t)
    {
      ghost var s := Sched();
      ghost var s' := AfterResume(s, t);
      if s.threads[t].stat != Ready {
        ResumeInsertMeans(s, t);
      }
      InsertThread(t);
      resuming := resuming - multiset{t};
      assert Sched() == s';
    }

    /** rt_thread_resume called with interrupts disabled. */
    method ResumeThread(t: Tid) returns (ok: bool)
      requires Valid() && t in threads
      modifies this`threads, this`queues, this`group, this`table
      ensures Valid() && Sched() == Stepped(old(Sched()), DoResume(t))
      ensures ok == (old(threads)[t].stat == Suspended)
      ensures if ok then MadeReady(old(Sched()), Sched(), t, old(threads)[t]) else Sched() == old(Sched())
    {
      ResumeInv(Sched(), t);
      ResumeMeans(Sched(), t);
      ok := threads[t].stat == Suspended;
      if ok {
        InsertThread(t);
      }
    }

    /** rt_thread_timeout. */
    method TimeoutThread(t: Tid)
      requires Valid() && t in threads && threads[t].stat == Suspended && current.Runs?
      modifies this`threads, this`queues, this`group, this`table, this`current
      ensures Valid() && Sched() == Stepped(old(Sched()), DoTimeout(t))
      ensures Eligible(Sched(), t) && threads[t].prio == old(threads)[t].prio
      ensures lock == 0 ==> BestRuns(Sched())
    {
      CanRunNow(Sched(), DoTimeout(t));
      ghost var s := Sched();
      ghost var s1 := AfterTimeout(Sched(), t);
      InsertThread(t);
      assert Sched() == s1;
      Reschedule();
      SwitchBest(s, DoTimeout(t), Sched());
    }

    /** rt_thread_control, change of priority. */
    method SetPriority(t: Tid, p: nat)
      requires Valid() && t in threads && p < |queues|
      modifies this`threads, this`queues, this`group, this`table
      ensures Valid() && Sched() == Stepped(old(Sched()), DoChangePriority(t, p))
      ensures PriorityChanged(old(Sched()), Sched(), t, p)
    {
      ChangePriorityInv(Sched(), t, p);
      ChangePriorityMeans(Sched(), t, p);
      if threads[t].stat == Ready {
        RemoveThread(t);
        threads := threads[t := threads[t].(prio := p, mask := p)];
        InsertThread(t);
      } else {
        threads := threads[t := threads[t].(prio := p, mask := p)];
      }
    }

    /** rt_exit_critical. */
    method ExitCritical()
      requires Valid()
      modifies this
      ensures Valid() && Sched() == Stepped(old(Sched()), DoExitCritical)
      ensures if old(lock) > 1 then Sched() == old(Sched()).(lock := old(lock) - 1) else lock == 0
      ensures lock == 0 && current.Runs? ==> BestRuns(Sched())
    {
      CriticalMeans(Sched());
      ghost var s := Sched();
      LockInv(Sched(), if lock > 0 then lock - 1 else 0);
      lock := if lock > 0 then lock - 1 else 0;
      if lock == 0 && current.Runs? {
        Reschedule();
        SwitchBest(s, DoExitCritical, Sched());
      }
    }

    /** The time slice in rt_tick_increase. */
    method TickIncrease()
      requires Valid() && current.Runs?
      modifies this`threads, this`queues, this`group, this`table, this`current
      ensures Valid() && Sched() == Stepped(old(Sched()), DoTick)
      ensures lock == 0 && old(threads)[old(current.tid)].left == 1 ==> BestRuns(Sched())
    {
      ghost var s := Sched();
      ghost var s1 := AfterCountDown(Sched());
      var c := current.tid;
      var e := threads[c];
      e := e.(left := e.left - 1);
      if e.left == 0 {
        threads := threads[c := e.(left := e.slice, spent := true)];
        assert Sched() == s1;
        Reschedule();
        SwitchBest(s, DoTick, Sched());
      } else {
        threads := threads[c := e];
        assert Sched() == s1;
      }
    }
  }
}
