/**
 What the calls of the scheduler do to the thread they are about, and that they leave the others
 alone.
 */
module SchedulerCalls {
  import opened Links
  import opened WaitLists
  import opened ReadyBits
  import opened Scheduler
  import opened SchedulerRuns

  /** All other threads are as they were, and in the same order in every queue. */
  ghost predicate OthersKeep(s: State, s': State, t: Tid) {
    && s'.threads.Keys == s.threads.Keys && (forall x :: x in s.threads && x != t ==> s'.threads[x] == s.threads[x])
    && |s'.queues| == |s.queues|
    && (forall p {:trigger KeepsAt(s, s', t, p)} :: 0 <= p < |s.queues| ==> KeepsAt(s, s', t, p))
    && s'.current == s.current && s'.lock == s.lock && s'.tested == s.tested && s'.resuming == s.resuming
  }

  ghost predicate KeepsAt(s: State, s': State, t: Tid, p: nat)
    requires p < |s.queues| == |s'.queues|
  {
    Without(s'.queues[p], t) == Without(s.queues[p], t)
  }

  /** `t` is the last of the queue of `p` and in no other queue, and the bit of `p` is set. */
  ghost predicate LastIn(s: State, t: Tid, p: nat) {
    && p < |s.queues| && Contains(s.bits, p)
    && s.queues[p] != [] && s.queues[p][|s.queues[p]| - 1] == t
    && forall q :: 0 <= q < |s.queues| && q != p ==> t !in s.queues[q]
  }

  ghost predicate InNone(s: State, t: Tid) {
    forall q :: 0 <= q < |s.queues| ==> t !in s.queues[q]
  }

  /** A thread that gets ready is last of its priority; the current one just runs on. */
  ghost predicate MadeReady(s: State, s': State, t: Tid, e: Thread)
    requires t in s.threads
  {
    && OthersKeep(s, s', t) && t in s'.threads
    && (if s.current == Runs(t) then s'.threads[t] == e.(stat := Running) && InNone(s', t)
        else s'.threads[t] == e.(stat := Ready) && LastIn(s', t, e.prio))
  }

  /** A thread that stops being ready or running is in no queue. */
  ghost predicate TakenOff(s: State, s': State, t: Tid, e: Thread)
    requires t in s.threads
  {
    OthersKeep(s, s', t) && t in s'.threads && s'.threads[t] == e && InNone(s', t)
  }

  // ---------------------------------------------------------------- insertion and removal

  lemma NotQueued(s: State, t: Tid)
    requires Queued(s) && t in s.threads && s.threads[t].stat != Ready
    ensures InNone(s, t)
  {
    forall q | 0 <= q < |s.queues|
      ensures t !in s.queues[q]
    {
      assert QueueAt(s.queues[q], ReadyMap(s.threads), q, t);
    }
  }

  /** rt_schedule_insert_thread of a thread that is in no queue. */
  lemma InsertMeans(s: State, t: Tid)
    requires Queued(s) && Placed(s, t) && s.threads[t].stat != Ready && s.threads[t].mask == s.threads[t].prio
    ensures MadeReady(s, Insert(s, t), t, s.threads[t])
  {
    var s', p := Insert(s, t), s.threads[t].prio;
    NotQueued(s, t);
    forall q | 0 <= q < |s.queues|
      ensures KeepsAt(s, s', t, q)
    {
      if q == p {
        WithoutAppend(s.queues[p], t, t);
      }
    }
    if s.current != Runs(t) {
      PutIn(s, t);
      assert Contains(s'.bits, p) <==> p < |s'.queues| && s'.queues[p] != [];
    }
  }

  /** rt_schedule_remove_thread and a new record. */
  lemma RemoveMeans(s: State, t: Tid, e: Thread)
    requires Queued(s) && Placed(s, t) && e.stat != Ready
    ensures TakenOff(s, Remove(s, t).(threads := s.threads[t := e]), t, e)
  {
    var s', p := Remove(s, t).(threads := s.threads[t := e]), s.threads[t].prio;
    forall q | 0 <= q < |s.queues|
      ensures KeepsAt(s, s', t, q) && t !in s'.queues[q]
    {
      assert QueueAt(s.queues[q], ReadyMap(s.threads), q, t);
      if q == p {
        WithoutAbsent(Without(s.queues[p], t), t);
      }
    }
  }

  /** One call after the other about the same thread. */
  lemma KeepTwice(s: State, s1: State, s2: State, t: Tid)
    requires OthersKeep(s, s1, t) && OthersKeep(s1, s2, t)
    ensures OthersKeep(s, s2, t)
  {
    forall q | 0 <= q < |s.queues|
      ensures KeepsAt(s, s2, t, q)
    {
      assert KeepsAt(s, s1, t, q) && KeepsAt(s1, s2, t, q);
    }
  }

  /** Only the record of `t` changes. */
  lemma RecordOnly(s: State, t: Tid, e: Thread)
    requires t in s.threads
    ensures OthersKeep(s, s.(threads := s.threads[t := e]), t)
  {
    var s' := s.(threads := s.threads[t := e]);
    forall q | 0 <= q < |s.queues|
      ensures KeepsAt(s, s', t, q)
    {
    }
  }

  // ---------------------------------------------------------------- the calls

  lemma SuspendMeans(s: State, t: Tid)
    requires Inv(s) && t in s.threads
    ensures s.threads[t].stat == Ready || s.threads[t].stat == Running ==> Placed(s, t)
    ensures var e, s' := s.threads[t], Suspend(s, t);
            if e.stat == Ready || e.stat == Running then TakenOff(s, s', t, e.(stat := Suspended)) else s' == s
  {
    SuspendInv(s, t);
    var e := s.threads[t];
    if e.stat == Ready || e.stat == Running {
      RemoveMeans(s, t, e.(stat := Suspended));
    }
  }

  lemma ResumeMeans(s: State, t: Tid)
    requires Inv(s) && t in s.threads
    ensures s.threads[t].stat == Suspended ==> Placed(s, t)
    ensures var e, s' := s.threads[t], Resume(s, t);
            if e.stat == Suspended then MadeReady(s, s', t, e) else s' == s
  {
    assert ThreadAt(s, t);
    ResumeInv(s, t);
    if s.threads[t].stat == Suspended {
      InsertMeans(s, t);
    }
  }

  lemma StartupMeans(s: State, t: Tid)
    requires Inv(s) && t in s.threads && s.threads[t].stat == Init
    ensures s.threads[t].initPrio < |s.queues| && Fits(s.bits, s.threads[t].initPrio)
    ensures var e := s.threads[t];
            var started := e.(prio := e.initPrio, mask := e.initPrio, stat := Suspended, spent := false);
            MadeReady(s, Startup(s, t), t, started)
  {
    StartupInv(s, t);
    StartupMarkInv(s, t);
    var s1 := StartupMark(s, t);
    RecordOnly(s, t, s1.threads[t]);
    InsertMeans(s1, t);
    KeepTwice(s, s1, Startup(s, t), t);
  }

  lemma CloseMeans(s: State, t: Tid)
    requires Inv(s) && t in s.threads && s.threads[t].stat != Closed
    ensures s.threads[t].stat != Init ==> Placed(s, t)
    ensures TakenOff(s, Close(s, t), t, s.threads[t].(stat := Closed, spent := false))
  {
    CloseInv(s, t);
    var e' := s.threads[t].(stat := Closed, spent := false);
    if s.threads[t].stat != Init {
      RemoveMeans(s, t, e');
    } else {
      RecordOnly(s, t, e');
      NotQueued(s, t);
    }
  }

  /** The late write of the closed state, whatever has happened since the removal. */
  lemma CloseMarkMeans(s: State, t: Tid)
    requires t in s.threads
    ensures var s' := CloseMark(s, t);
            && OthersKeep(s, s', t) && s'.threads[t] == s.threads[t].(stat := Closed, spent := false)
            && s'.queues == s.queues && s'.bits == s.bits
  {
    RecordOnly(s, t, s.threads[t].(stat := Closed, spent := false));
  }

  /** The new priority, the masks with it, and nothing else; a READY thread goes to the end of its new queue. */
  ghost predicate PriorityChanged(s: State, s': State, t: Tid, p: nat)
    requires t in s.threads
  {
    && OthersKeep(s, s', t) && t in s'.threads && s'.threads[t] == s.threads[t].(prio := p, mask := p)
    && (if s.threads[t].stat == Ready then LastIn(s', t, p) else InNone(s', t) && s'.bits == s.bits)
  }

  lemma Requeued(s: State, s1: State, t: Tid, out: Thread)
    requires t in s.threads && TakenOff(s, s1, t, out) && Queued(s1) && Placed(s1, t)
    requires out.stat != Ready && out.mask == out.prio
    ensures MadeReady(s, Insert(s1, t), t, out)
  {
    InsertMeans(s1, t);
    KeepTwice(s, s1, Insert(s1, t), t);
  }

  lemma ReadyMoves(s: State, t: Tid, p: nat)
    requires Queued(s) && Placed(s, t) && s.threads[t].stat == Ready && s.threads[t].mask == s.threads[t].prio
    requires p < |s.queues| && Fits(s.bits, p)
    ensures MadeReady(s, ChangePriority(s, t, p), t, Masked(s.threads[t], p).(stat := Suspended))
  {
    var e := s.threads[t];
    var out := Masked(e, p).(stat := Suspended);
    RemoveMeans(s, t, out);
    TakeOut(s, t, out);
    var s1 := Remove(s, t).(threads := s.threads[t := out]);
    assert Fits(s1.bits, p);
    Requeued(s, s1, t, out);
    InsertIgnoresStat(s1, Remove(s, t).(threads := s.threads[t := Masked(e, p)]), t);
  }

  lemma ChangePriorityMeans(s: State, t: Tid, p: nat)
    requires Inv(s) && t in s.threads && p < |s.queues|
    ensures Fits(s.bits, p) && (s.threads[t].stat == Ready ==> Placed(s, t))
    ensures PriorityChanged(s, ChangePriority(s, t, p), t, p)
  {
    ChangePriorityInv(s, t, p);
    var e := s.threads[t];
    if e.stat == Ready {
      assert ThreadAt(s, t);
      ReadyMoves(s, t, p);
    } else {
      RecordOnly(s, t, Masked(e, p));
      NotQueued(s, t);
    }
  }

  /** One tick less; at the end of the slice a new one begins, and the thread is to yield. */
  ghost predicate SliceCounted(s: State, s': State, c: Tid)
    requires c in s.threads
  {
    var e := s.threads[c];
    && s' == s.(threads := s'.threads) && OthersKeep(s, s', c) && c in s'.threads
    && (if e.left > 1 then s'.threads[c] == e.(left := e.left - 1)
        else s'.threads[c] == e.(left := e.slice, spent := true))
  }

  lemma CountDownMeans(s: State)
    requires Inv(s) && s.current.Runs?
    ensures s.current.tid in s.threads && s.threads[s.current.tid].left >= 1
    ensures SliceCounted(s, CountDown(s), s.current.tid)
  {
    CountDownInv(s);
    RecordOnly(s, s.current.tid, CountDown(s).threads[s.current.tid]);
  }

  // ---------------------------------------------------------------- the switch

  /**
   The head of the best queue leaves it and runs. A thread that gives way while running is READY
   again, with its yield flag cleared, at the end of the queue of its priority.
   */
  ghost predicate SwitchedTo(s: State, s': State, h: nat, c: Tid)
    requires h < |s.queues| && s.queues[h] != [] && c in s.threads && s.queues[h][0] in s.threads
  {
    var to, cur := s.queues[h][0], s.threads[c];
    var back := cur.stat == Running;
    && to != c && s'.current == Runs(to) && s'.threads.Keys == s.threads.Keys && |s'.queues| == |s.queues|
    && s'.threads[to] == s.threads[to].(stat := Running)
    && s'.threads[c] == (if back then cur.(spent := false, stat := Ready) else cur)
    && (forall x :: x in s.threads && x != to && x != c ==> s'.threads[x] == s.threads[x])
    && s.queues[h] + (if back && cur.prio == h then [c] else []) == [to] + s'.queues[h]
    && (forall p :: 0 <= p < |s.queues| && p != h ==>
          s'.queues[p] == s.queues[p] + if back && cur.prio == p then [c] else [])
    && s'.lock == s.lock && s'.tested == s.tested && s'.resuming == s.resuming
  }

  /** What rt_schedule does, with the scheduler unlocked and a thread ready. */
  lemma ScheduleMeans(s: State)
    requires Inv(s) && s.current.Runs? && s.lock == 0 && s.bits.group != {}
    ensures Schedulable(s) && s.queues[Highest(s.bits)] != []
    ensures s.current.tid in s.threads && s.queues[Highest(s.bits)][0] in s.threads
    ensures var cur, h := s.threads[s.current.tid], Highest(s.bits);
            if cur.stat == Running && (cur.prio < h || (cur.prio == h && !cur.spent)) then Schedule(s) == s
            else SwitchedTo(s, Schedule(s), h, s.current.tid)
  {
    CanSchedule(s);
    BestReady(s.queues, s.bits, ReadyMap(s.threads));
    ScheduleSwitches(s);
    var c, h := s.current.tid, Highest(s.bits);
    var cur, to := s.threads[c], s.queues[h][0];
    NotQueued(s, c);
    assert Distinct(s.queues[h]);
    if cur.stat == Running && (cur.prio < h || (cur.prio == h && !cur.spent)) {
      GoesOn(s, c);
    } else {
      HeadTaken(s.queues[h], to, c);
    }
  }

  lemma HeadTaken(queue: seq<Tid>, to: Tid, c: Tid)
    requires queue != [] && Distinct(queue) && queue[0] == to && c != to
    ensures queue == [to] + Without(queue, to) && queue + [c] == [to] + Without(queue + [c], to)
  {
    var tail := queue[1..];
    forall i | 0 <= i < |tail|
      ensures tail[i] != to
    {
      assert queue[i + 1] == tail[i];
    }
    assert queue == [to] + tail && queue + [c] == [to] + (tail + [c]);
    HeadGone(to, tail);
    HeadGone(to, tail + [c]);
  }

  lemma HeadGone(to: Tid, tail: seq<Tid>)
    requires to !in tail
    ensures Without([to] + tail, to) == tail
  {
    WithoutCons(to, tail, to);
    WithoutAbsent(tail, to);
  }

  /** Removing the running thread, which is in no queue, changes nothing. */
  lemma GoesOn(s: State, c: Tid)
    requires Inv(s) && Placed(s, c) && InNone(s, c) && s.threads[c].stat == Running
    requires s.threads[c].mask == s.threads[c].prio
    ensures WithStat(Remove(s, c), c, Running) == s
  {
    UnlinkQueuedIff(s, c);
    WithoutAbsent(s.queues[s.threads[c].prio], c);
    var p := s.threads[c].prio;
    assert Contains(s.bits, p) <==> p < |s.queues| && s.queues[p] != [];
    if s.queues[p] == [] {
      ClearAbsent(s.bits, p);
    }
    assert s.threads[c := s.threads[c].(stat := Running)] == s.threads;
  }

  /** Clearing a bit that is not set. */
  lemma ClearAbsent(b: Bits, p: nat)
    requires BitsOk(b) && Fits(b, p) && !Contains(b, p)
    ensures ClearBit(b, p) == b
  {
    match b
    case Flat(group) => assert group - {p} == group;
    case Grouped(group, table) =>
      var word := table[p / 8] - {p % 8};
      assert word == table[p / 8] && table[p / 8 := word] == table;
      assert word == {} ==> p / 8 !in group && group - {p / 8} == group;
  }

  /** rt_system_scheduler_start: the head of the best queue runs. */
  lemma BeginMeans(s: State)
    requires Inv(s) && s.current == Nobody && s.bits.group != {}
    ensures Highest(s.bits) < |s.queues| && s.queues[Highest(s.bits)] != [] && Placed(s, s.queues[Highest(s.bits)][0])
    ensures var to, s' := s.queues[Highest(s.bits)][0], Begin(s);
            && s'.current == Runs(to)
            && TakenOff(s.(current := Runs(to)), s', to, s.threads[to].(stat := Running, spent := false))
            && (forall t :: t in s.threads && s.threads[t].stat == Ready ==> s.threads[to].prio <= s.threads[t].prio)
  {
    BeginInv(s);
    BestReady(s.queues, s.bits, ReadyMap(s.threads));
    var to := s.queues[Highest(s.bits)][0];
    RemoveMeans(s.(current := Runs(to)), to, s.threads[to].(stat := Running, spent := false));
    forall t | t in s.threads && s.threads[t].stat == Ready
      ensures s.threads[to].prio <= s.threads[t].prio
    {
      assert t in ReadyMap(s.threads) && to in ReadyMap(s.threads);
    }
  }

  /** The region of rt_thread_suspend, whatever the state of the thread by then. */
  lemma SuspendRegionMeans(s: State, t: Tid)
    requires Inv(s) && Enabled(s, DoSuspendRegion(t))
    ensures Placed(s, t) && TakenOff(s, SuspendRegion(s, t), t, s.threads[t].(stat := Suspended))
  {
    SuspendRegionInv(s, t);
    RemoveMeans(s, t, s.threads[t].(stat := Suspended));
  }

  /** The insertion of rt_thread_resume, if nobody has made the thread ready meanwhile. */
  ghost predicate ResumedLate(s: State, s': State, t: Tid)
    requires t in s.threads
  {
    MadeReady(s, s'.(resuming := s.resuming), t, s.threads[t]) && s'.resuming == s.resuming - multiset{t}
  }

  lemma ResumeInsertMeans(s: State, t: Tid)
    requires Inv(s) && t in s.resuming && s.threads[t].stat != Ready
    ensures Placed(s, t) && ResumedLate(s, ResumeInsert(s, t), t)
  {
    assert ThreadAt(s, t);
    ResumeInsertInvIff(s, t);
    InsertMeans(s, t);
    assert ResumeInsert(s, t).(resuming := s.resuming) == Insert(s, t);
  }

  // ---------------------------------------------------------------- calls that end in a switch

  /** No ready thread is more urgent than the current one, which runs if any could. */
  ghost predicate BestRuns(s: State) {
    && s.current.Runs? && s.current.tid in s.threads
    && forall t :: t in s.threads && s.threads[t].stat == Ready ==>
         s.threads[s.current.tid].stat == Running && s.threads[s.current.tid].prio <= s.threads[t].prio
  }

  ghost predicate EndsInSwitch(s: State, step: Step)
    requires Inv(s) && Enabled(s, step)
  {
    match step
    case DoStartup(_) => true
    case DoTimeout(_) => true
    case DoSchedule => true
    case DoExit => true
    case DoExitCritical => true
    case DoTick => s.threads[s.current.tid].left == 1
    case _ => false
  }

  lemma ScheduledBest(s: State)
    requires Inv(s) && s.current.Runs? && s.lock == 0
    ensures BestRuns(Scheduled(s))
  {
    ScheduleRunsBest(s);
    ScheduleInv(s);
    var s' := Schedule(s);
    forall t | t in s'.threads && s'.threads[t].stat == Ready
      ensures s'.threads[s'.current.tid].stat == Running
    {
      StillReady(s, t);
    }
  }

  /** A thread that is ready after a switch was ready or running before it. */
  lemma StillReady(s: State, t: Tid)
    requires Inv(s) && s.current.Runs? && Schedulable(s)
    requires t in Schedule(s).threads && Schedule(s).threads[t].stat == Ready
    ensures t in s.threads && (s.threads[t].stat == Ready || (s.current == Runs(t) && s.threads[t].stat == Running))
  {
    if s.lock == 0 && s.bits.group != {} {
      ScheduleSwitches(s);
    }
  }

  ghost predicate Eligible(s: State, t: Tid) {
    t in s.threads && (s.threads[t].stat == Ready || s.threads[t].stat == Running)
  }

  /** A switch leaves a thread that is ready or running one of the two, at its priority. */
  lemma StaysEligible(s: State, t: Tid)
    requires Inv(s) && Eligible(s, t)
    ensures Eligible(Scheduled(s), t) && Scheduled(s).threads[t].prio == s.threads[t].prio
  {
    if s.current.Runs? {
      ScheduleInv(s);
      if s.lock == 0 && s.bits.group != {} {
        ScheduleSwitches(s);
      }
    }
  }

  /** A thread that is started, or whose wait times out, can run afterwards, and a started one at its first priority. */
  lemma CanRunNow(s: State, step: Step)
    requires Inv(s) && Enabled(s, step) && (step.DoStartup? || step.DoTimeout?)
    ensures Eligible(Stepped(s, step), step.t)
    ensures Stepped(s, step).threads[step.t].prio ==
            if step.DoStartup? then s.threads[step.t].initPrio else s.threads[step.t].prio
  {
    match step
    case DoStartup(t) =>
      StartupInv(s, t);
      StartupMeans(s, t);
      StaysEligible(Startup(s, t), t);
    case DoTimeout(t) =>
      ResumeInv(s, t);
      ResumeMeans(s, t);
      StaysEligible(Resume(s, t), t);
  }

  /** The nesting counts up and down to zero, and nothing else happens as long as it is not zero. */
  lemma CriticalMeans(s: State)
    requires Inv(s)
    ensures Stepped(s, DoEnterCritical) == s.(lock := s.lock + 1)
    ensures var s' := Stepped(s, DoExitCritical);
            if s.lock > 1 then s' == s.(lock := s.lock - 1) else s'.lock == 0
  {
    if s.lock <= 1 && s.current.Runs? {
      LockInv(s, 0);
      ScheduleInv(s.(lock := 0));
      if s.bits.group != {} {
        ScheduleSwitches(s.(lock := 0));
      }
    }
  }

  /** A thread that exits is closed, with its yield flag cleared, and in no queue. */
  lemma ExitMeans(s: State)
    requires Inv(s) && Enabled(s, DoExit)
    ensures var c, s' := s.current.tid, Stepped(s, DoExit);
            && c in s'.threads && s'.threads[c] == s.threads[c].(stat := Closed, spent := false)
            && InNone(s', c)
  {
    var c := s.current.tid;
    CloseInv(s, c);
    CloseMeans(s, c);
    var s1 := Close(s, c);
    ScheduleInv(s1);
    CanSchedule(s1);
    if s1.lock == 0 && s1.bits.group != {} {
      ScheduleSwitches(s1);
    }
    NotQueued(Stepped(s, DoExit), c);
  }

  /** With the scheduler unlocked afterwards, every call that schedules leaves the best thread running. */
  lemma StepRunsBest(s: State, step: Step)
    requires Inv(s) && Enabled(s, step) && EndsInSwitch(s, step) && s.current.Runs?
    requires Stepped(s, step).lock == 0
    ensures BestRuns(Stepped(s, step))
  {
    match step
    case DoStartup(t) =>
      StartupInv(s, t);
      ScheduledBest(Startup(s, t));
    case DoTimeout(t) =>
      ResumeInv(s, t);
      ScheduledBest(Resume(s, t));
    case DoSchedule => ScheduledBest(s);
    case DoExit =>
      CloseInv(s, s.current.tid);
      ScheduledBest(Close(s, s.current.tid));
    case DoExitCritical =>
      LockInv(s, 0);
      ScheduledBest(s.(lock := 0));
    case DoTick =>
      CountDownInv(s);
      ScheduledBest(CountDown(s));
  }
}
