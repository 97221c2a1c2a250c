/**
 Every run of scheduler steps keeps the ready queues, the bitmap and the thread states in
 agreement.
 */
module SchedulerRuns {
  import opened Links
  import opened WaitLists
  import opened ReadyBits
  import opened Scheduler

  // ---------------------------------------------------------------- single steps

  /** Only the record of `t` differs, and it is in order. */
  lemma OneThread(s: State, s': State, t: Tid)
    requires ThreadsOk(s) && t in s.threads && t in s'.threads && s'.threads == s.threads[t := s'.threads[t]]
    requires |s'.queues| == |s.queues| && s'.current == s.current && ThreadAt(s', t)
    requires forall x :: x in s'.tested || x in s'.resuming ==> x in s.tested || x in s.resuming || x == t
    ensures ThreadsOk(s')
  {
    forall x | x in s'.threads
      ensures ThreadAt(s', x)
    {
      assert x != t ==> ThreadAt(s, x);
    }
  }

  lemma StartupInv(s: State, t: Tid)
    requires Inv(s) && t in s.threads && s.threads[t].stat == Init
    ensures s.threads[t].initPrio < |s.queues| && Fits(s.bits, s.threads[t].initPrio)
    ensures Inv(Startup(s, t)) && Startup(s, t).current == s.current
  {
    assert ThreadAt(s, t);
    StartupMarkInv(s, t);
    assert Fits(s.bits, s.threads[t].initPrio);
    PutIn(StartupMark(s, t), t);
    OneThread(s, Startup(s, t), t);
  }

  lemma StartupMarkInv(s: State, t: Tid)
    requires Inv(s) && t in s.threads && s.threads[t].stat == Init
    ensures Inv(StartupMark(s, t)) && s.threads[t].initPrio < |s.queues|
  {
    assert ThreadAt(s, t);
    Altered(s, t, StartupMark(s, t).threads[t]);
    OneThread(s, StartupMark(s, t), t);
  }

  lemma ResumeInv(s: State, t: Tid)
    requires Inv(s) && t in s.threads
    ensures s.threads[t].stat == Suspended ==> Placed(s, t)
    ensures Inv(Resume(s, t)) && Resume(s, t).current == s.current
  {
    assert ThreadAt(s, t);
    if s.threads[t].stat == Suspended {
      PutIn(s, t);
      OneThread(s, Resume(s, t), t);
    }
  }

  lemma ResumeTestInv(s: State, t: Tid)
    requires Inv(s) && t in s.threads
    ensures Inv(ResumeTest(s, t))
  {
    assert ThreadAt(s, t);
    if s.threads[t].stat == Suspended {
      OneThread(s, ResumeTest(s, t), t);
    }
  }

  /** The first region keeps the invariant exactly when nobody has made the thread ready since the test. */
  lemma ResumeUnlinkInvIff(s: State, t: Tid)
    requires Inv(s) && t in s.tested
    ensures Placed(s, t)
    ensures Inv(ResumeUnlink(s, t)) <==> s.threads[t].stat != Ready
  {
    assert ThreadAt(s, t);
    UnlinkQueuedIff(s, t);
    if s.threads[t].stat != Ready {
      OneThread(s, ResumeUnlink(s, t), t);
    }
  }

  /** The second region keeps the invariant exactly when nobody has made the thread ready meanwhile. */
  lemma ResumeInsertInvIff(s: State, t: Tid)
    requires Inv(s) && t in s.resuming
    ensures Placed(s, t)
    ensures Inv(ResumeInsert(s, t)) <==> s.threads[t].stat != Ready
  {
    assert ThreadAt(s, t);
    InsertQueuedIff(s, t);
    if s.threads[t].stat != Ready {
      ResumeInsertThreads(s, t);
    }
  }

  lemma ResumeInsertThreads(s: State, t: Tid)
    requires ThreadsOk(s) && CurrentOk(s) && t in s.resuming && Placed(s, t)
    ensures ThreadsOk(ResumeInsert(s, t)) && (s.threads[t].stat != Ready ==> CurrentOk(ResumeInsert(s, t)))
  {
    assert ThreadAt(s, t);
    OneThread(s, ResumeInsert(s, t), t);
  }

  /** The first region after the thread has become ready: it is lost from its queue, until the second brings it back. */
  lemma LostAndFound(s: State, t: Tid)
    requires Inv(s) && t in s.tested && t in s.threads && s.threads[t].stat == Ready
    ensures Placed(s, t)
    ensures var s1, p := ResumeUnlink(s, t), s.threads[t].prio;
            && s1.threads[t].stat == Ready && (forall q :: 0 <= q < |s1.queues| ==> t !in s1.queues[q])
            && (s.queues[p] == [t] ==> Contains(s1.bits, p) && s1.queues[p] == [])
            && Placed(s1, t) && Inv(ResumeInsert(s1, t))
  {
    ResumeUnlinkInvIff(s, t);
    Lost(s, t);
    Found(s, t);
  }

  lemma Lost(s: State, t: Tid)
    requires Queued(s) && Placed(s, t) && s.threads[t].stat == Ready
    ensures var s1, p := Unlink(s, t), s.threads[t].prio;
            && (forall q :: 0 <= q < |s1.queues| ==> t !in s1.queues[q])
            && (s.queues[p] == [t] ==> Contains(s1.bits, p) && s1.queues[p] == [])
  {
    var s1, p := Unlink(s, t), s.threads[t].prio;
    forall q: nat | q < |s1.queues|
      ensures t !in s1.queues[q]
    {
      assert QueueAt(s.queues[q], ReadyMap(s.threads), q, t);
    }
    assert Contains(s.bits, p) <==> p < |s.queues| && s.queues[p] != [];
  }

  lemma Found(s: State, t: Tid)
    requires Inv(s) && t in s.tested && Placed(s, t) && s.threads[t].stat == Ready
    ensures Placed(ResumeUnlink(s, t), t) && Inv(ResumeInsert(ResumeUnlink(s, t), t))
  {
    assert ThreadAt(s, t);
    UnlinkThenInsert(s, t);
    OneThread(s, ResumeInsert(ResumeUnlink(s, t), t), t);
  }

  lemma UnlinkThenInsert(s: State, t: Tid)
    requires Queued(s) && Placed(s, t) && s.threads[t].mask == s.threads[t].prio
    requires s.threads[t].stat == Ready && s.current != Runs(t)
    ensures Placed(Unlink(s, t), t) && Queued(Insert(Unlink(s, t), t))
  {
    var s1, e := Unlink(s, t), s.threads[t];
    assert QueueAt(s.queues[e.prio], ReadyMap(s.threads), e.prio, t);
    assert Contains(s.bits, e.prio) <==> e.prio < |s.queues| && s.queues[e.prio] != [];
    TakeOut(s, t, e.(stat := Suspended));
    var s2 := Remove(s, t).(threads := s.threads[t := e.(stat := Suspended)]);
    PutIn(s2, t);
    BitsBack(s.bits, e.mask);
    assert Insert(s2, t) == Insert(s1, t);
  }

  /** The current thread is the only one of its priority or a better one. */
  ghost predicate Undisputed(s: State, t: Tid) {
    && s.current.Runs? && s.current != Runs(t) && s.current.tid in s.threads
    && s.threads[s.current.tid].stat == Running
    && forall x :: x in s.threads && (x == t || s.threads[x].stat == Ready) ==>
         s.threads[x].prio > s.threads[s.current.tid].prio
  }

  /** A thread whose wait times out while a more urgent one is about to resume it. */
  lemma TimeoutWhileResumed(s: State, t: Tid)
    requires Inv(s) && t in s.threads && s.threads[t].stat == Suspended && Undisputed(s, t)
    ensures Enabled(s, DoResumeTest(t))
    ensures var s1 := Stepped(s, DoResumeTest(t));
            && Inv(s1) && Enabled(s1, DoTimeout(t))
            && var s2 := Stepped(s1, DoTimeout(t));
               Inv(s2) && Enabled(s2, DoResumeUnlink(t)) && !Inv(Stepped(s2, DoResumeUnlink(t)))
  {
    ResumeTestInv(s, t);
    var s1 := ResumeTest(s, t);
    ResumeInv(s1, t);
    var s2 := Resume(s1, t);
    KeepsRunning(s2, t);
    ResumeUnlinkInvIff(Scheduled(s2), t);
  }

  lemma KeepsRunning(s: State, t: Tid)
    requires Inv(s) && Undisputed(s, t)
    ensures Scheduled(s).threads == s.threads && Scheduled(s).tested == s.tested
  {
    ScheduleInv(s);
    BestReady(s.queues, s.bits, ReadyMap(s.threads));
    if s.lock == 0 && s.bits.group != {} {
      ScheduleSwitches(s);
      assert s.queues[Highest(s.bits)][0] in s.threads;
    }
  }

  /** Two contexts resume the same suspended thread: both pass the test, and the second insertion breaks the queues. */
  lemma DoubleResume(s: State, t: Tid)
    requires Inv(s) && t in s.threads && s.threads[t].stat == Suspended && s.current != Runs(t)
    ensures var s2 := ResumeTest(ResumeTest(s, t), t);
            && Inv(s2) && Placed(s2, t) && Placed(ResumeUnlink(s2, t), t)
            && var s4 := ResumeUnlink(ResumeUnlink(s2, t), t);
               && Inv(s4) && Placed(s4, t)
               && var s5 := ResumeInsert(s4, t);
                  Inv(s5) && t in s5.resuming && Placed(s5, t) && !Inv(ResumeInsert(s5, t))
  {
    ResumeTestInv(s, t);
    ResumeTestInv(ResumeTest(s, t), t);
    var s2 := ResumeTest(ResumeTest(s, t), t);
    ResumeUnlinkInvIff(s2, t);
    var s3 := ResumeUnlink(s2, t);
    ResumeUnlinkInvIff(s3, t);
    var s4 := ResumeUnlink(s3, t);
    ResumeInsertInvIff(s4, t);
    ResumeInsertInvIff(ResumeInsert(s4, t), t);
  }

  /** The region of rt_thread_suspend keeps the invariant in every state a started thread may be in by then. */
  lemma SuspendRegionInv(s: State, t: Tid)
    requires Inv(s) && t in s.threads && s.threads[t].stat != Init && s.threads[t].mask == s.threads[t].prio
    ensures Placed(s, t)
    ensures Inv(SuspendRegion(s, t)) && SuspendRegion(s, t).current == s.current
  {
    assert ThreadAt(s, t);
    TakeOut(s, t, s.threads[t].(stat := Suspended));
    OneThread(s, SuspendRegion(s, t), t);
  }

  lemma SuspendInv(s: State, t: Tid)
    requires Inv(s) && t in s.threads
    ensures s.threads[t].stat == Ready || s.threads[t].stat == Running ==> Placed(s, t)
    ensures Inv(Suspend(s, t)) && Suspend(s, t).current == s.current
  {
    assert ThreadAt(s, t);
    if s.threads[t].stat == Ready || s.threads[t].stat == Running {
      SuspendRegionInv(s, t);
    }
  }

  lemma ChangePriorityInv(s: State, t: Tid, p: nat)
    requires Inv(s) && t in s.threads && p < |s.queues|
    ensures Fits(s.bits, p) && (s.threads[t].stat == Ready ==> Placed(s, t))
    ensures Inv(ChangePriority(s, t, p)) && ChangePriority(s, t, p).current == s.current
  {
    assert Fits(s.bits, p) && ThreadAt(s, t);
    var e := s.threads[t];
    if e.stat == Ready {
      var out := Masked(e, p).(stat := Suspended);
      TakeOut(s, t, out);
      var s1 := Remove(s, t).(threads := s.threads[t := out]);
      PutIn(s1, t);
      var s2 := Remove(s, t).(threads := s.threads[t := Masked(e, p)]);
      InsertIgnoresStat(s1, s2, t);
      assert Insert(s1, t) == ChangePriority(s, t, p);
    } else {
      Altered(s, t, Masked(e, p));
    }
    OneThread(s, ChangePriority(s, t, p), t);
  }

  /** Insertion overwrites the state of the thread. */
  lemma InsertIgnoresStat(a: State, b: State, t: Tid)
    requires Placed(a, t) && t in b.threads
    requires b == a.(threads := a.threads[t := a.threads[t].(stat := b.threads[t].stat)])
    ensures Placed(b, t) && Insert(a, t) == Insert(b, t)
  {
  }

  lemma CloseInv(s: State, t: Tid)
    requires Inv(s) && t in s.threads && s.threads[t].stat != Closed
    ensures s.threads[t].stat != Init ==> Placed(s, t)
    ensures Inv(Close(s, t)) && Close(s, t).current == s.current
  {
    assert ThreadAt(s, t);
    var e := s.threads[t];
    if e.stat != Init {
      TakeOut(s, t, e.(stat := Closed, spent := false));
    } else {
      Altered(s, t, e.(stat := Closed, spent := false));
    }
    OneThread(s, Close(s, t), t);
  }

  /** The removal alone leaves a READY thread in no queue. */
  lemma CloseUnlinkInvIff(s: State, t: Tid)
    requires Inv(s) && t in s.threads && s.threads[t].mask == s.threads[t].prio
    ensures Placed(s, t)
    ensures Inv(CloseUnlink(s, t)) <==> s.threads[t].stat != Ready
  {
    assert ThreadAt(s, t);
    UnlinkQueuedIff(s, t);
    if s.threads[t].stat != Ready {
      OneThread(s, CloseUnlink(s, t), t);
    }
  }

  /** The write alone leaves a closed thread in a queue, if it has become ready. */
  lemma CloseMarkInvIff(s: State, t: Tid)
    requires Inv(s) && t in s.threads
    ensures Inv(CloseMark(s, t)) <==> s.threads[t].stat != Ready
  {
    assert ThreadAt(s, t);
    MarkQueuedIff(s, t, CloseMark(s, t).threads[t]);
    if s.threads[t].stat != Ready {
      OneThread(s, CloseMark(s, t), t);
    }
  }

  /** Removal and write without a break close the thread, whatever its state. */
  lemma ClosedInParts(s: State, t: Tid)
    requires Placed(s, t) && s.threads[t].stat != Init
    ensures CloseMark(CloseUnlink(s, t), t) == Close(s, t)
  {
  }

  lemma CountDownInv(s: State)
    requires Inv(s) && s.current.Runs?
    ensures s.current.tid in s.threads && s.threads[s.current.tid].left >= 1
    ensures Inv(CountDown(s)) && CountDown(s).current == s.current
  {
    var c := s.current.tid;
    assert ThreadAt(s, c);
    Altered(s, c, CountDown(s).threads[c]);
    OneThread(s, CountDown(s), c);
  }

  lemma BeginInv(s: State)
    requires Inv(s) && s.current == Nobody && s.bits.group != {}
    ensures Highest(s.bits) < |s.queues| && s.queues[Highest(s.bits)] != [] && Placed(s, s.queues[Highest(s.bits)][0])
    ensures Inv(Begin(s)) && Begin(s).current.Runs?
  {
    BestReady(s.queues, s.bits, ReadyMap(s.threads));
    var to := s.queues[Highest(s.bits)][0];
    assert ThreadAt(s, to);
    TakeOut(s, to, s.threads[to].(stat := Running, spent := false));
    var s' := Begin(s);
    forall x | x in s'.threads
      ensures ThreadAt(s', x)
    {
      assert ThreadAt(s, x);
    }
  }

  // ---------------------------------------------------------------- runs

  datatype Step = DoStartup(t: Tid) | DoBegin | DoSuspend(t: Tid) | DoResume(t: Tid) | DoTimeout(t: Tid)
                | DoStartupMark(t: Tid) | DoSuspendRegion(t: Tid)
                | DoResumeTest(t: Tid) | DoResumeUnlink(t: Tid) | DoResumeInsert(t: Tid)
                | DoCloseUnlink(t: Tid) | DoCloseMark(t: Tid)
                | DoChangePriority(t: Tid, p: nat) | DoSchedule | DoClose(t: Tid) | DoExit
                | DoEnterCritical | DoExitCritical | DoTick

  /** What the source asks of whoever takes the step. */
  ghost predicate Enabled(s: State, step: Step) {
    match step
    case DoStartup(t) => t in s.threads && s.threads[t].stat == Init
    case DoBegin => s.current == Nobody && s.bits.group != {}
    case DoSuspend(t) => t in s.threads
    case DoResume(t) => t in s.threads
    case DoStartupMark(t) => t in s.threads && s.threads[t].stat == Init
    case DoResumeTest(t) => t in s.threads
    case DoResumeUnlink(t) => t in s.tested
    case DoResumeInsert(t) => t in s.resuming
    case DoSuspendRegion(t) => t in s.threads && s.threads[t].stat != Init && s.threads[t].mask == s.threads[t].prio
    case DoTimeout(t) => t in s.threads && s.threads[t].stat == Suspended && s.current.Runs?
    case DoChangePriority(t, p) => t in s.threads && p < |s.queues|
    case DoSchedule => s.current.Runs?
    case DoClose(t) => t in s.threads && s.threads[t].stat != Closed
    case DoCloseUnlink(t) => t in s.threads && s.threads[t].stat != Init && s.threads[t].mask == s.threads[t].prio
    case DoCloseMark(t) => t in s.threads
    case DoExit => s.current.Runs? && s.current.tid in s.threads && s.threads[s.current.tid].stat == Running
    case DoEnterCritical => true
    case DoExitCritical => true
    case DoTick => s.current.Runs?
  }

  ghost function Scheduled(s: State): (s': State)
    requires Inv(s)
    ensures Inv(s')
  {
    if s.current.Runs? then ScheduleInv(s); Schedule(s) else s
  }

  /** A step of an interrupted rt_thread_resume, rt_thread_detach or rt_thread_delete behind its test. */
  predicate Split(step: Step) {
    step.DoResumeUnlink? || step.DoResumeInsert? || step.DoCloseUnlink? || step.DoCloseMark?
  }

  ghost function SplitStepped(s: State, step: Step): State
    requires Inv(s) && Enabled(s, step) && Split(step)
  {
    match step
    case DoResumeUnlink(t) => ResumeUnlinkInvIff(s, t); ResumeUnlink(s, t)
    case DoResumeInsert(t) => ResumeInsertInvIff(s, t); ResumeInsert(s, t)
    case DoCloseUnlink(t) => CloseUnlinkInvIff(s, t); CloseUnlink(s, t)
    case DoCloseMark(t) => CloseMark(s, t)
  }

  ghost function Stepped(s: State, step: Step): State
    requires Inv(s) && Enabled(s, step)
  {
    match step
    case DoStartup(t) => StartupInv(s, t); Scheduled(Startup(s, t))
    case DoBegin => BeginInv(s); Begin(s)
    case DoSuspend(t) => SuspendInv(s, t); Suspend(s, t)
    case DoResume(t) => ResumeInv(s, t); Resume(s, t)
    case DoStartupMark(t) => StartupMark(s, t)
    case DoSuspendRegion(t) => SuspendRegionInv(s, t); SuspendRegion(s, t)
    case DoResumeTest(t) => ResumeTest(s, t)
    case DoTimeout(t) => ResumeInv(s, t); Scheduled(Resume(s, t))
    case DoChangePriority(t, p) => ChangePriorityInv(s, t, p); ChangePriority(s, t, p)
    case DoSchedule => Scheduled(s)
    case DoClose(t) => CloseInv(s, t); Close(s, t)
    case DoExit => CloseInv(s, s.current.tid); Scheduled(Close(s, s.current.tid))
    case DoEnterCritical => LockInv(s, s.lock + 1); s.(lock := s.lock + 1)
    case DoExitCritical =>
      var lock := if s.lock > 0 then s.lock - 1 else 0;
      LockInv(s, lock);
      if lock == 0 then Scheduled(s.(lock := 0)) else s.(lock := lock)
    case DoTick =>
      CountDownInv(s);
      var reloaded := s.threads[s.current.tid].left == 1;
      if reloaded then Scheduled(CountDown(s)) else CountDown(s)
    case _ => SplitStepped(s, step)
  }

  /** Nobody unlinks, inserts or closes in parts a thread that is ready by now. */
  ghost predicate Safe(s: State, step: Step) {
    Split(step) && step.t in s.threads ==> s.threads[step.t].stat != Ready
  }

  lemma SplitInvIff(s: State, step: Step)
    requires Inv(s) && Enabled(s, step) && Split(step)
    ensures Inv(Stepped(s, step)) <==> Safe(s, step)
  {
    match step
    case DoResumeUnlink(t) => ResumeUnlinkInvIff(s, t);
    case DoResumeInsert(t) => ResumeInsertInvIff(s, t);
    case DoCloseUnlink(t) => CloseUnlinkInvIff(s, t);
    case DoCloseMark(t) => CloseMarkInvIff(s, t);
  }

  lemma WholeInv(s: State, step: Step)
    requires Inv(s) && Enabled(s, step) && !Split(step)
    ensures Inv(Stepped(s, step))
  {
    match step
    case DoStartup(t) => StartupInv(s, t);
    case DoBegin => BeginInv(s);
    case DoSuspend(t) => SuspendInv(s, t);
    case DoResume(t) => ResumeInv(s, t);
    case DoStartupMark(t) => StartupMarkInv(s, t);
    case DoSuspendRegion(t) => SuspendRegionInv(s, t);
    case DoResumeTest(t) => ResumeTestInv(s, t);
    case DoTimeout(t) => ResumeInv(s, t);
    case DoChangePriority(t, p) => ChangePriorityInv(s, t, p);
    case DoSchedule =>
    case DoClose(t) => CloseInv(s, t);
    case DoExit => CloseInv(s, s.current.tid);
    case DoEnterCritical => LockInv(s, s.lock + 1);
    case DoExitCritical => LockInv(s, if s.lock > 0 then s.lock - 1 else 0);
    case DoTick => CountDownInv(s);
  }

  /** A step keeps bitmap, queues and states in agreement if and only if it is safe. */
  lemma StepInvIff(s: State, step: Step)
    requires Inv(s) && Enabled(s, step)
    ensures Inv(Stepped(s, step)) <==> Safe(s, step)
  {
    if Split(step) {
      SplitInvIff(s, step);
    } else {
      WholeInv(s, step);
    }
  }

  lemma LockInv(s: State, lock: nat)
    requires Inv(s)
    ensures Inv(s.(lock := lock))
  {
    var s' := s.(lock := lock);
    forall x | x in s'.threads
      ensures ThreadAt(s', x)
    {
      assert ThreadAt(s, x);
    }
  }

  /** Before any thread is started; `n` priorities. */
  ghost predicate Reset(s: State) {
    && (forall p :: 0 <= p < |s.queues| ==> s.queues[p] == [])
    && ((s.bits == Flat({}) && |s.queues| <= 32) || (s.bits == Grouped({}, seq(32, _ => {})) && |s.queues| <= 256))
    && s.current == Nobody && s.lock == 0 && s.tested == multiset{} && s.resuming == multiset{}
    && (forall t :: t in s.threads ==>
          && s.threads[t].stat == Init && s.threads[t].prio < |s.queues| && s.threads[t].initPrio < |s.queues|
          && 1 <= s.threads[t].left <= s.threads[t].slice)
  }

  lemma ResetInv(s: State)
    requires Reset(s)
    ensures Inv(s)
  {
    assert ReadyMap(s.threads) == map[];
    forall p, t: nat | 0 <= p < |s.queues|
      ensures QueueAt(s.queues[p], ReadyMap(s.threads), p, t)
    {
    }
    forall p: nat
      ensures !Contains(s.bits, p)
    {
    }
  }

  ghost predicate StepAt(ss: seq<State>, steps: seq<Step>, i: nat)
    requires i < |steps| < |ss|
  {
    Inv(ss[i]) ==> Enabled(ss[i], steps[i]) && ss[i + 1] == Stepped(ss[i], steps[i])
  }

  ghost predicate IsRun(ss: seq<State>, steps: seq<Step>) {
    && |ss| == |steps| + 1 && Reset(ss[0])
    && forall i {:trigger StepAt(ss, steps, i)} :: 0 <= i < |steps| ==> StepAt(ss, steps, i)
  }

  ghost predicate SafeAt(ss: seq<State>, steps: seq<Step>, j: nat)
    requires j < |steps| < |ss|
  {
    Safe(ss[j], steps[j])
  }

  ghost predicate InvAt(ss: seq<State>, i: nat)
    requires i < |ss|
  {
    Inv(ss[i])
  }

  lemma FirstInv(ss: seq<State>, steps: seq<Step>)
    requires IsRun(ss, steps)
    ensures InvAt(ss, 0)
  {
    ResetInv(ss[0]);
  }

  lemma NextInvIff(ss: seq<State>, steps: seq<Step>, j: nat)
    requires IsRun(ss, steps) && j < |steps| && InvAt(ss, j)
    ensures InvAt(ss, j + 1) <==> SafeAt(ss, steps, j)
  {
    assert StepAt(ss, steps, j);
    StepInvIff(ss[j], steps[j]);
  }

  /** Over every run: bitmap, queues and states agree up to step `k` if and only if the first `k` steps are safe. */
  lemma {:induction false} RunInvIff(ss: seq<State>, steps: seq<Step>, k: nat)
    requires IsRun(ss, steps) && k <= |steps|
    ensures (forall i :: 0 <= i <= k ==> InvAt(ss, i)) <==> (forall j :: 0 <= j < k ==> SafeAt(ss, steps, j))
  {
    if k == 0 {
      FirstInv(ss, steps);
    } else {
      var j := k - 1;
      RunInvIff(ss, steps, j);
      if forall i :: 0 <= i < k ==> InvAt(ss, i) {
        assert InvAt(ss, j);
        NextInvIff(ss, steps, j);
      } else {
        var l :| 0 <= l < j && !SafeAt(ss, steps, l);
      }
    }
  }

  /** Without resumes and closings split by an interrupt the invariant holds in every reachable state. */
  lemma RunInv(ss: seq<State>, steps: seq<Step>, i: nat)
    requires IsRun(ss, steps) && i < |ss| && forall j :: 0 <= j < |steps| ==> !Split(steps[j])
    ensures Inv(ss[i])
  {
    forall j | 0 <= j < i
      ensures SafeAt(ss, steps, j)
    {
      assert !Split(steps[j]);
    }
    RunInvIff(ss, steps, i);
    assert InvAt(ss, i);
  }

  /** The invariant in plain words. */
  lemma InvMeans(s: State, t: Tid, p: nat)
    requires Inv(s)
    ensures Contains(s.bits, p) <==> p < |s.queues| && s.queues[p] != []
    ensures p < |s.queues| ==>
      (t in s.queues[p] <==> t in s.threads && s.threads[t].stat == Ready && s.threads[t].prio == p)
    ensures t in s.threads && s.threads[t].stat == Running ==>
      s.current == Runs(t) && (p < |s.queues| ==> t !in s.queues[p])
    ensures s.current == Runs(t) && p < |s.queues| ==> t !in s.queues[p]
  {
    assert Contains(s.bits, p) <==> p < |s.queues| && s.queues[p] != [];
    assert p < |s.queues| ==> QueueAt(s.queues[p], ReadyMap(s.threads), p, t);
    assert t in s.threads ==> ThreadAt(s, t);
  }
}
