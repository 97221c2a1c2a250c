/**
 Round robin: how long a ready thread waits for its turn among threads of its priority.
 */
module RoundRobin {
  import opened Links
  import opened WaitLists
  import opened ReadyBits
  import opened Scheduler
  import opened SchedulerRuns

  /** The threads in front of `t`. */
  function Front(queue: seq<Tid>, t: Tid): seq<Tid> {
    if queue == [] || queue[0] == t then [] else [queue[0]] + Front(queue[1..], t)
  }

  function LeftOf(threads: map<Tid, Thread>, t: Tid): nat {
    if t in threads then threads[t].left else 0
  }

  function SliceOf(threads: map<Tid, Thread>, t: Tid): nat {
    if t in threads then threads[t].slice else 0
  }

  function SumLeft(threads: map<Tid, Thread>, ts: seq<Tid>): nat {
    if ts == [] then 0 else LeftOf(threads, ts[0]) + SumLeft(threads, ts[1..])
  }

  function SumSlices(threads: map<Tid, Thread>, ts: seq<Tid>): nat {
    if ts == [] then 0 else SliceOf(threads, ts[0]) + SumSlices(threads, ts[1..])
  }

  /** `t` is ready at priority `p`, the scheduler is unlocked, and nothing better is ready or running. */
  ghost predicate Waiting(s: State, t: Tid, p: nat) {
    && Inv(s) && s.lock == 0 && s.current.Runs?
    && t in s.threads && s.threads[t].stat == Ready && s.threads[t].prio == p && p < |s.queues|
    && (s.current.tid in s.threads && s.threads[s.current.tid].stat == Running ==> s.threads[s.current.tid].prio >= p)
    && (forall u {:trigger NotBetter(s, u, p)} :: u in s.threads ==> NotBetter(s, u, p))
  }

  ghost predicate NotBetter(s: State, u: Tid, p: nat)
    requires u in s.threads
  {
    s.threads[u].stat == Ready ==> s.threads[u].prio >= p
  }

  /** Ticks until the turn of `t` at the latest. */
  ghost function Wait(s: State, t: Tid, p: nat): nat
    requires s.current.Runs? && p < |s.queues|
  {
    LeftOf(s.threads, s.current.tid) + SumLeft(s.threads, Front(s.queues[p], t))
  }

  // ---------------------------------------------------------------- sequences

  lemma {:induction false} FrontAppend(queue: seq<Tid>, t: Tid, u: Tid)
    requires t in queue
    ensures Front(queue + [u], t) == Front(queue, t)
  {
    if queue[0] != t {
      assert (queue + [u])[1..] == queue[1..] + [u];
      FrontAppend(queue[1..], t, u);
    }
  }

  lemma {:induction false} FrontWithout(queue: seq<Tid>, t: Tid, u: Tid)
    requires t in queue && u != t
    ensures Front(Without(queue, u), t) == Without(Front(queue, t), u)
  {
    if queue[0] == t {
      assert Without(queue, u)[0] == t;
    } else {
      FrontWithout(queue[1..], t, u);
      var w, f := Without(queue[1..], u), Front(queue[1..], t);
      assert ([queue[0]] + f)[1..] == f;
      if queue[0] == u {
        assert Without(queue, u) == w;
        assert Without(Front(queue, t), u) == Without(f, u);
      } else {
        assert ([queue[0]] + w)[1..] == w;
      }
    }
  }

  lemma {:induction false} FrontIn(queue: seq<Tid>, t: Tid, x: Tid)
    requires x in Front(queue, t)
    ensures x in queue
  {
    if x != queue[0] {
      FrontIn(queue[1..], t, x);
    }
  }

  lemma {:induction false} SumSame(a: map<Tid, Thread>, b: map<Tid, Thread>, ts: seq<Tid>)
    requires forall x :: x in ts ==> LeftOf(a, x) == LeftOf(b, x)
    ensures SumLeft(a, ts) == SumLeft(b, ts)
  {
    if ts != [] {
      assert ts[0] in ts;
      SumSame(a, b, ts[1..]);
    }
  }

  lemma {:induction false} SumWithout(a: map<Tid, Thread>, ts: seq<Tid>, u: Tid)
    ensures SumLeft(a, Without(ts, u)) <= SumLeft(a, ts)
  {
    if ts != [] {
      SumWithout(a, ts[1..], u);
      var w := Without(ts[1..], u);
      if ts[0] == u {
        assert Without(ts, u) == w;
      } else {
        assert ([ts[0]] + w)[1..] == w;
      }
    }
  }

  /** The wait is at most the time slices of the running thread and of those queued in front. */
  lemma WaitWithinSlices(s: State, t: Tid, p: nat)
    requires Waiting(s, t, p)
    ensures Wait(s, t, p) <= SliceOf(s.threads, s.current.tid) + SumSlices(s.threads, Front(s.queues[p], t))
    ensures Wait(s, t, p) >= 1
  {
    assert ThreadAt(s, s.current.tid);
    LeftWithinSlices(s, Front(s.queues[p], t));
  }

  lemma {:induction false} LeftWithinSlices(s: State, ts: seq<Tid>)
    requires ThreadsOk(s)
    ensures SumLeft(s.threads, ts) <= SumSlices(s.threads, ts)
  {
    if ts != [] {
      assert ts[0] in s.threads ==> ThreadAt(s, ts[0]);
      LeftWithinSlices(s, ts[1..]);
    }
  }

  // ---------------------------------------------------------------- what a step does to the wait

  /** Either the turn of `t` has come, or it is no further away than `w`. */
  ghost predicate Closer(s: State, t: Tid, p: nat, w: int) {
    s.current == Runs(t) || (Waiting(s, t, p) && Wait(s, t, p) <= w)
  }

  /** The slices that are left stay as they are, and so does everything in front of `t`. */
  lemma SameWait(s: State, s': State, t: Tid, p: nat)
    requires Waiting(s, t, p) && s'.current == s.current && p < |s'.queues|
    requires forall x :: LeftOf(s'.threads, x) == LeftOf(s.threads, x)
    requires Front(s'.queues[p], t) == Front(s.queues[p], t)
      || exists u :: Front(s'.queues[p], t) == Without(Front(s.queues[p], t), u)
    ensures Wait(s', t, p) <= Wait(s, t, p)
  {
    SumSame(s'.threads, s.threads, Front(s'.queues[p], t));
    if u :| Front(s'.queues[p], t) == Without(Front(s.queues[p], t), u) {
      SumWithout(s.threads, Front(s.queues[p], t), u);
    }
  }

  lemma InQueue(s: State, t: Tid, p: nat)
    requires Waiting(s, t, p)
    ensures t in s.queues[p] && Distinct(s.queues[p])
  {
    assert QueueAt(s.queues[p], ReadyMap(s.threads), p, t);
  }

  /** Another thread of no better priority becomes ready. */
  lemma InsertWait(s: State, u: Tid, t: Tid, p: nat)
    requires Waiting(s, t, p) && u != t && u in s.threads && s.threads[u].stat != Ready && Placed(s, u)
    requires s.threads[u].prio >= p && Inv(Insert(s, u))
    ensures Closer(Insert(s, u), t, p, Wait(s, t, p))
  {
    var s' := Insert(s, u);
    InQueue(s, t, p);
    FrontAppend(s.queues[p], t, u);
    forall x | x in s'.threads
      ensures NotBetter(s', x, p)
    {
      assert x in s.threads && NotBetter(s, x, p);
    }
    SameWait(s, s', t, p);
  }

  /** Another thread leaves. */
  lemma RemoveWait(s: State, s': State, u: Tid, e': Thread, t: Tid, p: nat)
    requires Waiting(s, t, p) && u != t && Placed(s, u) && Inv(s')
    requires s' == Remove(s, u).(threads := s.threads[u := e'])
    requires e'.left == s.threads[u].left && e'.stat != Ready && e'.stat != Running
    ensures Closer(s', t, p, Wait(s, t, p))
  {
    InQueue(s, t, p);
    FrontWithout(s.queues[p], t, u);
    forall x | x in s'.threads
      ensures NotBetter(s', x, p)
    {
      assert x in s.threads && NotBetter(s, x, p);
    }
    SameWait(s, s', t, p);
  }

  // ---------------------------------------------------------------- scheduling

  /** The head of the queue of `p` is next. */
  lemma NextInLine(s: State, t: Tid, p: nat)
    requires Waiting(s, t, p)
    ensures Schedulable(s) && s.bits.group != {} && Highest(s.bits) == p && s.queues[p] != []
    ensures s.queues[p][0] != s.current.tid && s.queues[p][0] in s.threads && s.threads[s.queues[p][0]].stat == Ready
    ensures s.current.tid in s.threads && s.threads[s.queues[p][0]].prio == p
  {
    CanSchedule(s);
    BestReady(s.queues, s.bits, ReadyMap(s.threads));
    assert t in ReadyMap(s.threads);
    var to := s.queues[Highest(s.bits)][0];
    assert to in s.threads && NotBetter(s, to, p);
  }

  /** The current thread goes on. */
  ghost predicate Stays(s: State, p: nat) {
    s.current.Runs? && s.current.tid in s.threads
    && var e := s.threads[s.current.tid]; e.stat == Running && e.prio == p && !e.spent
  }

  /** The queue of `p` after a switch. */
  lemma SwitchedQueue(s: State, t: Tid, p: nat)
    requires Waiting(s, t, p) && Schedulable(s) && !Stays(s, p) && s.queues[p] != []
    ensures var c, q := s.current.tid, s.queues[p];
            Schedule(s).queues[p] ==
              Without(if s.threads[c].stat == Running && s.threads[c].prio == p then q + [c] else q, q[0])
  {
    NextInLine(s, t, p);
  }

  lemma FrontPopped(queue: seq<Tid>, t: Tid, c: Tid)
    requires Distinct(queue) && t in queue && queue[0] != t && c !in queue
    ensures var rest := Front(queue[1..], t);
            && Front(queue, t) == [queue[0]] + rest
            && Front(Without(queue, queue[0]), t) == rest && Front(Without(queue + [c], queue[0]), t) == rest
            && queue[0] !in rest && c !in rest
  {
    var to, rest := queue[0], Front(queue[1..], t);
    assert queue == [to] + queue[1..];
    if to in rest {
      FrontIn(queue[1..], t, to);
    }
    if c in rest {
      FrontIn(queue[1..], t, c);
    }
    FrontWithout(queue, t, to);
    FrontWithout(queue + [c], t, to);
    FrontAppend(queue, t, c);
    HeadWithout(to, rest);
  }

  lemma {:induction false} HeadWithout(to: Tid, rest: seq<Tid>)
    requires to !in rest
    ensures Without([to] + rest, to) == rest && Without(rest, to) == rest
  {
    assert ([to] + rest)[1..] == rest;
    if rest != [] {
      assert rest[0] in rest;
      HeadWithout(to, rest[1..]);
    }
  }

  /** rt_schedule brings the turn of `t` nearer by all that the current thread had left, if it switches. */
  lemma ScheduleWait(s: State, t: Tid, p: nat)
    requires Waiting(s, t, p)
    ensures Schedulable(s)
    ensures Stays(s, p) ==> Closer(Schedule(s), t, p, Wait(s, t, p))
    ensures !Stays(s, p) ==> Closer(Schedule(s), t, p, Wait(s, t, p) - LeftOf(s.threads, s.current.tid))
  {
    NextInLine(s, t, p);
    ScheduleInv(s);
    ScheduleSwitches(s);
    var s', c, to := Schedule(s), s.current.tid, s.queues[p][0];
    InQueue(s, t, p);
    if Stays(s, p) {
      assert ThreadAt(s, c);
      StaysQueue(s, p);
      StillWaiting(s, s', t, p);
    } else if to != t {
      SwitchedQueue(s, t, p);
      assert QueueAt(s.queues[p], ReadyMap(s.threads), p, c);
      FrontPopped(s.queues[p], t, c);
      SumSame(s'.threads, s.threads, Front(s.queues[p][1..], t));
      StillWaiting(s, s', t, p);
    }
  }

  lemma StaysQueue(s: State, p: nat)
    requires Inv(s) && Schedulable(s) && Stays(s, p) && s.lock == 0 && p < |s.queues| && Highest(s.bits) == p
    ensures Schedule(s).queues[p] == s.queues[p]
  {
    var c := s.current.tid;
    assert QueueAt(s.queues[p], ReadyMap(s.threads), p, c);
    assert Distinct(s.queues[p]);
    WithoutDistinct(s.queues[p], c);
  }

  /** `t` stays ready and nothing better appears. */
  lemma StillWaiting(s: State, s': State, t: Tid, p: nat)
    requires Waiting(s, t, p) && Inv(s') && s'.lock == 0 && |s'.queues| == |s.queues| && s.queues[p] != []
    requires s.queues[p][0] in s.threads && s.current.tid in s.threads && s.threads[s.queues[p][0]].prio == p
    requires Switched(s, s', p, s.queues[p][0]) && s'.current != Runs(t) && s.current.tid != t
    ensures Waiting(s', t, p)
  {
    forall x | x in s'.threads
      ensures NotBetter(s', x, p)
    {
      assert x in s.threads && NotBetter(s, x, p);
    }
  }

  // ---------------------------------------------------------------- runs

  /** Nobody of better priority becomes ready, nobody's priority changes, and `t` is left alone. */
  ghost predicate Fair(s: State, step: Step, t: Tid, p: nat) {
    match step
    case DoStartup(u) => u in s.threads && s.threads[u].initPrio >= p
    case DoStartupMark(_) => true
    case DoSuspend(u) => u != t
    case DoSuspendRegion(u) => u != t
    case DoResume(u) => u in s.threads && s.threads[u].prio >= p
    case DoResumeTest(_) => true
    case DoResumeUnlink(_) => Safe(s, step)
    case DoResumeInsert(u) => u in s.threads && s.threads[u].prio >= p && Safe(s, step)
    case DoTimeout(u) => u in s.threads && s.threads[u].prio >= p
    case DoClose(u) => u != t
    case DoCloseUnlink(u) => Safe(s, step)
    case DoCloseMark(u) => Safe(s, step)
    case DoSchedule => true
    case DoExit => true
    case DoExitCritical => true
    case DoTick => true
    case _ => false
  }

  ghost function TickOf(step: Step): nat {
    if step.DoTick? then 1 else 0
  }

  /** If some thread comes nearer, scheduling does not undo it. */
  lemma ThenScheduled(s: State, t: Tid, p: nat, w: int)
    requires Inv(s) && Closer(s, t, p, w) && s.current.Runs? && s.current != Runs(t)
    ensures Closer(Scheduled(s), t, p, w)
  {
    ScheduleWait(s, t, p);
  }

  lemma TickWait(s: State, t: Tid, p: nat)
    requires Waiting(s, t, p)
    ensures Closer(Stepped(s, DoTick), t, p, Wait(s, t, p) - 1)
  {
    CountDownInv(s);
    var s1, c := CountDown(s), s.current.tid;
    InQueue(s, t, p);
    assert ThreadAt(s, c);
    NextInLine(s, t, p);
    forall x | x in s1.threads
      ensures NotBetter(s1, x, p)
    {
      assert x in s.threads && NotBetter(s, x, p);
    }
    CurrentNotInFront(s, t, p);
    SumSame(s1.threads, s.threads, Front(s.queues[p], t));
    assert Waiting(s1, t, p);
    if s.threads[c].left == 1 {
      ScheduleWait(s1, t, p);
    }
  }

  lemma CurrentNotInFront(s: State, t: Tid, p: nat)
    requires Waiting(s, t, p)
    ensures s.current.tid !in Front(s.queues[p], t)
  {
    var c := s.current.tid;
    assert QueueAt(s.queues[p], ReadyMap(s.threads), p, c);
    if c in Front(s.queues[p], t) {
      FrontIn(s.queues[p], t, c);
    }
  }

  /** The record of another thread changes, without touching queues or what is left of its slice. */
  lemma AlteredWait(s: State, s': State, u: Tid, t: Tid, p: nat)
    requires Waiting(s, t, p) && Inv(s') && u != t && u in s.threads && u in s'.threads
    requires s' == s.(threads := s.threads[u := s'.threads[u]]) && s'.threads[u].left == s.threads[u].left
    requires s'.threads[u].stat != Ready && s'.threads[u].stat != Running
    ensures Waiting(s', t, p) && Wait(s', t, p) == Wait(s, t, p)
  {
    forall x | x in s'.threads
      ensures NotBetter(s', x, p)
    {
      assert x in s.threads && NotBetter(s, x, p);
    }
    SumSame(s'.threads, s.threads, Front(s.queues[p], t));
  }

  lemma StartupWait(s: State, u: Tid, t: Tid, p: nat)
    requires Waiting(s, t, p) && Enabled(s, DoStartup(u)) && s.threads[u].initPrio >= p
    ensures Closer(Stepped(s, DoStartup(u)), t, p, Wait(s, t, p))
  {
    StartupInv(s, u);
    StartupMarkWait(s, u, t, p);
    var s1 := StartupMark(s, u);
    InsertWait(s1, u, t, p);
    InQueue(s, t, p);
    assert QueueAt(s.queues[p], ReadyMap(s.threads), p, s.current.tid);
    ThenScheduled(Startup(s, u), t, p, Wait(s, t, p));
  }

  lemma StartupMarkWait(s: State, u: Tid, t: Tid, p: nat)
    requires Waiting(s, t, p) && u in s.threads && s.threads[u].stat == Init
    ensures Inv(StartupMark(s, u)) && Waiting(StartupMark(s, u), t, p)
    ensures Wait(StartupMark(s, u), t, p) == Wait(s, t, p) && Placed(StartupMark(s, u), u)
  {
    StartupMarkInv(s, u);
    AlteredWait(s, StartupMark(s, u), u, t, p);
    assert Fits(s.bits, s.threads[u].initPrio);
  }

  lemma ResumeWait(s: State, u: Tid, t: Tid, p: nat)
    requires Waiting(s, t, p) && u in s.threads && s.threads[u].prio >= p
    ensures s.threads[u].stat == Suspended ==> Placed(s, u)
    ensures Closer(Resume(s, u), t, p, Wait(s, t, p))
  {
    ResumeInv(s, u);
    if s.threads[u].stat == Suspended {
      InsertWait(s, u, t, p);
    }
  }

  /** Nothing the scheduler looks at changes. */
  lemma SameThreads(s: State, s': State, t: Tid, p: nat)
    requires Waiting(s, t, p) && Inv(s') && s' == s.(tested := s'.tested, resuming := s'.resuming)
    ensures Closer(s', t, p, Wait(s, t, p))
  {
    forall x | x in s'.threads
      ensures NotBetter(s', x, p)
    {
      assert NotBetter(s, x, p);
    }
  }

  lemma ResumeTestWait(s: State, u: Tid, t: Tid, p: nat)
    requires Waiting(s, t, p) && u in s.threads
    ensures Closer(ResumeTest(s, u), t, p, Wait(s, t, p))
  {
    ResumeTestInv(s, u);
    SameThreads(s, ResumeTest(s, u), t, p);
  }

  lemma ResumeUnlinkWait(s: State, u: Tid, t: Tid, p: nat)
    requires Waiting(s, t, p) && u in s.tested && s.threads[u].stat != Ready
    ensures Placed(s, u) && Closer(ResumeUnlink(s, u), t, p, Wait(s, t, p))
  {
    assert ThreadAt(s, u);
    ResumeUnlinkInvIff(s, u);
    UnlinkQueuedIff(s, u);
    SameThreads(s, ResumeUnlink(s, u), t, p);
  }

  lemma ResumeInsertWait(s: State, u: Tid, t: Tid, p: nat)
    requires Waiting(s, t, p) && u in s.resuming && u in s.threads && s.threads[u].prio >= p
    requires s.threads[u].stat != Ready
    ensures Placed(s, u) && Closer(ResumeInsert(s, u), t, p, Wait(s, t, p))
  {
    ResumeInsertInvIff(s, u);
    InsertKeeps(s, u);
    InsertWait(s, u, t, p);
    SameThreads(Insert(s, u), ResumeInsert(s, u), t, p);
  }

  lemma InsertKeeps(s: State, u: Tid)
    requires Inv(s) && u in s.resuming && s.threads[u].stat != Ready && Placed(s, u)
    ensures Inv(Insert(s, u))
  {
    assert ThreadAt(s, u);
    PutIn(s, u);
    OneThread(s, Insert(s, u), u);
  }

  lemma CloseWait(s: State, u: Tid, t: Tid, p: nat)
    requires Waiting(s, t, p) && u in s.threads && u != t && s.threads[u].stat != Closed
    ensures s.threads[u].stat != Init ==> Placed(s, u)
    ensures Closer(Close(s, u), t, p, Wait(s, t, p))
  {
    CloseInv(s, u);
    var e' := s.threads[u].(stat := Closed, spent := false);
    if s.threads[u].stat != Init {
      RemoveWait(s, Close(s, u), u, e', t, p);
    } else {
      AlteredWait(s, Close(s, u), u, t, p);
    }
  }

  lemma CloseUnlinkWait(s: State, u: Tid, t: Tid, p: nat)
    requires Waiting(s, t, p) && Enabled(s, DoCloseUnlink(u)) && s.threads[u].stat != Ready
    ensures Placed(s, u) && Closer(CloseUnlink(s, u), t, p, Wait(s, t, p))
  {
    CloseUnlinkInvIff(s, u);
    InQueue(s, t, p);
    FrontWithout(s.queues[p], t, u);
    var s' := CloseUnlink(s, u);
    forall x | x in s'.threads
      ensures NotBetter(s', x, p)
    {
      assert NotBetter(s, x, p);
    }
    SameWait(s, s', t, p);
  }

  lemma CloseMarkWait(s: State, u: Tid, t: Tid, p: nat)
    requires Waiting(s, t, p) && u in s.threads && s.threads[u].stat != Ready
    ensures Closer(CloseMark(s, u), t, p, Wait(s, t, p))
  {
    CloseMarkInvIff(s, u);
    AlteredWait(s, CloseMark(s, u), u, t, p);
  }

  lemma SuspendWait(s: State, u: Tid, t: Tid, p: nat)
    requires Waiting(s, t, p) && u in s.threads && u != t
    ensures Closer(Stepped(s, DoSuspend(u)), t, p, Wait(s, t, p))
  {
    SuspendInv(s, u);
    var e := s.threads[u];
    if e.stat == Ready || e.stat == Running {
      RemoveWait(s, Suspend(s, u), u, e.(stat := Suspended), t, p);
    }
  }

  ghost predicate Switches(step: Step) {
    step.DoTimeout? || step.DoSchedule? || step.DoExit? || step.DoExitCritical? || step.DoTick?
  }

  lemma SwitchingWait(s: State, step: Step, t: Tid, p: nat)
    requires Waiting(s, t, p) && Enabled(s, step) && Fair(s, step, t, p) && Switches(step)
    ensures Closer(Stepped(s, step), t, p, Wait(s, t, p) - TickOf(step))
  {
    var w := Wait(s, t, p);
    NotCurrent(s, t, p);
    match step
    case DoTimeout(u) =>
      ResumeInv(s, u);
      ResumeWait(s, u, t, p);
      ThenScheduled(Resume(s, u), t, p, w);
    case DoSchedule => ThenScheduled(s, t, p, w);
    case DoExit =>
      CloseInv(s, s.current.tid);
      CloseWait(s, s.current.tid, t, p);
      ThenScheduled(Close(s, s.current.tid), t, p, w);
    case DoExitCritical =>
      assert s.(lock := 0) == s;
      ThenScheduled(s, t, p, w);
    case DoTick => TickWait(s, t, p);
  }

  lemma SuspendRegionWait(s: State, u: Tid, t: Tid, p: nat)
    requires Waiting(s, t, p) && Enabled(s, DoSuspendRegion(u)) && u != t
    ensures Closer(Stepped(s, DoSuspendRegion(u)), t, p, Wait(s, t, p))
  {
    SuspendRegionInv(s, u);
    RemoveWait(s, SuspendRegion(s, u), u, s.threads[u].(stat := Suspended), t, p);
  }

  /** No fair step puts the turn of `t` off, and every tick brings it nearer. */
  lemma StepWait(s: State, step: Step, t: Tid, p: nat)
    requires Waiting(s, t, p) && Enabled(s, step) && Fair(s, step, t, p)
    ensures Closer(Stepped(s, step), t, p, Wait(s, t, p) - TickOf(step))
  {
    if Switches(step) {
      SwitchingWait(s, step, t, p);
    } else {
      match step
      case DoStartup(u) => StartupWait(s, u, t, p);
      case DoStartupMark(u) => StartupMarkWait(s, u, t, p);
      case DoSuspend(u) => SuspendWait(s, u, t, p);
      case DoSuspendRegion(u) => SuspendRegionWait(s, u, t, p);
      case DoResume(u) => ResumeWait(s, u, t, p);
      case DoResumeTest(u) => ResumeTestWait(s, u, t, p);
      case DoResumeUnlink(u) => ResumeUnlinkWait(s, u, t, p);
      case DoResumeInsert(u) => ResumeInsertWait(s, u, t, p);
      case DoClose(u) => CloseWait(s, u, t, p);
      case DoCloseUnlink(u) => CloseUnlinkWait(s, u, t, p);
      case DoCloseMark(u) => CloseMarkWait(s, u, t, p);
      case _ =>
    }
  }

  lemma NotCurrent(s: State, t: Tid, p: nat)
    requires Waiting(s, t, p)
    ensures s.current != Runs(t)
  {
  }

  ghost predicate FairAt(ss: seq<State>, steps: seq<Step>, t: Tid, p: nat, i: nat)
    requires i < |steps| < |ss|
  {
    Inv(ss[i]) ==>
      Enabled(ss[i], steps[i]) && Fair(ss[i], steps[i], t, p) && ss[i + 1] == Stepped(ss[i], steps[i])
  }

  ghost predicate FairRun(ss: seq<State>, steps: seq<Step>, t: Tid, p: nat) {
    && |ss| == |steps| + 1
    && forall i {:trigger FairAt(ss, steps, t, p, i)} :: 0 <= i < |steps| ==> FairAt(ss, steps, t, p, i)
  }

  ghost function Ticks(steps: seq<Step>): nat {
    if steps == [] then 0 else Ticks(steps[..|steps| - 1]) + TickOf(steps[|steps| - 1])
  }

  /** `t` has been the current thread in one of the first `n` states. */
  ghost predicate Served(ss: seq<State>, t: Tid, n: nat) {
    exists i :: 0 <= i < n && i < |ss| && ss[i].current == Runs(t)
  }

  lemma {:induction false} WaitShrinks(ss: seq<State>, steps: seq<Step>, t: Tid, p: nat, i: nat)
    requires FairRun(ss, steps, t, p) && Waiting(ss[0], t, p) && i <= |steps|
    ensures Served(ss, t, i + 1) || Closer(ss[i], t, p, Wait(ss[0], t, p) - Ticks(steps[..i]))
  {
    if i > 0 {
      var k := i - 1;
      WaitShrinks(ss, steps, t, p, k);
      assert steps[..i][..k] == steps[..k];
      if !Served(ss, t, i + 1) {
        assert ss[k].current != Runs(t);
        NextCloser(ss, steps, t, p, k, Wait(ss[0], t, p) - Ticks(steps[..k]));
      }
    }
  }

  lemma NextCloser(ss: seq<State>, steps: seq<Step>, t: Tid, p: nat, k: nat, w: int)
    requires FairRun(ss, steps, t, p) && k < |steps| && Closer(ss[k], t, p, w) && ss[k].current != Runs(t)
    ensures Closer(ss[k + 1], t, p, w - TickOf(steps[k]))
  {
    assert FairAt(ss, steps, t, p, k);
    StepWait(ss[k], steps[k], t, p);
  }

  /**
   A ready thread gets its turn within the time slices of the running thread and of the threads
   in front of it, as long as nothing of better priority arrives.
   */
  lemma BoundedWait(ss: seq<State>, steps: seq<Step>, t: Tid, p: nat)
    requires FairRun(ss, steps, t, p) && Waiting(ss[0], t, p)
    requires var s := ss[0];
             Ticks(steps) >= SliceOf(s.threads, s.current.tid) + SumSlices(s.threads, Front(s.queues[p], t))
    ensures Served(ss, t, |ss|)
  {
    WaitWithinSlices(ss[0], t, p);
    WaitShrinks(ss, steps, t, p, |steps|);
    assert steps[..|steps|] == steps;
    if !Served(ss, t, |ss|) {
      var n := |steps|;
      assert ss[n].current != Runs(t);
      WaitWithinSlices(ss[n], t, p);
    }
  }
}
