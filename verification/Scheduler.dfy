/**
 The uniprocessor scheduler: ready queues, thread states, and the steps that change them
 (scheduler.c, thread.c, clock.c).
 */
module Scheduler {
  import opened Links
  import opened WaitLists
  import opened ReadyBits

  datatype Stat = Init | Ready | Suspended | Running | Closed

  /** `spent` is the yield flag; `mask` is the priority the stored bit masks stand for, -1 before they are computed. */
  datatype Thread = Thread(stat: Stat, spent: bool, prio: nat, initPrio: nat, mask: int, slice: nat, left: nat)

  datatype Current = Nobody | Runs(tid: Tid)

  /**
   The calls of rt_thread_resume that are under way: `tested` holds the threads that have passed
   the test and are about to be unlinked, `resuming` those that are about to be inserted.
   */
  datatype State = State(
    threads: map<Tid, Thread>, queues: seq<seq<Tid>>, bits: Bits, current: Current, lock: nat,
    tested: multiset<Tid>, resuming: multiset<Tid>)

  // ---------------------------------------------------------------- ready queues

  function WithStat(s: State, t: Tid, stat: Stat): State
    requires t in s.threads
  {
    s.(threads := s.threads[t := s.threads[t].(stat := stat)])
  }

  /** The masks of the thread fit the tables. */
  predicate Placed(s: State, t: Tid) {
    && t in s.threads && s.threads[t].prio < |s.queues|
    && s.threads[t].mask >= 0 && Fits(s.bits, s.threads[t].mask)
  }

  /** rt_schedule_insert_thread. */
  function Insert(s: State, t: Tid): State
    requires Placed(s, t)
  {
    if s.current == Runs(t) then WithStat(s, t, Running) else
    var e := s.threads[t];
    WithStat(s, t, Ready).(queues := s.queues[e.prio := s.queues[e.prio] + [t]], bits := SetBit(s.bits, e.mask))
  }

  /** rt_schedule_remove_thread. */
  function Remove(s: State, t: Tid): State
    requires Placed(s, t)
  {
    var e := s.threads[t];
    var queue := Without(s.queues[e.prio], t);
    s.(queues := s.queues[e.prio := queue], bits := if queue == [] then ClearBit(s.bits, e.mask) else s.bits)
  }

  // ---------------------------------------------------------------- steps

  /** rt_schedule. */
  function Schedule(s: State): State
    requires s.current.Runs? && Placed(s, s.current.tid)
    requires s.bits.group != {} ==>
      Highest(s.bits) < |s.queues| && s.queues[Highest(s.bits)] != [] && Placed(s, s.queues[Highest(s.bits)][0])
  {
    if s.lock != 0 || s.bits.group == {} then s else
    var c, h := s.current.tid, Highest(s.bits);
    var cur, to := s.threads[c], s.queues[h][0];
    if to == c || (cur.stat == Running && (cur.prio < h || (cur.prio == h && !cur.spent))) then
      WithStat(Remove(s, c), c, Running)
    else if cur.stat == Running then
      var s1 := s.(threads := s.threads[c := cur.(spent := false)], current := Runs(to));
      WithStat(Remove(Insert(s1, c), to), to, Running)
    else WithStat(Remove(s.(current := Runs(to)), to), to, Running)
  }

  function Masked(e: Thread, p: nat): Thread {
    e.(prio := p, mask := p)
  }

  /** rt_thread_resume called with interrupts disabled; also what rt_thread_timeout does before it schedules. */
  function Resume(s: State, t: Tid): State
    requires t in s.threads && (s.threads[t].stat == Suspended ==> Placed(s, t))
  {
    if s.threads[t].stat == Suspended then Insert(s, t) else s
  }

  /** The test of rt_thread_resume called with interrupts enabled. */
  function ResumeTest(s: State, t: Tid): State
    requires t in s.threads
  {
    if s.threads[t].stat == Suspended then s.(tested := s.tested + multiset{t}) else s
  }

  /** rt_list_remove: the thread leaves the ready queue it is in, if any; the bits stay. */
  function Unlink(s: State, t: Tid): State
    requires Placed(s, t)
  {
    var p := s.threads[t].prio;
    s.(queues := s.queues[p := Without(s.queues[p], t)])
  }

  /** Its first region. */
  function ResumeUnlink(s: State, t: Tid): State
    requires Placed(s, t)
  {
    Unlink(s, t).(tested := s.tested - multiset{t}, resuming := s.resuming + multiset{t})
  }

  /** Its second region. */
  function ResumeInsert(s: State, t: Tid): State
    requires Placed(s, t)
  {
    Insert(s, t).(resuming := s.resuming - multiset{t})
  }

  /** rt_thread_startup before it resumes the thread. */
  function StartupMark(s: State, t: Tid): State
    requires t in s.threads
  {
    var e := s.threads[t];
    s.(threads := s.threads[t := Masked(e, e.initPrio).(stat := Suspended, spent := false)])
  }

  /** rt_thread_startup without a break, before it schedules. */
  function Startup(s: State, t: Tid): State
    requires t in s.threads && s.threads[t].initPrio < |s.queues| && Fits(s.bits, s.threads[t].initPrio)
  {
    Insert(StartupMark(s, t), t)
  }

  /** The region of rt_thread_suspend, whatever has happened since the test in front of it. */
  function SuspendRegion(s: State, t: Tid): State
    requires Placed(s, t)
  {
    WithStat(Remove(s, t), t, Suspended)
  }

  /** rt_thread_suspend without a break. */
  function Suspend(s: State, t: Tid): State
    requires t in s.threads && (s.threads[t].stat == Ready || s.threads[t].stat == Running ==> Placed(s, t))
  {
    var stat := s.threads[t].stat;
    if stat == Ready || stat == Running then SuspendRegion(s, t) else s
  }

  /** rt_thread_control, change of priority. */
  function ChangePriority(s: State, t: Tid, p: nat): State
    requires t in s.threads && p < |s.queues| && Fits(s.bits, p)
    requires s.threads[t].stat == Ready ==> Placed(s, t)
  {
    if s.threads[t].stat == Ready then
      var s1 := Remove(s, t);
      Insert(s1.(threads := s.threads[t := Masked(s.threads[t], p)]), t)
    else s.(threads := s.threads[t := Masked(s.threads[t], p)])
  }

  /** rt_thread_detach and rt_thread_delete; rt_thread_exit schedules afterwards. */
  function Close(s: State, t: Tid): State
    requires t in s.threads && (s.threads[t].stat != Init ==> Placed(s, t))
  {
    var s1 := if s.threads[t].stat != Init then Remove(s, t) else s;
    s1.(threads := s.threads[t := s.threads[t].(stat := Closed, spent := false)])
  }

  /** The removal in them; interrupts are enabled afterwards. */
  function CloseUnlink(s: State, t: Tid): State
    requires Placed(s, t)
  {
    Remove(s, t)
  }

  /** The write to the state in them, whatever has happened since. */
  function CloseMark(s: State, t: Tid): State
    requires t in s.threads
  {
    s.(threads := s.threads[t := s.threads[t].(stat := Closed, spent := false)])
  }

  /** The time slice of the running thread in rt_tick_increase, before it schedules. */
  function CountDown(s: State): State
    requires s.current.Runs? && s.current.tid in s.threads && s.threads[s.current.tid].left >= 1
  {
    var c := s.current.tid;
    var e := s.threads[c];
    s.(threads := s.threads[c := if e.left == 1 then e.(left := e.slice, spent := true) else e.(left := e.left - 1)])
  }

  /** rt_system_scheduler_start: the best thread becomes the current one. */
  function Begin(s: State): State
    requires Highest(s.bits) < |s.queues| && s.queues[Highest(s.bits)] != [] && Placed(s, s.queues[Highest(s.bits)][0])
  {
    var to := s.queues[Highest(s.bits)][0];
    var s1 := Remove(s.(current := Runs(to)), to);
    s1.(threads := s.threads[to := s.threads[to].(stat := Running, spent := false)])
  }

  // ---------------------------------------------------------------- the invariant

  /** The ready threads with their priorities. */
  ghost function ReadyMap(threads: map<Tid, Thread>): map<Tid, nat> {
    map t | t in threads && threads[t].stat == Ready :: threads[t].prio
  }

  ghost predicate QueueAt(queue: seq<Tid>, ready: map<Tid, nat>, p: nat, t: Tid) {
    t in queue <==> t in ready && ready[t] == p
  }

  /** A bit is set exactly when its queue holds a thread. */
  ghost predicate BitsAgree(queues: seq<seq<Tid>>, bits: Bits) {
    && BitsOk(bits)
    && (forall p {:trigger Fits(bits, p)} :: 0 <= p < |queues| ==> Fits(bits, p))
    && (forall p {:trigger Contains(bits, p)} :: 0 <= p ==> (Contains(bits, p) <==> p < |queues| && queues[p] != []))
  }

  /** Each ready thread is in its own queue only, and once. */
  ghost predicate MembersAgree(queues: seq<seq<Tid>>, ready: map<Tid, nat>) {
    && (forall p, t {:trigger QueueAt(queues[p], ready, p, t)} :: 0 <= p < |queues| ==> QueueAt(queues[p], ready, p, t))
    && (forall p {:trigger queues[p]} :: 0 <= p < |queues| ==> Distinct(queues[p]))
    && (forall t :: t in ready ==> ready[t] < |queues|)
  }

  ghost predicate QueuesOk(queues: seq<seq<Tid>>, bits: Bits, ready: map<Tid, nat>) {
    BitsAgree(queues, bits) && MembersAgree(queues, ready)
  }

  /** The record of one thread. */
  ghost predicate ThreadAt(s: State, t: Tid)
    requires t in s.threads
  {
    var e := s.threads[t];
    && e.prio < |s.queues| && e.initPrio < |s.queues|
    && (e.stat != Init && e.stat != Closed ==> e.mask == e.prio)
    && (e.stat == Running ==> s.current == Runs(t))
    && 1 <= e.left <= e.slice
    && (t in s.tested || t in s.resuming ==> e.mask == e.prio && e.stat != Init)
  }

  ghost predicate ThreadsOk(s: State) {
    forall t {:trigger ThreadAt(s, t)} :: t in s.threads ==> ThreadAt(s, t)
  }

  /** The current thread is in no queue. */
  ghost predicate CurrentOk(s: State) {
    s.current.Runs? ==>
      && s.current.tid in s.threads
      && s.threads[s.current.tid].stat != Ready && s.threads[s.current.tid].stat != Init
      && s.threads[s.current.tid].mask == s.threads[s.current.tid].prio
  }

  ghost predicate Inv(s: State) {
    && QueuesOk(s.queues, s.bits, ReadyMap(s.threads)) && ThreadsOk(s) && CurrentOk(s)
    && (forall t :: t in s.tested ==> t in s.threads) && (forall t :: t in s.resuming ==> t in s.threads)
  }

  // ---------------------------------------------------------------- queue lemmas

  lemma Enqueued(queues: seq<seq<Tid>>, bits: Bits, ready: map<Tid, nat>, t: Tid, p: nat)
    requires QueuesOk(queues, bits, ready) && t !in ready && p < |queues|
    ensures Fits(bits, p) && QueuesOk(queues[p := queues[p] + [t]], SetBit(bits, p), ready[t := p])
  {
    EnqueuedBits(queues, bits, t, p);
    EnqueuedMembers(queues, ready, t, p);
  }

  lemma EnqueuedBits(queues: seq<seq<Tid>>, bits: Bits, t: Tid, p: nat)
    requires BitsAgree(queues, bits) && p < |queues|
    ensures Fits(bits, p) && BitsAgree(queues[p := queues[p] + [t]], SetBit(bits, p))
  {
    var queues' := queues[p := queues[p] + [t]];
    assert Fits(bits, p);
    SetBitContains(bits, p, p);
    forall q: nat
      ensures Contains(SetBit(bits, p), q) <==> q < |queues'| && queues'[q] != []
    {
      SetBitContains(bits, p, q);
      assert Contains(bits, q) <==> q < |queues| && queues[q] != [];
    }
    forall q: nat | q < |queues'|
      ensures Fits(SetBit(bits, p), q)
    {
      assert Fits(bits, q);
    }
  }

  lemma EnqueuedMembers(queues: seq<seq<Tid>>, ready: map<Tid, nat>, t: Tid, p: nat)
    requires MembersAgree(queues, ready) && t !in ready && p < |queues|
    ensures MembersAgree(queues[p := queues[p] + [t]], ready[t := p])
  {
    var queues', ready' := queues[p := queues[p] + [t]], ready[t := p];
    assert QueueAt(queues[p], ready, p, t);
    forall q: nat, x: nat | q < |queues'|
      ensures QueueAt(queues'[q], ready', q, x)
    {
      assert QueueAt(queues[q], ready, q, x);
      assert QueueAt(queues[q], ready, q, t);
    }
    forall q: nat | q < |queues'|
      ensures Distinct(queues'[q])
    {
      assert Distinct(queues[q]);
    }
  }

  lemma Dequeued(queues: seq<seq<Tid>>, bits: Bits, ready: map<Tid, nat>, t: Tid, p: nat)
    requires QueuesOk(queues, bits, ready) && p < |queues| && (t in ready ==> ready[t] == p)
    ensures Fits(bits, p)
    ensures var queue := Without(queues[p], t);
            QueuesOk(queues[p := queue], if queue == [] then ClearBit(bits, p) else bits, ready - {t})
  {
    DequeuedBits(queues, bits, t, p);
    DequeuedMembers(queues, ready, t, p);
  }

  lemma DequeuedBits(queues: seq<seq<Tid>>, bits: Bits, t: Tid, p: nat)
    requires BitsAgree(queues, bits) && p < |queues|
    ensures Fits(bits, p)
    ensures var queue := Without(queues[p], t);
            BitsAgree(queues[p := queue], if queue == [] then ClearBit(bits, p) else bits)
  {
    var queue := Without(queues[p], t);
    var queues' := queues[p := queue];
    assert Fits(bits, p);
    var bits' := if queue == [] then ClearBit(bits, p) else bits;
    ClearBitContains(bits, p, p);
    forall q: nat
      ensures Contains(bits', q) <==> q < |queues'| && queues'[q] != []
    {
      ClearBitContains(bits, p, q);
      assert Contains(bits, q) <==> q < |queues| && queues[q] != [];
      if q == p && queue != [] {
        assert queue[0] in queue && queue[0] in queues[p];
      }
    }
    forall q: nat | q < |queues'|
      ensures Fits(bits', q)
    {
      assert Fits(bits, q);
    }
  }

  lemma DequeuedMembers(queues: seq<seq<Tid>>, ready: map<Tid, nat>, t: Tid, p: nat)
    requires MembersAgree(queues, ready) && p < |queues| && (t in ready ==> ready[t] == p)
    ensures MembersAgree(queues[p := Without(queues[p], t)], ready - {t})
  {
    var queues', ready' := queues[p := Without(queues[p], t)], ready - {t};
    forall q: nat, x: nat | q < |queues'|
      ensures QueueAt(queues'[q], ready', q, x)
    {
      assert QueueAt(queues[q], ready, q, x);
    }
    forall q: nat | q < |queues'|
      ensures Distinct(queues'[q])
    {
      assert Distinct(queues[q]);
      WithoutDistinct(queues[q], t);
    }
  }

  /** The best ready priority has a thread at the head of its queue. */
  lemma BestReady(queues: seq<seq<Tid>>, bits: Bits, ready: map<Tid, nat>)
    requires QueuesOk(queues, bits, ready)
    ensures bits.group == {} <==> ready == map[]
    ensures bits.group != {} ==>
      var h := Highest(bits);
      && h < |queues| && queues[h] != [] && queues[h][0] in ready && ready[queues[h][0]] == h
      && forall t :: t in ready ==> h <= ready[t]
  {
    HighestIsBest(bits);
    forall t | t in ready
      ensures Contains(bits, ready[t])
    {
      assert QueueAt(queues[ready[t]], ready, ready[t], t);
      assert Contains(bits, ready[t]) <==> ready[t] < |queues| && queues[ready[t]] != [];
    }
    if bits.group != {} {
      var h := Highest(bits);
      assert Contains(bits, h) <==> h < |queues| && queues[h] != [];
      assert queues[h][0] in queues[h];
      assert QueueAt(queues[h], ready, h, queues[h][0]);
    }
  }

  ghost predicate Queued(s: State) {
    QueuesOk(s.queues, s.bits, ReadyMap(s.threads))
  }

  /** A thread in no queue is inserted. */
  lemma PutIn(s: State, t: Tid)
    requires Queued(s) && t in s.threads && s.threads[t].stat != Ready
    requires s.threads[t].prio < |s.queues| && s.threads[t].mask == s.threads[t].prio
    ensures Placed(s, t) && Queued(Insert(s, t))
  {
    var e := s.threads[t];
    Enqueued(s.queues, s.bits, ReadyMap(s.threads), t, e.prio);
    var s' := Insert(s, t);
    if s.current == Runs(t) {
      assert ReadyMap(s'.threads) == ReadyMap(s.threads);
    } else {
      assert ReadyMap(s'.threads) == ReadyMap(s.threads)[t := e.prio];
    }
  }

  /** Insertion is safe exactly for a thread that is not queued already. */
  lemma InsertQueuedIff(s: State, t: Tid)
    requires Queued(s) && t in s.threads
    requires s.threads[t].prio < |s.queues| && s.threads[t].mask == s.threads[t].prio
    ensures Placed(s, t)
    ensures Queued(Insert(s, t)) <==> s.threads[t].stat != Ready
  {
    var e := s.threads[t];
    assert Fits(s.bits, e.prio);
    if s.threads[t].stat != Ready {
      PutIn(s, t);
    } else {
      var s', q := Insert(s, t), s.queues[e.prio];
      assert QueueAt(q, ReadyMap(s.threads), e.prio, t);
      if s.current == Runs(t) {
        assert !QueueAt(s'.queues[e.prio], ReadyMap(s'.threads), e.prio, t);
      } else {
        var i :| 0 <= i < |q| && q[i] == t;
        assert s'.queues[e.prio][i] == t && s'.queues[e.prio][|q|] == t;
        assert !Distinct(s'.queues[e.prio]);
      }
    }
  }

  /** Taking a thread out of its queue without a change of state is safe exactly for a thread that is in none. */
  lemma UnlinkQueuedIff(s: State, t: Tid)
    requires Queued(s) && t in s.threads
    requires s.threads[t].prio < |s.queues| && s.threads[t].mask == s.threads[t].prio
    ensures Placed(s, t)
    ensures Queued(Unlink(s, t)) <==> s.threads[t].stat != Ready
    ensures Queued(Remove(s, t)) <==> s.threads[t].stat != Ready
    ensures s.threads[t].stat != Ready ==> Unlink(s, t) == s
  {
    var e, ready := s.threads[t], ReadyMap(s.threads);
    assert Fits(s.bits, e.prio);
    assert QueueAt(s.queues[e.prio], ready, e.prio, t);
    if e.stat != Ready {
      WithoutDistinct(s.queues[e.prio], t);
      Dequeued(s.queues, s.bits, ready, t, e.prio);
      assert ready - {t} == ready;
    } else {
      assert !QueueAt(Without(s.queues[e.prio], t), ready, e.prio, t);
      assert Remove(s, t).queues[e.prio] == Without(s.queues[e.prio], t);
      assert Unlink(s, t).queues[e.prio] == Without(s.queues[e.prio], t);
    }
  }

  /** The state of a thread changes from or to anything but READY exactly if it is in no queue. */
  lemma MarkQueuedIff(s: State, t: Tid, e': Thread)
    requires Queued(s) && t in s.threads && e'.stat != Ready && s.threads[t].prio < |s.queues|
    ensures Queued(s.(threads := s.threads[t := e'])) <==> s.threads[t].stat != Ready
  {
    var p := s.threads[t].prio;
    if s.threads[t].stat != Ready {
      Altered(s, t, e');
    } else {
      assert QueueAt(s.queues[p], ReadyMap(s.threads), p, t);
      assert !QueueAt(s.queues[p], ReadyMap(s.threads[t := e']), p, t);
    }
  }

  /** A thread leaves its queue, if it is in one, and is no longer ready. */
  lemma TakeOut(s: State, t: Tid, e': Thread)
    requires Queued(s) && t in s.threads && e'.stat != Ready
    requires s.threads[t].prio < |s.queues| && s.threads[t].mask == s.threads[t].prio
    ensures Placed(s, t) && Queued(Remove(s, t).(threads := s.threads[t := e']))
  {
    var e := s.threads[t];
    Dequeued(s.queues, s.bits, ReadyMap(s.threads), t, e.prio);
    assert ReadyMap(s.threads[t := e']) == ReadyMap(s.threads) - {t};
  }

  /** The record of a thread that is not ready changes. */
  lemma Altered(s: State, t: Tid, e': Thread)
    requires Queued(s) && t in s.threads && s.threads[t].stat != Ready && e'.stat != Ready
    ensures Queued(s.(threads := s.threads[t := e']))
  {
    assert ReadyMap(s.threads[t := e']) == ReadyMap(s.threads);
  }

  // ---------------------------------------------------------------- scheduling

  /** rt_schedule may be called. */
  ghost predicate Schedulable(s: State) {
    && s.current.Runs? && Placed(s, s.current.tid)
    && (s.bits.group != {} ==>
          Highest(s.bits) < |s.queues| && s.queues[Highest(s.bits)] != [] && Placed(s, s.queues[Highest(s.bits)][0]))
  }

  lemma CanSchedule(s: State)
    requires Inv(s) && s.current.Runs?
    ensures Schedulable(s)
    ensures s.bits.group != {} ==> s.queues[Highest(s.bits)][0] != s.current.tid
  {
    BestReady(s.queues, s.bits, ReadyMap(s.threads));
    var c := s.current.tid;
    assert ThreadAt(s, c) && Fits(s.bits, s.threads[c].prio);
    if s.bits.group != {} {
      var to := s.queues[Highest(s.bits)][0];
      assert ThreadAt(s, to) && Fits(s.bits, s.threads[to].prio);
    }
  }

  /** What a switch does to the queues. */
  lemma SwitchQueued(s: State)
    requires Inv(s) && s.current.Runs? && Schedulable(s)
    ensures Queued(Schedule(s))
  {
    CanSchedule(s);
    if s.lock == 0 && s.bits.group != {} {
      var c, to := s.current.tid, s.queues[Highest(s.bits)][0];
      var cur := s.threads[c];
      BestReady(s.queues, s.bits, ReadyMap(s.threads));
      assert ThreadAt(s, c) && ThreadAt(s, to);
      if cur.stat == Running && (cur.prio < Highest(s.bits) || (cur.prio == Highest(s.bits) && !cur.spent)) {
        TakeOut(s, c, cur.(stat := Running));
      } else if cur.stat == Running {
        Altered(s, c, cur.(spent := false));
        var s1 := s.(threads := s.threads[c := cur.(spent := false)], current := Runs(to));
        PutIn(s1, c);
        var s2 := Insert(s1, c);
        TakeOut(s2, to, s2.threads[to].(stat := Running));
      } else {
        TakeOut(s.(current := Runs(to)), to, s.threads[to].(stat := Running));
      }
    }
  }

  /** The outcome of rt_schedule on the threads. */
  ghost predicate Switched(s: State, s': State, h: nat, to: Tid)
    requires s.current.Runs? && s.current.tid in s.threads && to in s.threads
  {
    var c := s.current.tid;
    var cur := s.threads[c];
    if cur.stat == Running && (cur.prio < h || (cur.prio == h && !cur.spent)) then
      s'.current == Runs(c) && s'.threads == s.threads
    else
      && s'.current == Runs(to)
      && s'.threads == s.threads[c := if cur.stat == Running then cur.(spent := false, stat := Ready) else cur]
                         [to := s.threads[to].(stat := Running)]
  }

  lemma ScheduleSwitches(s: State)
    requires Inv(s) && s.current.Runs? && Schedulable(s) && s.lock == 0 && s.bits.group != {}
    ensures Switched(s, Schedule(s), Highest(s.bits), s.queues[Highest(s.bits)][0])
    ensures Schedule(s).lock == 0 && |Schedule(s).queues| == |s.queues|
    ensures Schedule(s).tested == s.tested && Schedule(s).resuming == s.resuming
  {
    CanSchedule(s);
    var c, to := s.current.tid, s.queues[Highest(s.bits)][0];
    var cur := s.threads[c];
    assert s.threads[c := cur] == s.threads;
    assert cur.(stat := cur.stat) == cur;
  }

  lemma ScheduleInv(s: State)
    requires Inv(s) && s.current.Runs?
    ensures Schedulable(s) && Inv(Schedule(s))
  {
    CanSchedule(s);
    SwitchQueued(s);
    var s' := Schedule(s);
    if s.lock == 0 && s.bits.group != {} {
      ScheduleSwitches(s);
      BestReady(s.queues, s.bits, ReadyMap(s.threads));
      SwitchedThreads(s, s', s.queues[Highest(s.bits)][0], Highest(s.bits));
    }
  }

  /** The records stay in order through a switch. */
  lemma SwitchedThreads(s: State, s': State, to: Tid, h: nat)
    requires ThreadsOk(s) && CurrentOk(s) && s.current.Runs? && to in s.threads && s.threads[to].stat == Ready
    requires Switched(s, s', h, to) && |s'.queues| == |s.queues|
    requires s'.tested == s.tested && s'.resuming == s.resuming
    ensures ThreadsOk(s') && CurrentOk(s')
  {
    assert ThreadAt(s, s.current.tid) && ThreadAt(s, to);
    forall t | t in s'.threads
      ensures ThreadAt(s', t)
    {
      assert ThreadAt(s, t);
    }
  }

  /**
   With the scheduler unlocked, afterwards the current thread runs and no ready thread has a
   better priority, unless there was nothing to run.
   */
  lemma ScheduleRunsBest(s: State)
    requires Inv(s) && s.current.Runs? && s.lock == 0
    ensures Schedulable(s)
    ensures var s' := Schedule(s);
            && s'.current.Runs? && s'.current.tid in s'.threads
            && (s'.threads[s'.current.tid].stat == Running <==>
                  s.threads[s.current.tid].stat == Running || exists t :: t in s.threads && s.threads[t].stat == Ready)
            && (forall t :: t in s'.threads && s'.threads[t].stat == Ready ==>
                  s'.threads[t].prio >= s'.threads[s'.current.tid].prio)
  {
    CanSchedule(s);
    ScheduleInv(s);
    BestReady(s.queues, s.bits, ReadyMap(s.threads));
    forall t | t in s.threads && s.threads[t].stat == Ready
      ensures s.bits.group != {} && s.threads[t].prio >= Highest(s.bits)
    {
      assert t in ReadyMap(s.threads) && ReadyMap(s.threads)[t] == s.threads[t].prio;
    }
    if s.bits.group != {} {
      ScheduleSwitches(s);
      var to := s.queues[Highest(s.bits)][0];
      assert to in s.threads && s.threads[to].stat == Ready;
    }
  }

  /**
   rt_thread_yield, which only schedules, gives way exactly to a more urgent ready thread, or to an
   equally urgent one if the time slice has been reloaded since the last switch.
   */
  lemma YieldGivesWayIff(s: State)
    requires Inv(s) && s.current.Runs? && s.lock == 0
    requires s.current.tid in s.threads && s.threads[s.current.tid].stat == Running
    ensures Schedulable(s)
    ensures var cur := s.threads[s.current.tid];
            Schedule(s).current != s.current <==>
            exists t :: t in s.threads && s.threads[t].stat == Ready
                        && (s.threads[t].prio < cur.prio || (s.threads[t].prio == cur.prio && cur.spent))
  {
    CanSchedule(s);
    BestReady(s.queues, s.bits, ReadyMap(s.threads));
    forall t | t in s.threads && s.threads[t].stat == Ready
      ensures s.bits.group != {} && s.threads[t].prio >= Highest(s.bits)
    {
      assert t in ReadyMap(s.threads) && ReadyMap(s.threads)[t] == s.threads[t].prio;
    }
    if s.bits.group != {} {
      ScheduleSwitches(s);
      var to := s.queues[Highest(s.bits)][0];
      assert to in s.threads && s.threads[to].stat == Ready && s.threads[to].prio == Highest(s.bits);
    }
  }
}
