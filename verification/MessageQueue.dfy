/**
 The message queue of ipc.c as a protocol. Each region with interrupts disabled is one
 atomic step; the copy between the two regions of a send or a receive is a step of its own.
 Steps of different threads interleave arbitrarily and a timeout may strike any suspended thread.
 */
module MessageQueue {
  import opened Links
  import opened WaitLists
  import opened MessageStore

  type Message = seq<int>

  /** A node that left the lists and is owned by the thread that is copying. */
  datatype Flight =
    | Filling(node: nat, msg: Message, urgent: bool, copied: bool)
    | Draining(node: nat, msg: Message)

  /** What became visible, in the order of the regions that made it visible. */
  datatype Event = Sent(msg: Message) | SentUrgent(msg: Message) | Received(msg: Message) | Cleared

  datatype State = State(
    maxMsgs: nat,
    msgSize: nat,
    store: Store,
    flight: map<Tid, Flight>,
    data: map<nat, Message>,   // the bytes of every node
    sent: map<nat, Message>,   // the message last copied into a node
    rx: Gate,
    tx: Gate,
    log: seq<Event>)

  datatype Step =
    | SendTry(t: Tid, msg: Message, wait: bool, flag: Flag, prio: Prios)
    | UrgentTry(t: Tid, msg: Message)
    | CopyIn(t: Tid)
    | Link(t: Tid)
    | RecvTry(t: Tid, wait: bool, flag: Flag, prio: Prios)
    | RecvDone(t: Tid)
    | Timeout(t: Tid)
    | Reset

  ghost function Initial(maxMsgs: nat, msgSize: nat, data: map<nat, Message>): State {
    State(maxMsgs, msgSize, Store([], FreshFree(maxMsgs), 0), map[], data, map[], Gate([], {}), Gate([], {}), [])
  }

  ghost predicate In(g: Gate, t: Tid) {
    t in g.waiting || t in g.woken
  }

  ghost predicate Idle(s: State, t: Tid) {
    t !in s.flight && !In(s.rx, t) && !In(s.tx, t)
  }

  ghost predicate Enabled(s: State, a: Step) {
    match a
    case SendTry(t, msg, _, _, _) => Idle(s, t) || (t in s.tx.woken && |msg| <= s.msgSize)
    case UrgentTry(t, _) => Idle(s, t)
    case CopyIn(t) => t in s.flight && s.flight[t].Filling? && !s.flight[t].copied
    case Link(t) => t in s.flight && s.flight[t].Filling? && s.flight[t].copied
    case RecvTry(t, _, _, _) => Idle(s, t) || t in s.rx.woken
    case RecvDone(t) => t in s.flight && s.flight[t].Draining?
    case Timeout(t) => t in s.rx.waiting || t in s.tx.waiting
    case Reset => true
  }

  ghost function Lookup(m: map<nat, Message>, n: nat): Message {
    if n in m then m[n] else []
  }

  /** rt_memcpy into a node overwrites its first bytes and leaves the rest stale. */
  ghost function Overlay(bytes: Message, msg: Message): Message {
    if |msg| <= |bytes| then msg + bytes[|msg|..] else msg
  }

  /** First region of a send that found a free node. */
  ghost function Acquire(s: State, t: Tid, msg: Message, urgent: bool): State
    requires s.store.free != []
  {
    s.(store := s.store.TakeFree(),
       flight := s.flight[t := Filling(s.store.free[0], msg, urgent, false)],
       tx := s.tx.Leave(t))
  }

  ghost function SendTryStep(s: State, t: Tid, msg: Message, wait: bool, flag: Flag, prio: Prios): State {
    if |msg| > s.msgSize then s                                    // -RT_ERROR
    else if s.store.free != [] then Acquire(s, t, msg, false)
    else if wait then s.(tx := s.tx.Suspend(t, SuspendAt(s.tx.waiting, prio, t, flag)))
    else s.(tx := s.tx.Leave(t))                                   // -RT_EFULL
  }

  ghost function UrgentTryStep(s: State, t: Tid, msg: Message): State {
    if |msg| > s.msgSize || s.store.free == [] then s else Acquire(s, t, msg, true)
  }

  ghost function CopyInStep(s: State, t: Tid): State
    requires Enabled(s, CopyIn(t))
  {
    var f := s.flight[t];
    s.(data := s.data[f.node := Overlay(Lookup(s.data, f.node), f.msg)],
       sent := s.sent[f.node := f.msg],
       flight := s.flight[t := f.(copied := true)])
  }

  /** Second region of a send. */
  ghost function LinkStep(s: State, t: Tid): State
    requires Enabled(s, Link(t))
  {
    var f := s.flight[t];
    s.(store := if f.urgent then s.store.LinkHead(f.node) else s.store.LinkTail(f.node),
       flight := s.flight - {t},
       rx := s.rx.Signal(),
       log := s.log + [if f.urgent then SentUrgent(f.msg) else Sent(f.msg)])
  }

  ghost function RecvTryStep(s: State, t: Tid, wait: bool, flag: Flag, prio: Prios): State {
    if s.store.entry > 0 && s.store.queue != [] then
      var n := s.store.queue[0];
      s.(store := s.store.TakeHead(),
         flight := s.flight[t := Draining(n, Lookup(s.sent, n))],
         rx := s.rx.Leave(t),
         log := s.log + [Received(Lookup(s.sent, n))])
    else if wait then s.(rx := s.rx.Suspend(t, SuspendAt(s.rx.waiting, prio, t, flag)))
    else s.(rx := s.rx.Leave(t))                                   // -RT_ETIMEOUT
  }

  ghost function RecvDoneStep(s: State, t: Tid): State
    requires Enabled(s, RecvDone(t))
  {
    s.(store := s.store.PutFree(s.flight[t].node), flight := s.flight - {t}, tx := s.tx.Signal())
  }

  ghost function Apply(s: State, a: Step): State
    requires Enabled(s, a)
  {
    match a
    case SendTry(t, msg, wait, flag, prio) => SendTryStep(s, t, msg, wait, flag, prio)
    case UrgentTry(t, msg) => UrgentTryStep(s, t, msg)
    case CopyIn(t) => CopyInStep(s, t)
    case Link(t) => LinkStep(s, t)
    case RecvTry(t, wait, flag, prio) => RecvTryStep(s, t, wait, flag, prio)
    case RecvDone(t) => RecvDoneStep(s, t)
    case Timeout(t) => s.(rx := s.rx.Expire(t), tx := s.tx.Expire(t))
    case Reset => s.(store := s.store.Drain(), rx := s.rx.FailAll(), tx := s.tx.FailAll(), log := s.log + [Cleared])
  }

  /** The bytes rt_mq_recv hands to its caller, copied out of the node between its two regions. */
  ghost function CopyOut(s: State, t: Tid, size: nat): Message
    requires Enabled(s, RecvDone(t))
  {
    var bytes := Lookup(s.data, s.flight[t].node);
    var n := if size > s.msgSize then s.msgSize else size;
    if n <= |bytes| then bytes[..n] else bytes
  }

  // ---------------------------------------------------------------- invariant

  /** Each node is in exactly one place: queued, free, or in one thread's hands. */
  ghost predicate Conserved(s: State) {
    && Distinct(s.store.queue + s.store.free)
    && s.store.entry == |s.store.queue|
    && (forall n :: n in s.store.queue || n in s.store.free ==> n < s.maxMsgs)
    && (forall t :: t in s.flight ==>
        var n := s.flight[t].node; n < s.maxMsgs && n !in s.store.queue && n !in s.store.free)
    && (forall t, u :: t in s.flight && u in s.flight && t != u ==> s.flight[t].node != s.flight[u].node)
    && (forall n :: 0 <= n < s.maxMsgs ==> Placed(s, n))
  }

  ghost predicate Placed(s: State, n: nat) {
    n in s.store.queue || n in s.store.free || exists t :: t in s.flight && s.flight[t].node == n
  }

  ghost predicate Exclusive(s: State) {
    && s.rx.Valid() && s.tx.Valid()
    && (forall t :: In(s.rx, t) ==> !In(s.tx, t))
    && (forall t :: t in s.flight ==> !In(s.rx, t) && !In(s.tx, t))
  }

  ghost predicate NothingLost(s: State) {
    && s.rx.NoLostWakeup(s.store.entry)
    && s.tx.NoLostWakeup(|s.store.free|)
  }

  /** A queued node, and a node being copied out, holds the bytes of the message put into it. */
  ghost predicate Holds(data: map<nat, Message>, sent: map<nat, Message>, n: nat) {
    n in sent && n in data && sent[n] <= data[n]
  }

  ghost predicate FlightOk(msgSize: nat, data: map<nat, Message>, sent: map<nat, Message>, f: Flight) {
    && |f.msg| <= msgSize
    && ((f.Draining? || f.copied) ==> Holds(data, sent, f.node) && sent[f.node] == f.msg)
  }

  ghost predicate Intact(s: State) {
    && (forall n :: 0 <= n < s.maxMsgs ==> n in s.data && |s.data[n]| == s.msgSize)
    && (forall i :: 0 <= i < |s.store.queue| ==> Holds(s.data, s.sent, s.store.queue[i]))
    && (forall t :: t in s.flight ==> FlightOk(s.msgSize, s.data, s.sent, s.flight[t]))
  }

  ghost function Texts(queue: seq<nat>, sent: map<nat, Message>): (r: seq<Message>)
    ensures |r| == |queue|
    ensures forall i :: 0 <= i < |queue| ==> r[i] == Lookup(sent, queue[i])
  {
    if queue == [] then [] else [Lookup(sent, queue[0])] + Texts(queue[1..], sent)
  }

  ghost function Contents(s: State): seq<Message> {
    Texts(s.store.queue, s.sent)
  }

  datatype Replayed = Bad | Good(queue: seq<Message>)

  /** The reference: an unbounded list with urgent messages entering at the front. */
  ghost function Replay(log: seq<Event>): Replayed {
    if log == [] then Good([]) else
    var before := Replay(log[..|log| - 1]);
    if before.Bad? then Bad else
    match log[|log| - 1]
    case Sent(m) => Good(before.queue + [m])
    case SentUrgent(m) => Good([m] + before.queue)
    case Received(m) => if before.queue != [] && before.queue[0] == m then Good(before.queue[1..]) else Bad
    case Cleared => Good([])
  }

  ghost predicate Inv(s: State) {
    Conserved(s) && Exclusive(s) && NothingLost(s) && Intact(s) && Replay(s.log) == Good(Contents(s))
  }

  // ---------------------------------------------------------------- preservation

  lemma ReplayExtend(log: seq<Event>, e: Event)
    ensures Replay(log + [e]) ==
            var before := Replay(log);
            if before.Bad? then Bad else
            match e
            case Sent(m) => Good(before.queue + [m])
            case SentUrgent(m) => Good([m] + before.queue)
            case Received(m) => if before.queue != [] && before.queue[0] == m then Good(before.queue[1..]) else Bad
            case Cleared => Good([])
  {
    assert (log + [e])[..|log + [e]| - 1] == log;
  }

  lemma InitialInv(maxMsgs: nat, msgSize: nat, data: map<nat, Message>)
    requires forall n :: 0 <= n < maxMsgs ==> n in data && |data[n]| == msgSize
    ensures Inv(Initial(maxMsgs, msgSize, data))
  {
    var s := Initial(maxMsgs, msgSize, data);
    var free := FreshFree(maxMsgs);
    assert [] + free == free;
    forall n | 0 <= n < maxMsgs
      ensures Placed(s, n)
    {
      assert free[maxMsgs - 1 - n] == n;
    }
  }

  /** A node leaves a list and comes into the hands of thread `t`. */
  lemma TakenConserved(s: State, s': State, t: Tid, n: nat)
    requires Conserved(s) && t !in s.flight && s'.maxMsgs == s.maxMsgs
    requires t in s'.flight && s'.flight[t].node == n && s'.flight == s.flight[t := s'.flight[t]]
    requires n in s.store.queue || n in s.store.free
    requires forall m :: m in s'.store.queue <==> m in s.store.queue && m != n
    requires forall m :: m in s'.store.free <==> m in s.store.free && m != n
    requires Distinct(s'.store.queue + s'.store.free) && s'.store.entry == |s'.store.queue|
    ensures Conserved(s')
  {
    forall m | 0 <= m < s.maxMsgs
      ensures Placed(s', m)
    {
      assert Placed(s, m);
      if m == n {
        assert s'.flight[t].node == m;
      } else if m !in s.store.queue && m !in s.store.free {
        var u :| u in s.flight && s.flight[u].node == m;
        assert s'.flight[u].node == m;
      }
    }
  }

  lemma AcquireConserved(s: State, t: Tid, msg: Message, urgent: bool)
    requires Conserved(s) && t !in s.flight && s.store.free != []
    ensures Conserved(Acquire(s, t, msg, urgent))
  {
    var q, rest, n := s.store.queue, s.store.free[1..], s.store.free[0];
    assert q + s.store.free == q + [n] + rest;
    DistinctDelete(q, rest, n);
    assert s.store.free == [n] + rest;
    assert n !in q && n !in rest;
    TakenConserved(s, Acquire(s, t, msg, urgent), t, n);
  }

  lemma AcquireInv(s: State, t: Tid, msg: Message, urgent: bool)
    requires Inv(s) && (Idle(s, t) || t in s.tx.woken)
    requires |msg| <= s.msgSize && s.store.free != []
    ensures Inv(Acquire(s, t, msg, urgent))
  {
    var s' := Acquire(s, t, msg, urgent);
    LeaveGate(s.tx, t, |s.store.free|);
    AcquireConserved(s, t, msg, urgent);
    StillExclusive(s, s', t);
  }

  lemma SamePlaces(s: State, s': State)
    requires Conserved(s) && s'.store == s.store && s'.maxMsgs == s.maxMsgs
    requires s'.flight.Keys == s.flight.Keys
    requires forall t :: t in s.flight ==> s'.flight[t].node == s.flight[t].node
    ensures Conserved(s')
  {
    forall n | 0 <= n < s.maxMsgs
      ensures Placed(s', n)
    {
      assert Placed(s, n);
      if n !in s.store.queue && n !in s.store.free {
        var u :| u in s.flight && s.flight[u].node == n;
        assert s'.flight[u].node == n;
      }
    }
  }

  /** Only thread `t` changes its place, and it ends up in one place only. */
  lemma StillExclusive(s: State, s': State, t: Tid)
    requires Exclusive(s) && s'.rx.Valid() && s'.tx.Valid()
    requires forall u :: u != t && In(s'.rx, u) ==> In(s.rx, u)
    requires forall u :: u != t && In(s'.tx, u) ==> In(s.tx, u)
    requires forall u :: u != t && u in s'.flight ==> u in s.flight
    requires !(In(s'.rx, t) && In(s'.tx, t))
    requires t in s'.flight ==> !In(s'.rx, t) && !In(s'.tx, t)
    ensures Exclusive(s')
  {
    forall u | In(s'.rx, u)
      ensures !In(s'.tx, u)
    {
      assert u != t ==> In(s.rx, u);
    }
  }

  /** Nothing but a gate changes. */
  lemma GateOnly(s: State, s': State)
    requires Conserved(s) && Intact(s) && Replay(s.log) == Good(Contents(s))
    requires s' == s.(rx := s'.rx, tx := s'.tx)
    ensures Conserved(s') && Intact(s') && Replay(s'.log) == Good(Contents(s'))
  {
    SamePlaces(s, s');
  }

  lemma SendTryInv(s: State, a: Step)
    requires Inv(s) && Enabled(s, a) && (a.SendTry? || a.UrgentTry?)
    ensures Inv(Apply(s, a))
  {
    match a
    case SendTry(t, msg, wait, flag, prio) =>
      if |msg| > s.msgSize {
      } else if s.store.free != [] {
        AcquireInv(s, t, msg, false);
      } else {
        SuspendGate(s.tx, t, SuspendAt(s.tx.waiting, prio, t, flag));
        LeaveGate(s.tx, t, 0);
        StillExclusive(s, Apply(s, a), t);
        GateOnly(s, Apply(s, a));
      }
    case UrgentTry(t, msg) =>
      if |msg| <= s.msgSize && s.store.free != [] {
        AcquireInv(s, t, msg, true);
      }
  }

  lemma CopyInIntact(s: State, t: Tid)
    requires Conserved(s) && Intact(s) && Enabled(s, CopyIn(t))
    ensures Intact(CopyInStep(s, t)) && Contents(CopyInStep(s, t)) == Contents(s)
  {
    var s' := CopyInStep(s, t);
    var f := s.flight[t];
    assert Overlay(s.data[f.node], f.msg)[..|f.msg|] == f.msg;
    forall i | 0 <= i < |s.store.queue|
      ensures Holds(s'.data, s'.sent, s.store.queue[i])
      ensures Lookup(s'.sent, s.store.queue[i]) == Lookup(s.sent, s.store.queue[i])
    {
      assert s.store.queue[i] in s.store.queue;
      assert Holds(s.data, s.sent, s.store.queue[i]);
    }
    assert Texts(s.store.queue, s'.sent) == Texts(s.store.queue, s.sent);
    forall u | u in s'.flight
      ensures FlightOk(s'.msgSize, s'.data, s'.sent, s'.flight[u])
    {
      assert FlightOk(s.msgSize, s.data, s.sent, s.flight[u]);
      assert u != t ==> s'.flight[u] == s.flight[u] && s.flight[u].node != f.node;
    }
  }

  lemma CopyInInv(s: State, t: Tid)
    requires Inv(s) && Enabled(s, CopyIn(t))
    ensures Inv(CopyInStep(s, t))
  {
    SamePlaces(s, CopyInStep(s, t));
    CopyInIntact(s, t);
    StillExclusive(s, CopyInStep(s, t), t);
  }

  lemma LinkConserved(s: State, t: Tid)
    requires Conserved(s) && Enabled(s, Link(t))
    ensures Conserved(LinkStep(s, t))
  {
    var s' := LinkStep(s, t);
    var f := s.flight[t];
    var q, free := s.store.queue, s.store.free;
    if f.urgent {
      assert [f.node] + q + free == [] + [f.node] + (q + free);
      DistinctInsert([], q + free, f.node);
      assert [] + (q + free) == q + free;
    } else {
      DistinctInsert(q, free, f.node);
    }
    assert forall m :: m in s'.store.queue <==> m in q || m == f.node;
    ReleasedPlaces(s, s', t);
  }

  /** Nodes stay placed when a thread puts its node into a list. */
  lemma ReleasedPlaces(s: State, s': State, t: Tid)
    requires Conserved(s) && t in s.flight && s'.flight == s.flight - {t} && s'.maxMsgs == s.maxMsgs
    requires forall m :: (m in s'.store.queue || m in s'.store.free) <==>
                         (m in s.store.queue || m in s.store.free || m == s.flight[t].node)
    ensures forall n :: 0 <= n < s'.maxMsgs ==> Placed(s', n)
  {
    forall n | 0 <= n < s'.maxMsgs
      ensures Placed(s', n)
    {
      assert Placed(s, n);
      if n !in s.store.queue && n !in s.store.free && n != s.flight[t].node {
        var u :| u in s.flight && s.flight[u].node == n;
        assert s'.flight[u].node == n;
      }
    }
  }

  lemma LinkIntact(s: State, t: Tid)
    requires Intact(s) && Enabled(s, Link(t)) && Replay(s.log) == Good(Contents(s))
    ensures Intact(LinkStep(s, t)) && Replay(LinkStep(s, t).log) == Good(Contents(LinkStep(s, t)))
  {
    var s' := LinkStep(s, t);
    var f := s.flight[t];
    assert FlightOk(s.msgSize, s.data, s.sent, f);
    ReplayExtend(s.log, if f.urgent then SentUrgent(f.msg) else Sent(f.msg));
    assert Contents(s') == if f.urgent then [f.msg] + Contents(s) else Contents(s) + [f.msg];
    forall i | 0 <= i < |s'.store.queue|
      ensures Holds(s'.data, s'.sent, s'.store.queue[i])
    {
      var n := s'.store.queue[i];
      assert n == f.node || n in s.store.queue;
    }
  }

  lemma LinkInv(s: State, t: Tid)
    requires Inv(s) && Enabled(s, Link(t))
    ensures Inv(LinkStep(s, t))
  {
    LinkConserved(s, t);
    SignalGate(s.rx, s.store.entry);
    LinkIntact(s, t);
    StillExclusive(s, LinkStep(s, t), t);
  }

  lemma TakeConserved(s: State, t: Tid, wait: bool, flag: Flag, prio: Prios)
    requires Conserved(s) && t !in s.flight && s.store.entry > 0
    ensures Conserved(RecvTryStep(s, t, wait, flag, prio))
  {
    var rest, free, n := s.store.queue[1..], s.store.free, s.store.queue[0];
    assert s.store.queue + free == [] + [n] + (rest + free);
    DistinctDelete([], rest + free, n);
    assert [] + (rest + free) == rest + free;
    assert s.store.queue == [n] + rest;
    assert n !in rest && n !in free;
    TakenConserved(s, RecvTryStep(s, t, wait, flag, prio), t, n);
  }

  lemma TakeIntact(s: State, t: Tid, wait: bool, flag: Flag, prio: Prios)
    requires Conserved(s) && Intact(s) && t !in s.flight && s.store.entry > 0
    requires Replay(s.log) == Good(Contents(s))
    ensures var s' := RecvTryStep(s, t, wait, flag, prio);
            Intact(s') && Replay(s'.log) == Good(Contents(s'))
  {
    var s' := RecvTryStep(s, t, wait, flag, prio);
    var n := s.store.queue[0];
    ReplayExtend(s.log, Received(Lookup(s.sent, n)));
    assert Contents(s') == Contents(s)[1..];
    assert n in s.store.queue && Holds(s.data, s.sent, n);
    assert |s.sent[n]| <= |s.data[n]| == s.msgSize;
    forall i | 0 <= i < |s'.store.queue|
      ensures Holds(s'.data, s'.sent, s'.store.queue[i])
    {
      assert Holds(s.data, s.sent, s.store.queue[i + 1]);
    }
  }

  lemma RecvTryInv(s: State, t: Tid, wait: bool, flag: Flag, prio: Prios)
    requires Inv(s) && Enabled(s, RecvTry(t, wait, flag, prio))
    ensures Inv(RecvTryStep(s, t, wait, flag, prio))
  {
    var s' := RecvTryStep(s, t, wait, flag, prio);
    LeaveGate(s.rx, t, s.store.entry);
    if s.store.entry > 0 {
      TakeConserved(s, t, wait, flag, prio);
      TakeIntact(s, t, wait, flag, prio);
      StillExclusive(s, s', t);
    } else {
      SuspendGate(s.rx, t, SuspendAt(s.rx.waiting, prio, t, flag));
      StillExclusive(s, s', t);
      GateOnly(s, s');
    }
  }

  lemma RecvDoneInv(s: State, t: Tid)
    requires Inv(s) && Enabled(s, RecvDone(t))
    ensures Inv(RecvDoneStep(s, t))
  {
    var s' := RecvDoneStep(s, t);
    var n := s.flight[t].node;
    SignalGate(s.tx, |s.store.free|);
    DistinctInsert(s.store.queue, s.store.free, n);
    assert s.store.queue + [n] + s.store.free == s.store.queue + ([n] + s.store.free);
    ReleasedPlaces(s, s', t);
    StillExclusive(s, s', t);
  }

  lemma ReversedMembers(q: seq<nat>, free: seq<nat>)
    requires Distinct(q + free)
    ensures forall m :: m in Reversed(q) <==> m in q
    ensures Distinct(Reversed(q) + free)
  {
    forall m | m in q
      ensures m in Reversed(q)
    {
      var i :| 0 <= i < |q| && q[i] == m;
      assert Reversed(q)[|q| - 1 - i] == m;
    }
    var r, all := Reversed(q) + free, q + free;
    assert forall i :: 0 <= i < |r| ==> r[i] == all[if i < |q| then |q| - 1 - i else i];
  }

  lemma DrainConserved(s: State, s': State)
    requires Conserved(s) && s'.store == s.store.Drain() && s'.flight == s.flight && s'.maxMsgs == s.maxMsgs
    ensures Conserved(s')
  {
    var q, free := s.store.queue, s.store.free;
    ReversedMembers(q, free);
    assert [] + (Reversed(q) + free) == Reversed(q) + free;
    forall n | 0 <= n < s'.maxMsgs
      ensures Placed(s', n)
    {
      assert Placed(s, n);
    }
  }

  lemma ResetInv(s: State)
    requires Inv(s)
    ensures Inv(Apply(s, Reset))
  {
    var s' := Apply(s, Reset);
    DrainConserved(s, s');
    ReplayExtend(s.log, Cleared);
    forall t | In(s'.rx, t)
      ensures !In(s'.tx, t)
    {
      assert In(s.rx, t);
    }
  }

  lemma TimeoutInv(s: State, t: Tid)
    requires Inv(s) && Enabled(s, Timeout(t))
    ensures Inv(Apply(s, Timeout(t)))
  {
    ExpireGate(s.rx, t, s.store.entry);
    ExpireGate(s.tx, t, |s.store.free|);
    StillExclusive(s, Apply(s, Timeout(t)), t);
    GateOnly(s, Apply(s, Timeout(t)));
  }

  lemma StepInv(s: State, a: Step)
    requires Inv(s) && Enabled(s, a)
    ensures Inv(Apply(s, a))
  {
    match a
    case SendTry(_, _, _, _, _) => SendTryInv(s, a);
    case UrgentTry(_, _) => SendTryInv(s, a);
    case CopyIn(t) => CopyInInv(s, t);
    case Link(t) => LinkInv(s, t);
    case RecvTry(t, wait, flag, prio) => RecvTryInv(s, t, wait, flag, prio);
    case RecvDone(t) => RecvDoneInv(s, t);
    case Timeout(t) => TimeoutInv(s, t);
    case Reset => ResetInv(s);
  }

  // ---------------------------------------------------------------- what the calls do

  /** Nothing moves but the gate of the senders. */
  ghost predicate OnlySenders(s: State, s': State) {
    s'.store == s.store && s'.flight == s.flight && s'.rx == s.rx && s'.log == s.log && Contents(s') == Contents(s)
  }

  ghost predicate OnlyReceivers(s: State, s': State) {
    s'.store == s.store && s'.flight == s.flight && s'.tx == s.tx && s'.log == s.log && Contents(s') == Contents(s)
  }

  /**
   A send that is not too long gets a node, or waits for one if it may, or is refused; the queue
   itself stays as it is until the message is linked.
   */
  lemma SendTryMeans(s: State, t: Tid, msg: Message, wait: bool, flag: Flag, prio: Prios)
    requires Inv(s) && Enabled(s, SendTry(t, msg, wait, flag, prio))
    ensures var s' := SendTryStep(s, t, msg, wait, flag, prio);
            if |msg| > s.msgSize then s' == s
            else if s.store.free == [] then
              OnlySenders(s, s') && if wait then Joined(s.tx, s'.tx, t, flag, prio) else Departed(s.tx, s'.tx, t)
            else
              && s.store.free == [s'.flight[t].node] + s'.store.free && Contents(s') == Contents(s)
              && s'.flight == s.flight[t := Filling(s.store.free[0], msg, false, false)]
              && s'.rx == s.rx && Departed(s.tx, s'.tx, t)
  {
    GateMoves(s.tx, t, flag, prio);
  }

  /** An urgent send never waits. */
  lemma UrgentTryMeans(s: State, t: Tid, msg: Message)
    requires Inv(s) && Enabled(s, UrgentTry(t, msg))
    ensures var s' := UrgentTryStep(s, t, msg);
            if |msg| > s.msgSize || s.store.free == [] then s' == s
            else
              && s.store.free == [s'.flight[t].node] + s'.store.free && Contents(s') == Contents(s)
              && s'.flight == s.flight[t := Filling(s.store.free[0], msg, true, false)]
              && s'.rx == s.rx && s'.tx == s.tx
  {
    assert s.tx.woken - {t} == s.tx.woken;
  }

  /** A receive takes the first message, or waits for one if it may, or is refused. */
  lemma RecvTryMeans(s: State, t: Tid, wait: bool, flag: Flag, prio: Prios)
    requires Inv(s) && Enabled(s, RecvTry(t, wait, flag, prio))
    ensures var s' := RecvTryStep(s, t, wait, flag, prio);
            if s.store.queue == [] then
              OnlyReceivers(s, s') && if wait then Joined(s.rx, s'.rx, t, flag, prio) else Departed(s.rx, s'.rx, t)
            else
              && t in s'.flight && s'.flight == s.flight[t := s'.flight[t]] && s'.flight[t].Draining?
              && Contents(s) == [s'.flight[t].msg] + Contents(s') && s'.store.free == s.store.free
              && s'.tx == s.tx && Departed(s.rx, s'.rx, t)
  {
    GateMoves(s.rx, t, flag, prio);
  }

  /** A message is linked at its end of the queue, and the first receiver is resumed. */
  lemma LinkMeans(s: State, t: Tid)
    requires Inv(s) && Enabled(s, Link(t))
    ensures var s', f := LinkStep(s, t), s.flight[t];
            && Contents(s') == (if f.urgent then [f.msg] + Contents(s) else Contents(s) + [f.msg])
            && s'.log == s.log + [if f.urgent then SentUrgent(f.msg) else Sent(f.msg)]
            && s'.store.free == s.store.free && s'.flight == s.flight - {t}
            && FirstResumed(s.rx, s'.rx) && s'.tx == s.tx
  {
    var f := s.flight[t];
    LinkIntact(s, t);
    ReplayExtend(s.log, if f.urgent then SentUrgent(f.msg) else Sent(f.msg));
    GateMoves(s.rx, t, Fifo, map[]);
  }

  /** A node given back is the next one to be used, and the first sender is resumed. */
  lemma RecvDoneMeans(s: State, t: Tid)
    requires Inv(s) && Enabled(s, RecvDone(t))
    ensures var s' := RecvDoneStep(s, t);
            && s'.store.free == [s.flight[t].node] + s.store.free && Contents(s') == Contents(s)
            && s'.flight == s.flight - {t} && s'.rx == s.rx && FirstResumed(s.tx, s'.tx)
  {
    GateMoves(s.tx, t, Fifo, map[]);
  }

  /** A suspended thread stays so through a step unless it times out, is resumed, or the queue is reset. */
  lemma WaiterLeaves(s: State, a: Step, t: Tid)
    requires Inv(s) && Enabled(s, a)
    ensures GateKeeps(s.rx, Apply(s, a).rx, a, t) && GateKeeps(s.tx, Apply(s, a).tx, a, t)
  {
    ReceiverLeaves(s, a, t);
    SenderLeaves(s, a, t);
  }

  lemma ReceiverLeaves(s: State, a: Step, t: Tid)
    requires s.rx.Valid() && Enabled(s, a)
    ensures GateKeeps(s.rx, Apply(s, a).rx, a, t)
  {
    FirstGoes(s.rx, t);
    if a.RecvTry? && t in s.rx.waiting {
      OthersWait(s.rx, a.t, SuspendAt(s.rx.waiting, a.prio, a.t, a.flag), t);
    }
  }

  lemma SenderLeaves(s: State, a: Step, t: Tid)
    requires s.tx.Valid() && Enabled(s, a)
    ensures GateKeeps(s.tx, Apply(s, a).tx, a, t)
  {
    FirstGoes(s.tx, t);
    if a.SendTry? && t in s.tx.waiting {
      OthersWait(s.tx, a.t, SuspendAt(s.tx.waiting, a.prio, a.t, a.flag), t);
    }
  }

  ghost predicate GateKeeps(g: Gate, g': Gate, a: Step, t: Tid) {
    t in g.waiting ==> (t in g'.waiting <==> a != Timeout(t) && !a.Reset? && t !in g'.woken)
  }

  // ---------------------------------------------------------------- which end of the queue

  ghost predicate IsTry(a: Step, t: Tid) {
    (a.SendTry? || a.UrgentTry?) && a.t == t
  }

  /** The number of the last send, urgent or not, that `t` has tried in the first `j` steps, counted from 1. */
  ghost function LastTry(steps: seq<Step>, j: nat, t: Tid): (n: nat)
    requires j <= |steps|
    ensures n <= j && (n > 0 ==> IsTry(steps[n - 1], t))
    ensures forall i :: n <= i < j ==> !IsTry(steps[i], t)
  {
    if j == 0 then 0 else if IsTry(steps[j - 1], t) then j else LastTry(steps, j - 1, t)
  }

  /** The message of a thread between its try and its link is that of its last try, and so is the urgency. */
  ghost predicate TriedAt(s: State, steps: seq<Step>, j: nat, t: Tid)
    requires j <= |steps|
  {
    t in s.flight && s.flight[t].Filling? ==>
      var n := LastTry(steps, j, t);
      n > 0 && steps[n - 1].msg == s.flight[t].msg && steps[n - 1].UrgentTry? == s.flight[t].urgent
  }

  /** Where a thread with a message under way has it from. */
  ghost predicate FillingFrom(s: State, s': State, a: Step, t: Tid) {
    t in s'.flight && s'.flight[t].Filling? ==>
      if IsTry(a, t) then s'.flight[t].msg == a.msg && s'.flight[t].urgent == a.UrgentTry?
      else
        && t in s.flight && s.flight[t].Filling?
        && s'.flight[t].msg == s.flight[t].msg && s'.flight[t].urgent == s.flight[t].urgent
  }

  lemma TryFilling(s: State, a: Step, t: Tid)
    requires Inv(s) && Enabled(s, a) && (a.SendTry? || a.UrgentTry?)
    ensures FillingFrom(s, Apply(s, a), a, t)
  {
    match a
    case SendTry(u, msg, wait, flag, prio) => SendTryMeans(s, u, msg, wait, flag, prio);
    case UrgentTry(u, msg) => UrgentTryMeans(s, u, msg);
  }

  lemma OtherFilling(s: State, a: Step, t: Tid)
    requires Inv(s) && Enabled(s, a) && !a.SendTry? && !a.UrgentTry?
    ensures FillingFrom(s, Apply(s, a), a, t)
  {
    if a.RecvTry? {
      RecvTryMeans(s, a.t, a.wait, a.flag, a.prio);
    }
  }

  lemma StepTried(s: State, steps: seq<Step>, j: nat, t: Tid)
    requires j < |steps| && Inv(s) && Enabled(s, steps[j]) && TriedAt(s, steps, j, t)
    ensures TriedAt(Apply(s, steps[j]), steps, j + 1, t)
  {
    var a := steps[j];
    if a.SendTry? || a.UrgentTry? {
      TryFilling(s, a, t);
    } else {
      OtherFilling(s, a, t);
    }
  }

  lemma {:induction false} RunTried(run: seq<State>, steps: seq<Step>, j: nat, t: Tid)
    requires IsRun(run, steps) && Starts(run[0]) && j <= |steps|
    ensures TriedAt(run[j], steps, j, t)
  {
    if j > 0 {
      RunTried(run, steps, j - 1, t);
      RunInv(run, steps, j - 1);
      assert StepAt(run, steps, j - 1);
      StepTried(run[j - 1], steps, j - 1, t);
    }
  }

  /**
   Over every run: the message that a thread links is that of its last try. After rt_mq_send it
   goes behind all queued messages, after rt_mq_urgent in front of them, whatever others did meanwhile.
   */
  lemma LinkedWhereSent(run: seq<State>, steps: seq<Step>, j: nat)
    requires IsRun(run, steps) && Starts(run[0]) && j < |steps| && steps[j].Link?
    ensures var n := LastTry(steps, j, steps[j].t);
            && n > 0
            && match steps[n - 1]
               case SendTry(_, msg, _, _, _) =>
                 Contents(run[j + 1]) == Contents(run[j]) + [msg] && run[j + 1].log == run[j].log + [Sent(msg)]
               case UrgentTry(_, msg) =>
                 Contents(run[j + 1]) == [msg] + Contents(run[j]) && run[j + 1].log == run[j].log + [SentUrgent(msg)]
               case _ => false
  {
    RunTried(run, steps, j, steps[j].t);
    LinkInRun(run, steps, j, run[j], run[j + 1], steps[j].t);
  }

  lemma LinkInRun(run: seq<State>, steps: seq<Step>, j: nat, s: State, s': State, t: Tid)
    requires IsRun(run, steps) && Starts(run[0]) && j < |steps| && steps[j] == Link(t)
    requires s == run[j] && s' == run[j + 1]
    ensures t in s.flight && s.flight[t].Filling?
    ensures var f := s.flight[t];
            && Contents(s') == (if f.urgent then [f.msg] + Contents(s) else Contents(s) + [f.msg])
            && s'.log == s.log + [if f.urgent then SentUrgent(f.msg) else Sent(f.msg)]
  {
    RunInv(run, steps, j);
    assert StepAt(run, steps, j);
    LinkMeans(s, t);
  }

  // ---------------------------------------------------------------- runs

  /** `run` is a sequence of states, each obtained from the one before by an enabled step. */
  ghost predicate IsRun(run: seq<State>, steps: seq<Step>) {
    && |run| == |steps| + 1
    && (forall i {:trigger StepAt(run, steps, i)} :: 0 <= i < |steps| ==> StepAt(run, steps, i))
  }

  ghost predicate StepAt(run: seq<State>, steps: seq<Step>, i: nat)
    requires i < |steps| < |run|
  {
    Enabled(run[i], steps[i]) && run[i + 1] == Apply(run[i], steps[i])
  }

  ghost predicate Starts(s: State) {
    exists data :: s == Initial(s.maxMsgs, s.msgSize, data) &&
                   (forall n :: 0 <= n < s.maxMsgs ==> n in data && |data[n]| == s.msgSize)
  }

  lemma {:induction false} RunInv(run: seq<State>, steps: seq<Step>, i: nat)
    requires IsRun(run, steps) && Starts(run[0]) && i < |run|
    ensures Inv(run[i])
  {
    if i == 0 {
      var data :| run[0] == Initial(run[0].maxMsgs, run[0].msgSize, data) &&
                  (forall n :: 0 <= n < run[0].maxMsgs ==> n in data && |data[n]| == run[0].msgSize);
      InitialInv(run[0].maxMsgs, run[0].msgSize, data);
    } else {
      RunInv(run, steps, i - 1);
      assert StepAt(run, steps, i - 1);
      StepInv(run[i - 1], steps[i - 1]);
    }
  }

  /**
   In every interleaving, as long as a receiver is suspended the queued messages do not outnumber
   the receivers that were resumed and still have to look, and likewise for senders and free nodes.
   */
  lemma NoLostWakeups(run: seq<State>, steps: seq<Step>, i: nat)
    requires IsRun(run, steps) && Starts(run[0]) && i < |run|
    ensures run[i].rx.waiting != [] ==> |run[i].store.queue| <= |run[i].rx.woken|
    ensures run[i].tx.waiting != [] ==> |run[i].store.free| <= |run[i].tx.woken|
  {
    RunInv(run, steps, i);
  }

  /** With a nonempty pool, senders and receivers are never both stuck with nobody on the way. */
  lemma NoDeadlock(run: seq<State>, steps: seq<Step>, i: nat)
    requires IsRun(run, steps) && Starts(run[0]) && i < |run|
    requires run[i].maxMsgs > 0 && run[i].rx.waiting != [] && run[i].tx.waiting != []
    ensures run[i].rx.woken != {} || run[i].tx.woken != {} || run[i].flight != map[]
  {
    RunInv(run, steps, i);
    var s := run[i];
    if s.rx.woken == {} && s.tx.woken == {} {
      assert Placed(s, 0);
    }
  }

  lemma NotInBoth(a: seq<nat>, b: seq<nat>, n: nat)
    requires Distinct(a + b) && n in a
    ensures n !in b
  {
    var i :| 0 <= i < |a| && a[i] == n;
    forall j | 0 <= j < |b|
      ensures b[j] != n
    {
      assert (a + b)[i] == n && (a + b)[|a| + j] == b[j];
    }
  }

  /** Every node is in exactly one place, in every reachable state. */
  lemma NodesConserved(run: seq<State>, steps: seq<Step>, i: nat, n: nat)
    requires IsRun(run, steps) && Starts(run[0]) && i < |run| && n < run[i].maxMsgs
    ensures var s := run[i];
            var queued := n in s.store.queue;
            var free := n in s.store.free;
            var held := exists t :: t in s.flight && s.flight[t].node == n;
            && (queued || free || held)
            && !(queued && free) && !(queued && held) && !(free && held)
            && s.store.entry == |s.store.queue|
  {
    RunInv(run, steps, i);
    var s := run[i];
    assert Placed(s, n);
    if n in s.store.queue && n in s.store.free {
      NotInBoth(s.store.queue, s.store.free, n);
    }
  }

  /** The queue is the replay of what was sent and received: FIFO, with urgent messages in front. */
  lemma FifoOrder(run: seq<State>, steps: seq<Step>, i: nat)
    requires IsRun(run, steps) && Starts(run[0]) && i < |run|
    ensures Replay(run[i].log) == Good(Contents(run[i]))
  {
    RunInv(run, steps, i);
  }

  /**
   The bytes copied out while other threads run are those of the message that the receiver
   took off the queue, as far as both buffers reach.
   */
  lemma DeliversMessage(run: seq<State>, steps: seq<Step>, i: nat, t: Tid, size: nat)
    requires IsRun(run, steps) && Starts(run[0]) && i < |run| && Enabled(run[i], RecvDone(t))
    ensures var msg := run[i].flight[t].msg;
            var out := CopyOut(run[i], t, size);
            && |out| == (if size > run[i].msgSize then run[i].msgSize else size)
            && (if |msg| <= |out| then msg <= out else out <= msg)
  {
    RunInv(run, steps, i);
  }
}
