/**
 The mailbox of ipc.c: a circular buffer of words between blocking senders and receivers.
 */
module Mailbox {
  import opened WaitLists

  /** The circular buffer, changed in place. */
  class Buffer {
    const pool: array<int>
    var entry: nat
    var inOffset: nat
    var outOffset: nat

    ghost predicate Valid()
      reads this
    {
      && entry <= pool.Length
      && (pool.Length == 0 ==> inOffset == 0 && outOffset == 0)
      && (pool.Length > 0 ==> inOffset < pool.Length && outOffset < pool.Length)
      && (inOffset == outOffset + entry || inOffset == outOffset + entry - pool.Length)
    }

    /** The mails in the order in which they will be received. */
    ghost function Mails(): (s: seq<int>)
      requires Valid()
      reads this, pool
      ensures |s| == entry
    {
      Around(pool[..], outOffset, entry)
    }

    constructor (size: nat)
      ensures Valid() && Mails() == [] && pool.Length == size
      ensures fresh(pool)
    {
      pool := new int[size];
      entry, inOffset, outOffset := 0, 0, 0;
    }

    method Put(value: int)
      requires Valid() && entry < pool.Length
      modifies this, pool
      ensures Valid() && Mails() == old(Mails()) + [value]
    {
      Appended(pool[..], outOffset, entry, value);
      pool[inOffset] := value;
      inOffset := inOffset + 1;
      if inOffset >= pool.Length {
        inOffset := 0;
      }
      entry := entry + 1;
    }

    method Get() returns (value: int)
      requires Valid() && entry > 0
      modifies this
      ensures Valid() && [value] + Mails() == old(Mails())
    {
      Popped(pool[..], outOffset, entry);
      value := pool[outOffset];
      outOffset := outOffset + 1;
      if outOffset >= pool.Length {
        outOffset := 0;
      }
      entry := entry - 1;
    }

    method Clear()
      requires Valid()
      modifies this
      ensures Valid() && Mails() == []
    {
      entry, inOffset, outOffset := 0, 0, 0;
    }
  }

  /** `n` slots from `out` on, around the end of the pool. */
  ghost function Around(p: seq<int>, out: nat, n: nat): (s: seq<int>)
    requires n <= |p| && out <= |p|
    ensures |s| == n
  {
    if out + n <= |p| then p[out..out + n] else p[out..] + p[..out + n - |p|]
  }

  lemma Popped(p: seq<int>, out: nat, n: nat)
    requires 0 < n <= |p| && out < |p|
    ensures Around(p, out, n) == [p[out]] + Around(p, if out + 1 >= |p| then 0 else out + 1, n - 1)
  {
  }

  lemma Appended(p: seq<int>, out: nat, n: nat, v: int)
    requires n < |p| && out < |p|
    ensures var slot := if out + n < |p| then out + n else out + n - |p|;
            Around(p[slot := v], out, n + 1) == Around(p, out, n) + [v]
  {
  }

  // ---------------------------------------------------------------- protocol

  datatype State = State(
    size: nat,
    mails: seq<int>,
    rx: Gate,
    tx: Gate,
    sent: seq<int>,       // since the last reset
    received: seq<int>)   // since the last reset

  datatype Step =
    | Send(t: Tid, value: int, wait: bool, flag: Flag, prio: Prios)
    | Recv(t: Tid, wait: bool, flag: Flag, prio: Prios)
    | Timeout(t: Tid)
    | Reset

  ghost function Initial(size: nat): State {
    State(size, [], Gate([], {}), Gate([], {}), [], [])
  }

  ghost predicate In(g: Gate, t: Tid) {
    t in g.waiting || t in g.woken
  }

  ghost predicate Enabled(s: State, a: Step) {
    match a
    case Send(t, _, _, _, _) => t in s.tx.woken || (!In(s.rx, t) && !In(s.tx, t))
    case Recv(t, _, _, _) => t in s.rx.woken || (!In(s.rx, t) && !In(s.tx, t))
    case Timeout(t) => t in s.rx.waiting || t in s.tx.waiting
    case Reset => true
  }

  ghost function Apply(s: State, a: Step): State
    requires Enabled(s, a)
  {
    match a
    case Send(t, value, wait, flag, prio) =>
      if |s.mails| < s.size then
        s.(mails := s.mails + [value], tx := s.tx.Leave(t), rx := s.rx.Signal(), sent := s.sent + [value])
      else if wait then s.(tx := s.tx.Suspend(t, SuspendAt(s.tx.waiting, prio, t, flag)))
      else s.(tx := s.tx.Leave(t))                                 // -RT_EFULL
    case Recv(t, wait, flag, prio) =>
      if s.mails != [] then
        s.(mails := s.mails[1..], rx := s.rx.Leave(t), tx := s.tx.Signal(), received := s.received + [s.mails[0]])
      else if wait then s.(rx := s.rx.Suspend(t, SuspendAt(s.rx.waiting, prio, t, flag)))
      else s.(rx := s.rx.Leave(t))                                 // -RT_ETIMEOUT
    case Timeout(t) => s.(rx := s.rx.Expire(t), tx := s.tx.Expire(t))
    case Reset => State(s.size, [], s.rx.FailAll(), s.tx.FailAll(), [], [])
  }

  ghost predicate Inv(s: State) {
    && |s.mails| <= s.size
    && s.sent == s.received + s.mails
    && s.rx.Valid() && s.tx.Valid()
    && s.rx.NoLostWakeup(|s.mails|)
    && s.tx.NoLostWakeup(s.size - |s.mails|)
  }

  lemma SendInv(s: State, a: Step)
    requires Inv(s) && Enabled(s, a) && a.Send?
    ensures Inv(Apply(s, a))
  {
    LeaveGate(s.tx, a.t, s.size - |s.mails|);
    SignalGate(s.rx, |s.mails|);
    if |s.mails| == s.size && a.wait {
      SuspendGate(s.tx, a.t, SuspendAt(s.tx.waiting, a.prio, a.t, a.flag));
    }
  }

  lemma RecvInv(s: State, a: Step)
    requires Inv(s) && Enabled(s, a) && a.Recv?
    ensures Inv(Apply(s, a))
  {
    LeaveGate(s.rx, a.t, |s.mails|);
    SignalGate(s.tx, s.size - |s.mails|);
    if s.mails == [] && a.wait {
      SuspendGate(s.rx, a.t, SuspendAt(s.rx.waiting, a.prio, a.t, a.flag));
    }
  }

  lemma StepInv(s: State, a: Step)
    requires Inv(s) && Enabled(s, a)
    ensures Inv(Apply(s, a))
  {
    match a
    case Send(_, _, _, _, _) => SendInv(s, a);
    case Recv(_, _, _, _) => RecvInv(s, a);
    case Timeout(t) =>
      ExpireGate(s.rx, t, |s.mails|);
      ExpireGate(s.tx, t, s.size - |s.mails|);
    case Reset =>
  }

  // ---------------------------------------------------------------- what the calls do

  /** A send stores the mail and resumes the first receiver, or waits for a slot if it may, or is refused. */
  lemma SendMeans(s: State, t: Tid, value: int, wait: bool, flag: Flag, prio: Prios)
    requires Inv(s) && Enabled(s, Send(t, value, wait, flag, prio))
    ensures var s' := Apply(s, Send(t, value, wait, flag, prio));
            if |s.mails| < s.size then
              s'.mails == s.mails + [value] && FirstResumed(s.rx, s'.rx) && Departed(s.tx, s'.tx, t)
            else
              && s'.mails == s.mails && s'.rx == s.rx
              && (if wait then Joined(s.tx, s'.tx, t, flag, prio) else Departed(s.tx, s'.tx, t))
  {
    GateMoves(s.tx, t, flag, prio);
    GateMoves(s.rx, t, flag, prio);
  }

  /** A receive takes the oldest mail and resumes the first sender, or waits for one if it may, or is refused. */
  lemma RecvMeans(s: State, t: Tid, wait: bool, flag: Flag, prio: Prios)
    requires Inv(s) && Enabled(s, Recv(t, wait, flag, prio))
    ensures var s' := Apply(s, Recv(t, wait, flag, prio));
            if s.mails != [] then
              && s.mails == [s'.received[|s'.received| - 1]] + s'.mails
              && FirstResumed(s.tx, s'.tx) && Departed(s.rx, s'.rx, t)
            else
              && s'.mails == [] && s'.tx == s.tx
              && (if wait then Joined(s.rx, s'.rx, t, flag, prio) else Departed(s.rx, s'.rx, t))
  {
    GateMoves(s.tx, t, flag, prio);
    GateMoves(s.rx, t, flag, prio);
  }

  /** A suspended thread stays so through a step unless it times out, is resumed, or the mailbox is reset. */
  lemma WaiterLeaves(s: State, a: Step, t: Tid)
    requires Inv(s) && Enabled(s, a)
    ensures var s' := Apply(s, a);
            && (t in s.rx.waiting ==>
                  (t in s'.rx.waiting <==> a != Timeout(t) && !a.Reset? && t !in s'.rx.woken))
            && (t in s.tx.waiting ==>
                  (t in s'.tx.waiting <==> a != Timeout(t) && !a.Reset? && t !in s'.tx.woken))
  {
    FirstGoes(s.rx, t);
    FirstGoes(s.tx, t);
    match a
    case Send(u, _, _, flag, prio) =>
      if t in s.tx.waiting {
        OthersWait(s.tx, u, SuspendAt(s.tx.waiting, prio, u, flag), t);
      }
    case Recv(u, _, flag, prio) =>
      if t in s.rx.waiting {
        OthersWait(s.rx, u, SuspendAt(s.rx.waiting, prio, u, flag), t);
      }
    case _ =>
  }

  ghost predicate IsRun(run: seq<State>, steps: seq<Step>) {
    && |run| == |steps| + 1
    && run[0] == Initial(run[0].size)
    && (forall i :: 0 <= i < |steps| ==> Enabled(run[i], steps[i]) && run[i + 1] == Apply(run[i], steps[i]))
  }

  lemma {:induction false} RunInv(run: seq<State>, steps: seq<Step>, i: nat)
    requires IsRun(run, steps) && i < |run|
    ensures Inv(run[i]) && run[i].size == run[0].size
  {
    if i > 0 {
      RunInv(run, steps, i - 1);
      StepInv(run[i - 1], steps[i - 1]);
    }
  }

  /**
   In every interleaving: mails are received in the order sent, none is lost or duplicated, and
   nobody stays suspended next to a mail (or an empty slot) that no resumed thread will look at.
   */
  lemma MailboxTheorem(run: seq<State>, steps: seq<Step>, i: nat)
    requires IsRun(run, steps) && i < |run|
    ensures run[i].received <= run[i].sent
    ensures run[i].mails == run[i].sent[|run[i].received|..] && |run[i].mails| <= run[0].size
    ensures run[i].rx.waiting != [] ==> |run[i].mails| <= |run[i].rx.woken|
    ensures run[i].tx.waiting != [] ==> run[0].size - |run[i].mails| <= |run[i].tx.woken|
    ensures run[0].size > 0 && run[i].rx.woken == {} && run[i].tx.woken == {} ==>
            run[i].rx.waiting == [] || run[i].tx.waiting == []
  {
    RunInv(run, steps, i);
  }
}
