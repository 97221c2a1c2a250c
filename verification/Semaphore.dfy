/**
 The counting semaphore of ipc.c. A release hands its unit directly to the first suspended
 thread; only when nobody waits does it go into the 16-bit value.
 */
module Semaphore {
  import opened Links
  import opened WaitLists

  const LIMIT: nat := 0x1_0000

  datatype Reply = Taken | TimedOut | Suspended

  /** The two fields a semaphore has. */
  datatype Sem = Sem(value: nat, waiting: seq<Tid>) {

    function Take(t: Tid, wait: bool, flag: Flag, prio: Prios): (Sem, Reply) {
      if value > 0 then (this.(value := value - 1), Taken)
      else if !wait then (this, TimedOut)
      else
        var k := SuspendAt(waiting, prio, t, flag);
        (this.(waiting := waiting[..k] + [t] + waiting[k..]), Suspended)
    }

    function Release(): Sem {
      if waiting != [] then this.(waiting := waiting[1..])
      else this.(value := (value + 1) % LIMIT)
    }

    /** The one release whose unit disappears. */
    predicate Overflows() {
      waiting == [] && value == LIMIT - 1
    }
  }

  /**
   What a take does: a unit is taken if there is one; otherwise the caller is refused at once, or
   joins the list in the place its flag gives it.
   */
  ghost predicate TakeOutcome(s: Sem, s': Sem, reply: Reply, t: Tid, wait: bool, flag: Flag, prio: Prios) {
    match reply
    case Taken => s.value > 0 && s'.value + 1 == s.value && s'.waiting == s.waiting
    case TimedOut => s.value == 0 && !wait && s' == s
    case Suspended => s.value == 0 && wait && s'.value == 0 && Joins(s.waiting, s'.waiting, t, flag, prio)
  }

  /** What a release does: the first waiter goes, with the unit; with no waiter the 16-bit value counts up. */
  ghost predicate ReleaseOutcome(s: Sem, s': Sem) {
    if s.waiting != [] then s.waiting == [s.waiting[0]] + s'.waiting && s'.value == s.value
    else s'.waiting == [] && (s.value < LIMIT ==> s'.value == if s.value + 1 < LIMIT then s.value + 1 else 0)
  }

  lemma TakeMeans(s: Sem, t: Tid, wait: bool, flag: Flag, prio: Prios)
    ensures var (s', reply) := s.Take(t, wait, flag, prio); TakeOutcome(s, s', reply, t, wait, flag, prio)
  {
    SuspendJoins(s.waiting, prio, t, flag);
  }

  /** The semaphore object, changed in place. */
  class SemaphoreObject {
    var value: nat
    var suspended: WaitList

    ghost function View(): Sem
      reads this, suspended
    {
      Sem(value, suspended.waiting)
    }

    constructor (initial: nat)
      requires initial < LIMIT
      ensures View() == Sem(initial, []) && fresh(suspended)
    {
      value := initial;
      suspended := new WaitList();
    }

    method Take(t: Tid, wait: bool, flag: Flag, prio: Prios) returns (reply: Reply)
      modifies this`value, suspended
      ensures (View(), reply) == old(View()).Take(t, wait, flag, prio)
      ensures TakeOutcome(old(View()), View(), reply, t, wait, flag, prio)
    {
      if value > 0 {
        value := value - 1;
        reply := Taken;
      } else if !wait {
        reply := TimedOut;
      } else {
        suspended.Suspend(t, flag, prio);
        reply := Suspended;
      }
    }

    method Release() returns (needSchedule: bool)
      modifies this`value, suspended
      ensures View() == old(View()).Release() && ReleaseOutcome(old(View()), View())
      ensures needSchedule <==> old(View()).waiting != []
    {
      if suspended.waiting != [] {
        suspended.waiting := suspended.waiting[1..];
        needSchedule := true;
      } else {
        value := (value + 1) % LIMIT;
        needSchedule := false;
      }
    }
  }

  // ---------------------------------------------------------------- protocol

  /** The semaphore with the books kept since its last (re)initialisation. */
  datatype State = State(
    sem: Sem,
    granted: set<Tid>,    // resumed by a release, about to return RT_EOK
    initial: nat,
    releases: nat,
    takes: nat,           // units that went to a thread, directly or by hand-off
    overflows: nat,
    immediate: nat,       // takes that found a unit
    returned: nat,        // suspended takes that have returned RT_EOK
    carried: nat)         // grants that were under way when the books were opened

  datatype Step =
    | Take(t: Tid, wait: bool, flag: Flag, prio: Prios)
    | Release
    | Return(t: Tid)
    | Timeout(t: Tid)
    | Reset(value: nat)

  ghost function Initial(value: nat): State {
    State(Sem(value % LIMIT, []), {}, value % LIMIT, 0, 0, 0, 0, 0, 0)
  }

  ghost predicate Enabled(s: State, a: Step) {
    match a
    case Take(t, _, _, _) => t !in s.sem.waiting && t !in s.granted
    case Return(t) => t in s.granted
    case Timeout(t) => t in s.sem.waiting
    case _ => true
  }

  ghost function Apply(s: State, a: Step): State
    requires Enabled(s, a)
  {
    match a
    case Take(t, wait, flag, prio) =>
      var (sem, reply) := s.sem.Take(t, wait, flag, prio);
      if reply.Taken? then s.(sem := sem, takes := s.takes + 1, immediate := s.immediate + 1) else s.(sem := sem)
    case Release =>
      var direct := s.sem.waiting != [];
      s.(sem := s.sem.Release(),
         granted := if direct then s.granted + {s.sem.waiting[0]} else s.granted,
         releases := s.releases + 1,
         takes := if direct then s.takes + 1 else s.takes,
         overflows := if s.sem.Overflows() then s.overflows + 1 else s.overflows)
    case Return(t) => s.(granted := s.granted - {t}, returned := s.returned + 1)
    case Timeout(t) => s.(sem := s.sem.(waiting := Without(s.sem.waiting, t)))
    case Reset(value) => Initial(value).(granted := s.granted, carried := |s.granted|)
  }

  ghost predicate Inv(s: State) {
    && s.sem.value < LIMIT
    && Distinct(s.sem.waiting)
    && (forall t :: t in s.sem.waiting ==> t !in s.granted)
    && (s.sem.value > 0 ==> s.sem.waiting == [])
    && s.initial + s.releases == s.sem.value + s.takes + LIMIT * s.overflows
    && s.takes + s.carried == s.immediate + s.returned + |s.granted|
  }

  lemma TakeInv(s: State, t: Tid, wait: bool, flag: Flag, prio: Prios)
    requires Inv(s) && Enabled(s, Take(t, wait, flag, prio))
    ensures Inv(Apply(s, Take(t, wait, flag, prio)))
  {
    if s.sem.value == 0 && wait {
      var k := SuspendAt(s.sem.waiting, prio, t, flag);
      SuspendGate(Gate(s.sem.waiting, {}), t, k);
      assert forall x :: x in s.sem.waiting[..k] + [t] + s.sem.waiting[k..] ==> x in s.sem.waiting || x == t;
    }
  }

  lemma ReleaseInv(s: State)
    requires Inv(s)
    ensures Inv(Apply(s, Release))
  {
    if s.sem.waiting != [] {
      assert s.sem.waiting == [s.sem.waiting[0]] + s.sem.waiting[1..];
    }
  }

  lemma StepInv(s: State, a: Step)
    requires Inv(s) && Enabled(s, a)
    ensures Inv(Apply(s, a))
  {
    match a
    case Take(t, wait, flag, prio) => TakeInv(s, t, wait, flag, prio);
    case Release => ReleaseInv(s);
    case Timeout(t) => WithoutDistinct(s.sem.waiting, t);
    case _ =>
  }

  ghost predicate IsRun(run: seq<State>, steps: seq<Step>) {
    && |run| == |steps| + 1
    && (exists value :: run[0] == Initial(value))
    && (forall i :: 0 <= i < |steps| ==> Enabled(run[i], steps[i]) && run[i + 1] == Apply(run[i], steps[i]))
  }

  lemma {:induction false} RunInv(run: seq<State>, steps: seq<Step>, i: nat)
    requires IsRun(run, steps) && i < |run|
    ensures Inv(run[i])
  {
    if i > 0 {
      RunInv(run, steps, i - 1);
      StepInv(run[i - 1], steps[i - 1]);
    }
  }

  /** A unit is available only when nobody waits for one. */
  lemma AvailableMeansNobodyWaits(run: seq<State>, steps: seq<Step>, i: nat)
    requires IsRun(run, steps) && i < |run|
    ensures run[i].sem.value > 0 ==> run[i].sem.waiting == []
  {
    RunInv(run, steps, i);
  }

  ghost predicate NoReset(steps: seq<Step>) {
    forall i :: 0 <= i < |steps| ==> !steps[i].Reset?
  }

  ghost predicate NoOverflow(run: seq<State>, steps: seq<Step>, n: nat)
    requires |run| == |steps| + 1 && n <= |steps|
  {
    forall i :: 0 <= i < n ==> !(steps[i].Release? && run[i].sem.Overflows())
  }

  lemma {:induction false} OverflowsCounted(run: seq<State>, steps: seq<Step>, n: nat)
    requires IsRun(run, steps) && NoReset(steps) && n <= |steps|
    ensures run[n].overflows == 0 <==> NoOverflow(run, steps, n)
    ensures run[n].initial == run[0].initial && run[n].carried == 0
  {
    if n > 0 {
      OverflowsCounted(run, steps, n - 1);
      assert !steps[n - 1].Reset?;
      assert run[n] == Apply(run[n - 1], steps[n - 1]);
    }
  }

  /**
   Units are neither lost nor duplicated, in any interleaving, if and only if no release struck
   a semaphore that held 65535 units with nobody waiting.
   */
  lemma UnitsConserved(run: seq<State>, steps: seq<Step>, n: nat)
    requires IsRun(run, steps) && NoReset(steps) && n <= |steps|
    ensures run[0].initial + run[n].releases == run[n].sem.value + run[n].takes <==> NoOverflow(run, steps, n)
  {
    RunInv(run, steps, n);
    OverflowsCounted(run, steps, n);
  }

  /** Every unit handed to a waiter is on its way to it or has been returned by its take, once. */
  lemma GrantsReturned(run: seq<State>, steps: seq<Step>, n: nat)
    requires IsRun(run, steps) && NoReset(steps) && n <= |steps|
    ensures run[n].takes == run[n].immediate + run[n].returned + |run[n].granted|
  {
    RunInv(run, steps, n);
    OverflowsCounted(run, steps, n);
  }

  /** A run that loses units: one release too many. */
  lemma OverflowExample()
    ensures var s := Initial(LIMIT - 1);
            Enabled(s, Release) && Apply(s, Release).sem.value == 0 && Apply(s, Release).takes == 0
  {
  }

  /** A waiter stays on the list through a step unless it times out, gets a unit, or the semaphore is reset. */
  lemma WaiterLeaves(s: State, a: Step, t: Tid)
    requires Inv(s) && Enabled(s, a) && t in s.sem.waiting
    ensures var s' := Apply(s, a);
            t in s'.sem.waiting <==> a != Timeout(t) && !a.Reset? && t !in s'.granted
  {
    var w := s.sem.waiting;
    match a
    case Take(u, wait, flag, prio) =>
      if s.sem.value == 0 && wait {
        SuspendGate(Gate(w, {}), u, SuspendAt(w, prio, u, flag));
      }
    case Release => assert w == [w[0]] + w[1..];
    case _ =>
  }

  // ---------------------------------------------------------------- who is served first

  /** The number of steps after the last take by `t` among the first `i` steps; 0 if there was none. */
  ghost function Arrival(steps: seq<Step>, i: nat, t: Tid): (n: nat)
    requires i <= |steps|
    ensures n <= i
  {
    if i == 0 then 0 else
    if steps[i - 1].Take? && steps[i - 1].t == t then i else Arrival(steps, i - 1, t)
  }

  /** `x` is to be served before `y`. */
  ghost predicate Sooner(steps: seq<Step>, i: nat, flag: Flag, prio: Prios, x: Tid, y: Tid)
    requires i <= |steps|
  {
    var earlier := Arrival(steps, i, x) < Arrival(steps, i, y);
    match flag
    case Fifo => earlier
    case Prio => PrioOf(prio, x) < PrioOf(prio, y) || (PrioOf(prio, x) == PrioOf(prio, y) && earlier)
  }

  ghost predicate InTurn(steps: seq<Step>, i: nat, flag: Flag, prio: Prios, waiting: seq<Tid>)
    requires i <= |steps|
  {
    forall a, b :: 0 <= a < b < |waiting| ==> Sooner(steps, i, flag, prio, waiting[a], waiting[b])
  }

  /** A semaphore has one flag; the priorities stay as they are during the run. */
  ghost predicate Uniform(steps: seq<Step>, flag: Flag, prio: Prios) {
    forall j :: 0 <= j < |steps| && steps[j].Take? ==> steps[j].flag == flag && steps[j].prio == prio
  }

  lemma OldPair(steps: seq<Step>, i: nat, flag: Flag, prio: Prios, x: Tid, y: Tid)
    requires i < |steps| && Sooner(steps, i, flag, prio, x, y)
    requires steps[i].Take? ==> steps[i].t != x && steps[i].t != y
    ensures Sooner(steps, i + 1, flag, prio, x, y)
  {
  }

  lemma NewPair(steps: seq<Step>, i: nat, flag: Flag, prio: Prios, x: Tid, t: Tid)
    requires i < |steps| && steps[i].Take? && steps[i].t == t && x != t
    ensures flag.Fifo? || PrioOf(prio, x) <= PrioOf(prio, t) ==> Sooner(steps, i + 1, flag, prio, x, t)
    ensures flag.Prio? && PrioOf(prio, t) < PrioOf(prio, x) ==> Sooner(steps, i + 1, flag, prio, t, x)
  {
  }

  /** The newcomer comes behind everybody it is not more urgent than, and in front of the others. */
  lemma JoinedInTurn(steps: seq<Step>, i: nat, flag: Flag, prio: Prios, waiting: seq<Tid>, k: nat, t: Tid)
    requires i < |steps| && steps[i].Take? && steps[i].t == t && t !in waiting
    requires InTurn(steps, i, flag, prio, waiting) && k <= |waiting|
    requires forall a :: 0 <= a < k ==> flag.Fifo? || PrioOf(prio, waiting[a]) <= PrioOf(prio, t)
    requires forall a :: k <= a < |waiting| ==> flag.Prio? && PrioOf(prio, t) < PrioOf(prio, waiting[a])
    ensures InTurn(steps, i + 1, flag, prio, Inserted(waiting, k, t))
  {
    var now := Inserted(waiting, k, t);
    forall a, b | 0 <= a < b < |now|
      ensures Sooner(steps, i + 1, flag, prio, now[a], now[b])
    {
      if a == k {
        assert now[b] == waiting[b - 1] && now[b] in waiting;
        NewPair(steps, i, flag, prio, now[b], t);
      } else {
        var x := if a < k then a else a - 1;
        assert now[a] == waiting[x] && now[a] in waiting;
        if b == k {
          NewPair(steps, i, flag, prio, now[a], t);
        } else {
          var y := if b < k then b else b - 1;
          assert now[b] == waiting[y] && now[b] in waiting;
          OldPair(steps, i, flag, prio, now[a], now[b]);
        }
      }
    }
  }

  /** Behind the place found, everybody is less urgent. */
  lemma PlaceInTurn(steps: seq<Step>, i: nat, flag: Flag, prio: Prios, waiting: seq<Tid>, t: Tid)
    requires i <= |steps| && InTurn(steps, i, flag, prio, waiting)
    ensures var k := SuspendAt(waiting, prio, t, flag);
            && (forall a :: 0 <= a < k ==> flag.Fifo? || PrioOf(prio, waiting[a]) <= PrioOf(prio, t))
            && (forall a :: k <= a < |waiting| ==> flag.Prio? && PrioOf(prio, t) < PrioOf(prio, waiting[a]))
  {
    var k := SuspendAt(waiting, prio, t, flag);
    if flag.Prio? {
      forall a | k < a < |waiting|
        ensures PrioOf(prio, t) < PrioOf(prio, waiting[a])
      {
        assert Sooner(steps, i, flag, prio, waiting[k], waiting[a]);
      }
    }
  }

  lemma RemovedInTurn(steps: seq<Step>, i: nat, flag: Flag, prio: Prios, waiting: seq<Tid>, k: nat)
    requires i < |steps| && InTurn(steps, i, flag, prio, waiting) && k < |waiting|
    requires steps[i].Take? ==> steps[i].t !in waiting
    ensures InTurn(steps, i + 1, flag, prio, waiting) && InTurn(steps, i + 1, flag, prio, Removed(waiting, k))
  {
    forall a, b | 0 <= a < b < |waiting|
      ensures Sooner(steps, i + 1, flag, prio, waiting[a], waiting[b])
    {
      assert waiting[a] in waiting && waiting[b] in waiting;
      OldPair(steps, i, flag, prio, waiting[a], waiting[b]);
    }
    var now := Removed(waiting, k);
    assert forall a :: 0 <= a < |now| ==> now[a] == waiting[if a < k then a else a + 1];
  }

  lemma StepInTurn(s: State, steps: seq<Step>, i: nat, flag: Flag, prio: Prios)
    requires i < |steps| && Inv(s) && Enabled(s, steps[i]) && Uniform(steps, flag, prio)
    requires InTurn(steps, i, flag, prio, s.sem.waiting)
    ensures InTurn(steps, i + 1, flag, prio, Apply(s, steps[i]).sem.waiting)
  {
    var w := s.sem.waiting;
    if w != [] {
      RemovedInTurn(steps, i, flag, prio, w, 0);
      assert Removed(w, 0) == w[1..];
    }
    match steps[i]
    case Take(t, wait, _, _) =>
      if s.sem.value == 0 && wait {
        PlaceInTurn(steps, i, flag, prio, w, t);
        JoinedInTurn(steps, i, flag, prio, w, SuspendAt(w, prio, t, flag), t);
      }
    case Timeout(t) =>
      var k :| 0 <= k < |w| && w[k] == t;
      WithoutRemoves(w, t, k);
      RemovedInTurn(steps, i, flag, prio, w, k);
    case _ =>
  }

  lemma {:induction false} RunInTurn(run: seq<State>, steps: seq<Step>, i: nat, flag: Flag, prio: Prios)
    requires IsRun(run, steps) && i <= |steps| && Uniform(steps, flag, prio)
    ensures InTurn(steps, i, flag, prio, run[i].sem.waiting)
  {
    if i > 0 {
      RunInTurn(run, steps, i - 1, flag, prio);
      RunInv(run, steps, i - 1);
      StepInTurn(run[i - 1], steps, i - 1, flag, prio);
    }
  }

  /** Step `i` takes `t` and nobody else off the list, and nobody there was to be served before it. */
  ghost predicate Serves(run: seq<State>, steps: seq<Step>, i: nat, flag: Flag, prio: Prios, t: Tid)
    requires i < |steps| < |run|
  {
    && t in run[i].sem.waiting && t !in run[i].granted && run[i + 1].granted == run[i].granted + {t}
    && (forall x :: x in run[i + 1].sem.waiting <==> x in run[i].sem.waiting && x != t)
    && (forall x :: x in run[i].sem.waiting && x != t ==> Sooner(steps, i, flag, prio, t, x))
  }

  /**
   Over every run: a release serves exactly one of the waiters, the one that arrived first, or for
   a PRIO semaphore the one that arrived first among the most urgent ones.
   */
  lemma ServedInTurn(run: seq<State>, steps: seq<Step>, i: nat, flag: Flag, prio: Prios)
    requires IsRun(run, steps) && i < |steps| && Uniform(steps, flag, prio)
    requires steps[i].Release? && run[i].sem.waiting != []
    ensures exists t :: Serves(run, steps, i, flag, prio, t)
  {
    RunInv(run, steps, i);
    RunInTurn(run, steps, i, flag, prio);
    var w := run[i].sem.waiting;
    assert w == [w[0]] + w[1..];
    forall x | x in w && x != w[0]
      ensures Sooner(steps, i, flag, prio, w[0], x)
    {
      var b :| 0 <= b < |w| && w[b] == x;
    }
    assert run[i + 1].sem.waiting == w[1..];
    assert forall x :: x in w <==> x == w[0] || x in w[1..];
    assert Serves(run, steps, i, flag, prio, w[0]);
  }
}
