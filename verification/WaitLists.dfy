/**
 The lists of threads suspended on a kernel object, and the accounting of wake-ups.
 */
module WaitLists {
  import opened Links

  type Tid = nat

  /** Thread priorities; a smaller number is more urgent. */
  type Prios = map<Tid, nat>

  function PrioOf(prio: Prios, t: Tid): nat {
    if t in prio then prio[t] else 0
  }

  /** RT_IPC_FLAG_FIFO and RT_IPC_FLAG_PRIO. */
  datatype Flag = Fifo | Prio

  /** How many leading waiters are at least as urgent as priority `p`. */
  function FirstWorse(waiting: seq<Tid>, prio: Prios, p: nat): (k: nat)
    ensures k <= |waiting|
    ensures forall i :: 0 <= i < k ==> PrioOf(prio, waiting[i]) <= p
    ensures k < |waiting| ==> p < PrioOf(prio, waiting[k])
  {
    if waiting == [] || p < PrioOf(prio, waiting[0]) then 0 else 1 + FirstWorse(waiting[1..], prio, p)
  }

  function SuspendAt(waiting: seq<Tid>, prio: Prios, t: Tid, flag: Flag): (k: nat)
    ensures k <= |waiting|
  {
    if flag.Fifo? then |waiting| else FirstWorse(waiting, prio, PrioOf(prio, t))
  }

  ghost predicate Sorted(waiting: seq<Tid>, prio: Prios) {
    forall i, j :: 0 <= i < j < |waiting| ==> PrioOf(prio, waiting[i]) <= PrioOf(prio, waiting[j])
  }

  /**
   Suspending by priority keeps the list sorted, keeps every other pair in its order, and
   puts the newcomer behind all waiters of its own priority.
   */
  lemma SuspendSorted(waiting: seq<Tid>, prio: Prios, t: Tid)
    requires Sorted(waiting, prio)
    ensures var k := SuspendAt(waiting, prio, t, Prio);
            && Sorted(Inserted(waiting, k, t), prio)
            && (forall i :: 0 <= i < k ==> PrioOf(prio, waiting[i]) <= PrioOf(prio, t))
            && (forall i :: k <= i < |waiting| ==> PrioOf(prio, t) < PrioOf(prio, waiting[i]))
  {
    var k := SuspendAt(waiting, prio, t, Prio);
    InsertedSorted(waiting, prio, t, k);
  }

  /** `t` has joined the list: at the end, or by priority in front of the first less urgent waiter. */
  ghost predicate Joins(was: seq<Tid>, now: seq<Tid>, t: Tid, flag: Flag, prio: Prios) {
    exists k :: 0 <= k <= |was| && now == Inserted(was, k, t) && PlaceOk(was, k, PrioOf(prio, t), flag, prio)
  }

  ghost predicate PlaceOk(was: seq<Tid>, k: nat, p: nat, flag: Flag, prio: Prios)
    requires k <= |was|
  {
    match flag
    case Fifo => k == |was|
    case Prio =>
      && (forall i :: 0 <= i < k ==> PrioOf(prio, was[i]) <= p)
      && (k < |was| ==> p < PrioOf(prio, was[k]))
  }

  lemma SuspendJoins(waiting: seq<Tid>, prio: Prios, t: Tid, flag: Flag)
    ensures Joins(waiting, Inserted(waiting, SuspendAt(waiting, prio, t, flag), t), t, flag, prio)
  {
    assert PlaceOk(waiting, SuspendAt(waiting, prio, t, flag), PrioOf(prio, t), flag, prio);
  }

  ghost predicate Before(s: seq<Tid>, x: Tid, y: Tid) {
    exists i, j :: 0 <= i < j < |s| && s[i] == x && s[j] == y
  }

  /**
   What joining means for two threads of the list: a FIFO list ends with the newcomer, a sorted
   PRIO list has it behind exactly those that are at least as urgent, and nobody else moves.
   */
  lemma JoinsMeans(was: seq<Tid>, now: seq<Tid>, t: Tid, flag: Flag, prio: Prios, x: Tid, y: Tid)
    requires Joins(was, now, t, flag, prio) && Distinct(was) && t !in was && x in was && y in was
    requires flag.Prio? ==> Sorted(was, prio)
    ensures Distinct(now) && t in now && x in now
    ensures Before(now, x, t) <==> flag.Fifo? || PrioOf(prio, x) <= PrioOf(prio, t)
    ensures Before(now, x, y) <==> Before(was, x, y)
    ensures flag.Prio? ==> Sorted(now, prio)
  {
    var k :| 0 <= k <= |was| && now == Inserted(was, k, t) && PlaceOk(was, k, PrioOf(prio, t), flag, prio);
    var i :| 0 <= i < |was| && was[i] == x;
    var j :| 0 <= j < |was| && was[j] == y;
    InsertedPairs(was, k, t, i, j);
    PlaceIff(was, k, t, flag, prio, i);
    if flag.Prio? {
      InsertedSorted(was, prio, t, k);
    }
  }

  lemma PlaceIff(was: seq<Tid>, k: nat, t: Tid, flag: Flag, prio: Prios, i: nat)
    requires k <= |was| && i < |was| && PlaceOk(was, k, PrioOf(prio, t), flag, prio)
    requires flag.Prio? ==> Sorted(was, prio)
    ensures i < k <==> flag.Fifo? || PrioOf(prio, was[i]) <= PrioOf(prio, t)
  {
    if flag.Prio? && k < i {
      assert PrioOf(prio, was[k]) <= PrioOf(prio, was[i]);
    }
  }

  lemma InsertedPairs(was: seq<Tid>, k: nat, t: Tid, i: nat, j: nat)
    requires Distinct(was) && t !in was && k <= |was| && i < |was| && j < |was|
    ensures var now := Inserted(was, k, t);
            && Distinct(now) && t in now && was[i] in now
            && (Before(now, was[i], t) <==> i < k)
            && (Before(now, was[i], was[j]) <==> Before(was, was[i], was[j]))
  {
    var now := Inserted(was, k, t);
    InsertedDistinct(was, k, t);
    assert now[k] == t && now[Shifted(k, i)] == was[i] && now[Shifted(k, j)] == was[j];
    BeforeAt(was, i, j);
    BeforeAt(now, Shifted(k, i), Shifted(k, j));
    BeforeAt(now, Shifted(k, i), k);
  }

  lemma BeforeAt(s: seq<Tid>, i: nat, j: nat)
    requires Distinct(s) && i < |s| && j < |s|
    ensures Before(s, s[i], s[j]) <==> i < j
  {
  }

  lemma InsertedDistinct(was: seq<Tid>, k: nat, t: Tid)
    requires Distinct(was) && t !in was && k <= |was|
    ensures Distinct(Inserted(was, k, t))
  {
    var now := Inserted(was, k, t);
    forall i, j | 0 <= i < j < |now|
      ensures now[i] != now[j]
    {
      assert now[i] == if i < k then was[i] else if i == k then t else was[i - 1];
      assert now[j] == if j < k then was[j] else if j == k then t else was[j - 1];
    }
  }

  /** Where the member at position `a` is after an insertion at `k`. */
  function Shifted(k: nat, a: nat): nat {
    if a < k then a else a + 1
  }

  lemma InsertedSorted(waiting: seq<Tid>, prio: Prios, t: Tid, k: nat)
    requires Sorted(waiting, prio) && k <= |waiting| && PlaceOk(waiting, k, PrioOf(prio, t), Prio, prio)
    ensures Sorted(Inserted(waiting, k, t), prio)
  {
    var s := Inserted(waiting, k, t);
    forall i, j | 0 <= i < j < |s|
      ensures PrioOf(prio, s[i]) <= PrioOf(prio, s[j])
    {
      assert s[i] == if i < k then waiting[i] else if i == k then t else waiting[i - 1];
      assert s[j] == if j < k then waiting[j] else if j == k then t else waiting[j - 1];
    }
  }

  /** The search loop of rt_ipc_list_suspend. */
  method FindPlace(waiting: seq<Tid>, prio: Prios, p: nat) returns (n: nat)
    ensures n == FirstWorse(waiting, prio, p)
  {
    n := 0;
    assert waiting[0..] == waiting;
    while n < |waiting| && !(p < PrioOf(prio, waiting[n]))
      invariant n <= |waiting|
      invariant FirstWorse(waiting, prio, p) == n + FirstWorse(waiting[n..], prio, p)
    {
      n := n + 1;
    }
  }

  /** A suspend list, changed in place. */
  class WaitList {
    var waiting: seq<Tid>

    constructor ()
      ensures waiting == []
    {
      waiting := [];
    }

    /** rt_ipc_list_suspend. */
    method Suspend(t: Tid, flag: Flag, prio: Prios)
      modifies this
      ensures waiting == Inserted(old(waiting), SuspendAt(old(waiting), prio, t, flag), t)
      ensures Joins(old(waiting), waiting, t, flag, prio)
    {
      SuspendJoins(waiting, prio, t, flag);
      match flag
      case Fifo =>
        waiting := waiting + [t];
      case Prio =>
        var n := FindPlace(waiting, prio, PrioOf(prio, t));
        waiting := waiting[..n] + [t] + waiting[n..];
    }

    /** rt_ipc_list_resume_all empties the list from the front. */
    method ResumeAll() returns (resumed: seq<Tid>)
      modifies this
      ensures waiting == [] && resumed == old(waiting)
    {
      resumed := [];
      while waiting != []
        invariant resumed + waiting == old(waiting)
        decreases |waiting|
      {
        resumed := resumed + [waiting[0]];
        waiting := waiting[1..];
      }
    }
  }

  /**
   One side of a blocking object: the suspended threads, and the threads that were resumed
   without an error and have not yet looked at the object again.
   */
  datatype Gate = Gate(waiting: seq<Tid>, woken: set<Tid>) {

    ghost predicate Valid() {
      && Distinct(waiting)
      && (forall t :: t in waiting ==> t !in woken)
    }

    /** Nothing is lost: whoever is still suspended could not be served by what is left over. */
    ghost predicate NoLostWakeup(available: nat) {
      waiting != [] ==> available <= |woken|
    }

    ghost predicate Free(t: Tid) {
      t !in waiting
    }

    ghost function Suspend(t: Tid, k: nat): Gate
      requires k <= |waiting|
    {
      Gate(Inserted(waiting, k, t), woken - {t})
    }

    /** rt_ipc_list_resume, if there is anyone to resume. */
    ghost function Signal(): Gate {
      if waiting == [] then this else Gate(waiting[1..], woken + {waiting[0]})
    }

    /** A timeout takes a thread off the list with an error. */
    ghost function Expire(t: Tid): Gate {
      Gate(Without(waiting, t), woken)
    }

    /** The thread looks at the object again, or leaves. */
    ghost function Leave(t: Tid): Gate {
      Gate(waiting, woken - {t})
    }

    /** rt_ipc_list_resume_all: everybody leaves with an error. */
    ghost function FailAll(): Gate {
      Gate([], woken)
    }
  }

  /** A thread, resumed before or not, has joined the list. */
  ghost predicate Joined(g: Gate, g': Gate, t: Tid, flag: Flag, prio: Prios) {
    && Joins(g.waiting, g'.waiting, t, flag, prio)
    && t !in g'.woken && forall x :: x != t ==> (x in g'.woken <==> x in g.woken)
  }

  /** A thread, resumed before or not, has looked at the object and goes its way. */
  ghost predicate Departed(g: Gate, g': Gate, t: Tid) {
    g'.waiting == g.waiting && t !in g'.woken && forall x :: x != t ==> (x in g'.woken <==> x in g.woken)
  }

  /** The first thread of the list, if there is one, has been resumed. */
  ghost predicate FirstResumed(g: Gate, g': Gate) {
    if g.waiting == [] then g' == g
    else g.waiting == [g.waiting[0]] + g'.waiting && g'.woken == g.woken + {g.waiting[0]}
  }

  lemma GateMoves(g: Gate, t: Tid, flag: Flag, prio: Prios)
    ensures Joined(g, g.Suspend(t, SuspendAt(g.waiting, prio, t, flag)), t, flag, prio)
    ensures Departed(g, g.Leave(t), t) && FirstResumed(g, g.Signal())
  {
    SuspendJoins(g.waiting, prio, t, flag);
  }

  function Without(s: seq<Tid>, t: Tid): (r: seq<Tid>)
    ensures forall x :: x in r <==> x in s && x != t
    ensures |r| <= |s|
  {
    if s == [] then [] else (if s[0] == t then [] else [s[0]]) + Without(s[1..], t)
  }

  lemma {:induction false} WithoutDistinct(s: seq<Tid>, t: Tid)
    requires Distinct(s)
    ensures Distinct(Without(s, t))
    ensures t in s ==> |Without(s, t)| == |s| - 1
    ensures t !in s ==> Without(s, t) == s
  {
    if s != [] {
      var r := Without(s[1..], t);
      WithoutDistinct(s[1..], t);
      assert s == [s[0]] + s[1..];
      if s[0] == t {
        assert t !in s[1..];
      } else {
        assert s[0] !in r;
      }
    }
  }

  lemma {:induction false} WithoutAbsent(s: seq<Tid>, t: Tid)
    requires t !in s
    ensures Without(s, t) == s
  {
    if s != [] {
      assert s[0] in s;
      WithoutAbsent(s[1..], t);
    }
  }

  lemma WithoutCons(x: Tid, rest: seq<Tid>, t: Tid)
    ensures Without([x] + rest, t) == (if x == t then [] else [x]) + Without(rest, t)
  {
    assert ([x] + rest)[1..] == rest;
  }

  lemma {:induction false} WithoutAppend(s: seq<Tid>, t: Tid, u: Tid)
    ensures Without(s + [u], t) == Without(s, t) + if u == t then [] else [u]
  {
    if s == [] {
      WithoutCons(u, [], t);
      assert [] + [u] == [u] + [];
    } else {
      var x, rest := s[0], s[1..];
      assert s == [x] + rest && s + [u] == [x] + (rest + [u]);
      WithoutCons(x, rest, t);
      WithoutCons(x, rest + [u], t);
      WithoutAppend(rest, t, u);
      ConcatThree(if x == t then [] else [x], Without(rest, t), if u == t then [] else [u]);
    }
  }

  lemma ConcatThree(a: seq<Tid>, b: seq<Tid>, c: seq<Tid>)
    ensures a + (b + c) == a + b + c
  {
  }

  /** Of a list without repetitions exactly that member goes, and the others keep their order. */
  lemma {:induction false} WithoutRemoves(s: seq<Tid>, t: Tid, k: nat)
    requires Distinct(s) && k < |s| && s[k] == t
    ensures Without(s, t) == Removed(s, k)
  {
    if k == 0 {
      assert s == [t] + s[1..];
      assert t !in s[1..];
      WithoutDistinct(s[1..], t);
    } else {
      WithoutRemoves(s[1..], t, k - 1);
      assert Removed(s, k) == [s[0]] + Removed(s[1..], k - 1);
    }
  }

  lemma SuspendGate(g: Gate, t: Tid, k: nat)
    requires g.Valid() && t !in g.waiting && k <= |g.waiting|
    ensures g.Suspend(t, k).Valid() && g.Suspend(t, k).NoLostWakeup(0)
    ensures forall x :: x in g.Suspend(t, k).waiting <==> x in g.waiting || x == t
  {
    assert forall x :: x in g.waiting <==> x in g.waiting[..k] || x in g.waiting[k..] by {
      assert g.waiting == g.waiting[..k] + g.waiting[k..];
    }
  }

  lemma FirstGoes(g: Gate, t: Tid)
    requires g.Valid()
    ensures t in g.waiting ==> (t in g.Signal().waiting <==> t !in g.Signal().woken)
  {
    if g.waiting != [] {
      assert g.waiting == [g.waiting[0]] + g.waiting[1..];
    }
  }

  lemma OthersWait(g: Gate, u: Tid, k: nat, t: Tid)
    requires g.Valid() && k <= |g.waiting| && t in g.waiting
    ensures t in g.Suspend(u, k).waiting && t !in g.Suspend(u, k).woken
  {
    assert g.waiting == g.waiting[..k] + g.waiting[k..];
  }

  /** One more unit, one more wake-up. */
  lemma SignalGate(g: Gate, available: nat)
    requires g.Valid() && g.NoLostWakeup(available)
    ensures g.Signal().Valid() && g.Signal().NoLostWakeup(available + 1)
    ensures forall x :: x in g.Signal().waiting ==> x in g.waiting
    ensures forall x :: x in g.Signal().woken ==> x in g.woken || x in g.waiting
  {
    if g.waiting != [] {
      assert g.waiting[0] !in g.woken;
      assert |g.woken + {g.waiting[0]}| == |g.woken| + 1;
    }
  }

  /** One unit less, at most one woken thread less. */
  lemma LeaveGate(g: Gate, t: Tid, available: nat)
    requires g.Valid() && g.NoLostWakeup(available)
    ensures g.Leave(t).Valid()
    ensures available > 0 ==> g.Leave(t).NoLostWakeup(available - 1)
    ensures available == 0 ==> g.Leave(t).NoLostWakeup(0)
    ensures t !in g.woken ==> g.Leave(t) == g
  {
    if t in g.woken {
      assert |g.woken - {t}| == |g.woken| - 1;
    }
  }

  lemma ExpireGate(g: Gate, t: Tid, available: nat)
    requires g.Valid() && g.NoLostWakeup(available)
    ensures g.Expire(t).Valid() && g.Expire(t).NoLostWakeup(available)
  {
    WithoutDistinct(g.waiting, t);
  }
}
