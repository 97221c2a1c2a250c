/**
 The recursive mutex of ipc.c with priority inheritance, over any number of threads and mutexes.
 Smaller numbers are more urgent priorities.
 */
module Mutex {
  import opened Links
  import opened WaitLists

  type Mid = nat

  const HOLD_LIMIT: nat := 256   // hold is an 8-bit counter
  const NOBODY: nat := 0xFF      // original_priority of a mutex without owner

  datatype Owner = None | Thread(t: Tid)

  datatype Mutex = Mutex(value: nat, owner: Owner, original: nat, hold: nat, waiting: seq<Tid>, flag: Flag)

  datatype System = System(prio: Prios, mutexes: map<Mid, Mutex>)

  datatype Step = Take(t: Tid, m: Mid, wait: bool) | Release(t: Tid, m: Mid) | Timeout(t: Tid, m: Mid)

  ghost predicate Enabled(s: System, a: Step) {
    && a.t in s.prio && a.m in s.mutexes
    && (if a.Timeout? then a.t in s.mutexes[a.m].waiting else !Waits(s, a.t))
  }

  ghost predicate Waits(s: System, t: Tid) {
    exists m :: m in s.mutexes && t in s.mutexes[m].waiting
  }

  ghost predicate Owns(s: System, t: Tid, m: Mid) {
    m in s.mutexes && s.mutexes[m].owner == Thread(t)
  }

  /** rt_mutex_take up to the point where it returns or suspends the caller. */
  function TakeStep(s: System, t: Tid, m: Mid, wait: bool): System
    requires t in s.prio && m in s.mutexes
  {
    var mu := s.mutexes[m];
    if mu.owner == Thread(t) then
      s.(mutexes := s.mutexes[m := mu.(hold := (mu.hold + 1) % HOLD_LIMIT)])
    else if mu.value > 0 then
      s.(mutexes := s.mutexes[m := mu.(value := mu.value - 1, owner := Thread(t), original := s.prio[t],
                                       hold := (mu.hold + 1) % HOLD_LIMIT)])
    else if !wait then s
    else
      var k := SuspendAt(mu.waiting, Boost(s, t, mu.owner), t, mu.flag);
      System(Boost(s, t, mu.owner), s.mutexes[m := mu.(waiting := mu.waiting[..k] + [t] + mu.waiting[k..])])
  }

  /** The owner inherits the priority of a more urgent waiter. */
  function Boost(s: System, t: Tid, owner: Owner): Prios
    requires t in s.prio
  {
    if owner.Thread? && owner.t in s.prio && s.prio[t] < s.prio[owner.t] then s.prio[owner.t := s.prio[t]] else s.prio
  }

  function ReleaseStep(s: System, t: Tid, m: Mid): System
    requires t in s.prio && m in s.mutexes
  {
    var mu := s.mutexes[m];
    if mu.owner != Thread(t) then s                       // -RT_ERROR
    else
      var hold := (mu.hold + HOLD_LIMIT - 1) % HOLD_LIMIT;
      if hold != 0 then s.(mutexes := s.mutexes[m := mu.(hold := hold)])
      else
        var prio := s.prio[t := mu.original];
        if mu.waiting != [] then
          var next := mu.waiting[0];
          System(prio, s.mutexes[m := mu.(owner := Thread(next), original := PrioOf(prio, next),
                                          hold := 1, waiting := mu.waiting[1..])])
        else
          System(prio, s.mutexes[m := mu.(value := mu.value + 1, owner := None, original := NOBODY, hold := 0)])
  }

  function Apply(s: System, a: Step): System
    requires a.t in s.prio && a.m in s.mutexes
  {
    match a
    case Take(t, m, wait) => TakeStep(s, t, m, wait)
    case Release(t, m) => ReleaseStep(s, t, m)
    case Timeout(t, m) =>
      var mu := s.mutexes[m];
      s.(mutexes := s.mutexes[m := mu.(waiting := Without(mu.waiting, t))])
  }

  // ---------------------------------------------------------------- ownership

  /** value is 1 exactly without owner, exactly with hold 0; waiters exist only while owned. */
  ghost predicate Consistent(mu: Mutex) {
    && mu.value <= 1 && mu.hold < HOLD_LIMIT
    && (mu.value == 1 <==> mu.owner == None)
    && (mu.hold == 0 <==> mu.owner == None)
    && (mu.owner == None ==> mu.waiting == [])
    && Distinct(mu.waiting)
    && (mu.owner.Thread? ==> mu.owner.t !in mu.waiting)
  }

  ghost predicate Sound(s: System) {
    && (forall m :: m in s.mutexes ==> Consistent(s.mutexes[m]))
    && (forall m :: m in s.mutexes && s.mutexes[m].owner.Thread? ==> s.mutexes[m].owner.t in s.prio)
    && (forall m, t :: m in s.mutexes && t in s.mutexes[m].waiting ==> t in s.prio)
  }

  /** The recursion depth an 8-bit counter cannot represent. */
  ghost predicate HoldOverflows(s: System, a: Step)
    requires a.m in s.mutexes
  {
    a.Take? && s.mutexes[a.m].owner == Thread(a.t) && s.mutexes[a.m].hold == HOLD_LIMIT - 1
  }

  lemma StepMutex(s: System, a: Step)
    requires Sound(s) && Enabled(s, a)
    ensures Consistent(Apply(s, a).mutexes[a.m]) <==> !HoldOverflows(s, a)
  {
    var mu := s.mutexes[a.m];
    var mu' := Apply(s, a).mutexes[a.m];
    assert Consistent(mu);
    match a
    case Take(t, m, wait) =>
      if mu.owner != Thread(t) && mu.value == 0 && wait {
        var k := SuspendAt(mu.waiting, Boost(s, t, mu.owner), t, mu.flag);
        assert t !in mu.waiting;
        SuspendGate(Gate(mu.waiting, {}), t, k);
        assert mu'.waiting == Gate(mu.waiting, {}).Suspend(t, k).waiting;
      }
    case Release(t, m) =>
      if mu.waiting != [] {
        assert mu.waiting == [mu.waiting[0]] + mu.waiting[1..];
      }
    case Timeout(t, m) =>
      WithoutDistinct(mu.waiting, t);
  }

  /** What every step has in common: one mutex and at most the priority of its owner change. */
  ghost predicate Effect(s: System, a: Step, s': System)
    requires a.m in s.mutexes
  {
    && a.m in s'.mutexes && s'.mutexes == s.mutexes[a.m := s'.mutexes[a.m]]
    && s'.prio.Keys == s.prio.Keys
    && var mu, mu' := s.mutexes[a.m], s'.mutexes[a.m];
    && (forall x :: mu.owner != Thread(x) ==> PrioOf(s'.prio, x) == PrioOf(s.prio, x))
    && (forall x :: mu.owner == Thread(x) && mu'.owner != Thread(x) ==> PrioOf(s'.prio, x) == mu.original)
    && (forall x :: x in mu'.waiting ==> x in mu.waiting || x == a.t)
    && (forall x :: mu'.owner == Thread(x) ==>
        x !in mu'.waiting && (mu.owner == Thread(x) || x in mu.waiting || x == a.t))
  }

  lemma TakeEffect(s: System, a: Step)
    requires Sound(s) && Enabled(s, a) && a.Take?
    ensures Effect(s, a, Apply(s, a))
  {
    var mu := s.mutexes[a.m];
    assert Consistent(mu);
    if mu.owner != Thread(a.t) && mu.value == 0 && a.wait {
      SuspendedMembers(mu.waiting, Boost(s, a.t, mu.owner), a.t, mu.flag);
    }
  }

  lemma SuspendedMembers(waiting: seq<Tid>, prio: Prios, t: Tid, flag: Flag)
    ensures var k := SuspendAt(waiting, prio, t, flag);
            forall x :: x in waiting[..k] + [t] + waiting[k..] ==> x in waiting || x == t
  {
  }

  lemma ReleaseEffect(s: System, a: Step)
    requires Sound(s) && Enabled(s, a) && a.Release?
    ensures Effect(s, a, Apply(s, a))
  {
    var mu := s.mutexes[a.m];
    assert Consistent(mu);
    if mu.waiting != [] {
      assert mu.waiting == [mu.waiting[0]] + mu.waiting[1..];
    }
  }

  lemma StepEffect(s: System, a: Step)
    requires Sound(s) && Enabled(s, a)
    ensures Effect(s, a, Apply(s, a))
  {
    match a
    case Take(_, _, _) => TakeEffect(s, a);
    case Release(_, _) => ReleaseEffect(s, a);
    case Timeout(_, _) => assert Consistent(s.mutexes[a.m]);
  }

  lemma SoundFrom(s: System, a: Step, s': System)
    requires Sound(s) && a.m in s.mutexes && a.t in s.prio && Effect(s, a, s')
    ensures Sound(s') <==> Consistent(s'.mutexes[a.m])
  {
    var mu, mu' := s.mutexes[a.m], s'.mutexes[a.m];
    assert forall x :: x in mu'.waiting ==> x in s'.prio;
    assert mu'.owner.Thread? ==> mu'.owner.t in s'.prio;
  }

  /** Every step keeps all mutexes consistent, if and only if it is not the overflowing take. */
  lemma StepSound(s: System, a: Step)
    requires Sound(s) && Enabled(s, a)
    ensures Sound(Apply(s, a)) <==> !HoldOverflows(s, a)
  {
    StepMutex(s, a);
    StepEffect(s, a);
    SoundFrom(s, a, Apply(s, a));
  }

  /** Nobody but the owner can end an ownership: a successful take leaves a sole owner. */
  lemma OwnershipStable(s: System, a: Step, t: Tid, m: Mid)
    requires Sound(s) && Enabled(s, a) && Owns(s, t, m)
    requires a != Release(t, m)
    ensures Owns(Apply(s, a), t, m)
  {
  }

  /** A take that does not suspend, fail or recurse makes the caller the owner. */
  lemma TakeGrants(s: System, t: Tid, m: Mid, wait: bool)
    requires Sound(s) && Enabled(s, Take(t, m, wait))
    ensures var s' := TakeStep(s, t, m, wait);
            Owns(s', t, m) <==> (Owns(s, t, m) || s.mutexes[m].value > 0)
  {
  }

  /** A waiter leaves the list by its own time-out or as the owner of the mutex. */
  lemma WaiterLeaves(s: System, a: Step, t: Tid, m: Mid)
    requires Sound(s) && Enabled(s, a) && m in s.mutexes && t in s.mutexes[m].waiting
    ensures var s' := Apply(s, a);
            t in s'.mutexes[m].waiting <==> a != Timeout(t, m) && !Owns(s', t, m)
  {
    var mu, mu' := s.mutexes[a.m], Apply(s, a).mutexes[a.m];
    assert Consistent(s.mutexes[m]);
    if a.Take? && mu.owner != Thread(a.t) && mu.value == 0 && a.wait {
      var k := SuspendAt(mu.waiting, Boost(s, a.t, mu.owner), a.t, mu.flag);
      assert mu.waiting == mu.waiting[..k] + mu.waiting[k..];
    } else if a.Release? && mu.waiting != [] {
      assert mu.waiting == [mu.waiting[0]] + mu.waiting[1..];
    }
  }

  // ---------------------------------------------------------------- priority inheritance

  ghost predicate HoldsNone(s: System, t: Tid) {
    forall m :: m in s.mutexes ==> s.mutexes[m].owner != Thread(t)
  }

  /** No waiter of the mutex is more urgent than its owner. */
  ghost predicate Dominates(prio: Prios, mu: Mutex) {
    mu.owner.Thread? ==>
      forall i :: 0 <= i < |mu.waiting| ==> PrioOf(prio, mu.owner.t) <= PrioOf(prio, mu.waiting[i])
  }

  ghost predicate Good(prio: Prios, base: Prios, mu: Mutex) {
    && mu.flag.Prio?
    && Sorted(mu.waiting, prio)
    && Dominates(prio, mu)
    && (mu.owner.Thread? ==> mu.original == PrioOf(base, mu.owner.t) && PrioOf(prio, mu.owner.t) <= mu.original)
  }

  /** Who holds or waits for something holds or waits for one thing only. */
  ghost predicate OneAtATime(s: System) {
    && (forall m, n :: m in s.mutexes && n in s.mutexes && m != n && s.mutexes[m].owner.Thread? ==>
        s.mutexes[m].owner != s.mutexes[n].owner)
    && (forall m, i :: m in s.mutexes && 0 <= i < |s.mutexes[m].waiting| ==> HoldsNone(s, s.mutexes[m].waiting[i]))
    && (forall m, n, i :: m in s.mutexes && n in s.mutexes && m != n && 0 <= i < |s.mutexes[m].waiting| ==>
        s.mutexes[m].waiting[i] !in s.mutexes[n].waiting)
  }

  ghost predicate Inherits(s: System, base: Prios) {
    && base.Keys == s.prio.Keys
    && OneAtATime(s)
    && (forall m :: m in s.mutexes ==> Good(s.prio, base, s.mutexes[m]))
    && (forall t :: t in s.prio && HoldsNone(s, t) ==> s.prio[t] == base[t])
  }

  /** The discipline: a thread that takes a mutex holds no other one. */
  ghost predicate Disciplined(s: System, a: Step) {
    a.Take? ==> forall m :: m in s.mutexes && m != a.m ==> s.mutexes[m].owner != Thread(a.t)
  }

  /** A mutex does not notice priority changes of threads it does not know. */
  lemma GoodFrame(prio: Prios, prio': Prios, base: Prios, mu: Mutex)
    requires Good(prio, base, mu)
    requires mu.owner.Thread? ==> PrioOf(prio', mu.owner.t) == PrioOf(prio, mu.owner.t)
    requires forall i :: 0 <= i < |mu.waiting| ==> PrioOf(prio', mu.waiting[i]) == PrioOf(prio, mu.waiting[i])
    ensures Good(prio', base, mu)
  {
  }

  /** The mutexes other than the one stepped on. */
  lemma OthersGood(s: System, prio': Prios, base: Prios, stepped: Mid, m: Mid)
    requires Inherits(s, base) && m in s.mutexes && stepped in s.mutexes && m != stepped
    requires forall x :: s.mutexes[stepped].owner != Thread(x) ==> PrioOf(prio', x) == PrioOf(s.prio, x)
    ensures Good(prio', base, s.mutexes[m])
  {
    var other := s.mutexes[m];
    forall i | 0 <= i < |other.waiting|
      ensures s.mutexes[stepped].owner != Thread(other.waiting[i])
    {
      assert HoldsNone(s, other.waiting[i]);
    }
    GoodFrame(s.prio, prio', base, other);
  }

  /** The mutex a thread starts to wait for. */
  lemma WaitGood(s: System, t: Tid, m: Mid, base: Prios)
    requires Sound(s) && Enabled(s, Take(t, m, true)) && Disciplined(s, Take(t, m, true)) && Inherits(s, base)
    requires s.mutexes[m].owner != Thread(t) && s.mutexes[m].value == 0
    ensures var s' := TakeStep(s, t, m, true); Good(s'.prio, base, s'.mutexes[m])
    ensures HoldsNone(s, t)
  {
    var s' := TakeStep(s, t, m, true);
    var mu := s.mutexes[m];
    var k := SuspendAt(mu.waiting, s'.prio, t, mu.flag);
    assert Consistent(mu) && Good(s.prio, base, mu);
    assert HoldsNone(s, t);
    forall i | 0 <= i < |mu.waiting|
      ensures PrioOf(s'.prio, mu.waiting[i]) == PrioOf(s.prio, mu.waiting[i])
    {
      assert HoldsNone(s, mu.waiting[i]);
    }
    SuspendSorted(mu.waiting, s'.prio, t);
    assert s'.mutexes[m].waiting == Inserted(mu.waiting, k, t);
    assert s.prio[t] == base[t];
    StaysAhead(s'.prio, mu, t, k);
  }

  /** One more waiter that is not more urgent than the owner. */
  lemma StaysAhead(prio: Prios, mu: Mutex, t: Tid, k: nat)
    requires Dominates(prio, mu) && mu.owner.Thread? && PrioOf(prio, mu.owner.t) <= PrioOf(prio, t) && k <= |mu.waiting|
    ensures Dominates(prio, mu.(waiting := mu.waiting[..k] + [t] + mu.waiting[k..]))
  {
    var w := mu.waiting[..k] + [t] + mu.waiting[k..];
    forall i | 0 <= i < |w|
      ensures PrioOf(prio, mu.owner.t) <= PrioOf(prio, w[i])
    {
      assert w[i] == if i < k then mu.waiting[i] else if i == k then t else mu.waiting[i - 1];
    }
  }

  /** The mutex handed to its first waiter. */
  lemma HandOffGood(s: System, t: Tid, m: Mid, base: Prios)
    requires Sound(s) && Enabled(s, Release(t, m)) && Inherits(s, base)
    requires Owns(s, t, m) && s.mutexes[m].hold == 1
    ensures var s' := ReleaseStep(s, t, m); Good(s'.prio, base, s'.mutexes[m])
  {
    var s' := ReleaseStep(s, t, m);
    var mu := s.mutexes[m];
    assert Consistent(mu) && Good(s.prio, base, mu);
    if mu.waiting != [] {
      forall i | 0 <= i < |mu.waiting|
        ensures PrioOf(s'.prio, mu.waiting[i]) == PrioOf(s.prio, mu.waiting[i])
        ensures PrioOf(s.prio, mu.waiting[i]) == PrioOf(base, mu.waiting[i])
      {
        assert HoldsNone(s, mu.waiting[i]);
      }
    }
  }

  lemma TimeoutGood(s: System, t: Tid, m: Mid, base: Prios)
    requires Sound(s) && Enabled(s, Timeout(t, m)) && Inherits(s, base)
    ensures var s' := Apply(s, Timeout(t, m)); Good(s'.prio, base, s'.mutexes[m])
  {
    var mu := s.mutexes[m];
    assert Good(s.prio, base, mu);
    WithoutSorted(mu.waiting, s.prio, t);
    var rest := Without(mu.waiting, t);
    forall i | 0 <= i < |rest|
      ensures PrioOf(s.prio, mu.owner.t) <= PrioOf(s.prio, rest[i])
    {
      assert rest[i] in mu.waiting;
    }
  }

  lemma {:induction false} WithoutSorted(waiting: seq<Tid>, prio: Prios, t: Tid)
    requires Sorted(waiting, prio)
    ensures Sorted(Without(waiting, t), prio)
  {
    if waiting != [] {
      var rest := Without(waiting[1..], t);
      WithoutSorted(waiting[1..], prio, t);
      forall i | 0 <= i < |rest|
        ensures PrioOf(prio, waiting[0]) <= PrioOf(prio, rest[i])
      {
        assert rest[i] in waiting[1..];
        var j :| 0 <= j < |waiting[1..]| && waiting[1..][j] == rest[i];
        assert waiting[1..][j] == waiting[j + 1];
      }
    }
  }

  lemma TakeGood(s: System, a: Step, base: Prios)
    requires Sound(s) && Enabled(s, a) && Disciplined(s, a) && Inherits(s, base) && a.Take?
    ensures var s' := TakeStep(s, a.t, a.m, a.wait); Good(s'.prio, base, s'.mutexes[a.m])
  {
    var mu := s.mutexes[a.m];
    assert Consistent(mu) && Good(s.prio, base, mu);
    if mu.owner != Thread(a.t) && mu.value > 0 {
      assert HoldsNone(s, a.t);
    } else if mu.owner != Thread(a.t) && a.wait {
      WaitGood(s, a.t, a.m, base);
    }
  }

  lemma ReleaseGood(s: System, a: Step, base: Prios)
    requires Sound(s) && Enabled(s, a) && Inherits(s, base) && a.Release?
    ensures var s' := ReleaseStep(s, a.t, a.m); Good(s'.prio, base, s'.mutexes[a.m])
  {
    var mu := s.mutexes[a.m];
    assert Consistent(mu) && Good(s.prio, base, mu);
    if mu.owner != Thread(a.t) {
      assert ReleaseStep(s, a.t, a.m) == s;
    } else if mu.hold == 1 {
      HandOffGood(s, a.t, a.m, base);
    } else {
      var mu' := mu.(hold := mu.hold - 1);
      assert ReleaseStep(s, a.t, a.m) == s.(mutexes := s.mutexes[a.m := mu']);
      assert Good(s.prio, base, mu');
    }
  }

  lemma SteppedGood(s: System, a: Step, base: Prios)
    requires Sound(s) && Enabled(s, a) && Disciplined(s, a) && Inherits(s, base)
    ensures var s' := Apply(s, a); Good(s'.prio, base, s'.mutexes[a.m])
  {
    match a
    case Take(_, _, _) => TakeGood(s, a, base);
    case Release(_, _) => ReleaseGood(s, a, base);
    case Timeout(t, m) => TimeoutGood(s, t, m, base);
  }

  /** One mutex changes hands or gets a waiter, and the threads involved have nothing else. */
  lemma StillOneAtATime(s: System, s': System, m: Mid, t: Tid)
    requires OneAtATime(s) && m in s.mutexes && m in s'.mutexes && s'.mutexes == s.mutexes[m := s'.mutexes[m]]
    requires forall n :: n in s.mutexes && n != m ==> s.mutexes[n].owner != Thread(t) && t !in s.mutexes[n].waiting
    requires forall x :: x in s'.mutexes[m].waiting ==> x in s.mutexes[m].waiting || x == t
    requires forall x :: s'.mutexes[m].owner == Thread(x) ==>
               x !in s'.mutexes[m].waiting && (s.mutexes[m].owner == Thread(x) || x in s.mutexes[m].waiting || x == t)
    ensures OneAtATime(s')
  {
    var mu, mu' := s.mutexes[m], s'.mutexes[m];
    forall x | x in mu.waiting
      ensures HoldsNone(s, x) && forall n :: n in s.mutexes && n != m ==> x !in s.mutexes[n].waiting
    {
      var i :| 0 <= i < |mu.waiting| && mu.waiting[i] == x;
      assert HoldsNone(s, mu.waiting[i]);
    }
    forall n, i | n in s'.mutexes && 0 <= i < |s'.mutexes[n].waiting|
      ensures HoldsNone(s', s'.mutexes[n].waiting[i])
    {
      var x := s'.mutexes[n].waiting[i];
      if n != m {
        assert HoldsNone(s, s.mutexes[n].waiting[i]);
        assert x in s.mutexes[n].waiting;
        assert x !in mu.waiting;
      } else {
        assert x in mu'.waiting;
      }
    }
  }

  lemma Confined(s: System, a: Step, n: Mid)
    requires Enabled(s, a) && Disciplined(s, a) && OneAtATime(s) && Apply(s, a) != s
    requires n in s.mutexes && n != a.m
    ensures s.mutexes[n].owner != Thread(a.t) && a.t !in s.mutexes[n].waiting
  {
    if a.Timeout? {
      var i :| 0 <= i < |s.mutexes[a.m].waiting| && s.mutexes[a.m].waiting[i] == a.t;
      assert HoldsNone(s, s.mutexes[a.m].waiting[i]);
    }
  }

  lemma StepOneAtATime(s: System, a: Step)
    requires Sound(s) && Enabled(s, a) && Disciplined(s, a) && OneAtATime(s)
    ensures OneAtATime(Apply(s, a))
  {
    var s' := Apply(s, a);
    if s' != s {
      StepEffect(s, a);
      forall n | n in s.mutexes && n != a.m
        ensures s.mutexes[n].owner != Thread(a.t) && a.t !in s.mutexes[n].waiting
      {
        Confined(s, a, n);
      }
      StillOneAtATime(s, s', a.m, a.t);
    }
  }

  /** Who holds nothing afterwards is at its own priority. */
  lemma FreeAtBase(s: System, a: Step, s': System, base: Prios, x: Tid)
    requires Inherits(s, base) && a.m in s.mutexes && Effect(s, a, s')
    requires x in s.prio && HoldsNone(s', x)
    ensures x in s'.prio && s'.prio[x] == base[x]
  {
    var mu := s.mutexes[a.m];
    assert Good(s.prio, base, mu);
    assert s'.mutexes[a.m].owner != Thread(x);
    if mu.owner != Thread(x) {
      forall n | n in s.mutexes
        ensures s.mutexes[n].owner != Thread(x)
      {
        assert n != a.m ==> s'.mutexes[n].owner != Thread(x);
      }
      assert HoldsNone(s, x);
      assert PrioOf(s'.prio, x) == PrioOf(s.prio, x);
    } else {
      assert PrioOf(s'.prio, x) == mu.original;
    }
  }

  lemma InheritsFrom(s: System, a: Step, s': System, base: Prios)
    requires Inherits(s, base) && a.m in s.mutexes && Effect(s, a, s')
    requires OneAtATime(s') && Good(s'.prio, base, s'.mutexes[a.m])
    ensures Inherits(s', base)
  {
    forall m | m in s'.mutexes && m != a.m
      ensures Good(s'.prio, base, s'.mutexes[m])
    {
      OthersGood(s, s'.prio, base, a.m, m);
    }
    forall x | x in s'.prio && HoldsNone(s', x)
      ensures s'.prio[x] == base[x]
    {
      FreeAtBase(s, a, s', base, x);
    }
  }

  /** Priority inheritance is kept by every step taken under the discipline. */
  lemma StepInherits(s: System, a: Step, base: Prios)
    requires Sound(s) && Enabled(s, a) && Disciplined(s, a) && Inherits(s, base)
    ensures Inherits(Apply(s, a), base)
  {
    StepEffect(s, a);
    StepOneAtATime(s, a);
    SteppedGood(s, a, base);
    InheritsFrom(s, a, Apply(s, a), base);
  }

  // ---------------------------------------------------------------- runs

  ghost predicate Fresh(s: System) {
    forall m :: m in s.mutexes ==> s.mutexes[m] == Mutex(1, None, NOBODY, 0, [], s.mutexes[m].flag)
  }

  ghost predicate IsRun(run: seq<System>, steps: seq<Step>) {
    && |run| == |steps| + 1
    && Fresh(run[0])
    && (forall i :: 0 <= i < |steps| ==>
        && Enabled(run[i], steps[i]) && !HoldOverflows(run[i], steps[i])
        && run[i + 1] == Apply(run[i], steps[i]))
  }

  /** Over every run: one owner or none, counted right, and waiters only behind an owner. */
  lemma {:induction false} RunSound(run: seq<System>, steps: seq<Step>, i: nat)
    requires IsRun(run, steps) && i < |run|
    ensures Sound(run[i])
  {
    if i > 0 {
      RunSound(run, steps, i - 1);
      StepSound(run[i - 1], steps[i - 1]);
    }
  }

  /** Step `j` takes `t` off the wait list of `m`: it times out, or it becomes the owner. */
  ghost predicate LeavesAt(run: seq<System>, steps: seq<Step>, t: Tid, m: Mid, j: nat)
    requires j < |steps| < |run|
  {
    && m in run[j].mutexes && t in run[j].mutexes[m].waiting
    && (steps[j] == Timeout(t, m) || Owns(run[j + 1], t, m))
  }

  /** Over every run: whoever waits at `i` and no longer waits at `k` timed out or was made the owner in between. */
  lemma {:induction false} RunWaiterLeaves(run: seq<System>, steps: seq<Step>, t: Tid, m: Mid, i: nat, k: nat)
    requires IsRun(run, steps) && i <= k <= |steps| && m in run[i].mutexes && t in run[i].mutexes[m].waiting
    requires m in run[k].mutexes ==> t !in run[k].mutexes[m].waiting
    ensures exists j :: i <= j < k && LeavesAt(run, steps, t, m, j)
    decreases k - i
  {
    RunSound(run, steps, i);
    if i < k {
      WaiterLeaves(run[i], steps[i], t, m);
      if !LeavesAt(run, steps, t, m, i) {
        RunWaiterLeaves(run, steps, t, m, i + 1, k);
      }
    }
  }

  lemma FreshInherits(s: System)
    requires Fresh(s) && forall m :: m in s.mutexes ==> s.mutexes[m].flag.Prio?
    ensures Inherits(s, s.prio)
  {
  }

  /**
   Over every disciplined run with priority-ordered mutexes, no waiter is ever more urgent than
   the owner it waits for, wait lists stay sorted, and a thread without mutex is at the priority
   it started with.
   */
  lemma {:induction false} RunInherits(run: seq<System>, steps: seq<Step>, i: nat)
    requires IsRun(run, steps) && i < |run|
    requires forall m :: m in run[0].mutexes ==> run[0].mutexes[m].flag.Prio?
    requires forall j :: 0 <= j < |steps| ==> Disciplined(run[j], steps[j])
    ensures Inherits(run[i], run[0].prio)
  {
    if i == 0 {
      FreshInherits(run[0]);
    } else {
      RunInherits(run, steps, i - 1);
      RunSound(run, steps, i - 1);
      assert Disciplined(run[i - 1], steps[i - 1]);
      StepInherits(run[i - 1], steps[i - 1], run[0].prio);
    }
  }

  // ---------------------------------------------------------------- outside the discipline

  /** A nested run after which the owner of mutex 0 is less urgent than the thread waiting for it. */
  lemma NestedExample()
    ensures var free := Mutex(1, None, NOBODY, 0, [], Prio);
            var s0 := System(map[1 := 20, 2 := 5], map[0 := free, 1 := free]);
            var s3 := TakeStep(TakeStep(TakeStep(s0, 1, 0, true), 1, 1, true), 2, 0, true);
            && s3.prio[1] == 5
            && !Dominates(ReleaseStep(s3, 1, 1).prio, ReleaseStep(s3, 1, 1).mutexes[0])
  {
    var free := Mutex(1, None, NOBODY, 0, [], Prio);
    var s0 := System(map[1 := 20, 2 := 5], map[0 := free, 1 := free]);
    var s1 := TakeStep(s0, 1, 0, true);
    var s2 := TakeStep(s1, 1, 1, true);
    var s3 := TakeStep(s2, 2, 0, true);
    assert s3.mutexes[0].waiting == [2];
    var s4 := ReleaseStep(s3, 1, 1);
    assert s4.prio[1] == 20 && s4.mutexes[0].waiting[0] == 2;
  }

  // ---------------------------------------------------------------- any use of mutexes

  ghost predicate AllDominate(s: System) {
    forall m {:trigger Dominates(s.prio, s.mutexes[m])} :: m in s.mutexes ==> Dominates(s.prio, s.mutexes[m])
  }

  /** The take suspends the caller and raises the priority of the owner. */
  ghost predicate Boosts(s: System, a: Step)
    requires a.m in s.mutexes && a.t in s.prio
  {
    var mu := s.mutexes[a.m];
    && a.Take? && a.wait && mu.owner.Thread? && mu.owner != Thread(a.t) && mu.value == 0
    && s.prio[a.t] < PrioOf(s.prio, mu.owner.t)
  }

  /** The release gives the mutex up. */
  ghost predicate GivesUp(s: System, a: Step)
    requires a.m in s.mutexes
  {
    a.Release? && s.mutexes[a.m].owner == Thread(a.t) && s.mutexes[a.m].hold == 1
  }

  /** No waiter of `mu` is more urgent than priority `p`. */
  ghost predicate AtLeast(prio: Prios, p: nat, waiting: seq<Tid>) {
    forall x :: x in waiting ==> p <= PrioOf(prio, x)
  }

  /** What the owner of mutex `n` needs when `o`, one of its waiters, is raised to priority `p`. */
  ghost predicate Ahead(s: System, n: Mid, o: Tid, p: nat)
    requires n in s.mutexes
  {
    var mu := s.mutexes[n];
    o in mu.waiting && mu.owner.Thread? ==> PrioOf(s.prio, mu.owner.t) <= p
  }

  /**
   A raised owner must not itself wait behind a less urgent owner; the first waiter must be
   the most urgent one at a hand-off; and the restored priority must do for the mutexes kept.
   */
  ghost predicate Safe(s: System, a: Step)
    requires a.m in s.mutexes && a.t in s.prio
  {
    var mu := s.mutexes[a.m];
    && (Boosts(s, a) ==> forall n :: n in s.mutexes ==> Ahead(s, n, mu.owner.t, s.prio[a.t]))
    && (GivesUp(s, a) ==>
          && (mu.waiting != [] ==> AtLeast(s.prio, PrioOf(s.prio, mu.waiting[0]), mu.waiting))
          && (forall n :: n in s.mutexes && n != a.m && s.mutexes[n].owner == Thread(a.t) ==>
                AtLeast(s.prio, mu.original, s.mutexes[n].waiting)))
  }

  lemma DominatesMeans(prio: Prios, mu: Mutex)
    ensures Dominates(prio, mu) <==> (mu.owner.Thread? ==> AtLeast(prio, PrioOf(prio, mu.owner.t), mu.waiting))
  {
    if mu.owner.Thread? && Dominates(prio, mu) {
      forall x | x in mu.waiting
        ensures PrioOf(prio, mu.owner.t) <= PrioOf(prio, x)
      {
        var i :| 0 <= i < |mu.waiting| && mu.waiting[i] == x;
      }
    }
  }

  /** The mutexes the boosting take is not about. */
  lemma BoostElsewhere(s: System, a: Step, n: Mid)
    requires Sound(s) && Enabled(s, a) && AllDominate(s) && Boosts(s, a) && n in s.mutexes && n != a.m
    ensures Dominates(Apply(s, a).prio, s.mutexes[n]) <==> Ahead(s, n, s.mutexes[a.m].owner.t, s.prio[a.t])
  {
    var s', mu := Apply(s, a), s.mutexes[n];
    assert Consistent(mu) && Dominates(s.prio, mu);
    DominatesMeans(s.prio, mu);
    DominatesMeans(s'.prio, mu);
  }

  lemma TakeHere(s: System, a: Step)
    requires Sound(s) && Enabled(s, a) && AllDominate(s) && a.Take?
    ensures Dominates(Apply(s, a).prio, Apply(s, a).mutexes[a.m])
    ensures Boosts(s, a) ==> Ahead(s, a.m, s.mutexes[a.m].owner.t, s.prio[a.t])
  {
    var s', mu := Apply(s, a), s.mutexes[a.m];
    assert Consistent(mu) && Dominates(s.prio, mu);
    DominatesMeans(s.prio, mu);
    DominatesMeans(s'.prio, s'.mutexes[a.m]);
    if mu.owner != Thread(a.t) && mu.value == 0 && a.wait {
      SuspendedMembers(mu.waiting, Boost(s, a.t, mu.owner), a.t, mu.flag);
    }
  }

  lemma TakeDominatesIff(s: System, a: Step)
    requires Sound(s) && Enabled(s, a) && AllDominate(s) && a.Take?
    ensures AllDominate(Apply(s, a)) <==> Safe(s, a)
  {
    var s' := Apply(s, a);
    TakeHere(s, a);
    forall n | n in s.mutexes && n != a.m
      ensures Dominates(s'.prio, s'.mutexes[n]) <==> (Boosts(s, a) ==> Ahead(s, n, s.mutexes[a.m].owner.t, s.prio[a.t]))
    {
      assert s'.mutexes[n] == s.mutexes[n] && Dominates(s.prio, s.mutexes[n]);
      if Boosts(s, a) {
        BoostElsewhere(s, a, n);
      } else {
        assert Consistent(s.mutexes[a.m]);
        assert s'.prio == s.prio;
      }
    }
  }

  /**
   The release of one mutex restores the priority recorded when it was taken, whatever another one
   still needs: the owner stays ahead there exactly when that priority is urgent enough.
   */
  lemma ReleaseElsewhere(s: System, a: Step, n: Mid)
    requires Sound(s) && Enabled(s, a) && GivesUp(s, a) && n in s.mutexes && n != a.m
    requires s.mutexes[n].owner != Thread(a.t) ==> Dominates(s.prio, s.mutexes[n])
    ensures Dominates(Apply(s, a).prio, s.mutexes[n]) <==>
            (s.mutexes[n].owner == Thread(a.t) ==> AtLeast(s.prio, s.mutexes[a.m].original, s.mutexes[n].waiting))
  {
    var s', mu := Apply(s, a), s.mutexes[n];
    assert Consistent(mu);
    assert a.t !in mu.waiting;
    DominatesMeans(s.prio, mu);
    DominatesMeans(s'.prio, mu);
  }

  /** Handing over keeps the new owner ahead exactly when the first waiter is the most urgent one. */
  lemma ReleaseHere(s: System, a: Step)
    requires Sound(s) && Enabled(s, a) && GivesUp(s, a)
    ensures var mu, s' := s.mutexes[a.m], Apply(s, a);
            Dominates(s'.prio, s'.mutexes[a.m]) <==>
            (mu.waiting != [] ==> AtLeast(s.prio, PrioOf(s.prio, mu.waiting[0]), mu.waiting))
  {
    var mu, s' := s.mutexes[a.m], Apply(s, a);
    assert Consistent(mu);
    DominatesMeans(s'.prio, s'.mutexes[a.m]);
    if mu.waiting != [] {
      assert mu.waiting == [mu.waiting[0]] + mu.waiting[1..];
      assert forall x :: x in mu.waiting <==> x == mu.waiting[0] || x in mu.waiting[1..];
      assert forall x :: x in mu.waiting ==> PrioOf(s'.prio, x) == PrioOf(s.prio, x);
    }
  }

  lemma ReleaseDominatesIff(s: System, a: Step)
    requires Sound(s) && Enabled(s, a) && AllDominate(s) && a.Release?
    ensures AllDominate(Apply(s, a)) <==> Safe(s, a)
  {
    var s' := Apply(s, a);
    assert Consistent(s.mutexes[a.m]) && Dominates(s.prio, s.mutexes[a.m]);
    if GivesUp(s, a) {
      ReleaseHere(s, a);
      forall n | n in s.mutexes && n != a.m
        ensures Dominates(s'.prio, s'.mutexes[n]) <==>
                (s.mutexes[n].owner == Thread(a.t) ==> AtLeast(s.prio, s.mutexes[a.m].original, s.mutexes[n].waiting))
      {
        assert s'.mutexes[n] == s.mutexes[n] && Dominates(s.prio, s.mutexes[n]);
        ReleaseElsewhere(s, a, n);
      }
    } else {
      forall n | n in s'.mutexes
        ensures Dominates(s'.prio, s'.mutexes[n])
      {
        assert Dominates(s.prio, s.mutexes[n]);
      }
    }
  }

  /** Whatever the threads hold: a step keeps every owner ahead of its waiters exactly when it is safe. */
  lemma StepDominatesIff(s: System, a: Step)
    requires Sound(s) && Enabled(s, a) && AllDominate(s)
    ensures AllDominate(Apply(s, a)) <==> Safe(s, a)
  {
    match a
    case Take(_, _, _) => TakeDominatesIff(s, a);
    case Release(_, _) => ReleaseDominatesIff(s, a);
    case Timeout(t, m) =>
      forall n | n in s.mutexes
        ensures Dominates(s.prio, Apply(s, a).mutexes[n])
      {
        assert Dominates(s.prio, s.mutexes[n]);
        DominatesMeans(s.prio, s.mutexes[n]);
        DominatesMeans(s.prio, Apply(s, a).mutexes[n]);
      }
  }

  ghost predicate SafeAt(run: seq<System>, steps: seq<Step>, j: nat)
    requires j < |steps| < |run|
  {
    steps[j].m in run[j].mutexes && steps[j].t in run[j].prio && Safe(run[j], steps[j])
  }

  lemma NextDominatesIff(run: seq<System>, steps: seq<Step>, j: nat)
    requires IsRun(run, steps) && j < |steps| && AllDominate(run[j])
    ensures AllDominate(run[j + 1]) <==> SafeAt(run, steps, j)
  {
    RunSound(run, steps, j);
    StepDominatesIff(run[j], steps[j]);
  }

  /**
   Over every run, nested and chained mutexes included: all owners stay ahead of their waiters
   up to step `k` if and only if the first `k` steps are safe.
   */
  lemma {:induction false} RunDominatesIff(run: seq<System>, steps: seq<Step>, k: nat)
    requires IsRun(run, steps) && k <= |steps|
    ensures (forall i :: 0 <= i <= k ==> AllDominate(run[i])) <==> (forall j :: 0 <= j < k ==> SafeAt(run, steps, j))
  {
    if k == 0 {
      assert AllDominate(run[0]);
    } else {
      var j := k - 1;
      RunDominatesIff(run, steps, j);
      if forall i :: 0 <= i < k ==> AllDominate(run[i]) {
        NextDominatesIff(run, steps, j);
      } else {
        var l :| 0 <= l < j && !SafeAt(run, steps, l);
      }
    }
  }

  // ---------------------------------------------------------------- order of the wait lists

  ghost predicate SortedAt(s: System, n: Mid)
    requires n in s.mutexes
  {
    s.mutexes[n].flag.Prio? ==> Sorted(s.mutexes[n].waiting, s.prio)
  }

  ghost predicate AllSorted(s: System) {
    forall n {:trigger SortedAt(s, n)} :: n in s.mutexes ==> SortedAt(s, n)
  }

  /** Raised to priority `p`, waiter `o` of mutex `n` is not more urgent than anybody in front of it. */
  ghost predicate InLine(s: System, n: Mid, o: Tid, p: nat)
    requires n in s.mutexes
  {
    var w := s.mutexes[n].waiting;
    s.mutexes[n].flag.Prio? ==> forall i, j :: 0 <= i < j < |w| && w[j] == o ==> PrioOf(s.prio, w[i]) <= p
  }

  lemma RaisedInLine(s: System, n: Mid, o: Tid, p: nat)
    requires n in s.mutexes && SortedAt(s, n) && Distinct(s.mutexes[n].waiting) && o in s.prio && p < s.prio[o]
    ensures SortedAt(System(s.prio[o := p], s.mutexes), n) <==> InLine(s, n, o, p)
  {
    var w, prio := s.mutexes[n].waiting, s.prio[o := p];
    if s.mutexes[n].flag.Prio? && InLine(s, n, o, p) {
      forall i, j | 0 <= i < j < |w|
        ensures PrioOf(prio, w[i]) <= PrioOf(prio, w[j])
      {
        assert PrioOf(s.prio, w[i]) <= PrioOf(s.prio, w[j]);
      }
    }
  }

  /** Prefixes of a sorted list, and what is left when one waiter goes, are sorted. */
  lemma StillSorted(s: System, s': System, n: Mid)
    requires n in s.mutexes && n in s'.mutexes && SortedAt(s, n) && s'.mutexes[n].flag == s.mutexes[n].flag
    requires forall x :: x in s.mutexes[n].waiting ==> PrioOf(s'.prio, x) == PrioOf(s.prio, x)
    requires s'.mutexes[n].waiting == s.mutexes[n].waiting
    ensures SortedAt(s', n)
  {
    var w := s.mutexes[n].waiting;
    if s.mutexes[n].flag.Prio? {
      forall i, j | 0 <= i < j < |w|
        ensures PrioOf(s'.prio, w[i]) <= PrioOf(s'.prio, w[j])
      {
        assert w[i] in w && w[j] in w;
      }
    }
  }

  lemma TakeSortedHere(s: System, a: Step)
    requires Sound(s) && Enabled(s, a) && AllSorted(s) && a.Take?
    ensures SortedAt(Apply(s, a), a.m)
    ensures Boosts(s, a) ==> InLine(s, a.m, s.mutexes[a.m].owner.t, s.prio[a.t])
  {
    var s', mu := Apply(s, a), s.mutexes[a.m];
    assert Consistent(mu) && SortedAt(s, a.m);
    if mu.owner != Thread(a.t) && mu.value == 0 && a.wait {
      var prio := Boost(s, a.t, mu.owner);
      StillSorted(s, System(prio, s.mutexes), a.m);
      if mu.flag.Prio? {
        SuspendSorted(mu.waiting, prio, a.t);
      }
    }
  }

  lemma ReleaseSorted(s: System, a: Step, n: Mid)
    requires Sound(s) && Enabled(s, a) && AllSorted(s) && a.Release? && n in s.mutexes
    ensures SortedAt(Apply(s, a), n)
  {
    var s', mu := Apply(s, a), s.mutexes[n];
    assert Consistent(s.mutexes[a.m]) && Consistent(mu) && SortedAt(s, n) && a.t !in mu.waiting;
    StillSorted(s, System(s'.prio, s.mutexes), n);
  }

  /** A raised owner does not overtake a waiter in front of it. */
  ghost predicate KeepsLine(s: System, a: Step)
    requires a.m in s.mutexes && a.t in s.prio
  {
    Boosts(s, a) ==> forall n :: n in s.mutexes ==> InLine(s, n, s.mutexes[a.m].owner.t, s.prio[a.t])
  }

  /** A step keeps the priority order of all wait lists exactly when a raised owner is not overtaking another waiter. */
  lemma StepSortedIff(s: System, a: Step)
    requires Sound(s) && Enabled(s, a) && AllSorted(s)
    ensures AllSorted(Apply(s, a)) <==> KeepsLine(s, a)
  {
    var s' := Apply(s, a);
    match a
    case Take(t, m, wait) =>
      TakeSortedHere(s, a);
      forall n | n in s.mutexes && n != m
        ensures SortedAt(s', n) <==> (Boosts(s, a) ==> InLine(s, n, s.mutexes[m].owner.t, s.prio[t]))
      {
        assert SortedAt(s, n) && Consistent(s.mutexes[n]) && Consistent(s.mutexes[m]);
        if Boosts(s, a) {
          RaisedInLine(s, n, s.mutexes[m].owner.t, s.prio[t]);
        } else {
          StillSorted(s, s', n);
        }
      }
    case Release(_, _) =>
      forall n | n in s.mutexes
        ensures SortedAt(s', n)
      {
        ReleaseSorted(s, a, n);
      }
    case Timeout(t, m) =>
      forall n | n in s.mutexes
        ensures SortedAt(s', n)
      {
        assert SortedAt(s, n);
        if n == m && s.mutexes[m].flag.Prio? {
          WithoutSorted(s.mutexes[m].waiting, s.prio, t);
        } else if n != m {
          StillSorted(s, s', n);
        }
      }
  }

  ghost predicate KeepsLineAt(run: seq<System>, steps: seq<Step>, j: nat)
    requires j < |steps| < |run|
  {
    steps[j].m in run[j].mutexes && steps[j].t in run[j].prio && KeepsLine(run[j], steps[j])
  }

  lemma NextSortedIff(run: seq<System>, steps: seq<Step>, j: nat)
    requires IsRun(run, steps) && j < |steps| && AllSorted(run[j])
    ensures AllSorted(run[j + 1]) <==> KeepsLineAt(run, steps, j)
  {
    RunSound(run, steps, j);
    StepSortedIff(run[j], steps[j]);
  }

  /** Over every run: the lists are in order up to step `k` if and only if the first `k` steps keep the line. */
  lemma {:induction false} RunSortedIff(run: seq<System>, steps: seq<Step>, k: nat)
    requires IsRun(run, steps) && k <= |steps|
    ensures (forall i :: 0 <= i <= k ==> AllSorted(run[i])) <==> (forall j :: 0 <= j < k ==> KeepsLineAt(run, steps, j))
  {
    if k == 0 {
      assert AllSorted(run[0]);
    } else {
      var j := k - 1;
      RunSortedIff(run, steps, j);
      if forall i :: 0 <= i < k ==> AllSorted(run[i]) {
        NextSortedIff(run, steps, j);
      } else {
        var l :| 0 <= l < j && !KeepsLineAt(run, steps, l);
      }
    }
  }

  // ---------------------------------------------------------------- inputs that fail

  ghost function Overtaking(): System {
    System(map[1 := 1, 2 := 20, 3 := 5, 4 := 10],
           map[0 := Mutex(0, Thread(1), 1, 1, [4, 2], Prio), 1 := Mutex(0, Thread(2), 20, 1, [], Prio)])
  }

  /** One step short of it, and two. */
  ghost function Queueing(waiting: seq<Tid>): System {
    Overtaking().(mutexes := Overtaking().mutexes[0 := Mutex(0, Thread(1), 1, 1, waiting, Prio)])
  }

  lemma BothTaken()
    ensures var free := Mutex(1, None, NOBODY, 0, [], Prio);
            var s0 := System(map[1 := 1, 2 := 20, 3 := 5, 4 := 10], map[0 := free, 1 := free]);
            TakeStep(TakeStep(s0, 1, 0, true), 2, 1, true) == Queueing([])
  {
  }

  lemma BothQueued()
    ensures TakeStep(TakeStep(Queueing([]), 4, 0, true), 2, 0, true) == Overtaking()
  {
    var none: seq<Tid> := [];
    assert SuspendAt(none, Overtaking().prio, 4, Prio) == 0 && none[..0] + [4] + none[0..] == [4];
    assert TakeStep(Queueing(none), 4, 0, true) == Queueing([4]);
    assert SuspendAt([4], Overtaking().prio, 2, Prio) == 1;
    assert [4][..1] + [2] + [4][1..] == [4, 2];
  }

  /** Four takes from fresh mutexes lead there. */
  lemma OvertakingReached()
    ensures var free := Mutex(1, None, NOBODY, 0, [], Prio);
            var s0 := System(map[1 := 1, 2 := 20, 3 := 5, 4 := 10], map[0 := free, 1 := free]);
            var s2 := TakeStep(TakeStep(s0, 1, 0, true), 2, 1, true);
            TakeStep(TakeStep(s2, 4, 0, true), 2, 0, true) == Overtaking()
  {
    BothTaken();
    BothQueued();
  }

  /** Thread 2 owns mutex 1 and waits for mutex 0 behind thread 4; raised to 5, it stays behind it. */
  lemma SortedExample()
    ensures var s, s' := Overtaking(), TakeStep(Overtaking(), 3, 1, true);
            && AllSorted(s) && !KeepsLine(s, Take(3, 1, true))
            && s'.mutexes[0].waiting == [4, 2] && s'.prio[4] == 10 && s'.prio[2] == 5 && !AllSorted(s')
  {
    var s := Overtaking();
    assert SortedAt(s, 0) && SortedAt(s, 1);
    assert s.mutexes[0].waiting[1] == 2 && PrioOf(s.prio, s.mutexes[0].waiting[0]) == 10;
    assert !InLine(s, 0, 2, 5);
    var s' := TakeStep(s, 3, 1, true);
    var w := s'.mutexes[0].waiting;
    assert PrioOf(s'.prio, w[0]) == 10 && PrioOf(s'.prio, w[1]) == 5;
    assert !SortedAt(s', 0);
  }

  /** The raised owner of mutex 1 waits for mutex 0, whose owner stays less urgent than it. */
  lemma ChainExample()
    ensures var free := Mutex(1, None, NOBODY, 0, [], Prio);
            var s0 := System(map[1 := 30, 2 := 20, 3 := 5], map[0 := free, 1 := free]);
            var s3 := TakeStep(TakeStep(TakeStep(s0, 1, 0, true), 2, 1, true), 2, 0, true);
            AllDominate(s3) && !Safe(s3, Take(3, 1, true)) && !AllDominate(TakeStep(s3, 3, 1, true))
  {
    var free := Mutex(1, None, NOBODY, 0, [], Prio);
    var s0 := System(map[1 := 30, 2 := 20, 3 := 5], map[0 := free, 1 := free]);
    var s1 := TakeStep(s0, 1, 0, true);
    var s2 := TakeStep(s1, 2, 1, true);
    var s3 := TakeStep(s2, 2, 0, true);
    assert s3.mutexes[0].waiting == [2] && s3.mutexes[1].waiting == [] && s3.prio == map[1 := 20, 2 := 20, 3 := 5];
    var s4 := TakeStep(s3, 3, 1, true);
    assert s4.prio[2] == 5 && s4.mutexes[0].waiting[0] == 2 && s4.mutexes[0].owner == Thread(1) && s4.prio[1] == 20;
    assert !Dominates(s4.prio, s4.mutexes[0]);
    assert 2 in s3.mutexes[0].waiting && !Ahead(s3, 0, 2, 5);
  }

  /** A FIFO mutex handed to a waiter that is less urgent than the one behind it. */
  lemma HandOffExample()
    ensures var free := Mutex(1, None, NOBODY, 0, [], Fifo);
            var s0 := System(map[1 := 10, 2 := 20, 3 := 5], map[0 := free]);
            var s3 := TakeStep(TakeStep(TakeStep(s0, 1, 0, true), 2, 0, true), 3, 0, true);
            AllDominate(s3) && !AllDominate(ReleaseStep(s3, 1, 0))
  {
    var free := Mutex(1, None, NOBODY, 0, [], Fifo);
    var s0 := System(map[1 := 10, 2 := 20, 3 := 5], map[0 := free]);
    var s1 := TakeStep(s0, 1, 0, true);
    var s2 := TakeStep(s1, 2, 0, true);
    var s3 := TakeStep(s2, 3, 0, true);
    assert s3.mutexes[0].waiting == [2, 3] && s3.prio == map[1 := 5, 2 := 20, 3 := 5];
    var s4 := ReleaseStep(s3, 1, 0);
    assert s4.mutexes[0].owner == Thread(2) && s4.mutexes[0].waiting[0] == 3;
    assert !Dominates(s4.prio, s4.mutexes[0]);
  }

  /** A fresh mutex taken `n` times by thread 1. */
  ghost function TakenTimes(n: nat): System
    ensures 1 in TakenTimes(n).prio && 0 in TakenTimes(n).mutexes
  {
    if n == 0 then System(map[1 := 10], map[0 := Mutex(1, None, NOBODY, 0, [], Prio)])
    else TakeStep(TakenTimes(n - 1), 1, 0, true)
  }

  lemma {:induction false} HoldCounts(n: nat)
    requires 1 <= n < HOLD_LIMIT
    ensures TakenTimes(n) == System(map[1 := 10], map[0 := Mutex(0, Thread(1), 10, n, [], Prio)])
  {
    if n > 1 {
      HoldCounts(n - 1);
    } else {
      assert TakenTimes(0).mutexes[0].value == 1;
    }
  }

  lemma OneTooMany(s: System)
    requires s == System(map[1 := 10], map[0 := Mutex(0, Thread(1), 10, HOLD_LIMIT - 1, [], Prio)])
    ensures Sound(s) && HoldOverflows(s, Take(1, 0, true))
    ensures var s' := TakeStep(s, 1, 0, true);
            s'.mutexes[0].owner == Thread(1) && s'.mutexes[0].hold == 0 && !Sound(s')
  {
    assert !Consistent(TakeStep(s, 1, 0, true).mutexes[0]);
  }

  /** After the 256th take the mutex is owned but its hold count is 0. */
  lemma HoldOverflowExample(n: nat)
    requires n == HOLD_LIMIT - 1
    ensures var s, s' := TakenTimes(n), TakeStep(TakenTimes(n), 1, 0, true);
            Sound(s) && s'.mutexes[0].owner == Thread(1) && s'.mutexes[0].hold == 0 && !Sound(s')
  {
    HoldCounts(n);
    OneTooMany(TakenTimes(n));
  }

  // ---------------------------------------------------------------- what the calls do

  /** Only mutex `m` and the priority of thread `o` may differ. */
  ghost predicate OnlyAt(s: System, s': System, m: Mid, o: Owner) {
    && s'.mutexes.Keys == s.mutexes.Keys && (forall n :: n in s.mutexes && n != m ==> s'.mutexes[n] == s.mutexes[n])
    && s'.prio.Keys == s.prio.Keys && (forall x :: x in s.prio && o != Thread(x) ==> s'.prio[x] == s.prio[x])
  }

  /**
   A take by the owner counts up; a free mutex comes into the hands of the caller, who records its
   own priority; of a mutex owned by somebody else the caller is refused, or joins the list and
   lends the owner its priority if that is the more urgent one.
   */
  ghost predicate TakeOutcome(s: System, s': System, t: Tid, m: Mid, wait: bool)
    requires t in s.prio && m in s.mutexes
  {
    m in s'.mutexes
    && var mu, mu' := s.mutexes[m], s'.mutexes[m];
    && mu'.flag == mu.flag
    && (match mu.owner
        case None =>
          && OnlyAt(s, s', m, None) && mu'.owner == Thread(t) && mu'.hold == 1 && mu'.value == 0
          && mu'.original == s.prio[t] && mu'.waiting == []
        case Thread(o) =>
          && mu'.owner == mu.owner && mu'.value == 0 && mu'.original == mu.original
          && (if o == t then
                && OnlyAt(s, s', m, None) && mu'.waiting == mu.waiting
                && mu'.hold == if mu.hold < HOLD_LIMIT - 1 then mu.hold + 1 else 0
              else if !wait then s' == s
              else
                && OnlyAt(s, s', m, mu.owner) && mu'.hold == mu.hold
                && Joins(mu.waiting, mu'.waiting, t, mu.flag, s'.prio)
                && PrioOf(s'.prio, o) <= s.prio[t] && PrioOf(s'.prio, o) <= PrioOf(s.prio, o)
                && (PrioOf(s'.prio, o) == s.prio[t] || s'.prio == s.prio)))
  }

  /**
   A release by anybody but the owner changes nothing; a nested one counts down; the last one
   restores the recorded priority of the caller and makes the first waiter the owner, who records
   its own priority, or leaves the mutex free.
   */
  ghost predicate ReleaseOutcome(s: System, s': System, t: Tid, m: Mid)
    requires t in s.prio && m in s.mutexes
  {
    m in s'.mutexes
    && var mu, mu' := s.mutexes[m], s'.mutexes[m];
    if mu.owner != Thread(t) then s' == s else
    && mu'.flag == mu.flag
    && (if mu.hold > 1 then
          && OnlyAt(s, s', m, None) && mu'.hold + 1 == mu.hold && mu'.owner == mu.owner && mu'.value == 0
          && mu'.original == mu.original && mu'.waiting == mu.waiting
        else
          && OnlyAt(s, s', m, mu.owner) && PrioOf(s'.prio, t) == mu.original
          && (if mu.waiting == [] then
                mu'.owner == None && mu'.value == 1 && mu'.hold == 0 && mu'.original == NOBODY && mu'.waiting == []
              else
                && mu'.owner.Thread? && mu.waiting == [mu'.owner.t] + mu'.waiting
                && mu'.original == PrioOf(s.prio, mu'.owner.t) && mu'.hold == 1 && mu'.value == 0))
  }

  lemma TakeMeans(s: System, t: Tid, m: Mid, wait: bool)
    requires Sound(s) && t in s.prio && m in s.mutexes
    ensures TakeOutcome(s, TakeStep(s, t, m, wait), t, m, wait)
  {
    var mu := s.mutexes[m];
    assert Consistent(mu);
    if mu.owner.Thread? && mu.owner.t != t && wait {
      QueuedMeans(s, t, m);
    }
  }

  /** The branch that suspends the caller. */
  lemma QueuedMeans(s: System, t: Tid, m: Mid)
    requires t in s.prio && m in s.mutexes && s.mutexes[m].owner.Thread? && s.mutexes[m].owner.t in s.prio
    requires s.mutexes[m].owner != Thread(t) && s.mutexes[m].value == 0
    ensures TakeOutcome(s, TakeStep(s, t, m, true), t, m, true)
  {
    var mu := s.mutexes[m];
    SuspendJoins(mu.waiting, Boost(s, t, mu.owner), t, mu.flag);
    BoostMeans(s, t, mu.owner.t);
  }

  lemma BoostMeans(s: System, t: Tid, o: Tid)
    requires t in s.prio && o in s.prio && o != t
    ensures var prio := Boost(s, t, Thread(o));
            && prio.Keys == s.prio.Keys && (forall x :: x in s.prio && x != o ==> prio[x] == s.prio[x])
            && PrioOf(prio, o) <= s.prio[t] && PrioOf(prio, o) <= PrioOf(s.prio, o)
            && (PrioOf(prio, o) == s.prio[t] || prio == s.prio)
  {
  }

  lemma ReleaseMeans(s: System, t: Tid, m: Mid)
    requires Sound(s) && t in s.prio && m in s.mutexes
    ensures ReleaseOutcome(s, ReleaseStep(s, t, m), t, m)
  {
    var mu := s.mutexes[m];
    assert Consistent(mu);
    if mu.waiting != [] {
      assert mu.waiting[0] in mu.waiting;
    }
  }

  /** A time-out takes that waiter off the list, the others keep their order, and nothing else changes. */
  lemma TimeoutMeans(s: System, t: Tid, m: Mid, k: nat)
    requires Sound(s) && m in s.mutexes && t in s.prio && k < |s.mutexes[m].waiting| && s.mutexes[m].waiting[k] == t
    ensures var mu := s.mutexes[m];
            Apply(s, Timeout(t, m)) == System(s.prio, s.mutexes[m := mu.(waiting := Removed(mu.waiting, k))])
  {
    assert Consistent(s.mutexes[m]);
    WithoutRemoves(s.mutexes[m].waiting, t, k);
  }

  // ---------------------------------------------------------------- in place

  datatype Reply = Done | TimedOut | Refused | Suspended

  /** The thread priorities and mutex objects, changed in place field by field. */
  class MutexObjects {
    var prio: Prios
    var mutexes: map<Mid, Mutex>

    ghost function View(): System
      reads this
    {
      System(prio, mutexes)
    }

    method Take(t: Tid, m: Mid, wait: bool) returns (reply: Reply)
      requires Sound(View()) && t in prio && m in mutexes
      modifies this
      ensures View() == TakeStep(old(View()), t, m, wait) && TakeOutcome(old(View()), View(), t, m, wait)
      ensures reply.Done? <==> Owns(View(), t, m)
      ensures reply.Suspended? <==> wait && !Owns(View(), t, m)
    {
      TakeMeans(View(), t, m, wait);
      reply := Done;
      var mu := mutexes[m];
      assert Consistent(mu);
      if mu.owner == Thread(t) {
        mu := mu.(hold := (mu.hold + 1) % HOLD_LIMIT);
      } else if mu.value > 0 {
        mu := mu.(value := mu.value - 1);
        mu := mu.(owner := Thread(t), original := prio[t]);
        mu := mu.(hold := (mu.hold + 1) % HOLD_LIMIT);
      } else if !wait {
        assert mutexes == mutexes[m := mu];
        reply := TimedOut;
      } else {
        if prio[t] < prio[mu.owner.t] {
          prio := prio[mu.owner.t := prio[t]];
        }
        var n := |mu.waiting|;
        if mu.flag.Prio? {
          n := FindPlace(mu.waiting, prio, prio[t]);
        }
        mu := mu.(waiting := mu.waiting[..n] + [t] + mu.waiting[n..]);
        reply := Suspended;
      }
      mutexes := mutexes[m := mu];
    }

    method Release(t: Tid, m: Mid) returns (reply: Reply)
      requires Sound(View()) && t in prio && m in mutexes
      modifies this
      ensures View() == ReleaseStep(old(View()), t, m) && ReleaseOutcome(old(View()), View(), t, m)
      ensures reply.Done? <==> old(Owns(View(), t, m))
    {
      ReleaseMeans(View(), t, m);
      var mu := mutexes[m];
      if mu.owner != Thread(t) {
        return Refused;
      }
      assert Consistent(mu);
      mu := mu.(hold := mu.hold - 1);
      if mu.hold == 0 {
        if mu.original != prio[t] {
          prio := prio[t := mu.original];
        }
        assert prio == old(prio)[t := mu.original];
        if mu.waiting != [] {
          var next := mu.waiting[0];
          assert next in mu.waiting;
          mu := mu.(owner := Thread(next), original := prio[next]);
          mu := mu.(hold := mu.hold + 1);
          mu := mu.(waiting := mu.waiting[1..]);
        } else {
          mu := mu.(value := mu.value + 1);
          mu := mu.(owner := None, original := NOBODY);
        }
      }
      mutexes := mutexes[m := mu];
      reply := Done;
    }
  }
}
