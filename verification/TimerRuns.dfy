/**
 Runs of the timers. A thread starts a timer in four steps: one region takes the timer out,
 then the clock is read and the due tick written with interrupts enabled, and a second region
 inserts it. Ticks and other contexts may come in between, among them others that start or stop
 the same timer. Callers with interrupts disabled start a timer in one step.
 */
module TimerRuns {
  import opened Links
  import opened TimerRows
  import opened Timers

  /**
   The threads in rt_timer_start, one entry for each: with the timer taken out, with the due tick
   it has computed, or with that tick written. `stopping` holds the timers whose flag a thread in
   rt_timer_stop is about to clear.
   */
  datatype World = World(
    s: State, unlisted: multiset<Id>, read: multiset<(Id, int)>, stamped: multiset<Id>, stopping: multiset<Id>)

  datatype Step = StartTimer(t: Id) | StopTimer(t: Id) | Tick | SetTime(t: Id, ticks: int)
                | SetPeriodic(t: Id) | SetOneShot(t: Id)
                | StartUnlist(t: Id) | StartRead(t: Id) | StartStamp(t: Id, d: int) | StartEnlist(t: Id)
                | StopRegion(t: Id) | StopClear(t: Id)

  /** No due time, pending or not, is half the tick range or more ahead. */
  ghost predicate Below(s: State) {
    forall t :: DueOf(s.due, t) < s.now + HALF
  }

  /** Nor is any that is about to be written. */
  ghost predicate ReadBelow(read: multiset<(Id, int)>, now: int) {
    forall r :: r in read ==> r.1 < now + HALF
  }

  ghost predicate Inv(w: World) {
    Timers.Inv(w.s) && Below(w.s) && ReadBelow(w.read, w.s.now)
  }

  /** Any number of threads may be between the parts of starting or stopping the same timer. */
  ghost predicate Next(w: World, step: Step, w': World)
    requires Inv(w)
  {
    var s := w.s;
    match step
    case StartTimer(t) => w' == w.(s := Start(s, t))
    case StopTimer(t) => w' == w.(s := Stop(s, t).1)
    case Tick => w' == w.(s := AfterTick(s).1)
    case SetTime(t, n) => 0 <= n < HALF && (t in s.periodic ==> n >= 1) && w' == w.(s := s.(init := s.init[t := n]))
    case SetPeriodic(t) => Period(s, t) >= 1 && w' == w.(s := s.(periodic := s.periodic + {t}))
    case SetOneShot(t) => w' == w.(s := s.(periodic := s.periodic - {t}))
    case StartUnlist(t) => w' == w.(s := Unlist(s, t), unlisted := w.unlisted + multiset{t})
    case StartRead(t) =>
      && t in w.unlisted
      && w' == w.(unlisted := w.unlisted - multiset{t}, read := w.read + multiset{(t, s.now + Period(s, t))})
    case StartStamp(t, d) =>
      && (t, d) in w.read
      && w' == w.(s := Stamped(s, t, d), read := w.read - multiset{(t, d)}, stamped := w.stamped + multiset{t})
    case StartEnlist(t) =>
      && t in w.stamped && w' == w.(s := EnlistWrapped(s, t), stamped := w.stamped - multiset{t})
    case StopRegion(t) => w' == w.(s := Unlist(s, t), stopping := w.stopping + multiset{t})
    case StopClear(t) => t in w.stopping && w' == w.(s := Cleared(s, t), stopping := w.stopping - multiset{t})
  }

  /** The due tick is written, whatever has happened since the clock was read. */
  function Stamped(s: State, t: Id, d: int): State {
    s.(due := s.due[t := d])
  }

  /** The flag is cleared after the region of rt_timer_stop, whatever has happened since. */
  function Cleared(s: State, t: Id): State {
    s.(active := s.active - {t})
  }

  // ---------------------------------------------------------------- the three steps

  /** A listed timer that gets due tick `d` stays between the same neighbours, and in the window. */
  ghost predicate Unmoved(s: State, t: Id, d: int) {
    && s.now <= d
    && forall x :: x in s.list && x != t ==>
         && (Precedes(s, x, t) ==> DueOf(s.due, x) < d || (DueOf(s.due, x) == d && DueOf(s.born, x) < DueOf(s.born, t)))
         && (Precedes(s, t, x) ==> d < DueOf(s.due, x) || (d == DueOf(s.due, x) && DueOf(s.born, t) < DueOf(s.born, x)))
  }

  /**
   The condition on a thread that starts or stops a timer: when it stamps or inserts the timer or
   clears its flag, nobody else has made it pending meanwhile, and when it inserts the timer, the
   stamped tick has not passed.
   */
  ghost predicate Timely(w: World, step: Step) {
    match step
    case StartStamp(t, d) => t in w.s.list ==> Unmoved(w.s, t, d)
    case StartEnlist(t) => t !in w.s.list && w.s.now <= DueOf(w.s.due, t)
    case StopClear(t) => t !in w.s.list
    case _ => true
  }

  lemma StampKeepsIff(s: State, t: Id, d: int)
    requires Timers.Inv(s) && d < s.now + HALF
    ensures Timers.Inv(Stamped(s, t, d)) <==> (t in s.list ==> Unmoved(s, t, d))
  {
    var s' := Stamped(s, t, d);
    WindowFacts(s, 0);
    if t !in s.list {
      StampOrdered(s, s', s.list, t);
    } else if Unmoved(s, t, d) {
      forall i, j | 0 <= i < j < |s.list|
        ensures Precedes(s', s.list[i], s.list[j])
      {
        assert Precedes(s, s.list[i], s.list[j]) && s.list[i] in s.list && s.list[j] in s.list;
      }
    } else if Timers.Inv(s') {
      StampMoves(s, t, d);
    }
  }

  /** Conversely, a listed timer that keeps its place is unmoved. */
  lemma StampMoves(s: State, t: Id, d: int)
    requires Timers.Inv(s) && t in s.list && Timers.Inv(Stamped(s, t, d))
    ensures Unmoved(s, t, d)
  {
    var s' := Stamped(s, t, d);
    WindowFacts(s', 0);
    var k :| 0 <= k < |s.list| && s.list[k] == t;
    forall x | x in s.list && x != t
      ensures Precedes(s, x, t) ==> Precedes(s', x, t)
      ensures Precedes(s, t, x) ==> Precedes(s', t, x)
    {
      var i :| 0 <= i < |s.list| && s.list[i] == x;
      if i < k {
        assert Precedes(s, s.list[i], s.list[k]) && Precedes(s', s'.list[i], s'.list[k]);
      } else {
        assert Precedes(s, s.list[k], s.list[i]) && Precedes(s', s'.list[k], s'.list[i]);
      }
    }
  }

  lemma {:induction false} InsertWrappedMembers(row: seq<Id>, due: map<Id, int>, t: Id, d: int)
    ensures forall x :: x in InsertWrapped(row, due, t, d) <==> x in row || x == t
    ensures |InsertWrapped(row, due, t, d)| == |row| + 1
  {
    if row != [] {
      InsertWrappedMembers(row[1..], due, t, d);
      assert row == [row[0]] + row[1..];
    }
  }

  /** A timer inserted twice breaks the order. */
  lemma {:induction false} TwiceUnordered(row: seq<Id>, due: map<Id, int>, t: Id, d: int)
    requires t in row
    ensures !Distinct(InsertWrapped(row, due, t, d))
  {
    var r := InsertWrapped(row, due, t, d);
    if Later(DueOf(due, row[0]) % TICKS, d % TICKS) {
      var k :| 0 <= k < |row| && row[k] == t;
      assert r[0] == t && r[k + 1] == t;
    } else {
      var rest := InsertWrapped(row[1..], due, t, d);
      InsertWrappedMembers(row[1..], due, t, d);
      assert r == [row[0]] + rest;
      if row[0] == t {
        assert t in rest;
        var k :| 0 <= k < |rest| && rest[k] == t;
        assert r[0] == r[k + 1];
      } else {
        TwiceUnordered(row[1..], due, t, d);
        var i, j :| 0 <= i < j < |rest| && rest[i] == rest[j];
        assert r[i + 1] == r[j + 1];
      }
    }
  }

  /** In the window every comparison is exact, so the wrapped insertion is the insertion. */
  lemma EnlistExact(s: State, t: Id)
    requires Timers.Inv(s) && s.now <= DueOf(s.due, t) < s.now + HALF
    ensures forall x :: x in s.list ==> Comparable(DueOf(s.due, x), DueOf(s.due, t))
    ensures EnlistWrapped(s, t) == Enlist(s, t)
  {
    WindowFacts(s, 0);
    InsertWrappedExact(s.list, s.due, t, DueOf(s.due, t));
  }

  lemma EnlistInv(s: State, t: Id)
    requires Timers.Inv(s) && t !in s.list && s.now <= DueOf(s.due, t) < s.now + HALF
    ensures Timers.Inv(Enlist(s, t))
  {
    var s' := Enlist(s, t);
    WindowFacts(s, 0);
    StampOrdered(s, s', s.list, t);
    InsertOrdered(s', s.list, t);
    InsertMembers(s.list, s.due, t, DueOf(s.due, t));
  }

  /** The second region keeps the invariant exactly when the timer is not pending and not late. */
  lemma EnlistKeepsIff(s: State, t: Id)
    requires Timers.Inv(s) && Below(s)
    ensures Timers.Inv(EnlistWrapped(s, t)) <==> t !in s.list && s.now <= DueOf(s.due, t)
  {
    var s' := EnlistWrapped(s, t);
    InsertWrappedMembers(s.list, s.due, t, DueOf(s.due, t));
    if Timers.Inv(s') {
      WindowFacts(s', 0);
      OrderedSorted(s', s'.list);
      if t in s.list {
        TwiceUnordered(s.list, s.due, t, DueOf(s.due, t));
      }
    }
    if t !in s.list && s.now <= DueOf(s.due, t) {
      EnlistExact(s, t);
      EnlistInv(s, t);
    }
  }

  lemma ClearKeepsIff(s: State, t: Id)
    requires Timers.Inv(s)
    ensures Timers.Inv(Cleared(s, t)) <==> t !in s.list
  {
    var s' := Cleared(s, t);
    WindowFacts(s, 0);
    SameOrder(s, s');
    if t in s.list {
      assert !WindowAt(s', 0, t);
    }
  }

  /** Two threads that have both written the due tick of a timer: the second insertion breaks the list. */
  lemma DoubleStart(w: World, t: Id)
    requires Inv(w) && w.stamped[t] >= 2 && t !in w.s.list && w.s.now <= DueOf(w.s.due, t)
    ensures var w1 := w.(s := EnlistWrapped(w.s, t), stamped := w.stamped - multiset{t});
            var w2 := w1.(s := EnlistWrapped(w1.s, t), stamped := w1.stamped - multiset{t});
            Next(w, StartEnlist(t), w1) && Inv(w1) && Next(w1, StartEnlist(t), w2) && !Inv(w2)
  {
    EnlistKeepsIff(w.s, t);
    InsertWrappedMembers(w.s.list, w.s.due, t, DueOf(w.s.due, t));
    EnlistKeepsIff(EnlistWrapped(w.s, t), t);
  }

  /** Without a break the parts are rt_timer_start in one step. */
  lemma PartsAreStart(s: State, t: Id)
    requires Timers.Inv(s)
    ensures EnlistWrapped(Stamped(Unlist(s, t), t, s.now + Period(s, t)), t) == Start(s, t)
  {
    UnlistInv(s, t);
    StampKeepsIff(Unlist(s, t), t, s.now + Period(s, t));
    EnlistExact(Stamp(Unlist(s, t), t), t);
    StartInSteps(s, t);
  }

  // ---------------------------------------------------------------- late timers

  /**
   The sharp bound for the order: a late timer is put in front, where it belongs, if and only if
   the first pending timer is due less than half the tick range after it.
   */
  lemma LateOrderIff(s: State, t: Id)
    requires Timers.Inv(s) && t !in s.list && s.now - HALF <= DueOf(s.due, t) < s.now
    ensures Ordered(EnlistWrapped(s, t), EnlistWrapped(s, t).list) <==>
            (s.list == [] || DueOf(s.due, s.list[0]) - DueOf(s.due, t) < HALF)
  {
    var s', d := EnlistWrapped(s, t), DueOf(s.due, t);
    WindowFacts(s, 0);
    if s.list != [] {
      var x := s.list[0];
      assert x in s.list;
      LaterIff(DueOf(s.due, x), d);
      if DueOf(s.due, x) - d < HALF {
        LateInFront(s, t);
      } else {
        InsertWrappedMembers(s.list[1..], s.due, t, d);
        var rest := InsertWrapped(s.list[1..], s.due, t, d);
        assert s'.list == [x] + rest;
        assert t in rest;
        var k :| 0 <= k < |rest| && rest[k] == t;
        assert s'.list[0] == x && s'.list[k + 1] == t;
        assert !Precedes(s', s'.list[0], s'.list[k + 1]);
      }
    }
  }

  lemma LateInFront(s: State, t: Id)
    requires Timers.Inv(s) && t !in s.list && DueOf(s.due, t) < s.now
    requires EnlistWrapped(s, t).list == [t] + s.list
    ensures Ordered(EnlistWrapped(s, t), EnlistWrapped(s, t).list)
  {
    var s' := EnlistWrapped(s, t);
    WindowFacts(s, 0);
    StampOrdered(s, s', s.list, t);
    forall i, j | 0 <= i < j < |s'.list|
      ensures Precedes(s', s'.list[i], s'.list[j])
    {
      if i == 0 {
        assert s'.list[j] == s.list[j - 1] && s.list[j - 1] in s.list;
      } else {
        assert s'.list[i] == s.list[i - 1] && s'.list[j] == s.list[j - 1];
      }
    }
  }

  /** A late timer in its right place fires at the next tick, too late by the delay and one tick. */
  lemma LateFires(s: State, t: Id)
    requires Timers.Inv(s) && t !in s.list && s.now - HALF + 2 <= DueOf(s.due, t) < s.now
    requires s.list == [] || DueOf(s.due, s.list[0]) - DueOf(s.due, t) < HALF
    ensures var q := EnlistWrapped(s, t).(now := s.now + 1);
            && Expired(DueOf(q.due, t) % TICKS, q.now % TICKS)
            && Place(q.list, q.due, q.now) <= |q.list| && t in Check(q).0
  {
    var s' := EnlistWrapped(s, t);
    var q, lo := s'.(now := s.now + 1), DueOf(s.due, t) - s.now - 1;
    LateOrderIff(s, t);
    SameOrder(s', q);
    WindowFacts(s, 0);
    InsertWrappedMembers(s.list, s.due, t, DueOf(s.due, t));
    CheckFires(q, lo);
    ExpiredIff(DueOf(q.due, t), q.now);
  }

  /** Timer 1, period 1, clock read at tick 0, inserted at tick 3. */
  lemma LateExample()
    ensures var s := State(3, [], map[1 := 1], {}, {}, map[1 := 1], map[], 0);
            Timers.Inv(s) && Below(s) && !Timers.Inv(EnlistWrapped(s, 1))
  {
    var s := State(3, [], map[1 := 1], {}, {}, map[1 := 1], map[], 0);
    EnlistKeepsIff(s, 1);
  }

  /** The same beside a timer due at the far end of the window: the late timer ends up behind it. */
  lemma DisorderExample()
    ensures var s := State(3, [2], map[1 := 1, 2 := HALF + 2], {2}, {}, map[1 := 1, 2 := HALF - 1], map[2 := 0], 1);
            Timers.Inv(s) && Below(s) && EnlistWrapped(s, 1).list == [2, 1]
  {
    var s := State(3, [2], map[1 := 1, 2 := HALF + 2], {2}, {}, map[1 := 1, 2 := HALF - 1], map[2 := 0], 1);
    assert WindowAt(s, 0, 2);
    LaterIff(HALF + 2, 1);
    assert InsertWrapped([2], s.due, 1, 1) == [2] + InsertWrapped([2][1..], s.due, 1, 1);
  }

  // ---------------------------------------------------------------- runs

  lemma TickBelow(s: State)
    requires Timers.Inv(s) && Below(s)
    ensures Timers.Inv(AfterTick(s).1) && Below(AfterTick(s).1) && AfterTick(s).1.now == s.now + 1
  {
    TickChecked(s);
    var s' := AfterTick(s).1;
    forall t
      ensures DueOf(s'.due, t) < s'.now + HALF
    {
      assert DueOf(s.due, t) < s.now + HALF && 0 <= DueOf(s.init, t) < HALF;
    }
  }

  lemma StampBelow(s: State, t: Id, d: int)
    requires Below(s) && d < s.now + HALF
    ensures Below(Stamped(s, t, d))
  {
    forall x
      ensures DueOf(Stamped(s, t, d).due, x) < s.now + HALF
    {
      assert DueOf(s.due, x) < s.now + HALF;
    }
  }

  /** A part of a start or stop with interrupts enabled. */
  predicate Part(step: Step) {
    step.StartRead? || step.StartStamp? || step.StartEnlist? || step.StopClear?
  }

  lemma WholeInv(w: World, step: Step, w': World)
    requires Inv(w) && Next(w, step, w') && !Part(step)
    ensures Inv(w')
  {
    match step
    case StartTimer(t) =>
      assert 0 <= DueOf(w.s.init, t) < HALF;
      StampBelow(w.s, t, w.s.now + Period(w.s, t));
      StartInv(w.s, t);
    case StopTimer(t) => StopInv(w.s, t);
    case Tick => TickBelow(w.s);
    case SetTime(t, n) =>
      assert forall x :: DueOf(w'.s.init, x) == if x == t then n else DueOf(w.s.init, x);
      SettingsInv(w.s, w'.s);
    case SetPeriodic(t) => SettingsInv(w.s, w'.s);
    case SetOneShot(t) => SettingsInv(w.s, w'.s);
    case StartUnlist(t) => UnlistInv(w.s, t);
    case StopRegion(t) => UnlistInv(w.s, t);
  }

  lemma PartInvIff(w: World, step: Step, w': World)
    requires Inv(w) && Next(w, step, w') && Part(step)
    ensures Inv(w') <==> Timely(w, step)
  {
    match step
    case StartRead(t) => assert 0 <= DueOf(w.s.init, t) < HALF;
    case StartStamp(t, d) =>
      assert (t, d).1 < w.s.now + HALF;
      StampBelow(w.s, t, d);
      StampKeepsIff(w.s, t, d);
    case StartEnlist(t) => EnlistKeepsIff(w.s, t);
    case StopClear(t) => ClearKeepsIff(w.s, t);
  }

  /** A step keeps the invariant if and only if it is timely. */
  lemma StepInvIff(w: World, step: Step, w': World)
    requires Inv(w) && Next(w, step, w')
    ensures Inv(w') <==> Timely(w, step)
  {
    if Part(step) {
      PartInvIff(w, step, w');
    } else {
      WholeInv(w, step, w');
    }
  }

  ghost predicate NextAt(ws: seq<World>, steps: seq<Step>, i: nat)
    requires i < |steps| < |ws|
  {
    Inv(ws[i]) ==> Next(ws[i], steps[i], ws[i + 1])
  }

  ghost predicate Run(ws: seq<World>, steps: seq<Step>) {
    && |ws| == |steps| + 1
    && ws[0].s.now >= 0 && ws[0].s.list == [] && ws[0].s.active == {} && ws[0].s.due == map[]
    && ws[0].read == multiset{}
    && PeriodsOk(ws[0].s.init, ws[0].s.periodic)
    && forall i {:trigger NextAt(ws, steps, i)} :: 0 <= i < |steps| ==> NextAt(ws, steps, i)
  }

  ghost predicate TimelyAt(ws: seq<World>, steps: seq<Step>, j: nat)
    requires j < |steps| < |ws|
  {
    Timely(ws[j], steps[j])
  }

  ghost predicate InvAt(ws: seq<World>, i: nat)
    requires i < |ws|
  {
    Inv(ws[i])
  }

  lemma FirstInv(ws: seq<World>, steps: seq<Step>)
    requires Run(ws, steps)
    ensures InvAt(ws, 0)
  {
  }

  lemma NextInvIff(ws: seq<World>, steps: seq<Step>, j: nat)
    requires Run(ws, steps) && j < |steps| && InvAt(ws, j)
    ensures InvAt(ws, j + 1) <==> TimelyAt(ws, steps, j)
  {
    assert NextAt(ws, steps, j);
    StepInvIff(ws[j], steps[j], ws[j + 1]);
  }

  /** Over every run: the invariant holds up to step `k` if and only if the first `k` steps are timely. */
  lemma {:induction false} RunInvIff(ws: seq<World>, steps: seq<Step>, k: nat)
    requires Run(ws, steps) && k <= |steps|
    ensures (forall i :: 0 <= i <= k ==> InvAt(ws, i)) <==> (forall j :: 0 <= j < k ==> TimelyAt(ws, steps, j))
  {
    if k == 0 {
      FirstInv(ws, steps);
    } else {
      var j := k - 1;
      RunInvIff(ws, steps, j);
      if forall i :: 0 <= i < k ==> InvAt(ws, i) {
        assert InvAt(ws, j);
        NextInvIff(ws, steps, j);
      } else {
        var l :| 0 <= l < j && !TimelyAt(ws, steps, l);
      }
    }
  }

  /** Starts and stops without a break are always timely: the invariant holds in every state of such a run. */
  lemma RunInv(ws: seq<World>, steps: seq<Step>, i: nat)
    requires Run(ws, steps) && i < |ws|
    requires forall j :: 0 <= j < |steps| ==> !steps[j].StartStamp? && !steps[j].StartEnlist? && !steps[j].StopClear?
    ensures Inv(ws[i])
  {
    forall j | 0 <= j < i
      ensures TimelyAt(ws, steps, j)
    {
      assert !steps[j].StartStamp?;
    }
    RunInvIff(ws, steps, i);
    assert InvAt(ws, i);
  }

  /**
   As long as all steps are timely, any two pending timers are comparable, and so are a pending
   timer and one that is started in one step or inserted in time.
   */
  lemma AlwaysComparable(ws: seq<World>, steps: seq<Step>, i: nat, x: Id, y: Id)
    requires Run(ws, steps) && i < |ws| && forall j :: 0 <= j < i ==> TimelyAt(ws, steps, j)
    requires x in ws[i].s.list
    ensures var s := ws[i].s;
            && (y in s.list ==> Comparable(DueOf(s.due, x), DueOf(s.due, y)))
            && Comparable(DueOf(s.due, x), s.now + Period(s, y))
            && (s.now <= DueOf(s.due, y) ==> Comparable(DueOf(s.due, x), DueOf(s.due, y)))
  {
    RunInvIff(ws, steps, i);
    assert InvAt(ws, i);
    WindowFacts(ws[i].s, 0);
  }

  // ---------------------------------------------------------------- one timer through a run

  /** A step that some thread makes with this timer. */
  predicate Touches(step: Step, t: Id) {
    match step
    case StartTimer(x) => x == t
    case StopTimer(x) => x == t
    case StartUnlist(x) => x == t
    case StartStamp(x, _) => x == t
    case StartEnlist(x) => x == t
    case StopRegion(x) => x == t
    case StopClear(x) => x == t
    case _ => false
  }

  /** `t` is pending, due at tick `d`. */
  ghost predicate PendingAt(w: World, t: Id, d: int) {
    t in w.s.list && DueOf(w.s.due, t) == d
  }

  /** A pending timer that nobody touches stays pending, and due when it was, unless a tick fires it. */
  lemma StepPending(w: World, step: Step, w': World, t: Id)
    requires Inv(w) && Next(w, step, w') && Timely(w, step) && !Touches(step, t) && t in w.s.list
    requires step.Tick? ==> w.s.now + 1 < DueOf(w.s.due, t)
    ensures PendingAt(w', t, DueOf(w.s.due, t))
    ensures w'.s.now == if step.Tick? then w.s.now + 1 else w.s.now
  {
    match step
    case StartTimer(x) => StartMeans(w.s, x);
    case StopTimer(x) => StopMeans(w.s, x);
    case Tick => TickChecked(w.s);
    case StartEnlist(x) => InsertWrappedMembers(w.s.list, w.s.due, x, DueOf(w.s.due, x));
    case _ =>
  }

  /** And one that is not pending does not become so by itself; no tick fires it. */
  lemma StepIdle(w: World, step: Step, w': World, t: Id)
    requires Inv(w) && Next(w, step, w') && Timely(w, step) && !Touches(step, t) && t !in w.s.list
    ensures t !in w'.s.list && (step.Tick? ==> t !in AfterTick(w.s).0)
  {
    match step
    case StartTimer(x) => StartMeans(w.s, x);
    case StopTimer(x) => StopMeans(w.s, x);
    case Tick => TickChecked(w.s);
    case StartEnlist(x) => InsertWrappedMembers(w.s.list, w.s.due, x, DueOf(w.s.due, x));
    case _ =>
  }

  lemma NowGrows(w: World, step: Step, w': World)
    requires Inv(w) && Next(w, step, w')
    ensures w'.s.now == if step.Tick? then w.s.now + 1 else w.s.now
  {
    if step.Tick? {
      TickChecked(w.s);
    }
  }

  ghost predicate LeftAlone(ws: seq<World>, steps: seq<Step>, i: nat, k: nat, t: Id)
    requires i <= k <= |steps| < |ws|
  {
    (forall j :: 0 <= j < k ==> TimelyAt(ws, steps, j)) && (forall j :: i <= j < k ==> !Touches(steps[j], t))
  }

  /** Over every run: it stays pending until the tick at which it is due. */
  lemma {:induction false} StaysPending(ws: seq<World>, steps: seq<Step>, i: nat, k: nat, t: Id)
    requires Run(ws, steps) && i <= k <= |steps| && LeftAlone(ws, steps, i, k, t) && t in ws[i].s.list
    requires ws[k].s.now < DueOf(ws[i].s.due, t) || ws[k].s.now == ws[i].s.now
    ensures PendingAt(ws[k], t, DueOf(ws[i].s.due, t)) && ws[i].s.now <= ws[k].s.now
    decreases k - i
  {
    if i < k {
      var j := k - 1;
      RunInvIff(ws, steps, j);
      assert InvAt(ws, j) && NextAt(ws, steps, j) && TimelyAt(ws, steps, j);
      NowGrows(ws[j], steps[j], ws[k]);
      Monotone(ws, steps, i, j);
      StaysPending(ws, steps, i, j, t);
      StepPending(ws[j], steps[j], ws[k], t);
    }
  }

  lemma {:induction false} Monotone(ws: seq<World>, steps: seq<Step>, i: nat, k: nat)
    requires Run(ws, steps) && i <= k <= |steps| && forall j :: 0 <= j < k ==> TimelyAt(ws, steps, j)
    ensures ws[i].s.now <= ws[k].s.now
    decreases k - i
  {
    if i < k {
      var j := k - 1;
      Monotone(ws, steps, i, j);
      RunInvIff(ws, steps, j);
      assert InvAt(ws, j) && NextAt(ws, steps, j);
      NowGrows(ws[j], steps[j], ws[k]);
    }
  }

  /**
   Over every run: a timer started in one step, with nobody touching it afterwards, fires at the
   tick that is one period after the start, or at the next one if the period is 0; no tick before
   that fires it.
   */
  lemma FiresAfterPeriod(ws: seq<World>, steps: seq<Step>, i: nat, k: nat, t: Id)
    requires Run(ws, steps) && i < k < |steps| && steps[i] == StartTimer(t) && steps[k] == Tick
    requires LeftAlone(ws, steps, i + 1, k, t)
    ensures Inv(ws[i]) && Inv(ws[k])
    ensures var p := if Period(ws[i].s, t) > 0 then Period(ws[i].s, t) else 1;
            ws[k].s.now + 1 <= ws[i].s.now + p ==> (t in AfterTick(ws[k].s).0 <==> ws[k].s.now + 1 == ws[i].s.now + p)
  {
    RunInvIff(ws, steps, i);
    RunInvIff(ws, steps, k);
    assert InvAt(ws, i) && InvAt(ws, k) && NextAt(ws, steps, i);
    StartMeans(ws[i].s, t);
    Monotone(ws, steps, i + 1, k);
    if ws[k].s.now + 1 <= ws[i].s.now + (if Period(ws[i].s, t) > 0 then Period(ws[i].s, t) else 1) {
      StaysPending(ws, steps, i + 1, k, t);
      FiresOnTime(ws, steps, k, t);
    }
  }

  /**
   As long as all steps are timely, a tick fires exactly the pending timers that are due by then;
   none is overdue by more than the tick that a timer with period 0 has to wait for.
   */
  lemma FiresOnTime(ws: seq<World>, steps: seq<Step>, i: nat, t: Id)
    requires Run(ws, steps) && i < |steps| && steps[i] == Tick && forall j :: 0 <= j < i ==> TimelyAt(ws, steps, j)
    ensures Inv(ws[i])
    ensures var s := ws[i].s;
            && ws[i + 1].s == AfterTick(s).1
            && (t in AfterTick(s).0 <==> t in s.list && DueOf(s.due, t) <= s.now + 1)
            && (t in s.list ==> s.now <= DueOf(s.due, t))
  {
    RunInvIff(ws, steps, i);
    assert InvAt(ws, i) && NextAt(ws, steps, i);
    WindowFacts(ws[i].s, 0);
    TickChecked(ws[i].s);
  }
}
