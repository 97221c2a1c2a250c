/**
 Starting, stopping and firing timers, on the list of pending timers.

 `due`, `now` and `init` count ticks without wrap-around; `born` numbers the starts of a timer.
 */
module Timers {
  import opened Links
  import opened WaitLists
  import opened TimerRows

  datatype State = State(
    now: int, list: seq<Id>, due: map<Id, int>, active: set<Id>, periodic: set<Id>, init: map<Id, int>,
    born: map<Id, int>, starts: int)

  function Period(s: State, t: Id): int {
    DueOf(s.init, t)
  }

  // ---------------------------------------------------------------- operations

  /** First region of rt_timer_start: the timer is taken out and no longer active. */
  function Unlist(s: State, t: Id): State {
    s.(list := Without(s.list, t), active := s.active - {t})
  }

  /** The clock is read between the two regions. */
  function Stamp(s: State, t: Id): State {
    s.(due := s.due[t := s.now + Period(s, t)])
  }

  /** Second region, as it should be: behind all timers due no later. */
  function Enlist(s: State, t: Id): State {
    s.(list := Insert(s.list, s.due, t, DueOf(s.due, t)), active := s.active + {t},
       born := s.born[t := s.starts], starts := s.starts + 1)
  }

  /** Second region, as the wrapped comparison does it in a single row. */
  function EnlistWrapped(s: State, t: Id): State {
    Enlist(s, t).(list := InsertWrapped(s.list, s.due, t, DueOf(s.due, t)))
  }

  /** rt_timer_start without a break: due one period from now, behind all timers due no later. */
  function Start(s: State, t: Id): State {
    var d := s.now + Period(s, t);
    var due := s.due[t := d];
    s.(list := Insert(Without(s.list, t), due, t, d), due := due, active := s.active + {t},
       born := s.born[t := s.starts], starts := s.starts + 1)
  }

  lemma StartInSteps(s: State, t: Id)
    ensures Enlist(Stamp(Unlist(s, t), t), t) == Start(s, t)
  {
    assert s.active - {t} + {t} == s.active + {t};
  }

  /** rt_timer_stop. */
  function Stop(s: State, t: Id): (bool, State) {
    if t !in s.active then (false, s) else (true, s.(list := Without(s.list, t), active := s.active - {t}))
  }

  /** What rt_timer_check does with a timer once its function has been called. */
  function Rearm(s: State, t: Id): State {
    if t in s.periodic && t in s.active then Start(s.(active := s.active - {t}), t)
    else s.(active := s.active - {t})
  }

  function RearmAll(s: State, fired: seq<Id>): State {
    if fired == [] then s else Rearm(RearmAll(s, fired[..|fired| - 1]), fired[|fired| - 1])
  }

  /** What rt_timer_check comes to: all expired timers fire, then the periodic ones start again. */
  function Check(s: State): (seq<Id>, State)
    requires Place(s.list, s.due, s.now) <= |s.list|
  {
    var n := Place(s.list, s.due, s.now);
    (s.list[..n], RearmAll(s.(list := s.list[n..]), s.list[..n]))
  }

  // ---------------------------------------------------------------- the invariant

  /** Earlier due, or due together and started earlier. */
  ghost predicate Precedes(s: State, x: Id, y: Id) {
    DueOf(s.due, x) < DueOf(s.due, y) || (DueOf(s.due, x) == DueOf(s.due, y) && DueOf(s.born, x) < DueOf(s.born, y))
  }

  ghost predicate Ordered(s: State, list: seq<Id>) {
    forall i, j {:trigger Precedes(s, list[i], list[j])} :: 0 <= i < j < |list| ==> Precedes(s, list[i], list[j])
  }

  /** Periods the code accepts; a periodic timer has to move on. */
  ghost predicate PeriodsOk(init: map<Id, int>, periodic: set<Id>) {
    && (forall t :: 0 <= DueOf(init, t) < HALF)
    && (forall t :: t in periodic ==> DueOf(init, t) >= 1)
  }

  /** Every pending timer is due within [now + lo, now + HALF). */
  ghost predicate Window(s: State, lo: int) {
    forall t {:trigger WindowAt(s, lo, t)} :: t in s.list ==> WindowAt(s, lo, t)
  }

  ghost predicate WindowAt(s: State, lo: int, t: Id) {
    t in s.active && s.now + lo <= DueOf(s.due, t) < s.now + HALF && DueOf(s.born, t) < s.starts
  }

  ghost predicate Core(s: State, lo: int) {
    Ordered(s, s.list) && PeriodsOk(s.init, s.periodic) && Window(s, lo)
  }

  /** What holds between any two steps. */
  ghost predicate Inv(s: State) {
    Core(s, 0) && forall t :: t in s.active ==> t in s.list
  }

  /** Window written out. */
  lemma WindowFacts(s: State, lo: int)
    requires Window(s, lo)
    ensures forall t :: t in s.list ==>
      t in s.active && s.now + lo <= DueOf(s.due, t) < s.now + HALF && DueOf(s.born, t) < s.starts
  {
    forall t | t in s.list
      ensures t in s.active && s.now + lo <= DueOf(s.due, t) < s.now + HALF && DueOf(s.born, t) < s.starts
    {
      assert WindowAt(s, lo, t);
    }
  }

  lemma OrderedSorted(s: State, list: seq<Id>)
    requires Ordered(s, list)
    ensures SortedBy(list, s.due) && Distinct(list)
  {
    forall i, j | 0 <= i < j < |list|
      ensures DueOf(s.due, list[i]) <= DueOf(s.due, list[j]) && list[i] != list[j]
    {
      assert Precedes(s, list[i], list[j]);
    }
  }

  // ---------------------------------------------------------------- starting and stopping

  lemma WithoutOrdered(s: State, t: Id)
    requires Ordered(s, s.list)
    ensures Ordered(s, Without(s.list, t))
  {
    WithoutOrderedList(s, s.list, t);
  }

  lemma {:induction false} WithoutOrderedList(s: State, list: seq<Id>, t: Id)
    requires Ordered(s, list)
    ensures Ordered(s, Without(list, t))
  {
    if list != [] {
      WithoutOrderedList(s, list[1..], t);
      var w := Without(list[1..], t);
      forall j | 0 <= j < |w|
        ensures Precedes(s, list[0], w[j])
      {
        assert w[j] in list[1..];
        var k :| 0 <= k < |list[1..]| && list[1..][k] == w[j];
        assert list[k + 1] == w[j];
      }
    }
  }

  /** A timer that is not pending is inserted where due time and age put it. */
  lemma InsertOrdered(s: State, list: seq<Id>, t: Id)
    requires Ordered(s, list) && t !in list
    requires forall x :: x in list ==> DueOf(s.born, x) < DueOf(s.born, t)
    ensures Ordered(s, Insert(list, s.due, t, DueOf(s.due, t)))
  {
    var d := DueOf(s.due, t);
    InsertAtPlace(list, s.due, t, d);
    var p, r := Place(list, s.due, d), Insert(list, s.due, t, d);
    forall i, j | 0 <= i < j < |r|
      ensures Precedes(s, r[i], r[j])
    {
      if i == p {
        assert r[j] == list[j - 1];
        assert j - 1 > p ==> Precedes(s, list[p], list[j - 1]);
      } else if j == p {
        assert r[i] == list[i] && list[i] in list;
      } else {
        assert r[i] == list[if i < p then i else i - 1] && r[j] == list[if j < p then j else j - 1];
      }
    }
  }

  lemma StartOrdered(s: State, t: Id)
    requires Ordered(s, s.list) && forall x :: x in s.list ==> DueOf(s.born, x) < s.starts
    ensures Ordered(Start(s, t), Start(s, t).list)
    ensures forall x :: x in Start(s, t).list <==> x in s.list || x == t
  {
    var s' := Start(s, t);
    var rest := Without(s.list, t);
    WithoutOrdered(s, t);
    StampOrdered(s, s', rest, t);
    InsertOrdered(s', rest, t);
    InsertMembers(rest, s'.due, t, DueOf(s'.due, t));
  }

  lemma StampOrdered(s: State, s': State, rest: seq<Id>, t: Id)
    requires Ordered(s, rest) && t !in rest
    requires forall x :: x != t ==> DueOf(s'.due, x) == DueOf(s.due, x) && DueOf(s'.born, x) == DueOf(s.born, x)
    ensures Ordered(s', rest)
  {
    forall i, j | 0 <= i < j < |rest|
      ensures Precedes(s', rest[i], rest[j])
    {
      assert rest[i] in rest && rest[j] in rest && Precedes(s, rest[i], rest[j]);
    }
  }

  lemma StartCore(s: State, t: Id, lo: int)
    requires Core(s, lo) && lo <= Period(s, t)
    ensures Core(Start(s, t), lo)
    ensures forall x :: x in Start(s, t).list <==> x in s.list || x == t
  {
    var s' := Start(s, t);
    WindowFacts(s, lo);
    StartOrdered(s, t);
  }

  lemma StartInv(s: State, t: Id)
    requires Inv(s)
    ensures Inv(Start(s, t))
  {
    StartCore(s, t, 0);
  }

  lemma UnlistInv(s: State, t: Id)
    requires Inv(s)
    ensures Inv(Unlist(s, t)) && t !in Unlist(s, t).list
  {
    var s' := Unlist(s, t);
    WindowFacts(s, 0);
    WithoutOrdered(s, t);
    forall i, j | 0 <= i < j < |s'.list|
      ensures Precedes(s', s'.list[i], s'.list[j])
    {
      assert Precedes(s, s'.list[i], s'.list[j]);
    }
  }

  lemma StopInv(s: State, t: Id)
    requires Inv(s)
    ensures Inv(Stop(s, t).1) && t !in Stop(s, t).1.list && Stop(s, t).0 == (t in s.list)
  {
    WindowFacts(s, 0);
    UnlistInv(s, t);
  }

  // ---------------------------------------------------------------- what the calls do

  /** Every timer but `t` is pending and active as before, due as before, and in the same order. */
  ghost predicate Untouched(s: State, s': State, t: Id) {
    && s'.now == s.now && s'.periodic == s.periodic && s'.init == s.init
    && Without(s'.list, t) == Without(s.list, t)
    && (forall x :: x != t ==>
          && (x in s'.list <==> x in s.list) && (x in s'.active <==> x in s.active)
          && DueOf(s'.due, x) == DueOf(s.due, x) && DueOf(s'.born, x) == DueOf(s.born, x))
  }

  /** `t` is neither pending nor active; that it was due remains on record. */
  ghost predicate TakenOut(s: State, s': State, t: Id) {
    && Untouched(s, s', t) && t !in s'.list && t !in s'.active
    && s'.due == s.due && s'.born == s.born && s'.starts == s.starts
  }

  /** `t` is pending and active, due one period from now, and the youngest. */
  ghost predicate Started(s: State, s': State, t: Id) {
    && Untouched(s, s', t) && t in s'.list && t in s'.active
    && DueOf(s'.due, t) == s.now + Period(s, t)
    && DueOf(s'.born, t) == s.starts && s'.starts == s.starts + 1
  }

  lemma {:induction false} InsertThenWithout(row: seq<Id>, due: map<Id, int>, t: Id, d: int)
    ensures Without(Insert(row, due, t, d), t) == Without(row, t)
  {
    if row != [] && DueOf(due, row[0]) <= d {
      InsertThenWithout(row[1..], due, t, d);
      var more := Insert(row[1..], due, t, d);
      assert ([row[0]] + more)[1..] == more;
    } else {
      assert ([t] + row)[1..] == row;
    }
  }

  lemma UnlistMeans(s: State, t: Id)
    ensures TakenOut(s, Unlist(s, t), t)
  {
    WithoutAbsent(Without(s.list, t), t);
  }

  /** A stop takes out a pending timer and leaves the others alone; otherwise it is refused. */
  lemma StopMeans(s: State, t: Id)
    requires Inv(s)
    ensures var (ok, s') := Stop(s, t);
            (ok <==> t in s.list) && if ok then TakenOut(s, s', t) else s' == s
  {
    WindowFacts(s, 0);
    UnlistMeans(s, t);
  }

  lemma StartMeans(s: State, t: Id)
    ensures Started(s, Start(s, t), t)
  {
    StartList(s, t);
    StartFields(s, t);
    StartedFrom(s, Start(s, t).list, t);
  }

  lemma StartList(s: State, t: Id)
    ensures var s' := Start(s, t);
            && Without(s'.list, t) == Without(s.list, t) && (forall x :: x in s'.list <==> x in s.list || x == t)
  {
    RestartedList(s.list, s.due[t := s.now + Period(s, t)], t, s.now + Period(s, t));
  }

  lemma StartFields(s: State, t: Id)
    ensures Start(s, t) == s.(list := Start(s, t).list, due := s.due[t := s.now + Period(s, t)],
                              active := s.active + {t}, born := s.born[t := s.starts], starts := s.starts + 1)
  {
  }

  lemma StartedFrom(s: State, list: seq<Id>, t: Id)
    requires Without(list, t) == Without(s.list, t) && forall x :: x in list <==> x in s.list || x == t
    ensures Started(s, s.(list := list, due := s.due[t := s.now + Period(s, t)], active := s.active + {t},
                          born := s.born[t := s.starts], starts := s.starts + 1), t)
  {
  }

  lemma RestartedList(list: seq<Id>, due: map<Id, int>, t: Id, d: int)
    ensures var list' := Insert(Without(list, t), due, t, d);
            Without(list', t) == Without(list, t) && forall x :: x in list' <==> x in list || x == t
  {
    InsertThenWithout(Without(list, t), due, t, d);
    WithoutAbsent(Without(list, t), t);
    InsertMembers(Without(list, t), due, t, d);
  }

  // ---------------------------------------------------------------- firing

  /** What restarting the timers `fired` does to a list of timers due later. */
  ghost predicate Rearmed(s: State, fired: seq<Id>, r: State) {
    && Core(r, 1)
    && r.now == s.now && r.periodic == s.periodic && r.init == s.init
    && (forall x :: x in r.list <==> x in s.list || (x in fired && x in s.periodic))
    && (forall x :: x in r.active <==> x in s.active && (x in fired ==> x in s.periodic))
    && (forall x :: DueOf(r.due, x) == if x in fired && x in s.periodic then s.now + Period(s, x) else DueOf(s.due, x))
  }

  lemma {:induction false} RearmAllOk(s: State, fired: seq<Id>)
    requires Core(s, 1) && Distinct(fired)
    requires forall x :: x in fired ==> x !in s.list && x in s.active
    ensures Rearmed(s, fired, RearmAll(s, fired))
  {
    if fired != [] {
      var n := |fired| - 1;
      var t, rest := fired[n], fired[..n];
      assert fired == rest + [t];
      assert t in fired && t !in rest;
      RearmAllOk(s, rest);
      RearmOk(s, rest, t, RearmAll(s, rest));
    }
  }

  lemma RearmOk(s: State, rest: seq<Id>, t: Id, r: State)
    requires PeriodsOk(s.init, s.periodic) && Rearmed(s, rest, r) && t !in rest && t !in s.list && t in s.active
    ensures Rearmed(s, rest + [t], Rearm(r, t))
  {
    assert Period(r, t) == Period(s, t);
    assert t !in r.list;
    RearmOne(r, t);
    assert forall x :: x in rest + [t] <==> x in rest || x == t;
  }

  /** One timer that is not pending is restarted if it is periodic. */
  lemma RearmOne(r: State, t: Id)
    requires Core(r, 1) && t !in r.list && t in r.active
    ensures var r' := Rearm(r, t);
            && Core(r', 1) && r'.now == r.now && r'.periodic == r.periodic && r'.init == r.init
            && (forall x :: x in r'.list <==> x in r.list || (x == t && t in r.periodic))
            && (forall x :: x in r'.active <==> x in r.active && (x == t ==> t in r.periodic))
            && (forall x :: DueOf(r'.due, x) ==
                  if x == t && t in r.periodic then r.now + Period(r, t) else DueOf(r.due, x))
  {
    var q := r.(active := r.active - {t});
    SameCore(r, q, 1, t);
    if t in r.periodic {
      StartCore(q, t, 1);
    }
  }

  /** The flag of a timer that is not pending does not matter. */
  lemma SameCore(r: State, q: State, lo: int, t: Id)
    requires Core(r, lo) && t !in r.list && q == r.(active := r.active - {t})
    ensures Core(q, lo)
  {
    SameOrder(r, q);
    forall x | x in q.list
      ensures WindowAt(q, lo, x)
    {
      assert WindowAt(r, lo, x);
    }
  }

  lemma SameOrder(r: State, q: State)
    requires q.due == r.due && q.born == r.born && q.list == r.list && Ordered(r, r.list)
    ensures Ordered(q, q.list)
  {
    forall i, j | 0 <= i < j < |q.list|
      ensures Precedes(q, q.list[i], q.list[j])
    {
      assert Precedes(r, r.list[i], r.list[j]);
    }
  }

  /** What rt_timer_check achieves. */
  ghost predicate Checked(s: State, fired: seq<Id>, r: State) {
    && Inv(r) && r.now == s.now && r.periodic == s.periodic && r.init == s.init
    && Distinct(fired) && Ordered(s, fired)
    && (forall x :: x in fired <==> x in s.list && DueOf(s.due, x) <= s.now)
    && (forall x :: x in r.list <==> (x in s.list && x !in fired) || (x in fired && x in s.periodic))
    && (forall x :: x in r.list ==> DueOf(r.due, x) > s.now)
    && (forall x :: DueOf(r.due, x) == if x in fired && x in s.periodic then s.now + Period(s, x) else DueOf(s.due, x))
  }

  /**
   Each expired timer fires once, in order of due time and then of start; exactly the periodic
   ones are pending again; everything left is due strictly later.
   */
  lemma CheckFires(s: State, lo: int)
    requires Core(s, lo) && forall t :: t in s.active ==> t in s.list
    ensures Place(s.list, s.due, s.now) <= |s.list|
    ensures Checked(s, Check(s).0, Check(s).1)
  {
    var q, fired := CheckSplit(s, lo);
    RearmAllOk(q, fired);
    AllChecked(s, q, fired, RearmAll(q, fired));
  }

  /** The expired timers in front, and the state without them. */
  lemma CheckSplit(s: State, lo: int) returns (q: State, fired: seq<Id>)
    requires Core(s, lo) && forall t :: t in s.active ==> t in s.list
    ensures Place(s.list, s.due, s.now) <= |s.list| && Check(s) == (fired, RearmAll(q, fired))
    ensures q == s.(list := q.list) && s.list == fired + q.list && Core(q, 1)
    ensures Distinct(fired) && Ordered(s, fired) && forall t :: t in s.active <==> t in s.list
    ensures forall x :: x in fired ==> x !in q.list && x in q.active && DueOf(s.due, x) <= s.now
    ensures forall x :: x in q.list ==> DueOf(s.due, x) > s.now
  {
    InsertAtPlace(s.list, s.due, 0, s.now);
    WindowFacts(s, lo);
    var n := Place(s.list, s.due, s.now);
    SplitOrdered(s, n, lo);
    q, fired := s.(list := s.list[n..]), s.list[..n];
  }

  /** Restarted timers count as started in the order in which they fired, after all others. */
  lemma {:induction false} RearmAllBorn(s: State, fired: seq<Id>)
    requires Distinct(fired) && forall x :: x in fired ==> x in s.active
    ensures var r := RearmAll(s, fired);
            && r.starts >= s.starts && r.periodic == s.periodic
            && (forall x :: x !in fired ==> (x in r.active <==> x in s.active))
            && (forall x :: x !in fired || x !in s.periodic ==> DueOf(r.born, x) == DueOf(s.born, x))
            && (forall x :: x in fired && x in s.periodic ==> s.starts <= DueOf(r.born, x) < r.starts)
            && (forall i, j :: 0 <= i < j < |fired| && fired[i] in s.periodic && fired[j] in s.periodic ==>
                  DueOf(r.born, fired[i]) < DueOf(r.born, fired[j]))
  {
    if fired != [] {
      var n := |fired| - 1;
      var t, rest := fired[n], fired[..n];
      assert fired == rest + [t];
      assert t in fired && t !in rest;
      RearmAllBorn(s, rest);
      RearmBorn(RearmAll(s, rest), t);
    }
  }

  lemma RearmBorn(r: State, t: Id)
    requires t in r.active
    ensures var r' := Rearm(r, t);
            && r'.periodic == r.periodic && (forall x :: x != t ==> (x in r'.active <==> x in r.active))
            && (forall x :: x != t || t !in r.periodic ==> DueOf(r'.born, x) == DueOf(r.born, x))
            && (if t in r.periodic then r'.starts == r.starts + 1 && DueOf(r'.born, t) == r.starts
                else r'.starts == r.starts)
  {
  }

  /** No timer but the restarted ones changes its age. */
  lemma CheckAges(s: State, lo: int)
    requires Core(s, lo) && forall t :: t in s.active ==> t in s.list
    ensures Place(s.list, s.due, s.now) <= |s.list|
    ensures var (fired, r) := Check(s);
            && (forall x :: x !in fired || x !in s.periodic ==> DueOf(r.born, x) == DueOf(s.born, x))
            && (forall x :: x in fired && x in s.periodic ==> s.starts <= DueOf(r.born, x))
            && (forall i, j :: 0 <= i < j < |fired| && fired[i] in s.periodic && fired[j] in s.periodic ==>
                  DueOf(r.born, fired[i]) < DueOf(r.born, fired[j]))
  {
    var q, fired := CheckSplit(s, lo);
    RearmAllBorn(q, fired);
  }

  lemma AllChecked(s: State, q: State, fired: seq<Id>, r: State)
    requires s.list == fired + q.list && q == s.(list := q.list)
    requires (forall t :: t in s.active <==> t in s.list) && Distinct(fired) && Ordered(s, fired)
    requires forall x :: x in fired ==> x !in q.list && DueOf(s.due, x) <= s.now
    requires forall x :: x in q.list ==> DueOf(s.due, x) > s.now
    requires Rearmed(q, fired, r)
    ensures Checked(s, fired, r)
  {
    assert forall x :: x in s.list <==> x in fired || x in q.list;
    WindowFacts(r, 1);
  }

  lemma SplitOrdered(s: State, n: nat, lo: int)
    requires Core(s, lo) && n <= |s.list|
    requires forall i :: 0 <= i < n ==> DueOf(s.due, s.list[i]) <= s.now
    requires n < |s.list| ==> DueOf(s.due, s.list[n]) > s.now
    ensures Core(s.(list := s.list[n..]), 1) && Distinct(s.list[..n]) && Ordered(s, s.list[..n])
    ensures forall x :: x in s.list[..n] ==> x !in s.list[n..] && x in s.list && DueOf(s.due, x) <= s.now
    ensures forall x :: x in s.list[n..] ==> x in s.list && DueOf(s.due, x) > s.now
  {
    assert s.list[..n] == s.list[0..n] && s.list[n..] == s.list[n..|s.list|];
    SliceOrdered(s, 0, n);
    SliceOrdered(s, n, |s.list|);
    OrderedSorted(s, s.list);
    LaterPart(s, n, lo);
    forall x | x in s.list[..n]
      ensures x in s.list && DueOf(s.due, x) <= s.now
    {
      var i :| 0 <= i < n && s.list[i] == x;
    }
  }

  lemma LaterPart(s: State, n: nat, lo: int)
    requires Ordered(s, s.list) && Window(s, lo) && n <= |s.list|
    requires n < |s.list| ==> DueOf(s.due, s.list[n]) > s.now
    ensures forall x :: x in s.list[n..] ==> x in s.list && DueOf(s.due, x) > s.now
    ensures Window(s.(list := s.list[n..]), 1)
  {
    var later, q := s.list[n..], s.(list := s.list[n..]);
    forall x | x in later
      ensures x in s.list && DueOf(s.due, x) > s.now && WindowAt(q, 1, x)
    {
      var j :| 0 <= j < |later| && later[j] == x;
      assert s.list[n + j] == x && WindowAt(s, lo, x);
      assert j > 0 ==> Precedes(s, s.list[n], s.list[n + j]);
    }
  }

  lemma SliceOrdered(s: State, a: nat, b: nat)
    requires Ordered(s, s.list) && a <= b <= |s.list|
    ensures Ordered(s.(list := s.list[a..b]), s.list[a..b]) && Ordered(s, s.list[a..b])
  {
    var part := s.list[a..b];
    forall i, j | 0 <= i < j < |part|
      ensures Precedes(s, part[i], part[j]) && Precedes(s.(list := part), part[i], part[j])
    {
      assert Precedes(s, s.list[a + i], s.list[a + j]);
    }
  }

  // ---------------------------------------------------------------- ticks

  /** rt_tick_increase: the tick moves on and the expired timers fire. */
  ghost function AfterTick(s: State): (r: (seq<Id>, State))
    requires Inv(s)
    ensures Checked(s.(now := s.now + 1), r.0, r.1)
  {
    TickReady(s);
    CheckFires(s.(now := s.now + 1), -1);
    Check(s.(now := s.now + 1))
  }

  lemma TickReady(s: State)
    requires Inv(s)
    ensures Core(s.(now := s.now + 1), -1)
  {
    var q := s.(now := s.now + 1);
    SameOrder(s, q);
    WindowFacts(s, 0);
  }

  lemma TickChecked(s: State)
    requires Inv(s)
    ensures Checked(s.(now := s.now + 1), AfterTick(s).0, AfterTick(s).1)
  {
    var r := AfterTick(s);
  }

  lemma SettingsInv(s: State, s': State)
    requires Inv(s) && s' == s.(init := s'.init, periodic := s'.periodic) && PeriodsOk(s'.init, s'.periodic)
    ensures Inv(s')
  {
    SameOrder(s, s');
    WindowFacts(s, 0);
  }
}
