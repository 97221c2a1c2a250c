/**
 One turn of the loop of rt_timer_check, and when the loop is well behaved.
 */
module TimerChecks {
  import opened Links
  import opened WaitLists
  import opened TimerRows
  import opened Timers

  /**
   The first timer is taken out and its function called; `again` holds the timers whose
   function starts the timer itself.
   */
  function Fire(s: State, again: set<Id>): State
    requires s.list != []
  {
    var t := s.list[0];
    var taken := s.(list := s.list[1..]);
    Rearm(if t in again then Start(taken, t) else taken, t)
  }

  ghost predicate ListedIffActive(s: State) {
    forall x :: x in s.list <==> x in s.active
  }

  /** A pending timer stays marked active, unless it is a one-shot timer whose function starts it again. */
  lemma FireListedIff(s: State, again: set<Id>)
    requires s.list != [] && Distinct(s.list) && ListedIffActive(s)
    ensures ListedIffActive(Fire(s, again)) <==> !(s.list[0] in again && s.list[0] !in s.periodic)
  {
    var t, taken := s.list[0], s.(list := s.list[1..]);
    HeadApart(s.list);
    var ready := if t in again then Start(taken, t) else taken;
    StartMembers(taken, t);
    RearmMembers(ready, t);
  }

  lemma HeadApart(list: seq<Id>)
    requires list != [] && Distinct(list)
    ensures list[0] in list && list[0] !in list[1..]
    ensures forall x :: x in list <==> x == list[0] || x in list[1..]
  {
    assert list == [list[0]] + list[1..];
  }

  lemma StartMembers(s: State, t: Id)
    ensures forall x :: x in Start(s, t).list <==> x in s.list || x == t
  {
    InsertMembers(Without(s.list, t), Start(s, t).due, t, DueOf(Start(s, t).due, t));
  }

  lemma RearmMembers(s: State, t: Id)
    ensures t in s.periodic && t in s.active ==>
      (forall x :: x in Rearm(s, t).list <==> x in s.list || x == t) && Rearm(s, t).active == s.active
    ensures !(t in s.periodic && t in s.active) ==> Rearm(s, t).list == s.list && Rearm(s, t).active == s.active - {t}
  {
    StartMembers(s.(active := s.active - {t}), t);
  }

  /** Such a timer stays in the list and can no longer be stopped. */
  lemma RestartedTimerCannotBeStopped(s: State, again: set<Id>)
    requires s.list != [] && s.list[0] in again && s.list[0] !in s.periodic
    ensures var s' := Fire(s, again); s.list[0] in s'.list && Stop(s', s.list[0]) == (false, s')
  {
    var t, taken := s.list[0], s.(list := s.list[1..]);
    StartMembers(taken, t);
  }

  // ---------------------------------------------------------------- the loop ends

  ghost predicate Done(s: State) {
    s.list == [] || DueOf(s.due, s.list[0]) > s.now
  }

  /** At most `n` turns of the loop. */
  function Spin(s: State, n: nat): State
    decreases n
  {
    if n == 0 || s.list == [] || DueOf(s.due, s.list[0]) > s.now then s else Spin(Fire(s, {}), n - 1)
  }

  /** An expired periodic timer with period 0 is due again at once. */
  ghost predicate Stuck(s: State, t: Id) {
    t in s.list && t in s.periodic && DueOf(s.due, t) <= s.now && Period(s, t) == 0
  }

  /** What the loop relies on. */
  ghost predicate Tidy(s: State) {
    && SortedBy(s.list, s.due) && Distinct(s.list) && ListedIffActive(s)
    && forall t :: Period(s, t) >= 0
  }

  lemma FireTidy(s: State)
    requires Tidy(s) && !Done(s)
    ensures Tidy(Fire(s, {}))
    ensures var t, s' := s.list[0], Fire(s, {});
            && s'.now == s.now && s'.periodic == s.periodic && s'.init == s.init
            && (forall x :: x in s'.list <==> (x in s.list && x != t) || (x == t && t in s.periodic))
            && (forall x :: x != t ==> DueOf(s'.due, x) == DueOf(s.due, x))
            && (t in s.periodic ==> DueOf(s'.due, t) == s.now + Period(s, t))
  {
    var t, rest, s' := s.list[0], s.list[1..], Fire(s, {});
    HeadApart(s.list);
    FireListedIff(s, {});
    RearmMembers(s.(list := rest), t);
    assert forall x :: Period(s', x) == Period(s, x);
    FireSorted(s);
  }

  lemma FireSorted(s: State)
    requires SortedBy(s.list, s.due) && Distinct(s.list) && s.list != []
    ensures SortedBy(Fire(s, {}).list, Fire(s, {}).due) && Distinct(Fire(s, {}).list)
  {
    HeadApart(s.list);
    var s' := Fire(s, {});
    if s.list[0] in s.periodic && s.list[0] in s.active {
      FiredList(s);
      RestSorted(s.list, s.due, s'.due);
      InsertSorted(s.list[1..], s'.due, s.list[0]);
    } else {
      RestSorted(s.list, s.due, s.due);
    }
  }

  lemma FiredList(s: State)
    requires Distinct(s.list) && s.list != [] && s.list[0] in s.periodic && s.list[0] in s.active
    ensures var t, s' := s.list[0], Fire(s, {});
            && s'.list == Insert(s.list[1..], s'.due, t, DueOf(s'.due, t))
            && forall x :: x in s.list[1..] ==> DueOf(s'.due, x) == DueOf(s.due, x)
  {
    HeadApart(s.list);
    WithoutDistinct(s.list[1..], s.list[0]);
  }

  lemma RestSorted(list: seq<Id>, due: map<Id, int>, due': map<Id, int>)
    requires list != [] && SortedBy(list, due) && forall x :: x in list[1..] ==> DueOf(due', x) == DueOf(due, x)
    requires Distinct(list)
    ensures SortedBy(list[1..], due') && Distinct(list[1..])
  {
    var rest := list[1..];
    forall i, j | 0 <= i < j < |rest|
      ensures DueOf(due', rest[i]) <= DueOf(due', rest[j])
    {
      assert rest[i] in rest && rest[j] in rest;
      assert rest[i] == list[i + 1] && rest[j] == list[j + 1];
    }
  }

  /** While a stuck timer is pending, the loop has work to do. */
  lemma StuckNotDone(s: State, t: Id)
    requires SortedBy(s.list, s.due) && Stuck(s, t)
    ensures !Done(s)
  {
    var i :| 0 <= i < |s.list| && s.list[i] == t;
  }

  lemma {:induction false} StuckForever(s: State, t: Id, n: nat)
    requires Tidy(s) && Stuck(s, t)
    ensures !Done(Spin(s, n))
    decreases n
  {
    StuckNotDone(s, t);
    if n > 0 {
      FireTidy(s);
      StuckForever(Fire(s, {}), t, n - 1);
    }
  }

  /** Each turn leaves one expired timer less. */
  lemma {:induction false} NotStuckDone(s: State, n: nat)
    requires Tidy(s) && (forall t :: !Stuck(s, t)) && n >= |ExpiredSet(s)|
    ensures Done(Spin(s, n))
    decreases n
  {
    if !Done(s) {
      var t, s' := s.list[0], Fire(s, {});
      FireTidy(s);
      OneLess(s);
      NotStuckDone(s', n - 1);
    }
  }

  lemma OneLess(s: State)
    requires Tidy(s) && !Done(s) && forall t :: !Stuck(s, t)
    ensures var s' := Fire(s, {}); |ExpiredSet(s')| < |ExpiredSet(s)| && forall t :: !Stuck(s', t)
  {
    var t, s' := s.list[0], Fire(s, {});
    FireTidy(s);
    assert t in s.list && !Stuck(s, t);
    ExpiredLess(s, s', t);
  }

  lemma ExpiredLess(s: State, s': State, t: Id)
    requires t in s.list && DueOf(s.due, t) <= s.now && Period(s, t) >= 0 && (forall x :: !Stuck(s, x))
    requires s'.now == s.now && s'.periodic == s.periodic && s'.init == s.init
    requires forall x :: x in s'.list <==> (x in s.list && x != t) || (x == t && t in s.periodic)
    requires forall x :: x != t ==> DueOf(s'.due, x) == DueOf(s.due, x)
    requires t in s.periodic ==> DueOf(s'.due, t) == s.now + Period(s, t)
    ensures |ExpiredSet(s')| < |ExpiredSet(s)| && forall x :: !Stuck(s', x)
  {
    assert !Stuck(s, t) && t in ExpiredSet(s);
    forall x
      ensures !Stuck(s', x)
    {
      assert !Stuck(s, x);
    }
    assert ExpiredSet(s') == ExpiredSet(s) - {t};
  }

  ghost function ExpiredSet(s: State): set<Id> {
    set x | x in s.list && DueOf(s.due, x) <= s.now
  }

  ghost predicate EndsWithin(s: State, n: nat) {
    Done(Spin(s, n))
  }

  /** The loop of rt_timer_check ends exactly when no expired periodic timer has period 0. */
  lemma CheckEndsIff(s: State)
    requires Tidy(s)
    ensures (exists n :: EndsWithin(s, n)) <==> forall t :: !Stuck(s, t)
  {
    if forall t :: !Stuck(s, t) {
      NotStuckDone(s, |ExpiredSet(s)|);
      assert EndsWithin(s, |ExpiredSet(s)|);
    } else {
      var t :| Stuck(s, t);
      forall n: nat
        ensures !EndsWithin(s, n)
      {
        StuckForever(s, t, n);
      }
    }
  }

  /** A periodic timer with period 0 that is due keeps the loop busy for ever. */
  lemma StuckExample(n: nat)
    ensures var s := State(5, [1], map[1 := 5], {1}, {1}, map[1 := 0], map[1 := 0], 1);
            Tidy(s) && !EndsWithin(s, n)
  {
    var s := State(5, [1], map[1 := 5], {1}, {1}, map[1 := 0], map[1 := 0], 1);
    assert Stuck(s, 1);
    StuckForever(s, 1, n);
  }
}
