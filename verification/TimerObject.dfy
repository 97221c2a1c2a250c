/**
 The hard timers as timer.c keeps them: rows of links, wrapped ticks, flags.
 */
module TimerObject {
  import opened Links
  import opened WaitLists
  import opened TimerRows
  import T = Timers

  class TimerList {
    const base: nat                   // RT_TIMER_SKIP_LIST_MASK + 1
    var tick: int                     // rt_tick
    var rows: seq<seq<Id>>            // rt_timer_list
    var timeout: map<Id, int>         // timeout_tick
    var active: set<Id>
    var periodic: set<Id>
    var init: map<Id, int>            // init_tick
    var counter: nat                  // random_nr
    ghost var now: int
    ghost var due: map<Id, int>
    ghost var born: map<Id, int>
    ghost var starts: int

    ghost predicate Valid()
      reads this
    {
      base > 0 && tick == now % TICKS && Good(rows, timeout, due)
    }

    ghost function State(): T.State
      requires |rows| > 0
      reads this
    {
      T.State(now, Bottom(rows), due, active, periodic, init, born, starts)
    }

    constructor (levels: nat, mask: nat)
      requires levels >= 1 && (mask == 1 || mask == 3)
      ensures Valid() && |rows| == levels && State() == T.State(0, [], map[], {}, {}, map[], map[], 0)
    {
      base, tick, counter := mask + 1, 0, 0;
      rows := seq(levels, _ => []);
      timeout, active, periodic, init := map[], {}, {}, map[];
      now, due, born, starts := 0, map[], map[], 0;
    }

    /** _rt_timer_remove. */
    method Remove(t: Id)
      modifies this`rows
      ensures Lowered(old(rows), rows, t)
    {
      var i := 0;
      while i < |rows|
        invariant i <= |rows| == |old(rows)|
        invariant forall l :: 0 <= l < i ==> LoweredAt(old(rows), rows, t, l)
        invariant forall l :: i <= l < |rows| ==> rows[l] == old(rows)[l]
      {
        ghost var before := rows;
        rows := rows[i := Without(rows[i], t)];
        forall l: nat | l < i
          ensures LoweredAt(old(rows), rows, t, l)
        {
          assert LoweredAt(old(rows), before, t, l);
        }
        i := i + 1;
      }
    }

    /** The insertion at the places found, bottom row first, as far up as the counter says. */
    method Raise(t: Id, places: seq<nat>, ghost d: int)
      requires |rows| >= 1 && |places| == |rows| && base > 0
      requires forall l :: 0 <= l < |rows| ==> places[l] <= |rows[l]| && places[l] == Place(rows[l], due, d)
      modifies this`rows, this`counter
      ensures RaisedSome(old(rows), rows, due, t, d)
    {
      counter := (counter + 1) % 0x1_0000_0000;
      var nr := counter;
      var n, h := |rows|, 0;
      ghost var before := rows;
      var more := true;
      while h < n && more
        invariant h <= n == |rows| == |before| && (more || h >= 1)
        invariant rows[..n - h] == before[..n - h]
        invariant Raised(before, rows, due, t, d, h)
        decreases n - h, more
      {
        var l := n - h - 1;
        InsertAtPlace(rows[l], due, t, d);
        assert rows[l] == before[l] by { assert rows[l] == rows[..n - h][l]; }
        OneHigher(before, rows, due, t, d, h);
        rows := rows[l := rows[l][..places[l]] + [t] + rows[l][places[l]..]];
        h := h + 1;
        more := nr % base == 0;
        nr := nr / base;
      }
      assert 1 <= h <= n;
    }

    /** The new timer goes into its place in the last rows. */
    method InsertRows(t: Id, tk: int, ghost d: int)
      requires base > 0 && RowsOk(rows, due) && TicksOk(Bottom(rows), timeout, due, d) && tk == d % TICKS
      modifies this`rows, this`counter
      ensures RaisedSome(old(rows), rows, due, t, d)
    {
      var places := FindPlaces(rows, timeout, tk, due, d);
      PlacesInRows(rows, due, d);
      Raise(t, places, d);
    }

    /** First region of rt_timer_start. */
    method Unlist(t: Id)
      requires Valid()
      modifies this`rows, this`active
      ensures Valid() && |rows| == |old(rows)| && State() == T.Unlist(old(State()), t)
    {
      Remove(t);
      AfterRemove(old(rows), rows, timeout, due, t);
      active := active - {t};
    }

    /** The clock is read between the two regions. */
    method Stamp(t: Id)
      requires Valid() && t !in Bottom(rows)
      modifies this`timeout, this`due
      ensures Valid() && State() == T.Stamp(old(State()), t) && StampedAt(timeout, due, t)
    {
      ghost var d := now + DueOf(init, t);
      var tk := (tick + DueOf(init, t)) % TICKS;
      WrappedSum(now, DueOf(init, t));
      AfterStamp(rows, timeout, due, t, d, tk);
      timeout := timeout[t := tk];
      due := due[t := d];
    }

    /** Second region of rt_timer_start, for a timer comparable with the pending ones. */
    method Enlist(t: Id)
      requires Valid() && t !in Bottom(rows) && t in due && StampedAt(timeout, due, t)
      requires AllComparable(Bottom(rows), due, due[t])
      modifies this`rows, this`active, this`counter, this`born, this`starts
      ensures Valid() && |rows| == |old(rows)| && State() == T.Enlist(old(State()), t)
    {
      AllTicks(Bottom(rows), timeout, due, due[t]);
      InsertRows(t, timeout[t], due[t]);
      AfterRaise(old(rows), rows, timeout, due, t);
      active := active + {t};
      born, starts := born[t := starts], starts + 1;
    }

    /** rt_timer_start, called with interrupts disabled. */
    method Start(t: Id)
      requires Valid() && 0 <= DueOf(init, t) < HALF
      requires AllComparable(Without(Bottom(rows), t), due, now + DueOf(init, t))
      modifies this`rows, this`timeout, this`active, this`counter, this`due, this`born, this`starts
      ensures Valid() && |rows| == |old(rows)| && State() == T.Start(old(State()), t)
      ensures T.Started(old(State()), State(), t)
    {
      ghost var s := State();
      Unlist(t);
      StillComparable(Bottom(rows), due, t, now + DueOf(init, t));
      Stamp(t);
      Enlist(t);
      T.StartInSteps(s, t);
      T.StartMeans(s, t);
    }

    /** rt_timer_stop. */
    method Stop(t: Id) returns (ok: bool)
      requires Valid()
      modifies this`rows, this`active
      ensures Valid() && |rows| == |old(rows)| && (ok, State()) == T.Stop(old(State()), t)
      ensures ok == (t in old(active))
      ensures if ok then T.TakenOut(old(State()), State(), t) else State() == old(State())
    {
      T.UnlistMeans(State(), t);
      if t !in active {
        return false;
      }
      Remove(t);
      AfterRemove(old(rows), rows, timeout, due, t);
      active := active - {t};
      return true;
    }

    /** The expired timer at the head is taken out and, if periodic, started again; `u` is the state in between. */
    method FireHead(t: Id, ghost u: T.State)
      requires Valid() && State() == u.(list := Bottom(rows)) && Without(Bottom(rows), t) == u.list
      requires 0 <= T.Period(u, t) < HALF && AllComparable(Without(u.list, t), u.due, u.now + T.Period(u, t))
      modifies this`rows, this`timeout, this`active, this`counter, this`due, this`born, this`starts
      ensures Valid() && |rows| == |old(rows)| && State() == T.Rearm(u, t)
    {
      Remove(t);
      AfterRemove(old(rows), rows, timeout, due, t);
      RearmFired(t, u);
    }

    method RearmFired(t: Id, ghost q: T.State)
      requires Valid() && State() == q && 0 <= T.Period(q, t) < HALF
      requires AllComparable(Without(q.list, t), q.due, q.now + T.Period(q, t))
      modifies this`rows, this`timeout, this`active, this`counter, this`due, this`born, this`starts
      ensures Valid() && |rows| == |old(rows)| && State() == T.Rearm(q, t)
    {
      if t in periodic && t in active {
        active := active - {t};
        Start(t);
      } else {
        active := active - {t};
      }
    }

    /** The loop of rt_timer_check: `ahead` are the expired timers, `r` the rest. */
    method FireExpired(ghost ahead: seq<Id>, ghost r: T.State) returns (fired: seq<Id>)
      requires Valid() && Ahead(r, ahead) && State() == r.(list := ahead + r.list)
      modifies this`rows, this`timeout, this`active, this`counter, this`due, this`born, this`starts
      ensures Valid() && |rows| == |old(rows)| && fired == ahead && State() == T.RearmAll(r, ahead)
    {
      fired := [];
      ghost var left, qs := ahead, [r];
      while Bottom(rows) != []
        invariant Valid() && |rows| == |old(rows)|
        invariant fired + left == ahead && |qs| == |fired| + 1 && Ahead(qs[|fired|], left)
        invariant State() == qs[|fired|].(list := left + qs[|fired|].list)
        invariant qs[0] == r && Steps(qs, fired)
        decreases |left|
      {
        ghost var q := qs[|fired|];
        var more := HeadIsExpired(q, left);
        if !more {
          break;
        }
        var t := Bottom(rows)[0];
        ghost var u, q' := HeadTaken(q, t, left);
        FireHead(t, u);
        StepsMore(qs, fired, t, q');
        assert fired + [t] + left[1..] == fired + left;
        left, qs, fired := left[1..], qs + [q'], fired + [t];
      }
      Finished(r, qs, fired, left, State());
    }

    /** Whether the first timer has expired; the timers of `left` have, all others have not. */
    method HeadIsExpired(ghost q: T.State, ghost left: seq<Id>) returns (e: bool)
      requires Valid() && Ahead(q, left) && State() == q.(list := left + q.list) && Bottom(rows) != []
      ensures e <==> left != []
      ensures e ==> Bottom(rows)[0] == left[0]
    {
      var t := Bottom(rows)[0];
      HeadDue(q, left);
      HeadExpired(Bottom(rows), timeout, due, now);
      e := Expired(timeout[t], tick);
    }

    /** rt_timer_check, with functions that leave the timers alone. */
    method Check() returns (fired: seq<Id>)
      requires Valid() && T.Core(State(), -1) && forall t :: t in active ==> t in Bottom(rows)
      modifies this`rows, this`timeout, this`active, this`counter, this`due, this`born, this`starts
      ensures Valid() && |rows| == |old(rows)| && T.Checked(old(State()), fired, State())
      ensures var s := old(State()); Place(s.list, s.due, s.now) <= |s.list| && (fired, State()) == T.Check(s)
    {
      ghost var s := State();
      ExpiredFirst(s);
      ghost var n := Place(s.list, s.due, s.now);
      fired := FireExpired(s.list[..n], s.(list := s.list[n..]));
      T.CheckFires(s, -1);
    }

    /** The tick of the system moves on; it may wrap around. */
    method Tick() returns (fired: seq<Id>)
      requires Valid() && T.Inv(State())
      modifies this
      ensures Valid() && |rows| == |old(rows)|
      ensures T.Inv(State()) && (fired, State()) == T.AfterTick(old(State()))
    {
      T.TickReady(State());
      WrappedSum(now, 1);
      tick := (tick + 1) % TICKS;
      now := now + 1;
      fired := Check();
    }
  }

  lemma OneHigher(before: seq<seq<Id>>, rows: seq<seq<Id>>, due: map<Id, int>, t: Id, d: int, h: nat)
    requires h < |before| && Raised(before, rows, due, t, d, h)
    ensures var l := |rows| - h - 1; Raised(before, rows[l := Insert(before[l], due, t, d)], due, t, d, h + 1)
  {
    var m, h' := |rows| - h - 1, h + 1;
    var rows' := rows[m := Insert(before[m], due, t, d)];
    forall l: nat | l < |rows|
      ensures RaisedAt(before, rows', due, t, d, h', l)
    {
      assert RaisedAt(before, rows, due, t, d, h, l);
    }
  }

  lemma PlacesInRows(rows: seq<seq<Id>>, due: map<Id, int>, d: int)
    ensures forall l :: 0 <= l < |rows| ==> Place(rows[l], due, d) <= |rows[l]|
  {
    forall l | 0 <= l < |rows|
      ensures Place(rows[l], due, d) <= |rows[l]|
    {
      InsertAtPlace(rows[l], due, 0, d);
    }
  }

  function Bottom(rows: seq<seq<Id>>): seq<Id>
    requires |rows| > 0
  {
    rows[|rows| - 1]
  }

  lemma WrappedSum(x: int, p: int)
    ensures (x % TICKS + p) % TICKS == (x + p) % TICKS
  {
  }

  /** The stored ticks are the due times modulo 2^32. */
  ghost predicate Stamped(row: seq<Id>, timeout: map<Id, int>, due: map<Id, int>) {
    forall x {:trigger StampedAt(timeout, due, x)} :: x in row ==> StampedAt(timeout, due, x)
  }

  ghost predicate Good(rows: seq<seq<Id>>, timeout: map<Id, int>, due: map<Id, int>) {
    RowsOk(rows, due) && Stamped(Bottom(rows), timeout, due)
  }

  ghost predicate AllComparable(row: seq<Id>, due: map<Id, int>, d: int) {
    forall x {:trigger Comparable(DueOf(due, x), d)} :: x in row ==> Comparable(DueOf(due, x), d)
  }

  /** `t` stands in the last rows, at least one. */
  ghost predicate RaisedSome(rows: seq<seq<Id>>, rows': seq<seq<Id>>, due: map<Id, int>, t: Id, d: int) {
    exists h :: 1 <= h <= |rows| && Raised(rows, rows', due, t, d, h)
  }

  lemma AfterRemove(rows: seq<seq<Id>>, rows': seq<seq<Id>>, timeout: map<Id, int>, due: map<Id, int>, t: Id)
    requires Good(rows, timeout, due) && Lowered(rows, rows', t)
    ensures Good(rows', timeout, due) && Bottom(rows') == Without(Bottom(rows), t)
  {
    LoweredOk(rows, rows', due, t);
  }

  /** The due time of a timer that is not pending can be set. */
  lemma AfterStamp(rows: seq<seq<Id>>, timeout: map<Id, int>, due: map<Id, int>, t: Id, d: int, tk: int)
    requires Good(rows, timeout, due) && t !in Bottom(rows)
    ensures Good(rows, timeout[t := tk], due[t := d])
  {
    RowsOkFrame(rows, due, due[t := d]);
    forall x | x in Bottom(rows)
      ensures StampedAt(timeout[t := tk], due[t := d], x)
    {
      assert StampedAt(timeout, due, x);
    }
  }

  lemma StillComparable(row: seq<Id>, due: map<Id, int>, t: Id, d: int)
    requires AllComparable(row, due, d) && t !in row
    ensures AllComparable(row, due[t := d], d)
  {
    forall x | x in row
      ensures Comparable(DueOf(due[t := d], x), d)
    {
      assert Comparable(DueOf(due, x), d);
    }
  }

  lemma AllTicks(row: seq<Id>, timeout: map<Id, int>, due: map<Id, int>, d: int)
    requires Stamped(row, timeout, due) && AllComparable(row, due, d)
    ensures TicksOk(row, timeout, due, d)
  {
    forall x | x in row
      ensures StampedAt(timeout, due, x) && Comparable(DueOf(due, x), d)
    {
      assert StampedAt(timeout, due, x);
    }
  }

  lemma AfterRaise(rows: seq<seq<Id>>, rows': seq<seq<Id>>, timeout: map<Id, int>, due: map<Id, int>, t: Id)
    requires Good(rows, timeout, due) && t !in Bottom(rows) && t in due && StampedAt(timeout, due, t)
    requires RaisedSome(rows, rows', due, t, due[t])
    ensures Good(rows', timeout, due) && |rows'| == |rows| && Bottom(rows') == Insert(Bottom(rows), due, t, due[t])
  {
    var d := due[t];
    var h :| 1 <= h <= |rows| && Raised(rows, rows', due, t, d, h);
    RaisedOk(rows, rows', due, t, h);
    InsertMembers(Bottom(rows), due, t, d);
    forall x | x in Bottom(rows')
      ensures StampedAt(timeout, due, x)
    {
      assert x != t ==> StampedAt(timeout, due, x);
    }
  }

  lemma HeadExpired(row: seq<Id>, timeout: map<Id, int>, due: map<Id, int>, now: int)
    requires row != [] && Stamped(row, timeout, due) && now - 1 <= DueOf(due, row[0]) < now + HALF
    ensures row[0] in timeout && (Expired(timeout[row[0]], now % TICKS) <==> DueOf(due, row[0]) <= now)
  {
    assert row[0] in row && StampedAt(timeout, due, row[0]);
    ExpiredIff(DueOf(due, row[0]), now);
  }

  // ---------------------------------------------------------------- turns of the loop

  ghost predicate AheadAt(r: T.State, x: Id) {
    x !in r.list && x in r.active && r.now - 1 <= DueOf(r.due, x) <= r.now
  }

  /** `ahead` are expired timers in front of the timers of `r`, which are all due later. */
  ghost predicate Ahead(r: T.State, ahead: seq<Id>) {
    && T.Core(r, 1) && Distinct(ahead)
    && forall x {:trigger AheadAt(r, x)} :: x in ahead ==> AheadAt(r, x)
  }

  lemma ExpiredFirst(s: T.State)
    requires T.Core(s, -1)
    ensures var n := Place(s.list, s.due, s.now);
            n <= |s.list| && s.list == s.list[..n] + s.list[n..] && Ahead(s.(list := s.list[n..]), s.list[..n])
  {
    InsertAtPlace(s.list, s.due, 0, s.now);
    var n := Place(s.list, s.due, s.now);
    T.SplitOrdered(s, n, -1);
    AheadInWindow(s, s.(list := s.list[n..]), s.list[..n]);
  }

  lemma AheadInWindow(s: T.State, r: T.State, ahead: seq<Id>)
    requires T.Window(s, -1) && r == s.(list := r.list)
    requires forall x :: x in ahead ==> x in s.list && x !in r.list && DueOf(s.due, x) <= s.now
    ensures forall x {:trigger AheadAt(r, x)} :: x in ahead ==> AheadAt(r, x)
  {
    forall x | x in ahead
      ensures AheadAt(r, x)
    {
      assert T.WindowAt(s, -1, x);
    }
  }

  lemma HeadDue(r: T.State, ahead: seq<Id>)
    requires Ahead(r, ahead) && ahead + r.list != []
    ensures var t := (ahead + r.list)[0];
            && r.now - 1 <= DueOf(r.due, t) < r.now + HALF
            && (DueOf(r.due, t) <= r.now <==> ahead != []) && (ahead != [] ==> t == ahead[0])
  {
    var t := (ahead + r.list)[0];
    if ahead != [] {
      assert t in ahead && AheadAt(r, t);
    } else {
      assert t in r.list && T.WindowAt(r, 1, t);
    }
  }

  ghost predicate StepsAt(qs: seq<T.State>, fired: seq<Id>, i: nat)
    requires i < |fired| < |qs|
  {
    qs[i + 1] == T.Rearm(qs[i], fired[i])
  }

  /** Each state follows from the one before by restarting one timer. */
  ghost predicate Steps(qs: seq<T.State>, fired: seq<Id>) {
    && |qs| == |fired| + 1
    && forall i {:trigger StepsAt(qs, fired, i)} :: 0 <= i < |fired| ==> StepsAt(qs, fired, i)
  }

  lemma StepsMore(qs: seq<T.State>, fired: seq<Id>, t: Id, q: T.State)
    requires Steps(qs, fired) && q == T.Rearm(qs[|fired|], t)
    ensures Steps(qs + [q], fired + [t])
  {
    forall i: nat | i < |fired| + 1
      ensures StepsAt(qs + [q], fired + [t], i)
    {
      assert i < |fired| ==> StepsAt(qs, fired, i);
    }
  }

  lemma {:induction false} StepsRearm(qs: seq<T.State>, fired: seq<Id>, k: nat)
    requires Steps(qs, fired) && k <= |fired|
    ensures qs[k] == T.RearmAll(qs[0], fired[..k])
  {
    if k > 0 {
      StepsRearm(qs, fired, k - 1);
      assert StepsAt(qs, fired, k - 1);
      assert fired[..k][..k - 1] == fired[..k - 1];
    }
  }

  /** The loop stops only when no expired timer is left. */
  lemma Finished(r: T.State, qs: seq<T.State>, fired: seq<Id>, left: seq<Id>, s: T.State)
    requires Steps(qs, fired) && qs[0] == r && Ahead(qs[|fired|], left)
    requires s == qs[|fired|].(list := left + qs[|fired|].list)
    requires s.list == [] || left == []
    ensures left == [] && s == T.RearmAll(r, fired) && fired + left == fired
  {
    var q := qs[|fired|];
    assert left + q.list == q.list;
    StepsRearm(qs, fired, |fired|);
    assert fired[..|fired|] == fired;
  }

  /** A timer due later than all of `early` goes behind them. */
  lemma {:induction false} InsertPast(early: seq<Id>, rest: seq<Id>, due: map<Id, int>, t: Id, d: int)
    requires forall x :: x in early ==> DueOf(due, x) <= d
    ensures Insert(early + rest, due, t, d) == early + Insert(rest, due, t, d)
  {
    if early != [] {
      assert early[0] in early;
      InsertPast(early[1..], rest, due, t, d);
      var more := Insert(rest, due, t, d);
      assert (early + rest)[1..] == early[1..] + rest;
      assert [early[0]] + (early[1..] + more) == early + more;
    } else {
      assert early + rest == rest;
    }
  }

  /** Restarting a timer does not touch the expired timers still ahead in the list. */
  lemma RearmAhead(r: T.State, early: seq<Id>, t: Id) returns (r': T.State)
    requires t !in early && t !in r.list && T.Period(r, t) >= 0
    requires forall x :: x in early ==> DueOf(r.due, x) <= r.now
    ensures r' == T.Rearm(r, t) && T.Rearm(r.(list := early + r.list), t) == r'.(list := early + r'.list)
  {
    r' := T.Rearm(r, t);
    var d := r.now + T.Period(r, t);
    WithoutAbsent(early + r.list, t);
    WithoutAbsent(r.list, t);
    InsertPast(early, r.list, r.due[t := d], t, d);
  }

  lemma TakenOut(early: seq<Id>, rest: seq<Id>, t: Id)
    requires t !in early && t !in rest
    ensures Without([t] + early + rest, t) == early + rest == Without(early + rest, t)
  {
    assert [t] + early + rest == [t] + (early + rest);
    assert ([t] + early + rest)[1..] == early + rest;
    WithoutAbsent(early + rest, t);
  }

  lemma HeadTaken(r: T.State, t: Id, left: seq<Id>) returns (u: T.State, r': T.State)
    requires left != [] && t == left[0] && Ahead(r, left)
    ensures u == r.(list := left[1..] + r.list) && Without(left + r.list, t) == u.list == Without(u.list, t)
    ensures AllComparable(u.list, u.due, u.now + T.Period(u, t)) && 0 <= T.Period(u, t) < HALF
    ensures r' == T.Rearm(r, t) && T.Rearm(u, t) == r'.(list := left[1..] + r'.list) && Ahead(r', left[1..])
  {
    var early := left[1..];
    assert left == [t] + early;
    u := r.(list := early + r.list);
    AheadSplit(r, t, early);
    r' := RearmAhead(r, early, t);
    AheadStep(r, t, early);
    TakenOut(early, r.list, t);
    forall x | x in early + r.list
      ensures Comparable(DueOf(r.due, x), r.now + T.Period(r, t))
    {
      assert x in r.list ==> T.WindowAt(r, 1, x);
      assert x in early ==> AheadAt(r, x);
    }
  }

  lemma AheadSplit(r: T.State, t: Id, early: seq<Id>)
    requires Ahead(r, [t] + early)
    ensures t !in early && t !in r.list && t in r.active && 0 <= T.Period(r, t) < HALF
    ensures forall x :: x in early ==> AheadAt(r, x) && DueOf(r.due, x) <= r.now
    ensures Distinct(early)
  {
    var ahead := [t] + early;
    assert ahead[0] == t && t in ahead && AheadAt(r, t);
    forall x | x in early
      ensures AheadAt(r, x) && x != t
    {
      var i :| 0 <= i < |early| && early[i] == x;
      assert ahead[i + 1] == x && x in ahead;
    }
    forall i, j | 0 <= i < j < |early|
      ensures early[i] != early[j]
    {
      assert ahead[i + 1] == early[i] && ahead[j + 1] == early[j];
    }
  }

  lemma AheadStep(r: T.State, t: Id, early: seq<Id>)
    requires Ahead(r, [t] + early)
    ensures Ahead(T.Rearm(r, t), early)
  {
    AheadSplit(r, t, early);
    var q := r.(active := r.active - {t});
    T.SameCore(r, q, 1, t);
    if t in r.periodic {
      T.StartCore(q, t, 1);
    }
    var r' := T.Rearm(r, t);
    forall x | x in early
      ensures AheadAt(r', x)
    {
      assert AheadAt(r, x);
    }
  }
}
