/**
 The timer skip list of timer.c: tick comparison, rows, and the search for a place.

 Row 0 is the sparsest and the last row holds every pending timer. `due` gives the tick at
 which a timer is due, counted without wrap-around; the code compares the ticks modulo 2^32.
 */
module TimerRows {
  import opened Links
  import opened WaitLists

  type Id = nat

  const TICKS: int := 0x1_0000_0000
  const HALF: int := 0x7FFF_FFFF   // RT_TICK_MAX / 2

  // ---------------------------------------------------------------- comparing ticks

  /** The unsigned 32-bit difference. */
  function Minus(a: int, b: int): int {
    (a - b) % TICKS
  }

  /** The new timer `b` is placed before `a`. */
  predicate Later(a: int, b: int) {
    Minus(a, b) != 0 && Minus(a, b) < HALF
  }

  /** The timer due at `a` has expired at tick `now`. */
  predicate Expired(a: int, now: int) {
    Minus(now, a) < HALF
  }

  /** Two ticks can be compared: a little more than half the range one way, a little less the other. */
  predicate Comparable(x: int, y: int) {
    -HALF - 2 <= x - y <= HALF - 1
  }

  /** The wrapped comparison agrees with the true order exactly on comparable ticks. */
  lemma LaterIff(x: int, y: int)
    requires -TICKS < x - y < TICKS
    ensures (Later(x % TICKS, y % TICKS) <==> x > y) <==> Comparable(x, y)
  {
    assert Minus(x % TICKS, y % TICKS) == (x - y) % TICKS;
  }

  lemma ExpiredIff(x: int, now: int)
    requires -TICKS < now - x < TICKS
    ensures (Expired(x % TICKS, now % TICKS) <==> x <= now) <==> -HALF - 2 <= now - x <= HALF - 1
  {
    assert Minus(now % TICKS, x % TICKS) == (now - x) % TICKS;
  }

  // ---------------------------------------------------------------- one row

  function DueOf(due: map<Id, int>, t: Id): int {
    if t in due then due[t] else 0
  }

  ghost predicate SortedBy(row: seq<Id>, due: map<Id, int>) {
    forall i, j :: 0 <= i < j < |row| ==> DueOf(due, row[i]) <= DueOf(due, row[j])
  }

  /** How many timers at the front are due no later than `d`. */
  function Place(row: seq<Id>, due: map<Id, int>, d: int): nat {
    if row == [] || DueOf(due, row[0]) > d then 0 else 1 + Place(row[1..], due, d)
  }

  /** Stable insertion: behind every timer due no later. */
  function Insert(row: seq<Id>, due: map<Id, int>, t: Id, d: int): seq<Id> {
    if row == [] || DueOf(due, row[0]) > d then [t] + row else [row[0]] + Insert(row[1..], due, t, d)
  }

  /** The same with the wrapped comparison of the code. */
  function InsertWrapped(row: seq<Id>, due: map<Id, int>, t: Id, d: int): seq<Id> {
    if row == [] || Later(DueOf(due, row[0]) % TICKS, d % TICKS) then [t] + row
    else [row[0]] + InsertWrapped(row[1..], due, t, d)
  }

  /** With comparable ticks the wrapped insertion is the insertion. */
  lemma {:induction false} InsertWrappedExact(row: seq<Id>, due: map<Id, int>, t: Id, d: int)
    requires forall x :: x in row ==> Comparable(DueOf(due, x), d)
    ensures InsertWrapped(row, due, t, d) == Insert(row, due, t, d)
  {
    if row != [] {
      assert row[0] in row;
      LaterIff(DueOf(due, row[0]), d);
      InsertWrappedExact(row[1..], due, t, d);
    }
  }

  lemma {:induction false} InsertAtPlace(row: seq<Id>, due: map<Id, int>, t: Id, d: int)
    ensures Place(row, due, d) <= |row|
    ensures Insert(row, due, t, d) == row[..Place(row, due, d)] + [t] + row[Place(row, due, d)..]
    ensures forall i :: 0 <= i < Place(row, due, d) ==> DueOf(due, row[i]) <= d
    ensures Place(row, due, d) < |row| ==> DueOf(due, row[Place(row, due, d)]) > d
  {
    if row != [] && DueOf(due, row[0]) <= d {
      InsertAtPlace(row[1..], due, t, d);
      var p := Place(row[1..], due, d);
      assert row[1..][p..] == row[p + 1..];
      assert row[..p + 1] == [row[0]] + row[1..][..p];
    }
  }

  lemma {:induction false} PlaceIs(row: seq<Id>, due: map<Id, int>, d: int, k: nat)
    requires k <= |row|
    requires forall i :: 0 <= i < k ==> DueOf(due, row[i]) <= d
    requires k < |row| ==> DueOf(due, row[k]) > d
    ensures Place(row, due, d) == k
  {
    if k > 0 {
      PlaceIs(row[1..], due, d, k - 1);
    }
  }

  lemma InsertMembers(row: seq<Id>, due: map<Id, int>, t: Id, d: int)
    ensures forall x :: x in Insert(row, due, t, d) <==> x in row || x == t
  {
    InsertAtPlace(row, due, t, d);
    var p := Place(row, due, d);
    assert row == row[..p] + row[p..];
  }

  lemma InsertSorted(row: seq<Id>, due: map<Id, int>, t: Id)
    requires SortedBy(row, due) && t !in row && Distinct(row)
    ensures SortedBy(Insert(row, due, t, DueOf(due, t)), due) && Distinct(Insert(row, due, t, DueOf(due, t)))
  {
    var d := DueOf(due, t);
    InsertAtPlace(row, due, t, d);
    SlotSorted(row, due, t, Place(row, due, d));
  }

  /** A timer put between those due no later and those due later. */
  lemma SlotSorted(row: seq<Id>, due: map<Id, int>, t: Id, p: nat)
    requires SortedBy(row, due) && t !in row && Distinct(row) && p <= |row|
    requires forall i :: 0 <= i < p ==> DueOf(due, row[i]) <= DueOf(due, t)
    requires p < |row| ==> DueOf(due, t) < DueOf(due, row[p])
    ensures SortedBy(row[..p] + [t] + row[p..], due) && Distinct(row[..p] + [t] + row[p..])
  {
    var r := row[..p] + [t] + row[p..];
    forall i, j | 0 <= i < j < |r|
      ensures DueOf(due, r[i]) <= DueOf(due, r[j]) && r[i] != r[j]
    {
      if i == p {
        assert r[j] == row[j - 1];
        assert DueOf(due, row[p]) <= DueOf(due, row[j - 1]);
      } else if j == p {
        assert r[i] == row[i];
      } else {
        assert r[i] == row[if i < p then i else i - 1] && r[j] == row[if j < p then j else j - 1];
      }
    }
  }

  // ---------------------------------------------------------------- sublists

  function Filter(row: seq<Id>, keep: set<Id>): (r: seq<Id>)
    ensures forall x :: x in r <==> x in row && x in keep
    ensures |r| <= |row|
  {
    if row == [] then []
    else if row[0] in keep then [row[0]] + Filter(row[1..], keep)
    else Filter(row[1..], keep)
  }

  function Members(row: seq<Id>): set<Id> {
    set x | x in row
  }

  /** `a` is what is left of `b` when some timers are passed over. */
  ghost predicate Sublist(a: seq<Id>, b: seq<Id>) {
    a == Filter(b, Members(a))
  }

  lemma {:induction false} FilterSorted(row: seq<Id>, due: map<Id, int>, keep: set<Id>)
    requires SortedBy(row, due) && Distinct(row)
    ensures SortedBy(Filter(row, keep), due) && Distinct(Filter(row, keep))
  {
    if row != [] {
      FilterSorted(row[1..], due, keep);
      var r := Filter(row[1..], keep);
      forall i | 0 <= i < |r|
        ensures DueOf(due, row[0]) <= DueOf(due, r[i]) && r[i] != row[0]
      {
        assert r[i] in row[1..];
        var j :| 0 <= j < |row[1..]| && row[1..][j] == r[i];
        assert row[j + 1] == r[i];
      }
    }
  }

  /** Insertion into a row and into a sublist of it agree. */
  lemma {:induction false} FilterInsert(row: seq<Id>, due: map<Id, int>, t: Id, d: int, keep: set<Id>)
    requires SortedBy(row, due) && t !in row && t !in keep
    ensures Filter(Insert(row, due, t, d), keep + {t}) == Insert(Filter(row, keep), due, t, d)
    ensures Filter(Insert(row, due, t, d), keep) == Filter(row, keep)
  {
    FilterSame(row, keep, keep + {t});
    if row == [] {
      assert ([t] + row)[1..] == row;
    } else if DueOf(due, row[0]) > d {
      assert ([t] + row)[1..] == row;
      var f := Filter(row, keep);
      if f != [] {
        assert f[0] in row;
        var j :| 0 <= j < |row| && row[j] == f[0];
        assert DueOf(due, row[0]) <= DueOf(due, row[j]);
      }
    } else {
      assert row[0] in row && row[0] != t;
      FilterInsert(row[1..], due, t, d, keep);
      var rest := Insert(row[1..], due, t, d);
      assert ([row[0]] + rest)[1..] == rest;
      if row[0] in keep {
        assert ([row[0]] + Filter(row[1..], keep))[1..] == Filter(row[1..], keep);
      }
    }
  }

  /** Only what is in the row matters to a filter. */
  lemma {:induction false} FilterSame(row: seq<Id>, a: set<Id>, b: set<Id>)
    requires forall x :: x in row ==> (x in a <==> x in b)
    ensures Filter(row, a) == Filter(row, b)
  {
    if row != [] {
      assert row[0] in row;
      FilterSame(row[1..], a, b);
    }
  }

  lemma {:induction false} FilterWithout(row: seq<Id>, t: Id, keep: set<Id>)
    ensures Filter(Without(row, t), keep - {t}) == Without(Filter(row, keep), t)
  {
    if row != [] {
      FilterWithout(row[1..], t, keep);
      var w, f := Without(row[1..], t), Filter(row[1..], keep);
      if row[0] != t {
        assert ([row[0]] + w)[1..] == w;
      } else {
        assert Without(row, t) == w;
        assert ([t] + f)[0] == t && Without([t] + f, t) == Without(([t] + f)[1..], t);
      }
      if row[0] in keep {
        assert ([row[0]] + f)[1..] == f;
      }
    }
  }

  lemma {:induction false} WithoutIsFilter(row: seq<Id>, t: Id)
    ensures Without(row, t) == Filter(row, Members(row) - {t})
  {
    if row != [] {
      WithoutIsFilter(row[1..], t);
      FilterSame(row[1..], Members(row) - {t}, Members(row[1..]) - {t});
    }
  }

  // ---------------------------------------------------------------- all rows

  /** The last row is in order, every other row a sublist of the next. */
  ghost predicate RowAt(rows: seq<seq<Id>>, due: map<Id, int>, l: nat)
    requires l < |rows|
  {
    if l + 1 < |rows| then Sublist(rows[l], rows[l + 1]) else SortedBy(rows[l], due) && Distinct(rows[l])
  }

  ghost predicate RowsOk(rows: seq<seq<Id>>, due: map<Id, int>) {
    && |rows| >= 1
    && (forall l {:trigger RowAt(rows, due, l)} :: 0 <= l < |rows| ==> RowAt(rows, due, l))
  }

  /** Row `l` by itself: in order, without repetition, and part of the last row. */
  ghost predicate RowOk(rows: seq<seq<Id>>, due: map<Id, int>, l: nat)
    requires l < |rows|
  {
    && SortedBy(rows[l], due) && Distinct(rows[l])
    && (forall x :: x in rows[l] ==> x in rows[|rows| - 1])
    && (l + 1 < |rows| ==> forall x :: x in rows[l] ==> x in rows[l + 1])
  }

  lemma {:induction false} EveryRow(rows: seq<seq<Id>>, due: map<Id, int>, l: nat)
    requires RowsOk(rows, due) && l < |rows|
    ensures RowOk(rows, due, l)
    decreases |rows| - l
  {
    assert RowAt(rows, due, l);
    if l + 1 < |rows| {
      EveryRow(rows, due, l + 1);
      FilterSorted(rows[l + 1], due, Members(rows[l]));
    }
  }

  ghost predicate RaisedAt(rows: seq<seq<Id>>, rows': seq<seq<Id>>, due: map<Id, int>, t: Id, d: int, h: nat, l: nat)
    requires l < |rows| == |rows'|
  {
    rows'[l] == if l >= |rows| - h then Insert(rows[l], due, t, d) else rows[l]
  }

  /** `t` stands in the last `h` rows of `rows'`, each time in its place. */
  ghost predicate Raised(rows: seq<seq<Id>>, rows': seq<seq<Id>>, due: map<Id, int>, t: Id, d: int, h: nat) {
    && |rows'| == |rows|
    && (forall l {:trigger RaisedAt(rows, rows', due, t, d, h, l)} :: 0 <= l < |rows| ==>
          RaisedAt(rows, rows', due, t, d, h, l))
  }

  lemma RaisedOk(rows: seq<seq<Id>>, rows': seq<seq<Id>>, due: map<Id, int>, t: Id, h: nat)
    requires RowsOk(rows, due) && t !in rows[|rows| - 1] && 1 <= h <= |rows|
    requires Raised(rows, rows', due, t, DueOf(due, t), h)
    ensures RowsOk(rows', due) && rows'[|rows| - 1] == Insert(rows[|rows| - 1], due, t, DueOf(due, t))
  {
    assert RaisedAt(rows, rows', due, t, DueOf(due, t), h, |rows| - 1);
    forall l: nat | l < |rows|
      ensures RowAt(rows', due, l)
    {
      RaisedRow(rows, rows', due, t, h, l);
    }
  }

  lemma RaisedRow(rows: seq<seq<Id>>, rows': seq<seq<Id>>, due: map<Id, int>, t: Id, h: nat, l: nat)
    requires RowsOk(rows, due) && t !in rows[|rows| - 1] && 1 <= h <= |rows| && l < |rows|
    requires Raised(rows, rows', due, t, DueOf(due, t), h)
    ensures RowAt(rows', due, l)
  {
    assert RaisedAt(rows, rows', due, t, DueOf(due, t), h, l);
    if l + 1 < |rows| {
      assert RowAt(rows, due, l);
      EveryRow(rows, due, l + 1);
      assert RaisedAt(rows, rows', due, t, DueOf(due, t), h, l + 1);
      InsertedPair(rows[l], rows[l + 1], due, t, DueOf(due, t));
    } else {
      assert RowAt(rows, due, l);
      InsertSorted(rows[l], due, t);
    }
  }

  lemma InsertedPair(a: seq<Id>, b: seq<Id>, due: map<Id, int>, t: Id, d: int)
    requires Sublist(a, b) && SortedBy(b, due) && t !in b
    ensures Sublist(Insert(a, due, t, d), Insert(b, due, t, d))
    ensures Sublist(a, Insert(b, due, t, d))
  {
    FilterInsert(b, due, t, d, Members(a));
    InsertMembers(a, due, t, d);
    assert Members(Insert(a, due, t, d)) == Members(a) + {t};
  }

  ghost predicate LoweredAt(rows: seq<seq<Id>>, rows': seq<seq<Id>>, t: Id, l: nat)
    requires l < |rows| == |rows'|
  {
    rows'[l] == Without(rows[l], t)
  }

  /** `t` is gone from every row. */
  ghost predicate Lowered(rows: seq<seq<Id>>, rows': seq<seq<Id>>, t: Id) {
    && |rows'| == |rows|
    && forall l {:trigger LoweredAt(rows, rows', t, l)} :: 0 <= l < |rows| ==> LoweredAt(rows, rows', t, l)
  }

  lemma LoweredOk(rows: seq<seq<Id>>, rows': seq<seq<Id>>, due: map<Id, int>, t: Id)
    requires RowsOk(rows, due) && Lowered(rows, rows', t)
    ensures RowsOk(rows', due) && rows'[|rows| - 1] == Without(rows[|rows| - 1], t)
  {
    assert LoweredAt(rows, rows', t, |rows| - 1);
    forall l: nat | l < |rows|
      ensures RowAt(rows', due, l)
    {
      assert RowAt(rows, due, l) && LoweredAt(rows, rows', t, l);
      if l + 1 < |rows| {
        assert LoweredAt(rows, rows', t, l + 1);
        FilterWithout(rows[l + 1], t, Members(rows[l]));
        assert Members(rows'[l]) == Members(rows[l]) - {t};
      } else {
        WithoutIsFilter(rows[l], t);
        FilterSorted(rows[l], due, Members(rows[l]) - {t});
      }
    }
  }

  /** Only the due times of the listed timers matter. */
  lemma RowsOkFrame(rows: seq<seq<Id>>, due: map<Id, int>, due': map<Id, int>)
    requires RowsOk(rows, due) && forall x :: x in rows[|rows| - 1] ==> DueOf(due', x) == DueOf(due, x)
    ensures RowsOk(rows, due')
  {
    forall l: nat | l < |rows|
      ensures RowAt(rows, due', l)
    {
      assert RowAt(rows, due, l);
      if l + 1 == |rows| {
        forall i, j | 0 <= i < j < |rows[l]|
          ensures DueOf(due', rows[l][i]) <= DueOf(due', rows[l][j])
        {
          assert rows[l][i] in rows[l] && rows[l][j] in rows[l];
        }
      }
    }
  }

  function IndexOf(row: seq<Id>, t: Id): (k: nat)
    requires t in row
    ensures k < |row| && row[k] == t
  {
    if row[0] == t then 0 else 1 + IndexOf(row[1..], t)
  }

  ghost predicate StampedAt(tick: map<Id, int>, due: map<Id, int>, x: Id) {
    x in tick && tick[x] == DueOf(due, x) % TICKS
  }

  /** The wrapped ticks of the listed timers, all comparable with the new one. */
  ghost predicate TicksOk(row: seq<Id>, tick: map<Id, int>, due: map<Id, int>, d: int) {
    forall x {:trigger StampedAt(tick, due, x)} :: x in row ==> StampedAt(tick, due, x) && Comparable(DueOf(due, x), d)
  }

  lemma RowReady(rows: seq<seq<Id>>, tick: map<Id, int>, due: map<Id, int>, d: int, l: nat)
    requires RowsOk(rows, due) && TicksOk(rows[|rows| - 1], tick, due, d) && l < |rows|
    ensures SortedBy(rows[l], due) && TicksOk(rows[l], tick, due, d)
    ensures l + 1 < |rows| ==> forall x :: x in rows[l] ==> x in rows[l + 1]
  {
    EveryRow(rows, due, l);
    forall x | x in rows[l]
      ensures StampedAt(tick, due, x) && Comparable(DueOf(due, x), d)
    {
      assert x in rows[|rows| - 1];
      assert StampedAt(tick, due, x);
    }
  }

  /** The walk along one row from a position that is not too far. */
  method WalkRow(row: seq<Id>, from: nat, tick: map<Id, int>, tk: int, ghost due: map<Id, int>, ghost d: int)
    returns (k: nat)
    requires from <= |row| && SortedBy(row, due) && TicksOk(row, tick, due, d) && tk == d % TICKS
    requires from > 0 ==> DueOf(due, row[from - 1]) <= d
    ensures k <= |row| && k == Place(row, due, d)
    ensures k > 0 ==> DueOf(due, row[k - 1]) <= d
  {
    k := from;
    while k < |row|
      invariant from <= k <= |row|
      invariant k > 0 ==> DueOf(due, row[k - 1]) <= d
    {
      assert row[k] in row && StampedAt(tick, due, row[k]);
      LaterIff(DueOf(due, row[k]), d);
      if Minus(tick[row[k]], tk) == 0 {
        k := k + 1;
        continue;
      } else if Minus(tick[row[k]], tk) < HALF {
        break;
      }
      k := k + 1;
    }
    PlaceIs(row, due, d, k);
  }

  /** The search of rt_timer_start, from the sparsest row down. */
  method FindPlaces(rows: seq<seq<Id>>, tick: map<Id, int>, tk: int, ghost due: map<Id, int>, ghost d: int)
    returns (places: seq<nat>)
    requires RowsOk(rows, due) && TicksOk(rows[|rows| - 1], tick, due, d) && tk == d % TICKS
    ensures |places| == |rows|
    ensures forall l :: 0 <= l < |rows| ==> places[l] == Place(rows[l], due, d)
  {
    places := [];
    var from: nat := 0;
    var l := 0;
    while l < |rows|
      invariant l <= |rows| && |places| == l
      invariant forall m :: 0 <= m < l ==> places[m] == Place(rows[m], due, d)
      invariant l < |rows| ==> from <= |rows[l]|
      invariant l < |rows| && from > 0 ==> DueOf(due, rows[l][from - 1]) <= d
    {
      RowReady(rows, tick, due, d, l);
      var k := WalkRow(rows[l], from, tick, tk, due, d);
      places := places + [k];
      if l + 1 < |rows| {
        from := 0;
        if k > 0 {
          assert rows[l][k - 1] in rows[l];
          from := IndexOf(rows[l + 1], rows[l][k - 1]) + 1;
        }
      }
      l := l + 1;
    }
  }
}
