/**
 The event sets of ipc.c: threads wait for all or any of some bits of a 32-bit set.
 */
module Events {
  import opened Links
  import opened WaitLists

  /** RT_EVENT_FLAG_AND wins over RT_EVENT_FLAG_OR; a call with neither is refused by an assertion. */
  datatype Mode = And | Or

  /** A 32-bit set, as the set of the numbers of its bits. */
  type Bits = set<nat>

  datatype Waiter = Waiter(t: Tid, want: Bits, mode: Mode, clear: bool)

  predicate Satisfied(w: Waiter, bits: Bits) {
    match w.mode
    case And => w.want <= bits
    case Or => w.want * bits != {}
  }

  /** What an immediate rt_event_recv hands over, and what it leaves in the set. */
  function Received(w: Waiter, bits: Bits): Bits {
    bits * w.want
  }

  function Left(w: Waiter, bits: Bits): Bits {
    if w.clear then bits - w.want else bits
  }

  /** What rt_event_send stores in the thread it resumes, and what it leaves in the set. */
  function Deferred(w: Waiter, bits: Bits): Bits {
    match w.mode
    case And => w.want
    case Or => w.want * bits
  }

  function LeftDeferred(w: Waiter, bits: Bits): Bits {
    if w.clear then bits - Deferred(w, bits) else bits
  }

  /** A delivery made on behalf of a suspended thread is the one it would have made itself. */
  lemma DeferredIsImmediate(w: Waiter, bits: Bits)
    requires Satisfied(w, bits)
    ensures Deferred(w, bits) == Received(w, bits) && LeftDeferred(w, bits) == Left(w, bits)
  {
  }

  /** Fewer bits satisfy fewer waiters. */
  lemma FewerBits(w: Waiter, small: Bits, big: Bits)
    requires small <= big && Satisfied(w, small)
    ensures Satisfied(w, big)
  {
    if w.mode.Or? {
      var b :| b in w.want * small;
      assert b in w.want * big;
    }
  }

  datatype Outcome = Outcome(bits: Bits, waiting: seq<Waiter>, delivered: map<Tid, Bits>)

  /** The walk of rt_event_send over the suspend list. */
  function Walk(bits: Bits, waiting: seq<Waiter>): Outcome {
    if waiting == [] then Outcome(bits, [], map[]) else
    var w := waiting[0];
    if Satisfied(w, bits) then
      var rest := Walk(LeftDeferred(w, bits), waiting[1..]);
      rest.(delivered := map[w.t := Deferred(w, bits)] + rest.delivered)
    else
      var rest := Walk(bits, waiting[1..]);
      rest.(waiting := [w] + rest.waiting)
  }

  /** The reference: every thread of the list in turn tries an immediate receive. */
  ghost function Retry(bits: Bits, waiting: seq<Waiter>): Outcome {
    if waiting == [] then Outcome(bits, [], map[]) else
    var w := waiting[0];
    if Satisfied(w, bits) then
      var rest := Retry(Left(w, bits), waiting[1..]);
      rest.(delivered := map[w.t := Received(w, bits)] + rest.delivered)
    else
      var rest := Retry(bits, waiting[1..]);
      rest.(waiting := [w] + rest.waiting)
  }

  lemma {:induction false} WalkIsRetry(bits: Bits, waiting: seq<Waiter>)
    ensures Walk(bits, waiting) == Retry(bits, waiting)
  {
    if waiting != [] {
      var w := waiting[0];
      if Satisfied(w, bits) {
        DeferredIsImmediate(w, bits);
        WalkIsRetry(Left(w, bits), waiting[1..]);
      } else {
        WalkIsRetry(bits, waiting[1..]);
      }
    }
  }

  ghost predicate NoneSatisfied(bits: Bits, waiting: seq<Waiter>) {
    forall i :: 0 <= i < |waiting| ==> !Satisfied(waiting[i], bits)
  }

  /** After the walk nobody who is still suspended could proceed with the bits that are left. */
  lemma {:induction false} WalkLeavesNone(bits: Bits, waiting: seq<Waiter>)
    ensures var o := Walk(bits, waiting);
            NoneSatisfied(o.bits, o.waiting) && o.bits <= bits
    ensures forall w :: w in Walk(bits, waiting).waiting ==> w in waiting
  {
    if waiting != [] {
      var w := waiting[0];
      var o := Walk(bits, waiting);
      if Satisfied(w, bits) {
        WalkLeavesNone(LeftDeferred(w, bits), waiting[1..]);
      } else {
        WalkLeavesNone(bits, waiting[1..]);
        if Satisfied(w, o.bits) {
          FewerBits(w, o.bits, bits);
        }
      }
    }
  }

  function Tids(waiting: seq<Waiter>): (r: seq<Tid>)
    ensures |r| == |waiting|
    ensures forall i :: 0 <= i < |waiting| ==> r[i] == waiting[i].t
  {
    if waiting == [] then [] else [waiting[0].t] + Tids(waiting[1..])
  }

  /** The outcome of the walk, given that the first `n` waiters of the list were passed over. */
  ghost function Resumed(bits: Bits, waiting: seq<Waiter>, n: nat, delivered: map<Tid, Bits>): Outcome
    requires n <= |waiting|
  {
    var rest := Walk(bits, waiting[n..]);
    Outcome(rest.bits, waiting[..n] + rest.waiting, delivered + rest.delivered)
  }

  lemma ResumeStep(bits: Bits, waiting: seq<Waiter>, n: nat, delivered: map<Tid, Bits>)
    requires n < |waiting|
    ensures var w := waiting[n];
            Resumed(bits, waiting, n, delivered) ==
            if Satisfied(w, bits) then
              Resumed(LeftDeferred(w, bits), waiting[..n] + waiting[n + 1..], n, delivered[w.t := Deferred(w, bits)])
            else Resumed(bits, waiting, n + 1, delivered)
  {
    var w := waiting[n];
    assert waiting[n..][1..] == waiting[n + 1..];
    if Satisfied(w, bits) {
      var less := waiting[..n] + waiting[n + 1..];
      assert less[n..] == waiting[n + 1..] && less[..n] == waiting[..n];
      var later := Walk(LeftDeferred(w, bits), waiting[n + 1..]);
      var got := Deferred(w, bits);
      assert delivered + (map[w.t := got] + later.delivered) == delivered[w.t := got] + later.delivered;
    } else {
      var later := Walk(bits, waiting[n + 1..]);
      assert waiting[..n] + ([w] + later.waiting) == waiting[..n + 1] + later.waiting;
    }
  }

  datatype Reply = Got(bits: Bits) | Refused | TimedOut | Suspended

  datatype Event = Event(bits: Bits, waiting: seq<Waiter>) {

    function Send(more: Bits): Event {
      if more == {} then this                                            // -RT_ERROR
      else var o := Walk(bits + more, waiting); Event(o.bits, o.waiting)
    }

    function Recv(w: Waiter, wait: bool, flag: Flag, prio: Prios): (Event, Reply) {
      if w.want == {} then (this, Refused)                               // -RT_ERROR
      else if Satisfied(w, bits) then (this.(bits := Left(w, bits)), Got(Received(w, bits)))
      else if !wait then (this, TimedOut)                                // -RT_ETIMEOUT
      else
        var k := SuspendAt(Tids(waiting), prio, w.t, flag);
        (this.(waiting := waiting[..k] + [w] + waiting[k..]), Suspended)
    }
  }

  /** All of the bits asked for are there, or some of them. */
  ghost predicate Met(w: Waiter, bits: Bits) {
    match w.mode
    case And => forall b :: b in w.want ==> b in bits
    case Or => exists b :: b in w.want && b in bits
  }

  lemma SatisfiedMeans(w: Waiter, bits: Bits)
    ensures Satisfied(w, bits) <==> Met(w, bits)
  {
    if w.mode.Or? {
      if Satisfied(w, bits) {
        var b :| b in w.want * bits;
      } else {
        assert forall b :: b in w.want && b in bits ==> b in w.want * bits;
      }
    }
  }

  /**
   What a receive does: all or any of the bits asked for are handed over, and taken out of the set
   if the caller says so; otherwise the set stays, and the caller is refused or joins the list.
   */
  ghost predicate RecvOutcome(s: Event, s': Event, reply: Reply, w: Waiter, wait: bool, flag: Flag, prio: Prios) {
    match reply
    case Refused => w.want == {} && s' == s
    case Got(got) =>
      && w.want != {} && Met(w, s.bits)
      && (forall b :: b in got <==> b in w.want && b in s.bits)
      && (forall b :: b in s'.bits <==> b in s.bits && !(w.clear && b in w.want))
      && s'.waiting == s.waiting
    case TimedOut => w.want != {} && !Met(w, s.bits) && !wait && s' == s
    case Suspended =>
      && w.want != {} && !Met(w, s.bits) && wait && s'.bits == s.bits
      && exists k :: 0 <= k <= |s.waiting| && s'.waiting == Inserted(s.waiting, k, w)
                     && PlaceOk(Tids(s.waiting), k, PrioOf(prio, w.t), flag, prio)
  }

  lemma RecvMeans(s: Event, w: Waiter, wait: bool, flag: Flag, prio: Prios)
    ensures var (s', reply) := s.Recv(w, wait, flag, prio); RecvOutcome(s, s', reply, w, wait, flag, prio)
  {
    var k := SuspendAt(Tids(s.waiting), prio, w.t, flag);
    assert PlaceOk(Tids(s.waiting), k, PrioOf(prio, w.t), flag, prio);
    SatisfiedMeans(w, s.bits);
  }

  /**
   A send in turns: `sets[i]` is the set that waiter `i` finds. It is served exactly if that set
   satisfies it, with the bits of its own that are there, which go if it says so. `kept` are the
   positions of those that go on waiting, in the order in which they wait.
   */
  ghost predicate TurnAt(o: Outcome, waiting: seq<Waiter>, sets: seq<Bits>, kept: seq<nat>, i: nat)
    requires i < |waiting| < |sets|
  {
    var w := waiting[i];
    if Satisfied(w, sets[i]) then
      && sets[i + 1] == (if w.clear then sets[i] - w.want else sets[i])
      && i !in kept && w.t in o.delivered && o.delivered[w.t] == w.want * sets[i]
    else sets[i + 1] == sets[i] && i in kept && w.t !in o.delivered
  }

  ghost predicate KeptAt(o: Outcome, waiting: seq<Waiter>, kept: seq<nat>, a: nat)
    requires a < |kept| == |o.waiting|
  {
    kept[a] < |waiting| && o.waiting[a] == waiting[kept[a]] && (a > 0 ==> kept[a - 1] < kept[a])
  }

  ghost predicate Turns(o: Outcome, bits: Bits, waiting: seq<Waiter>, sets: seq<Bits>, kept: seq<nat>) {
    && |sets| == |waiting| + 1 && sets[0] == bits && sets[|waiting|] == o.bits && |kept| == |o.waiting|
    && (forall i {:trigger TurnAt(o, waiting, sets, kept, i)} :: 0 <= i < |waiting| ==>
          TurnAt(o, waiting, sets, kept, i))
    && (forall a {:trigger KeptAt(o, waiting, kept, a)} :: 0 <= a < |kept| ==> KeptAt(o, waiting, kept, a))
    && (forall t :: t in o.delivered ==> t in Tids(waiting))
  }

  /** One place further back. */
  ghost function Later(kept: seq<nat>): (r: seq<nat>)
    ensures |r| == |kept| && forall a :: 0 <= a < |kept| ==> r[a] == kept[a] + 1
    ensures forall i :: 0 <= i ==> (i + 1 in r <==> i in kept)
    ensures 0 !in r
  {
    seq(|kept|, a requires 0 <= a < |kept| => kept[a] + 1)
  }

  /** A turn of the rest of the list is a turn of the list. */
  lemma LaterTurn(o: Outcome, o': Outcome, w: Waiter, tail: seq<Waiter>, bits: Bits, later: seq<Bits>,
                  rest: seq<nat>, kept: seq<nat>, i: nat)
    requires i < |tail| < |later| && TurnAt(o', tail, later, rest, i) && tail[i].t != w.t
    requires forall t :: t != w.t ==> (t in o.delivered <==> t in o'.delivered)
    requires forall t :: t in o'.delivered ==> t in o.delivered && o.delivered[t] == o'.delivered[t]
    requires NextIn(kept, rest, i)
    ensures TurnAt(o, [w] + tail, [bits] + later, kept, i + 1)
  {
    assert ([w] + tail)[i + 1] == tail[i];
    assert ([bits] + later)[i + 1] == later[i] && ([bits] + later)[i + 2] == later[i + 1];
  }

  lemma FirstTurn(o: Outcome, o': Outcome, w: Waiter, tail: seq<Waiter>, bits: Bits, later: seq<Bits>, rest: seq<nat>,
                  kept: seq<nat>, yes: bool)
    requires yes == Satisfied(w, bits) && w.t !in Tids(tail)
    requires Turns(o', if yes then Left(w, bits) else bits, tail, later, rest)
    requires kept == (if yes then [] else [0]) + Later(rest)
    requires o == if yes then Outcome(o'.bits, o'.waiting, map[w.t := Received(w, bits)] + o'.delivered)
                  else Outcome(o'.bits, [w] + o'.waiting, o'.delivered)
    ensures Turns(o, bits, [w] + tail, [bits] + later, kept)
  {
    KeptTurns(o', [w] + tail, rest, kept, o, yes);
    forall i | 0 <= i < |tail|
      ensures tail[i].t != w.t && NextIn(kept, rest, i)
    {
      assert Tids(tail)[i] == tail[i].t;
    }
    OthersTurns(o, o', w, tail, bits, later, rest, kept);
    var waiting, sets := [w] + tail, [bits] + later;
    assert w.t !in o'.delivered;
    assert sets[1] == later[0];
    assert TurnAt(o, waiting, sets, kept, 0);
    forall t | t in o.delivered
      ensures t in Tids(waiting)
    {
      assert Tids(waiting) == [w.t] + Tids(waiting[1..]) && waiting[1..] == tail;
    }
  }

  ghost predicate NextIn(kept: seq<nat>, rest: seq<nat>, i: nat) {
    i + 1 in kept <==> i in rest
  }

  lemma OthersTurns(o: Outcome, o': Outcome, w: Waiter, tail: seq<Waiter>, bits: Bits, later: seq<Bits>,
                    rest: seq<nat>, kept: seq<nat>)
    requires |later| == |tail| + 1
    requires forall i {:trigger TurnAt(o', tail, later, rest, i)} :: 0 <= i < |tail| ==>
      TurnAt(o', tail, later, rest, i) && tail[i].t != w.t && NextIn(kept, rest, i)
    requires forall t :: t != w.t ==> (t in o.delivered <==> t in o'.delivered)
    requires forall t :: t in o'.delivered ==> t in o.delivered && o.delivered[t] == o'.delivered[t]
    ensures forall i {:trigger TurnAt(o, [w] + tail, [bits] + later, kept, i)} :: 0 < i <= |tail| ==>
      TurnAt(o, [w] + tail, [bits] + later, kept, i)
  {
    forall i | 0 < i <= |tail|
      ensures TurnAt(o, [w] + tail, [bits] + later, kept, i)
    {
      var j := i - 1;
      assert TurnAt(o', tail, later, rest, j);
      LaterTurn(o, o', w, tail, bits, later, rest, kept, j);
    }
  }

  lemma KeptTurns(o': Outcome, waiting: seq<Waiter>, rest: seq<nat>, kept: seq<nat>, o: Outcome, yes: bool)
    requires waiting != [] && kept == (if yes then [] else [0]) + Later(rest) && |rest| == |o'.waiting|
    requires o.waiting == (if yes then [] else [waiting[0]]) + o'.waiting
    requires forall a {:trigger KeptAt(o', waiting[1..], rest, a)} :: 0 <= a < |rest| ==>
      KeptAt(o', waiting[1..], rest, a)
    ensures forall a {:trigger KeptAt(o, waiting, kept, a)} :: 0 <= a < |kept| ==> KeptAt(o, waiting, kept, a)
  {
    forall a | 0 <= a < |kept|
      ensures KeptAt(o, waiting, kept, a)
    {
      var b := if yes then a else a - 1;
      if b >= 0 {
        assert KeptAt(o', waiting[1..], rest, b);
      }
    }
  }

  /** The walk serves the waiters in turn, for as long as each thread waits only once. */
  lemma {:induction false} WalkTurns(bits: Bits, waiting: seq<Waiter>) returns (sets: seq<Bits>, kept: seq<nat>)
    requires Distinct(Tids(waiting))
    ensures Turns(Walk(bits, waiting), bits, waiting, sets, kept)
  {
    if waiting == [] {
      return [bits], [];
    }
    var w, tail, yes := waiting[0], waiting[1..], Satisfied(waiting[0], bits);
    if yes {
      DeferredIsImmediate(w, bits);
    }
    assert Tids(waiting) == [w.t] + Tids(tail) && waiting == [w] + tail;
    assert w.t !in Tids(tail);
    var next := if yes then Left(w, bits) else bits;
    var later, rest := WalkTurns(next, tail);
    sets, kept := [bits] + later, (if yes then [] else [0]) + Later(rest);
    FirstTurn(Walk(bits, waiting), Walk(next, tail), w, tail, bits, later, rest, kept, yes);
  }

  /** The event object, changed in place. */
  class EventObject {
    var bits: Bits
    var waiting: seq<Waiter>

    ghost function View(): Event
      reads this
    {
      Event(bits, waiting)
    }

    constructor ()
      ensures View() == Event({}, [])
    {
      bits, waiting := {}, [];
    }

    /** rt_event_send; `delivered` says who was resumed with which bits. */
    method Send(more: Bits) returns (delivered: map<Tid, Bits>)
      modifies this
      ensures View() == old(View()).Send(more)
      ensures delivered == if more == {} then map[] else Retry(old(bits) + more, old(waiting)).delivered
    {
      delivered := map[];
      if more == {} {
        return;
      }
      bits := bits + more;
      ghost var all, start := waiting, bits;
      var n := 0;
      while n < |waiting|
        invariant n <= |waiting|
        invariant Walk(start, all) == Resumed(bits, waiting, n, delivered)
        decreases |waiting| - n
      {
        var w := waiting[n];
        ResumeStep(bits, waiting, n, delivered);
        if Satisfied(w, bits) {
          var got := Deferred(w, bits);
          if w.clear {
            bits := bits - got;
          }
          waiting := waiting[..n] + waiting[n + 1..];
          delivered := delivered[w.t := got];
        } else {
          n := n + 1;
        }
      }
      assert waiting[..n] == waiting && waiting[n..] == [];
      WalkIsRetry(start, all);
    }

    /** First region of rt_event_recv. */
    method Recv(w: Waiter, wait: bool, flag: Flag, prio: Prios) returns (reply: Reply)
      modifies this
      ensures (View(), reply) == old(View()).Recv(w, wait, flag, prio)
      ensures RecvOutcome(old(View()), View(), reply, w, wait, flag, prio)
    {
      RecvMeans(View(), w, wait, flag, prio);
      if w.want == {} {
        return Refused;
      }
      if Satisfied(w, bits) {
        reply := Got(bits * w.want);
        if w.clear {
          bits := bits - w.want;
        }
      } else if !wait {
        reply := TimedOut;
      } else {
        var n := |waiting|;
        if flag.Prio? {
          n := FindPlace(Tids(waiting), prio, PrioOf(prio, w.t));
        }
        waiting := waiting[..n] + [w] + waiting[n..];
        reply := Suspended;
      }
    }
  }

  // ---------------------------------------------------------------- protocol

  datatype Step =
    | Send(more: Bits)
    | Recv(w: Waiter, wait: bool, flag: Flag, prio: Prios)
    | Timeout(i: nat)
    | Reset

  ghost predicate Enabled(s: Event, a: Step) {
    match a
    case Recv(w, _, _, _) => w.t !in Tids(s.waiting)
    case Timeout(i) => i < |s.waiting|
    case _ => true
  }

  ghost function Apply(s: Event, a: Step): Event
    requires Enabled(s, a)
  {
    match a
    case Send(more) => s.Send(more)
    case Recv(w, wait, flag, prio) => s.Recv(w, wait, flag, prio).0
    case Timeout(i) => s.(waiting := Removed(s.waiting, i))
    case Reset => Event({}, [])
  }

  lemma StepLeavesNone(s: Event, a: Step)
    requires NoneSatisfied(s.bits, s.waiting) && Enabled(s, a)
    ensures NoneSatisfied(Apply(s, a).bits, Apply(s, a).waiting)
  {
    match a
    case Send(more) =>
      WalkLeavesNone(s.bits + more, s.waiting);
    case Recv(w, wait, flag, prio) =>
      forall i | 0 <= i < |s.waiting|
        ensures !Satisfied(s.waiting[i], Left(w, s.bits))
      {
        if Satisfied(s.waiting[i], Left(w, s.bits)) {
          FewerBits(s.waiting[i], Left(w, s.bits), s.bits);
        }
      }
    case Timeout(i) =>
    case Reset =>
  }

  ghost predicate IsRun(run: seq<Event>, steps: seq<Step>) {
    && |run| == |steps| + 1
    && run[0] == Event({}, [])
    && (forall i :: 0 <= i < |steps| ==> Enabled(run[i], steps[i]) && run[i + 1] == Apply(run[i], steps[i]))
  }

  /** In every reachable state no suspended thread's condition is met by the event set. */
  lemma {:induction false} NobodyOverlooked(run: seq<Event>, steps: seq<Step>, i: nat)
    requires IsRun(run, steps) && i < |run|
    ensures NoneSatisfied(run[i].bits, run[i].waiting)
  {
    if i > 0 {
      NobodyOverlooked(run, steps, i - 1);
      StepLeavesNone(run[i - 1], steps[i - 1]);
    }
  }
}
