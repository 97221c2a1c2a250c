/**
 The node pool of a message queue: singly linked through the message headers, with a
 head and a tail for the queued messages and a stack of free nodes.
 */
module MessageStore {
  import opened Links

  const NIL: int := -1

  /** What the pointers mean: the queued nodes from head to tail, the free nodes, the counter. */
  datatype Store = Store(queue: seq<nat>, free: seq<nat>, entry: nat) {

    function TakeFree(): Store
      requires free != []
    {
      this.(free := free[1..])
    }

    function LinkTail(n: nat): Store {
      this.(queue := queue + [n], entry := entry + 1)
    }

    function LinkHead(n: nat): Store {
      this.(queue := [n] + queue, entry := entry + 1)
    }

    function TakeHead(): Store
      requires queue != [] && entry > 0
    {
      this.(queue := queue[1..], entry := entry - 1)
    }

    function PutFree(n: nat): Store {
      this.(free := [n] + free)
    }

    /** RT_IPC_CMD_RESET moves the queued nodes one by one to the front of the free list. */
    function Drain(): Store {
      Store([], Reversed(queue) + free, 0)
    }
  }

  function Reversed(s: seq<nat>): (r: seq<nat>)
    ensures |r| == |s|
    ensures forall i :: 0 <= i < |s| ==> r[i] == s[|s| - 1 - i]
  {
    if s == [] then [] else Reversed(s[1..]) + [s[0]]
  }

  /** All the nodes of a pool of `count`, last one first, as rt_mq_init leaves them. */
  function FreshFree(count: nat): (r: seq<nat>)
    ensures |r| == count
    ensures forall i :: 0 <= i < count ==> r[i] == count - 1 - i
  {
    if count == 0 then [] else [count - 1] + FreshFree(count - 1)
  }

  ghost function NextIn(s: seq<nat>, i: int): int
    requires 0 <= i < |s|
  {
    if i + 1 < |s| then s[i + 1] else NIL
  }

  ghost predicate LinkAt(next: map<int, int>, s: seq<nat>, i: int)
    requires 0 <= i < |s|
  {
    s[i] in next && next[s[i]] == NextIn(s, i)
  }

  /** Following `next` from `first` visits exactly `s` and ends in NIL. */
  ghost predicate Chain(next: map<int, int>, first: int, s: seq<nat>) {
    && first == (if s == [] then NIL else s[0])
    && (forall i {:trigger LinkAt(next, s, i)} :: 0 <= i < |s| ==> LinkAt(next, s, i))
  }

  lemma ChainFrame(next: map<int, int>, first: int, s: seq<nat>, next': map<int, int>)
    requires Chain(next, first, s)
    requires forall i :: 0 <= i < |s| ==> (s[i] in next ==> s[i] in next' && next'[s[i]] == next[s[i]])
    ensures Chain(next', first, s)
  {
    forall i | 0 <= i < |s|
      ensures LinkAt(next', s, i)
    {
      assert LinkAt(next, s, i);
    }
  }

  lemma ChainPush(next: map<int, int>, first: int, s: seq<nat>, n: nat)
    requires Chain(next, first, s) && n !in s
    ensures Chain(next[n := first], n, [n] + s)
  {
    var t := [n] + s;
    var next' := next[n := first];
    forall i | 0 <= i < |t|
      ensures LinkAt(next', t, i)
    {
      if i > 0 {
        assert LinkAt(next, s, i - 1);
        assert s[i - 1] in s;
      }
    }
  }

  lemma ChainPop(next: map<int, int>, first: int, s: seq<nat>)
    requires Chain(next, first, s) && s != []
    ensures first in next && Chain(next, next[first], s[1..])
  {
    assert LinkAt(next, s, 0);
    forall i | 0 <= i < |s| - 1
      ensures LinkAt(next, s[1..], i)
    {
      assert LinkAt(next, s, i + 1);
    }
  }

  lemma ChainAppend(next: map<int, int>, first: int, s: seq<nat>, n: nat)
    requires Chain(next, first, s) && s != [] && Distinct(s + [n])
    requires n in next && next[n] == NIL
    ensures Chain(next[s[|s| - 1] := n], first, s + [n])
  {
    var t := s + [n];
    var next' := next[s[|s| - 1] := n];
    forall i | 0 <= i < |t|
      ensures LinkAt(next', t, i)
    {
      assert t[i] != t[|s| - 1] || i == |s| - 1;
      if i < |s| {
        assert LinkAt(next, s, i);
      }
    }
  }

  /** One more node on the fresh free list. */
  lemma OneMore(next: map<int, int>, freeTop: int, n: nat)
    requires Chain(next, freeTop, FreshFree(n)) && Distinct(FreshFree(n))
    ensures Chain(next[n := freeTop], n, [n] + FreshFree(n)) && Distinct([n] + FreshFree(n))
  {
    assert n !in FreshFree(n);
    ChainPush(next, freeTop, FreshFree(n), n);
    ConsDistinct(n, FreshFree(n));
  }

  lemma ConsDistinct(n: nat, s: seq<nat>)
    requires Distinct(s) && n !in s
    ensures Distinct([n] + s)
  {
    forall i, j | 0 <= i < j < |[n] + s|
      ensures ([n] + s)[i] != ([n] + s)[j]
    {
      assert ([n] + s)[j] == s[j - 1] && s[j - 1] in s;
    }
  }

  /** The write behind the tail extends the queue and spares the free list. */
  lemma TailLinked(next: map<int, int>, head: int, queue: seq<nat>, freeTop: int, free: seq<nat>, n: nat)
    requires Distinct(queue + free) && Chain(next, head, queue) && Chain(next, freeTop, free)
    requires n !in queue + free && n in next && next[n] == NIL
    ensures var next' := if queue == [] then next else next[queue[|queue| - 1] := n];
            && Chain(next', if queue == [] then n else head, queue + [n])
            && Chain(next', freeTop, free)
  {
    if queue != [] {
      var last := queue[|queue| - 1];
      assert Distinct(queue + [n]) by {
        assert forall i :: 0 <= i < |queue| ==> queue[i] == (queue + free)[i];
      }
      ChainAppend(next, head, queue, n);
      assert last == (queue + free)[|queue| - 1];
      assert forall i :: 0 <= i < |free| ==> free[i] == (queue + free)[|queue| + i];
      ChainFrame(next, freeTop, free, next[last := n]);
    } else {
      assert LinkAt(next, [n], 0);
    }
  }

  /** The message queue's pointers, changed in place. */
  class Pool {
    var head: int
    var tail: int
    var freeTop: int
    var next: map<int, int>
    var entry: nat
    ghost var queue: seq<nat>
    ghost var free: seq<nat>

    ghost predicate Valid()
      reads this
    {
      && Distinct(queue + free)
      && Chain(next, head, queue)
      && Chain(next, freeTop, free)
      && tail == (if queue == [] then NIL else queue[|queue| - 1])
      && entry == |queue|
    }

    ghost function View(): Store
      reads this
    {
      Store(queue, free, entry)
    }

    /** head and tail are null together, and exactly when nothing is queued. */
    lemma NullTogether()
      requires Valid()
      ensures head == NIL <==> tail == NIL
      ensures head == NIL <==> entry == 0
    {
    }

    constructor (count: nat)
      ensures Valid()
      ensures View() == Store([], FreshFree(count), 0)
    {
      head, tail, freeTop, entry := NIL, NIL, NIL, 0;
      next := map[];
      queue, free := [], [];
      new;
      for temp := 0 to count
        invariant head == NIL && tail == NIL && queue == [] && entry == 0
        invariant free == FreshFree(temp) && Chain(next, freeTop, FreshFree(temp)) && Distinct(FreshFree(temp))
      {
        OneMore(next, freeTop, temp);
        next := next[temp := freeTop];
        freeTop := temp;
        free := [temp] + free;
      }
      assert queue + free == free;
    }

    /** Take a node off the free list: first region of a send. */
    method TakeFree() returns (msg: nat)
      requires Valid() && free != []
      modifies this`freeTop, this`free
      ensures Valid() && View() == old(View()).TakeFree()
      ensures msg == old(free)[0] && msg !in queue + free && msg in next
    {
      ChainPop(next, freeTop, free);
      msg := freeTop;
      freeTop := next[msg];
      assert queue + free == queue + [free[0]] + free[1..];
      DistinctDelete(queue, free[1..], free[0]);
      free := free[1..];
    }

    /** A private node gets a null link while its sender fills it in. */
    method ClearNext(n: nat)
      requires Valid() && n !in queue + free
      modifies this`next
      ensures Valid() && n in next && next[n] == NIL
    {
      next := next[n := NIL];
      FrameBoth(old(next), n);
    }

    lemma FrameBoth(old_next: map<int, int>, n: nat)
      requires Chain(old_next, head, queue) && Chain(old_next, freeTop, free)
      requires n !in queue + free
      requires forall x :: x != n && x in old_next ==> x in next && next[x] == old_next[x]
      ensures Chain(next, head, queue) && Chain(next, freeTop, free)
    {
      assert forall i :: 0 <= i < |queue| ==> queue[i] in queue + free;
      assert forall i :: 0 <= i < |free| ==> free[i] in queue + free;
      ChainFrame(old_next, head, queue, next);
      ChainFrame(old_next, freeTop, free, next);
    }

    /** Second region of rt_mq_send_wait: link behind the tail. */
    method LinkTail(n: nat)
      requires Valid() && n !in queue + free && n in next && next[n] == NIL
      modifies this`next, this`head, this`tail, this`entry, this`queue
      ensures Valid() && View() == old(View()).LinkTail(n)
    {
      TailLinked(next, head, queue, freeTop, free, n);
      if tail != NIL {
        next := next[tail := n];
      }
      tail := n;
      if head == NIL {
        head := n;
      }
      entry := entry + 1;
      DistinctInsert(queue, free, n);
      queue := queue + [n];
    }

    /** Second region of rt_mq_urgent: link in front of the head. */
    method LinkHead(n: nat)
      requires Valid() && n !in queue + free
      modifies this`next, this`head, this`tail, this`entry, this`queue
      ensures Valid() && View() == old(View()).LinkHead(n)
    {
      assert n !in queue && n !in free;
      ChainPush(next, head, queue, n);
      ChainFrame(next, freeTop, free, next[n := head]);
      next := next[n := head];
      head := n;
      if tail == NIL {
        tail := n;
      }
      entry := entry + 1;
      assert [n] + queue + free == [n] + (queue + free);
      queue := [n] + queue;
    }

    /** First region of rt_mq_recv: unlink the head. */
    method TakeHead() returns (msg: nat)
      requires Valid() && entry > 0
      modifies this`head, this`tail, this`entry, this`queue
      ensures Valid() && View() == old(View()).TakeHead()
      ensures msg == old(queue)[0] && msg !in queue + free
    {
      ChainPop(next, head, queue);
      msg := head;
      head := next[msg];
      assert queue[|queue| - 1] == queue[0] ==> |queue| == 1 by {
        assert queue[0] == (queue + free)[0] && queue[|queue| - 1] == (queue + free)[|queue| - 1];
      }
      if tail == msg {
        tail := NIL;
      }
      entry := entry - 1;
      assert queue + free == [] + [queue[0]] + (queue[1..] + free);
      assert [] + (queue[1..] + free) == queue[1..] + free;
      DistinctDelete([], queue[1..] + free, queue[0]);
      queue := queue[1..];
    }

    /** Second region of rt_mq_recv: push the node on the free list. */
    method PutFree(n: nat)
      requires Valid() && n !in queue + free
      modifies this`next, this`freeTop, this`free
      ensures Valid() && View() == old(View()).PutFree(n)
    {
      assert n !in queue && n !in free;
      ChainPush(next, freeTop, free, n);
      ChainFrame(next, head, queue, next[n := freeTop]);
      next := next[n := freeTop];
      freeTop := n;
      DistinctInsert(queue, free, n);
      assert queue + ([n] + free) == queue + [n] + free;
      free := [n] + free;
    }

    /** rt_mq_control with RT_IPC_CMD_RESET: a loop over the queued messages. */
    method Drain()
      requires Valid()
      modifies this
      ensures Valid() && View() == old(View()).Drain()
    {
      ghost var was := queue;
      while head != NIL
        invariant Valid()
        invariant Reversed(queue) + free == Reversed(was) + old(free)
        decreases |queue|
      {
        ghost var q, f := queue, free;
        var msg := TakeHead();
        PutFree(msg);
        assert Reversed(q) == Reversed(q[1..]) + [q[0]];
        assert Reversed(queue) + free == Reversed(q) + f;
      }
      entry := 0;
      assert Reversed(queue) + free == free;
    }
  }

  lemma DistinctInsert(a: seq<nat>, b: seq<nat>, n: nat)
    requires Distinct(a + b) && n !in a + b
    ensures Distinct(a + [n] + b)
  {
    var s, t := a + b, a + [n] + b;
    forall i, j | 0 <= i < j < |t|
      ensures t[i] != t[j]
    {
      assert i != |a| ==> t[i] == s[if i < |a| then i else i - 1];
      assert j != |a| ==> t[j] == s[if j < |a| then j else j - 1];
    }
  }

  lemma DistinctDelete(a: seq<nat>, b: seq<nat>, n: nat)
    requires Distinct(a + [n] + b)
    ensures Distinct(a + b) && n !in a + b
  {
    var s, t := a + b, a + [n] + b;
    assert t[|a|] == n;
    forall i | 0 <= i < |s|
      ensures s[i] == t[if i < |a| then i else i + 1] != n
    {
    }
  }
}
