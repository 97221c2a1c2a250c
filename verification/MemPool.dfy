/**
 The fixed-block memory pool of mempool.c. The first word of a block links the free list
 while the block is free and points back to the pool while it is allocated.
 */
module MemPool {
  import opened Links
  import opened WaitLists
  import opened MessageStore

  const POOL: int := -2

  datatype Option = None | Some(b: nat)

  /** The block list, changed in place; blocks are numbered in address order. */
  class Blocks {
    const total: nat
    var count: nat              // block_free_count
    var blockList: int
    var word: map<int, int>     // the first word of every block
    ghost var free: seq<nat>

    ghost predicate Valid()
      reads this
    {
      && Distinct(free)
      && count == |free|
      && Chain(word, blockList, free)
      && (forall b :: b in free ==> b < total)
      && (forall b :: 0 <= b < total ==> (Allocated(b) <==> b !in free))
    }

    ghost predicate Allocated(b: nat)
      reads this
    {
      b < total && b in word && word[b] == POOL
    }

    /** rt_mp_init asks for room for at least one block: it always writes a last link. */
    constructor (blocks: nat)
      requires blocks > 0
      ensures Valid() && total == blocks && |free| == blocks
      ensures forall i :: 0 <= i < blocks ==> free[i] == i
    {
      var links: map<int, int> := map[];
      var offset := 0;
      while offset < blocks
        invariant 0 <= offset <= blocks
        invariant forall b :: b in links ==> 0 <= b < offset
        invariant forall b :: 0 <= b < offset ==> b in links && links[b] == b + 1
      {
        links := links[offset := offset + 1];
        offset := offset + 1;
      }
      links := links[offset - 1 := NIL];
      ghost var s: seq<nat> := seq(blocks, i => i);
      forall i | 0 <= i < |s|
        ensures LinkAt(links, s, i)
      {
      }
      forall b: nat | b < blocks
        ensures b in s
      {
        assert s[b] == b;
      }
      total, count, blockList, word, free := blocks, blocks, 0, links, s;
    }

    method Alloc() returns (b: nat)
      requires Valid() && count > 0
      modifies this
      ensures Valid() && [b] + free == old(free) && Allocated(b)
      ensures forall c :: old(Allocated(c)) ==> Allocated(c)
    {
      ChainPop(word, blockList, free);
      assert free == [free[0]] + free[1..];
      count := count - 1;
      b := blockList;
      blockList := word[b];
      assert b in free && b !in free[1..];
      assert forall c :: c in free[1..] ==> c in free;
      ChainFrame(word, blockList, free[1..], word[b := POOL]);
      word := word[b := POOL];
      free := free[1..];
      forall c | 0 <= c < total
        ensures Allocated(c) <==> c !in free
      {
        assert c != b ==> (old(Allocated(c)) <==> c !in old(free));
      }
    }

    /** The list part of rt_mp_free; a null block changes nothing. */
    method Free(block: Option)
      requires Valid() && (block.Some? ==> Allocated(block.b))
      modifies this
      ensures Valid() && free == if block.Some? then [block.b] + old(free) else old(free)
      ensures forall c :: block != Some(c) && old(Allocated(c)) ==> Allocated(c)
    {
      if block == None {
        return;
      }
      var b := block.b;
      ChainPush(word, blockList, free, b);
      count := count + 1;
      word := word[b := blockList];
      blockList := b;
      free := [b] + free;
      forall c | 0 <= c < total
        ensures Allocated(c) <==> c !in free
      {
        assert c != b ==> (old(Allocated(c)) <==> c !in old(free));
        if c == b {
          assert old(free) != [] ==> old(free)[0] in old(free);
        }
      }
    }
  }

  // ---------------------------------------------------------------- protocol

  datatype State = State(total: nat, free: seq<nat>, held: set<nat>, gate: Gate)

  datatype Step = Alloc(t: Tid, wait: bool) | Free(b: nat) | Timeout(t: Tid)

  ghost function Initial(total: nat): State {
    State(total, seq(total, i => i), {}, Gate([], {}))
  }

  ghost predicate Enabled(s: State, a: Step) {
    match a
    case Alloc(t, _) => t !in s.gate.waiting
    case Free(b) => b in s.held
    case Timeout(t) => t in s.gate.waiting
  }

  /** A thread that has to wait goes to the front of the list: the last one in is resumed first. */
  ghost function Apply(s: State, a: Step): State
    requires Enabled(s, a)
  {
    match a
    case Alloc(t, wait) =>
      if s.free != [] then State(s.total, s.free[1..], s.held + {s.free[0]}, s.gate.Leave(t))
      else if wait then s.(gate := s.gate.Suspend(t, 0))
      else s.(gate := s.gate.Leave(t))
    case Free(b) => State(s.total, [b] + s.free, s.held - {b}, s.gate.Signal())
    case Timeout(t) => s.(gate := s.gate.Expire(t))
  }

  ghost predicate Inv(s: State) {
    && Distinct(s.free)
    && (forall b :: 0 <= b < s.total <==> b in s.held || b in s.free)
    && (forall b :: b in s.free ==> b !in s.held)
    && s.gate.Valid()
    && s.gate.NoLostWakeup(|s.free|)
  }

  lemma AllocInv(s: State, t: Tid, wait: bool)
    requires Inv(s) && Enabled(s, Alloc(t, wait))
    ensures Inv(Apply(s, Alloc(t, wait)))
  {
    LeaveGate(s.gate, t, |s.free|);
    if s.free != [] {
      assert s.free == [s.free[0]] + s.free[1..];
      forall b | b in s.free[1..]
        ensures b in s.free && b != s.free[0]
      {
      }
    } else if wait {
      SuspendGate(s.gate, t, 0);
    }
  }

  lemma FreeInv(s: State, b: nat)
    requires Inv(s) && Enabled(s, Free(b))
    ensures Inv(Apply(s, Free(b)))
  {
    SignalGate(s.gate, |s.free|);
    assert b !in s.free;
  }

  lemma StepInv(s: State, a: Step)
    requires Inv(s) && Enabled(s, a)
    ensures Inv(Apply(s, a))
  {
    match a
    case Alloc(t, wait) => AllocInv(s, t, wait);
    case Free(b) => FreeInv(s, b);
    case Timeout(t) => ExpireGate(s.gate, t, |s.free|);
  }

  // ---------------------------------------------------------------- what the calls do

  /** An allocation gets the first free block, or waits in front of all others if it may, or is refused. */
  lemma AllocMeans(s: State, t: Tid, wait: bool)
    requires Inv(s) && Enabled(s, Alloc(t, wait))
    ensures var s' := Apply(s, Alloc(t, wait));
            && s'.total == s.total && t !in s'.gate.woken
            && (forall x :: x != t ==> (x in s'.gate.woken <==> x in s.gate.woken))
            && (if s.free != [] then
                  && s.free == [s.free[0]] + s'.free && s'.held == s.held + {s.free[0]} && s.free[0] !in s.held
                  && s'.gate.waiting == s.gate.waiting
                else
                  && s'.free == [] && s'.held == s.held
                  && s'.gate.waiting == if wait then [t] + s.gate.waiting else s.gate.waiting)
  {
    AllocInv(s, t, wait);
    assert s.gate.waiting[0..] == s.gate.waiting;
  }

  /** A block given back is the next to be handed out, and the thread that came last is resumed. */
  lemma FreeMeans(s: State, b: nat)
    requires Inv(s) && Enabled(s, Free(b))
    ensures var s' := Apply(s, Free(b));
            && s'.free == [b] + s.free && FirstResumed(s.gate, s'.gate)
            && (forall c :: c in s'.held <==> c in s.held && c != b)
  {
    GateMoves(s.gate, 0, Fifo, map[]);
  }

  /** A suspended thread stays so through a step unless it times out or is resumed. */
  lemma WaiterLeaves(s: State, a: Step, t: Tid)
    requires Inv(s) && Enabled(s, a) && t in s.gate.waiting
    ensures var s' := Apply(s, a);
            t in s'.gate.waiting <==> a != Timeout(t) && t !in s'.gate.woken
  {
    FirstGoes(s.gate, t);
    if a.Alloc? {
      OthersWait(s.gate, a.t, 0, t);
    }
  }

  ghost predicate IsRun(run: seq<State>, steps: seq<Step>) {
    && |run| == |steps| + 1
    && run[0] == Initial(run[0].total)
    && (forall i :: 0 <= i < |steps| ==> Enabled(run[i], steps[i]) && run[i + 1] == Apply(run[i], steps[i]))
  }

  lemma {:induction false} RunInv(run: seq<State>, steps: seq<Step>, i: nat)
    requires IsRun(run, steps) && i < |run|
    ensures Inv(run[i]) && run[i].total == run[0].total
  {
    if i > 0 {
      RunInv(run, steps, i - 1);
      StepInv(run[i - 1], steps[i - 1]);
    } else {
      var s: seq<nat> := seq(run[0].total, j => j);
      forall b | 0 <= b < run[0].total
        ensures b in s
      {
        assert s[b] == b;
      }
    }
  }

  /**
   In every interleaving each block is either free or held, never both, and while an allocator
   is suspended the free blocks do not outnumber the allocators already resumed.
   */
  lemma PoolTheorem(run: seq<State>, steps: seq<Step>, i: nat, b: nat)
    requires IsRun(run, steps) && i < |run| && b < run[0].total
    ensures b in run[i].free <==> b !in run[i].held
    ensures run[i].gate.waiting != [] ==> |run[i].free| <= |run[i].gate.woken|
    ensures run[i].gate.waiting != [] && run[i].gate.woken == {} ==> b in run[i].held
  {
    RunInv(run, steps, i);
  }
}
