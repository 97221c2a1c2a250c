/**
 What holds of the small memory heap over every sequence of operations. A realloc that moves
 the block is a malloc followed by a free.
 */
module SmallMemRuns {
  import opened Tiling
  import opened HeapBlocks
  import opened SmallMem

  datatype Op = TakeBlock(i: nat, size: nat) | FreeBlock(i: nat) | ShrinkBlock(i: nat, size: nat)

  ghost predicate Next(h: Heap, op: Op, h': Heap) {
    match op
    case TakeBlock(i, size) => FirstFit(h, i, size) && h' == Malloc(h, i, size)
    case FreeBlock(i) => i < |h.bs| && h.bs[i].used && h' == Free(h, i)
    case ShrinkBlock(i, size) =>
      i < |h.bs| && h.bs[i].used && size + HDR + MIN < h.bs[i].size && h' == Shrink(h, i, size)
  }

  ghost predicate NextAt(hs: seq<Heap>, ops: seq<Op>, k: nat)
    requires k < |ops| < |hs|
  {
    Next(hs[k], ops[k], hs[k + 1])
  }

  /** From the one unused block that rt_system_heap_init leaves. */
  ghost predicate Run(hs: seq<Heap>, ops: seq<Op>) {
    && |hs| == |ops| + 1
    && hs[0].end >= HDR && hs[0] == Heap([Block(0, hs[0].end - HDR, false)], hs[0].end, 0)
    && forall k {:trigger NextAt(hs, ops, k)} :: 0 <= k < |ops| ==> NextAt(hs, ops, k)
  }

  lemma InitialSound(end: nat)
    requires end >= HDR
    ensures var h := Heap([Block(0, end - HDR, false)], end, 0); Sound(h) && Lowest(h)
  {
    var h := Heap([Block(0, end - HDR, false)], end, 0);
    OneTiles(h.bs[0], HDR);
    assert IsFreeAt(h, 0);
  }

  lemma StepSound(h: Heap, op: Op, h': Heap)
    requires Sound(h) && Next(h, op, h')
    ensures Sound(h')
  {
    match op
    case TakeBlock(i, size) => MallocSound(h, i, size);
    case FreeBlock(i) => FreeSound(h, i);
    case ShrinkBlock(i, size) => ShrinkSound(h, i, size);
  }

  /** In every reachable heap the blocks tile the area, no two neighbours are unused, and lfree is sound. */
  lemma {:induction false} RunSound(hs: seq<Heap>, ops: seq<Op>, k: nat)
    requires Run(hs, ops) && k < |hs|
    ensures Sound(hs[k])
  {
    if k == 0 {
      InitialSound(hs[0].end);
    } else {
      RunSound(hs, ops, k - 1);
      assert NextAt(hs, ops, k - 1);
      StepSound(hs[k - 1], ops[k - 1], hs[k]);
    }
  }

  /** The shrink splits off a block above lfree, or one that swallows the block at lfree. */
  ghost predicate Harmless(h: Heap, op: Op) {
    op.ShrinkBlock? && op.i < |h.bs| ==>
      h.lfree < h.bs[op.i].start + HDR + op.size || (RightFree(h.bs, op.i) && h.lfree == h.bs[op.i + 1].start)
  }

  /** A step keeps lfree lowest exactly when it is not a harmful shrink. */
  lemma StepLowestIff(h: Heap, op: Op, h': Heap)
    requires Sound(h) && Lowest(h) && Next(h, op, h')
    ensures Lowest(h') <==> Harmless(h, op)
  {
    match op
    case TakeBlock(i, size) => MallocLowest(h, i, size);
    case FreeBlock(i) => FreeLowest(h, i);
    case ShrinkBlock(i, size) => ShrinkLowestIff(h, i, size);
  }

  ghost predicate LowestAt(hs: seq<Heap>, k: nat)
    requires k < |hs|
  {
    Lowest(hs[k])
  }

  ghost predicate HarmlessAt(hs: seq<Heap>, ops: seq<Op>, j: nat)
    requires j < |ops| < |hs|
  {
    Harmless(hs[j], ops[j])
  }

  lemma NextLowestIff(hs: seq<Heap>, ops: seq<Op>, j: nat)
    requires Run(hs, ops) && j < |ops| && LowestAt(hs, j)
    ensures LowestAt(hs, j + 1) <==> HarmlessAt(hs, ops, j)
  {
    RunSound(hs, ops, j);
    assert NextAt(hs, ops, j);
    StepLowestIff(hs[j], ops[j], hs[j + 1]);
  }

  /** Over every run: lfree is lowest up to step `k` if and only if the first `k` steps are harmless. */
  lemma {:induction false} RunLowestIff(hs: seq<Heap>, ops: seq<Op>, k: nat)
    requires Run(hs, ops) && k <= |ops|
    ensures (forall i :: 0 <= i <= k ==> LowestAt(hs, i)) <==> (forall j :: 0 <= j < k ==> HarmlessAt(hs, ops, j))
  {
    if k == 0 {
      InitialSound(hs[0].end);
      assert LowestAt(hs, 0);
    } else {
      var j := k - 1;
      RunLowestIff(hs, ops, j);
      if forall i :: 0 <= i < k ==> LowestAt(hs, i) {
        assert LowestAt(hs, j);
        NextLowestIff(hs, ops, j);
      } else {
        var l :| 0 <= l < j && !HarmlessAt(hs, ops, l);
      }
    }
  }

  /** Without harmful shrinks rt_malloc takes the lowest block it may take, and fails only if there is none. */
  lemma RunTakesLowest(hs: seq<Heap>, ops: seq<Op>, k: nat, size: nat)
    requires Run(hs, ops) && k < |hs| && forall j :: 0 <= j < k ==> HarmlessAt(hs, ops, j)
    ensures NoFit(hs[k], size) <==> forall j :: 0 <= j < |hs[k].bs| ==> !Takes(hs[k], j, size)
    ensures forall i, j :: FirstFit(hs[k], i, size) && 0 <= j < |hs[k].bs| && Takes(hs[k], j, size) ==>
      hs[k].bs[i].start <= hs[k].bs[j].start
  {
    RunSound(hs, ops, k);
    RunLowestIff(hs, ops, k);
    assert LowestAt(hs, k);
    forall i, j | FirstFit(hs[k], i, size) && 0 <= j < |hs[k].bs| && Takes(hs[k], j, size)
      ensures hs[k].bs[i].start <= hs[k].bs[j].start
    {
      FirstFitIsLowest(hs[k], i, size);
    }
  }
}
