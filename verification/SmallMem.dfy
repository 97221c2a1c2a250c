/**
 The small memory heap of mem.c, as a function on its blocks: first fit from `lfree`, and the
 three ways in which the blocks change.
 */
module SmallMem {
  import opened Tiling
  import opened HeapBlocks

  const HDR: nat := 12          // SIZEOF_STRUCT_MEM on a 32-bit target
  const WORD32: nat := 0x1_0000_0000

  /** RT_ALIGN(size, 4) in 32-bit arithmetic. */
  function Align(size: nat): (r: nat)
    ensures r % 4 == 0 && r < WORD32
  {
    (size + 3) % WORD32 / 4 * 4
  }

  /** Alignment rounds up by less than a word, if and only if the sum fits in 32 bits. */
  lemma AlignCovers(size: nat)
    requires size < WORD32
    ensures size <= Align(size) < size + 4 <==> size <= WORD32 - 4
  {
    if size > WORD32 - 4 {
      assert (size + 3) % WORD32 == size + 3 - WORD32;
    }
  }

  /** The sum wraps to nothing for the three greatest sizes, and for no other but 0. */
  lemma AlignVanishesIff(size: nat)
    requires size < WORD32
    ensures Align(size) == 0 <==> size == 0 || size > WORD32 - 4
  {
    if size > WORD32 - 4 {
      assert (size + 3) % WORD32 == size + 3 - WORD32;
    } else {
      assert (size + 3) % WORD32 == size + 3;
    }
  }

  /** The bytes rt_malloc looks for. */
  function Needed(size: nat): nat {
    if Align(size) < MIN then MIN else Align(size)
  }

  /** For the three greatest sizes rt_malloc looks for the minimum, and rt_realloc sees the size 0. */
  lemma HugeRequestIff(size: nat)
    requires 0 < size < WORD32
    ensures Needed(size) < size <==> size > WORD32 - 4
    ensures size > WORD32 - 4 <==> Align(size) == 0
    ensures size > WORD32 - 4 ==> Needed(size) == MIN
  {
    AlignVanishesIff(size);
    AlignCovers(size);
  }

  /** The blocks, the address of the tail header, and the place where searches start. */
  datatype Heap = Heap(bs: seq<Block>, end: nat, lfree: nat)

  ghost predicate Sound(h: Heap) {
    && Good(h.bs, 0, h.end, HDR)
    && (h.lfree == h.end || exists i :: IsFreeAt(h, i))
  }

  /** lfree is the header of block `i`, which is unused. */
  ghost predicate IsFreeAt(h: Heap, i: int) {
    0 <= i < |h.bs| && h.bs[i].start == h.lfree && !h.bs[i].used
  }

  /** What the comment on lfree claims: every block below it is in use. */
  ghost predicate Lowest(h: Heap) {
    forall i :: 0 <= i < |h.bs| && h.bs[i].start < h.lfree ==> h.bs[i].used
  }

  /** A block rt_malloc may take for `size` bytes: the bound on its address is strict. */
  ghost predicate Takes(h: Heap, i: int, size: nat)
    requires 0 <= i < |h.bs|
  {
    && !h.bs[i].used && h.bs[i].size >= size
    && h.bs[i].start + size + HDR < h.end
  }

  /** Block `i` is the first one, from lfree upwards, that rt_malloc may take. */
  ghost predicate FirstFit(h: Heap, i: int, size: nat) {
    && 0 <= i < |h.bs| && h.lfree <= h.bs[i].start && Takes(h, i, size)
    && (forall j :: 0 <= j < i && h.lfree <= h.bs[j].start ==> !Takes(h, j, size))
  }

  ghost predicate NoFit(h: Heap, size: nat) {
    forall j :: 0 <= j < |h.bs| && h.lfree <= h.bs[j].start ==> !Takes(h, j, size)
  }

  /** The position of the first unused block from `k` on, or the number of blocks. */
  ghost function UnusedFrom(bs: seq<Block>, k: nat): (m: nat)
    requires k <= |bs|
    ensures k <= m <= |bs| && (m < |bs| ==> !bs[m].used)
    ensures forall j :: k <= j < m ==> bs[j].used
    decreases |bs| - k
  {
    if k == |bs| || !bs[k].used then k else UnusedFrom(bs, k + 1)
  }

  ghost function HeaderAt(bs: seq<Block>, end: nat, m: nat): nat
    requires m <= |bs|
  {
    if m < |bs| then bs[m].start else end
  }

  ghost function Malloc(h: Heap, i: nat, size: nat): Heap
    requires i < |h.bs| && h.bs[i].size >= size
  {
    var bs := AllocAt(h.bs, i, size, HDR);
    Heap(bs, h.end, if h.lfree == h.bs[i].start then HeaderAt(bs, h.end, UnusedFrom(bs, i)) else h.lfree)
  }

  ghost function Free(h: Heap, i: nat): Heap
    requires i < |h.bs|
  {
    Heap(FreeAt(h.bs, i, HDR), h.end, if h.bs[i].start < h.lfree then Melted(h.bs, i, HDR).start else h.lfree)
  }

  ghost function Shrink(h: Heap, i: nat, size: nat): Heap
    requires i < |h.bs| && size + HDR <= h.bs[i].size
  {
    Heap(ShrinkAt(h.bs, i, size, HDR), h.end,
         if RightFree(h.bs, i) && h.lfree == h.bs[i + 1].start then h.bs[i].start + HDR + size else h.lfree)
  }

  /** The block at `i` has been replaced by one that rt_malloc takes for `size` bytes while it is still in use. */
  ghost predicate Relocated(h: Heap, h': Heap, r: int, size: nat, i: nat)
    requires i < |h.bs|
  {
    exists k, j :: RelocatedBy(h, h', r, size, i, k, j)
  }

  ghost predicate RelocatedBy(h: Heap, h': Heap, r: int, size: nat, i: nat, k: nat, j: nat)
    requires i < |h.bs|
  {
    && FirstFit(h, k, size) && r == h.bs[k].start + HDR
    && j < |Malloc(h, k, size).bs| && Malloc(h, k, size).bs[j] == h.bs[i]
    && h' == Free(Malloc(h, k, size), j)
  }

  lemma RelocatedIs(h: Heap, mid: Heap, h': Heap, r: int, size: nat, i: nat, k: nat, j: nat)
    requires i < |h.bs| && FirstFit(h, k, size) && r == h.bs[k].start + HDR && mid == Malloc(h, k, size)
    requires j < |mid.bs| && mid.bs[j] == h.bs[i] && h' == Free(mid, j)
    ensures Relocated(h, h', r, size, i)
  {
    assert RelocatedBy(h, h', r, size, i, k, j);
  }

  // ---------------------------------------------------------------- what every operation keeps

  /** Blocks outside the replaced run keep their place in the sequence or move by a constant. */
  lemma StillThere(bs: seq<Block>, i: nat, n: nat, mid: seq<Block>, k: nat)
    requires i + n <= |bs| && k < |bs| && (k < i || k >= i + n)
    ensures var t := Replace(bs, i, n, mid);
            var k' := if k < i then k else k - n + |mid|;
            k' < |t| && t[k'] == bs[k]
  {
  }

  lemma MallocSound(h: Heap, i: nat, size: nat)
    requires Sound(h) && FirstFit(h, i, size)
    ensures Sound(Malloc(h, i, size))
  {
    var h' := Malloc(h, i, size);
    AllocGood(h.bs, 0, h.end, i, size, HDR);
    TilesDistinct(h.bs, 0, h.end, HDR);
    if h.lfree == h.bs[i].start {
      var m := UnusedFrom(h'.bs, i);
      assert m < |h'.bs| ==> IsFreeAt(h', m);
    } else if h.lfree != h.end {
      var k :| IsFreeAt(h, k);
      assert k < i;
      StillThere(h.bs, i, 1, Carved(h.bs[i], size, HDR), k);
      assert IsFreeAt(h', k);
    }
  }

  lemma FreeSound(h: Heap, i: nat)
    requires Sound(h) && i < |h.bs| && h.bs[i].used
    ensures Sound(Free(h, i))
  {
    var h' := Free(h, i);
    var lo, hi, b := Leftmost(h.bs, i), Beyond(h.bs, i), Melted(h.bs, i, HDR);
    FreeGood(h.bs, 0, h.end, i, HDR);
    TilesDistinct(h.bs, 0, h.end, HDR);
    if h.bs[i].start < h.lfree {
      assert IsFreeAt(h', lo);
    } else if h.lfree != h.end {
      var k :| IsFreeAt(h, k);
      assert k < i;
      if k == lo {
        assert IsFreeAt(h', lo);
      } else {
        StillThere(h.bs, lo, hi - lo, [b], k);
        assert IsFreeAt(h', k);
      }
    }
  }

  lemma ShrinkSound(h: Heap, i: nat, size: nat)
    requires Sound(h) && i < |h.bs| && h.bs[i].used && size + HDR <= h.bs[i].size
    ensures Sound(Shrink(h, i, size))
  {
    var h' := Shrink(h, i, size);
    var n := Concerned(h.bs, i);
    ShrinkGood(h.bs, 0, h.end, i, size, HDR);
    TilesDistinct(h.bs, 0, h.end, HDR);
    if RightFree(h.bs, i) && h.lfree == h.bs[i + 1].start {
      assert IsFreeAt(h', i + 1);
    } else if h.lfree != h.end {
      var k :| IsFreeAt(h, k);
      StillThere(h.bs, i, n, Parted(h.bs[i].start, size, Rest(h.bs, i, size, HDR), HDR), k);
      assert IsFreeAt(h', if k < i then k else k - n + 2);
    }
  }

  // ---------------------------------------------------------------- when lfree is the lowest

  lemma MallocLowest(h: Heap, i: nat, size: nat)
    requires Sound(h) && Lowest(h) && FirstFit(h, i, size)
    ensures Lowest(Malloc(h, i, size))
  {
    var h' := Malloc(h, i, size);
    AllocGood(h.bs, 0, h.end, i, size, HDR);
    TilesDistinct(h'.bs, 0, h.end, HDR);
    forall j | 0 <= j < |h'.bs| && h'.bs[j].start < h'.lfree
      ensures h'.bs[j].used
    {
      if j < i {
        BelowTaken(h, i, j);
      }
    }
  }

  /** Below a block at or above lfree, an unused block would lie below lfree, or be lfree itself. */
  lemma BelowTaken(h: Heap, i: nat, j: nat)
    requires Sound(h) && Lowest(h) && j < i < |h.bs| && h.lfree <= h.bs[i].start
    ensures h.bs[j].start < h.lfree ==> h.bs[j].used
    ensures h.lfree == h.bs[i].start ==> h.bs[j].used
  {
    TilesDistinct(h.bs, 0, h.end, HDR);
    TilesOrdered(h.bs, 0, h.end, HDR, j, i);
  }

  lemma FreeLowest(h: Heap, i: nat)
    requires Sound(h) && Lowest(h) && i < |h.bs| && h.bs[i].used
    ensures Lowest(Free(h, i))
  {
    var h' := Free(h, i);
    var lo := Leftmost(h.bs, i);
    TilesDistinct(h.bs, 0, h.end, HDR);
    FreeGood(h.bs, 0, h.end, i, HDR);
    TilesDistinct(h'.bs, 0, h.end, HDR);
    forall j | 0 <= j < |h'.bs| && h'.bs[j].start < h'.lfree
      ensures h'.bs[j].used
    {
      if j < lo {
        assert h'.bs[j] == h.bs[j];
      }
    }
  }

  /**
   An in-place shrink leaves lfree the lowest unused block if and only if lfree was already below
   the split-off rest, or is the free neighbour that the rest swallows.
   */
  lemma ShrinkLowestIff(h: Heap, i: nat, size: nat)
    requires Sound(h) && Lowest(h) && i < |h.bs| && h.bs[i].used && size + HDR <= h.bs[i].size
    ensures Lowest(Shrink(h, i, size)) <==>
            (h.lfree < h.bs[i].start + HDR + size || (RightFree(h.bs, i) && h.lfree == h.bs[i + 1].start))
  {
    var h' := Shrink(h, i, size);
    var rest := h.bs[i].start + HDR + size;
    TilesDistinct(h.bs, 0, h.end, HDR);
    ShrinkNeighbours(h, i, size);
    if h.lfree < rest || (RightFree(h.bs, i) && h.lfree == h.bs[i + 1].start) {
      forall j | 0 <= j < |h'.bs| && h'.bs[j].start < h'.lfree
        ensures h'.bs[j].used
      {
        assert AbutsAt(h.bs, h.end, HDR, i);
        assert h'.lfree <= h.lfree;
        if j != i && j != i + 1 {
          assert Old(h, h'.bs[j]);
          var k :| 0 <= k < |h.bs| && h.bs[k] == h'.bs[j];
        }
      }
    } else {
      LfreeNotInside(h, i, rest);
      assert h'.bs[i + 1].start == rest < h'.lfree;
    }
  }

  ghost predicate Old(h: Heap, b: Block) {
    b in h.bs
  }

  lemma ShrinkNeighbours(h: Heap, i: nat, size: nat)
    requires Sound(h) && i < |h.bs| && h.bs[i].used && size + HDR <= h.bs[i].size
    ensures var bs' := Shrink(h, i, size).bs;
            && i + 1 < |bs'| && bs'[i].used && !bs'[i + 1].used && bs'[i + 1].start == h.bs[i].start + HDR + size
            && forall j :: 0 <= j < |bs'| && j != i && j != i + 1 ==> Old(h, bs'[j])
  {
    var bs' := Shrink(h, i, size).bs;
    var n := Concerned(h.bs, i);
    forall j | 0 <= j < |bs'| && j != i && j != i + 1
      ensures Old(h, bs'[j])
    {
      assert bs'[j] == h.bs[if j < i then j else j - 2 + n];
    }
  }

  /** lfree is a header, so it does not lie inside a block. */
  lemma LfreeNotInside(h: Heap, i: nat, x: nat)
    requires Sound(h) && i < |h.bs| && h.bs[i].start < x && x + HDR <= EndOf(h.bs[i], HDR)
    ensures h.lfree != x
  {
    TilesOrdered(h.bs, 0, h.end, HDR, i, |h.bs|);
    if h.lfree != h.end {
      var k :| IsFreeAt(h, k);
      if k < i {
        TilesOrdered(h.bs, 0, h.end, HDR, k, i);
      } else if k > i {
        TilesOrdered(h.bs, 0, h.end, HDR, i, k);
      }
    }
  }

  /** A shrink after which lfree is not the lowest unused block. */
  lemma ShrinkExample()
    ensures var h := Heap([Block(0, 100, true), Block(112, 40, true), Block(164, 36, false)], 212, 164);
            Sound(h) && Lowest(h) && !Lowest(Shrink(h, 0, 16))
  {
    var h := Heap([Block(0, 100, true), Block(112, 40, true), Block(164, 36, false)], 212, 164);
    assert AbutsAt(h.bs, 212, HDR, 0) && AbutsAt(h.bs, 212, HDR, 1) && AbutsAt(h.bs, 212, HDR, 2);
    assert IsFreeAt(h, 2);
    assert Shrink(h, 0, 16).bs[1] == Block(28, 72, false);
  }

  // ---------------------------------------------------------------- what rt_malloc finds

  /** With lfree lowest, first fit from lfree is first fit over the whole heap. */
  lemma FirstFitIsLowest(h: Heap, i: nat, size: nat)
    requires Sound(h) && Lowest(h) && FirstFit(h, i, size)
    ensures forall j :: 0 <= j < |h.bs| && Takes(h, j, size) ==> h.bs[i].start <= h.bs[j].start
  {
    TilesDistinct(h.bs, 0, h.end, HDR);
  }

  /** An unused block of exactly the requested size in the last place is refused, anywhere else it is taken. */
  lemma LastExactFitRefused(h: Heap, i: nat)
    requires Sound(h) && i < |h.bs| && !h.bs[i].used
    ensures Takes(h, i, h.bs[i].size) <==> i + 1 < |h.bs|
  {
    assert AbutsAt(h.bs, h.end, HDR, i);
    if i + 1 < |h.bs| {
      assert AbutsAt(h.bs, h.end, HDR, i + 1);
      TilesDistinct(h.bs, 0, h.end, HDR);
    }
  }

  // ---------------------------------------------------------------- plug_holes

  /** What plug_holes makes of lfree. */
  ghost function Plugged(all: seq<Block>, i: nat, l: nat): nat
    requires i < |all|
  {
    var l1 := if RightFree(all, i) && l == all[i + 1].start then all[i].start else l;
    if LeftFree(all, i) && l1 == all[i].start then all[i - 1].start else l1
  }

  lemma MeltedRightHeaders(was: seq<Block>, i: nat)
    requires i < |was|
    ensures var right := MeltedRight(was, i, HDR);
            && i < |right| && right[i].start == was[i].start && right[i].used == was[i].used
            && LeftFree(right, i) == LeftFree(was, i) && (i > 0 ==> right[i - 1] == was[i - 1])
            && forall k :: 0 <= k < |right| ==> exists j :: 0 <= j < |was| && was[j].start == right[k].start
  {
    var right := MeltedRight(was, i, HDR);
    forall k | 0 <= k < |right|
      ensures exists j :: 0 <= j < |was| && was[j].start == right[k].start
    {
      assert right[k].start == was[if k <= i || |right| == |was| then k else k + 1].start;
    }
  }

  lemma MarkedTiles(was: seq<Block>, end: nat, i: nat)
    requires Tiles(was, 0, end, HDR) && i < |was|
    ensures Tiles(was[i := was[i].(used := false)], 0, end, HDR)
  {
    var t := was[i := was[i].(used := false)];
    forall k | 0 <= k < |t|
      ensures AbutsAt(t, end, HDR, k)
    {
      assert AbutsAt(was, end, HDR, k);
    }
  }

  lemma FreedLfree(h: Heap, i: nat)
    requires Sound(h) && i < |h.bs| && h.bs[i].used
    ensures var marked := h.bs[i := h.bs[i].(used := false)];
            Plugged(marked, i, if h.bs[i].start < h.lfree then h.bs[i].start else h.lfree) == Free(h, i).lfree
  {
    TilesDistinct(h.bs, 0, h.end, HDR);
    if h.bs[i].start >= h.lfree && h.lfree != h.end {
      var k :| IsFreeAt(h, k);
    }
  }

  lemma CutTiles(was: seq<Block>, end: nat, i: nat, size: nat)
    requires Tiles(was, 0, end, HDR) && i < |was| && size + HDR <= was[i].size
    ensures Tiles(CutAt(was, i, size), 0, end, HDR)
  {
    var mid := Parted(was[i].start, size, was[i].size - size - HDR, HDR);
    PairTiles(mid[0], mid[1], HDR);
    ReplaceTiles(was, 0, end, HDR, i, 1, mid);
  }

  ghost function CutAt(bs: seq<Block>, i: nat, size: nat): seq<Block>
    requires i < |bs| && size + HDR <= bs[i].size
  {
    Replace(bs, i, 1, Parted(bs[i].start, size, bs[i].size - size - HDR, HDR))
  }

  /** Cutting a block and plugging the hole behind it is what shrinking means. */
  lemma ShrinkPlugged(h: Heap, i: nat, size: nat)
    requires i < |h.bs| && h.bs[i].used && size + HDR <= h.bs[i].size
    ensures var cut := CutAt(h.bs, i, size);
            && i + 1 < |cut| && !cut[i + 1].used && cut[i + 1].start == h.bs[i].start + HDR + size
            && MeltedLeft(MeltedRight(cut, i + 1, HDR), i + 1, HDR) == ShrinkAt(h.bs, i, size, HDR)
            && Plugged(cut, i + 1, h.lfree) == Shrink(h, i, size).lfree
  {
    var cut := CutAt(h.bs, i, size);
    ShrinkInSteps(h.bs, i, size, HDR);
    assert cut[i].used && !LeftFree(cut, i + 1);
    var right := MeltedRight(cut, i + 1, HDR);
    RightKeepsLeft(cut, i + 1);
    assert MeltedLeft(right, i + 1, HDR) == right;
  }

  lemma RightKeepsLeft(bs: seq<Block>, i: nat)
    requires i < |bs| && !LeftFree(bs, i)
    ensures i < |MeltedRight(bs, i, HDR)| && !LeftFree(MeltedRight(bs, i, HDR), i)
  {
    assert i > 0 ==> MeltedRight(bs, i, HDR)[i - 1] == bs[i - 1];
  }
}
