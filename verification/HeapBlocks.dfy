/**
 What the two heaps do to their blocks: cutting a free block, melting a freed one with its
 neighbours, and moving the end of a block in use. `hdr` is the size of a header.
 */
module HeapBlocks {
  import opened Tiling

  const MIN: nat := 12          // the least payload of a block, MIN_SIZE_ALIGNED and RT_MEMHEAP_MINIALLOC

  ghost predicate Good(bs: seq<Block>, base: nat, end: nat, hdr: nat) {
    Tiles(bs, base, end, hdr) && Apart(bs)
  }

  /** The blocks that block `i` becomes when `size` bytes of it are allocated. */
  ghost function Carved(b: Block, size: nat, hdr: nat): seq<Block>
    requires b.size >= size
  {
    if b.size >= size + hdr + MIN then
      [Block(b.start, size, true), Block(b.start + size + hdr, b.size - size - hdr, false)]
    else [b.(used := true)]
  }

  ghost function AllocAt(bs: seq<Block>, i: nat, size: nat, hdr: nat): seq<Block>
    requires i < |bs| && bs[i].size >= size
  {
    Replace(bs, i, 1, Carved(bs[i], size, hdr))
  }

  ghost predicate LeftFree(bs: seq<Block>, i: nat)
    requires i < |bs|
  {
    i > 0 && !bs[i - 1].used
  }

  ghost predicate RightFree(bs: seq<Block>, i: nat)
    requires i < |bs|
  {
    i + 1 < |bs| && !bs[i + 1].used
  }

  ghost function Leftmost(bs: seq<Block>, i: nat): nat
    requires i < |bs|
  {
    if LeftFree(bs, i) then i - 1 else i
  }

  /** One past the last block that freeing block `i` melts together. */
  ghost function Beyond(bs: seq<Block>, i: nat): nat
    requires i < |bs|
  {
    if RightFree(bs, i) then i + 2 else i + 1
  }

  ghost function Melted(bs: seq<Block>, i: nat, hdr: nat): Block
    requires i < |bs|
  {
    Block(bs[Leftmost(bs, i)].start,
          (if LeftFree(bs, i) then bs[i - 1].size + hdr else 0) + bs[i].size
          + (if RightFree(bs, i) then hdr + bs[i + 1].size else 0),
          false)
  }

  /** Freeing merges with a free left neighbour, a free right neighbour, or both. */
  ghost function FreeAt(bs: seq<Block>, i: nat, hdr: nat): seq<Block>
    requires i < |bs|
  {
    Replace(bs, Leftmost(bs, i), Beyond(bs, i) - Leftmost(bs, i), [Melted(bs, i, hdr)])
  }

  ghost function Parted(start: nat, size: nat, rest: nat, hdr: nat): seq<Block> {
    [Block(start, size, true), Block(start + hdr + size, rest, false)]
  }

  /** Growing in place moves the border to the free right neighbour. */
  ghost function GrowAt(bs: seq<Block>, i: nat, size: nat, hdr: nat): seq<Block>
    requires i < |bs| && RightFree(bs, i) && size <= bs[i].size + bs[i + 1].size
  {
    Replace(bs, i, 2, Parted(bs[i].start, size, bs[i].size + bs[i + 1].size - size, hdr))
  }

  /** How many blocks a shrink concerns, and how large the split-off rest becomes. */
  ghost function Concerned(bs: seq<Block>, i: nat): nat
    requires i < |bs|
  {
    if RightFree(bs, i) then 2 else 1
  }

  ghost function Rest(bs: seq<Block>, i: nat, size: nat, hdr: nat): nat
    requires i < |bs| && size + hdr <= bs[i].size
  {
    if RightFree(bs, i) then bs[i].size - size + bs[i + 1].size else bs[i].size - size - hdr
  }

  /** Shrinking splits off the rest and merges it with a free right neighbour. */
  ghost function ShrinkAt(bs: seq<Block>, i: nat, size: nat, hdr: nat): seq<Block>
    requires i < |bs| && size + hdr <= bs[i].size
  {
    Replace(bs, i, Concerned(bs, i), Parted(bs[i].start, size, Rest(bs, i, size, hdr), hdr))
  }

  lemma PairTiles(a: Block, b: Block, hdr: nat)
    requires b.start == EndOf(a, hdr)
    ensures Tiles([a, b], a.start, EndOf(b, hdr), hdr)
    ensures a.used || b.used ==> Apart([a, b])
  {
    var s := [a, b];
    assert AbutsAt(s, EndOf(b, hdr), hdr, 0) && AbutsAt(s, EndOf(b, hdr), hdr, 1);
    forall i | 0 <= i < |s|
      ensures AbutsAt(s, EndOf(b, hdr), hdr, i)
    {
    }
  }

  /** A block may be cut in two. */
  lemma CutInTwo(bs: seq<Block>, base: nat, end: nat, i: nat, b: Block, c: Block, hdr: nat)
    requires Tiles(bs, base, end, hdr) && i < |bs| && b.start == bs[i].start
    requires c.start == EndOf(b, hdr) && EndOf(c, hdr) == EndOf(bs[i], hdr)
    ensures Tiles(Replace(bs, i, 1, [b, c]), base, end, hdr)
  {
    PairTiles(b, c, hdr);
    ReplaceTiles(bs, base, end, hdr, i, 1, [b, c]);
  }

  lemma OneTiles(a: Block, hdr: nat)
    ensures Tiles([a], a.start, EndOf(a, hdr), hdr) && Apart([a])
  {
    var s := [a];
    assert AbutsAt(s, EndOf(a, hdr), hdr, 0);
  }

  lemma AllocGood(bs: seq<Block>, base: nat, end: nat, i: nat, size: nat, hdr: nat)
    requires Good(bs, base, end, hdr) && i < |bs| && !bs[i].used && bs[i].size >= size
    ensures Good(AllocAt(bs, i, size, hdr), base, end, hdr)
    ensures var split := bs[i].size >= size + hdr + MIN;
            FreeBytes(AllocAt(bs, i, size, hdr)) == FreeBytes(bs) - (if split then size + hdr else bs[i].size)
  {
    var mid := Carved(bs[i], size, hdr);
    CarvedTiles(bs[i], size, hdr);
    assert AbutsAt(bs, end, hdr, i);
    ReplaceTiles(bs, base, end, hdr, i, 1, mid);
    AllocApart(bs, i, size, hdr);
    AllocSum(bs, i, size, hdr);
  }

  lemma AllocSum(bs: seq<Block>, i: nat, size: nat, hdr: nat)
    requires i < |bs| && !bs[i].used && bs[i].size >= size
    ensures var split := bs[i].size >= size + hdr + MIN;
            FreeBytes(AllocAt(bs, i, size, hdr)) == FreeBytes(bs) - (if split then size + hdr else bs[i].size)
  {
    CarvedTiles(bs[i], size, hdr);
    assert bs[i..i + 1] == [bs[i]];
    SumsReplace(bs, i, 1, Carved(bs[i], size, hdr), hdr);
  }

  lemma CarvedTiles(b: Block, size: nat, hdr: nat)
    requires !b.used && b.size >= size
    ensures var mid := Carved(b, size, hdr);
            && Tiles(mid, b.start, EndOf(b, hdr), hdr) && Apart(mid)
            && FreeBytes([b]) == b.size
            && FreeBytes(mid) == (if |mid| == 2 then b.size - size - hdr else 0)
  {
    var mid := Carved(b, size, hdr);
    SumsOne(b, hdr);
    SumsOne(mid[0], hdr);
    if |mid| == 2 {
      PairTiles(mid[0], mid[1], hdr);
      SumsTwo(mid[0], mid[1], hdr);
      SumsOne(mid[1], hdr);
      assert mid == [mid[0], mid[1]];
    } else {
      OneTiles(mid[0], hdr);
      assert mid == [mid[0]];
    }
  }

  /** The first part is in use, and the rest has the neighbour the whole had. */
  lemma AllocApart(bs: seq<Block>, i: nat, size: nat, hdr: nat)
    requires Apart(bs) && i < |bs| && !bs[i].used && bs[i].size >= size
    requires Apart(Carved(bs[i], size, hdr))
    ensures Apart(AllocAt(bs, i, size, hdr))
  {
    assert ApartAt(bs, i);
    if i > 0 {
      assert ApartAt(bs, i - 1);
    }
    ReplaceApart(bs, i, 1, Carved(bs[i], size, hdr));
  }

  /** The sums over one, two or three neighbours. */
  lemma SliceSums(bs: seq<Block>, i: nat, n: nat, hdr: nat)
    requires 1 <= n <= 3 && i + n <= |bs|
    ensures FreeBytes(bs[i..i + n]) == FreeBytes([bs[i]])
              + (if n > 1 then FreeBytes([bs[i + 1]]) else 0) + (if n > 2 then FreeBytes([bs[i + 2]]) else 0)
  {
    if n == 1 {
      assert bs[i..i + n] == [bs[i]];
    } else if n == 2 {
      assert bs[i..i + n] == [bs[i], bs[i + 1]];
      SumsTwo(bs[i], bs[i + 1], hdr);
    } else {
      assert bs[i..i + n] == [bs[i], bs[i + 1], bs[i + 2]];
      SumsThree(bs[i], bs[i + 1], bs[i + 2], hdr);
    }
  }

  lemma MeltedSpan(bs: seq<Block>, base: nat, end: nat, i: nat, hdr: nat)
    requires Tiles(bs, base, end, hdr) && i < |bs|
    ensures EndOf(Melted(bs, i, hdr), hdr) == EndOf(bs[Beyond(bs, i) - 1], hdr)
  {
    assert AbutsAt(bs, end, hdr, Leftmost(bs, i));
    assert AbutsAt(bs, end, hdr, i);
  }

  lemma FreeGood(bs: seq<Block>, base: nat, end: nat, i: nat, hdr: nat)
    requires Good(bs, base, end, hdr) && i < |bs| && bs[i].used
    ensures Good(FreeAt(bs, i, hdr), base, end, hdr)
  {
    var lo, hi, b := Leftmost(bs, i), Beyond(bs, i), Melted(bs, i, hdr);
    MeltedSpan(bs, base, end, i, hdr);
    OneTiles(b, hdr);
    ReplaceTiles(bs, base, end, hdr, lo, hi - lo, [b]);
    FreeApart(bs, i, hdr);
  }

  /** Beyond the neighbours that were melted in come used blocks. */
  lemma FreeApart(bs: seq<Block>, i: nat, hdr: nat)
    requires Apart(bs) && i < |bs| && bs[i].used && Apart([Melted(bs, i, hdr)])
    ensures Apart(FreeAt(bs, i, hdr))
  {
    var lo, hi := Leftmost(bs, i), Beyond(bs, i);
    if lo > 0 {
      assert ApartAt(bs, lo - 1);
    }
    assert ApartAt(bs, hi - 1);
    ReplaceApart(bs, lo, hi - lo, [Melted(bs, i, hdr)]);
  }

  lemma MeltedSum(bs: seq<Block>, i: nat, hdr: nat)
    requires i < |bs| && bs[i].used
    ensures FreeBytes(bs[Leftmost(bs, i)..Beyond(bs, i)]) + bs[i].size
              + (if LeftFree(bs, i) then hdr else 0) + (if RightFree(bs, i) then hdr else 0) == Melted(bs, i, hdr).size
  {
    SliceSums(bs, Leftmost(bs, i), Beyond(bs, i) - Leftmost(bs, i), hdr);
    SumsOne(bs[i], hdr);
    if LeftFree(bs, i) {
      SumsOne(bs[i - 1], hdr);
    }
    if RightFree(bs, i) {
      SumsOne(bs[i + 1], hdr);
    }
  }

  lemma FreeSum(bs: seq<Block>, i: nat, hdr: nat)
    requires i < |bs| && bs[i].used
    ensures FreeBytes(FreeAt(bs, i, hdr)) == FreeBytes(bs) + bs[i].size
              + (if LeftFree(bs, i) then hdr else 0) + (if RightFree(bs, i) then hdr else 0)
  {
    var lo, hi, b := Leftmost(bs, i), Beyond(bs, i), Melted(bs, i, hdr);
    SumsOne(b, hdr);
    MeltedSum(bs, i, hdr);
    var n := hi - lo;
    assert bs[lo..lo + n] == bs[lo..hi];
    assert FreeAt(bs, i, hdr) == Replace(bs, lo, n, [b]);
    SumsReplace(bs, lo, n, [b], hdr);
  }

  /** Cutting a used block (and its free neighbour, if `n` is 2) at a new border. */
  lemma PartedGood(bs: seq<Block>, base: nat, end: nat, i: nat, n: nat, size: nat, rest: nat, hdr: nat)
    requires Good(bs, base, end, hdr) && 1 <= n <= 2 && i + n <= |bs| && bs[i].used
    requires n == (if RightFree(bs, i) then 2 else 1)
    requires bs[i].start + hdr + size + hdr + rest == EndOf(bs[i + n - 1], hdr)
    ensures Good(Replace(bs, i, n, Parted(bs[i].start, size, rest, hdr)), base, end, hdr)
    ensures FreeBytes(Replace(bs, i, n, Parted(bs[i].start, size, rest, hdr))) ==
            FreeBytes(bs) + rest - (if n == 2 then bs[i + 1].size else 0)
  {
    var mid := Parted(bs[i].start, size, rest, hdr);
    PairTiles(mid[0], mid[1], hdr);
    ReplaceTiles(bs, base, end, hdr, i, n, mid);
    assert ApartAt(bs, i + n - 1);
    ReplaceApart(bs, i, n, mid);
    SumsReplace(bs, i, n, mid, hdr);
    SliceSums(bs, i, n, hdr);
    SumsTwo(mid[0], mid[1], hdr);
    SumsOne(mid[0], hdr);
    SumsOne(mid[1], hdr);
    SumsOne(bs[i], hdr);
    if n == 2 {
      SumsOne(bs[i + 1], hdr);
    }
  }

  lemma GrowGood(bs: seq<Block>, base: nat, end: nat, i: nat, size: nat, hdr: nat)
    requires Good(bs, base, end, hdr) && i < |bs| && bs[i].used && RightFree(bs, i)
    requires bs[i].size <= size <= bs[i].size + bs[i + 1].size
    ensures Good(GrowAt(bs, i, size, hdr), base, end, hdr)
    ensures FreeBytes(GrowAt(bs, i, size, hdr)) == FreeBytes(bs) - (size - bs[i].size)
  {
    assert AbutsAt(bs, end, hdr, i);
    var rest := bs[i].size + bs[i + 1].size - size;
    assert GrowAt(bs, i, size, hdr) == Replace(bs, i, 2, Parted(bs[i].start, size, rest, hdr));
    PartedGood(bs, base, end, i, 2, size, rest, hdr);
  }

  lemma ShrinkGood(bs: seq<Block>, base: nat, end: nat, i: nat, size: nat, hdr: nat)
    requires Good(bs, base, end, hdr) && i < |bs| && bs[i].used && size + hdr <= bs[i].size
    ensures Good(ShrinkAt(bs, i, size, hdr), base, end, hdr)
    ensures FreeBytes(ShrinkAt(bs, i, size, hdr)) ==
            FreeBytes(bs) + bs[i].size - size - (if RightFree(bs, i) then 0 else hdr)
  {
    assert AbutsAt(bs, end, hdr, i);
    PartedGood(bs, base, end, i, Concerned(bs, i), size, Rest(bs, i, size, hdr), hdr);
  }

  // ---------------------------------------------------------------- bytes in use

  lemma AllocUsed(bs: seq<Block>, i: nat, size: nat, hdr: nat)
    requires i < |bs| && !bs[i].used && bs[i].size >= size
    ensures UsedBytes(AllocAt(bs, i, size, hdr), hdr) == UsedBytes(bs, hdr) + Carved(bs[i], size, hdr)[0].size + hdr
  {
    var mid := Carved(bs[i], size, hdr);
    SumsReplace(bs, i, 1, mid, hdr);
    assert bs[i..i + 1] == [bs[i]];
    SumsOne(bs[i], hdr);
    SumsOne(mid[0], hdr);
    if |mid| == 2 {
      assert mid == [mid[0], mid[1]];
      SumsTwo(mid[0], mid[1], hdr);
      SumsOne(mid[1], hdr);
    } else {
      assert mid == [mid[0]];
    }
  }

  lemma {:induction false} UsedSlice(bs: seq<Block>, lo: nat, hi: nat, i: nat, hdr: nat)
    requires lo <= i < hi <= |bs|
    requires forall j :: lo <= j < hi && j != i ==> !bs[j].used
    ensures UsedBytes(bs[lo..hi], hdr) == if bs[i].used then bs[i].size + hdr else 0
    decreases hi - lo
  {
    if lo < i {
      assert bs[lo..hi][1..] == bs[lo + 1..hi];
      UsedSlice(bs, lo + 1, hi, i, hdr);
    } else if i + 1 < hi {
      assert bs[lo..hi] == bs[lo..hi - 1] + [bs[hi - 1]];
      SumsConcat(bs[lo..hi - 1], [bs[hi - 1]], hdr);
      SumsOne(bs[hi - 1], hdr);
      UsedSlice(bs, lo, hi - 1, i, hdr);
    } else {
      assert bs[lo..hi] == [bs[i]];
      SumsOne(bs[i], hdr);
    }
  }

  lemma FreeUsed(bs: seq<Block>, i: nat, hdr: nat)
    requires i < |bs| && bs[i].used
    ensures UsedBytes(FreeAt(bs, i, hdr), hdr) + bs[i].size + hdr == UsedBytes(bs, hdr)
  {
    var lo, n, b := Leftmost(bs, i), Beyond(bs, i) - Leftmost(bs, i), Melted(bs, i, hdr);
    assert FreeAt(bs, i, hdr) == Replace(bs, lo, n, [b]);
    SumsReplace(bs, lo, n, [b], hdr);
    SumsOne(b, hdr);
    UsedSlice(bs, lo, lo + n, i, hdr);
  }

  lemma ShrinkUsed(bs: seq<Block>, i: nat, size: nat, hdr: nat)
    requires i < |bs| && bs[i].used && size + hdr <= bs[i].size
    ensures UsedBytes(ShrinkAt(bs, i, size, hdr), hdr) + (bs[i].size - size) == UsedBytes(bs, hdr)
  {
    var n, mid := Concerned(bs, i), Parted(bs[i].start, size, Rest(bs, i, size, hdr), hdr);
    SumsReplace(bs, i, n, mid, hdr);
    UsedSlice(bs, i, i + n, i, hdr);
    SumsTwo(mid[0], mid[1], hdr);
    SumsOne(mid[0], hdr);
    SumsOne(mid[1], hdr);
  }

  // ---------------------------------------------------------------- coalescing in two halves

  ghost function MeltedLeft(bs: seq<Block>, i: nat, hdr: nat): seq<Block>
    requires i < |bs|
  {
    if LeftFree(bs, i) then Replace(bs, i - 1, 2, [bs[i - 1].(size := bs[i - 1].size + hdr + bs[i].size)]) else bs
  }

  ghost function MeltedRight(bs: seq<Block>, i: nat, hdr: nat): seq<Block>
    requires i < |bs|
  {
    if RightFree(bs, i) then Replace(bs, i, 2, [bs[i].(size := bs[i].size + hdr + bs[i + 1].size)]) else bs
  }

  /** Block `i`, freed and melted into a free predecessor. */
  ghost function LeftSpan(bs: seq<Block>, i: nat, hdr: nat): Block
    requires i < |bs|
  {
    Block(bs[Leftmost(bs, i)].start, (if LeftFree(bs, i) then bs[i - 1].size + hdr else 0) + bs[i].size, false)
  }

  lemma MarkedLeft(bs: seq<Block>, i: nat, hdr: nat, marked: seq<Block>)
    requires i < |bs| && bs[i].used && marked == bs[i := bs[i].(used := false)]
    ensures LeftFree(marked, i) == LeftFree(bs, i)
    ensures MeltedLeft(marked, i, hdr) == bs[..Leftmost(bs, i)] + [LeftSpan(bs, i, hdr)] + bs[i + 1..]
  {
    assert marked[i + 1..] == bs[i + 1..];
    if LeftFree(bs, i) {
      assert marked[..i - 1] == bs[..i - 1];
    } else {
      assert marked == bs[..i] + [marked[i]] + bs[i + 1..];
    }
  }

  lemma ThenRight(bs: seq<Block>, i: nat, hdr: nat, left: seq<Block>)
    requires i < |bs| && bs[i].used && left == bs[..Leftmost(bs, i)] + [LeftSpan(bs, i, hdr)] + bs[i + 1..]
    ensures var lo := Leftmost(bs, i);
            && RightFree(left, lo) == RightFree(bs, i) && (RightFree(bs, i) ==> left[lo + 1] == bs[i + 1])
            && MeltedRight(left, lo, hdr) == FreeAt(bs, i, hdr)
  {
    var lo := Leftmost(bs, i);
    assert left[..lo] == bs[..lo] && left[lo + 1..] == bs[i + 1..];
    if i + 1 < |bs| {
      assert left[lo + 1] == bs[i + 1];
    }
    if RightFree(bs, i) {
      assert left[lo + 2..] == bs[i + 2..];
    }
  }

  /** Marking the block free and then melting left and right is what freeing means. */
  lemma FreeInSteps(bs: seq<Block>, i: nat, hdr: nat, marked: seq<Block>, left: seq<Block>)
    requires i < |bs| && bs[i].used
    requires marked == bs[i := bs[i].(used := false)] && left == MeltedLeft(marked, i, hdr)
    ensures var lo := Leftmost(bs, i);
            && Leftmost(marked, i) == lo < |left| && !left[lo].used && left[lo].start == bs[lo].start
            && LeftFree(marked, i) == LeftFree(bs, i) && RightFree(left, lo) == RightFree(bs, i)
            && (RightFree(bs, i) ==> left[lo + 1] == bs[i + 1])
            && MeltedRight(left, lo, hdr) == FreeAt(bs, i, hdr)
  {
    MarkedLeft(bs, i, hdr, marked);
    ThenRight(bs, i, hdr, left);
  }

  /** The same with the right half first. */
  lemma FreeRightFirst(bs: seq<Block>, i: nat, hdr: nat)
    requires i < |bs| && bs[i].used
    ensures var marked := bs[i := bs[i].(used := false)];
            var right := MeltedRight(marked, i, hdr);
            && RightFree(marked, i) == RightFree(bs, i)
            && i < |right| && !right[i].used && right[i].start == bs[i].start
            && LeftFree(right, i) == LeftFree(bs, i) && (LeftFree(bs, i) ==> right[i - 1] == bs[i - 1])
            && MeltedLeft(right, i, hdr) == FreeAt(bs, i, hdr)
  {
    var right := MeltedRight(bs[i := bs[i].(used := false)], i, hdr);
    RightHalf(bs, i, hdr);
    LeftHalf(bs, i, hdr, right);
  }

  /** Block `i`, freed, with a free successor melted into it. */
  ghost function RightSpan(bs: seq<Block>, i: nat, hdr: nat): Block
    requires i < |bs|
  {
    Block(bs[i].start, bs[i].size + (if RightFree(bs, i) then hdr + bs[i + 1].size else 0), false)
  }

  lemma RightHalf(bs: seq<Block>, i: nat, hdr: nat)
    requires i < |bs| && bs[i].used
    ensures var marked := bs[i := bs[i].(used := false)];
            && RightFree(marked, i) == RightFree(bs, i)
            && MeltedRight(marked, i, hdr) == bs[..i] + [RightSpan(bs, i, hdr)] + bs[Beyond(bs, i)..]
  {
    var marked := bs[i := bs[i].(used := false)];
    assert marked[..i] == bs[..i];
    if RightFree(bs, i) {
      assert marked[i + 2..] == bs[i + 2..];
    } else {
      assert marked == bs[..i] + [marked[i]] + bs[i + 1..];
    }
  }

  lemma LeftHalf(bs: seq<Block>, i: nat, hdr: nat, right: seq<Block>)
    requires i < |bs| && bs[i].used && right == bs[..i] + [RightSpan(bs, i, hdr)] + bs[Beyond(bs, i)..]
    ensures LeftFree(right, i) == LeftFree(bs, i) && (LeftFree(bs, i) ==> right[i - 1] == bs[i - 1])
    ensures MeltedLeft(right, i, hdr) == FreeAt(bs, i, hdr)
  {
    assert i > 0 ==> right[i - 1] == bs[i - 1];
    assert right[i + 1..] == bs[Beyond(bs, i)..];
    if LeftFree(bs, i) {
      assert right[..i - 1] == bs[..i - 1];
    }
  }

  /** Splitting off the rest and melting it to the right is what shrinking means. */
  lemma ShrinkInSteps(bs: seq<Block>, i: nat, size: nat, hdr: nat)
    requires i < |bs| && bs[i].used && size + hdr <= bs[i].size
    ensures var cut := Replace(bs, i, 1, Parted(bs[i].start, size, bs[i].size - size - hdr, hdr));
            && i + 1 < |cut| && !cut[i + 1].used && cut[i + 1].start == bs[i].start + hdr + size
            && cut[i + 1].size == bs[i].size - size - hdr
            && RightFree(cut, i + 1) == RightFree(bs, i)
            && (RightFree(bs, i) ==> cut[i + 2] == bs[i + 1])
            && MeltedRight(cut, i + 1, hdr) == ShrinkAt(bs, i, size, hdr)
            && ShrinkAt(bs, i, size, hdr)[i + 1] == Block(bs[i].start + hdr + size,
                 bs[i].size - size - hdr + (if RightFree(bs, i) then hdr + bs[i + 1].size else 0), false)
  {
    var cut := Replace(bs, i, 1, Parted(bs[i].start, size, bs[i].size - size - hdr, hdr));
    assert cut[..i] == bs[..i] && cut[i + 2..] == bs[i + 1..];
    if i + 1 < |bs| {
      assert cut[i + 2] == cut[i + 2..][0] == bs[i + 1];
      assert cut[i + 3..] == bs[i + 2..];
    }
    assert cut[..i + 1] == bs[..i] + [Block(bs[i].start, size, true)];
  }

  /** Swallowing the free neighbour and cutting at the new border is what growing means. */
  lemma GrowInSteps(bs: seq<Block>, i: nat, size: nat, hdr: nat)
    requires i < |bs| && RightFree(bs, i) && size <= bs[i].size + bs[i + 1].size
    ensures var whole := Replace(bs, i, 2, [bs[i].(size := bs[i].size + hdr + bs[i + 1].size)]);
            var rest := bs[i].size + bs[i + 1].size - size;
            GrowAt(bs, i, size, hdr) == Replace(whole, i, 1, Parted(bs[i].start, size, rest, hdr))
  {
  }

  // ---------------------------------------------------------------- live blocks

  /** Allocation adds one live block and touches no other. */
  lemma AllocLive(bs: seq<Block>, base: nat, end: nat, i: nat, size: nat, hdr: nat)
    requires Tiles(bs, base, end, hdr) && hdr > 0 && i < |bs| && !bs[i].used && bs[i].size >= size
    ensures var b := Carved(bs[i], size, hdr)[0];
            && Live(AllocAt(bs, i, size, hdr)) == Live(bs) + {b}
            && b.start == bs[i].start && b.size >= size && b.used
  {
    var mid := Carved(bs[i], size, hdr);
    LiveReplace(bs, base, end, hdr, i, 1, mid);
    LiveSlice(bs, i, 1, i);
    assert mid[0..|mid|] == mid;
    LiveSlice(mid, 0, |mid|, 0);
  }

  /** Freeing removes one live block and touches no other. */
  lemma FreeLive(bs: seq<Block>, base: nat, end: nat, i: nat, hdr: nat)
    requires Tiles(bs, base, end, hdr) && hdr > 0 && i < |bs| && bs[i].used
    ensures Live(FreeAt(bs, i, hdr)) == Live(bs) - {bs[i]}
  {
    var lo, hi, b := Leftmost(bs, i), Beyond(bs, i), Melted(bs, i, hdr);
    LiveReplace(bs, base, end, hdr, lo, hi - lo, [b]);
    LiveSlice(bs, lo, hi - lo, i);
    assert [b][0..1] == [b];
    LiveSlice([b], 0, 1, 0);
  }

  /** Moving the end of a live block touches no other. */
  lemma PartedLive(bs: seq<Block>, base: nat, end: nat, i: nat, n: nat, size: nat, rest: nat, hdr: nat)
    requires Tiles(bs, base, end, hdr) && hdr > 0 && i + n <= |bs| && i < |bs| && bs[i].used
    requires n == if RightFree(bs, i) then 2 else 1
    ensures Live(Replace(bs, i, n, Parted(bs[i].start, size, rest, hdr))) ==
            Live(bs) - {bs[i]} + {Block(bs[i].start, size, true)}
  {
    var mid := Parted(bs[i].start, size, rest, hdr);
    LiveReplace(bs, base, end, hdr, i, n, mid);
    LiveSlice(bs, i, n, i);
    assert mid[0..2] == mid;
    LiveSlice(mid, 0, 2, 0);
  }

  lemma GrowLive(bs: seq<Block>, base: nat, end: nat, i: nat, size: nat, hdr: nat)
    requires Tiles(bs, base, end, hdr) && hdr > 0 && i < |bs| && bs[i].used && RightFree(bs, i)
    requires size <= bs[i].size + bs[i + 1].size
    ensures Live(GrowAt(bs, i, size, hdr)) == Live(bs) - {bs[i]} + {Block(bs[i].start, size, true)}
  {
    PartedLive(bs, base, end, i, 2, size, bs[i].size + bs[i + 1].size - size, hdr);
  }

  lemma ShrinkLive(bs: seq<Block>, base: nat, end: nat, i: nat, size: nat, hdr: nat)
    requires Tiles(bs, base, end, hdr) && hdr > 0 && i < |bs| && bs[i].used && size + hdr <= bs[i].size
    ensures Live(ShrinkAt(bs, i, size, hdr)) == Live(bs) - {bs[i]} + {Block(bs[i].start, size, true)}
  {
    PartedLive(bs, base, end, i, Concerned(bs, i), size, Rest(bs, i, size, hdr), hdr);
  }

  /** Freeing what was just allocated restores the blocks as they were. */
  lemma AllocFreeRoundTrip(bs: seq<Block>, i: nat, size: nat, hdr: nat)
    requires Apart(bs) && i < |bs| && !bs[i].used && bs[i].size >= size
    ensures FreeAt(AllocAt(bs, i, size, hdr), i, hdr) == bs
  {
    var cut := AllocAt(bs, i, size, hdr);
    var mid := Carved(bs[i], size, hdr);
    assert ApartAt(bs, i);
    if i > 0 {
      assert ApartAt(bs, i - 1);
    }
    assert cut[..i] == bs[..i] && cut[i + |mid|..] == bs[i + 1..];
    assert cut[i] == mid[0] && (|mid| == 2 ==> cut[i + 1] == mid[1]);
    assert i > 0 ==> cut[i - 1] == cut[..i][i - 1] == bs[i - 1];
    assert |mid| == 1 && i + 1 < |bs| ==> cut[i + 1] == cut[i + 1..][0] == bs[i + 1];
    assert !LeftFree(cut, i) && (RightFree(cut, i) <==> |mid| == 2);
    assert Melted(cut, i, hdr) == bs[i];
    assert bs == bs[..i] + [bs[i]] + bs[i + 1..];
  }

  /** A block in use is still there after an allocation, next to the new one. */
  lemma Survivor(bs: seq<Block>, base: nat, end: nat, i: nat, k: nat, size: nat, hdr: nat) returns (j: nat)
    requires Tiles(bs, base, end, hdr) && hdr > 0 && i < |bs| && bs[i].used
    requires k < |bs| && !bs[k].used && bs[k].size >= size
    ensures j < |AllocAt(bs, k, size, hdr)| && AllocAt(bs, k, size, hdr)[j] == bs[i]
    ensures var b := Carved(bs[k], size, hdr)[0];
            && Live(AllocAt(bs, k, size, hdr)) == Live(bs) + {b}
            && b.start == bs[k].start && b.size >= size && b.used && b !in Live(bs)
            && AllocAt(bs, k, size, hdr)[k] == b
  {
    AllocLive(bs, base, end, k, size, hdr);
    TilesDistinct(bs, base, end, hdr);
    var after := AllocAt(bs, k, size, hdr);
    assert bs[i] in Live(bs) && bs[i] in Live(after);
    j :| 0 <= j < |after| && after[j].used && after[j] == bs[i];
  }

  /** The live blocks after a request: those before, without `gone`, and one of at least `size` at `r`. */
  ghost predicate Serves(before: set<Block>, after: set<Block>, gone: set<Block>, r: int, size: nat, hdr: nat) {
    exists b: Block :: b in after && b.used && b.start + hdr == r && b.size >= size && after == before - gone + {b}
  }

  lemma ServedBy(before: set<Block>, after: set<Block>, gone: Block, b: Block, r: int, size: nat, hdr: nat)
    requires b.used && b.start + hdr == r && b.size >= size
    requires after == before - {gone} + {b} || (after == before && gone == b && b in before)
    ensures Serves(before, after, {gone}, r, size, hdr)
  {
    assert b in after;
  }
}
