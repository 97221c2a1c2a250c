/**
 The memory heap object of memheap.c, relinked in place.
 */
module MemHeapObject {
  import opened Links
  import opened Tiling
  import opened HeapBlocks
  import opened MemHeap
  import opened MemHeapLinks

  class Heap {
    const start: nat
    const poolSize: nat
    const tail: nat               // address of the used block that ends the pool
    var available: int
    var maxUsed: int
    var next: map<int, int>
    var prev: map<int, int>
    var used: map<int, bool>
    var nextFree: map<int, int>
    var prevFree: map<int, int>
    ghost var blocks: seq<Block>  // in address order
    ghost var free: seq<int>      // in the order of the free ring
    ghost var levels: seq<int>    // bytes in use after each operation

    ghost predicate Linked()
      reads this
    {
      Tiles(blocks, start, tail, HDR) && Rep(next, prev, used, blocks, tail)
    }

    ghost predicate FreeLinked()
      reads this
    {
      Ring(nextFree, prevFree, [HEAD] + free)
    }

    /**
     The blocks tile the pool, the header words agree with them in both directions, no two
     neighbours are free, the free ring holds each free block once, the counters are right, and
     the area lies in the 32-bit address space.
     */
    ghost predicate Valid()
      reads this
    {
      && tail == start + poolSize - HDR && tail + HDR <= WORD32
      && Linked() && FreeLinked()
      && Apart(blocks) && LiveMin(blocks)
      && Elems(free) == FreeStarts(blocks)
      && available == FreeBytes(blocks)
      && Tracked()
    }

    /** `levels` records the bytes in use after each operation; maxUsed is the greatest of them. */
    ghost predicate Tracked()
      reads this
    {
      levels != [] && levels[|levels| - 1] == poolSize - available && maxUsed == MaxOf(levels)
    }

    /** rt_memheap_init. */
    constructor (startAddr: nat, size: nat)
      requires size / 4 * 4 >= 2 * HDR && startAddr + size <= WORD32
      ensures Valid() && start == startAddr && poolSize == size / 4 * 4
      ensures blocks == [Block(start, poolSize - 2 * HDR, false)] && maxUsed == 2 * HDR
    {
      var pool := size / 4 * 4;
      var first: int := startAddr;
      var last: int := startAddr + (pool - 2 * HDR) + HDR;
      start, poolSize, tail := startAddr, pool, startAddr + pool - HDR;
      available := pool - 2 * HDR;
      maxUsed := pool - (pool - 2 * HDR);
      next := map[first := last, last := first];
      prev := map[first := last, last := first];
      used := map[first := false, last := true];
      nextFree := map[HEAD := first, first := HEAD, last := NIL];
      prevFree := map[HEAD := first, first := HEAD, last := NIL];
      blocks := [Block(startAddr, pool - 2 * HDR, false)];
      free := [first];
      levels := [2 * HDR];
      new;
      OneTiles(blocks[0], HDR);
      SumsOne(blocks[0], HDR);
      FreeStartsOne(blocks[0]);
      var r := RingOf(blocks, tail);
      assert r == [first, last];
      assert LinkedAt(next, prev, r, 0) && LinkedAt(next, prev, r, 1);
      var f := [HEAD] + free;
      assert LinkedAt(nextFree, prevFree, f, 0) && LinkedAt(nextFree, prevFree, f, 1);
    }

    /** The operation is over; the counters are final. */
    ghost method Record()
      requires levels != [] && maxUsed == Max(MaxOf(levels), poolSize - available)
      modifies this`levels
      ensures Tracked() && levels == old(levels) + [poolSize - available]
    {
      MaxOfNext(levels, poolSize - available);
      levels := levels + [poolSize - available];
    }

    /** `n` more bytes in use. */
    method Charge(n: int)
      requires Tracked()
      modifies this`available, this`maxUsed, this`levels
      ensures Tracked() && available == old(available) - n && levels == old(levels) + [poolSize - available]
    {
      available := available - n;
      if poolSize - available > maxUsed {
        maxUsed := poolSize - available;
      }
      Record();
    }

    // -------------------------------------------------------------- relinking

    method FreeListInsert(x: int)
      requires FreeLinked() && x != HEAD && x !in free
      modifies this`nextFree, this`prevFree, this`free
      ensures FreeLinked() && free == [x] + old(free)
    {
      ghost var f := [HEAD] + free;
      assert LinkedAt(nextFree, prevFree, f, 0);
      assert After(f, 0) in f;
      nextFree := nextFree[x := nextFree[HEAD]];
      prevFree := prevFree[x := HEAD];
      prevFree := prevFree[nextFree[HEAD] := x];
      nextFree := nextFree[HEAD := x];
      InsertAfterRing(old(nextFree), old(prevFree), f, 0, x, nextFree, prevFree);
      free := [x] + free;
      assert Inserted(f, 1, x) == [HEAD] + free;
    }

    method FreeListRemove(x: int)
      requires FreeLinked() && x in free
      modifies this`nextFree, this`prevFree, this`free
      ensures FreeLinked() && Elems(free) == Elems(old(free)) - {x} && free == Drop(old(free), x)
    {
      ghost var f := [HEAD] + free;
      ghost var k: nat :| k < |free| && free[k] == x;
      assert LinkedAt(nextFree, prevFree, f, k + 1);
      prevFree := prevFree[nextFree[x] := prevFree[x]];
      nextFree := nextFree[prevFree[x] := nextFree[x]];
      assert After(f, k + 1) != x && Before(f, k + 1) != x;
      RemoveRing(old(nextFree), old(prevFree), f, k + 1, nextFree, prevFree);
      DropBehind(HEAD, free, k, x);
      free := Drop(free, x);
    }

    /** The writes that cut a block in two. */
    method LinkBehind(h: int, n: int, ghost i: nat, ghost b: Block, ghost c: Block)
      requires Linked() && i < |blocks| && b.start == h && c.start == n && blocks[i].start == h
      requires b.used == blocks[i].used && !c.used
      requires EndOf(b, HDR) == n && EndOf(c, HDR) == EndOf(blocks[i], HDR)
      modifies this`next, this`prev, this`used, this`blocks
      ensures Linked() && blocks == Replace(old(blocks), i, 1, [b, c])
    {
      RepAt(next, prev, used, blocks, start, tail, i);
      used := used[n := false];
      prev := prev[n := h];
      next := next[n := next[h]];
      prev := prev[next[h] := n];
      next := next[h := n];
      RepInsert(old(next), old(prev), old(used), blocks, start, tail, i, b, c, next, prev, used);
      CutInTwo(blocks, start, tail, i, b, c, HDR);
      blocks := Replace(blocks, i, 1, [b, c]);
    }

    /** The writes that melt a block into its left neighbour. */
    method Unlink(x: int, ghost i: nat)
      requires Linked() && i + 1 < |blocks| && blocks[i + 1].start == x
      modifies this`next, this`prev, this`blocks
      ensures Linked()
      ensures var b := old(blocks)[i];
              blocks == Replace(old(blocks), i, 2, [b.(size := b.size + HDR + old(blocks)[i + 1].size)])
    {
      RepAt(next, prev, used, blocks, start, tail, i + 1);
      ghost var b := blocks[i].(size := blocks[i].size + HDR + blocks[i + 1].size);
      prev := prev[next[x] := prev[x]];
      next := next[prev[x] := next[x]];
      TilesDistinct(blocks, start, tail, HDR);
      RepRemove(old(next), old(prev), used, blocks, start, tail, i, b, next, prev);
      assert AbutsAt(blocks, tail, HDR, i);
      OneTiles(b, HDR);
      ReplaceTiles(blocks, start, tail, HDR, i, 2, [b]);
      blocks := Replace(blocks, i, 2, [b]);
    }

    method SetUsed(h: int, mark: bool, ghost i: nat)
      requires Linked() && i < |blocks| && blocks[i].start == h
      modifies this`used, this`blocks
      ensures Linked() && blocks == old(blocks)[i := old(blocks)[i].(used := mark)]
    {
      RepMark(next, prev, used, blocks, start, tail, i, mark);
      used := used[h := mark];
      blocks := blocks[i := blocks[i].(used := mark)];
    }

    // -------------------------------------------------------------- operations

    /** MEMITEM_SIZE of the header at `x`. */
    function ItemSize(x: int): int
      requires x in next
      reads this
    {
      next[x] - x - HDR
    }

    /** The free blocks before position `k` of the free ring are too small. */
    ghost predicate TooSmall(size: nat, k: nat)
      requires k <= |free|
      reads this
    {
      forall j :: 0 <= j < k ==> free[j] in next && next[free[j]] - free[j] - HDR < size
    }

    lemma FreeItem(k: nat) returns (i: nat)
      requires Valid() && k < |free|
      ensures i < |blocks| && !blocks[i].used && blocks[i].start == free[k]
      ensures free[k] in next && ItemSize(free[k]) == blocks[i].size && free[k] != HEAD
    {
      assert free[k] in Elems(free);
      i :| 0 <= i < |blocks| && !blocks[i].used && blocks[i].start == free[k];
      RepAt(next, prev, used, blocks, start, tail, i);
    }

    /** The search along the free ring: the first block that is large enough, or HEAD. */
    method FindFree(size: nat) returns (header: int, freeSize: int, ghost k: nat)
      requires Valid() && size > 0
      ensures k <= |free| && TooSmall(size, k)
      ensures freeSize >= size <==> k < |free|
      ensures freeSize >= size <==> Fits(size)
      ensures k < |free| ==> header == free[k] && header in next && freeSize == ItemSize(header)
    {
      ghost var f := [HEAD] + free;
      assert LinkedAt(nextFree, prevFree, f, 0);
      header, freeSize, k := nextFree[HEAD], 0, 0;
      while header != HEAD && freeSize < size
        invariant k <= |free| && TooSmall(size, k)
        invariant header == (if k < |free| then free[k] else HEAD)
        invariant freeSize >= size ==> k < |free| && header in next && freeSize == ItemSize(header)
        decreases |free| - k, size - freeSize
      {
        ghost var i := FreeItem(k);
        freeSize := ItemSize(header);
        if freeSize < size {
          assert LinkedAt(nextFree, prevFree, f, k + 1);
          header := nextFree[header];
          k := k + 1;
        }
      }
      if k < |free| {
        ghost var i := FreeItem(k);
      } else {
        NoneFits(size);
      }
    }

    /** A free block can serve the request. */
    ghost predicate Fits(size: nat)
      reads this
    {
      exists i :: 0 <= i < |blocks| && !blocks[i].used && blocks[i].size >= size
    }

    lemma NoneFits(size: nat)
      requires Valid() && TooSmall(size, |free|)
      ensures !Fits(size)
    {
      forall i | 0 <= i < |blocks| && !blocks[i].used
        ensures blocks[i].size < size
      {
        assert blocks[i].start in FreeStarts(blocks);
        assert blocks[i].start in Elems(free);
        RepAt(next, prev, used, blocks, start, tail, i);
        var j :| 0 <= j < |free| && free[j] == blocks[i].start;
        assert free[j] in next && next[free[j]] - free[j] - HDR < size;
      }
    }

    /** Cutting the requested bytes off a large free block. */
    method TakePart(header: int, size: nat, ghost i: nat)
      requires Valid() && i < |blocks| && !blocks[i].used && blocks[i].start == header
      requires blocks[i].size >= size + HDR + MIN
      modifies this`next, this`prev, this`used, this`nextFree, this`prevFree, this`blocks, this`free
      ensures Linked() && FreeLinked()
      ensures blocks == Replace(old(blocks), i, 1, Carved(old(blocks)[i], size, HDR))[i := Block(header, size, false)]
      ensures Elems(free) == FreeStarts(AllocAt(old(blocks), i, size, HDR))
      ensures free == CarvedRing(old(free), old(blocks), i, size)
    {
      ghost var bs := blocks;
      AllocFreeStarts(bs, start, tail, i, size);
      FreeStartsAt(bs, i);
      var n := header + size + HDR;
      NotAHeader(bs, i, n);
      ghost var b, c := Block(header, size, false), Block(n, bs[i].size - size - HDR, false);
      LinkBehind(header, n, i, b, c);
      FreeListRemove(header);
      FreeListInsert(n);
    }

    /** The bookkeeping and relinking once a large enough free block is found. */
    method TakeBlock(header: int, size: nat, freeSize: int, ghost i: nat)
      requires Valid() && i < |blocks| && !blocks[i].used && blocks[i].start == header
      requires blocks[i].size == freeSize >= size >= MIN
      modifies this
      ensures Valid() && blocks == AllocAt(old(blocks), i, size, HDR)
      ensures free == CarvedRing(old(free), old(blocks), i, size)
      ensures levels == old(levels) + [poolSize - available]
    {
      ghost var bs := blocks;
      AllocFacts(bs, i, size);
      if freeSize >= (size + HDR + MIN) % WORD32 {
        TakePart(header, size, i);
        Charge(size + HDR);
      } else {
        Charge(freeSize);
        FreeListRemove(header);
      }
      SetUsed(header, true, i);
      assert blocks == AllocAt(bs, i, size, HDR);
    }

    lemma AllocFacts(bs: seq<Block>, i: nat, size: nat)
      requires Good(bs, start, tail, HDR) && LiveMin(bs) && tail + HDR <= WORD32
      requires i < |bs| && !bs[i].used && bs[i].size >= size >= MIN
      ensures size + HDR + MIN < WORD32 && bs[i].start in FreeStarts(bs)
      ensures var after, split := AllocAt(bs, i, size, HDR), bs[i].size >= size + HDR + MIN;
              && Good(after, start, tail, HDR) && LiveMin(after)
              && FreeBytes(after) == FreeBytes(bs) - (if split then size + HDR else bs[i].size)
              && (!split ==> FreeStarts(after) == FreeStarts(bs) - {bs[i].start as int})
              && (!split ==> after == bs[i := bs[i].(used := true)])
              && (split ==> var b := Block(bs[i].start, size, false); after == after[i := b][i := b.(used := true)])
    {
      AllocGood(bs, start, tail, i, size, HDR);
      AllocMin(bs, start, tail, i, size);
      AllocFreeStarts(bs, start, tail, i, size);
      AllocMarks(bs, i, size);
    }

    /** The block is cut first and marked afterwards. */
    lemma AllocMarks(bs: seq<Block>, i: nat, size: nat)
      requires i < |bs| && !bs[i].used && bs[i].size >= size
      ensures var after, b := AllocAt(bs, i, size, HDR), Block(bs[i].start, size, false);
              if bs[i].size >= size + HDR + MIN then after == after[i := b][i := b.(used := true)]
              else after == bs[i := bs[i].(used := true)]
    {
    }

    lemma FreeStartsAt(bs: seq<Block>, i: nat)
      requires i < |bs| && !bs[i].used
      ensures bs[i].start in FreeStarts(bs)
    {
    }

    lemma NotAHeader(bs: seq<Block>, i: nat, n: int)
      requires Tiles(bs, start, tail, HDR) && i < |bs| && bs[i].start < n < EndOf(bs[i], HDR)
      ensures n !in FreeStarts(bs)
    {
      forall k | 0 <= k < |bs|
        ensures bs[k].start != n
      {
        if k < i {
          TilesOrdered(bs, start, tail, HDR, k, i);
        } else if k > i {
          TilesOrdered(bs, start, tail, HDR, i, k);
        }
      }
    }

    /** rt_memheap_alloc. */
    method Alloc(bytes: nat) returns (ptr: int, ghost i: nat)
      requires Valid()
      modifies this
      ensures Valid()
      ensures var size := Request(bytes);
              ptr == NIL <==> old(size >= available || !Fits(size))
      ensures ptr == NIL ==> blocks == old(blocks) && free == old(free) && levels == old(levels)
      ensures ptr != NIL ==>
                var size := Request(bytes);
                && i < |old(blocks)| && !old(blocks)[i].used && old(blocks)[i].size >= size
                && ptr == old(blocks)[i].start + HDR
                && blocks == AllocAt(old(blocks), i, size, HDR) && free == CarvedRing(old(free), old(blocks), i, size)
                && levels == old(levels) + [poolSize - available]
      ensures ptr != NIL ==>
                exists k :: 0 <= k < |old(free)| && old(free)[k] == ptr - HDR && old(TooSmall(Request(bytes), k))
    {
      var size := Request(bytes);
      ptr, i := NIL, 0;
      if size < available {
        var header, freeSize, k := FindFree(size);
        if freeSize >= size {
          i := FreeItem(k);
          assert TooSmall(size, k) && free[k] == header;
          TakeBlock(header, size, freeSize, i);
          ptr := header + HDR;
        } else {
          NoneFits(size);
        }
      }
    }

    /** The left half of coalescing: the freed block melts into a free predecessor. */
    method MeltLeft(header: int, ghost i: nat) returns (h: int, merged: bool)
      requires Linked() && i < |blocks| && blocks[i].start == header && !blocks[i].used
      modifies this`next, this`prev, this`blocks, this`available
      ensures Linked() && (merged <==> LeftFree(old(blocks), i))
      ensures blocks == MeltedLeft(old(blocks), i, HDR) && h == blocks[Leftmost(old(blocks), i)].start
      ensures available == old(available) + if merged then HDR else 0
    {
      RepAt(next, prev, used, blocks, start, tail, i);
      h, merged := header, false;
      if !used[prev[header]] {
        available := available + HDR;
        h, merged := prev[header], true;
        Unlink(header, i - 1);
      }
    }

    /** The right half of coalescing: a free successor melts into the freed block. */
    method MeltRight(header: int, ghost i: nat)
      requires Linked() && FreeLinked() && i < |blocks| && blocks[i].start == header && !blocks[i].used
      requires RightFree(blocks, i) ==> blocks[i + 1].start in free
      modifies this`next, this`prev, this`blocks, this`available, this`nextFree, this`prevFree, this`free
      ensures Linked() && FreeLinked()
      ensures free == MeltedRing(old(free), old(blocks), i)
      ensures var merged := RightFree(old(blocks), i);
              && blocks == MeltedRight(old(blocks), i, HDR)
              && available == old(available) + (if merged then HDR else 0)
              && Elems(free) == Elems(old(free)) - if merged then {old(blocks)[i + 1].start as int} else {}
    {
      RepAt(next, prev, used, blocks, start, tail, i);
      if !used[next[header]] {
        available := available + HDR;
        var right := next[header];
        Unlink(right, i);
        FreeListRemove(right);
      }
    }

    /** rt_memheap_free; the null pointer changes nothing. */
    method Free(ptr: int, ghost i: nat)
      requires Valid()
      requires ptr != NIL ==> i < |blocks| && blocks[i].used && blocks[i].start + HDR == ptr
      modifies this
      ensures Valid()
      ensures ptr == NIL ==> blocks == old(blocks) && free == old(free) && levels == old(levels)
      ensures ptr != NIL ==> blocks == FreeAt(old(blocks), i, HDR) && levels == old(levels) + [poolSize - available]
      ensures ptr != NIL ==> free == FreedRing(old(free), old(blocks), i)
    {
      if ptr != NIL {
        FreeBlock(ptr, i);
      }
    }

    /** rt_memheap_free of a block in use. */
    method FreeBlock(ptr: int, ghost i: nat)
      requires Valid() && i < |blocks| && blocks[i].used && blocks[i].start + HDR == ptr
      modifies this
      ensures Valid() && blocks == FreeAt(old(blocks), i, HDR) && levels == old(levels) + [poolSize - available]
      ensures free == FreedRing(old(free), old(blocks), i)
    {
      ghost var bs := blocks;
      RepAt(next, prev, used, blocks, start, tail, i);
      FreeGood(bs, start, tail, i, HDR);
      FreeSum(bs, i, HDR);
      FreeMin(bs, start, tail, i);
      FreeFreeStarts(bs, start, tail, i);
      FreeNotHead(bs);
      available := available + ItemSize(ptr - HDR);
      var header, merged := Coalesce(ptr - HDR, i);
      if !merged {
        FreeListInsert(header);
      }
      Record();
    }

    /** Marks the block free and melts it with its free neighbours. */
    method Coalesce(h: int, ghost i: nat) returns (header: int, merged: bool)
      requires Linked() && FreeLinked() && i < |blocks| && blocks[i].used && blocks[i].start == h
      requires RightFree(blocks, i) ==> blocks[i + 1].start in free
      modifies this`next, this`prev, this`used, this`blocks, this`available, this`nextFree, this`prevFree, this`free
      ensures Linked() && FreeLinked() && blocks == FreeAt(old(blocks), i, HDR)
      ensures merged <==> LeftFree(old(blocks), i)
      ensures header == old(blocks)[Leftmost(old(blocks), i)].start
      ensures available == old(available)
                + (if LeftFree(old(blocks), i) then HDR else 0) + (if RightFree(old(blocks), i) then HDR else 0)
      ensures free == MeltedRing(old(free), old(blocks), i)
      ensures Elems(free) == Elems(old(free))
                - if RightFree(old(blocks), i) then {old(blocks)[i + 1].start as int} else {}
    {
      ghost var bs, lo := blocks, Leftmost(blocks, i);
      SetUsed(h, false, i);
      ghost var marked := blocks;
      header, merged := MeltLeft(h, i);
      FreeInSteps(bs, i, HDR, marked, blocks);
      MeltRight(header, lo);
    }

    lemma FreeNotHead(bs: seq<Block>)
      ensures HEAD !in FreeStarts(bs)
    {
    }

    /** The branch of rt_memheap_realloc that takes the missing bytes from a free successor. */
    method Grow(header: int, size: nat, ghost i: nat)
      requires Valid() && i < |blocks| && blocks[i].used && blocks[i].start == header && RightFree(blocks, i)
      requires blocks[i].size < size && size + MIN < blocks[i].size + blocks[i + 1].size
      modifies this
      ensures Valid() && blocks == GrowAt(old(blocks), i, size, HDR)
      ensures free == [header + HDR + size] + MeltedRing(old(free), old(blocks), i)
      ensures levels == old(levels) + [poolSize - available]
    {
      RepAt(next, prev, used, blocks, start, tail, i);
      GrowGood(blocks, start, tail, i, size, HDR);
      GrowMin(blocks, start, tail, i, size);
      GrowHeaders(blocks, i, size);
      Charge(size - ItemSize(header));
      MoveBorder(header, next[header], size, i);
      FreeListInsert(header + HDR + size);
    }

    /**
     The same branch for a size whose sum with the minimum wraps: the border moves below the
     payload, the successor link of the block ends up inside its own header, and the count of
     available bytes grows.
     */
    method GrowWrapped(header: int, size: nat, ghost i: nat)
      requires Valid() && i < |blocks| && blocks[i].used && blocks[i].start == header && RightFree(blocks, i)
      requires size < WORD32 <= size + MIN
      modifies this
      ensures !Valid() && header in next && header < next[header] < header + HDR
      ensures available == old(available) + old(blocks)[i].size + (WORD32 - size)
    {
      RepAt(next, prev, used, blocks, start, tail, i);
      var n := (header + HDR + size) % WORD32;
      InsideHeader(blocks, i, size);
      available := (available - (size - ItemSize(header))) % WORD32;
      maxUsed := Max(maxUsed, poolSize - available);
      var right := next[header];
      FreeListRemove(right);
      assert n !in Elems(free);
      FreeListInsert(n);
      Unlink(right, i);
      LinkInside(header, n, i);
    }

    lemma InsideHeader(bs: seq<Block>, i: nat, size: nat)
      requires Good(bs, start, tail, HDR) && i < |bs| && bs[i].used && RightFree(bs, i) && tail + HDR <= WORD32
      requires size < WORD32 <= size + MIN
      ensures var n := bs[i].start + HDR - (WORD32 - size);
              && (bs[i].start + HDR + size) % WORD32 == n && bs[i].start < n < bs[i].start + HDR
              && n !in FreeStarts(bs) && bs[i + 1].start in FreeStarts(bs)
      ensures FreeBytes(bs) + bs[i].size <= tail
    {
      AvailableFits(bs, i);
      NotAHeader(bs, i, bs[i].start + HDR - (WORD32 - size));
    }

    /** The writes of `LinkBehind`, for a header that overlaps the one at `h`. */
    method LinkInside(h: int, n: int, ghost i: nat)
      requires Linked() && i < |blocks| && blocks[i].start == h && h < n < h + HDR
      modifies this`next, this`prev, this`used
      ensures !Linked() && h in next && next[h] == n
    {
      RepAt(next, prev, used, blocks, start, tail, i);
      used := used[n := false];
      prev := prev[n := h];
      next := next[n := next[h]];
      prev := prev[next[h] := n];
      next := next[h := n];
      LinksBeyondHeader(next, prev, used, blocks, start, tail, i);
    }

    /** Freeing the block would leave a count that fits the area. */
    lemma AvailableFits(bs: seq<Block>, i: nat)
      requires Good(bs, start, tail, HDR) && i < |bs| && bs[i].used && tail + HDR <= WORD32
      ensures FreeBytes(bs) + bs[i].size <= tail && EndOf(bs[i], HDR) <= tail
    {
      FreeGood(bs, start, tail, i, HDR);
      FreeSum(bs, i, HDR);
      SumsTotal(FreeAt(bs, i, HDR), start, tail, HDR);
      TilesOrdered(bs, start, tail, HDR, i, |bs|);
    }

    lemma GrowHeaders(bs: seq<Block>, i: nat, size: nat)
      requires Tiles(bs, start, tail, HDR) && i < |bs| && bs[i].used && RightFree(bs, i)
      requires bs[i].size < size < bs[i].size + bs[i + 1].size
      ensures var n, right := bs[i].start + HDR + size, bs[i + 1].start as int;
              && right in FreeStarts(bs) && n !in FreeStarts(bs) - {right}
              && FreeStarts(GrowAt(bs, i, size, HDR)) == FreeStarts(bs) - {right} + {n as int}
    {
      assert AbutsAt(bs, tail, HDR, i);
      PartedFreeStarts(bs, start, tail, i, 2, size, bs[i].size + bs[i + 1].size - size);
      NewHeader(bs, i, bs[i].start + HDR + size);
    }

    /** Unlinks the free successor and builds a new header on the right place. */
    method MoveBorder(header: int, right: int, size: nat, ghost i: nat)
      requires Linked() && FreeLinked() && i < |blocks| && blocks[i].used && blocks[i].start == header
      requires RightFree(blocks, i) && blocks[i + 1].start == right && right in free
      requires size <= blocks[i].size + blocks[i + 1].size
      modifies this`next, this`prev, this`used, this`blocks, this`nextFree, this`prevFree, this`free
      ensures Linked() && FreeLinked() && Elems(free) == Elems(old(free)) - {right}
      ensures free == MeltedRing(old(free), old(blocks), i)
      ensures blocks == GrowAt(old(blocks), i, size, HDR)
    {
      ghost var rest := blocks[i].size + blocks[i + 1].size - size;
      GrowInSteps(blocks, i, size, HDR);
      FreeListRemove(right);
      Unlink(right, i);
      var n := header + HDR + size;
      LinkBehind(header, n, i, Block(header, size, true), Block(n, rest, false));
    }

    /** The address of the moved border is no header of a free block but possibly the old one. */
    lemma NewHeader(bs: seq<Block>, i: nat, n: int)
      requires Tiles(bs, start, tail, HDR) && i < |bs| && bs[i].used && bs[i].start < n
      requires n < if RightFree(bs, i) then EndOf(bs[i + 1], HDR) else EndOf(bs[i], HDR)
      ensures n !in FreeStarts(bs) - (if RightFree(bs, i) then {bs[i + 1].start as int} else {})
    {
      forall k | 0 <= k < |bs| && k != i + 1
        ensures bs[k].start != n
      {
        if k < i {
          TilesOrdered(bs, start, tail, HDR, k, i);
        } else if k > i + 1 {
          TilesOrdered(bs, start, tail, HDR, i + 1, k);
        }
      }
      assert AbutsAt(bs, tail, HDR, i);
    }

    /** The split-off rest takes in a free successor. */
    method AbsorbRight(n: int, ghost i: nat)
      requires Linked() && FreeLinked() && i < |blocks| && blocks[i].start == n && !blocks[i].used
      requires RightFree(blocks, i) ==> blocks[i + 1].start in free
      modifies this`next, this`prev, this`blocks, this`available, this`nextFree, this`prevFree, this`free
      ensures Linked() && FreeLinked()
      ensures free == MeltedRing(old(free), old(blocks), i)
      ensures var merged := RightFree(old(blocks), i);
              && blocks == MeltedRight(old(blocks), i, HDR)
              && available == old(available) - (if merged then old(blocks)[i + 1].size else 0)
              && Elems(free) == Elems(old(free)) - if merged then {old(blocks)[i + 1].start as int} else {}
    {
      RepAt(next, prev, used, blocks, start, tail, i);
      if !used[next[n]] {
        var right := next[n];
        RepAt(next, prev, used, blocks, start, tail, i + 1);
        available := available - ItemSize(right);
        Unlink(right, i);
        FreeListRemove(right);
      }
    }

    /** Cuts the block and melts the rest with a free successor. */
    method SplitOff(header: int, n: int, size: nat, ghost i: nat)
      requires Linked() && FreeLinked() && i < |blocks| && blocks[i].used && blocks[i].start == header
      requires size + HDR <= blocks[i].size && n == header + size + HDR
      requires RightFree(blocks, i) ==> blocks[i + 1].start in free
      modifies this`next, this`prev, this`used, this`blocks, this`available, this`nextFree, this`prevFree, this`free
      ensures Linked() && FreeLinked() && blocks == ShrinkAt(old(blocks), i, size, HDR)
      ensures free == MeltedRing(old(free), old(blocks), i)
      ensures var merged := RightFree(old(blocks), i);
              && available == old(available) - (if merged then old(blocks)[i + 1].size else 0)
              && Elems(free) == Elems(old(free)) - if merged then {old(blocks)[i + 1].start as int} else {}
    {
      ShrinkInSteps(blocks, i, size, HDR);
      LinkBehind(header, n, i, Block(header, size, true), Block(n, blocks[i].size - size - HDR, false));
      AbsorbRight(n, i + 1);
    }

    /** The branch of rt_memheap_realloc that splits off the bytes no longer needed. */
    method Shrink(header: int, size: nat, ghost i: nat)
      requires Valid() && i < |blocks| && blocks[i].used && blocks[i].start == header
      requires MIN <= size && size + HDR + MIN < blocks[i].size
      modifies this
      ensures Valid() && blocks == ShrinkAt(old(blocks), i, size, HDR) && levels == old(levels) + [poolSize - available]
      ensures free == [header + size + HDR] + MeltedRing(old(free), old(blocks), i)
    {
      ghost var bs := blocks;
      var n := header + size + HDR;
      ShrinkSums(bs, i, size);
      ShrinkHeaders(bs, i, size);
      SplitOff(header, n, size, i);
      FreeListInsert(n);
      RepAt(next, prev, used, blocks, start, tail, i + 1);
      available := available + ItemSize(n);
      Record();
    }

    lemma ShrinkSums(bs: seq<Block>, i: nat, size: nat)
      requires Good(bs, start, tail, HDR) && LiveMin(bs) && i < |bs| && bs[i].used && MIN <= size <= bs[i].size - HDR
      ensures var after := ShrinkAt(bs, i, size, HDR);
              && Good(after, start, tail, HDR) && LiveMin(after)
              && i + 1 < |after| && after[i + 1].start == bs[i].start + size + HDR
              && FreeBytes(after) == FreeBytes(bs)
                   - (if RightFree(bs, i) then bs[i + 1].size else 0) + after[i + 1].size
    {
      ShrinkGood(bs, start, tail, i, size, HDR);
      ShrinkInSteps(bs, i, size, HDR);
      ShrinkMin(bs, start, tail, i, size);
    }

    lemma ShrinkHeaders(bs: seq<Block>, i: nat, size: nat)
      requires Tiles(bs, start, tail, HDR) && i < |bs| && bs[i].used && size + HDR <= bs[i].size
      ensures var after, n := ShrinkAt(bs, i, size, HDR), bs[i].start + HDR + size;
              var gone := if RightFree(bs, i) then {bs[i + 1].start as int} else {};
              && FreeStarts(after) == FreeStarts(bs) - gone + {n as int}
              && (RightFree(bs, i) ==> bs[i + 1].start in FreeStarts(bs)) && n !in FreeStarts(bs) - gone
    {
      assert AbutsAt(bs, tail, HDR, i);
      NewHeader(bs, i, bs[i].start + HDR + size);
      PartedFreeStarts(bs, start, tail, i, Concerned(bs, i), size, Rest(bs, i, size, HDR));
    }

    /** The first block of the free ring that is large enough has been carved. */
    ghost predicate NewBlock(bs: seq<Block>, free0: seq<int>, after: seq<Block>, r: int, size: nat, k: nat) {
      && k < |bs| && !bs[k].used && bs[k].size >= size && r == bs[k].start + HDR && after == AllocAt(bs, k, size, HDR)
      && bs[k].start in free0
    }

    /** The block at `i` has been given up for such a block. */
    ghost predicate Relocated(bs: seq<Block>, free0: seq<int>, after: seq<Block>, r: int, size: nat, i: nat)
      requires i < |bs|
    {
      exists mid, k, j :: RelocatedBy(bs, free0, mid, after, r, size, i, k, j)
    }

    ghost predicate RelocatedBy(bs: seq<Block>, free0: seq<int>, mid: seq<Block>, after: seq<Block>, r: int, size: nat,
                                i: nat, k: nat, j: nat)
      requires i < |bs|
    {
      NewBlock(bs, free0, mid, r, size, k) && j < |mid| && mid[j] == bs[i] && after == FreeAt(mid, j, HDR)
    }

    /**
     What rt_memheap_realloc does with a block: it takes the missing bytes from a free successor
     that has enough of them, or looks for a new block and fails exactly if there is none; it keeps
     the pointer if the block is large enough, and splits off what is left over if that is worth a block.
     */
    ghost predicate Resized(bs: seq<Block>, free0: seq<int>, available0: int, fits: bool, ptr: int, r: int,
                            size: nat, i: nat)
      requires i < |bs|
      reads this
    {
      var b := bs[i];
      if size > b.size then
        if RightFree(bs, i) && b.size + bs[i + 1].size > size + MIN then
          r == ptr && blocks == GrowAt(bs, i, size, HDR) && free == [ptr + size] + MeltedRing(free0, bs, i)
        else if size >= available0 || !fits then r == NIL && blocks == bs && free == free0
        else r != NIL && Relocated(bs, free0, blocks, r, size, i)
      else if size + HDR + MIN >= b.size then r == ptr && blocks == bs && free == free0
      else r == ptr && blocks == ShrinkAt(bs, i, size, HDR) && free == [ptr + size] + MeltedRing(free0, bs, i)
    }

    /** The caller resizes a block with a free successor to a size whose sum with the minimum wraps. */
    ghost predicate Wraps(ptr: int, newsize: nat, i: nat)
      reads this
    {
      ptr != NIL && newsize > 0 && i < |blocks| && RightFree(blocks, i) && Request(newsize) + MIN >= WORD32
    }

    /**
     rt_memheap_realloc. A refused request changes nothing; otherwise the block is replaced by one
     of at least the requested size, and no other live block is touched. The heap stays in order if
     and only if the sum in the test for growing in place does not wrap; if it does, the old pointer
     comes back, its block now ends inside its own header, and more bytes count as available.
     */
    method Realloc(ptr: int, newsize: nat, ghost i: nat) returns (r: int)
      requires Valid()
      requires ptr != NIL ==> i < |blocks| && blocks[i].used && blocks[i].start + HDR == ptr
      modifies this
      ensures Valid() <==> !old(Wraps(ptr, newsize, i))
      ensures old(Wraps(ptr, newsize, i)) ==>
                && r == ptr && ptr - HDR in next && ptr - HDR < next[ptr - HDR] < ptr
                && available == old(available) + old(blocks)[i].size + (WORD32 - Request(newsize))
      ensures Valid() ==> old(levels) <= levels
      ensures newsize == 0 && ptr != NIL ==> r == NIL && blocks == FreeAt(old(blocks), i, HDR)
      ensures newsize == 0 && ptr == NIL ==> r == NIL && blocks == old(blocks)
      ensures newsize > 0 && r == NIL ==> blocks == old(blocks) && free == old(free)
      ensures newsize > 0 && ptr != NIL && Valid() ==>
                var size := Request(newsize);
                Resized(old(blocks), old(free), old(available), old(Fits(size)), ptr, r, size, i)
      ensures newsize > 0 && ptr == NIL ==>
                var size := Request(newsize);
                && (r == NIL <==> old(size >= available || !Fits(size)))
                && (r != NIL ==> exists k :: NewBlock(old(blocks), old(free), blocks, r, size, k))
      ensures newsize > 0 && r != NIL && Valid() ==>
                Serves(Live(old(blocks)), Live(blocks), if ptr == NIL then {} else {old(blocks)[i]}, r,
                       Request(newsize), HDR)
    {
      if newsize == 0 {
        if ptr != NIL {
          FreeBlock(ptr, i);
        }
        return NIL;
      }
      if ptr == NIL {
        r := AllocNew(Request(newsize));
      } else {
        r := Resize(ptr, Request(newsize), i);
      }
    }

    /** rt_memheap_realloc without an old block. */
    method AllocNew(size: nat) returns (r: int)
      requires Valid() && Request(size) == size
      modifies this
      ensures Valid() && old(levels) <= levels
      ensures r == NIL ==> blocks == old(blocks) && free == old(free)
      ensures r == NIL <==> old(size >= available || !Fits(size))
      ensures r != NIL ==> exists k :: NewBlock(old(blocks), old(free), blocks, r, size, k)
      ensures r != NIL ==> Serves(Live(old(blocks)), Live(blocks), {}, r, size, HDR)
    {
      ghost var bs := blocks;
      ghost var k;
      r, k := Alloc(size);
      if r != NIL {
        assert NewBlock(bs, old(free), blocks, r, size, k);
        AllocLive(bs, start, tail, k, size, HDR);
        ghost var b := Carved(bs[k], size, HDR)[0];
        assert b in Live(blocks) && Live(blocks) == Live(bs) - {} + {b};
      }
    }

    /** The part of rt_memheap_realloc that deals with an existing block and an aligned size. */
    method Resize(ptr: int, size: nat, ghost i: nat) returns (r: int)
      requires Valid() && i < |blocks| && blocks[i].used && blocks[i].start + HDR == ptr && Request(size) == size
      requires size < WORD32
      modifies this
      ensures var wraps := old(RightFree(blocks, i)) && size + MIN >= WORD32;
              && (Valid() <==> !wraps) && (wraps ==> Wrapped(ptr, size, old(available), old(blocks)[i].size, r))
      ensures Valid() ==>
                && old(levels) <= levels
                && Resized(old(blocks), old(free), old(available), old(Fits(size)), ptr, r, size, i)
      ensures r == NIL ==> blocks == old(blocks) && free == old(free)
      ensures r != NIL && Valid() ==> Serves(Live(old(blocks)), Live(blocks), {old(blocks)[i]}, r, size, HDR)
    {
      ghost var bs := blocks;
      var header := ptr - HDR;
      RepAt(next, prev, used, blocks, start, tail, i);
      TilesOrdered(bs, start, tail, HDR, i, |bs|);
      var oldsize := ItemSize(header);
      if size > oldsize {
        r := Expand(ptr, size, i);
      } else if (size + HDR + MIN) % WORD32 >= oldsize {
        ServedBy(Live(bs), Live(bs), bs[i], bs[i], ptr, size, HDR);
        r := ptr;
      } else {
        ShrinkLive(bs, start, tail, i, size, HDR);
        Shrink(header, size, i);
        ServedBy(Live(bs), Live(blocks), bs[i], Block(header, size, true), ptr, size, HDR);
        r := ptr;
      }
    }

    /** What the caller sees after the test has wrapped. */
    ghost predicate Wrapped(ptr: int, size: nat, available0: int, oldsize: nat, r: int)
      reads this
    {
      && r == ptr && ptr - HDR in next && ptr - HDR < next[ptr - HDR] < ptr
      && available == available0 + oldsize + (WORD32 - size)
    }

    /** Growing: in place if the successor is free and large enough, elsewhere if not. */
    method Expand(ptr: int, size: nat, ghost i: nat) returns (r: int)
      requires Valid() && i < |blocks| && blocks[i].used && blocks[i].start + HDR == ptr
      requires blocks[i].size < Request(size) == size < WORD32
      modifies this
      ensures var wraps := old(RightFree(blocks, i)) && size + MIN >= WORD32;
              && (Valid() <==> !wraps) && (wraps ==> Wrapped(ptr, size, old(available), old(blocks)[i].size, r))
      ensures Valid() ==>
                && old(levels) <= levels
                && Resized(old(blocks), old(free), old(available), old(Fits(size)), ptr, r, size, i)
      ensures r == NIL ==> blocks == old(blocks) && free == old(free)
      ensures r != NIL && Valid() ==> Serves(Live(old(blocks)), Live(blocks), {old(blocks)[i]}, r, size, HDR)
    {
      var grows := CanGrow(ptr - HDR, size, i);
      if grows && size + MIN >= WORD32 {
        GrowWrapped(ptr - HDR, size, i);
        return ptr;
      }
      if grows {
        GrowHere(ptr, size, i);
        return ptr;
      }
      r := Move(ptr, size, i);
    }

    /** A free successor, and the test in 32-bit arithmetic. */
    method CanGrow(header: int, size: nat, ghost i: nat) returns (grows: bool)
      requires Valid() && i < |blocks| && blocks[i].used && blocks[i].start == header && size < WORD32
      ensures size + MIN < WORD32 ==>
                (grows <==> RightFree(blocks, i) && blocks[i].size + blocks[i + 1].size > size + MIN)
      ensures size + MIN >= WORD32 ==> (grows <==> RightFree(blocks, i))
    {
      RepAt(next, prev, used, blocks, start, tail, i);
      var right := next[header];
      if used[right] {
        return false;
      }
      RepAt(next, prev, used, blocks, start, tail, i + 1);
      GrowTestHere(blocks, i, size);
      grows := GrowTest(ItemSize(header), ItemSize(right), size);
    }

    lemma GrowTestHere(bs: seq<Block>, i: nat, size: nat)
      requires Good(bs, start, tail, HDR) && LiveMin(bs) && tail + HDR <= WORD32
      requires i < |bs| && bs[i].used && RightFree(bs, i) && size < WORD32
      ensures (GrowTest(bs[i].size, bs[i + 1].size, size) <==> bs[i + 1].size + bs[i].size > size + MIN)
                <==> size + MIN < WORD32
      ensures size + MIN >= WORD32 ==> GrowTest(bs[i].size, bs[i + 1].size, size)
    {
      AvailableFits(bs, i);
      assert bs[i] in Live(bs);
      assert AbutsAt(bs, tail, HDR, i);
      TilesOrdered(bs, start, tail, HDR, i + 1, |bs|);
      GrowTestIff(bs[i].size, bs[i + 1].size, size);
    }

    /** Growing in place, as the caller sees it. */
    method GrowHere(ptr: int, size: nat, ghost i: nat)
      requires Valid() && i < |blocks| && blocks[i].used && blocks[i].start + HDR == ptr && RightFree(blocks, i)
      requires blocks[i].size < size && size + MIN < blocks[i].size + blocks[i + 1].size
      modifies this
      ensures Valid() && blocks == GrowAt(old(blocks), i, size, HDR) && old(levels) <= levels
      ensures free == [ptr + size] + MeltedRing(old(free), old(blocks), i)
      ensures Serves(Live(old(blocks)), Live(blocks), {old(blocks)[i]}, ptr, size, HDR)
    {
      ghost var bs := blocks;
      GrowLive(bs, start, tail, i, size, HDR);
      Grow(ptr - HDR, size, i);
      ServedBy(Live(bs), Live(blocks), bs[i], Block(bs[i].start, size, true), ptr, size, HDR);
    }

    /** The branch of rt_memheap_realloc that allocates elsewhere and frees the old block. */
    method Move(ptr: int, size: nat, ghost i: nat) returns (r: int)
      requires Valid() && i < |blocks| && blocks[i].used && blocks[i].start + HDR == ptr && Request(size) == size
      modifies this
      ensures Valid() && old(levels) <= levels
      ensures r == NIL ==> blocks == old(blocks) && free == old(free)
      ensures r == NIL <==> old(size >= available || !Fits(size))
      ensures r != NIL ==> Relocated(old(blocks), old(free), blocks, r, size, i)
      ensures r != NIL ==>
                Serves(Live(old(blocks)), Live(blocks), {old(blocks)[i]}, r, size, HDR)
    {
      ghost var bs := blocks;
      ghost var k;
      r, k := Alloc(size);
      if r != NIL {
        ghost var mid := blocks;
        ghost var j := Survivor(bs, start, tail, i, k, size, HDR);
        FreeBlock(ptr, j);
        MovedServes(bs, old(free), mid, blocks, r, size, i, k, j);
      }
    }

    lemma MovedServes(bs: seq<Block>, free0: seq<int>, mid: seq<Block>, after: seq<Block>, r: int, size: nat,
                      i: nat, k: nat, j: nat)
      requires Tiles(bs, start, tail, HDR) && Tiles(mid, start, tail, HDR) && i < |bs| && bs[i].used
      requires NewBlock(bs, free0, mid, r, size, k)
      requires j < |mid| && mid[j] == bs[i] && after == FreeAt(mid, j, HDR)
      ensures Relocated(bs, free0, after, r, size, i)
      ensures Serves(Live(bs), Live(after), {bs[i]}, r, size, HDR)
    {
      assert RelocatedBy(bs, free0, mid, after, r, size, i, k, j);
      var b := Carved(bs[k], size, HDR)[0];
      AllocLive(bs, start, tail, k, size, HDR);
      FreeLive(mid, start, tail, j, HDR);
      assert bs[i] in Live(bs);
      TilesDistinct(bs, start, tail, HDR);
      assert b != bs[i];
      assert Live(after) == Live(bs) + {b} - {bs[i]} == Live(bs) - {bs[i]} + {b};
      ServedBy(Live(bs), Live(after), bs[i], b, r, size, HDR);
    }
  }
}
