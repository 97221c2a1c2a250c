/**
 The small memory heap of mem.c, changed in place. Offsets are relative to the heap's start.
 */
module SmallMemObject {
  import opened Tiling
  import opened HeapBlocks
  import opened SmallMem
  import opened SmallMemLinks
  import Copying = MemCopy

  const NIL: int := -1

  /** The bytes of every block in use are the same. */
  ghost predicate Keeps(bs: seq<Block>, bytes: seq<int>, bytes': seq<int>) {
    && |bytes'| == |bytes|
    && (forall j :: 0 <= j < |bs| && bs[j].used && EndOf(bs[j], HDR) <= |bytes| ==>
        Payload(bytes', bs[j]) == Payload(bytes, bs[j]))
  }

  lemma ScribbledKeeps(bs: seq<Block>, end: nat, bytes: seq<int>, bytes': seq<int>)
    requires Tiles(bs, 0, end, HDR) && Scribbled(bytes, bytes', bs, end) && end <= |bytes|
    ensures Keeps(bs, bytes, bytes')
  {
    forall j | 0 <= j < |bs|
      ensures EndOf(bs[j], HDR) <= |bytes| && Payload(bytes', bs[j]) == Payload(bytes, bs[j])
    {
      PayloadKept(bytes, bytes', bs, end, j);
    }
  }

  lemma KeepsFewer(few: seq<Block>, many: seq<Block>, bytes: seq<int>, bytes': seq<int>)
    requires Keeps(many, bytes, bytes') && Live(few) <= Live(many)
    ensures Keeps(few, bytes, bytes')
  {
    forall j | 0 <= j < |few| && few[j].used && EndOf(few[j], HDR) <= |bytes|
      ensures Payload(bytes', few[j]) == Payload(bytes, few[j])
    {
      assert few[j] in Live(few) && few[j] in Live(many);
      var k :| 0 <= k < |many| && many[k].used && many[k] == few[j];
    }
  }

  lemma KeepsTrans(bs: seq<Block>, a: seq<int>, b: seq<int>, c: seq<int>)
    requires Keeps(bs, a, b) && Keeps(bs, b, c)
    ensures Keeps(bs, a, c)
  {
  }

  /** The first bytes at `r` are those that were at `rmem`, as many as both blocks hold. */
  ghost predicate Carried(before: seq<int>, rmem: int, after: seq<int>, r: int, m: nat) {
    0 <= rmem && rmem + m <= |before| && 0 <= r && r + m <= |after| && after[r..r + m] == before[rmem..rmem + m]
  }

  function Min(a: nat, b: nat): nat {
    if a < b then a else b
  }

  class SmallHeap {
    const memSize: nat            // mem_size_aligned
    const end: nat                // offset of heap_end
    var next: map<int, int>
    var prev: map<int, int>
    var used: map<int, bool>
    var lfree: nat
    var usedMem: int
    var maxMem: int
    var bytes: seq<int>
    ghost var bs: seq<Block>

    ghost function View(): Heap
      reads this
    {
      Heap(bs, end, lfree)
    }

    ghost predicate Linked()
      reads this
    {
      Tiles(bs, 0, end, HDR) && Rep(next, prev, used, bs, end) && |bytes| == end + HDR
    }

    ghost predicate Valid()
      reads this
    {
      && memSize >= MIN && end == memSize + HDR
      && Linked() && Sound(View())
      && usedMem == UsedBytes(bs, HDR) && usedMem <= maxMem
    }

    /** rt_system_heap_init, for an area that leaves at least the minimum between the two headers. */
    constructor (size: nat, area: seq<int>)
      requires size >= MIN && |area| == size + 2 * HDR
      ensures Valid() && memSize == size && View() == Heap([Block(0, size, false)], size + HDR, 0)
      ensures usedMem == 0 && maxMem == 0
    {
      memSize, end := size, size + HDR;
      var tail: int := size + HDR;
      next := map[0 := tail, tail := tail];
      prev := map[0 := 0, tail := tail];
      used := map[0 := false, tail := true];
      lfree, usedMem, maxMem := 0, 0, 0;
      bytes := area;
      bs := [Block(0, size, false)];
      new;
      OneTiles(bs[0], HDR);
      assert HeadAt(next, prev, used, bs, end, 0);
      assert IsFreeAt(View(), 0);
      SumsOne(bs[0], HDR);
    }

    // -------------------------------------------------------------- header words

    method WriteBytes(x: int, ghost all: seq<Block>)
      requires |bytes| == end + HDR && IsHeader(x, all)
      modifies this`bytes
      ensures |bytes| == end + HDR && Scribbled(old(bytes), bytes, all, end)
    {
      ScribbleHeader(bytes, all, end, x);
      bytes := Scribble(bytes, x);
    }

    /** Writes a new unused header at `n`, behind the header `h`. */
    method Cut(h: int, n: int, ghost i: nat, ghost b: Block, ghost c: Block)
      requires Linked() && i < |bs| && b.start == h && c.start == n && bs[i].start == h
      requires b.used == bs[i].used && !c.used
      requires EndOf(b, HDR) == n && EndOf(c, HDR) == EndOf(bs[i], HDR)
      modifies this`next, this`prev, this`used, this`bs, this`bytes
      ensures Linked() && bs == Replace(old(bs), i, 1, [b, c])
      ensures Scribbled(old(bytes), bytes, bs, end)
    {
      assert HeadAt(next, prev, used, bs, end, i) && AbutsAt(bs, end, HDR, i);
      TilesOrdered(bs, 0, end, HDR, i, |bs|);
      ghost var all := Replace(bs, i, 1, [b, c]);
      assert all[i] == b && all[i + 1] == c;
      assert i + 1 < |bs| ==> all[i + 2] == bs[i + 1];
      used := used[n := false];
      next := next[n := next[h]];
      prev := prev[n := h];
      next := next[h := n];
      if next[n] != end {
        prev := prev[next[n] := n];
      }
      RepSplit(old(next), old(prev), old(used), bs, end, i, b, c, next, prev, used);
      CutInTwo(bs, 0, end, i, b, c, HDR);
      bs := all;
      WriteThree(n, h, next[n], all);
    }

    /** The bytes of three headers change. */
    method WriteThree(x: int, y: int, z: int, ghost all: seq<Block>)
      requires |bytes| == end + HDR && IsHeader(x, all) && IsHeader(y, all) && IsHeader(z, all)
      modifies this`bytes
      ensures |bytes| == end + HDR && Scribbled(old(bytes), bytes, all, end)
    {
      WriteBytes(x, all);
      ghost var once := bytes;
      WriteBytes(y, all);
      ScribbledTrans(old(bytes), once, bytes, all, end);
      once := bytes;
      WriteBytes(z, all);
      ScribbledTrans(old(bytes), once, bytes, all, end);
    }

    ghost predicate IsHeader(x: int, all: seq<Block>) {
      0 <= x <= end && (x == end || exists k :: 0 <= k < |all| && all[k].start == x)
    }

    /** Makes the header `h` skip its successor `x`. */
    method Join(h: int, x: int, ghost i: nat)
      requires Linked() && i + 1 < |bs| && bs[i].start == h && bs[i + 1].start == x
      modifies this`next, this`prev, this`bs, this`bytes
      ensures Linked() && Scribbled(old(bytes), bytes, old(bs), end)
      ensures bs == Replace(old(bs), i, 2, [old(bs)[i].(size := old(bs)[i].size + HDR + old(bs)[i + 1].size)])
    {
      assert HeadAt(next, prev, used, bs, end, i + 1);
      assert AbutsAt(bs, end, HDR, i) && AbutsAt(bs, end, HDR, i + 1);
      TilesOrdered(bs, 0, end, HDR, i, |bs|);
      TilesOrdered(bs, 0, end, HDR, i + 1, |bs|);
      ghost var b := bs[i].(size := bs[i].size + HDR + bs[i + 1].size);
      next := next[h := next[x]];
      prev := prev[next[x] := h];
      RepJoin(old(next), old(prev), used, bs, end, i, b, next, prev);
      OneTiles(b, HDR);
      ReplaceTiles(bs, 0, end, HDR, i, 2, [b]);
      ghost var all := bs;
      bs := Replace(bs, i, 2, [b]);
      WriteBytes(h, all);
      ghost var once := bytes;
      WriteBytes(next[x], all);
      ScribbledTrans(old(bytes), once, bytes, all, end);
    }

    method Mark(h: int, mark: bool, ghost i: nat)
      requires Linked() && i < |bs| && bs[i].start == h
      modifies this`used, this`bs, this`bytes
      ensures Linked() && bs == old(bs)[i := old(bs)[i].(used := mark)]
      ensures Scribbled(old(bytes), bytes, bs, end)
    {
      TilesOrdered(bs, 0, end, HDR, i, |bs|);
      RepMark(next, prev, used, bs, end, i, mark);
      used := used[h := mark];
      bs := bs[i := bs[i].(used := mark)];
      assert bs[i].start == h;
      WriteBytes(h, bs);
    }

    // -------------------------------------------------------------- rt_malloc

    /** The search loop. */
    method Find(size: nat) returns (found: bool, ptr: nat, ghost k: nat)
      requires Valid() && size <= memSize
      ensures found ==> FirstFit(View(), k, size) && ptr == bs[k].start
      ensures !found ==> NoFit(View(), size)
    {
      ptr := lfree;
      if lfree == end {
        k := |bs|;
        TilesDistinct(bs, 0, end, HDR);
      } else {
        k :| IsFreeAt(View(), k);
        TilesDistinct(bs, 0, end, HDR);
      }
      while ptr < memSize - size
        invariant k <= |bs| && ptr == SmallMem.HeaderAt(bs, end, k) && lfree <= ptr
        invariant forall j :: 0 <= j < k && lfree <= bs[j].start ==> !Takes(View(), j, size)
        decreases |bs| - k
      {
        assert k < |bs|;
        assert HeadAt(next, prev, used, bs, end, k) && AbutsAt(bs, end, HDR, k);
        if !used[ptr] && next[ptr] - (ptr + HDR) >= size {
          return true, ptr, k;
        }
        ptr := next[ptr];
        k := k + 1;
      }
      found := false;
      forall j | k <= j < |bs|
        ensures !Takes(View(), j, size)
      {
        assert bs[j].start >= ptr;
      }
    }

    /** The loop that moves lfree to the next unused block. */
    method Advance(ghost i: nat)
      requires Linked() && i < |bs| && bs[i].start == lfree
      modifies this`lfree
      ensures lfree == SmallMem.HeaderAt(bs, end, UnusedFrom(bs, i))
    {
      ghost var k := i;
      TilesOrdered(bs, 0, end, HDR, i, |bs|);
      assert HeadAt(next, prev, used, bs, end, i);
      while used[lfree] && lfree != end
        invariant i <= k <= |bs| && lfree == SmallMem.HeaderAt(bs, end, k) && lfree in used
        invariant k < |bs| ==> HeadAt(next, prev, used, bs, end, k) && lfree < end
        invariant UnusedFrom(bs, i) == UnusedFrom(bs, k)
        decreases |bs| - k
      {
        lfree := next[lfree];
        k := k + 1;
        if k < |bs| {
          assert HeadAt(next, prev, used, bs, end, k);
          TilesOrdered(bs, 0, end, HDR, k, |bs|);
        }
      }
    }

    /** Marks the block found in use, splitting it if the rest can hold a block of its own. */
    method Take(ptr: nat, size: nat, ghost i: nat)
      requires Linked() && i < |bs| && bs[i].start == ptr && !bs[i].used && bs[i].size >= size
      modifies this`next, this`prev, this`used, this`bs, this`bytes, this`usedMem
      ensures Linked() && bs == AllocAt(old(bs), i, size, HDR)
      ensures Scribbled(old(bytes), bytes, bs, end)
      ensures usedMem == old(usedMem) + Carved(old(bs)[i], size, HDR)[0].size + HDR
    {
      ghost var was, b := bs, bs[i];
      assert HeadAt(next, prev, used, bs, end, i) && AbutsAt(bs, end, HDR, i);
      ghost var once := bytes;
      if next[ptr] - (ptr + HDR) >= size + HDR + MIN {
        var ptr2 := ptr + HDR + size;
        Cut(ptr, ptr2, i, Block(ptr, size, false), Block(ptr2, b.size - size - HDR, false));
        once := bytes;
        usedMem := usedMem + (size + HDR);
      } else {
        usedMem := usedMem + (next[ptr] - ptr);
      }
      ghost var cut := bs;
      assert cut[i].start == ptr;
      Mark(ptr, true, i);
      assert bs == AllocAt(was, i, size, HDR);
      assert forall k :: 0 <= k < |cut| ==> cut[k].start == bs[k].start;
      ScribbledFiner(old(bytes), once, cut, bs, end);
      ScribbledTrans(old(bytes), once, bytes, bs, end);
    }

    /** rt_malloc. */
    method Malloc(n: nat) returns (ptr: int, ghost i: nat)
      requires Valid()
      modifies this
      ensures Valid()
      ensures n == 0 || Align(n) > memSize ==> ptr == NIL
      ensures n > 0 && Align(n) <= memSize ==> (ptr == NIL <==> NoFit(old(View()), Needed(n)))
      ensures ptr == NIL ==> View() == old(View()) && bytes == old(bytes) && maxMem == old(maxMem)
      ensures ptr != NIL ==>
                && FirstFit(old(View()), i, Needed(n)) && ptr == old(bs)[i].start + HDR
                && View() == SmallMem.Malloc(old(View()), i, Needed(n))
                && maxMem == (if old(maxMem) < usedMem then usedMem else old(maxMem))
      ensures Keeps(old(bs), old(bytes), bytes)
    {
      ptr, i := NIL, 0;
      if n == 0 {
        return;
      }
      var size := Align(n);
      if size > memSize {
        return;
      }
      if size < MIN {
        size := MIN;
      }
      ptr, i := Allocate(size);
    }

    /** The part of rt_malloc that holds the heap semaphore. */
    method Allocate(size: nat) returns (ptr: int, ghost i: nat)
      requires Valid() && size <= memSize
      modifies this
      ensures Valid() && (ptr == NIL <==> NoFit(old(View()), size))
      ensures ptr == NIL ==> View() == old(View()) && bytes == old(bytes) && maxMem == old(maxMem)
      ensures ptr != NIL ==>
                && FirstFit(old(View()), i, size) && ptr == old(bs)[i].start + HDR
                && View() == SmallMem.Malloc(old(View()), i, size)
                && maxMem == (if old(maxMem) < usedMem then usedMem else old(maxMem))
      ensures Keeps(old(bs), old(bytes), bytes)
    {
      ptr, i := NIL, 0;
      var found, p, k := Find(size);
      if found {
        TakeFound(p, size, k);
        ptr, i := p + HDR, k;
      }
    }

    /** The block found is taken, the statistics follow, and lfree moves on if it was there. */
    method TakeFound(p: int, size: nat, ghost k: nat)
      requires Valid() && size <= memSize && FirstFit(View(), k, size) && p == bs[k].start
      modifies this
      ensures Valid() && View() == SmallMem.Malloc(old(View()), k, size)
      ensures maxMem == (if old(maxMem) < usedMem then usedMem else old(maxMem))
      ensures Keeps(old(bs), old(bytes), bytes)
    {
      ghost var h := View();
      MallocSound(h, k, size);
      AllocUsed(bs, k, size, HDR);
      Take(p, size, k);
      TakeKeeps(h.bs, k, size, old(bytes), bytes);
      if maxMem < usedMem {
        maxMem := usedMem;
      }
      if p == lfree {
        Advance(k);
      }
    }

    lemma TakeKeeps(was: seq<Block>, k: nat, size: nat, before: seq<int>, after: seq<int>)
      requires Tiles(was, 0, end, HDR) && k < |was| && !was[k].used && was[k].size >= size && end <= |before|
      requires Tiles(AllocAt(was, k, size, HDR), 0, end, HDR)
      requires Scribbled(before, after, AllocAt(was, k, size, HDR), end)
      ensures Keeps(was, before, after)
    {
      AllocLive(was, 0, end, k, size, HDR);
      ScribbledKeeps(AllocAt(was, k, size, HDR), end, before, after);
      KeepsFewer(was, AllocAt(was, k, size, HDR), before, after);
    }

    // -------------------------------------------------------------- rt_free

    method PlugForward(mem: int, ghost i: nat)
      requires Linked() && i < |bs| && bs[i].start == mem && !bs[i].used
      modifies this`next, this`prev, this`bs, this`bytes, this`lfree
      ensures Linked() && bs == MeltedRight(old(bs), i, HDR)
      ensures Scribbled(old(bytes), bytes, old(bs), end)
      ensures lfree == if RightFree(old(bs), i) && old(lfree) == old(bs)[i + 1].start then mem else old(lfree)
    {
      assert HeadAt(next, prev, used, bs, end, i);
      assert i + 1 < |bs| ==> HeadAt(next, prev, used, bs, end, i + 1);
      TilesDistinct(bs, 0, end, HDR);
      var nmem := next[mem];
      if mem != nmem && !used[nmem] && nmem != end {
        if lfree == nmem {
          lfree := mem;
        }
        Join(mem, nmem, i);
      }
    }

    method PlugBackward(mem: int, ghost i: nat)
      requires Linked() && i < |bs| && bs[i].start == mem && !bs[i].used
      modifies this`next, this`prev, this`bs, this`bytes, this`lfree
      ensures Linked() && bs == MeltedLeft(old(bs), i, HDR)
      ensures Scribbled(old(bytes), bytes, old(bs), end)
      ensures lfree == if LeftFree(old(bs), i) && old(lfree) == mem then old(bs)[i - 1].start else old(lfree)
    {
      assert HeadAt(next, prev, used, bs, end, i);
      assert i > 0 ==> HeadAt(next, prev, used, bs, end, i - 1);
      TilesDistinct(bs, 0, end, HDR);
      var pmem := prev[mem];
      if pmem != mem && !used[pmem] {
        if lfree == mem {
          lfree := pmem;
        }
        Join(pmem, mem, i - 1);
      }
    }

    /** plug_holes: melts an unused block with an unused successor, then predecessor. */
    method PlugHoles(mem: int, ghost i: nat)
      requires Linked() && i < |bs| && bs[i].start == mem && !bs[i].used
      modifies this`next, this`prev, this`bs, this`bytes, this`lfree
      ensures Linked() && bs == MeltedLeft(MeltedRight(old(bs), i, HDR), i, HDR)
      ensures Scribbled(old(bytes), bytes, old(bs), end)
      ensures lfree == Plugged(old(bs), i, old(lfree))
    {
      ghost var was := bs;
      MeltedRightHeaders(was, i);
      PlugForward(mem, i);
      ghost var once, right := bytes, bs;
      PlugBackward(mem, i);
      ScribbledFiner(once, bytes, right, was, end);
      ScribbledTrans(old(bytes), once, bytes, was, end);
    }

    /** rt_free: the null pointer and pointers outside the heap change nothing. */
    method Free(rmem: int, ghost i: nat)
      requires Valid()
      requires 0 <= rmem < end ==> i < |bs| && bs[i].used && bs[i].start + HDR == rmem
      modifies this
      ensures Valid() && maxMem == old(maxMem)
      ensures !(0 <= rmem < end) ==> View() == old(View()) && usedMem == old(usedMem) && bytes == old(bytes)
      ensures 0 <= rmem < end ==>
                && View() == SmallMem.Free(old(View()), i)
                && Keeps(old(bs)[i := old(bs)[i].(used := false)], old(bytes), bytes)
    {
      if rmem == NIL || rmem < 0 || rmem >= end {
        return;
      }
      FreeBlock(rmem, i);
    }

    /** rt_free of a block in use. */
    method FreeBlock(rmem: int, ghost i: nat)
      requires Valid() && i < |bs| && bs[i].used && bs[i].start + HDR == rmem
      modifies this
      ensures Valid() && View() == SmallMem.Free(old(View()), i) && maxMem == old(maxMem)
      ensures Keeps(old(bs)[i := old(bs)[i].(used := false)], old(bytes), bytes)
    {
      ghost var was, h := bs, View();
      var mem := rmem - HDR;
      FreeSound(h, i);
      FreeUsed(bs, i, HDR);
      FreeRightFirst(bs, i, HDR);
      assert HeadAt(next, prev, used, bs, end, i) && AbutsAt(bs, end, HDR, i);
      Mark(mem, false, i);
      ghost var marked, once := bs, bytes;
      if mem < lfree {
        lfree := mem;
      }
      usedMem := usedMem - (next[mem] - mem);
      PlugHoles(mem, i);
      ScribbledTrans(old(bytes), once, bytes, marked, end);
      MarkedTiles(was, end, i);
      ScribbledKeeps(marked, end, old(bytes), bytes);
      FreedLfree(h, i);
    }

    // -------------------------------------------------------------- rt_realloc

    /** Writes the new header and plugs the hole behind it. */
    method SplitInPlace(mem: int, size: nat, ghost i: nat)
      requires Linked() && i < |bs| && bs[i].used && bs[i].start == mem && size + HDR <= bs[i].size
      modifies this`next, this`prev, this`used, this`bs, this`bytes, this`lfree
      ensures Linked() && bs == ShrinkAt(old(bs), i, size, HDR)
      ensures lfree == SmallMem.Shrink(old(View()), i, size).lfree
      ensures Scribbled(old(bytes), bytes, CutAt(old(bs), i, size), end)
    {
      ghost var rest := bs[i].size - size - HDR;
      ghost var cut := CutAt(bs, i, size);
      ShrinkPlugged(View(), i, size);
      var ptr2 := mem + HDR + size;
      Cut(mem, ptr2, i, Block(mem, size, true), Block(ptr2, rest, false));
      ghost var once := bytes;
      PlugHoles(ptr2, i + 1);
      ScribbledTrans(old(bytes), once, bytes, cut, end);
    }

    /** The branch of rt_realloc that splits off what is no longer needed. */
    method Shrink(mem: int, size: nat, ghost i: nat)
      requires Valid() && i < |bs| && bs[i].used && bs[i].start == mem && size + HDR + MIN < bs[i].size
      modifies this
      ensures Valid() && View() == SmallMem.Shrink(old(View()), i, size) && maxMem == old(maxMem)
      ensures Keeps(CutAt(old(bs), i, size), old(bytes), bytes)
    {
      ghost var h := View();
      ghost var cut := CutAt(bs, i, size);
      ShrinkSound(h, i, size);
      ShrinkUsed(bs, i, size, HDR);
      CutTiles(bs, end, i, size);
      assert HeadAt(next, prev, used, bs, end, i) && AbutsAt(bs, end, HDR, i);
      usedMem := usedMem - (next[mem] - mem - HDR - size);
      SplitInPlace(mem, size, i);
      ScribbledKeeps(cut, end, old(bytes), bytes);
    }

    /** Copying into one live block changes no other. */
    lemma CopyKeeps(all: seq<Block>, k: nat, before: seq<int>, after: seq<int>, dst: nat, src: nat, n: nat)
      requires Tiles(all, 0, end, HDR) && k < |all| && end <= |before|
      requires all[k].start + HDR == dst && n <= all[k].size && src + n <= |before| && dst + n <= |before|
      requires Copying.CopyOf(after, before, dst, src, n)
      ensures Keeps(all[k := all[k].(used := false)], before, after)
    {
      var t := all[k := all[k].(used := false)];
      forall j | 0 <= j < |t| && t[j].used && EndOf(t[j], HDR) <= |before|
        ensures Payload(after, t[j]) == Payload(before, t[j])
      {
        if j < k {
          TilesOrdered(all, 0, end, HDR, j, k);
        } else {
          TilesOrdered(all, 0, end, HDR, k, j);
        }
        forall x | t[j].start + HDR <= x < EndOf(t[j], HDR)
          ensures after[x] == before[x]
        {
          assert after[x] == before[Copying.From(dst, src, n, x)];
        }
      }
    }

    /** What an allocation, a copy and a free leave alone. */
    lemma MovedKeeps(was: seq<Block>, i: nat, mid: seq<Block>, k: nat, j: nat,
                     before: seq<int>, once: seq<int>, twice: seq<int>, after: seq<int>)
      requires Tiles(was, 0, end, HDR) && Tiles(mid, 0, end, HDR) && i < |was| && k < |mid| && j < |mid|
      requires mid[j] == was[i] && mid[k] !in Live(was) && Live(mid) == Live(was) + {mid[k]}
      requires Keeps(was, before, once)
      requires Keeps(mid[k := mid[k].(used := false)], once, twice)
      requires Keeps(mid[j := mid[j].(used := false)], twice, after)
      ensures Keeps(was[i := was[i].(used := false)], before, after)
    {
      var w := was[i := was[i].(used := false)];
      LiveMark(was, 0, end, HDR, i);
      LiveMark(mid, 0, end, HDR, k);
      LiveMark(mid, 0, end, HDR, j);
      KeepsFewer(w, was, before, once);
      KeepsFewer(w, mid[k := mid[k].(used := false)], once, twice);
      KeepsFewer(w, mid[j := mid[j].(used := false)], twice, after);
      KeepsTrans(w, before, once, twice);
      KeepsTrans(w, before, twice, after);
    }

    lemma MovedBytes(b: Block, c: Block, m: nat, before: seq<int>, once: seq<int>, twice: seq<int>, after: seq<int>)
      requires m <= b.size && m <= c.size && EndOf(b, HDR) <= |before| && EndOf(c, HDR) <= |before|
      requires |before| == |once| == |twice| == |after|
      requires Payload(once, b) == Payload(before, b) && Payload(after, c) == Payload(twice, c)
      requires Copying.CopyOf(twice, once, c.start + HDR, b.start + HDR, m)
      ensures Carried(before, b.start + HDR, after, c.start + HDR, m)
    {
      var rmem, r := b.start + HDR, c.start + HDR;
      var to, from := after[r..r + m], before[rmem..rmem + m];
      forall x | 0 <= x < m
        ensures to[x] == from[x]
      {
        assert after[r + x] == Payload(after, c)[x] == Payload(twice, c)[x] == twice[r + x];
        assert twice[r + x] == once[Copying.From(r, rmem, m, r + x)] == once[rmem + x];
        assert once[rmem + x] == Payload(once, b)[x] == Payload(before, b)[x] == before[rmem + x];
        assert to[x] == after[r + x] && from[x] == before[rmem + x];
      }
    }

    /** Allocates the new block; the old one is still in use, at position `j`. */
    method NewBlock(newsize: nat, ghost i: nat) returns (r: int, ghost k: nat, ghost j: nat)
      requires Valid() && i < |bs| && bs[i].used && 0 < newsize <= memSize && Align(newsize) == newsize
      modifies this
      ensures Valid()
      ensures r == NIL <==> NoFit(old(View()), Needed(newsize))
      ensures r == NIL ==> View() == old(View()) && bytes == old(bytes)
      ensures r != NIL ==>
                && FirstFit(old(View()), k, Needed(newsize))
                && View() == SmallMem.Malloc(old(View()), k, Needed(newsize))
                && Keeps(old(bs), old(bytes), bytes)
                && k < |bs| && j < |bs| && k != j && bs[j] == old(bs)[i]
                && bs[k].used && bs[k] !in Live(old(bs)) && Live(bs) == Live(old(bs)) + {bs[k]}
                && r == bs[k].start + HDR == old(bs)[k].start + HDR && bs[k].size >= newsize
    {
      ghost var was := bs;
      r, k := Malloc(newsize);
      j := 0;
      if r != NIL {
        j := Survivor(was, 0, end, i, k, Needed(newsize), HDR);
        assert was[i] in Live(was);
      }
    }

    /** Copies `m` bytes from the block at `j` to the block at `k`. */
    method CopyPayload(r: int, rmem: int, m: nat, ghost k: nat, ghost j: nat)
      requires Valid() && k < |bs| && j < |bs| && k != j
      requires r == bs[k].start + HDR && rmem == bs[j].start + HDR && m <= bs[j].size && m <= bs[k].size
      modifies this`bytes
      ensures Valid() && View() == old(View()) && rmem + m <= |old(bytes)| && r + m <= |old(bytes)|
      ensures Copying.CopyOf(bytes, old(bytes), r, rmem, m)
      ensures Keeps(bs[k := bs[k].(used := false)], old(bytes), bytes)
    {
      Separate(bs, k, j);
      bytes := Copying.MemCopy(bytes, r, rmem, m);
      CopyKeeps(bs, k, old(bytes), bytes, r, rmem, m);
    }

    /** The branch of rt_realloc that allocates elsewhere, copies, and frees the old block. */
    method Move(rmem: int, newsize: nat, ghost i: nat) returns (r: int)
      requires Valid() && i < |bs| && bs[i].used && bs[i].start + HDR == rmem
      requires 0 < newsize <= memSize && Align(newsize) == newsize
      modifies this
      ensures Valid()
      ensures r == NIL <==> NoFit(old(View()), Needed(newsize))
      ensures r == NIL ==> View() == old(View()) && bytes == old(bytes)
      ensures r != NIL ==> Relocated(old(View()), View(), r, Needed(newsize), i)
      ensures r != NIL ==> Carried(old(bytes), rmem, bytes, r, Min(old(bs)[i].size, newsize))
      ensures r != NIL ==> Keeps(old(bs)[i := old(bs)[i].(used := false)], old(bytes), bytes)
      ensures r != NIL ==> Serves(Live(old(bs)), Live(bs), {old(bs)[i]}, r, newsize, HDR)
    {
      ghost var was, h, before := bs, View(), bytes;
      ghost var k, j;
      r, k, j := NewBlock(newsize, i);
      if r != NIL {
        ghost var mid := View();
        GiveUp(r, rmem, newsize, was, i, k, j, before);
        RelocatedIs(h, mid, View(), r, Needed(newsize), i, k, j);
      }
    }

    /** The new block has been found; the old one is given up for it. */
    method GiveUp(r: int, rmem: int, newsize: nat, ghost was: seq<Block>, ghost i: nat, ghost k: nat, ghost j: nat,
                  ghost before: seq<int>)
      requires Valid() && i < |was| && was[i].used && k < |bs| && j < |bs| && k != j && bs[j] == was[i] && bs[k].used
      requires r == bs[k].start + HDR && rmem == bs[j].start + HDR && newsize <= bs[k].size
      requires Tiles(was, 0, end, HDR) && bs[k] !in Live(was) && Live(bs) == Live(was) + {bs[k]}
      requires end <= |before| && Keeps(was, before, bytes)
      modifies this
      ensures Valid() && View() == SmallMem.Free(old(View()), j)
      ensures Carried(before, rmem, bytes, r, Min(was[i].size, newsize))
      ensures Keeps(was[i := was[i].(used := false)], before, bytes)
      ensures Serves(Live(was), Live(bs), {was[i]}, r, newsize, HDR)
    {
      assert HeadAt(next, prev, used, bs, end, j) && AbutsAt(bs, end, HDR, j);
      var size := next[rmem - HDR] - rmem;
      ghost var c := bs[k];
      assert was[i] in Live(was);
      CarryOver(r, rmem, if size < newsize then size else newsize, was, i, k, j, before);
      ServedBy(Live(was), Live(bs), was[i], c, r, newsize, HDR);
    }

    /** Copies the payload into the new block and frees the old one. */
    method CarryOver(r: int, rmem: int, m: nat, ghost was: seq<Block>, ghost i: nat, ghost k: nat, ghost j: nat,
                     ghost before: seq<int>)
      requires Valid() && i < |was| && was[i].used && k < |bs| && j < |bs| && k != j && bs[j] == was[i] && bs[k].used
      requires r == bs[k].start + HDR && rmem == bs[j].start + HDR && m <= bs[j].size && m <= bs[k].size
      requires Tiles(was, 0, end, HDR) && bs[k] !in Live(was) && Live(bs) == Live(was) + {bs[k]}
      requires end <= |before| && Keeps(was, before, bytes)
      modifies this
      ensures Valid() && View() == SmallMem.Free(old(View()), j) && Live(bs) == Live(was) + {old(bs)[k]} - {was[i]}
      ensures Carried(before, rmem, bytes, r, m) && Keeps(was[i := was[i].(used := false)], before, bytes)
    {
      ghost var once, mid := bytes, bs;
      CopyPayload(r, rmem, m, k, j);
      ghost var twice := bytes;
      Retire(rmem, j);
      MoveFacts(was, i, mid, k, j, m, before, once, twice, bytes);
    }

    /** Frees the old block; only what Move needs to know. */
    method Retire(rmem: int, ghost j: nat)
      requires Valid() && j < |bs| && bs[j].used && bs[j].start + HDR == rmem
      modifies this
      ensures Valid() && View() == SmallMem.Free(old(View()), j) && Live(bs) == Live(old(bs)) - {old(bs)[j]}
      ensures Keeps(old(bs)[j := old(bs)[j].(used := false)], old(bytes), bytes)
    {
      FreeLive(bs, 0, end, j, HDR);
      FreeBlock(rmem, j);
    }

    lemma MoveFacts(was: seq<Block>, i: nat, mid: seq<Block>, k: nat, j: nat, m: nat,
                    before: seq<int>, once: seq<int>, twice: seq<int>, after: seq<int>)
      requires Tiles(was, 0, end, HDR) && Tiles(mid, 0, end, HDR) && i < |was| && k < |mid| && j < |mid| && k != j
      requires mid[j] == was[i] && was[i].used && mid[k].used
      requires mid[k] !in Live(was) && Live(mid) == Live(was) + {mid[k]}
      requires m <= was[i].size && m <= mid[k].size && end <= |before|
      requires Keeps(was, before, once)
      requires mid[j].start + HDR + m <= |once| && mid[k].start + HDR + m <= |once|
      requires Copying.CopyOf(twice, once, mid[k].start + HDR, mid[j].start + HDR, m)
      requires Keeps(mid[k := mid[k].(used := false)], once, twice)
      requires Keeps(mid[j := mid[j].(used := false)], twice, after)
      ensures Carried(before, was[i].start + HDR, after, mid[k].start + HDR, m)
      ensures Keeps(was[i := was[i].(used := false)], before, after)
    {
      MovedKeeps(was, i, mid, k, j, before, once, twice, after);
      NewPayload(mid, k, j, twice, after);
      TilesOrdered(was, 0, end, HDR, i, |was|);
      MovedBytes(was[i], mid[k], m, before, once, twice, after);
    }

    lemma NewPayload(mid: seq<Block>, k: nat, j: nat, twice: seq<int>, after: seq<int>)
      requires Tiles(mid, 0, end, HDR) && k < |mid| && j < |mid| && k != j && mid[k].used && end <= |twice|
      requires Keeps(mid[j := mid[j].(used := false)], twice, after)
      ensures EndOf(mid[k], HDR) <= |twice| == |after| && Payload(after, mid[k]) == Payload(twice, mid[k])
    {
      Separate(mid, k, j);
      assert mid[j := mid[j].(used := false)][k] == mid[k];
    }

    /** Two blocks do not overlap. */
    lemma Separate(all: seq<Block>, k: nat, j: nat)
      requires Tiles(all, 0, end, HDR) && k < |all| && j < |all| && k != j
      ensures EndOf(all[k], HDR) <= end && EndOf(all[j], HDR) <= end
      ensures EndOf(all[k], HDR) <= all[j].start || EndOf(all[j], HDR) <= all[k].start
    {
      TilesOrdered(all, 0, end, HDR, k, |all|);
      TilesOrdered(all, 0, end, HDR, j, |all|);
      if k < j {
        TilesOrdered(all, 0, end, HDR, k, j);
      } else {
        TilesOrdered(all, 0, end, HDR, j, k);
      }
    }

    ghost predicate Unchanged(h: SmallMem.Heap, u: int, b: seq<int>)
      reads this
    {
      View() == h && usedMem == u && bytes == b
    }

    /** `r` is the payload of the first block that fits, as rt_malloc takes it. */
    ghost predicate Served(h: SmallMem.Heap, h': SmallMem.Heap, r: int, size: nat) {
      exists i :: FirstFit(h, i, size) && r == h.bs[i].start + HDR && h' == SmallMem.Malloc(h, i, size)
    }

    /**
     What rt_realloc does with a block of `size` bytes: nothing if that is the size asked for; it
     splits off what is left over if that is worth a block; and otherwise it looks for a new block,
     and fails exactly if there is none.
     */
    ghost predicate Resized(h: SmallMem.Heap, usedMem0: int, rmem: int, r: int, n: nat, i: nat)
      requires i < |h.bs|
      reads this
    {
      var size := h.bs[i].size;
      if size == n then r == rmem && View() == h && usedMem == usedMem0
      else if n + HDR + MIN < size then
        && r == rmem && View() == SmallMem.Shrink(h, i, n) && usedMem == usedMem0 - (size - n)
        && Live(bs) == Live(h.bs) - {h.bs[i]} + {Block(h.bs[i].start, n, true)}
      else if NoFit(h, Needed(n)) then r == NIL && View() == h && usedMem == usedMem0
      else r != NIL && Relocated(h, View(), r, Needed(n), i)
    }

    /**
     rt_realloc. A refused request changes nothing. Otherwise the payload is carried over as far
     as both sizes reach, and the payload of every other block in use stays as it is.
     */
    method Realloc(rmem: int, n: nat, ghost i: nat) returns (r: int)
      requires Valid()
      requires 0 <= rmem < end ==> i < |bs| && bs[i].used && bs[i].start + HDR == rmem
      modifies this
      ensures Valid()
      ensures Align(n) > memSize ==> r == NIL && Unchanged(old(View()), old(usedMem), old(bytes))
      ensures Align(n) == 0 ==> r == NIL
      ensures Align(n) == 0 && 0 <= rmem < end ==>
                && View() == SmallMem.Free(old(View()), i)
                && Keeps(old(bs)[i := old(bs)[i].(used := false)], old(bytes), bytes)
      ensures Align(n) == 0 && !(0 <= rmem < end) ==> Unchanged(old(View()), old(usedMem), old(bytes))
      ensures 0 < Align(n) <= memSize && 0 <= rmem < end ==>
                Resized(old(View()), old(usedMem), rmem, r, Align(n), i)
      ensures 0 < Align(n) <= memSize && 0 <= rmem < end && (r == NIL || old(bs)[i].size == Align(n)) ==>
                Unchanged(old(View()), old(usedMem), old(bytes))
      ensures 0 < Align(n) <= memSize && 0 <= rmem < end && r != NIL ==>
                && Serves(Live(old(bs)), Live(bs), {old(bs)[i]}, r, Align(n), HDR)
                && Carried(old(bytes), rmem, bytes, r, Min(old(bs)[i].size, Align(n)))
                && Keeps(old(bs)[i := old(bs)[i].(used := false)], old(bytes), bytes)
      ensures 0 < Align(n) <= memSize && rmem == NIL ==>
                && (r == NIL <==> NoFit(old(View()), Needed(Align(n))))
                && (r == NIL ==> Unchanged(old(View()), old(usedMem), old(bytes)))
                && (r != NIL ==> Served(old(View()), View(), r, Needed(Align(n))))
                && Keeps(old(bs), old(bytes), bytes)
      ensures 0 < Align(n) <= memSize && rmem != NIL && !(0 <= rmem < end) ==>
                r == rmem && Unchanged(old(View()), old(usedMem), old(bytes))
    {
      var newsize := Align(n);
      if newsize > memSize {
        return NIL;
      }
      if newsize == 0 {
        if 0 <= rmem < end {
          FreeBlock(rmem, i);
        }
        return NIL;
      }
      if rmem == NIL {
        ghost var k;
        r, k := Malloc(newsize);
        return;
      }
      if rmem < 0 || rmem >= end {
        return rmem;
      }
      r := Resize(rmem, newsize, i);
    }

    /** The part of rt_realloc for a block in use and a size that is neither zero nor too large. */
    method Resize(rmem: int, newsize: nat, ghost i: nat) returns (r: int)
      requires Valid() && i < |bs| && bs[i].used && bs[i].start + HDR == rmem
      requires 0 < newsize <= memSize && Align(newsize) == newsize
      modifies this
      ensures Valid() && Resized(old(View()), old(usedMem), rmem, r, newsize, i)
      ensures r == NIL || old(bs)[i].size == newsize ==> View() == old(View()) && bytes == old(bytes)
      ensures r != NIL ==> Carried(old(bytes), rmem, bytes, r, Min(old(bs)[i].size, newsize))
      ensures r != NIL ==> Keeps(old(bs)[i := old(bs)[i].(used := false)], old(bytes), bytes)
      ensures r != NIL ==> Serves(Live(old(bs)), Live(bs), {old(bs)[i]}, r, newsize, HDR)
    {
      ghost var was := bs;
      var mem := rmem - HDR;
      assert HeadAt(next, prev, used, bs, end, i) && AbutsAt(bs, end, HDR, i);
      TilesOrdered(bs, 0, end, HDR, i, |bs|);
      var size := next[mem] - mem - HDR;
      if size == newsize {
        ServedBy(Live(bs), Live(bs), bs[i], bs[i], rmem, newsize, HDR);
        r := rmem;
      } else if newsize + HDR + MIN < size {
        ShrinkLive(bs, 0, end, i, newsize, HDR);
        ShrinkUsed(bs, i, newsize, HDR);
        Shrink(mem, newsize, i);
        ServedBy(Live(was), Live(bs), was[i], Block(mem, newsize, true), rmem, newsize, HDR);
        ShrunkKeeps(was, i, newsize, old(bytes), bytes);
        r := rmem;
      } else {
        r := Move(rmem, newsize, i);
      }
    }

    lemma ShrunkKeeps(was: seq<Block>, i: nat, size: nat, before: seq<int>, after: seq<int>)
      requires Tiles(was, 0, end, HDR) && i < |was| && was[i].used && size + HDR <= was[i].size && end <= |before|
      requires Keeps(CutAt(was, i, size), before, after)
      ensures Carried(before, was[i].start + HDR, after, was[i].start + HDR, size)
      ensures Keeps(was[i := was[i].(used := false)], before, after)
    {
      var mid := Parted(was[i].start, size, was[i].size - size - HDR, HDR);
      var cut := Replace(was, i, 1, mid);
      TilesOrdered(was, 0, end, HDR, i, |was|);
      assert cut[i] == mid[0];
      assert Payload(after, cut[i]) == Payload(before, cut[i]);
      LiveReplace(was, 0, end, HDR, i, 1, mid);
      LiveSlice(was, i, 1, i);
      LiveMark(was, 0, end, HDR, i);
      KeepsFewer(was[i := was[i].(used := false)], cut, before, after);
    }
  }
}
