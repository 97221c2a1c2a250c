/**
 How the header words of memheap.c represent a tiling, and what relinking them does to it.
 */
module MemHeapLinks {
  import opened Links
  import opened Tiling
  import opened HeapBlocks
  import opened MemHeap

  ghost function RingOf(bs: seq<Block>, end: nat): seq<int> {
    Starts(bs) + [end as int]
  }

  /** The address-ordered ring through all headers and the tail, with their used marks. */
  ghost predicate Rep(next: map<int, int>, prev: map<int, int>, used: map<int, bool>, bs: seq<Block>, end: nat) {
    && Ring(next, prev, RingOf(bs, end))
    && (forall i :: 0 <= i < |bs| ==> Marked(used, bs[i]))
    && end in used && used[end]
  }

  ghost predicate Marked(used: map<int, bool>, b: Block) {
    b.start in used && used[b.start] == b.used
  }

  /** What can be read off the header of block `i`. */
  lemma RepAt(next: map<int, int>, prev: map<int, int>, used: map<int, bool>,
              bs: seq<Block>, base: nat, end: nat, i: nat)
    requires Rep(next, prev, used, bs, end) && Tiles(bs, base, end, HDR) && i < |bs|
    ensures bs[i].start in next && next[bs[i].start] == EndOf(bs[i], HDR) == NextStart(bs, end, i)
    ensures bs[i].start in prev && prev[bs[i].start] == if i > 0 then bs[i - 1].start else end
    ensures Marked(used, bs[i])
    ensures next[bs[i].start] in used && (!used[next[bs[i].start]] <==> RightFree(bs, i))
    ensures prev[bs[i].start] in used && (!used[prev[bs[i].start]] <==> LeftFree(bs, i))
  {
    assert LinkedAt(next, prev, RingOf(bs, end), i);
    assert AbutsAt(bs, end, HDR, i);
    if i + 1 < |bs| {
      assert Marked(used, bs[i + 1]);
    }
    if i > 0 {
      assert Marked(used, bs[i - 1]);
    }
  }

  /** No list of blocks has a header that links into itself. */
  lemma LinksBeyondHeader(next: map<int, int>, prev: map<int, int>, used: map<int, bool>,
                          bs: seq<Block>, base: nat, end: nat, i: nat)
    requires Tiles(bs, base, end, HDR) && i < |bs|
    requires bs[i].start in next && next[bs[i].start] < bs[i].start + HDR
    ensures !Rep(next, prev, used, bs, end)
  {
    if Rep(next, prev, used, bs, end) {
      RepAt(next, prev, used, bs, base, end, i);
    }
  }

  /** Every block in use has at least the minimum. */
  ghost predicate LiveMin(bs: seq<Block>) {
    forall b :: b in Live(bs) ==> b.size >= MIN
  }

  lemma AllocMin(bs: seq<Block>, base: nat, end: nat, i: nat, size: nat)
    requires Tiles(bs, base, end, HDR) && LiveMin(bs) && end + HDR <= WORD32
    requires i < |bs| && !bs[i].used && bs[i].size >= size >= MIN
    ensures LiveMin(AllocAt(bs, i, size, HDR)) && size + HDR + MIN < WORD32
  {
    AllocLive(bs, base, end, i, size, HDR);
    TilesOrdered(bs, base, end, HDR, i, |bs|);
  }

  lemma FreeMin(bs: seq<Block>, base: nat, end: nat, i: nat)
    requires Tiles(bs, base, end, HDR) && LiveMin(bs) && i < |bs| && bs[i].used
    ensures LiveMin(FreeAt(bs, i, HDR))
  {
    FreeLive(bs, base, end, i, HDR);
  }

  lemma GrowMin(bs: seq<Block>, base: nat, end: nat, i: nat, size: nat)
    requires Tiles(bs, base, end, HDR) && LiveMin(bs) && i < |bs| && bs[i].used && RightFree(bs, i)
    requires bs[i].size <= size <= bs[i].size + bs[i + 1].size
    ensures LiveMin(GrowAt(bs, i, size, HDR))
  {
    GrowLive(bs, base, end, i, size, HDR);
    assert bs[i] in Live(bs);
  }

  lemma ShrinkMin(bs: seq<Block>, base: nat, end: nat, i: nat, size: nat)
    requires Tiles(bs, base, end, HDR) && LiveMin(bs) && i < |bs| && bs[i].used && MIN <= size <= bs[i].size - HDR
    ensures LiveMin(ShrinkAt(bs, i, size, HDR))
  {
    ShrinkLive(bs, base, end, i, size, HDR);
  }

  /** A new header is linked in behind block `i`, which it cuts in two. */
  lemma RepInsert(next: map<int, int>, prev: map<int, int>, used: map<int, bool>,
                  bs: seq<Block>, base: nat, end: nat, i: nat, b: Block, c: Block,
                  next': map<int, int>, prev': map<int, int>, used': map<int, bool>)
    requires Rep(next, prev, used, bs, end) && Tiles(bs, base, end, HDR) && i < |bs|
    requires b.start == bs[i].start < c.start < EndOf(bs[i], HDR)
    requires b.start in next
    requires next' == next[c.start := next[b.start]][b.start := c.start]
    requires prev' == prev[next[b.start] := c.start][c.start := b.start]
    requires used' == used[b.start := b.used][c.start := c.used]
    ensures Rep(next', prev', used', Replace(bs, i, 1, [b, c]), end)
  {
    var r, bs' := RingOf(bs, end), Replace(bs, i, 1, [b, c]);
    TilesDistinct(bs, base, end, HDR);
    forall k | 0 <= k < |bs|
      ensures c.start != bs[k].start
    {
      if k < i {
        TilesOrdered(bs, base, end, HDR, k, i);
      } else if k > i {
        TilesOrdered(bs, base, end, HDR, i, k);
      }
    }
    assert c.start !in r;
    InsertAfterRing(next, prev, r, i, c.start, next', prev');
    assert RingOf(bs', end) == Inserted(r, i + 1, c.start as int);
    forall k | 0 <= k < |bs'|
      ensures Marked(used', bs'[k])
    {
      if k < i {
        assert Marked(used, bs[k]);
      } else if k > i + 1 {
        assert Marked(used, bs[k - 1]);
      }
    }
  }

  /** The header of block `i + 1` is unlinked; block `i` swallows it. */
  lemma RepRemove(next: map<int, int>, prev: map<int, int>, used: map<int, bool>,
                  bs: seq<Block>, base: nat, end: nat, i: nat, b: Block,
                  next': map<int, int>, prev': map<int, int>)
    requires Rep(next, prev, used, bs, end) && Tiles(bs, base, end, HDR) && i + 1 < |bs|
    requires b.start == bs[i].start && b.used == bs[i].used
    requires bs[i + 1].start in next && bs[i + 1].start in prev
    requires prev' == prev[next[bs[i + 1].start] := prev[bs[i + 1].start]]
    requires next' == next[prev[bs[i + 1].start] := next[bs[i + 1].start]]
    ensures Rep(next', prev', used, Replace(bs, i, 2, [b]), end)
  {
    var r, bs' := RingOf(bs, end), Replace(bs, i, 2, [b]);
    RemoveRing(next, prev, r, i + 1, next', prev');
    assert RingOf(bs', end) == Removed(r, i + 1);
    forall k | 0 <= k < |bs'|
      ensures Marked(used, bs'[k])
    {
      assert Marked(used, bs[if k <= i then k else k + 1]);
    }
  }

  /** Only a used mark changes. */
  lemma RepMark(next: map<int, int>, prev: map<int, int>, used: map<int, bool>,
                bs: seq<Block>, base: nat, end: nat, i: nat, mark: bool)
    requires Rep(next, prev, used, bs, end) && Tiles(bs, base, end, HDR) && i < |bs|
    ensures Rep(next, prev, used[bs[i].start := mark], bs[i := bs[i].(used := mark)], end)
    ensures Tiles(bs[i := bs[i].(used := mark)], base, end, HDR)
  {
    var bs' := bs[i := bs[i].(used := mark)];
    TilesDistinct(bs, base, end, HDR);
    assert RingOf(bs', end) == RingOf(bs, end);
    forall k | 0 <= k < |bs'|
      ensures Marked(used[bs[i].start := mark], bs'[k]) && AbutsAt(bs', end, HDR, k)
    {
      assert Marked(used, bs[k]) && AbutsAt(bs, end, HDR, k);
    }
  }

  /** The free ring without a block; all others keep their order. */
  ghost function Drop(s: seq<int>, x: int): seq<int> {
    if s == [] then [] else if s[0] == x then s[1..] else [s[0]] + Drop(s[1..], x)
  }

  lemma {:induction false} DropAt(s: seq<int>, k: nat, x: int)
    requires k < |s| && s[k] == x && forall j :: 0 <= j < k ==> s[j] != x
    ensures Drop(s, x) == s[..k] + s[k + 1..]
  {
    if k > 0 {
      DropAt(s[1..], k - 1, x);
      assert s[..k] == [s[0]] + s[1..][..k - 1];
    }
  }

  /** What unlinking a block from the ring behind the head does. */
  lemma DropBehind(head: int, s: seq<int>, k: nat, x: int)
    requires Distinct([head] + s) && k < |s| && s[k] == x
    ensures Drop(s, x) == s[..k] + s[k + 1..]
    ensures Removed([head] + s, k + 1) == [head] + Drop(s, x)
    ensures Elems(Drop(s, x)) == Elems(s) - {x}
  {
    var f := [head] + s;
    forall j | 0 <= j < |s| && j != k
      ensures s[j] != x
    {
      assert f[j + 1] == s[j] && f[k + 1] == x;
    }
    DropAt(s, k, x);
    assert s == s[..k] + [x] + s[k + 1..];
  }

  /** The free ring after an allocation: what is split off goes to the front. */
  ghost function CarvedRing(free: seq<int>, bs: seq<Block>, i: nat, size: nat): seq<int>
    requires i < |bs|
  {
    (if bs[i].size >= size + HDR + MIN then [bs[i].start + size + HDR] else []) + Drop(free, bs[i].start)
  }

  /** After melting to the right. */
  ghost function MeltedRing(free: seq<int>, bs: seq<Block>, i: nat): seq<int>
    requires i < |bs|
  {
    if RightFree(bs, i) then Drop(free, bs[i + 1].start) else free
  }

  /** After freeing block `i`: it goes to the front, unless its predecessor is there already. */
  ghost function FreedRing(free: seq<int>, bs: seq<Block>, i: nat): seq<int>
    requires i < |bs|
  {
    (if LeftFree(bs, i) then [] else [bs[i].start as int]) + MeltedRing(free, bs, i)
  }

  ghost function Elems(s: seq<int>): set<int> {
    set x | x in s
  }

  lemma FreeStartsOne(b: Block)
    ensures FreeStarts([b]) == if b.used then {} else {b.start as int}
  {
    assert [b][0] == b;
  }

  lemma FreeStartsTwo(b: Block, c: Block)
    ensures FreeStarts([b, c]) == FreeStarts([b]) + FreeStarts([c])
  {
    assert [b, c] == [b] + [c];
    FreeStartsConcat([b], [c]);
  }

  /** The free headers of one, two or three neighbours. */
  lemma FreeStartsSlice(bs: seq<Block>, i: nat, n: nat)
    requires 1 <= n <= 3 && i + n <= |bs|
    ensures FreeStarts(bs[i..i + n]) == FreeStarts([bs[i]])
              + (if n > 1 then FreeStarts([bs[i + 1]]) else {}) + (if n > 2 then FreeStarts([bs[i + 2]]) else {})
  {
    if n == 1 {
      assert bs[i..i + n] == [bs[i]];
    } else if n == 2 {
      assert bs[i..i + n] == [bs[i], bs[i + 1]];
      FreeStartsTwo(bs[i], bs[i + 1]);
    } else {
      assert bs[i..i + n] == [bs[i], bs[i + 1]] + [bs[i + 2]];
      FreeStartsConcat([bs[i], bs[i + 1]], [bs[i + 2]]);
      FreeStartsTwo(bs[i], bs[i + 1]);
    }
  }

  /** The free headers after each operation. */
  lemma AllocFreeStarts(bs: seq<Block>, base: nat, end: nat, i: nat, size: nat)
    requires Tiles(bs, base, end, HDR) && i < |bs| && !bs[i].used && bs[i].size >= size
    ensures FreeStarts(AllocAt(bs, i, size, HDR)) == FreeStarts(bs) - {bs[i].start as int}
              + (if bs[i].size >= size + HDR + MIN then {bs[i].start + size + HDR as int} else {})
  {
    var mid := Carved(bs[i], size, HDR);
    FreeStartsReplace(bs, base, end, HDR, i, 1, mid);
    FreeStartsSlice(bs, i, 1);
    FreeStartsOne(bs[i]);
    FreeStartsOne(mid[0]);
    if |mid| == 2 {
      assert mid == [mid[0], mid[1]];
      FreeStartsTwo(mid[0], mid[1]);
      FreeStartsOne(mid[1]);
    } else {
      assert mid == [mid[0]];
    }
  }

  lemma FreeFreeStarts(bs: seq<Block>, base: nat, end: nat, i: nat)
    requires Tiles(bs, base, end, HDR) && i < |bs| && bs[i].used
    ensures FreeStarts(FreeAt(bs, i, HDR)) == FreeStarts(bs)
              - (if RightFree(bs, i) then {bs[i + 1].start as int} else {})
              + (if LeftFree(bs, i) then {} else {bs[i].start as int})
    ensures bs[i].start !in FreeStarts(bs)
    ensures LeftFree(bs, i) ==> bs[i - 1].start in FreeStarts(bs)
    ensures RightFree(bs, i) ==> bs[i + 1].start in FreeStarts(bs)
  {
    var lo, n, b := Leftmost(bs, i), Beyond(bs, i) - Leftmost(bs, i), Melted(bs, i, HDR);
    TilesDistinct(bs, base, end, HDR);
    assert FreeAt(bs, i, HDR) == Replace(bs, lo, n, [b]);
    FreeStartsReplace(bs, base, end, HDR, lo, n, [b]);
    FreeStartsOne(b);
    MeltedFreeStarts(bs, i);
    assert bs[lo..lo + n] == bs[lo..Beyond(bs, i)];
  }

  lemma MeltedFreeStarts(bs: seq<Block>, i: nat)
    requires i < |bs| && bs[i].used
    ensures FreeStarts(bs[Leftmost(bs, i)..Beyond(bs, i)]) ==
            (if LeftFree(bs, i) then {bs[i - 1].start as int} else {}) +
            (if RightFree(bs, i) then {bs[i + 1].start as int} else {})
  {
    FreeStartsSlice(bs, Leftmost(bs, i), Beyond(bs, i) - Leftmost(bs, i));
    FreeStartsOne(bs[i]);
    if LeftFree(bs, i) {
      FreeStartsOne(bs[i - 1]);
    }
    if RightFree(bs, i) {
      FreeStartsOne(bs[i + 1]);
    }
  }

  lemma PartedFreeStarts(bs: seq<Block>, base: nat, end: nat, i: nat, n: nat, size: nat, rest: nat)
    requires Tiles(bs, base, end, HDR) && i + n <= |bs| && i < |bs| && bs[i].used
    requires n == if RightFree(bs, i) then 2 else 1
    ensures FreeStarts(Replace(bs, i, n, Parted(bs[i].start, size, rest, HDR))) == FreeStarts(bs)
              - (if n == 2 then {bs[i + 1].start as int} else {}) + {bs[i].start + HDR + size as int}
    ensures n == 2 ==> bs[i + 1].start in FreeStarts(bs)
  {
    var mid := Parted(bs[i].start, size, rest, HDR);
    FreeStartsReplace(bs, base, end, HDR, i, n, mid);
    FreeStartsSlice(bs, i, n);
    FreeStartsTwo(mid[0], mid[1]);
    FreeStartsOne(mid[0]);
    FreeStartsOne(mid[1]);
    FreeStartsOne(bs[i]);
    if n == 2 {
      FreeStartsOne(bs[i + 1]);
    }
  }
}
