/**
 How the header words of mem.c represent the blocks: `next` leads from offset 0 to the tail,
 `prev` leads back, except that the tail's own `prev` is not kept up.
 */
module SmallMemLinks {
  import opened Tiling
  import opened SmallMem

  ghost predicate HeadAt(next: map<int, int>, prev: map<int, int>, used: map<int, bool>,
                         bs: seq<Block>, end: nat, i: int)
    requires 0 <= i < |bs|
  {
    && bs[i].start in next && next[bs[i].start] == NextStart(bs, end, i)
    && bs[i].start in prev && prev[bs[i].start] == (if i > 0 then bs[i - 1].start else 0)
    && bs[i].start in used && used[bs[i].start] == bs[i].used
  }

  ghost predicate Rep(next: map<int, int>, prev: map<int, int>, used: map<int, bool>, bs: seq<Block>, end: nat) {
    && (forall i {:trigger HeadAt(next, prev, used, bs, end, i)} ::
        0 <= i < |bs| ==> HeadAt(next, prev, used, bs, end, i))
    && end in next && next[end] == end && end in prev && end in used && used[end]
  }

  /** The words written when the header `c` is put behind the header `b`. */
  ghost predicate SplitWords(next: map<int, int>, prev: map<int, int>, used: map<int, bool>, end: nat,
                             b: Block, c: Block, next': map<int, int>, prev': map<int, int>, used': map<int, bool>)
  {
    && b.start in next
    && next' == next[c.start := next[b.start]][b.start := c.start]
    && prev' == (if next[b.start] == end then prev[c.start := b.start]
                 else prev[c.start := b.start][next[b.start] := c.start])
    && used' == used[b.start := b.used][c.start := c.used]
  }

  lemma SplitBelow(next: map<int, int>, prev: map<int, int>, used: map<int, bool>,
                 bs: seq<Block>, end: nat, i: nat, b: Block, c: Block,
                 next': map<int, int>, prev': map<int, int>, used': map<int, bool>, j: nat)
    requires Rep(next, prev, used, bs, end) && Tiles(bs, 0, end, HDR) && i < |bs|
    requires b.start == bs[i].start < c.start < EndOf(bs[i], HDR)
    requires SplitWords(next, prev, used, end, b, c, next', prev', used')
    requires j < i
    ensures HeadAt(next', prev', used', Replace(bs, i, 1, [b, c]), end, j)
  {
    var t := Replace(bs, i, 1, [b, c]);
    TilesOrdered(bs, 0, end, HDR, j, i);
    TilesOrdered(bs, 0, end, HDR, i, |bs|);
    assert AbutsAt(bs, end, HDR, i) && HeadAt(next, prev, used, bs, end, i);
    assert t[j] == bs[j] && t[j + 1].start == bs[j + 1].start;
    assert HeadAt(next, prev, used, bs, end, j);
  }

  lemma SplitAbove(next: map<int, int>, prev: map<int, int>, used: map<int, bool>,
                 bs: seq<Block>, end: nat, i: nat, b: Block, c: Block,
                 next': map<int, int>, prev': map<int, int>, used': map<int, bool>, j: nat)
    requires Rep(next, prev, used, bs, end) && Tiles(bs, 0, end, HDR) && i < |bs|
    requires b.start == bs[i].start < c.start < EndOf(bs[i], HDR)
    requires SplitWords(next, prev, used, end, b, c, next', prev', used')
    requires i < j < |bs|
    ensures HeadAt(next', prev', used', Replace(bs, i, 1, [b, c]), end, j + 1)
  {
    var t := Replace(bs, i, 1, [b, c]);
    assert AbutsAt(bs, end, HDR, i) && HeadAt(next, prev, used, bs, end, i);
    TilesOrdered(bs, 0, end, HDR, i, j);
    TilesOrdered(bs, 0, end, HDR, j, |bs|);
    if i + 1 < j {
      TilesOrdered(bs, 0, end, HDR, i + 1, j);
    }
    assert t[j + 1] == bs[j] && NextStart(t, end, j + 1) == NextStart(bs, end, j);
    assert HeadAt(next, prev, used, bs, end, j);
  }

  /** A new header is written behind block `i`, which it cuts in two. */
  lemma RepSplit(next: map<int, int>, prev: map<int, int>, used: map<int, bool>,
                 bs: seq<Block>, end: nat, i: nat, b: Block, c: Block,
                 next': map<int, int>, prev': map<int, int>, used': map<int, bool>)
    requires Rep(next, prev, used, bs, end) && Tiles(bs, 0, end, HDR) && i < |bs|
    requires b.start == bs[i].start < c.start < EndOf(bs[i], HDR)
    requires SplitWords(next, prev, used, end, b, c, next', prev', used')
    ensures Rep(next', prev', used', Replace(bs, i, 1, [b, c]), end)
  {
    var t := Replace(bs, i, 1, [b, c]);
    assert AbutsAt(bs, end, HDR, i) && HeadAt(next, prev, used, bs, end, i);
    TilesOrdered(bs, 0, end, HDR, i, |bs|);
    forall j | 0 <= j < |t|
      ensures HeadAt(next', prev', used', t, end, j)
    {
      if j < i {
        SplitBelow(next, prev, used, bs, end, i, b, c, next', prev', used', j);
      } else if j > i + 1 {
        SplitAbove(next, prev, used, bs, end, i, b, c, next', prev', used', j - 1);
      }
    }
  }

  /** The header of block `i + 1` is skipped; block `i` swallows it. */
  lemma RepJoin(next: map<int, int>, prev: map<int, int>, used: map<int, bool>,
                bs: seq<Block>, end: nat, i: nat, b: Block, next': map<int, int>, prev': map<int, int>)
    requires Rep(next, prev, used, bs, end) && Tiles(bs, 0, end, HDR) && i + 1 < |bs|
    requires b.start == bs[i].start && b.used == bs[i].used && bs[i + 1].start in next
    requires next' == next[b.start := next[bs[i + 1].start]]
    requires prev' == prev[next[bs[i + 1].start] := b.start]
    ensures Rep(next', prev', used, Replace(bs, i, 2, [b]), end)
  {
    var t := Replace(bs, i, 2, [b]);
    assert HeadAt(next, prev, used, bs, end, i);
    assert HeadAt(next, prev, used, bs, end, i + 1);
    TilesOrdered(bs, 0, end, HDR, i, i + 1);
    TilesOrdered(bs, 0, end, HDR, i + 1, |bs|);
    forall j | 0 <= j < |t|
      ensures HeadAt(next', prev', used, t, end, j)
    {
      if j <= i {
        if j < i {
          TilesOrdered(bs, 0, end, HDR, j, i);
          TilesOrdered(bs, 0, end, HDR, j, i + 1);
          assert t[j] == bs[j] && t[j + 1].start == bs[j + 1].start;
        }
        if i + 2 < |bs| {
          TilesOrdered(bs, 0, end, HDR, j, i + 2);
        }
        assert HeadAt(next, prev, used, bs, end, j);
      } else {
        TilesOrdered(bs, 0, end, HDR, i, j + 1);
        TilesOrdered(bs, 0, end, HDR, j + 1, |bs|);
        if i + 1 < j {
          TilesOrdered(bs, 0, end, HDR, i + 2, j + 1);
        }
        assert t[j] == bs[j + 1] && NextStart(t, end, j) == NextStart(bs, end, j + 1);
        assert HeadAt(next, prev, used, bs, end, j + 1);
      }
    }
  }

  lemma RepMark(next: map<int, int>, prev: map<int, int>, used: map<int, bool>,
                bs: seq<Block>, end: nat, i: nat, mark: bool)
    requires Rep(next, prev, used, bs, end) && Tiles(bs, 0, end, HDR) && i < |bs|
    ensures Rep(next, prev, used[bs[i].start := mark], bs[i := bs[i].(used := mark)], end)
    ensures Tiles(bs[i := bs[i].(used := mark)], 0, end, HDR)
  {
    var t := bs[i := bs[i].(used := mark)];
    var used' := used[bs[i].start := mark];
    TilesDistinct(bs, 0, end, HDR);
    forall j | 0 <= j < |t|
      ensures HeadAt(next, prev, used', t, end, j) && AbutsAt(t, end, HDR, j)
    {
      assert HeadAt(next, prev, used, bs, end, j) && AbutsAt(bs, end, HDR, j);
    }
  }

  // ---------------------------------------------------------------- payload bytes

  ghost predicate InHeader(bs: seq<Block>, end: nat, x: int) {
    x >= end || exists k :: 0 <= k < |bs| && bs[k].start <= x < bs[k].start + HDR
  }

  /** Only bytes of headers may have changed. */
  ghost predicate Scribbled(bytes: seq<int>, bytes': seq<int>, bs: seq<Block>, end: nat) {
    && |bytes'| == |bytes|
    && (forall x :: 0 <= x < |bytes| && bytes'[x] != bytes[x] ==> InHeader(bs, end, x))
  }

  ghost function Payload(bytes: seq<int>, b: Block): seq<int>
    requires EndOf(b, HDR) <= |bytes|
  {
    bytes[b.start + HDR..EndOf(b, HDR)]
  }

  /** Writing a header replaces its twelve bytes. */
  function Scribble(bytes: seq<int>, x: int): (r: seq<int>)
    requires 0 <= x && x + HDR <= |bytes|
    ensures |r| == |bytes|
    ensures forall y :: 0 <= y < |bytes| && !(x <= y < x + HDR) ==> r[y] == bytes[y]
  {
    bytes[..x] + seq(HDR, _ => 0) + bytes[x + HDR..]
  }

  lemma ScribbleHeader(bytes: seq<int>, bs: seq<Block>, end: nat, x: int)
    requires 0 <= x && x + HDR <= |bytes|
    requires x == end || exists k :: 0 <= k < |bs| && bs[k].start == x
    ensures Scribbled(bytes, Scribble(bytes, x), bs, end)
  {
    if x != end {
      var k :| 0 <= k < |bs| && bs[k].start == x;
      forall y | 0 <= y < |bytes| && Scribble(bytes, x)[y] != bytes[y]
        ensures InHeader(bs, end, y)
      {
        assert bs[k].start <= y < bs[k].start + HDR;
      }
    }
  }

  lemma ScribbledTrans(a: seq<int>, b: seq<int>, c: seq<int>, bs: seq<Block>, end: nat)
    requires Scribbled(a, b, bs, end) && Scribbled(b, c, bs, end)
    ensures Scribbled(a, c, bs, end)
  {
  }

  /** The bytes of a block that stays as it is survive the writing of headers. */
  lemma PayloadKept(bytes: seq<int>, bytes': seq<int>, bs: seq<Block>, end: nat, i: nat)
    requires Tiles(bs, 0, end, HDR) && Scribbled(bytes, bytes', bs, end) && i < |bs| && end <= |bytes|
    ensures EndOf(bs[i], HDR) <= |bytes|
    ensures Payload(bytes', bs[i]) == Payload(bytes, bs[i])
  {
    TilesDistinct(bs, 0, end, HDR);
    forall x | bs[i].start + HDR <= x < EndOf(bs[i], HDR)
      ensures bytes'[x] == bytes[x]
    {
      if InHeader(bs, end, x) {
        var k :| 0 <= k < |bs| && bs[k].start <= x < bs[k].start + HDR;
        if k > i {
          TilesOrdered(bs, 0, end, HDR, i, k);
        }
      }
    }
  }

  /** Fewer headers, fewer bytes that may change. */
  lemma ScribbledFiner(bytes: seq<int>, bytes': seq<int>, coarse: seq<Block>, fine: seq<Block>, end: nat)
    requires Scribbled(bytes, bytes', coarse, end)
    requires forall k :: 0 <= k < |coarse| ==> exists j :: 0 <= j < |fine| && fine[j].start == coarse[k].start
    ensures Scribbled(bytes, bytes', fine, end)
  {
    forall x | 0 <= x < |bytes| && bytes'[x] != bytes[x]
      ensures InHeader(fine, end, x)
    {
      assert InHeader(coarse, end, x);
      if x < end {
        var k :| 0 <= k < |coarse| && coarse[k].start <= x < coarse[k].start + HDR;
        var j :| 0 <= j < |fine| && fine[j].start == coarse[k].start;
        assert fine[j].start <= x < fine[j].start + HDR;
      }
    }
  }
}
