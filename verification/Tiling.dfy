/**
 A memory area as a sequence of blocks in address order. Every block is a header followed by
 its payload and ends where the next one begins; the last one ends at a fixed tail header.
 Shared by the two heaps that keep such a list (mem.c and memheap.c).
 */
module Tiling {

  datatype Block = Block(start: nat, size: nat, used: bool)

  ghost function EndOf(b: Block, hdr: nat): nat {
    b.start + hdr + b.size
  }

  ghost function NextStart(bs: seq<Block>, end: nat, i: int): nat
    requires 0 <= i < |bs|
  {
    if i + 1 < |bs| then bs[i + 1].start else end
  }

  ghost predicate AbutsAt(bs: seq<Block>, end: nat, hdr: nat, i: int)
    requires 0 <= i < |bs|
  {
    EndOf(bs[i], hdr) == NextStart(bs, end, i)
  }

  /** The blocks cover [base, end) without gap or overlap. */
  ghost predicate Tiles(bs: seq<Block>, base: nat, end: nat, hdr: nat) {
    && |bs| > 0 && bs[0].start == base
    && (forall i {:trigger AbutsAt(bs, end, hdr, i)} :: 0 <= i < |bs| ==> AbutsAt(bs, end, hdr, i))
  }

  ghost predicate ApartAt(bs: seq<Block>, i: int)
    requires 0 <= i < |bs|
  {
    i + 1 < |bs| ==> bs[i].used || bs[i + 1].used
  }

  /** No two neighbours are both free. */
  ghost predicate Apart(bs: seq<Block>) {
    forall i {:trigger ApartAt(bs, i)} :: 0 <= i < |bs| ==> ApartAt(bs, i)
  }

  /** Every operation of a heap replaces a few neighbouring blocks. */
  ghost function Replace(bs: seq<Block>, i: nat, n: nat, mid: seq<Block>): seq<Block>
    requires i + n <= |bs|
  {
    bs[..i] + mid + bs[i + n..]
  }

  /** Blocks come in address order and do not overlap. */
  lemma {:induction false} TilesOrdered(bs: seq<Block>, base: nat, end: nat, hdr: nat, i: nat, j: nat)
    requires Tiles(bs, base, end, hdr) && i < j <= |bs|
    ensures EndOf(bs[i], hdr) <= (if j < |bs| then bs[j].start else end)
    decreases j - i
  {
    assert AbutsAt(bs, end, hdr, i);
    if i + 1 < j {
      TilesOrdered(bs, base, end, hdr, i + 1, j);
    }
  }

  /** Distinct positions mean distinct headers, all of them below the tail. */
  lemma TilesDistinct(bs: seq<Block>, base: nat, end: nat, hdr: nat)
    requires Tiles(bs, base, end, hdr) && hdr > 0
    ensures forall i, j :: 0 <= i < j < |bs| ==> bs[i].start < bs[j].start
    ensures forall i :: 0 <= i < |bs| ==> base <= bs[i].start && EndOf(bs[i], hdr) <= end
  {
    forall i, j | 0 <= i < j < |bs|
      ensures bs[i].start < bs[j].start
    {
      TilesOrdered(bs, base, end, hdr, i, j);
    }
    forall i | 0 <= i < |bs|
      ensures base <= bs[i].start && EndOf(bs[i], hdr) <= end
    {
      TilesOrdered(bs, base, end, hdr, i, |bs|);
      if i > 0 {
        TilesOrdered(bs, base, end, hdr, 0, i);
      }
    }
  }

  /** A run of blocks may be replaced by any blocks that tile the same span. */
  lemma ReplaceTiles(bs: seq<Block>, base: nat, end: nat, hdr: nat, i: nat, n: nat, mid: seq<Block>)
    requires Tiles(bs, base, end, hdr) && n > 0 && i + n <= |bs|
    requires Tiles(mid, bs[i].start, EndOf(bs[i + n - 1], hdr), hdr)
    ensures Tiles(Replace(bs, i, n, mid), base, end, hdr)
  {
    var t := Replace(bs, i, n, mid);
    assert AbutsAt(bs, end, hdr, i + n - 1);
    forall j | 0 <= j < |t|
      ensures AbutsAt(t, end, hdr, j)
    {
      if j < i {
        assert AbutsAt(bs, end, hdr, j);
      } else if j < i + |mid| {
        assert AbutsAt(mid, EndOf(bs[i + n - 1], hdr), hdr, j - i);
      } else {
        assert AbutsAt(bs, end, hdr, j - |mid| + n);
      }
    }
  }

  lemma ReplaceApart(bs: seq<Block>, i: nat, n: nat, mid: seq<Block>)
    requires Apart(bs) && Apart(mid) && |mid| > 0 && i + n <= |bs|
    requires i > 0 ==> bs[i - 1].used || mid[0].used
    requires i + n < |bs| ==> mid[|mid| - 1].used || bs[i + n].used
    ensures Apart(Replace(bs, i, n, mid))
  {
    var t := Replace(bs, i, n, mid);
    forall j | 0 <= j < |t|
      ensures ApartAt(t, j)
    {
      if j < i {
        assert ApartAt(bs, j);
      } else if j < i + |mid| {
        assert ApartAt(mid, j - i);
      } else {
        assert ApartAt(bs, j - |mid| + n);
      }
    }
  }

  // ---------------------------------------------------------------- sums

  ghost function FreeBytes(bs: seq<Block>): nat {
    if bs == [] then 0 else (if bs[0].used then 0 else bs[0].size) + FreeBytes(bs[1..])
  }

  /** Payloads and headers of the used blocks. */
  ghost function UsedBytes(bs: seq<Block>, hdr: nat): nat {
    if bs == [] then 0 else (if bs[0].used then bs[0].size + hdr else 0) + UsedBytes(bs[1..], hdr)
  }

  lemma {:induction false} SumsConcat(a: seq<Block>, b: seq<Block>, hdr: nat)
    ensures FreeBytes(a + b) == FreeBytes(a) + FreeBytes(b)
    ensures UsedBytes(a + b, hdr) == UsedBytes(a, hdr) + UsedBytes(b, hdr)
  {
    if a == [] {
      assert a + b == b;
    } else {
      assert (a + b)[1..] == a[1..] + b;
      SumsConcat(a[1..], b, hdr);
    }
  }

  lemma SumsReplace(bs: seq<Block>, i: nat, n: nat, mid: seq<Block>, hdr: nat)
    requires i + n <= |bs|
    ensures FreeBytes(Replace(bs, i, n, mid)) + FreeBytes(bs[i..i + n]) == FreeBytes(bs) + FreeBytes(mid)
    ensures UsedBytes(Replace(bs, i, n, mid), hdr) + UsedBytes(bs[i..i + n], hdr)
              == UsedBytes(bs, hdr) + UsedBytes(mid, hdr)
  {
    assert bs == bs[..i] + bs[i..i + n] + bs[i + n..];
    SumsConcat(bs[..i], bs[i..i + n], hdr);
    SumsConcat(bs[..i] + bs[i..i + n], bs[i + n..], hdr);
    SumsConcat(bs[..i], mid, hdr);
    SumsConcat(bs[..i] + mid, bs[i + n..], hdr);
  }

  /** The sums of the few blocks an operation touches. */
  lemma SumsOne(a: Block, hdr: nat)
    ensures FreeBytes([a]) == (if a.used then 0 else a.size)
    ensures UsedBytes([a], hdr) == (if a.used then a.size + hdr else 0)
  {
    assert [a][1..] == [];
  }

  lemma SumsTwo(a: Block, b: Block, hdr: nat)
    ensures FreeBytes([a, b]) == FreeBytes([a]) + FreeBytes([b])
    ensures UsedBytes([a, b], hdr) == UsedBytes([a], hdr) + UsedBytes([b], hdr)
  {
    assert [a, b] == [a] + [b];
    SumsConcat([a], [b], hdr);
  }

  lemma SumsThree(a: Block, b: Block, c: Block, hdr: nat)
    ensures FreeBytes([a, b, c]) == FreeBytes([a]) + FreeBytes([b]) + FreeBytes([c])
    ensures UsedBytes([a, b, c], hdr) == UsedBytes([a], hdr) + UsedBytes([b], hdr) + UsedBytes([c], hdr)
  {
    assert [a, b, c] == [a, b] + [c];
    SumsConcat([a, b], [c], hdr);
    SumsTwo(a, b, hdr);
  }

  /** Everything between the two ends is header or payload of exactly one block. */
  lemma {:induction false} SumsTotal(bs: seq<Block>, base: nat, end: nat, hdr: nat)
    requires Tiles(bs, base, end, hdr)
    ensures FreeBytes(bs) + UsedBytes(bs, hdr) + hdr * Unused(bs) == end - base
  {
    assert AbutsAt(bs, end, hdr, 0);
    if |bs| > 1 {
      forall i | 0 <= i < |bs| - 1
        ensures AbutsAt(bs[1..], end, hdr, i)
      {
        assert AbutsAt(bs, end, hdr, i + 1);
      }
      SumsTotal(bs[1..], bs[1].start, end, hdr);
    } else {
      assert bs[1..] == [];
    }
  }

  ghost function Unused(bs: seq<Block>): nat {
    if bs == [] then 0 else (if bs[0].used then 0 else 1) + Unused(bs[1..])
  }

  // ---------------------------------------------------------------- headers

  ghost function Starts(bs: seq<Block>): (s: seq<int>)
    ensures |s| == |bs|
    ensures forall i :: 0 <= i < |bs| ==> s[i] == bs[i].start
  {
    seq(|bs|, i requires 0 <= i < |bs| => bs[i].start)
  }

  ghost function FreeStarts(bs: seq<Block>): set<int> {
    set i | 0 <= i < |bs| && !bs[i].used :: bs[i].start as int
  }

  lemma FreeStartsConcat(a: seq<Block>, b: seq<Block>)
    ensures FreeStarts(a + b) == FreeStarts(a) + FreeStarts(b)
  {
    var s := a + b;
    forall x | x in FreeStarts(a)
      ensures x in FreeStarts(s)
    {
      var i :| 0 <= i < |a| && !a[i].used && a[i].start == x;
      assert s[i] == a[i];
    }
    forall x | x in FreeStarts(b)
      ensures x in FreeStarts(s)
    {
      var i :| 0 <= i < |b| && !b[i].used && b[i].start == x;
      assert s[|a| + i] == b[i];
    }
  }

  /** Outside the replaced blocks the free headers are the same and none of them is inside. */
  lemma FreeStartsReplace(bs: seq<Block>, base: nat, end: nat, hdr: nat, i: nat, n: nat, mid: seq<Block>)
    requires Tiles(bs, base, end, hdr) && hdr > 0 && i + n <= |bs|
    ensures FreeStarts(Replace(bs, i, n, mid)) == FreeStarts(bs) - FreeStarts(bs[i..i + n]) + FreeStarts(mid)
  {
    TilesDistinct(bs, base, end, hdr);
    var a, b, c := bs[..i], bs[i..i + n], bs[i + n..];
    assert bs == a + b + c;
    FreeStartsConcat(a, b);
    FreeStartsConcat(a + b, c);
    FreeStartsConcat(a, mid);
    FreeStartsConcat(a + mid, c);
    forall x | x in FreeStarts(b)
      ensures x !in FreeStarts(a) && x !in FreeStarts(c)
    {
      var k :| 0 <= k < |b| && !b[k].used && b[k].start == x;
      assert b[k] == bs[i + k];
    }
  }

  // ---------------------------------------------------------------- live blocks

  /** The blocks in use, with their addresses and sizes. */
  ghost function Live(bs: seq<Block>): set<Block> {
    set i | 0 <= i < |bs| && bs[i].used :: bs[i]
  }

  lemma LiveConcat(a: seq<Block>, b: seq<Block>)
    ensures Live(a + b) == Live(a) + Live(b)
  {
    var s := a + b;
    forall x | x in Live(a)
      ensures x in Live(s)
    {
      var i :| 0 <= i < |a| && a[i].used && a[i] == x;
      assert s[i] == a[i];
    }
    forall x | x in Live(b)
      ensures x in Live(s)
    {
      var i :| 0 <= i < |b| && b[i].used && b[i] == x;
      assert s[|a| + i] == b[i];
    }
  }

  /** Replacing blocks concerns no live block but the replaced ones. */
  lemma LiveReplace(bs: seq<Block>, base: nat, end: nat, hdr: nat, i: nat, n: nat, mid: seq<Block>)
    requires Tiles(bs, base, end, hdr) && hdr > 0 && i + n <= |bs|
    ensures Live(Replace(bs, i, n, mid)) == Live(bs) - Live(bs[i..i + n]) + Live(mid)
  {
    TilesDistinct(bs, base, end, hdr);
    var a, b, c := bs[..i], bs[i..i + n], bs[i + n..];
    assert bs == a + b + c;
    LiveConcat(a, b);
    LiveConcat(a + b, c);
    LiveConcat(a, mid);
    LiveConcat(a + mid, c);
    forall x | x in Live(b)
      ensures x !in Live(a) && x !in Live(c)
    {
      var k :| 0 <= k < |b| && b[k].used && b[k] == x;
      assert b[k] == bs[i + k];
    }
  }

  /** Exactly one of the replaced blocks was live, and at most the first of the new ones is. */
  lemma LiveSlice(bs: seq<Block>, i: nat, n: nat, k: nat)
    requires i <= k < i + n <= |bs|
    requires forall j :: i <= j < i + n && j != k ==> !bs[j].used
    ensures Live(bs[i..i + n]) == if bs[k].used then {bs[k]} else {}
  {
    var s := bs[i..i + n];
    assert s[k - i] == bs[k];
  }

  /** Taking a block out of use. */
  lemma LiveMark(bs: seq<Block>, base: nat, end: nat, hdr: nat, i: nat)
    requires Tiles(bs, base, end, hdr) && hdr > 0 && i < |bs|
    ensures Live(bs[i := bs[i].(used := false)]) == Live(bs) - {bs[i]}
  {
    TilesDistinct(bs, base, end, hdr);
    var t := bs[i := bs[i].(used := false)];
    forall x | x in Live(bs) - {bs[i]}
      ensures x in Live(t)
    {
      var k :| 0 <= k < |bs| && bs[k].used && bs[k] == x;
      assert t[k] == x;
    }
    forall x | x in Live(t)
      ensures x in Live(bs) - {bs[i]}
    {
      var k :| 0 <= k < |t| && t[k].used && t[k] == x;
      assert bs[k] == x;
    }
  }
}
