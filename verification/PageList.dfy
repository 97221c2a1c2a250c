/**
 The page allocator of slab.c: a list of free page runs in address order.
 */
module PageList {

  datatype Run = Run(start: nat, count: nat)

  predicate InRun(r: Run, p: int) {
    r.start <= p < r.start + r.count
  }

  /** Page `p` is free. */
  ghost predicate Has(runs: seq<Run>, p: int) {
    runs != [] && (InRun(runs[0], p) || Has(runs[1..], p))
  }

  /** Address order, no empty run, no two runs that touch. */
  ghost predicate Canonical(runs: seq<Run>) {
    runs == [] ||
    (runs[0].count > 0
     && (|runs| > 1 ==> runs[0].start + runs[0].count < runs[1].start)
     && Canonical(runs[1..]))
  }

  datatype Option = None | Some(page: nat)

  /** rt_page_alloc: the first run that is large enough gives away its first pages. */
  function AllocPages(runs: seq<Run>, n: nat): (Option, seq<Run>) {
    if n == 0 || runs == [] then (None, runs)
    else if runs[0].count > n then
      (Some(runs[0].start), [Run(runs[0].start + n, runs[0].count - n)] + runs[1..])
    else if runs[0].count == n then (Some(runs[0].start), runs[1..])
    else
      var (r, rest) := AllocPages(runs[1..], n);
      (r, [runs[0]] + rest)
  }

  /** rt_page_free: the run joins a neighbour, two neighbours, or stands alone. */
  function FreePages(runs: seq<Run>, n: nat, c: nat): seq<Run> {
    if runs == [] then [Run(n, c)] else
    var b := runs[0];
    if b.start + b.count == n then
      if |runs| > 1 && n + c == runs[1].start then [Run(b.start, b.count + c + runs[1].count)] + runs[2..]
      else [Run(b.start, b.count + c)] + runs[1..]
    else if b.start == n + c then [Run(n, b.count + c)] + runs[1..]
    else if b.start > n + c then [Run(n, c)] + runs
    else [b] + FreePages(runs[1..], n, c)
  }

  /** The page list, changed in place. */
  class Pages {
    var runs: seq<Run>

    constructor ()
      ensures runs == []
    {
      runs := [];
    }

    method Alloc(n: nat) returns (r: Option)
      modifies this
      ensures (r, runs) == AllocPages(old(runs), n)
    {
      r := None;
      if n == 0 {
        return;
      }
      var i := 0;
      assert runs[0..] == runs && [] + AllocPages(runs, n).1 == AllocPages(runs, n).1;
      while i < |runs|
        invariant i <= |runs| && runs == old(runs)
        invariant AllocFrom(runs, i, n)
      {
        var b := runs[i];
        AllocLook(runs, i, n);
        if b.count > n {
          runs := runs[..i] + ([Run(b.start + n, b.count - n)] + runs[i + 1..]);
          return Some(b.start);
        }
        if b.count == n {
          runs := runs[..i] + runs[i + 1..];
          return Some(b.start);
        }
        i := i + 1;
      }
      assert runs[..i] + [] == runs;
    }

    /** The first run that the freed pages touch or come before. */
    method Place(n: nat, c: nat) returns (i: nat)
      ensures FreeFrom(runs, i, n, c)
      ensures i < |runs| ==> runs[i].start + runs[i].count == n || runs[i].start >= n + c
    {
      i := 0;
      FreeLookFirst(runs, n, c);
      while i < |runs| && runs[i].start + runs[i].count != n && runs[i].start < n + c
        invariant FreeFrom(runs, i, n, c)
      {
        FreeLook(runs, i, n, c);
        i := i + 1;
      }
    }

    method Free(n: nat, c: nat)
      modifies this
      ensures runs == FreePages(old(runs), n, c)
    {
      var i := Place(n, c);
      FreeStop(runs, i, n, c);
      if i < |runs| && runs[i].start + runs[i].count == n {
        var b := runs[i];
        if i + 1 < |runs| && n + c == runs[i + 1].start {
          runs := runs[..i] + ([Run(b.start, b.count + c + runs[i + 1].count)] + runs[i + 2..]);
        } else {
          runs := runs[..i] + ([Run(b.start, b.count + c)] + runs[i + 1..]);
        }
      } else if i < |runs| && runs[i].start == n + c {
        runs := runs[..i] + ([Run(n, runs[i].count + c)] + runs[i + 1..]);
      } else {
        runs := runs[..i] + ([Run(n, c)] + runs[i..]);
      }
    }
  }

  /** The search for room has passed the first `i` runs. */
  ghost predicate AllocFrom(runs: seq<Run>, i: nat, n: nat)
    requires i <= |runs|
  {
    AllocPages(runs, n) == (AllocPages(runs[i..], n).0, runs[..i] + AllocPages(runs[i..], n).1)
  }

  lemma AllocLook(runs: seq<Run>, i: nat, n: nat)
    requires i < |runs| && n > 0 && AllocFrom(runs, i, n)
    ensures runs[i].count > n ==>
      AllocPages(runs, n) ==
        (Some(runs[i].start), runs[..i] + ([Run(runs[i].start + n, runs[i].count - n)] + runs[i + 1..]))
    ensures runs[i].count == n ==> AllocPages(runs, n) == (Some(runs[i].start), runs[..i] + runs[i + 1..])
    ensures runs[i].count < n ==> AllocFrom(runs, i + 1, n)
  {
    assert runs[i..][1..] == runs[i + 1..];
    var rest := AllocPages(runs[i + 1..], n).1;
    assert runs[..i] + ([runs[i]] + rest) == runs[..i + 1] + rest;
  }

  /** The search for the place of the freed pages has passed the first `i` runs. */
  ghost predicate FreeFrom(runs: seq<Run>, i: nat, n: nat, c: nat) {
    i <= |runs| && FreePages(runs, n, c) == runs[..i] + FreePages(runs[i..], n, c)
  }

  lemma FreeLookFirst(runs: seq<Run>, n: nat, c: nat)
    ensures FreeFrom(runs, 0, n, c)
  {
    assert runs[0..] == runs;
  }

  lemma FreeLook(runs: seq<Run>, i: nat, n: nat, c: nat)
    requires i < |runs| && FreeFrom(runs, i, n, c)
    requires runs[i].start + runs[i].count != n && runs[i].start < n + c
    ensures FreeFrom(runs, i + 1, n, c)
  {
    assert runs[i..][1..] == runs[i + 1..];
    var rest := FreePages(runs[i + 1..], n, c);
    assert runs[..i] + ([runs[i]] + rest) == runs[..i + 1] + rest;
  }

  lemma FreeStop(runs: seq<Run>, i: nat, n: nat, c: nat)
    requires FreeFrom(runs, i, n, c)
    requires i == |runs| || runs[i].start + runs[i].count == n || runs[i].start >= n + c
    ensures FreePages(runs, n, c) ==
      if i < |runs| && runs[i].start + runs[i].count == n then
        if i + 1 < |runs| && n + c == runs[i + 1].start then
          runs[..i] + ([Run(runs[i].start, runs[i].count + c + runs[i + 1].count)] + runs[i + 2..])
        else runs[..i] + ([Run(runs[i].start, runs[i].count + c)] + runs[i + 1..])
      else if i < |runs| && runs[i].start == n + c then
        runs[..i] + ([Run(n, runs[i].count + c)] + runs[i + 1..])
      else runs[..i] + ([Run(n, c)] + runs[i..])
  {
    var tail := runs[i..];
    if tail != [] {
      assert tail[1..] == runs[i + 1..];
      if |tail| > 1 {
        assert tail[1] == runs[i + 1] && tail[2..] == runs[i + 2..];
      }
    } else {
      assert [Run(n, c)] + tail == [Run(n, c)];
    }
  }

  // ---------------------------------------------------------------- canonical form

  /** Nothing is free below the first run or right behind it. */
  lemma {:induction false} HeadBounds(runs: seq<Run>, p: int)
    requires Canonical(runs) && runs != []
    ensures p < runs[0].start ==> !Has(runs, p)
    ensures Has(runs[1..], p) ==> p > runs[0].start + runs[0].count
  {
    if |runs| > 1 {
      HeadBounds(runs[1..], p);
    }
  }

  /** The list is determined by the set of free pages. */
  lemma {:induction false} CanonicalUnique(a: seq<Run>, b: seq<Run>)
    requires Canonical(a) && Canonical(b)
    requires forall p :: Has(a, p) <==> Has(b, p)
    ensures a == b
  {
    if b != [] {
      var p := b[0].start;
      assert Has(b, p) && Has(a, p);
    }
    if a != [] {
      var p := a[0].start;
      assert Has(a, p) && Has(b, p);
      SameHead(a, b);
      SameHead(b, a);
      assert a[0] == b[0];
      forall p
        ensures Has(a[1..], p) <==> Has(b[1..], p)
      {
        HeadBounds(a, p);
        HeadBounds(b, p);
        assert Has(a, p) <==> Has(b, p);
      }
      CanonicalUnique(a[1..], b[1..]);
    }
  }

  lemma SameHead(a: seq<Run>, b: seq<Run>)
    requires Canonical(a) && Canonical(b) && a != [] && b != []
    requires forall p :: Has(a, p) <==> Has(b, p)
    ensures a[0].start >= b[0].start
    ensures a[0].start == b[0].start ==> a[0].count <= b[0].count
  {
    assert Has(a, a[0].start);
    HeadBounds(b, a[0].start);
    if a[0].start == b[0].start && a[0].count > b[0].count {
      var p := b[0].start + b[0].count;
      assert Has(a, p);
      HeadBounds(b, p);
    }
  }

  /** Allocation takes exactly the pages it returns, from the first run that is large enough. */
  lemma {:induction false} AllocTakes(runs: seq<Run>, n: nat)
    requires Canonical(runs) && n > 0
    ensures var (r, runs') := AllocPages(runs, n);
            && Canonical(runs')
            && (runs' != [] && runs != [] ==> runs'[0].start >= runs[0].start)
            && (r.None? ==> runs' == runs && forall i :: 0 <= i < |runs| ==> runs[i].count < n)
            && (r.Some? ==> FirstRun(runs, n, r.page))
            && forall p :: Has(runs', p) <==> Has(runs, p) && !(r.Some? && r.page <= p < r.page + n)
  {
    if runs != [] {
      var b := runs[0];
      var (r, runs') := AllocPages(runs, n);
      if b.count > n {
        assert runs'[1..] == runs[1..];
        assert FirstRunAt(runs, n, b.start, 0);
        forall p
          ensures Has(runs', p) <==> Has(runs, p) && !(b.start <= p < b.start + n)
        {
          HeadBounds(runs, p);
        }
      } else if b.count == n {
        assert FirstRunAt(runs, n, b.start, 0);
        forall p
          ensures Has(runs', p) <==> Has(runs, p) && !(b.start <= p < b.start + n)
        {
          HeadBounds(runs, p);
        }
      } else {
        AllocTakes(runs[1..], n);
        var (q, rest) := AllocPages(runs[1..], n);
        assert runs'[1..] == rest;
        if q.Some? {
          var k :| FirstRunAt(runs[1..], n, q.page, k);
          assert FirstRunAt(runs, n, q.page, k + 1);
          assert Has(runs[1..], q.page) by { HasAt(runs[1..], k, q.page); }
        }
        forall p
          ensures Has(runs', p) <==> Has(runs, p) && !(r.Some? && r.page <= p < r.page + n)
        {
          HeadBounds(runs, p);
          if q.Some? {
            HeadBounds(runs, q.page);
          }
        }
      }
    }
  }

  ghost predicate FirstRunAt(runs: seq<Run>, n: nat, page: nat, k: int) {
    && 0 <= k < |runs| && runs[k].start == page && runs[k].count >= n
    && (forall i :: 0 <= i < k ==> runs[i].count < n)
  }

  /** `page` starts the first run of at least `n` pages. */
  ghost predicate FirstRun(runs: seq<Run>, n: nat, page: nat) {
    exists k :: FirstRunAt(runs, n, page, k)
  }

  lemma {:induction false} HasAt(runs: seq<Run>, k: nat, p: int)
    requires k < |runs| && InRun(runs[k], p)
    ensures Has(runs, p)
  {
    if k > 0 {
      assert runs[1..][k - 1] == runs[k];
      HasAt(runs[1..], k - 1, p);
    }
  }

  /** None of the pages [n, n + c) is free. */
  ghost predicate Clear(runs: seq<Run>, n: nat, c: nat) {
    forall p :: n <= p < n + c ==> !Has(runs, p)
  }

  /** Freeing adds exactly the pages freed and keeps the canonical form. */
  lemma {:induction false} FreeAdds(runs: seq<Run>, n: nat, c: nat)
    requires Canonical(runs) && c > 0 && Clear(runs, n, c)
    ensures Canonical(FreePages(runs, n, c))
    ensures FreePages(runs, n, c) != []
    ensures FreePages(runs, n, c)[0].start == (if runs == [] || n < runs[0].start then n else runs[0].start)
    ensures forall p :: Has(FreePages(runs, n, c), p) <==> Has(runs, p) || n <= p < n + c
  {
    var t := FreePages(runs, n, c);
    if runs != [] {
      var b := runs[0];
      assert Has(runs, b.start) && Has(runs, b.start + b.count - 1);
      if b.start + b.count == n {
        FreeBehind(runs, n, c);
      } else if b.start == n + c || b.start > n + c {
        assert t[1..] == if b.start == n + c then runs[1..] else runs;
      } else {
        assert Has(runs, n) <==> n < b.start + b.count || Has(runs[1..], n);
        assert n > b.start + b.count;
        assert Clear(runs[1..], n, c) by {
          forall p | n <= p < n + c
            ensures !Has(runs[1..], p)
          {
            assert !Has(runs, p);
          }
        }
        FreeAdds(runs[1..], n, c);
        assert t[1..] == FreePages(runs[1..], n, c);
      }
    } else {
      assert t[1..] == [];
    }
  }

  /** The freed pages lie right behind the first run. */
  lemma FreeBehind(runs: seq<Run>, n: nat, c: nat)
    requires Canonical(runs) && c > 0 && Clear(runs, n, c) && runs != [] && runs[0].start + runs[0].count == n
    ensures Canonical(FreePages(runs, n, c)) && FreePages(runs, n, c) != []
    ensures FreePages(runs, n, c)[0].start == runs[0].start
    ensures forall p :: Has(FreePages(runs, n, c), p) <==> Has(runs, p) || n <= p < n + c
  {
    var t, b := FreePages(runs, n, c), runs[0];
    if |runs| > 1 {
      assert runs[1..][0] == runs[1];
      assert Has(runs[1..], runs[1].start) && Has(runs, runs[1].start);
      assert runs[1].start >= n + c;
      if n + c == runs[1].start {
        assert t[1..] == runs[2..] == runs[1..][1..];
        if |runs| > 2 {
          assert runs[1..][1] == runs[2];
        }
      } else {
        assert t[1..] == runs[1..];
      }
    } else {
      assert t[1..] == [];
    }
  }

  /** Allocating pages and freeing them again restores the same list. */
  lemma AllocFreeRoundTrip(runs: seq<Run>, n: nat)
    requires Canonical(runs) && n > 0 && AllocPages(runs, n).0.Some?
    ensures var (r, runs') := AllocPages(runs, n); FreePages(runs', r.page, n) == runs
  {
    var (r, runs') := AllocPages(runs, n);
    AllocTakes(runs, n);
    AllocFrees(runs, n);
    FreeAdds(runs', r.page, n);
    CanonicalUnique(FreePages(runs', r.page, n), runs);
  }

  /** The order in which two runs are freed does not matter. */
  lemma FreeCommutes(runs: seq<Run>, n: nat, c: nat, m: nat, d: nat)
    requires Canonical(runs) && c > 0 && d > 0 && Clear(runs, n, c) && Clear(runs, m, d)
    requires n + c <= m || m + d <= n
    ensures FreePages(FreePages(runs, n, c), m, d) == FreePages(FreePages(runs, m, d), n, c)
  {
    FreeAdds(runs, n, c);
    FreeAdds(runs, m, d);
    FreeAdds(FreePages(runs, n, c), m, d);
    FreeAdds(FreePages(runs, m, d), n, c);
    CanonicalUnique(FreePages(FreePages(runs, n, c), m, d), FreePages(FreePages(runs, m, d), n, c));
  }

  // ---------------------------------------------------------------- pages handed out

  /** Page `p` belongs to the block handed out at `q`. */
  ghost predicate Within(blocks: map<nat, nat>, q: nat, p: int) {
    q in blocks && q <= p < q + blocks[q]
  }

  ghost predicate Held(blocks: map<nat, nat>, p: int) {
    exists q :: Within(blocks, q, p)
  }

  ghost predicate ApartAt(blocks: map<nat, nat>, p: nat, q: nat)
    requires p in blocks && q in blocks
  {
    p + blocks[p] <= q || q + blocks[q] <= p
  }

  /** `blocks` were handed out of the pages free in `pool`; what is left is `runs`. */
  ghost predicate PagesOk(pool: seq<Run>, runs: seq<Run>, blocks: map<nat, nat>) {
    && Canonical(runs)
    && (forall q :: q in blocks ==> blocks[q] > 0)
    && (forall p, q :: p in blocks && q in blocks && p != q ==> ApartAt(blocks, p, q))
    && (forall p :: Has(runs, p) ==> !Held(blocks, p))
    && (forall p :: Has(pool, p) <==> Has(runs, p) || Held(blocks, p))
  }

  /** Pages just taken are nobody else's, and none goes missing. */
  lemma AllocHeld(pool: seq<Run>, runs: seq<Run>, blocks: map<nat, nat>, n: nat)
    requires PagesOk(pool, runs, blocks) && n > 0 && AllocPages(runs, n).0.Some?
    ensures var (r, runs') := AllocPages(runs, n);
            r.page !in blocks && PagesOk(pool, runs', blocks[r.page := n])
  {
    var (r, runs') := AllocPages(runs, n);
    var p := r.page;
    AllocTakes(runs, n);
    AllocFrees(runs, n);
    var blocks' := blocks[p := n];
    assert !Held(blocks, p);
    assert p !in blocks by {
      if p in blocks {
        assert Within(blocks, p, p);
      }
    }
    forall q | q in blocks
      ensures ApartAt(blocks', p, q)
    {
      if q > p {
        assert Within(blocks, q, q);
        assert !Has(runs, q);
      } else {
        assert !Within(blocks, q, p);
      }
    }
    forall x: int
      ensures Held(blocks', x) <==> Held(blocks, x) || p <= x < p + n
    {
      if Held(blocks, x) {
        var q :| Within(blocks, q, x);
        assert Within(blocks', q, x);
      }
      if p <= x < p + n {
        assert Within(blocks', p, x);
      }
      if Held(blocks', x) {
        var q :| Within(blocks', q, x);
        assert q == p || Within(blocks, q, x);
      }
    }
  }

  /** The pages an allocation returns were free. */
  lemma AllocFrees(runs: seq<Run>, n: nat)
    requires Canonical(runs) && n > 0 && AllocPages(runs, n).0.Some?
    ensures var p := AllocPages(runs, n).0.page; forall x :: p <= x < p + n ==> Has(runs, x)
  {
    AllocTakes(runs, n);
    var p := AllocPages(runs, n).0.page;
    var k :| FirstRunAt(runs, n, p, k);
    forall x | p <= x < p + n
      ensures Has(runs, x)
    {
      HasAt(runs, k, x);
    }
  }

  /** Pages given back are free again, and every other block keeps its own. */
  lemma FreeHeld(pool: seq<Run>, runs: seq<Run>, blocks: map<nat, nat>, p: nat)
    requires PagesOk(pool, runs, blocks) && p in blocks
    ensures PagesOk(pool, FreePages(runs, p, blocks[p]), blocks - {p})
  {
    var n := blocks[p];
    forall x | p <= x < p + n
      ensures !Has(runs, x)
    {
      assert Within(blocks, p, x);
    }
    FreeAdds(runs, p, n);
    var blocks' := blocks - {p};
    forall q, r | q in blocks' && r in blocks' && q != r
      ensures ApartAt(blocks', q, r)
    {
      assert ApartAt(blocks, q, r);
    }
    forall x: int
      ensures Held(blocks', x) <==> Held(blocks, x) && !(p <= x < p + n)
    {
      if Held(blocks', x) {
        var q :| Within(blocks', q, x);
        assert Within(blocks, q, x) && ApartAt(blocks, p, q);
      }
      if Held(blocks, x) {
        var q :| Within(blocks, q, x);
        assert q == p || Within(blocks', q, x);
      }
    }
    forall x: int
      ensures Has(pool, x) <==> Has(FreePages(runs, p, n), x) || Held(blocks', x)
    {
      assert p <= x < p + n <==> Within(blocks, p, x);
    }
  }
}
