/**
 The zone allocator as it works on its variables: rt_malloc, rt_free and rt_realloc of slab.c.
 */
module SlabObject {
  import opened Links
  import opened WaitLists
  import opened PageList
  import opened SlabIndex
  import opened Slab
  import opened SlabSteps
  import opened SlabRuns

  class SlabHeap {
    const zp: nat
    const pages: Pages
    ghost const pool: seq<Run>
    var usage: map<nat, Usage>
    var zones: map<nat, Zone>
    var lists: seq<seq<nat>>
    var spare: seq<nat>
    var spareCnt: nat
    var used: int
    var max: int
    ghost var large: map<nat, nat>
    ghost var live: map<nat, nat>

    ghost function State(): Heap
      reads this, pages
    {
      Heap(zp, pages.runs, usage, zones, lists, spare, spareCnt, used, max, large, live)
    }

    constructor (firstPage: nat, count: nat, zp: nat)
      requires ZonePages(zp) && count > 0
      ensures fresh(pages) && pool == [Run(firstPage, count)] && State() == Initial(pool, zp)
      ensures Inv(pool, State())
    {
      this.zp := zp;
      pool := [Run(firstPage, count)];
      var p := new Pages();
      p.Free(firstPage, count);
      pages := p;
      usage, zones, lists := map[], map[], seq(CLASSES, _ => []);
      spare, spareCnt, used, max := [], 0, 0, 0;
      large, live := map[], map[];
      new;
      InitialInv(pool, zp);
    }

    /** The statistics after handing out `n` bytes at `a`. */
    method Grant(a: nat, n: nat)
      modifies this`used, this`max, this`live
      ensures State() == Granted(old(State()), a, n)
    {
      used := used + n;
      if used > max {
        max := used;
      }
      live := live[a := n];
    }

    method AllocLarge(n: nat) returns (r: Result)
      modifies this`usage, this`used, this`max, this`large, this`live, pages
      ensures (r, State()) == TakeLarge(old(State()), n)
    {
      var p := pages.Alloc(n);
      match p
      case None => r := Null;
        assert State() == old(State()) by { NoPages(old(pages.runs), n); }
      case Some(page) =>
        usage := usage[page := LargePage(n)];
        large := large[page := n];
        Grant(page * PAGE, n * PAGE);
        r := At(page * PAGE);
    }

    method AllocFromHead(k: nat) returns (r: Result)
      requires k < |lists| && lists[k] != [] && lists[k][0] in zones
      requires var e := zones[lists[k][0]]; e.uindex + 1 == e.nmax ==> e.free != []
      modifies this`zones, this`lists, this`used, this`max, this`live
      ensures (r, State()) == TakeChunk(old(State()), k)
    {
      var z := lists[k][0];
      var e := zones[z];
      e := e.(nfree := e.nfree - 1);
      if e.nfree == 0 {
        lists := lists[k := lists[k][1..]];
      }
      var i;
      if e.uindex + 1 != e.nmax {
        i := e.uindex + 1;
        e := e.(uindex := i);
      } else {
        i := e.free[0];
        e := e.(free := e.free[1..]);
      }
      zones := zones[z := e];
      Grant(Addr(z, e.chunk, i), e.chunk);
      r := At(Addr(z, e.chunk, i));
    }

    method MarkZone(p: nat)
      modifies this`usage
      ensures usage == Marked(old(usage), p, zp)
    {
      var off := 0;
      while off < zp
        invariant off <= zp && usage == Marked(old(usage), p, off)
      {
        usage := usage[p + off := SmallPage(off)];
        off := off + 1;
      }
    }

    method UnmarkZone(p: nat)
      modifies this`usage
      ensures usage == Unmarked(old(usage), p, zp)
    {
      var off := 0;
      while off < zp
        invariant off <= zp && usage == Unmarked(old(usage), p, off)
      {
        usage := usage[p + off := FreePage];
        off := off + 1;
      }
    }

    /** A zone from the kept-back ones, or from the page allocator. */
    method FindZone() returns (ok: bool, z: nat)
      requires spareCnt == |spare|
      modifies this`spare, this`spareCnt, this`usage, pages
      ensures var h := old(State());
              var g := if h.spare == [] then AddSpare(h) else h;
              && (ok <==> g.spare != [])
              && (!ok ==> State() == h)
              && (ok ==> g.spareCnt > 0 && z == g.spare[0])
              && (ok ==> State() == g.(spare := g.spare[1..], spareCnt := g.spareCnt - 1))
    {
      ok, z := true, 0;
      if spare != [] {
        z := spare[0];
        spare, spareCnt := spare[1..], spareCnt - 1;
      } else {
        var p := pages.Alloc(zp);
        if p.None? {
          NoPages(old(pages.runs), zp);
          return false, 0;
        }
        z := p.page;
        MarkZone(z);
        assert ([z] + old(spare))[1..] == spare;
      }
    }

    /** A new zone for class `k`, with its first chunk handed out. */
    method AllocFromNewZone(k: nat, chunk: pos) returns (r: Result)
      requires ZonePages(zp) && k < |lists| && spareCnt == |spare|
      modifies this, pages
      ensures var h := old(State());
              var g := if h.spare == [] then AddSpare(h) else h;
              (r, State()) == if g.spare == [] then (Null, h) else OpenZone(g, k, chunk)
    {
      var ok, z := FindZone();
      if !ok {
        return Null;
      }
      var nmax: int := Capacity(zp, chunk);
      zones := zones[z := Zone(k, chunk, nmax, nmax - 1, 0, [])];
      lists := lists[k := [z] + lists[k]];
      Grant(Addr(z, chunk, 0), chunk);
      r := At(Addr(z, chunk, 0));
    }

    /** rt_malloc. */
    method Malloc(size: nat) returns (r: Result)
      requires Inv(pool, State())
      modifies this, pages
      ensures (r, State()) == Slab.Malloc(pool, old(State()), size)
      ensures Inv(pool, State())
    {
      ghost var h := State();
      MallocSound(pool, h, size);
      if size == 0 {
        return Null;
      }
      if size >= Limit(zp) {
        r := AllocLarge(RoundUp(size, PAGE) / PAGE);
        return;
      }
      ClassBelowLimit(zp, size);
      var (k, chunk) := ZoneIndex(size);
      if lists[k] != [] {
        HeadZone(h, k);
        r := AllocFromHead(k);
      } else {
        r := AllocFromNewZone(k, chunk);
      }
    }

    method FreeLarge(p: nat)
      requires p in large && p in usage && usage[p] == LargePage(large[p])
      requires p * PAGE in live && live[p * PAGE] == large[p] * PAGE
      modifies this`usage, this`used, this`large, this`live, pages
      ensures State() == GiveLarge(old(State()), p)
    {
      var n := usage[p].pages;
      usage := usage[p := LargePage(0)];
      used := used - n * PAGE;
      large, live := large - {p}, live - {p * PAGE};
      pages.Free(p, n);
    }

    method FreeChunk(z: nat, i: nat)
      requires z in zones && zones[z].index < |lists|
      requires Addr(z, zones[z].chunk, i) in live && live[Addr(z, zones[z].chunk, i)] == zones[z].chunk
      modifies this`zones, this`lists, this`used, this`live
      ensures State() == GiveChunk(old(State()), z, i)
    {
      var e := zones[z];
      used := used - e.chunk;
      live := live - {Addr(z, e.chunk, i)};
      if e.nfree == 0 {
        lists := lists[e.index := [z] + lists[e.index]];
      }
      zones := zones[z := e.(free := [i] + e.free, nfree := e.nfree + 1)];
    }

    /** The walk over the class list that takes a zone out of it. */
    method Unlink(k: nat, z: nat)
      requires k < |lists| && z in lists[k] && Distinct(lists[k])
      modifies this`lists
      ensures lists == old(lists)[k := Without(old(lists)[k], z)]
    {
      var list := lists[k];
      var i := 0;
      while list[i] != z
        invariant i < |list| && z !in list[..i]
        decreases |list| - i
      {
        i := i + 1;
        assert list == list[..i] + list[i..] && list[..i] == list[..i - 1] + [list[i - 1]];
      }
      WithoutAt(list, i, z);
      lists := lists[k := list[..i] + list[i + 1..]];
    }

    method RetireZone(z: nat)
      requires z in zones && zones[z].index < |lists| && Distinct(lists[zones[z].index])
      requires zones[z].nfree > 0 ==> z in lists[zones[z].index]
      requires zones[z].nmax > 0
      modifies this`zones, this`lists, this`spare, this`spareCnt
      ensures State() == Retire(old(State()), z)
    {
      var e := zones[z];
      if e.nfree == e.nmax && lists[e.index] != [z] {
        Unlink(e.index, z);
        zones := zones - {z};
        spare, spareCnt := [z] + spare, spareCnt + 1;
      }
    }

    method ReleaseZone()
      requires spareCnt == |spare|
      modifies this`spare, this`spareCnt, this`usage, pages
      ensures State() == ReleaseSpare(old(State()))
    {
      if spareCnt > 2 {
        var z := spare[0];
        spare, spareCnt := spare[1..], spareCnt - 1;
        UnmarkZone(z);
        pages.Free(z, zp);
      }
    }

    method FreeSmall(z: nat, i: nat)
      requires Inv(pool, State()) && z in zones && i < zones[z].nmax && zones[z].index < |lists|
      requires Addr(z, zones[z].chunk, i) in live && live[Addr(z, zones[z].chunk, i)] == zones[z].chunk
      modifies this, pages
      ensures State() == ReleaseSpare(Retire(GiveChunk(old(State()), z, i), z))
    {
      ghost var h := State();
      ghost var g := GiveChunk(h, z, i);
      ChunkGiven(pool, h, z, i);
      GivenZone(h, z, i);
      KeptCount(pool, g, z);
      FreeChunk(z, i);
      assert State() == g;
      RetireZone(z);
      ReleaseZone();
    }

    /** rt_free; the null pointer changes nothing. */
    method Free(p: Result)
      requires Inv(pool, State()) && (p.At? ==> p.addr in live)
      modifies this, pages
      ensures State() == if p.At? then Slab.Free(pool, old(State()), p.addr) else old(State())
      ensures Inv(pool, State())
    {
      if p.At? {
        FreeObject(p.addr);
      }
    }

    /** rt_free of an address that is out. */
    method FreeObject(a: nat)
      requires Inv(pool, State()) && a in live
      modifies this, pages
      ensures State() == Slab.Free(pool, old(State()), a)
      ensures Inv(pool, State())
    {
      ghost var h := State();
      FreeSound(pool, h, a);
      ghost var h' := Slab.Free(pool, h, a);
      FreeCases(pool, h, a, h');
      match Decode(usage, zones, a)
      case Whole(p) =>
        FreeLarge(p);
        assert State() == h';
      case Chunk(z, i) =>
        FreeSmall(z, i);
        assert State() == h';
      case Unknown =>
    }

    /** rt_realloc, with the number of bytes it copies; without an old object it is rt_malloc. */
    method Realloc(p: Result, size: nat) returns (r: Result, copied: nat)
      requires Inv(pool, State()) && (p.At? ==> p.addr in live)
      modifies this, pages
      ensures p.Null? ==> (r, State()) == Slab.Malloc(pool, old(State()), size) && copied == 0
      ensures p.At? ==> (r, State(), copied) == SlabRuns.Realloc(pool, old(State()), p.addr, size)
      ensures Inv(pool, State())
    {
      if p.Null? {
        r := Malloc(size);
        copied := 0;
      } else {
        r, copied := ReallocObject(p.addr, size);
      }
    }

    /** rt_realloc of an address that is out. */
    method ReallocObject(a: nat, size: nat) returns (r: Result, copied: nat)
      requires Inv(pool, State()) && a in live
      modifies this, pages
      ensures (r, State(), copied) == SlabRuns.Realloc(pool, old(State()), a, size)
      ensures Inv(pool, State())
    {
      ghost var h := State();
      if size == 0 {
        FreeObject(a);
        return Null, 0;
      }
      OldSize(h, a);
      r, copied := Null, 0;
      match Decode(usage, zones, a)
      case Whole(p) => r, copied := MoveTo(a, usage[p].pages * PAGE, size);
      case Chunk(z, i) =>
        var n := Rounded(size);
        RoundedCovers(size);
        if zones[z].chunk == n {
          return At(a), 0;
        }
        r, copied := MoveTo(a, zones[z].chunk, n);
      case Unknown =>
    }

    /** A new object is obtained, the contents are copied, and the old object is given back. */
    method MoveTo(a: nat, oldSize: nat, n: nat) returns (r: Result, copied: nat)
      requires Inv(pool, State()) && a in live && live[a] == oldSize && n > 0
      modifies this, pages
      ensures (r, State(), copied) == Move(pool, old(State()), a, n)
      ensures Inv(pool, State())
    {
      ghost var h := State();
      MoveCases(pool, h, a, n);
      r := Malloc(n);
      copied := 0;
      if r.At? {
        copied := if n > oldSize then oldSize else n;
        FreeObject(a);
      }
    }
  }

  lemma MoveCases(pool: seq<Run>, h: Heap, a: nat, n: nat)
    requires Inv(pool, h) && a in h.live && n > 0
    ensures var (r, g) := Slab.Malloc(pool, h, n);
            && Inv(pool, g)
            && (r.Null? ==> Move(pool, h, a, n) == (Null, g, 0))
            && (r.At? ==> a in g.live && Move(pool, h, a, n) == (r, Slab.Free(pool, g, a), Min(n, h.live[a])))
  {
    MallocSound(pool, h, n);
  }

  lemma FreeCases(pool: seq<Run>, h: Heap, a: nat, h': Heap)
    requires Core(pool, h) && a in h.live && h' == Slab.Free(pool, h, a)
    ensures match Decode(h.usage, h.zones, a)
            case Whole(p) =>
              && p in h.large && p in h.usage && h.usage[p] == LargePage(h.large[p])
              && p * PAGE in h.live && h.live[p * PAGE] == h.large[p] * PAGE && h' == GiveLarge(h, p)
            case Chunk(z, i) =>
              && z in h.zones && i < h.zones[z].nmax && h.zones[z].index < |h.lists|
              && Addr(z, h.zones[z].chunk, i) in h.live && h.live[Addr(z, h.zones[z].chunk, i)] == h.zones[z].chunk
              && z in GiveChunk(h, z, i).zones
              && Retire(GiveChunk(h, z, i), z).spareCnt == |Retire(GiveChunk(h, z, i), z).spare|
              && h' == ReleaseSpare(Retire(GiveChunk(h, z, i), z))
            case Unknown => false
  {
    OldSize(h, a);
    assert Known(h, a);
    match Decode(h.usage, h.zones, a)
    case Whole(p) =>
    case Chunk(z, i) =>
      ChunkGiven(pool, h, z, i);
      KeptCount(pool, GiveChunk(h, z, i), z);
    case Unknown =>
  }

  lemma GivenZone(h: Heap, z: nat, i: nat)
    requires ListsOk(h.lists, h.zones) && ZonesOk(h.zp, h.zones) && z in h.zones && h.zones[z].index < |h.lists|
    requires Addr(z, h.zones[z].chunk, i) in h.live
    requires var g := GiveChunk(h, z, i); ListsOk(g.lists, g.zones)
    ensures var g := GiveChunk(h, z, i);
            && z in g.zones && g.zones[z].index == h.zones[z].index && g.zones[z].nmax > 0
            && Distinct(g.lists[g.zones[z].index])
            && (g.zones[z].nfree > 0 ==> z in g.lists[g.zones[z].index])
  {
    var g := GiveChunk(h, z, i);
    var k := g.zones[z].index;
    assert ZoneOk(h.zp, h.zones[z]);
    assert ListedAt(g.lists[k], g.zones, k, z);
  }

  lemma KeptCount(pool: seq<Run>, g: Heap, z: nat)
    requires Core(pool, g) && z in g.zones && g.zones[z].index < |g.lists|
    ensures z in g.zones && Retire(g, z).spareCnt == |Retire(g, z).spare|
  {
    ZoneRetired(pool, g, z);
  }

  lemma {:induction false} NoPages(runs: seq<Run>, n: nat)
    requires AllocPages(runs, n).0.None?
    ensures AllocPages(runs, n).1 == runs
  {
    if n > 0 && runs != [] {
      NoPages(runs[1..], n);
    }
  }

  lemma {:induction false} WithoutAt(s: seq<nat>, i: nat, z: nat)
    requires i < |s| && s[i] == z && Distinct(s)
    ensures Without(s, z) == s[..i] + s[i + 1..]
  {
    if i == 0 {
      assert z !in s[1..];
      WithoutDistinct(s[1..], z);
    } else {
      WithoutAt(s[1..], i - 1, z);
      assert s[..i] + s[i + 1..] == [s[0]] + (s[1..][..i - 1] + s[1..][i..]);
    }
  }
}
