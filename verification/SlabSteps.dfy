/**
 Every step of the zone allocator keeps the invariant.
 */
module SlabSteps {
  import opened Links
  import opened WaitLists
  import opened PageList
  import opened SlabIndex
  import opened Slab

  // ---------------------------------------------------------------- sums

  lemma {:induction false} TotalRemove(m: map<nat, nat>, a: nat)
    requires a in m
    ensures Total(m) == m[a] + Total(m - {a})
  {
    var k :| k in m && Total(m) == m[k] + Total(m - {k});
    if k != a {
      TotalRemove(m - {k}, a);
      TotalRemove(m - {a}, k);
      assert m - {k} - {a} == m - {a} - {k};
    }
  }

  lemma TotalAdd(m: map<nat, nat>, a: nat, n: nat)
    requires a !in m
    ensures Total(m[a := n]) == Total(m) + n
  {
    TotalRemove(m[a := n], a);
    assert m[a := n] - {a} == m;
  }

  // ---------------------------------------------------------------- addresses

  /** From the address of a chunk the allocator finds the chunk again. */
  lemma ChunkDecodes(h: Heap, z: nat, i: nat)
    requires ZonesOk(h.zp, h.zones) && UsageOk(h) && z in h.zones && i < h.zones[z].nmax
    ensures var a := Addr(z, h.zones[z].chunk, i);
            && Decode(h.usage, h.zones, a) == Chunk(z, i)
            && z * PAGE + HEADER <= a && a + h.zones[z].chunk <= (z + h.zp) * PAGE
            && z <= a / PAGE < z + h.zp
  {
    var e := h.zones[z];
    assert ZoneOk(h.zp, e);
    ClassBounds(e.index);
    ChunkInside(h.zp, e.chunk, i);
    var a := Addr(z, e.chunk, i);
    var o := a / PAGE - z;
    assert SmallAt(h.usage, z, o);
    QuotTimes(i, e.chunk);
  }

  lemma LargeDecodes(h: Heap, p: nat)
    requires UsageOk(h) && p in h.large
    ensures Decode(h.usage, h.zones, p * PAGE) == Whole(p)
  {
  }

  /** The page of a live address belongs to a block. */
  lemma LivePage(h: Heap, a: nat)
    requires ZonesOk(h.zp, h.zones) && UsageOk(h) && LiveOk(h) && a in h.live
    ensures Known(h, a)
    ensures match Decode(h.usage, h.zones, a)
            case Whole(p) => a / PAGE == p
            case Chunk(z, i) => z <= a / PAGE < z + h.zp
            case Unknown => false
  {
    assert Known(h, a);
    match Decode(h.usage, h.zones, a)
    case Whole(p) =>
    case Chunk(z, i) => ChunkDecodes(h, z, i);
    case Unknown =>
  }

  /** Pages [p, p + n) belong to no block. */
  ghost predicate Unheld(h: Heap, p: nat, n: nat) {
    && (forall z :: z in h.zones || z in h.spare ==> z + h.zp <= p || p + n <= z)
    && (forall q :: q in h.large ==> q < p || p + n <= q)
  }

  /** Usage entries of pages in no block do not matter. */
  lemma UsageFrame(h: Heap, h': Heap, p: nat, n: nat)
    requires ZonesOk(h.zp, h.zones) && UsageOk(h) && LiveOk(h) && Unheld(h, p, n)
    requires h' == h.(runs := h'.runs, usage := h'.usage) && UnchangedBeyond(h.usage, h'.usage, p, n)
    ensures UsageOk(h') && LiveOk(h')
  {
    forall z, o | (z in h.zones || z in h.spare) && 0 <= o < h.zp
      ensures SmallAt(h'.usage, z, o)
    {
      assert SmallAt(h.usage, z, o);
    }
    forall q | q in h.large
      ensures LargeAt(h', q)
    {
      assert LargeAt(h, q);
    }
    forall a | a in h.live
      ensures Known(h', a)
    {
      KnownFrame(h, h', p, n, a);
    }
  }

  lemma KnownFrame(h: Heap, h': Heap, p: nat, n: nat, a: nat)
    requires ZonesOk(h.zp, h.zones) && UsageOk(h) && LiveOk(h) && Unheld(h, p, n) && a in h.live
    requires h' == h.(runs := h'.runs, usage := h'.usage) && UnchangedBeyond(h.usage, h'.usage, p, n)
    ensures Known(h', a)
  {
    LivePage(h, a);
  }

  lemma AllocatedUnheld(pool: seq<Run>, h: Heap, n: nat)
    requires Core(pool, h) && n > 0 && AllocPages(h.runs, n).0.Some?
    ensures var (r, runs') := AllocPages(h.runs, n);
            r.page !in Blocks(h) && Unheld(h, r.page, n) && PagesOk(pool, runs', Blocks(h)[r.page := n])
  {
    AllocHeld(pool, h.runs, Blocks(h), n);
    var p := AllocPages(h.runs, n).0.page;
    var blocks := Blocks(h)[p := n];
    forall z | z in h.zones || z in h.spare
      ensures z + h.zp <= p || p + n <= z
    {
      assert z in Blocks(h) && ApartAt(blocks, p, z);
      assert z !in h.large;
    }
    forall q | q in h.large
      ensures q < p || p + n <= q
    {
      assert q in Blocks(h) && ApartAt(blocks, p, q);
    }
  }

  // ---------------------------------------------------------------- whole pages

  lemma LargeTaken(pool: seq<Run>, h: Heap, n: nat)
    requires Core(pool, h) && n > 0
    ensures var (r, h') := TakeLarge(h, n);
            && Core(pool, h')
            && (r.Null? ==> h' == h && AllocPages(h.runs, n).0.None?)
            && (r.At? ==> r.addr !in h.live && h'.live == h.live[r.addr := n * PAGE] && h'.spare == h.spare)
  {
    if TakeLarge(h, n).0.At? {
      LargeTakenPages(pool, h, n);
      LargeTakenMemory(pool, h, n);
    }
  }

  lemma LargeTakenPages(pool: seq<Run>, h: Heap, n: nat)
    requires Core(pool, h) && n > 0 && TakeLarge(h, n).0.At?
    ensures var h' := TakeLarge(h, n).1; KeysOk(h') && PagesOk(pool, h'.runs, Blocks(h'))
  {
    var h' := TakeLarge(h, n).1;
    var p := AllocPages(h.runs, n).0.page;
    AllocatedUnheld(pool, h, n);
    LargeBlocks(h, h', p, n);
  }

  lemma LargeBlocks(h: Heap, h': Heap, p: nat, n: nat)
    requires KeysOk(h) && p !in Blocks(h) && h'.large == h.large[p := n]
    requires h'.zp == h.zp && h'.zones == h.zones && h'.spare == h.spare && h'.spareCnt == h.spareCnt
    ensures KeysOk(h') && Blocks(h') == Blocks(h)[p := n]
  {
  }

  lemma LargeTakenMemory(pool: seq<Run>, h: Heap, n: nat)
    requires Core(pool, h) && n > 0 && TakeLarge(h, n).0.At?
    ensures var (r, h') := TakeLarge(h, n);
            r.addr !in h.live && UsageOk(h') && LiveOk(h') && h'.used == Total(h'.live)
  {
    var h' := TakeLarge(h, n).1;
    var p := AllocPages(h.runs, n).0.page;
    AllocatedUnheld(pool, h, n);
    var g := h.(runs := h'.runs, usage := h'.usage);
    UsageFrame(h, g, p, n);
    NewLarge(h, g, h', p, n);
    TotalAdd(h.live, p * PAGE, n * PAGE);
  }

  lemma NewLarge(h: Heap, g: Heap, h': Heap, p: nat, n: nat)
    requires ZonePages(h.zp) && ZonesOk(h.zp, h.zones) && UsageOk(h) && LiveOk(h) && Unheld(h, p, n) && n > 0
    requires UsageOk(g) && LiveOk(g) && g.zones == h.zones && g.live == h.live && g.spare == h.spare
    requires g.large == h.large && g.zp == h.zp && p in g.usage && g.usage[p] == LargePage(n)
    requires h' == Granted(g.(large := g.large[p := n]), p * PAGE, n * PAGE)
    ensures p * PAGE !in h.live && UsageOk(h') && LiveOk(h')
  {
    var a := p * PAGE;
    assert a !in h.live by {
      if a in h.live {
        LivePage(h, a);
      }
    }
    forall q | q in h'.large
      ensures LargeAt(h', q)
    {
      assert q != p ==> LargeAt(g, q);
    }
    forall b | b in h'.live
      ensures Known(h', b)
    {
      assert b != a ==> Known(g, b);
    }
    forall z, i | z in h'.zones && 0 <= i < h'.zones[z].nmax
      ensures SlotOk(h'.live, z, h'.zones[z], i)
    {
      assert SlotOk(g.live, z, g.zones[z], i);
      ChunkDecodes(g, z, i);
    }
  }

  lemma LargeGiven(pool: seq<Run>, h: Heap, p: nat)
    requires Core(pool, h) && p in h.large && p * PAGE in h.live
    ensures Core(pool, GiveLarge(h, p)) && GiveLarge(h, p).live == h.live - {p * PAGE}
  {
    LargeGivenPages(pool, h, p);
    LargeGivenMemory(h, p);
    TotalRemove(h.live, p * PAGE);
  }

  lemma LargeGivenPages(pool: seq<Run>, h: Heap, p: nat)
    requires Core(pool, h) && p in h.large && p * PAGE in h.live
    ensures var h' := GiveLarge(h, p); PagesOk(pool, h'.runs, Blocks(h'))
  {
    FreeHeld(pool, h.runs, Blocks(h), p);
    LargeBlocksLess(h, GiveLarge(h, p), p);
  }

  lemma LargeBlocksLess(h: Heap, h': Heap, p: nat)
    requires KeysOk(h) && p in h.large && h'.large == h.large - {p}
    requires h'.zp == h.zp && h'.zones == h.zones && h'.spare == h.spare
    ensures Blocks(h') == Blocks(h) - {p}
  {
  }

  lemma LargeGivenMemory(h: Heap, p: nat)
    requires ZonesOk(h.zp, h.zones) && KeysOk(h) && UsageOk(h) && LiveOk(h) && p in h.large && p * PAGE in h.live
    ensures UsageOk(GiveLarge(h, p)) && LiveOk(GiveLarge(h, p))
  {
    var h' := GiveLarge(h, p);
    forall z, o | (z in h.zones || z in h.spare) && 0 <= o < h.zp
      ensures SmallAt(h'.usage, z, o)
    {
      assert SmallAt(h.usage, z, o);
    }
    forall q | q in h'.large
      ensures LargeAt(h', q)
    {
      assert LargeAt(h, q);
    }
    forall b | b in h'.live
      ensures Known(h', b)
    {
      LargeGivenKnown(h, p, b);
    }
    forall z, i | z in h'.zones && 0 <= i < h'.zones[z].nmax
      ensures SlotOk(h'.live, z, h'.zones[z], i)
    {
      LargeGivenSlot(h, p, z, i);
    }
  }

  lemma LargeGivenKnown(h: Heap, p: nat, b: nat)
    requires ZonesOk(h.zp, h.zones) && KeysOk(h) && UsageOk(h) && LiveOk(h) && p in h.large && p * PAGE in h.live
    requires b in h.live && b != p * PAGE
    ensures Known(GiveLarge(h, p), b)
  {
    LivePage(h, b);
    if b / PAGE == p {
      NotInZone(h, p, b);
    } else {
      KnownElsewhere(h, p, b);
    }
  }

  lemma KnownElsewhere(h: Heap, p: nat, b: nat)
    requires p in h.large && p * PAGE in h.live && Known(h, b) && b / PAGE != p
    ensures Known(GiveLarge(h, p), b)
  {
    var h' := GiveLarge(h, p);
    assert Decode(h'.usage, h'.zones, b) == Decode(h.usage, h.zones, b);
  }

  /** The first page of a large object is no page of a zone. */
  lemma NotInZone(h: Heap, p: nat, b: nat)
    requires UsageOk(h) && p in h.large && b / PAGE == p
    ensures Decode(h.usage, h.zones, b) == Whole(p)
  {
  }

  lemma LargeGivenSlot(h: Heap, p: nat, z: nat, i: nat)
    requires ZonesOk(h.zp, h.zones) && UsageOk(h) && LiveOk(h) && p in h.large && p * PAGE in h.live
    requires z in h.zones && i < h.zones[z].nmax
    ensures SlotOk(h.live - {p * PAGE}, z, h.zones[z], i)
  {
    assert SlotOk(h.live, z, h.zones[z], i);
    ChunkDecodes(h, z, i);
    LargeDecodes(h, p);
  }

  // ---------------------------------------------------------------- chunks

  ghost predicate SameLayout(e: Zone, e': Zone) {
    e'.chunk == e.chunk && e'.nmax == e.nmax && e'.index == e.index
  }

  lemma PickOk(zp: nat, e: Zone)
    requires ZoneOk(zp, e) && e.nfree > 0
    ensures e.uindex + 1 == e.nmax ==> e.free != []
    ensures var (i, e') := Pick(e);
            && ZoneOk(zp, e') && SameLayout(e, e') && i < e.nmax && !Out(e, i) && e'.nfree == e.nfree - 1
            && (forall j :: Out(e', j) <==> Out(e, j) || j == i)
  {
    var (i, e') := Pick(e);
    if e.uindex + 1 == e.nmax {
      assert e.free == [e.free[0]] + e.free[1..];
      assert i in e.free && i !in e.free[1..];
      assert forall j :: j in e.free <==> j == i || j in e.free[1..];
    }
  }

  /** One chunk of one zone changes hands. */
  ghost predicate OneChunk(h: Heap, h': Heap, z: nat, i: nat) {
    && z in h.zones && z in h'.zones && h'.zones == h.zones[z := h'.zones[z]]
    && SameLayout(h.zones[z], h'.zones[z]) && i < h.zones[z].nmax
    && h'.usage == h.usage && h'.large == h.large && h'.zp == h.zp
    && h'.spare == h.spare && h'.spareCnt == h.spareCnt && h'.runs == h.runs
    && (forall j :: j != i ==> (Out(h'.zones[z], j) <==> Out(h.zones[z], j)))
    && var a := Addr(z, h.zones[z].chunk, i);
       && (a in h'.live <==> Out(h'.zones[z], i))
       && (a in h'.live ==> h'.live[a] == h.zones[z].chunk)
       && (forall b :: b != a ==> (b in h'.live <==> b in h.live) && (b in h.live ==> h'.live[b] == h.live[b]))
  }

  lemma OneChunkLive(h: Heap, h': Heap, z: nat, i: nat)
    requires ZonesOk(h.zp, h.zones) && UsageOk(h) && LiveOk(h) && OneChunk(h, h', z, i)
    ensures LiveOk(h')
  {
    OneChunkSlots(h, h', z, i);
    ChunkDecodes(h, z, i);
    var a := Addr(z, h.zones[z].chunk, i);
    forall q | q in h'.large
      ensures LargeAt(h', q)
    {
      assert LargeAt(h, q);
      LargeDecodes(h, q);
    }
    forall b | b in h'.live
      ensures Known(h', b)
    {
      SameDecode(h, h', b);
      if b != a {
        assert Known(h, b);
      }
    }
  }

  lemma SameDecode(h: Heap, h': Heap, b: nat)
    requires h'.usage == h.usage && h'.zones.Keys == h.zones.Keys
    requires forall z :: z in h.zones ==> h'.zones[z].chunk == h.zones[z].chunk
    ensures Decode(h'.usage, h'.zones, b) == Decode(h.usage, h.zones, b)
  {
  }

  lemma OneChunkSlots(h: Heap, h': Heap, z: nat, i: nat)
    requires ZonesOk(h.zp, h.zones) && UsageOk(h) && LiveOk(h) && OneChunk(h, h', z, i)
    ensures forall y, j :: y in h'.zones && 0 <= j < h'.zones[y].nmax ==> SlotOk(h'.live, y, h'.zones[y], j)
  {
    forall y, j | y in h'.zones && 0 <= j < h'.zones[y].nmax
      ensures SlotOk(h'.live, y, h'.zones[y], j)
    {
      assert SlotOk(h.live, y, h.zones[y], j);
      ChunkDecodes(h, z, i);
      ChunkDecodes(h, y, j);
    }
  }

  lemma OneChunkRest(pool: seq<Run>, h: Heap, h': Heap, z: nat, i: nat)
    requires KeysOk(h) && UsageOk(h) && PagesOk(pool, h.runs, Blocks(h)) && OneChunk(h, h', z, i)
    ensures KeysOk(h') && UsageOk(h') && PagesOk(pool, h'.runs, Blocks(h'))
  {
    assert h'.zones.Keys == h.zones.Keys;
    assert Blocks(h') == Blocks(h);
    forall y, o | (y in h'.zones || y in h'.spare) && 0 <= o < h'.zp
      ensures SmallAt(h'.usage, y, o)
    {
      assert SmallAt(h.usage, y, o);
    }
  }

  lemma OneChunkCore(pool: seq<Run>, h: Heap, h': Heap, z: nat, i: nat)
    requires Core(pool, h) && OneChunk(h, h', z, i)
    requires ZoneOk(h.zp, h'.zones[z]) && ListsOk(h'.lists, h'.zones) && h'.used == Total(h'.live) && h'.used <= h'.max
    ensures Core(pool, h')
  {
    OneChunkLive(h, h', z, i);
    OneChunkRest(pool, h, h', z, i);
  }

  lemma ListsAfterTake(h: Heap, k: nat, e': Zone)
    requires ListsOk(h.lists, h.zones) && k < CLASSES && h.lists[k] != []
    requires var z := h.lists[k][0]; z in h.zones && SameLayout(h.zones[z], e') && e'.nfree == h.zones[z].nfree - 1
    ensures var lists := if e'.nfree == 0 then h.lists[k := h.lists[k][1..]] else h.lists;
            ListsOk(lists, h.zones[h.lists[k][0] := e'])
  {
    var z := h.lists[k][0];
    var lists := if e'.nfree == 0 then h.lists[k := h.lists[k][1..]] else h.lists;
    var zones := h.zones[z := e'];
    assert h.lists[k] == [z] + h.lists[k][1..];
    assert ListedAt(h.lists[k], h.zones, k, z);
    forall m, y: nat | 0 <= m < CLASSES
      ensures ListedAt(lists[m], zones, m, y)
    {
      assert ListedAt(h.lists[m], h.zones, m, y);
    }
  }

  /** The head zone hands out a chunk that nobody holds. */
  lemma ChunkTaken(pool: seq<Run>, h: Heap, k: nat)
    requires Core(pool, h) && k < CLASSES && h.lists[k] != []
    requires h.lists[k][0] in h.zones && (var e := h.zones[h.lists[k][0]]; e.uindex + 1 == e.nmax ==> e.free != [])
    ensures var (r, h') := TakeChunk(h, k);
            && Core(pool, h') && r.At? && h'.spare == h.spare
            && r.addr !in h.live && h'.live == h.live[r.addr := ClassSize(k)]
  {
    var z := h.lists[k][0];
    var (i, e') := Pick(h.zones[z]);
    var h' := TakeChunk(h, k).1;
    TakenOneChunk(h, k);
    ListsAfterTake(h, k, e');
    TotalAdd(h.live, Addr(z, e'.chunk, i), e'.chunk);
    OneChunkCore(pool, h, h', z, i);
  }

  lemma TakenOneChunk(h: Heap, k: nat)
    requires ZonesOk(h.zp, h.zones) && ListsOk(h.lists, h.zones) && LiveOk(h) && k < CLASSES && h.lists[k] != []
    requires h.lists[k][0] in h.zones && (var e := h.zones[h.lists[k][0]]; e.uindex + 1 == e.nmax ==> e.free != [])
    ensures var z := h.lists[k][0];
            var (i, e') := Pick(h.zones[z]);
            && OneChunk(h, TakeChunk(h, k).1, z, i) && Addr(z, e'.chunk, i) !in h.live && e'.chunk == ClassSize(k)
            && ZoneOk(h.zp, e') && e'.nfree == h.zones[z].nfree - 1
  {
    HeadZone(h, k);
    var z := h.lists[k][0];
    PickOk(h.zp, h.zones[z]);
    var (i, e') := Pick(h.zones[z]);
    assert SlotOk(h.live, z, h.zones[z], i);
    assert Out(e', i);
  }

  lemma GivenOk(zp: nat, e: Zone, i: nat)
    requires ZoneOk(zp, e) && Out(e, i)
    ensures var e' := e.(free := [i] + e.free, nfree := e.nfree + 1);
            ZoneOk(zp, e') && forall j :: Out(e', j) <==> Out(e, j) && j != i
  {
    var e' := e.(free := [i] + e.free, nfree := e.nfree + 1);
    assert forall j :: j in e'.free <==> j == i || j in e.free;
  }

  lemma ListsAfterGive(h: Heap, z: nat, e': Zone)
    requires ListsOk(h.lists, h.zones) && z in h.zones && h.zones[z].index < CLASSES && h.zones[z].nfree >= 0
    requires SameLayout(h.zones[z], e') && e'.nfree == h.zones[z].nfree + 1
    ensures var k := e'.index;
            var lists := if h.zones[z].nfree == 0 then h.lists[k := [z] + h.lists[k]] else h.lists;
            ListsOk(lists, h.zones[z := e'])
  {
    var k := e'.index;
    var lists := if h.zones[z].nfree == 0 then h.lists[k := [z] + h.lists[k]] else h.lists;
    var zones := h.zones[z := e'];
    assert ListedAt(h.lists[k], h.zones, k, z);
    forall m, y: nat | 0 <= m < CLASSES
      ensures ListedAt(lists[m], zones, m, y)
    {
      assert ListedAt(h.lists[m], h.zones, m, y);
    }
  }

  /** A chunk comes back to its zone. */
  lemma ChunkGiven(pool: seq<Run>, h: Heap, z: nat, i: nat)
    requires Core(pool, h) && z in h.zones && i < h.zones[z].nmax && Addr(z, h.zones[z].chunk, i) in h.live
    ensures h.zones[z].index < |h.lists|
    ensures var h' := GiveChunk(h, z, i);
            && Core(pool, h') && h'.spare == h.spare && z in h'.zones
            && h'.live == h.live - {Addr(z, h.zones[z].chunk, i)}
  {
    var e := h.zones[z];
    assert ZoneOk(h.zp, e) && SlotOk(h.live, z, e, i);
    var h' := GiveChunk(h, z, i);
    GivenOneChunk(h, z, i);
    ListsAfterGive(h, z, h'.zones[z]);
    TotalRemove(h.live, Addr(z, e.chunk, i));
    OneChunkCore(pool, h, h', z, i);
  }

  lemma GivenOneChunk(h: Heap, z: nat, i: nat)
    requires ZonesOk(h.zp, h.zones) && LiveOk(h) && z in h.zones && i < h.zones[z].nmax && h.zones[z].index < |h.lists|
    requires Addr(z, h.zones[z].chunk, i) in h.live
    ensures OneChunk(h, GiveChunk(h, z, i), z, i) && ZoneOk(h.zp, GiveChunk(h, z, i).zones[z])
    ensures h.live[Addr(z, h.zones[z].chunk, i)] == h.zones[z].chunk
  {
    assert SlotOk(h.live, z, h.zones[z], i);
    GivenOk(h.zp, h.zones[z], i);
    var e' := GiveChunk(h, z, i).zones[z];
    assert !Out(e', i);
  }

  // ---------------------------------------------------------------- zones

  /** Pages taken from the page allocator form an empty zone. */
  lemma SpareAdded(pool: seq<Run>, h: Heap)
    requires Core(pool, h)
    ensures var h' := AddSpare(h);
            && Core(pool, h') && h'.live == h.live && h'.lists == h.lists && h'.zp == h.zp
            && (if AllocPages(h.runs, h.zp).0.None? then h' == h else |h'.spare| == |h.spare| + 1)
  {
    var h' := AddSpare(h);
    if AllocPages(h.runs, h.zp).0.Some? {
      var p := AllocPages(h.runs, h.zp).0.page;
      AllocatedUnheld(pool, h, h.zp);
      var g := h.(runs := h'.runs, usage := h'.usage);
      UsageFrame(h, g, p, h.zp);
      NewSpare(g, h', p);
    }
  }

  lemma NewSpare(g: Heap, h': Heap, p: nat)
    requires KeysOk(g) && UsageOk(g) && LiveOk(g) && p !in Blocks(g)
    requires forall o :: 0 <= o < g.zp ==> SmallAt(g.usage, p, o)
    requires h' == g.(spare := [p] + g.spare, spareCnt := g.spareCnt + 1)
    ensures KeysOk(h') && UsageOk(h') && LiveOk(h') && Blocks(h') == Blocks(g)[p := g.zp]
  {
    assert forall z :: z in h'.spare <==> z == p || z in g.spare;
    forall z, o | (z in h'.zones || z in h'.spare) && 0 <= o < h'.zp
      ensures SmallAt(h'.usage, z, o)
    {
      assert SmallAt(g.usage, z, o);
    }
    SameObjects(g, h');
  }

  /** LiveOk does not depend on the spare zones, lists or counters. */
  lemma SameObjects(g: Heap, h': Heap)
    requires LiveOk(g) && h'.usage == g.usage && h'.zones == g.zones && h'.large == g.large && h'.live == g.live
    ensures LiveOk(h')
  {
    forall q | q in h'.large
      ensures LargeAt(h', q)
    {
      assert LargeAt(g, q);
    }
    forall b | b in h'.live
      ensures Known(h', b)
    {
      assert Known(g, b);
    }
  }

  /** An empty zone is laid out for a class and hands out its first chunk. */
  lemma ZoneOpened(pool: seq<Run>, h: Heap, k: nat, chunk: pos)
    requires Core(pool, h) && h.spare != [] && k < CLASSES && chunk == ClassSize(k) && chunk <= Limit(h.zp)
    ensures var (r, h') := OpenZone(h, k, chunk);
            && Core(pool, h') && r.At? && r.addr !in h.live && h'.live == h.live[r.addr := chunk]
            && h'.spare == h.spare[1..]
  {
    var h' := OpenZone(h, k, chunk).1;
    OpenedMemory(pool, h, k, chunk);
    OpenedLists(h, k, FreshOf(h, k, chunk));
    TotalAdd(h.live, Addr(h.spare[0], chunk, 0), chunk);
  }

  function FreshOf(h: Heap, k: nat, chunk: pos): Zone
    requires ZonePages(h.zp)
  {
    Zone(k, chunk, Capacity(h.zp, chunk), Capacity(h.zp, chunk) - 1, 0, [])
  }

  lemma OpenedMemory(pool: seq<Run>, h: Heap, k: nat, chunk: pos)
    requires Core(pool, h) && h.spare != [] && k < CLASSES && chunk == ClassSize(k) && chunk <= Limit(h.zp)
    ensures var h' := OpenZone(h, k, chunk).1;
            && ZonesOk(h'.zp, h'.zones) && KeysOk(h') && UsageOk(h') && LiveOk(h')
            && PagesOk(pool, h'.runs, Blocks(h')) && Addr(h.spare[0], chunk, 0) !in h.live
            && FreshOf(h, k, chunk).nfree > 0
  {
    var h' := OpenZone(h, k, chunk).1;
    FreshZone(h.zp, k, chunk);
    OpenedKeys(h, h', h.spare[0]);
    OpenedLive(h, h', h.spare[0]);
  }

  lemma FreshZone(zp: nat, k: nat, chunk: pos)
    requires ZonePages(zp) && k < CLASSES && chunk == ClassSize(k) && chunk <= Limit(zp)
    ensures var n := Capacity(zp, chunk); n >= 3 && ZoneOk(zp, Zone(k, chunk, n, n - 1, 0, []))
  {
    ClassBounds(k);
    CapacityAtLeastThree(zp, chunk);
  }

  lemma OpenedKeys(h: Heap, h': Heap, z: nat)
    requires KeysOk(h) && UsageOk(h) && h.spare != [] && z == h.spare[0] && z in h'.zones
    requires h'.zones == h.zones[z := h'.zones[z]] && h'.spare == h.spare[1..] && h'.spareCnt == h.spareCnt - 1
    requires h'.large == h.large && h'.zp == h.zp && h'.usage == h.usage
    ensures KeysOk(h') && UsageOk(h') && Blocks(h') == Blocks(h)
  {
    assert h.spare == [z] + h.spare[1..];
    assert forall y :: y in h.spare <==> y == z || y in h'.spare;
    assert z !in h'.spare;
    assert h'.zones.Keys == h.zones.Keys + {z};
    forall y, o | (y in h'.zones || y in h'.spare) && 0 <= o < h'.zp
      ensures SmallAt(h'.usage, y, o)
    {
      assert SmallAt(h.usage, y, o);
    }
  }

  lemma OpenedLists(h: Heap, k: nat, e: Zone)
    requires ListsOk(h.lists, h.zones) && KeysOk(h) && h.spare != [] && k < CLASSES && e.index == k && e.nfree > 0
    ensures var z := h.spare[0];
            ListsOk(h.lists[k := [z] + h.lists[k]], h.zones[z := e])
  {
    var z := h.spare[0];
    assert z in h.spare && z !in h.zones;
    var zones, lists := h.zones[z := e], h.lists[k := [z] + h.lists[k]];
    assert ListedAt(h.lists[k], h.zones, k, z);
    forall m, y: nat | 0 <= m < CLASSES
      ensures ListedAt(lists[m], zones, m, y)
    {
      assert ListedAt(h.lists[m], h.zones, m, y);
    }
  }

  /** An object stays known as long as its own zone stays. */
  lemma KnownKept(h: Heap, h': Heap, b: nat)
    requires LiveOk(h) && b in h.live && h'.usage == h.usage && h'.large == h.large
    requires var d := Decode(h.usage, h.zones, b);
             d.Chunk? && d.zone in h.zones ==> d.zone in h'.zones && h'.zones[d.zone] == h.zones[d.zone]
    ensures Known(h', b)
  {
    assert Known(h, b);
  }

  /** Nothing in a spare zone is live. */
  lemma SpareIsEmpty(h: Heap, z: nat, a: nat)
    requires ZonesOk(h.zp, h.zones) && KeysOk(h) && UsageOk(h) && LiveOk(h) && z in h.spare && z <= a / PAGE < z + h.zp
    ensures a !in h.live
  {
    assert SmallAt(h.usage, z, a / PAGE - z);
    SpareUnknown(h, z, a);
  }

  lemma SpareUnknown(h: Heap, z: nat, a: nat)
    requires z !in h.zones && z <= a / PAGE && SmallAt(h.usage, z, a / PAGE - z)
    ensures !Known(h, a)
  {
    assert z + (a / PAGE - z) == a / PAGE;
  }

  lemma OpenedLive(h: Heap, h': Heap, z: nat)
    requires ZonesOk(h.zp, h.zones) && KeysOk(h) && UsageOk(h) && LiveOk(h) && z in h.spare
    requires UsageOk(h') && ZonesOk(h'.zp, h'.zones)
    requires z in h'.zones && h'.zones == h.zones[z := h'.zones[z]] && h'.zones[z].uindex == 0 && h'.zones[z].free == []
    requires h'.large == h.large && h'.zp == h.zp && h'.usage == h.usage
    requires h'.live == h.live[Addr(z, h'.zones[z].chunk, 0) := h'.zones[z].chunk]
    ensures Addr(z, h'.zones[z].chunk, 0) !in h.live && LiveOk(h')
  {
    var e := h'.zones[z];
    var a := Addr(z, e.chunk, 0);
    assert ZoneOk(h'.zp, e);
    ChunkDecodes(h', z, 0);
    SpareIsEmpty(h, z, a);
    forall q | q in h'.large
      ensures LargeAt(h', q)
    {
      assert LargeAt(h, q);
      LargeDecodes(h', q);
    }
    forall b | b in h'.live
      ensures Known(h', b)
    {
      if b != a {
        KnownKept(h, h', b);
      }
    }
    forall y, j | y in h'.zones && 0 <= j < h'.zones[y].nmax
      ensures SlotOk(h'.live, y, h'.zones[y], j)
    {
      OpenedSlot(h, h', z, y, j);
    }
  }

  lemma OpenedSlot(h: Heap, h': Heap, z: nat, y: nat, j: nat)
    requires ZonesOk(h.zp, h.zones) && KeysOk(h) && UsageOk(h) && LiveOk(h) && z in h.spare
    requires UsageOk(h') && ZonesOk(h'.zp, h'.zones)
    requires z in h'.zones && h'.zones == h.zones[z := h'.zones[z]] && h'.zones[z].uindex == 0 && h'.zones[z].free == []
    requires h'.zp == h.zp && h'.live == h.live[Addr(z, h'.zones[z].chunk, 0) := h'.zones[z].chunk]
    requires y in h'.zones && j < h'.zones[y].nmax
    ensures SlotOk(h'.live, y, h'.zones[y], j)
  {
    var e := h'.zones[z];
    assert ZoneOk(h'.zp, e);
    ChunkDecodes(h', z, 0);
    ChunkDecodes(h', y, j);
    if y == z {
      SpareIsEmpty(h, z, Addr(z, e.chunk, j));
    } else {
      assert SlotOk(h.live, y, h.zones[y], j);
    }
  }

  /** A zone whose chunks are all free has none out: the free list covers all it ever gave. */
  lemma AllFree(zp: nat, e: Zone, i: nat)
    requires ZoneOk(zp, e) && e.nfree == e.nmax
    ensures !Out(e, i)
  {
    Pigeonhole(e.free, e.uindex + 1);
  }

  /** A sequence of n distinct numbers below n contains each of them. */
  lemma Pigeonhole(s: seq<nat>, n: nat)
    requires Distinct(s) && |s| == n && forall x :: x in s ==> x < n
    ensures forall i :: 0 <= i < n ==> i in s
  {
    forall i | 0 <= i < n
      ensures i in s
    {
      if i !in s {
        assert forall x :: x in s + [i] ==> x in s || x == i;
        AtMost(s + [i], n);
      }
    }
  }

  lemma {:induction false} AtMost(s: seq<nat>, n: nat)
    requires Distinct(s) && forall x :: x in s ==> x < n
    ensures |s| <= n
    decreases n
  {
    if s != [] {
      assert s[0] in s;
      var m := n - 1;
      WithoutDistinct(s, m);
      AtMost(Without(s, m), m);
    }
  }

  /** A zone without live chunks is put aside. */
  lemma ZoneRetired(pool: seq<Run>, h: Heap, z: nat)
    requires Core(pool, h) && z in h.zones && h.zones[z].index < |h.lists|
    ensures var h' := Retire(h, z);
            Core(pool, h') && h'.live == h.live && |h'.spare| <= |h.spare| + 1
  {
    var h' := Retire(h, z);
    var e := h.zones[z];
    if e.nfree == e.nmax && h.lists[e.index] != [z] {
      assert ZoneOk(h.zp, e);
      RetiredKeys(h, h', z);
      RetiredLists(h, z);
      RetiredLive(h, h', z);
    }
  }

  lemma RetiredKeys(h: Heap, h': Heap, z: nat)
    requires KeysOk(h) && UsageOk(h) && z in h.zones && h'.zones == h.zones - {z} && h'.spare == [z] + h.spare
    requires h'.spareCnt == h.spareCnt + 1 && h'.large == h.large && h'.zp == h.zp && h'.usage == h.usage
    ensures KeysOk(h') && UsageOk(h') && Blocks(h') == Blocks(h)
  {
    assert forall y :: y in h'.spare <==> y == z || y in h.spare;
    assert h.zones.Keys == h'.zones.Keys + {z};
    forall y, o | (y in h'.zones || y in h'.spare) && 0 <= o < h'.zp
      ensures SmallAt(h'.usage, y, o)
    {
      assert SmallAt(h.usage, y, o);
    }
  }

  lemma RetiredLists(h: Heap, z: nat)
    requires ListsOk(h.lists, h.zones) && z in h.zones && h.zones[z].index < CLASSES
    ensures var k := h.zones[z].index;
            ListsOk(h.lists[k := Without(h.lists[k], z)], h.zones - {z})
  {
    var k := h.zones[z].index;
    var zones, lists := h.zones - {z}, h.lists[k := Without(h.lists[k], z)];
    WithoutDistinct(h.lists[k], z);
    forall m, y: nat | 0 <= m < CLASSES
      ensures ListedAt(lists[m], zones, m, y)
    {
      assert ListedAt(h.lists[m], h.zones, m, y);
    }
  }

  lemma RetiredLive(h: Heap, h': Heap, z: nat)
    requires ZonesOk(h.zp, h.zones) && UsageOk(h) && LiveOk(h) && z in h.zones && h.zones[z].nfree == h.zones[z].nmax
    requires h'.zones == h.zones - {z} && h'.large == h.large && h'.live == h.live && h'.usage == h.usage
    ensures LiveOk(h')
  {
    forall q | q in h'.large
      ensures LargeAt(h', q)
    {
      assert LargeAt(h, q);
    }
    forall b | b in h'.live
      ensures Known(h', b)
    {
      assert Known(h, b);
      match Decode(h.usage, h.zones, b)
      case Whole(p) =>
      case Chunk(y, j) =>
        assert SlotOk(h.live, y, h.zones[y], j);
        AllFree(h.zp, h.zones[z], j);
        KnownKept(h, h', b);
      case Unknown =>
    }
    forall y, j | y in h'.zones && 0 <= j < h'.zones[y].nmax
      ensures SlotOk(h'.live, y, h'.zones[y], j)
    {
      assert SlotOk(h.live, y, h.zones[y], j);
    }
  }

  /** The newest of more than two empty zones goes back to the pages. */
  lemma SpareReleased(pool: seq<Run>, h: Heap)
    requires Core(pool, h)
    ensures var h' := ReleaseSpare(h);
            Core(pool, h') && h'.live == h.live && |h'.spare| == if |h.spare| > 2 then |h.spare| - 1 else |h.spare|
  {
    if h.spareCnt > 2 {
      var h' := ReleaseSpare(h);
      var z := h.spare[0];
      var g := h.(spare := h.spare[1..], spareCnt := h.spareCnt - 1);
      LessSpare(h, g, z);
      FreeHeld(pool, h.runs, Blocks(h), z);
      SpareUnheld(pool, h, g, z);
      SameObjects(h, g);
      UsageFrame(g, h', z, h.zp);
      assert Blocks(h') == Blocks(g);
    }
  }

  lemma LessSpare(h: Heap, g: Heap, z: nat)
    requires KeysOk(h) && UsageOk(h) && h.spare != [] && z == h.spare[0]
    requires g == h.(spare := h.spare[1..], spareCnt := h.spareCnt - 1)
    ensures KeysOk(g) && UsageOk(g) && z in Blocks(h) && Blocks(h)[z] == h.zp && Blocks(g) == Blocks(h) - {z}
  {
    LessSpareKeys(h, g, z);
    forall y, o | (y in g.zones || y in g.spare) && 0 <= o < g.zp
      ensures SmallAt(g.usage, y, o)
    {
      assert SmallAt(h.usage, y, o);
    }
  }

  lemma LessSpareKeys(h: Heap, g: Heap, z: nat)
    requires KeysOk(h) && h.spare != [] && z == h.spare[0]
    requires g == h.(spare := h.spare[1..], spareCnt := h.spareCnt - 1)
    ensures KeysOk(g) && z in h.spare && z !in h.large && z !in h.zones
    ensures Blocks(g) == Blocks(h) - {z}
    ensures forall y :: y in g.spare ==> y in h.spare
  {
    assert h.spare == [z] + g.spare;
    assert forall y :: y in h.spare <==> y == z || y in g.spare;
    assert z !in g.spare;
    LessBlocks(h, g, z);
  }

  lemma LessBlocks(h: Heap, g: Heap, z: nat)
    requires forall y :: y in h.spare <==> y == z || y in g.spare
    requires z !in g.spare && z !in h.large && z !in h.zones
    requires g.zones == h.zones && g.large == h.large && g.zp == h.zp
    ensures Blocks(g) == Blocks(h) - {z}
  {
  }

  lemma SpareUnheld(pool: seq<Run>, h: Heap, g: Heap, z: nat)
    requires KeysOk(h) && PagesOk(pool, h.runs, Blocks(h)) && z in Blocks(h) && Blocks(h)[z] == h.zp
    requires g.zones == h.zones && g.large == h.large && g.zp == h.zp && KeysOk(g) && Blocks(g) == Blocks(h) - {z}
    ensures Unheld(g, z, h.zp)
  {
    forall y | y in g.zones || y in g.spare
      ensures y + g.zp <= z || z + h.zp <= y
    {
      assert y in Blocks(g) && y !in g.large;
      assert ApartAt(Blocks(h), y, z);
    }
    forall q | q in g.large
      ensures q < z || z + h.zp <= q
    {
      assert q in Blocks(g) && ApartAt(Blocks(h), q, z);
    }
  }

  // ---------------------------------------------------------------- calls

  /**
   rt_malloc: on success the address is new, large enough, and everything else stays as it
   was; on failure nothing changes.
   */
  lemma MallocSound(pool: seq<Run>, h: Heap, size: nat)
    requires Inv(pool, h)
    ensures var (r, h') := Malloc(pool, h, size);
            && Inv(pool, h')
            && (r.Null? ==> h' == h)
            && h'.max == (if h'.used > h.max then h'.used else h.max)
            && (r.At? ==> size > 0 && r.addr !in h.live && r.addr in h'.live
                          && h'.live[r.addr] >= size && h'.live == h.live[r.addr := h'.live[r.addr]])
  {
    if size >= Limit(h.zp) {
      LargeTaken(pool, h, RoundUp(size, PAGE) / PAGE);
      LargeEnough(size);
    } else if size > 0 {
      ClassBelowLimit(h.zp, size);
      SmallSound(pool, h, ZoneIndex(size).0, ZoneIndex(size).1);
    }
  }

  lemma LargeEnough(size: nat)
    ensures RoundUp(size, PAGE) / PAGE * PAGE >= size
  {
  }

  lemma SmallSound(pool: seq<Run>, h: Heap, k: nat, chunk: pos)
    requires Inv(pool, h) && k < CLASSES && chunk == ClassSize(k) && chunk <= Limit(h.zp)
    ensures var (r, h') := MallocSmall(pool, h, k, chunk);
            && Inv(pool, h')
            && (r.Null? ==> h' == h)
            && h'.max == (if h'.used > h.max then h'.used else h.max)
            && (r.At? ==> r.addr !in h.live && h'.live == h.live[r.addr := chunk])
  {
    if h.lists[k] != [] {
      HeadZone(h, k);
      ChunkTaken(pool, h, k);
      TakenIdle(h, k);
    } else if h.spare == [] {
      SpareAdded(pool, h);
      if AllocPages(h.runs, h.zp).0.Some? {
        OpenedSound(pool, AddSpare(h), k, chunk);
      }
    } else {
      OpenedSound(pool, h, k, chunk);
    }
  }

  lemma OpenedSound(pool: seq<Run>, h: Heap, k: nat, chunk: pos)
    requires Core(pool, h) && OneIdle(h.zones) && h.spare != []
    requires k < CLASSES && chunk == ClassSize(k) && chunk <= Limit(h.zp)
    ensures var (r, h') := OpenZone(h, k, chunk);
            && Core(pool, h') && OneIdle(h'.zones) && r.At? && r.addr !in h.live && h'.live == h.live[r.addr := chunk]
            && h'.spare == h.spare[1..] && h'.max == (if h'.used > h.max then h'.used else h.max)
  {
    ZoneOpened(pool, h, k, chunk);
  }

  lemma TakenIdle(h: Heap, k: nat)
    requires ZonesOk(h.zp, h.zones) && OneIdle(h.zones) && k < |h.lists| && h.lists[k] != [] && h.lists[k][0] in h.zones
    requires h.zones[h.lists[k][0]].nfree > 0
    ensures var e := h.zones[h.lists[k][0]]; e.uindex + 1 == e.nmax ==> e.free != []
    ensures OneIdle(TakeChunk(h, k).1.zones)
    ensures var h' := TakeChunk(h, k).1; h'.max == (if h'.used > h.max then h'.used else h.max)
  {
    var z := h.lists[k][0];
    PickOk(h.zp, h.zones[z]);
    AtMost(h.zones[z].free, h.zones[z].uindex + 1);
  }

  /**
   rt_malloc fails exactly when no zone of the class has a chunk, none is kept back, and no run of
   pages is long enough.
   */
  lemma MallocFailsIff(pool: seq<Run>, h: Heap, size: nat)
    requires Inv(pool, h)
    ensures Malloc(pool, h, size).0.Null? <==>
            || size == 0
            || (size >= Limit(h.zp) && !RunOf(h.runs, RoundUp(size, PAGE) / PAGE))
            || (0 < size < Limit(h.zp) && h.spare == [] && !RunOf(h.runs, h.zp)
                && forall z :: z in h.zones && h.zones[z].chunk == ZoneIndex(size).1 ==> h.zones[z].nfree == 0)
  {
    if size >= Limit(h.zp) {
      RunFound(h.runs, RoundUp(size, PAGE) / PAGE);
    } else if size > 0 {
      RunFound(h.runs, h.zp);
      ClassBelowLimit(h.zp, size);
      var (k, chunk) := ZoneIndex(size);
      ClassExhaustedIff(h, k);
    }
  }

  ghost predicate RunOf(runs: seq<Run>, n: nat) {
    exists i :: 0 <= i < |runs| && runs[i].count >= n
  }

  lemma RunFound(runs: seq<Run>, n: nat)
    requires Canonical(runs) && n > 0
    ensures AllocPages(runs, n).0.Some? <==> RunOf(runs, n)
  {
    AllocTakes(runs, n);
    if AllocPages(runs, n).0.Some? {
      var k :| FirstRunAt(runs, n, AllocPages(runs, n).0.page, k);
    }
  }

  lemma ClassExhaustedIff(h: Heap, k: nat)
    requires ZonesOk(h.zp, h.zones) && ListsOk(h.lists, h.zones) && k < CLASSES
    ensures h.lists[k] == [] <==> forall z :: z in h.zones && h.zones[z].chunk == ClassSize(k) ==> h.zones[z].nfree == 0
  {
    if h.lists[k] != [] {
      HeadZone(h, k);
      var z := h.lists[k][0];
      assert ZoneOk(h.zp, h.zones[z]);
    } else {
      forall z | z in h.zones && h.zones[z].chunk == ClassSize(k)
        ensures h.zones[z].nfree == 0
      {
        var e := h.zones[z];
        assert ZoneOk(h.zp, e);
        if e.index < k {
          ClassSizesGrow(e.index, k);
        } else if k < e.index {
          ClassSizesGrow(k, e.index);
        }
        assert ListedAt(h.lists[k], h.zones, k, z);
      }
    }
  }

  /** rt_free gives back exactly the object behind the address. */
  lemma FreeSound(pool: seq<Run>, h: Heap, a: nat)
    requires Inv(pool, h) && a in h.live
    ensures Inv(pool, Free(pool, h, a)) && Free(pool, h, a).live == h.live - {a} && Free(pool, h, a).max == h.max
  {
    assert Known(h, a);
    match Decode(h.usage, h.zones, a)
    case Whole(p) => LargeGiven(pool, h, p);
    case Chunk(z, i) => FreeChunkSound(pool, h, z, i);
    case Unknown =>
  }

  lemma FreeChunkSound(pool: seq<Run>, h: Heap, z: nat, i: nat)
    requires Inv(pool, h) && z in h.zones && i < h.zones[z].nmax && Addr(z, h.zones[z].chunk, i) in h.live
    ensures h.zones[z].index < |h.lists| && z in GiveChunk(h, z, i).zones
    ensures Retire(GiveChunk(h, z, i), z).spareCnt == |Retire(GiveChunk(h, z, i), z).spare|
    ensures var h' := ReleaseSpare(Retire(GiveChunk(h, z, i), z));
            Inv(pool, h') && h'.live == h.live - {Addr(z, h.zones[z].chunk, i)} && h'.max == h.max
  {
    ChunkGiven(pool, h, z, i);
    var g := GiveChunk(h, z, i);
    ZoneRetired(pool, g, z);
    RetiredIdle(h, g, z);
    SpareReleased(pool, Retire(g, z));
  }

  /** A zone that falls idle is kept only if no other zone of its class is idle. */
  lemma RetiredIdle(h: Heap, g: Heap, z: nat)
    requires OneIdle(h.zones) && ListsOk(g.lists, g.zones) && ZonesOk(g.zp, g.zones)
    requires z in h.zones && z in g.zones && g.zones == h.zones[z := g.zones[z]] && g.zones[z].index < |g.lists|
    ensures OneIdle(Retire(g, z).zones)
  {
    var k := g.zones[z].index;
    if Idle(g.zones[z]) && g.lists[k] == [z] {
      forall y | y in g.zones && y != z && Idle(g.zones[y])
        ensures g.zones[y].index != k
      {
        assert ZoneOk(g.zp, g.zones[y]);
        assert ListedAt(g.lists[k], g.zones, k, y);
      }
    }
  }
}
