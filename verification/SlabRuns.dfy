/**
 rt_realloc, and what holds of the zone allocator over every sequence of calls.
 */
module SlabRuns {
  import opened PageList
  import opened SlabIndex
  import opened Slab
  import opened SlabSteps

  // ---------------------------------------------------------------- memory of one object

  /** Block `s` contains all the bytes of the object at `a`. */
  ghost predicate InBlock(h: Heap, a: nat, s: nat)
    requires a in h.live
  {
    s in Blocks(h) && s * PAGE <= a && a + h.live[a] <= (s + Blocks(h)[s]) * PAGE
  }

  ghost function BlockOf(h: Heap, a: nat): nat {
    match Decode(h.usage, h.zones, a)
    case Whole(p) => p
    case Chunk(z, i) => z
    case Unknown => 0
  }

  lemma LiveInBlock(h: Heap, a: nat)
    requires ZonesOk(h.zp, h.zones) && KeysOk(h) && UsageOk(h) && LiveOk(h) && a in h.live
    ensures InBlock(h, a, BlockOf(h, a))
    ensures Decode(h.usage, h.zones, a).Chunk? ==> BlockOf(h, a) * PAGE + HEADER <= a
  {
    assert Known(h, a);
    match Decode(h.usage, h.zones, a)
    case Whole(p) => assert LargeAt(h, p);
    case Chunk(z, i) =>
      ChunkDecodes(h, z, i);
      assert SlotOk(h.live, z, h.zones[z], i);
    case Unknown =>
  }

  /** Objects that are out never overlap. */
  lemma LiveApart(pool: seq<Run>, h: Heap, a: nat, b: nat)
    requires Core(pool, h) && a in h.live && b in h.live && a != b
    ensures a + h.live[a] <= b || b + h.live[b] <= a
  {
    LiveInBlock(h, a);
    LiveInBlock(h, b);
    var s, t := BlockOf(h, a), BlockOf(h, b);
    if s != t {
      assert ApartAt(Blocks(h), s, t);
    } else {
      SameZoneApart(h, a, b);
    }
  }

  lemma SameZoneApart(h: Heap, a: nat, b: nat)
    requires ZonesOk(h.zp, h.zones) && KeysOk(h) && UsageOk(h) && LiveOk(h)
    requires a in h.live && b in h.live && a != b && BlockOf(h, a) == BlockOf(h, b)
    ensures a + h.live[a] <= b || b + h.live[b] <= a
  {
    assert Known(h, a) && Known(h, b);
    match (Decode(h.usage, h.zones, a), Decode(h.usage, h.zones, b))
    case (Chunk(z, i), Chunk(y, j)) =>
      assert SlotOk(h.live, z, h.zones[z], i) && SlotOk(h.live, z, h.zones[z], j);
      if i < j {
        ChunksApart(h.zones[z].chunk, i, j);
      } else {
        ChunksApart(h.zones[z].chunk, j, i);
      }
    case (Whole(p), Chunk(y, j)) =>
    case (Chunk(z, i), Whole(q)) =>
    case _ =>
  }

  /** No byte of a live object lies in a page the page allocator could hand out. */
  lemma LiveNotFree(pool: seq<Run>, h: Heap, a: nat, x: nat)
    requires Core(pool, h) && a in h.live && a <= x < a + h.live[a]
    ensures !Has(h.runs, x / PAGE) && Has(pool, x / PAGE)
  {
    LiveInBlock(h, a);
    assert Within(Blocks(h), BlockOf(h, a), x / PAGE);
  }

  // ---------------------------------------------------------------- what the calls do

  /** rt_malloc has nothing to give for `size` bytes. */
  ghost predicate NoRoom(h: Heap, size: nat) {
    if size == 0 then true
    else if size >= Limit(h.zp) then !RunOf(h.runs, RoundUp(size, PAGE) / PAGE)
    else h.spare == [] && !RunOf(h.runs, h.zp) && Exhausted(h, ZoneIndex(size).1)
  }

  /** No zone of this chunk size has a chunk left. */
  ghost predicate Exhausted(h: Heap, chunk: nat) {
    forall z :: z in h.zones && h.zones[z].chunk == chunk ==> h.zones[z].nfree == 0
  }

  lemma NoRoomIff(pool: seq<Run>, h: Heap, size: nat)
    requires Inv(pool, h)
    ensures Malloc(pool, h, size).0.Null? <==> NoRoom(h, size)
  {
    MallocFailsIff(pool, h, size);
  }

  /** Only the books of the objects, and what `zones` says about one zone, differ. */
  ghost predicate FromZone(h: Heap, h': Heap, a: nat) {
    && h'.runs == h.runs && h'.spare == h.spare && h'.large == h.large && h'.usage == h.usage
    && h'.zones.Keys == h.zones.Keys && exists z :: z in h.zones && OnlyZone(h, h', z) && InZone(h.zp, z, a)
  }

  ghost predicate OnlyZone(h: Heap, h': Heap, z: nat)
    requires z in h.zones
  {
    z in h'.zones && h'.zones[z].nfree + 1 == h.zones[z].nfree && h'.zones == h.zones[z := h'.zones[z]]
  }

  ghost predicate InZone(zp: nat, z: nat, a: nat) {
    z * PAGE <= a < (z + zp) * PAGE
  }

  /** A large request gets whole pages, as many as it needs, and no zone changes. */
  lemma MallocLarge(pool: seq<Run>, h: Heap, size: nat)
    requires Inv(pool, h) && size >= Limit(h.zp) && !NoRoom(h, size)
    ensures var (r, h') := Malloc(pool, h, size);
            && r.At? && r.addr in h'.live && r.addr % PAGE == 0 && h'.live[r.addr] == RoundUp(size, PAGE)
            && h'.runs == AllocPages(h.runs, RoundUp(size, PAGE) / PAGE).1
            && h'.zones == h.zones && h'.spare == h.spare && h'.lists == h.lists
  {
    NoRoomIff(pool, h, size);
    assert RoundUp(size, PAGE) / PAGE * PAGE == RoundUp(size, PAGE);
  }

  /** A small request gets one chunk of its class, from a zone in use as long as there is one with a chunk left. */
  lemma MallocFromZone(pool: seq<Run>, h: Heap, size: nat)
    requires Inv(pool, h) && 0 < size < Limit(h.zp) && !Exhausted(h, ZoneIndex(size).1)
    ensures var (r, h') := Malloc(pool, h, size);
            r.At? && r.addr in h'.live && h'.live[r.addr] == ZoneIndex(size).1 && FromZone(h, h', r.addr)
  {
    ClassBelowLimit(h.zp, size);
    ClassExhaustedIff(h, ZoneIndex(size).0);
    HeadServes(h, ZoneIndex(size).0);
  }

  lemma HeadServes(h: Heap, k: nat)
    requires ZonesOk(h.zp, h.zones) && ListsOk(h.lists, h.zones) && UsageOk(h) && k < CLASSES && h.lists[k] != []
    ensures h.lists[k][0] in h.zones
    ensures var e := h.zones[h.lists[k][0]]; e.uindex + 1 == e.nmax ==> e.free != []
    ensures var (r, h') := TakeChunk(h, k);
            r.At? && r.addr in h'.live && h'.live[r.addr] == ClassSize(k) && FromZone(h, h', r.addr)
  {
    HeadZone(h, k);
    var z := h.lists[k][0];
    assert ZoneOk(h.zp, h.zones[z]);
    PickOk(h.zp, h.zones[z]);
    var (i, e') := Pick(h.zones[z]);
    ChunkDecodes(h, z, i);
    var (r, h') := TakeChunk(h, k);
    assert OnlyZone(h, h', z) && InZone(h.zp, z, r.addr);
  }

  /** Otherwise a zone kept back is opened for it, and only if there is none new pages are taken. */
  lemma MallocOpens(pool: seq<Run>, h: Heap, size: nat)
    requires Inv(pool, h) && 0 < size < Limit(h.zp) && Exhausted(h, ZoneIndex(size).1) && !NoRoom(h, size)
    ensures var (r, h') := Malloc(pool, h, size);
            && r.At? && r.addr in h'.live && h'.live[r.addr] == ZoneIndex(size).1
            && if h.spare != [] then h'.runs == h.runs && h'.usage == h.usage && h.spare == [h.spare[0]] + h'.spare
               else h'.runs == AllocPages(h.runs, h.zp).1 && h'.spare == []
  {
    ClassBelowLimit(h.zp, size);
    ClassExhaustedIff(h, ZoneIndex(size).0);
    NoRoomIff(pool, h, size);
    SpareOpened(h, ZoneIndex(size).0, ZoneIndex(size).1);
  }

  lemma SpareOpened(h: Heap, k: nat, chunk: pos)
    requires ZonePages(h.zp) && h.spareCnt == |h.spare| && k < |h.lists|
    ensures var g := if h.spare == [] then AddSpare(h) else h;
            g.spare != [] ==>
              var (r, h') := OpenZone(g, k, chunk);
              && r.At? && r.addr in h'.live && h'.live[r.addr] == chunk
              && (if h.spare != [] then h'.runs == h.runs && h'.usage == h.usage && h.spare == [h.spare[0]] + h'.spare
                  else h'.runs == AllocPages(h.runs, h.zp).1 && h'.spare == [])
  {
  }

  /** A large object gives all its pages back and nothing else. */
  lemma FreeLargeMeans(pool: seq<Run>, h: Heap, a: nat, q: nat)
    requires Inv(pool, h) && a in h.live && Decode(h.usage, h.zones, a).Whole?
    ensures var h' := Free(pool, h, a);
            && (Has(h'.runs, q) <==> Has(h.runs, q) || a <= q * PAGE < a + h.live[a])
            && h'.zones == h.zones && h'.spare == h.spare && h'.lists == h.lists
  {
    assert Known(h, a);
    var p := Decode(h.usage, h.zones, a).page;
    assert LargeAt(h, p);
    forall x | p <= x < p + h.large[p]
      ensures !Has(h.runs, x)
    {
      assert Within(Blocks(h), p, x);
    }
    FreeAdds(h.runs, p, h.large[p]);
  }

  /** A chunk goes back to its zone; other zones do not notice, and pages only if two zones are kept back already. */
  lemma FreeChunkMeans(pool: seq<Run>, h: Heap, a: nat, y: nat)
    requires Inv(pool, h) && a in h.live && Decode(h.usage, h.zones, a).Chunk?
    ensures ZoneServed(h, Free(pool, h, a), Decode(h.usage, h.zones, a).zone, y)
  {
    assert Known(h, a);
    var o := Decode(h.usage, h.zones, a);
    FreeChunkSound(pool, h, o.zone, o.number);
    ChunkBack(h, o.zone, o.number, y);
  }

  lemma ChunkBack(h: Heap, z: nat, i: nat, y: nat)
    requires z in h.zones && h.zones[z].index < |h.lists| && Addr(z, h.zones[z].chunk, i) in h.live
    requires h.spareCnt == |h.spare| <= 2
    ensures z in GiveChunk(h, z, i).zones
    ensures Retire(GiveChunk(h, z, i), z).spareCnt == |Retire(GiveChunk(h, z, i), z).spare|
    ensures ZoneServed(h, ReleaseSpare(Retire(GiveChunk(h, z, i), z)), z, y)
  {
  }

  /** One chunk more in zone `z`, unless it was the last one out and the zone is put aside. */
  ghost predicate ZoneServed(h: Heap, h': Heap, z: nat, y: nat) {
    && z in h.zones && h'.large == h.large
    && (y in h.zones && y != z ==> y in h'.zones && h'.zones[y] == h.zones[y])
    && (z in h'.zones ==> h'.zones[z].nfree == h.zones[z].nfree + 1)
    && (z !in h'.zones ==> h.zones[z].nfree + 1 == h.zones[z].nmax)
    && (|h.spare| < 2 || z in h'.zones ==> h'.runs == h.runs && h'.usage == h.usage)
  }

  // ---------------------------------------------------------------- rt_realloc

  /** The size rt_realloc asks for once it knows the object is a chunk. */
  function Rounded(size: nat): nat
    requires size > 0
  {
    ZoneIndex(size).1
  }

  function Min(a: nat, b: nat): nat {
    if a < b then a else b
  }

  /** rt_realloc of an object that is out: the new address, the new heap and how many bytes are copied. */
  ghost function Realloc(pool: seq<Run>, h: Heap, a: nat, size: nat): (Result, Heap, nat)
    requires Inv(pool, h) && a in h.live
  {
    if size == 0 then (Null, Free(pool, h, a), 0) else
    match Decode(h.usage, h.zones, a)
    case Chunk(z, i) =>
      var n := Rounded(size);
      if h.live[a] == n then (At(a), h, 0) else Move(pool, h, a, n)
    case _ => Move(pool, h, a, size)
  }

  /** A new object of `n` bytes is obtained, the contents are copied, and the old object is given back. */
  ghost function Move(pool: seq<Run>, h: Heap, a: nat, n: nat): (Result, Heap, nat)
    requires Inv(pool, h) && a in h.live
  {
    MallocSound(pool, h, n);
    var (r, g) := Malloc(pool, h, n);
    if r.Null? then (Null, g, 0) else (r, Free(pool, g, a), Min(n, h.live[a]))
  }

  /** What rt_realloc reads as the old size is the size handed out. */
  lemma OldSize(h: Heap, a: nat)
    requires LiveOk(h) && a in h.live
    ensures match Decode(h.usage, h.zones, a)
            case Whole(p) => p in h.large && h.live[a] == h.large[p] * PAGE
            case Chunk(z, i) => z in h.zones && h.live[a] == h.zones[z].chunk
            case Unknown => false
  {
    assert Known(h, a);
    match Decode(h.usage, h.zones, a)
    case Whole(p) => assert LargeAt(h, p);
    case Chunk(z, i) => assert SlotOk(h.live, z, h.zones[z], i);
    case Unknown =>
  }

  ghost predicate Resized(h: Heap, a: nat, size: nat, r: Result, h': Heap, copied: nat)
    requires a in h.live
  {
    && (r.Null? ==> h' == h)
    && (r.At? && r.addr == a ==> h' == h && h.live[a] >= size)
    && (r.At? && r.addr != a ==>
          && r.addr !in h.live && r.addr in h'.live && h'.live[r.addr] >= size
          && h'.live == (h.live - {a})[r.addr := h'.live[r.addr]]
          && Min(size, h.live[a]) <= copied <= Min(h'.live[r.addr], h.live[a]))
  }

  /**
   Failure leaves everything as it was; success moves the one object, and copies as much as
   both sizes allow.
   */
  lemma ReallocSound(pool: seq<Run>, h: Heap, a: nat, size: nat)
    requires Inv(pool, h) && a in h.live
    ensures var (r, h', copied) := Realloc(pool, h, a, size);
            && Inv(pool, h')
            && (size == 0 ==> r.Null? && h'.live == h.live - {a})
            && (size > 0 ==> Resized(h, a, size, r, h', copied))
  {
    if size == 0 {
      FreeSound(pool, h, a);
    } else if Decode(h.usage, h.zones, a).Chunk? {
      RoundedCovers(size);
      if h.live[a] != Rounded(size) {
        Moved(pool, h, a, Rounded(size));
        var (r, h', copied) := Move(pool, h, a, Rounded(size));
        ResizedLess(h, a, Rounded(size), size, r, h', copied);
      }
    } else {
      Moved(pool, h, a, size);
    }
  }

  /**
   When rt_realloc succeeds: a chunk of the right class is kept as it is; otherwise it fails exactly
   if rt_malloc has nothing for the size, which for a chunk is the size of the class asked for.
   */
  lemma ReallocOutcome(pool: seq<Run>, h: Heap, a: nat, size: nat)
    requires Inv(pool, h) && a in h.live && size > 0
    ensures var (r, h', copied) := Realloc(pool, h, a, size);
            var chunk := Decode(h.usage, h.zones, a).Chunk?;
            if chunk && h.live[a] == Rounded(size) then r == At(a) && h' == h && copied == 0
            else r != At(a) && (r.Null? <==> NoRoom(h, if chunk then Rounded(size) else size))
  {
    var chunk := Decode(h.usage, h.zones, a).Chunk?;
    if !(chunk && h.live[a] == Rounded(size)) {
      var n := if chunk then Rounded(size) else size;
      RoundedCovers(size);
      Moved(pool, h, a, n);
      NoRoomIff(pool, h, n);
    }
  }

  lemma ResizedLess(h: Heap, a: nat, n: nat, size: nat, r: Result, h': Heap, copied: nat)
    requires a in h.live && n >= size && Resized(h, a, n, r, h', copied)
    ensures Resized(h, a, size, r, h', copied)
  {
  }

  lemma RoundedCovers(size: nat)
    requires size > 0
    ensures Rounded(size) >= size
  {
    if size < 16384 {
      ZoneIndexBestFit(size);
    }
  }

  lemma Moved(pool: seq<Run>, h: Heap, a: nat, n: nat)
    requires Inv(pool, h) && a in h.live && n > 0
    ensures var (r, h', copied) := Move(pool, h, a, n);
            Inv(pool, h') && Resized(h, a, n, r, h', copied) && (r.At? ==> r.addr != a)
  {
    MallocSound(pool, h, n);
    var (r, g) := Malloc(pool, h, n);
    if r.At? {
      FreeSound(pool, g, a);
      Swapped(h.live, g.live, a, r.addr);
    }
  }

  lemma Swapped(m: map<nat, nat>, n: map<nat, nat>, a: nat, b: nat)
    requires a in m && b !in m && b in n && n == m[b := n[b]]
    ensures n - {a} == (m - {a})[b := n[b]]
  {
  }

  // ---------------------------------------------------------------- runs

  datatype Call = CallMalloc(size: nat) | CallFree(addr: nat) | CallRealloc(addr: nat, size: nat)

  /** Addresses passed in are null or were handed out and not given back. */
  ghost predicate Allowed(h: Heap, c: Call) {
    match c
    case CallMalloc(_) => true
    case CallFree(a) => a in h.live
    case CallRealloc(a, _) => a in h.live
  }

  ghost function After(pool: seq<Run>, h: Heap, c: Call): (h': Heap)
    requires Inv(pool, h) && Allowed(h, c)
    ensures Inv(pool, h')
  {
    match c
    case CallMalloc(size) => MallocSound(pool, h, size); Malloc(pool, h, size).1
    case CallFree(a) => FreeSound(pool, h, a); Free(pool, h, a)
    case CallRealloc(a, size) => ReallocSound(pool, h, a, size); Realloc(pool, h, a, size).1
  }

  /** The heap after rt_system_heap_init: all pages of `pool` are free. */
  ghost function Initial(pool: seq<Run>, zp: nat): Heap {
    Heap(zp, pool, map[], map[], seq(CLASSES, _ => []), [], 0, 0, 0, map[], map[])
  }

  lemma InitialInv(pool: seq<Run>, zp: nat)
    requires ZonePages(zp) && Canonical(pool)
    ensures Inv(pool, Initial(pool, zp))
  {
    var h := Initial(pool, zp);
    assert Blocks(h) == map[];
  }

  /** Call `i` of a run leads from one heap to the next. */
  ghost predicate StepAt(pool: seq<Run>, hs: seq<Heap>, calls: seq<Call>, i: nat)
    requires i < |calls| < |hs|
  {
    Inv(pool, hs[i]) ==> Allowed(hs[i], calls[i]) && hs[i + 1] == After(pool, hs[i], calls[i])
  }

  ghost predicate IsRun(pool: seq<Run>, zp: nat, hs: seq<Heap>, calls: seq<Call>) {
    && |hs| == |calls| + 1 && hs[0] == Initial(pool, zp)
    && forall i {:trigger StepAt(pool, hs, calls, i)} :: 0 <= i < |calls| ==> StepAt(pool, hs, calls, i)
  }

  lemma {:induction false} RunInv(pool: seq<Run>, zp: nat, hs: seq<Heap>, calls: seq<Call>, i: nat)
    requires ZonePages(zp) && Canonical(pool) && IsRun(pool, zp, hs, calls) && i < |hs|
    ensures Inv(pool, hs[i])
  {
    if i == 0 {
      InitialInv(pool, zp);
    } else {
      RunInv(pool, zp, hs, calls, i - 1);
      assert StepAt(pool, hs, calls, i - 1);
    }
  }

  /**
   After any sequence of calls the objects that are out are pairwise disjoint and `used_mem` is
   the sum of their sizes; once all have been given back, at most one zone for each class and
   two more are still away from the page allocator.
   */
  lemma SlabTheorem(pool: seq<Run>, zp: nat, hs: seq<Heap>, calls: seq<Call>, i: nat)
    requires ZonePages(zp) && Canonical(pool) && IsRun(pool, zp, hs, calls) && i < |hs|
    ensures Inv(pool, hs[i]) && hs[i].used == Total(hs[i].live)
    ensures AllApart(hs[i].live)
    ensures hs[i].live == map[] ==> hs[i].large == map[] && |hs[i].zones| <= CLASSES && |hs[i].spare| <= 2
  {
    RunInv(pool, zp, hs, calls, i);
    AllLiveApart(pool, hs[i]);
    if hs[i].live == map[] {
      NothingKept(hs[i]);
    }
  }

  ghost predicate AllApart(live: map<nat, nat>) {
    forall a, b :: a in live && b in live && a != b ==> a + live[a] <= b || b + live[b] <= a
  }

  lemma AllLiveApart(pool: seq<Run>, h: Heap)
    requires Core(pool, h)
    ensures AllApart(h.live)
  {
    forall a, b | a in h.live && b in h.live && a != b
      ensures a + h.live[a] <= b || b + h.live[b] <= a
    {
      LiveApart(pool, h, a, b);
    }
  }

  lemma LargeAreLive(h: Heap)
    requires LiveOk(h)
    ensures forall p :: p in h.large ==> p * PAGE in h.live
  {
    forall p | p in h.large
      ensures p * PAGE in h.live
    {
      assert LargeAt(h, p);
    }
  }

  lemma NothingKept(h: Heap)
    requires ZonesOk(h.zp, h.zones) && LiveOk(h) && OneIdle(h.zones) && h.live == map[]
    ensures h.large == map[] && |h.zones| <= CLASSES
  {
    LargeAreLive(h);
    forall z | z in h.zones
      ensures Idle(h.zones[z]) && h.zones[z].index < CLASSES
    {
      NothingOut(h, z);
    }
    OnePerClass(h.zones, CLASSES);
  }

  lemma NothingOut(h: Heap, z: nat)
    requires ZonesOk(h.zp, h.zones) && LiveOk(h) && h.live == map[] && z in h.zones
    ensures Idle(h.zones[z]) && h.zones[z].index < CLASSES
  {
    var e := h.zones[z];
    assert ZoneOk(h.zp, e);
    forall i: nat | i <= e.uindex
      ensures i in e.free
    {
      assert SlotOk(h.live, z, e, i);
    }
    AtMost(e.free, e.uindex + 1);
    AtLeastAll(e.free, e.uindex + 1);
  }

  /** A sequence that contains all numbers below n has at least n elements. */
  lemma {:induction false} AtLeastAll(s: seq<nat>, n: nat)
    requires forall i :: 0 <= i < n ==> i in s
    ensures |s| >= n
  {
    if n > 0 {
      assert n - 1 in s;
      var k :| 0 <= k < |s| && s[k] == n - 1;
      var t := s[..k] + s[k + 1..];
      forall i | 0 <= i < n - 1
        ensures i in t
      {
        assert i in s;
        var j :| 0 <= j < |s| && s[j] == i;
        assert t[if j < k then j else j - 1] == i;
      }
      AtLeastAll(t, n - 1);
    }
  }

  lemma {:induction false} OnePerClass(zones: map<nat, Zone>, n: nat)
    requires forall z :: z in zones ==> zones[z].index < n
    requires forall y, z :: y in zones && z in zones && y != z ==> zones[y].index != zones[z].index
    ensures |zones| <= n
  {
    if zones != map[] {
      var z :| z in zones;
      var m := n - 1;
      if y :| y in zones && zones[y].index == m {
        var rest := zones - {y};
        assert rest.Keys == zones.Keys - {y};
        OnePerClass(rest, m);
      } else {
        OnePerClass(zones, m);
      }
    }
  }

  // ---------------------------------------------------------------- an input that fails

  /** A fresh heap of one zone on page 1 hands out an 8 KB chunk that is not aligned to 8 KB. */
  lemma MisalignedExample()
    ensures var pool := [Run(1, 8)];
            && Inv(pool, Initial(pool, 8)) && Pow2(8192)
            && var (r, h) := Malloc(pool, Initial(pool, 8), 8000);
               r == At(12288) && 12288 in h.live && h.live[12288] == 8192 && 12288 % 8192 != 0
  {
    var pool := [Run(1, 8)];
    InitialInv(pool, 8);
    var h := Initial(pool, 8);
    assert ZoneIndex(8000) == (63, 8192);
    OffsetOf8K();
    assert AllocPages(pool, 8).0 == PageList.Some(1);
    assert AddSpare(h).spare[0] == 1;
    assert Addr(1, 8192, 0) == 12288;
  }
}
