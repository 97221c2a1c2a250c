/**
 The zone allocator of slab.c on top of the page list.

 A zone is named by its first page and a chunk by its number within the zone. `large`
 and `live` record what callers hold: whole page runs, and every address handed out with
 its size.
 */
module Slab {
  import opened Links
  import opened WaitLists
  import opened PageList
  import opened SlabIndex

  type pos = x: nat | x > 0 witness 1

  datatype Usage = FreePage | SmallPage(off: nat) | LargePage(pages: nat)

  datatype Zone = Zone(index: nat, chunk: pos, nmax: nat, nfree: int, uindex: nat, free: seq<nat>)

  datatype Heap = Heap(
    zp: nat,                     // zone_page_cnt
    runs: seq<Run>,              // rt_page_list
    usage: map<nat, Usage>,      // memusage
    zones: map<nat, Zone>,       // headers of the zones in use
    lists: seq<seq<nat>>,        // zone_array
    spare: seq<nat>,             // zone_free
    spareCnt: nat,               // zone_free_cnt
    used: int,                   // used_mem
    max: int,                    // max_mem
    large: map<nat, nat>,
    live: map<nat, nat>)

  function Addr(z: nat, chunk: pos, i: nat): nat {
    z * PAGE + Offset(chunk) + Times(i, chunk)
  }

  // ---------------------------------------------------------------- which object an address is

  datatype Object = Whole(page: nat) | Chunk(zone: nat, number: nat) | Unknown

  /** How rt_free and rt_realloc find the object behind an address. */
  function Decode(usage: map<nat, Usage>, zones: map<nat, Zone>, a: nat): Object {
    var page := a / PAGE;
    if page !in usage then Unknown else
    match usage[page]
    case LargePage(_) => Whole(page)
    case FreePage => Unknown
    case SmallPage(o) =>
      if o <= page && page - o in zones && a >= Addr(page - o, zones[page - o].chunk, 0)
      then Chunk(page - o, Quot(a - Addr(page - o, zones[page - o].chunk, 0), zones[page - o].chunk))
      else Unknown
  }

  // ---------------------------------------------------------------- the invariant

  ghost function Total(m: map<nat, nat>): nat {
    if m == map[] then 0 else
    var k :| k in m;
    m[k] + Total(m - {k})
  }

  /** Live chunks, free list and never-used tail: the counters describe a partition. */
  ghost predicate ZoneOk(zp: nat, e: Zone) {
    && ZonePages(zp)
    && e.index < CLASSES && e.chunk == ClassSize(e.index) && e.chunk <= Limit(zp)
    && e.nmax == Capacity(zp, e.chunk)
    && e.uindex < e.nmax
    && Distinct(e.free)
    && (forall i :: i in e.free ==> i <= e.uindex)
    && e.nfree == (e.nmax - 1 - e.uindex) + |e.free|
  }

  ghost predicate ZonesOk(zp: nat, zones: map<nat, Zone>) {
    forall z :: z in zones ==> ZoneOk(zp, zones[z])
  }

  ghost predicate ListedAt(list: seq<nat>, zones: map<nat, Zone>, k: nat, z: nat) {
    z in list <==> z in zones && zones[z].index == k && zones[z].nfree > 0
  }

  /** A zone is on the list of its class exactly while it has free chunks. */
  ghost predicate ListsOk(lists: seq<seq<nat>>, zones: map<nat, Zone>) {
    && |lists| == CLASSES
    && (forall k, z :: 0 <= k < CLASSES ==> ListedAt(lists[k], zones, k, z))
    && (forall k :: 0 <= k < CLASSES ==> Distinct(lists[k]))
  }

  ghost predicate KeysOk(h: Heap) {
    && (forall z :: z in h.zones ==> z !in h.large && z !in h.spare)
    && (forall z :: z in h.spare ==> z !in h.large)
    && Distinct(h.spare) && h.spareCnt == |h.spare|
  }

  ghost function Blocks(h: Heap): map<nat, nat> {
    map p | p in h.zones.Keys + h.large.Keys + (set z | z in h.spare) :: if p in h.large then h.large[p] else h.zp
  }

  ghost predicate SmallAt(usage: map<nat, Usage>, z: nat, o: nat) {
    z + o in usage && usage[z + o] == SmallPage(o)
  }

  ghost predicate UsageOk(h: Heap) {
    && (forall z, o {:trigger SmallAt(h.usage, z, o)} ::
          (z in h.zones || z in h.spare) && 0 <= o < h.zp ==> SmallAt(h.usage, z, o))
    && (forall p :: p in h.large ==> p in h.usage && h.usage[p] == LargePage(h.large[p]))
  }

  /** Chunk `i` has been handed out and not come back. */
  ghost predicate Out(e: Zone, i: nat) {
    i <= e.uindex && i !in e.free
  }

  ghost predicate SlotOk(live: map<nat, nat>, z: nat, e: Zone, i: nat) {
    var a := Addr(z, e.chunk, i);
    && (a in live <==> Out(e, i))
    && (a in live ==> live[a] == e.chunk)
  }

  /** `a` is what rt_malloc returned for some object that is still out. */
  ghost predicate Known(h: Heap, a: nat) {
    match Decode(h.usage, h.zones, a)
    case Whole(p) => p in h.large && a == p * PAGE
    case Chunk(z, i) => z in h.zones && i < h.zones[z].nmax && a == Addr(z, h.zones[z].chunk, i)
    case Unknown => false
  }

  ghost predicate LargeAt(h: Heap, p: nat)
    requires p in h.large
  {
    p * PAGE in h.live && h.live[p * PAGE] == h.large[p] * PAGE
  }

  ghost predicate LiveOk(h: Heap) {
    && (forall p {:trigger LargeAt(h, p)} :: p in h.large ==> LargeAt(h, p))
    && (forall z, i :: z in h.zones && 0 <= i < h.zones[z].nmax ==> SlotOk(h.live, z, h.zones[z], i))
    && (forall a {:trigger Known(h, a)} :: a in h.live ==> Known(h, a))
  }

  /** What holds between any two steps; `pool` lists the pages the heap started with. */
  ghost predicate Core(pool: seq<Run>, h: Heap) {
    && ZonePages(h.zp)
    && ZonesOk(h.zp, h.zones) && ListsOk(h.lists, h.zones) && KeysOk(h) && UsageOk(h) && LiveOk(h)
    && PagesOk(pool, h.runs, Blocks(h))
    && h.used == Total(h.live) && h.used <= h.max
  }

  /** Every chunk of the zone has come back. */
  ghost predicate Idle(e: Zone) {
    e.nfree == e.nmax
  }

  /** No class keeps two zones that nobody uses. */
  ghost predicate OneIdle(zones: map<nat, Zone>) {
    forall y, z :: y in zones && z in zones && y != z && Idle(zones[y]) && Idle(zones[z]) ==>
      zones[y].index != zones[z].index
  }

  /** What holds between any two calls: at most two empty zones are kept back. */
  ghost predicate Inv(pool: seq<Run>, h: Heap) {
    Core(pool, h) && OneIdle(h.zones) && |h.spare| <= 2
  }

  // ---------------------------------------------------------------- operations

  datatype Result = Null | At(addr: nat)

  function Granted(h: Heap, a: nat, n: nat): Heap {
    h.(live := h.live[a := n], used := h.used + n, max := if h.used + n > h.max then h.used + n else h.max)
  }

  function Returned(h: Heap, a: nat): Heap
    requires a in h.live
  {
    h.(live := h.live - {a}, used := h.used - h.live[a])
  }

  function TakeLarge(h: Heap, n: nat): (Result, Heap) {
    match AllocPages(h.runs, n)
    case (None, _) => (Null, h)
    case (Some(p), runs) =>
      (At(p * PAGE),
       Granted(h.(runs := runs, usage := h.usage[p := LargePage(n)], large := h.large[p := n]), p * PAGE, n * PAGE))
  }

  /** A zone gives a never-used chunk while it has one, or else the first of its free list. */
  function Pick(e: Zone): (nat, Zone)
    requires e.uindex + 1 == e.nmax ==> e.free != []
  {
    if e.uindex + 1 != e.nmax then (e.uindex + 1, e.(nfree := e.nfree - 1, uindex := e.uindex + 1))
    else (e.free[0], e.(nfree := e.nfree - 1, free := e.free[1..]))
  }

  /** The head zone of class `k` serves the request and leaves the list when it has nothing more. */
  function TakeChunk(h: Heap, k: nat): (Result, Heap)
    requires k < |h.lists| && h.lists[k] != [] && h.lists[k][0] in h.zones
    requires var e := h.zones[h.lists[k][0]]; e.uindex + 1 == e.nmax ==> e.free != []
  {
    var z := h.lists[k][0];
    var (i, e) := Pick(h.zones[z]);
    var lists := if e.nfree == 0 then h.lists[k := h.lists[k][1..]] else h.lists;
    var a := Addr(z, e.chunk, i);
    (At(a), Granted(h.(lists := lists, zones := h.zones[z := e]), a, e.chunk))
  }

  /** Every page of a new zone records its distance from the zone header. */
  function Marked(usage: map<nat, Usage>, p: nat, n: nat): (r: map<nat, Usage>)
    ensures forall o :: 0 <= o < n ==> SmallAt(r, p, o)
    ensures UnchangedBeyond(usage, r, p, n)
  {
    if n == 0 then usage else
    var r := Marked(usage, p, n - 1);
    var r' := r[p + n - 1 := SmallPage(n - 1)];
    assert forall o :: 0 <= o < n - 1 ==> SmallAt(r, p, o) ==> SmallAt(r', p, o);
    r'
  }

  function Unmarked(usage: map<nat, Usage>, p: nat, n: nat): (r: map<nat, Usage>)
    ensures forall o :: p <= o < p + n ==> o in r && r[o] == FreePage
    ensures UnchangedBeyond(usage, r, p, n)
  {
    if n == 0 then usage else Unmarked(usage, p, n - 1)[p + n - 1 := FreePage]
  }

  ghost predicate UnchangedBeyond(u: map<nat, Usage>, v: map<nat, Usage>, p: nat, n: nat) {
    forall q :: !(p <= q < p + n) ==> (q in u <==> q in v) && (q in u ==> u[q] == v[q])
  }

  /** Pages become an empty zone. */
  function AddSpare(h: Heap): Heap {
    match AllocPages(h.runs, h.zp)
    case (None, _) => h
    case (Some(p), runs) =>
      h.(runs := runs, usage := Marked(h.usage, p, h.zp), spare := [p] + h.spare, spareCnt := h.spareCnt + 1)
  }

  /** An empty zone is laid out for class `k`; its first chunk is handed out. */
  function OpenZone(h: Heap, k: nat, chunk: pos): (Result, Heap)
    requires ZonePages(h.zp) && h.spare != [] && h.spareCnt > 0 && k < |h.lists|
  {
    var z := h.spare[0];
    var nmax := Capacity(h.zp, chunk);
    var e := Zone(k, chunk, nmax, nmax - 1, 0, []);
    var a := Addr(z, chunk, 0);
    (At(a), Granted(h.(spare := h.spare[1..], spareCnt := h.spareCnt - 1,
                       zones := h.zones[z := e], lists := h.lists[k := [z] + h.lists[k]]), a, chunk))
  }

  ghost function MallocSmall(pool: seq<Run>, h: Heap, k: nat, chunk: pos): (Result, Heap)
    requires Core(pool, h) && k < CLASSES
  {
    if h.lists[k] != [] then
      HeadZone(h, k);
      TakeChunk(h, k)
    else
      var g := if h.spare == [] then AddSpare(h) else h;
      if g.spare == [] then (Null, h) else OpenZone(g, k, chunk)
  }

  /** rt_malloc. */
  ghost function Malloc(pool: seq<Run>, h: Heap, size: nat): (Result, Heap)
    requires Core(pool, h)
  {
    if size == 0 then (Null, h)
    else if size >= Limit(h.zp) then TakeLarge(h, RoundUp(size, PAGE) / PAGE)
    else
      ClassBelowLimit(h.zp, size);
      MallocSmall(pool, h, ZoneIndex(size).0, ZoneIndex(size).1)
  }

  function GiveLarge(h: Heap, p: nat): Heap
    requires p in h.large && p * PAGE in h.live
  {
    var n := h.large[p];
    Returned(h.(runs := FreePages(h.runs, p, n), usage := h.usage[p := LargePage(0)], large := h.large - {p}), p * PAGE)
  }

  /** The chunk goes to the head of the free list; a full zone goes back on its list. */
  function GiveChunk(h: Heap, z: nat, i: nat): Heap
    requires z in h.zones && h.zones[z].index < |h.lists| && Addr(z, h.zones[z].chunk, i) in h.live
  {
    var e := h.zones[z];
    var lists := if e.nfree == 0 then h.lists[e.index := [z] + h.lists[e.index]] else h.lists;
    Returned(h.(zones := h.zones[z := e.(free := [i] + e.free, nfree := e.nfree + 1)], lists := lists),
             Addr(z, e.chunk, i))
  }

  /** A zone without live chunks is put aside when its class has another zone. */
  function Retire(h: Heap, z: nat): Heap
    requires z in h.zones && h.zones[z].index < |h.lists|
  {
    var e := h.zones[z];
    if e.nfree == e.nmax && h.lists[e.index] != [z] then
      h.(zones := h.zones - {z}, lists := h.lists[e.index := Without(h.lists[e.index], z)],
         spare := [z] + h.spare, spareCnt := h.spareCnt + 1)
    else h
  }

  /** Of more than two empty zones the newest goes back to the page allocator. */
  function ReleaseSpare(h: Heap): Heap
    requires h.spareCnt == |h.spare|
  {
    if h.spareCnt > 2 then
      var z := h.spare[0];
      h.(spare := h.spare[1..], spareCnt := h.spareCnt - 1, usage := Unmarked(h.usage, z, h.zp),
         runs := FreePages(h.runs, z, h.zp))
    else h
  }

  /** rt_free of an address that is out. */
  ghost function Free(pool: seq<Run>, h: Heap, a: nat): Heap
    requires Core(pool, h) && a in h.live
  {
    assert Known(h, a);
    match Decode(h.usage, h.zones, a)
    case Whole(p) => GiveLarge(h, p)
    case Chunk(z, i) => ReleaseSpare(Retire(GiveChunk(h, z, i), z))
    case Unknown => h
  }

  // ---------------------------------------------------------------- small facts

  lemma ClassBelowLimit(zp: nat, n: nat)
    requires ZonePages(zp) && 0 < n < Limit(zp)
    ensures var (k, c) := ZoneIndex(n); k < CLASSES && c == ClassSize(k) && n <= c <= Limit(zp) && c > 0
  {
    ZoneIndexBestFit(n);
    var (k, c) := ZoneIndex(n);
    var j := if zp == 8 then 63 else 71;
    assert ClassSize(j) == Limit(zp);
    assert k <= j;
    if k < j {
      ClassSizesGrow(k, j);
    }
  }

  lemma ClassBounds(k: nat)
    ensures ClassSize(k) >= 8 && ClassSize(k) % 8 == 0
  {
  }

  /** The zone at the head of a class list has something to give. */
  lemma HeadZone(h: Heap, k: nat)
    requires ZonesOk(h.zp, h.zones) && ListsOk(h.lists, h.zones) && k < CLASSES && h.lists[k] != []
    ensures h.lists[k][0] in h.zones
    ensures var e := h.zones[h.lists[k][0]]; e.index == k && e.nfree > 0 && (e.uindex + 1 == e.nmax ==> e.free != [])
  {
    var z := h.lists[k][0];
    assert ListedAt(h.lists[k], h.zones, k, z);
    assert ZoneOk(h.zp, h.zones[z]);
  }
}
