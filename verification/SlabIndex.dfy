/**
 Chunk classes and zone layout of slab.c.
 */
module SlabIndex {

  const PAGE: nat := 4096
  const CLASSES: nat := 72
  const HEADER: nat := 36

  /** `(n + a - 1) & ~(a - 1)` for a power of two `a`. */
  function RoundUp(n: nat, a: nat): nat
    requires a > 0
  {
    (n + a - 1) / a * a
  }

  /** zoneindex: the class of a request and the chunk size it is rounded to. */
  function ZoneIndex(n: nat): (nat, nat)
    requires 0 < n
  {
    if n < 128 then var c := RoundUp(n, 8); (c / 8 - 1, c)
    else if n < 256 then var c := RoundUp(n, 16); (c / 16 + 7, c)
    else if n < 512 then var c := RoundUp(n, 32); (c / 32 + 15, c)
    else if n < 1024 then var c := RoundUp(n, 64); (c / 64 + 23, c)
    else if n < 2048 then var c := RoundUp(n, 128); (c / 128 + 31, c)
    else if n < 4096 then var c := RoundUp(n, 256); (c / 256 + 39, c)
    else if n < 8192 then var c := RoundUp(n, 512); (c / 512 + 47, c)
    else if n < 16384 then var c := RoundUp(n, 1024); (c / 1024 + 55, c)
    else (0, n)
  }

  /** The chunk size of class `k`: eight steps to every doubling. */
  function ClassSize(k: nat): nat {
    if k < 16 then 8 * (k + 1)
    else if k < 24 then 16 * (k - 7)
    else if k < 32 then 32 * (k - 15)
    else if k < 40 then 64 * (k - 23)
    else if k < 48 then 128 * (k - 31)
    else if k < 56 then 256 * (k - 39)
    else if k < 64 then 512 * (k - 47)
    else 1024 * (k - 55)
  }

  lemma ClassSizesGrow(j: nat, k: nat)
    requires j < k
    ensures ClassSize(j) < ClassSize(k)
  {
  }

  lemma DivBounds(x: nat, a: nat)
    requires a > 0
    ensures x / a * a <= x < x / a * a + a
    ensures x % a == x - x / a * a
  {
    assert x == x / a * a + x % a;
  }

  lemma Quotient(x: nat, a: nat, q: nat)
    requires a > 0 && q * a <= x < q * a + a
    ensures x / a == q
  {
    var p := x / a;
    DivBounds(x, a);
    assert p < q ==> (p + 1) * a <= q * a;
    assert q < p ==> (q + 1) * a <= p * a;
  }

  lemma RoundUpTight(n: nat, a: nat)
    requires n > 0 && a > 0
    ensures var q := RoundUp(n, a) / a; q > 0 && RoundUp(n, a) == q * a && (q - 1) * a < n <= q * a
  {
    var p := (n + a - 1) / a;
    DivBounds(n + a - 1, a);
    assert (p - 1) * a == p * a - a;
    Quotient(p * a, a, p);
  }

  ghost predicate Fits(n: nat, k: nat, c: nat) {
    k < CLASSES && c == ClassSize(k) && n <= c && (k > 0 ==> ClassSize(k - 1) < n)
  }

  lemma RoundedSmall(n: nat)
    requires 0 < n < 1024
    ensures Fits(n, ZoneIndex(n).0, ZoneIndex(n).1)
  {
    if n < 128 {
      RoundUpTight(n, 8);
      assert Fits(n, RoundUp(n, 8) / 8 - 1, RoundUp(n, 8));
    } else if n < 256 {
      RoundUpTight(n, 16);
      assert Fits(n, RoundUp(n, 16) / 16 + 7, RoundUp(n, 16));
    } else if n < 512 {
      RoundUpTight(n, 32);
      assert Fits(n, RoundUp(n, 32) / 32 + 15, RoundUp(n, 32));
    } else {
      RoundUpTight(n, 64);
      assert Fits(n, RoundUp(n, 64) / 64 + 23, RoundUp(n, 64));
    }
  }

  lemma RoundedLarge(n: nat)
    requires 1024 <= n < 16384
    ensures Fits(n, ZoneIndex(n).0, ZoneIndex(n).1)
  {
    if n < 2048 {
      RoundUpTight(n, 128);
      assert Fits(n, RoundUp(n, 128) / 128 + 31, RoundUp(n, 128));
    } else if n < 4096 {
      RoundUpTight(n, 256);
      assert Fits(n, RoundUp(n, 256) / 256 + 39, RoundUp(n, 256));
    } else if n < 8192 {
      RoundUpTight(n, 512);
      assert Fits(n, RoundUp(n, 512) / 512 + 47, RoundUp(n, 512));
    } else {
      RoundUpTight(n, 1024);
      assert Fits(n, RoundUp(n, 1024) / 1024 + 55, RoundUp(n, 1024));
    }
  }

  /** A request gets the smallest of the 72 classes that can hold it. */
  lemma ZoneIndexBestFit(n: nat)
    requires 0 < n < 16384
    ensures var (k, c) := ZoneIndex(n);
            && k < CLASSES && c == ClassSize(k)
            && n <= c
            && (forall j :: 0 <= j < k ==> ClassSize(j) < n)
  {
    if n < 1024 { RoundedSmall(n); } else { RoundedLarge(n); }
    var k := ZoneIndex(n).0;
    forall j | 0 <= j < k
      ensures ClassSize(j) < n
    {
      if j < k - 1 {
        ClassSizesGrow(j, k - 1);
      }
    }
  }

  /** Rounding wastes less than eight bytes or less than an eighth of the request. */
  lemma ZoneIndexWaste(n: nat)
    requires 0 < n < 16384
    ensures var c := ZoneIndex(n).1; c - n < 8 || 8 * (c - n) < n
  {
  }

  /** A class's own size falls into that class: rounding twice changes nothing. */
  lemma ZoneIndexIdempotent(n: nat)
    requires 0 < n < 16384 && ZoneIndex(n).1 < 16384
    ensures ZoneIndex(ZoneIndex(n).1) == ZoneIndex(n)
  {
    var (k, c) := ZoneIndex(n);
    ZoneIndexBestFit(n);
    ZoneIndexBestFit(c);
    var j := ZoneIndex(c).0;
    assert j <= k;
    if j < k {
      ClassSizesGrow(j, k);
    }
  }

  // ---------------------------------------------------------------- zones

  /** A zone is 32, 64 or 128 KB. */
  predicate ZonePages(zp: nat) {
    zp == 8 || zp == 16 || zp == 32
  }

  /** Requests of at least this many bytes go to the page allocator. */
  function Limit(zp: nat): nat {
    if zp * PAGE / 4 > 16384 then 16384 else zp * PAGE / 4
  }

  /** The zone size chosen for a heap of `limit` bytes. */
  method ChooseZoneSize(limit: nat) returns (size: nat)
    ensures size % PAGE == 0 && ZonePages(size / PAGE)
    ensures size == 128 * 1024 || 2 * size >= limit / 1024
    ensures size == 32 * 1024 || size < limit / 1024
  {
    size := 32 * 1024;
    while size < 128 * 1024 && 2 * size < limit / 1024
      invariant size == 32 * 1024 || size == 64 * 1024 || size == 128 * 1024
      invariant size == 32 * 1024 || size < limit / 1024
      decreases 128 * 1024 - size
    {
      size := 2 * size;
    }
  }

  predicate Pow2(n: nat) {
    n == 1 || (n > 1 && n % 2 == 0 && Pow2(n / 2))
  }

  /** `i * a` as a recursion, so that proofs about addresses unfold it only where they need to. */
  function Times(i: nat, a: nat): nat {
    if i == 0 then 0 else Times(i - 1, a) + a
  }

  /** `x / a` likewise. */
  function Quot(x: nat, a: nat): nat
    requires a > 0
  {
    if x < a then 0 else 1 + Quot(x - a, a)
  }

  /** Where the chunks start, behind the zone header. */
  function Offset(chunk: nat): nat
    requires chunk > 0
  {
    if Pow2(chunk) then Times(Quot(HEADER + chunk - 1, chunk), chunk) else RoundUp(HEADER, 8)
  }

  /** How many chunks fit behind the header. */
  function Capacity(zp: nat, chunk: nat): nat
    requires ZonePages(zp) && chunk > 0
  {
    if zp * PAGE < Offset(chunk) then 0 else Quot(zp * PAGE - Offset(chunk), chunk)
  }

  lemma {:induction false} TimesIs(i: nat, a: nat)
    ensures Times(i, a) == i * a
  {
    if i > 0 {
      TimesIs(i - 1, a);
      assert i * a == (i - 1) * a + a;
    }
  }

  lemma {:induction false} QuotBounds(x: nat, a: nat)
    requires a > 0
    ensures Times(Quot(x, a), a) <= x < Times(Quot(x, a), a) + a
  {
    if x >= a {
      QuotBounds(x - a, a);
    }
  }

  lemma {:induction false} QuotTimes(i: nat, a: nat)
    requires a > 0
    ensures Quot(Times(i, a), a) == i
  {
    if i > 0 {
      QuotTimes(i - 1, a);
    }
  }

  /** Chunks of one zone do not overlap. */
  lemma {:induction false} ChunksApart(chunk: nat, i: nat, j: nat)
    requires i < j
    ensures Times(i, chunk) + chunk <= Times(j, chunk)
  {
    if i < j - 1 {
      ChunksApart(chunk, i, j - 1);
    }
  }

  lemma OffsetBounds(chunk: nat)
    requires chunk >= 8 && chunk % 8 == 0
    ensures HEADER <= Offset(chunk)
    ensures Offset(chunk) == chunk || Offset(chunk) <= 72
  {
    if Pow2(chunk) {
      var q := Quot(HEADER + chunk - 1, chunk);
      QuotBounds(HEADER + chunk - 1, chunk);
      assert Times(1, chunk) == chunk;
      if q > 1 {
        ChunksApart(chunk, 1, q);
      }
    }
  }

  lemma QuotAtLeastThree(x: nat, a: nat)
    requires a > 0 && x >= 3 * a
    ensures Quot(x, a) >= 3
  {
    assert Quot(x, a) == 1 + Quot(x - a, a) == 2 + Quot(x - a - a, a) == 3 + Quot(x - a - a - a, a);
  }

  /** Every zone holds at least three chunks, so a fresh one has some to spare. */
  lemma CapacityAtLeastThree(zp: nat, chunk: nat)
    requires ZonePages(zp) && 8 <= chunk <= Limit(zp) && chunk % 8 == 0
    ensures Capacity(zp, chunk) >= 3
    ensures Offset(chunk) + Times(Capacity(zp, chunk), chunk) <= zp * PAGE
  {
    OffsetBounds(chunk);
    var room := zp * PAGE - Offset(chunk);
    assert 3 * chunk <= room;
    QuotAtLeastThree(room, chunk);
    QuotBounds(room, chunk);
  }

  /** Chunk `i` lies inside the zone, behind the header. */
  lemma ChunkInside(zp: nat, chunk: nat, i: nat)
    requires ZonePages(zp) && 8 <= chunk <= Limit(zp) && chunk % 8 == 0 && i < Capacity(zp, chunk)
    ensures HEADER <= Offset(chunk) + Times(i, chunk)
    ensures Offset(chunk) + Times(i, chunk) + chunk <= zp * PAGE
  {
    CapacityAtLeastThree(zp, chunk);
    OffsetBounds(chunk);
    ChunksApart(chunk, i, Capacity(zp, chunk));
  }

  lemma ModStep(x: nat, a: nat)
    requires a > 0
    ensures (x + a) % a == x % a
  {
    DivBounds(x, a);
    Quotient(x + a, a, x / a + 1);
  }

  lemma {:induction false} ModOfMultiple(a: nat, b: nat, i: nat)
    requires a > 0
    ensures (b + Times(i, a)) % a == b % a
  {
    if i > 0 {
      ModOfMultiple(a, b, i - 1);
      ModStep(b + Times(i - 1, a), a);
    }
  }

  lemma {:induction false} Pow2Values(n: nat)
    requires Pow2(n) && n <= PAGE
    ensures n in {1, 2, 4, 8, 16, 32, 64, 128, 256, 512, 1024, 2048, 4096}
  {
    if n > 1 {
      Pow2Values(n / 2);
    }
  }

  lemma PageDivided(chunk: nat) returns (q: nat)
    requires Pow2(chunk) && chunk <= PAGE
    ensures Times(q, chunk) == PAGE
  {
    Pow2Values(chunk);
    q := if chunk == 1 then 4096 else if chunk == 2 then 2048 else if chunk == 4 then 1024
         else if chunk == 8 then 512 else if chunk == 16 then 256 else if chunk == 32 then 128
         else if chunk == 64 then 64 else if chunk == 128 then 32 else if chunk == 256 then 16
         else if chunk == 512 then 8 else if chunk == 1024 then 4 else if chunk == 2048 then 2 else 1;
    TimesIs(q, chunk);
  }

  /** What divides a page divides any number of pages. */
  lemma {:induction false} PagesAligned(zone: nat, chunk: nat, q: nat)
    requires chunk > 0 && Times(q, chunk) == PAGE
    ensures (zone * PAGE) % chunk == 0
  {
    if zone > 0 {
      PagesAligned(zone - 1, chunk, q);
      var b := (zone - 1) * PAGE;
      ModOfMultiple(chunk, b, q);
      assert b + Times(q, chunk) == zone * PAGE;
    } else {
      ModOfMultiple(chunk, 0, 0);
      DivBounds(0, chunk);
    }
  }

  /**
   A power-of-two chunk is aligned to its size exactly when its zone is, which is certain
   only up to the page size.
   */
  lemma AlignedIff(zone: nat, chunk: nat, i: nat)
    requires chunk > 0 && Pow2(chunk)
    ensures (zone * PAGE + Offset(chunk) + Times(i, chunk)) % chunk == 0 <==> (zone * PAGE) % chunk == 0
    ensures chunk <= PAGE ==> (zone * PAGE) % chunk == 0
  {
    ModOfMultiple(chunk, zone * PAGE, Quot(HEADER + chunk - 1, chunk));
    ModOfMultiple(chunk, zone * PAGE + Offset(chunk), i);
    if chunk <= PAGE {
      var q := PageDivided(chunk);
      PagesAligned(zone, chunk, q);
    }
  }

  lemma OffsetOf8K()
    ensures Pow2(8192) && Offset(8192) == 8192
  {
    assert Pow2(1) && Pow2(2) && Pow2(4) && Pow2(8) && Pow2(16) && Pow2(32) && Pow2(64) && Pow2(128);
    assert Pow2(256) && Pow2(512) && Pow2(1024) && Pow2(2048) && Pow2(4096) && Pow2(8192);
    QuotBounds(HEADER + 8191, 8192);
    assert Times(1, 8192) == 8192;
  }
}
