/**
 The memory heap of memheap.c: blocks in a ring ordered by address, free blocks in a second
 ring, and a running count of the bytes that are available.
 */
module MemHeap {
  import opened HeapBlocks

  const HDR: nat := 24          // RT_MEMHEAP_SIZE on a 32-bit target
  const WORD32: nat := 0x1_0000_0000
  const HEAD: int := -1         // the free list header, outside the pool
  const NIL: int := -2

  /** RT_ALIGN(size, 4) in 32-bit arithmetic, then at least the minimum. */
  function Request(size: nat): (r: nat)
    ensures r >= MIN && r % 4 == 0
    ensures size <= WORD32 - 4 ==> r >= size
  {
    var aligned := (size + 3) % WORD32 / 4 * 4;
    if aligned < MIN then MIN else aligned
  }

  /** The test for growing in place, in 32-bit arithmetic. */
  predicate GrowTest(oldsize: nat, nextsize: nat, size: nat) {
    (nextsize + oldsize) % WORD32 > (size + MIN) % WORD32
  }

  /** For a block and its successor it is the comparison of the sums exactly when the right one fits 32 bits. */
  lemma GrowTestIff(oldsize: nat, nextsize: nat, size: nat)
    requires MIN <= oldsize && oldsize + nextsize < WORD32 && size < WORD32
    ensures (GrowTest(oldsize, nextsize, size) <==> nextsize + oldsize > size + MIN) <==> size + MIN < WORD32
    ensures size + MIN >= WORD32 ==> GrowTest(oldsize, nextsize, size)
  {
  }

  /** The sizes whose sum wraps. */
  lemma WrappingSizes(bytes: nat)
    requires bytes < WORD32
    ensures Request(bytes) < WORD32
    ensures Request(bytes) + MIN >= WORD32 <==> 0xFFFF_FFF1 <= bytes <= 0xFFFF_FFFC
  {
  }

  /** A block of 100 bytes with a free successor of 200 is found large enough for 0xFFFFFFF8 bytes. */
  lemma WrapExample()
    ensures Request(0xFFFF_FFF8) == 0xFFFF_FFF8
    ensures GrowTest(100, 200, 0xFFFF_FFF8) && 200 + 100 <= 0xFFFF_FFF8 + MIN
  {
    assert (0xFFFF_FFF8 + MIN) % WORD32 == 4;
  }

  function Max(a: int, b: int): int {
    if a < b then b else a
  }

  ghost function MaxOf(s: seq<int>): int
    requires s != []
  {
    if |s| == 1 then s[0] else Max(MaxOf(s[..|s| - 1]), s[|s| - 1])
  }

  lemma {:induction false} MaxOfIs(s: seq<int>)
    requires s != []
    ensures MaxOf(s) in s && forall x :: x in s ==> x <= MaxOf(s)
  {
    var n := |s| - 1;
    assert s == s[..n] + [s[n]];
    if n > 0 {
      MaxOfIs(s[..n]);
    }
  }

  lemma MaxOfNext(s: seq<int>, x: int)
    requires s != []
    ensures MaxOf(s + [x]) == Max(MaxOf(s), x) && s[|s| - 1] <= MaxOf(s)
  {
    assert (s + [x])[..|s|] == s;
  }
}
