/**
 rt_memcpy of kservice.c on a byte memory: sixteen bytes at a time, then words, then bytes.
 */
module MemCopy {

  const BIG_BLOCK: nat := 16
  const LITTLE_BLOCK: nat := 4

  /** `r` is `bytes` with `n` bytes at `dst` replaced by those at `src`. */
  ghost predicate CopyOf(r: seq<int>, bytes: seq<int>, dst: nat, src: nat, n: nat)
    requires dst + n <= |bytes| && src + n <= |bytes|
  {
    && |r| == |bytes|
    && (forall x {:trigger r[x]} :: 0 <= x < |bytes| ==> r[x] == bytes[From(dst, src, n, x)])
  }

  /** Where the byte at `x` comes from. */
  function From(dst: nat, src: nat, n: nat, x: int): int {
    if dst <= x < dst + n then src + x - dst else x
  }

  ghost predicate Disjoint(dst: nat, src: nat, n: nat) {
    dst + n <= src || src + n <= dst
  }

  /** One assignment through a pointer to a word. */
  function PutWord(r: seq<int>, dst: nat, src: nat): (r': seq<int>)
    requires dst + 4 <= |r| && src + 4 <= |r|
    ensures |r'| == |r|
    ensures forall x {:trigger r'[x]} :: 0 <= x < |r| ==> r'[x] == r[From(dst, src, 4, x)]
  {
    r[dst := r[src]][dst + 1 := r[src + 1]][dst + 2 := r[src + 2]][dst + 3 := r[src + 3]]
  }

  /** Copying one more word extends a copy. */
  lemma ExtendWord(r: seq<int>, bytes: seq<int>, dst: nat, src: nat, n: nat, done: nat)
    requires dst + n <= |bytes| && src + n <= |bytes| && Disjoint(dst, src, n) && done + 4 <= n
    requires CopyOf(r, bytes, dst, src, done)
    ensures CopyOf(PutWord(r, dst + done, src + done), bytes, dst, src, done + 4)
  {
    var r' := PutWord(r, dst + done, src + done);
    forall x | 0 <= x < |bytes|
      ensures r'[x] == bytes[From(dst, src, done + 4, x)]
    {
      var y := From(dst + done, src + done, 4, x);
      assert r'[x] == r[y] == bytes[From(dst, src, done, y)];
    }
  }

  /** The loops of rt_memcpy leave exactly the source bytes in the destination. */
  method MemCopy(bytes: seq<int>, dst: nat, src: nat, n: nat) returns (r: seq<int>)
    requires dst + n <= |bytes| && src + n <= |bytes| && Disjoint(dst, src, n)
    ensures CopyOf(r, bytes, dst, src, n)
  {
    r := bytes;
    var done := 0;
    if n >= BIG_BLOCK && dst % 4 == 0 && src % 4 == 0 {
      r, done := CopyWords(bytes, dst, src, n);
    }
    while done < n
      invariant 0 <= done <= n && CopyOf(r, bytes, dst, src, done)
    {
      ghost var before := r;
      r := r[dst + done := r[src + done]];
      forall x | 0 <= x < |bytes|
        ensures r[x] == bytes[From(dst, src, done + 1, x)]
      {
        var y := From(dst + done, src + done, 1, x);
        assert r[x] == before[y] == bytes[From(dst, src, done, y)];
      }
      done := done + 1;
    }
  }

  /** One more word. */
  method CopyWord(r: seq<int>, ghost bytes: seq<int>, dst: nat, src: nat, ghost n: nat, done: nat)
    returns (r': seq<int>)
    requires dst + n <= |bytes| && src + n <= |bytes| && Disjoint(dst, src, n) && done + 4 <= n
    requires CopyOf(r, bytes, dst, src, done)
    ensures CopyOf(r', bytes, dst, src, done + 4)
  {
    ExtendWord(r, bytes, dst, src, n, done);
    r' := PutWord(r, dst + done, src + done);
  }

  /** The two word loops: four words a round, then one. */
  method CopyWords(bytes: seq<int>, dst: nat, src: nat, n: nat) returns (r: seq<int>, done: nat)
    requires dst + n <= |bytes| && src + n <= |bytes| && Disjoint(dst, src, n)
    ensures done <= n < done + LITTLE_BLOCK && CopyOf(r, bytes, dst, src, done)
  {
    r, done := bytes, 0;
    while n - done >= BIG_BLOCK
      invariant 0 <= done <= n && CopyOf(r, bytes, dst, src, done)
    {
      r := CopyWord(r, bytes, dst, src, n, done);
      r := CopyWord(r, bytes, dst, src, n, done + 4);
      r := CopyWord(r, bytes, dst, src, n, done + 8);
      r := CopyWord(r, bytes, dst, src, n, done + 12);
      done := done + BIG_BLOCK;
    }
    while n - done >= LITTLE_BLOCK
      invariant 0 <= done <= n && CopyOf(r, bytes, dst, src, done)
    {
      r := CopyWord(r, bytes, dst, src, n, done);
      done := done + LITTLE_BLOCK;
    }
  }
}
