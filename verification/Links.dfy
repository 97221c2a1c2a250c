/**
 The intrusive doubly linked lists of rtservice.h.

 A list node is identified by its address. The whole memory of links is a pair of
 maps `next` and `prev`; a circular list is described by the sequence of the
 addresses met when following `next` once around, list head first.
 */
module Links {

  ghost predicate Distinct<T(!new)>(s: seq<T>) {
    forall i, j :: 0 <= i < j < |s| ==> s[i] != s[j]
  }

  ghost function After(s: seq<int>, i: int): int
    requires 0 <= i < |s|
  {
    if i + 1 < |s| then s[i + 1] else s[0]
  }

  ghost function Before(s: seq<int>, i: int): int
    requires 0 <= i < |s|
  {
    if i > 0 then s[i - 1] else s[|s| - 1]
  }

  /** The node at position `i` is linked to its two neighbours in `s`. */
  ghost predicate LinkedAt(next: map<int, int>, prev: map<int, int>, s: seq<int>, i: int)
    requires 0 <= i < |s|
  {
    && s[i] in next && next[s[i]] == After(s, i)
    && s[i] in prev && prev[s[i]] == Before(s, i)
  }

  /** `s` is a circular list of the link memory: both directions agree with it. */
  ghost predicate Ring(next: map<int, int>, prev: map<int, int>, s: seq<int>) {
    && |s| > 0
    && Distinct(s)
    && (forall i {:trigger LinkedAt(next, prev, s, i)} :: 0 <= i < |s| ==> LinkedAt(next, prev, s, i))
  }

  ghost function Inserted<T>(s: seq<T>, k: nat, n: T): seq<T>
    requires k <= |s|
  {
    s[..k] + [n] + s[k..]
  }

  ghost function Removed<T>(s: seq<T>, k: nat): seq<T>
    requires k < |s|
  {
    s[..k] + s[k + 1..]
  }

  /** In a ring `next` and `prev` are mutual inverses that never leave the ring. */
  lemma RingInverse(next: map<int, int>, prev: map<int, int>, s: seq<int>, x: int)
    requires Ring(next, prev, s) && x in s
    ensures x in next && next[x] in s && next[x] in prev && prev[next[x]] == x
    ensures x in prev && prev[x] in s && prev[x] in next && next[prev[x]] == x
  {
    var i :| 0 <= i < |s| && s[i] == x;
    assert LinkedAt(next, prev, s, i);
    assert LinkedAt(next, prev, s, if i + 1 < |s| then i + 1 else 0);
    assert LinkedAt(next, prev, s, if i > 0 then i - 1 else |s| - 1);
  }

  /** The four writes of rt_list_insert_after put `n` right behind position `k`. */
  lemma InsertAfterRing(next: map<int, int>, prev: map<int, int>, s: seq<int>, k: nat, n: int,
                        next': map<int, int>, prev': map<int, int>)
    requires Ring(next, prev, s) && k < |s| && n !in s && s[k] in next
    requires next' == next[n := next[s[k]]][s[k] := n]
    requires prev' == prev[next[s[k]] := n][n := s[k]]
    ensures Ring(next', prev', Inserted(s, k + 1, n))
  {
    var t := Inserted(s, k + 1, n);
    assert LinkedAt(next, prev, s, k);
    forall i | 0 <= i < |t|
      ensures LinkedAt(next', prev', t, i)
    {
      if i <= k {
        assert LinkedAt(next, prev, s, i);
      } else if i > k + 1 {
        assert LinkedAt(next, prev, s, i - 1);
      }
    }
  }

  /** The first two writes of rt_list_remove unlink the node at position `k`. */
  lemma RemoveRing(next: map<int, int>, prev: map<int, int>, s: seq<int>, k: nat,
                   next': map<int, int>, prev': map<int, int>)
    requires Ring(next, prev, s) && k < |s| && |s| > 1
    requires s[k] in next && s[k] in prev
    requires prev' == prev[next[s[k]] := prev[s[k]]]
    requires next' == next[prev[s[k]] := next[s[k]]]
    ensures Ring(next', prev', Removed(s, k))
  {
    var t := Removed(s, k);
    assert LinkedAt(next, prev, s, k);
    forall i | 0 <= i < |t|
      ensures LinkedAt(next', prev', t, i)
    {
      assert LinkedAt(next, prev, s, if i < k then i else i + 1);
    }
  }

  ghost predicate SameLinks(next: map<int, int>, prev: map<int, int>,
                            next': map<int, int>, prev': map<int, int>, x: int)
  {
    && (x in next <==> x in next') && (x in next ==> next'[x] == next[x])
    && (x in prev <==> x in prev') && (x in prev ==> prev'[x] == prev[x])
  }

  /** Writes outside a ring leave it alone. */
  lemma RingFrame(next: map<int, int>, prev: map<int, int>, s: seq<int>,
                  next': map<int, int>, prev': map<int, int>)
    requires Ring(next, prev, s)
    requires forall i :: 0 <= i < |s| ==> SameLinks(next, prev, next', prev', s[i])
    ensures Ring(next', prev', s)
  {
    forall i | 0 <= i < |s|
      ensures LinkedAt(next', prev', s, i)
    {
      assert SameLinks(next, prev, next', prev', s[i]);
      assert LinkedAt(next, prev, s, i);
    }
  }

  /** What a write to the links of `changed` may not touch. */
  ghost predicate SameOutside(next: map<int, int>, prev: map<int, int>,
                              next': map<int, int>, prev': map<int, int>, changed: seq<int>)
  {
    forall x :: x !in changed ==> SameLinks(next, prev, next', prev', x)
  }

  /** The link words of all lists, written in place by the inline functions of rtservice.h. */
  class LinkMemory {
    var next: map<int, int>
    var prev: map<int, int>

    constructor ()
      ensures next == map[] && prev == map[]
    {
      next, prev := map[], map[];
    }

    method Init(l: int)
      modifies this
      ensures Ring(next, prev, [l])
      ensures SameOutside(old(next), old(prev), next, prev, [l])
    {
      next := next[l := l];
      prev := prev[l := l];
      assert LinkedAt(next, prev, [l], 0);
    }

    method InsertAfter(l: int, n: int, ghost s: seq<int>, ghost k: nat)
      requires Ring(next, prev, s) && k < |s| && s[k] == l && n !in s
      modifies this
      ensures Ring(next, prev, Inserted(s, k + 1, n))
      ensures SameOutside(old(next), old(prev), next, prev, s + [n])
    {
      assert LinkedAt(next, prev, s, k);
      assert After(s, k) in s;
      prev := prev[next[l] := n];
      next := next[n := next[l]];
      next := next[l := n];
      prev := prev[n := l];
      InsertAfterRing(old(next), old(prev), s, k, n, next, prev);
    }

    /** Before the head means at the tail. */
    method InsertBefore(l: int, n: int, ghost s: seq<int>, ghost k: nat)
      requires Ring(next, prev, s) && k < |s| && s[k] == l && n !in s
      modifies this
      ensures Ring(next, prev, Inserted(s, if k == 0 then |s| else k, n))
      ensures SameOutside(old(next), old(prev), next, prev, s + [n])
    {
      ghost var j := if k == 0 then |s| - 1 else k - 1;
      assert LinkedAt(next, prev, s, k) && LinkedAt(next, prev, s, j);
      assert s[j] in s;
      next := next[prev[l] := n];
      prev := prev[n := prev[l]];
      prev := prev[l := n];
      next := next[n := l];
      InsertAfterRing(old(next), old(prev), s, j, n, next, prev);
    }

    /** The removed node becomes a ring of its own, so removing it again is harmless. */
    method Remove(n: int, ghost s: seq<int>, ghost k: nat)
      requires Ring(next, prev, s) && k < |s| && s[k] == n
      modifies this
      ensures Ring(next, prev, [n])
      ensures |s| > 1 ==> Ring(next, prev, Removed(s, k))
      ensures SameOutside(old(next), old(prev), next, prev, s)
    {
      assert LinkedAt(next, prev, s, k);
      assert After(s, k) in s && Before(s, k) in s;
      prev := prev[next[n] := prev[n]];
      next := next[prev[n] := next[n]];
      ghost var next1, prev1 := next, prev;
      next := next[n := n];
      prev := prev[n := n];
      assert LinkedAt(next, prev, [n], 0);
      if |s| > 1 {
        assert After(s, k) != n && Before(s, k) != n;
        RemoveRing(old(next), old(prev), s, k, next1, prev1);
        var t := Removed(s, k);
        RingFrame(next1, prev1, t, next, prev);
      }
    }

    method Len(l: int, ghost s: seq<int>) returns (len: nat)
      requires Ring(next, prev, s) && s[0] == l
      ensures len == |s| - 1
    {
      len := 0;
      var p := l;
      assert LinkedAt(next, prev, s, 0);
      while next[p] != l
        invariant len < |s| && p == s[len] && LinkedAt(next, prev, s, len)
        decreases |s| - len
      {
        p := next[p];
        len := len + 1;
        assert LinkedAt(next, prev, s, len);
      }
    }
  }
}
