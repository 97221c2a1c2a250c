/**
 The ready bitmap as words: setting and clearing one bit, and the lookup with find-first-set.
 */
module ReadyWords {
  import opened ReadyBits

  function Power(n: nat): nat {
    if n == 0 then 1 else 2 * Power(n - 1)
  }

  /** `v | (1 << k)` */
  function OrBit(v: nat, k: nat): nat {
    if k == 0 then v / 2 * 2 + 1 else 2 * OrBit(v / 2, k - 1) + v % 2
  }

  /** `v & ~(1 << k)` */
  function AndNotBit(v: nat, k: nat): nat {
    if k == 0 then v / 2 * 2 else 2 * AndNotBit(v / 2, k - 1) + v % 2
  }

  lemma {:induction false} OrBitHas(v: nat, k: nat, j: nat)
    ensures HasBit(OrBit(v, k), j) <==> HasBit(v, j) || j == k
  {
    if k > 0 && j > 0 {
      OrBitHas(v / 2, k - 1, j - 1);
    }
  }

  lemma {:induction false} AndNotBitHas(v: nat, k: nat, j: nat)
    ensures HasBit(AndNotBit(v, k), j) <==> HasBit(v, j) && j != k
  {
    if k > 0 && j > 0 {
      AndNotBitHas(v / 2, k - 1, j - 1);
    }
  }

  /** Neither leaves the width of the word. */
  lemma WordBounds(v: nat, k: nat, n: nat)
    requires v < Power(n) && k < n
    ensures OrBit(v, k) < Power(n) && AndNotBit(v, k) < Power(n)
  {
    OrBitBounds(v, k, n);
    AndNotBitBounds(v, k);
  }

  lemma {:induction false} OrBitBounds(v: nat, k: nat, n: nat)
    requires v < Power(n) && k < n
    ensures OrBit(v, k) < Power(n)
  {
    var half := Power(n - 1);
    assert Power(n) == 2 * half && v / 2 < half;
    if k > 0 {
      OrBitBounds(v / 2, k - 1, n - 1);
    }
  }

  lemma {:induction false} AndNotBitBounds(v: nat, k: nat)
    ensures AndNotBit(v, k) <= v
  {
    if k > 0 {
      AndNotBitBounds(v / 2, k - 1);
    }
  }

  lemma {:induction false} NoHighBits(v: nat, k: nat, n: nat)
    requires v < Power(n) && k >= n
    ensures !HasBit(v, k)
  {
    if n > 0 {
      NoHighBits(v / 2, k - 1, n - 1);
    } else if k > 0 {
      NoHighBits(0, k - 1, 0);
    }
  }

  lemma PowerAdd(n: nat)
    ensures Power(n + 4) == 16 * Power(n)
  {
    assert Power(n + 4) == 2 * Power(n + 3) && Power(n + 3) == 2 * Power(n + 2);
    assert Power(n + 2) == 2 * Power(n + 1) && Power(n + 1) == 2 * Power(n);
  }

  lemma Widths()
    ensures Power(8) == 0x100 && Power(32) == 0x1_0000_0000
  {
    PowerAdd(0);
    PowerAdd(4);
    PowerAdd(8);
    PowerAdd(12);
    PowerAdd(16);
    PowerAdd(20);
    PowerAdd(24);
    PowerAdd(28);
  }

  // ---------------------------------------------------------------- words and bit sets

  /** The numbers of the bits of a 32-bit word. */
  ghost function BitSet(v: nat): set<nat> {
    set k | 0 <= k < 32 && HasBit(v, k)
  }

  lemma BitSetOr(v: nat, k: nat)
    requires k < 32
    ensures BitSet(OrBit(v, k)) == BitSet(v) + {k}
  {
    forall j: nat
      ensures j in BitSet(OrBit(v, k)) <==> j in BitSet(v) + {k}
    {
      OrBitHas(v, k, j);
    }
  }

  lemma BitSetAndNot(v: nat, k: nat)
    requires k < 32
    ensures BitSet(AndNotBit(v, k)) == BitSet(v) - {k}
  {
    forall j: nat
      ensures j in BitSet(AndNotBit(v, k)) <==> j in BitSet(v) - {k}
    {
      AndNotBitHas(v, k, j);
    }
  }

  /** __rt_ffs on a word finds the lowest element of its bit set. */
  lemma FfsIsLowest(v: nat)
    requires v < 0x1_0000_0000
    ensures v == 0 <==> BitSet(v) == {}
    ensures v > 0 ==> Ffs(v) == Lowest(BitSet(v)) + 1
  {
    Widths();
    if v == 0 {
      forall k: nat
        ensures k !in BitSet(v)
      {
        NoHighBits(0, k, 0);
      }
    } else {
      FfsIsLow(v);
      LowIsLowest(v, 0);
      var low, l := Low(v), Lowest(BitSet(v));
      if low >= 32 {
        NoHighBits(v, low, 32);
      }
      assert low in BitSet(v);
      if l < low {
        LowIsLowest(v, l);
      }
    }
  }

  // ---------------------------------------------------------------- the lookup

  ghost function BitSets(table: seq<nat>): (r: seq<set<nat>>)
    ensures |r| == |table| && forall i :: 0 <= i < |table| ==> r[i] == BitSet(table[i])
  {
    if table == [] then [] else [BitSet(table[0])] + BitSets(table[1..])
  }

  /** What the words stand for. */
  ghost function BitsOf(twoLevel: bool, group: nat, table: seq<nat>): Bits {
    if twoLevel then Grouped(BitSet(group), BitSets(table)) else Flat(BitSet(group))
  }

  /** A 32-bit group word, and a table of eight-bit words. */
  ghost predicate WordsOk(group: nat, table: seq<nat>) {
    group < 0x1_0000_0000 && forall i :: 0 <= i < |table| ==> table[i] < 0x100
  }

  lemma SetWords(twoLevel: bool, group: nat, table: seq<nat>, p: nat)
    requires WordsOk(group, table) && Fits(BitsOf(twoLevel, group, table), p)
    ensures var (group', table') := if twoLevel then (OrBit(group, p / 8), table[p / 8 := OrBit(table[p / 8], p % 8)])
                                    else (OrBit(group, p), table);
            WordsOk(group', table') && BitsOf(twoLevel, group', table') == SetBit(BitsOf(twoLevel, group, table), p)
  {
    Widths();
    if twoLevel {
      WordBounds(group, p / 8, 32);
      WordBounds(table[p / 8], p % 8, 8);
      BitSetOr(group, p / 8);
      BitSetOr(table[p / 8], p % 8);
    } else {
      WordBounds(group, p, 32);
      BitSetOr(group, p);
    }
  }

  lemma ClearWords(twoLevel: bool, group: nat, table: seq<nat>, p: nat)
    requires WordsOk(group, table) && Fits(BitsOf(twoLevel, group, table), p)
    ensures var word := if twoLevel then AndNotBit(table[p / 8], p % 8) else 0;
            var group' := if !twoLevel then AndNotBit(group, p)
                          else if word == 0 then AndNotBit(group, p / 8) else group;
            var table' := if twoLevel then table[p / 8 := word] else table;
            WordsOk(group', table') && BitsOf(twoLevel, group', table') == ClearBit(BitsOf(twoLevel, group, table), p)
  {
    Widths();
    if twoLevel {
      WordBounds(group, p / 8, 32);
      WordBounds(table[p / 8], p % 8, 8);
      BitSetAndNot(group, p / 8);
      BitSetAndNot(table[p / 8], p % 8);
      FfsIsLowest(AndNotBit(table[p / 8], p % 8));
    } else {
      WordBounds(group, p, 32);
      BitSetAndNot(group, p);
    }
  }

  /** The one-level lookup with __rt_ffs. */
  lemma OneLevelLookup(group: nat, table: seq<nat>)
    requires 0 < group < 0x1_0000_0000
    ensures Ffs(group) >= 1 && Ffs(group) - 1 == Highest(BitsOf(false, group, table))
  {
    FfsIsLowest(group);
  }

  /** The two-level lookup: the first group, then the first bit of its word. */
  lemma TwoLevelLookup(group: nat, table: seq<nat>)
    requires WordsOk(group, table) && group > 0 && BitsOk(BitsOf(true, group, table))
    ensures var number := Ffs(group) - 1;
            && 0 <= number < |table| && table[number] > 0
            && number * 8 + Ffs(table[number]) - 1 == Highest(BitsOf(true, group, table))
  {
    FfsIsLowest(group);
    var number := Ffs(group) - 1;
    assert number == Lowest(BitSet(group));
    var x :| x in BitSet(group);
    assert number in BitSet(group);
    FfsIsLowest(table[number]);
  }
}
