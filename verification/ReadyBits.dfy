/**
 The ready bitmap of scheduler.c and the find-first-set of kservice.c.

 A word is the set of its bit numbers.
 */
module ReadyBits {
  // ---------------------------------------------------------------- find first set

  predicate HasBit(v: nat, k: nat) {
    if k == 0 then v % 2 == 1 else HasBit(v / 2, k - 1)
  }

  /** The number of the lowest bit set. */
  function Low(v: nat): nat
    requires v > 0
  {
    if v % 2 == 1 then 0 else 1 + Low(v / 2)
  }

  lemma {:induction false} LowIsLowest(v: nat, j: nat)
    requires v > 0
    ensures HasBit(v, Low(v))
    ensures j < Low(v) ==> !HasBit(v, j)
  {
    if v % 2 == 0 {
      LowIsLowest(v / 2, if j > 0 then j - 1 else 0);
    }
  }

  const NIBBLE: seq<nat> := [0, 0, 1, 0, 2, 0, 1, 0, 3, 0, 1, 0, 2, 0, 1, 0]

  /** The table of lowest bits: sixteen rows that differ only in their first entry. */
  function LowestBitTable(b: nat): nat
    requires b < 256
  {
    if b % 16 != 0 then NIBBLE[b % 16] else if b / 16 != 0 then NIBBLE[b / 16] + 4 else 0
  }

  /** __rt_ffs: bits are numbered from 1, and 0 means that no bit is set. */
  function Ffs(v: nat): nat
    requires v < 0x1_0000_0000
  {
    if v == 0 then 0
    else FfsOfBytes(v % 0x100, v / 0x100 % 0x100, v / 0x1_0000 % 0x100, v / 0x100_0000)
  }

  function FfsOfBytes(b0: nat, b1: nat, b2: nat, b3: nat): nat
    requires b0 < 256 && b1 < 256 && b2 < 256 && b3 < 256
  {
    if b0 != 0 then LowestBitTable(b0) + 1
    else if b1 != 0 then LowestBitTable(b1) + 9
    else if b2 != 0 then LowestBitTable(b2) + 17
    else LowestBitTable(b3) + 25
  }

  lemma LowTwice(x: nat)
    ensures Low(2 * x + 1) == 0
    ensures x > 0 ==> Low(2 * x) == 1 + Low(x)
  {
  }

  /** The lowest of two bits, when one is set. */
  function Pair(m: nat): nat {
    if m == 2 then 1 else 0
  }

  lemma LowPair(a: nat, m: nat)
    requires m < 4
    ensures m > 0 ==> Low(4 * a + m) == Pair(m)
    ensures m == 0 && a > 0 ==> Low(4 * a) == 2 + Low(a)
  {
    LowTwice(2 * a + m / 2);
    LowTwice(a);
  }

  lemma NibbleEntries(h: nat, l: nat)
    requires h < 4 && l < 4
    ensures NIBBLE[4 * h + l] == if l > 0 then Pair(l) else if h > 0 then 2 + Pair(h) else 0
  {
    assert h == 0 || h == 1 || h == 2 || h == 3;
    assert l == 0 || l == 1 || l == 2 || l == 3;
  }

  lemma LowNibble(a: nat, n: nat)
    requires n < 16
    ensures n > 0 ==> Low(16 * a + n) == NIBBLE[n]
    ensures n == 0 && a > 0 ==> Low(16 * a) == 4 + Low(a)
  {
    var h, l := n / 4, n % 4;
    NibbleEntries(h, l);
    LowPair(4 * a + h, l);
    LowPair(a, h);
  }

  lemma LowByte(a: nat, b: nat)
    requires b < 256
    ensures b > 0 ==> Low(256 * a + b) == LowestBitTable(b)
    ensures b == 0 && a > 0 ==> Low(256 * a) == 8 + Low(a)
  {
    var h, n := b / 16, b % 16;
    LowNibble(16 * a + h, n);
    LowNibble(a, h);
    assert 256 * a + b == 16 * (16 * a + h) + n;
  }

  /** The table lookup finds the lowest bit of every 32-bit word. */
  lemma FfsIsLow(v: nat)
    requires v < 0x1_0000_0000
    ensures v == 0 <==> Ffs(v) == 0
    ensures v > 0 ==> Ffs(v) == Low(v) + 1
  {
    if v == 0 {
      return;
    }
    var b0, b1, b2, b3 := v % 0x100, v / 0x100 % 0x100, v / 0x1_0000 % 0x100, v / 0x100_0000;
    Bytes(v);
    BytesLow(b0, b1, b2, b3);
  }

  lemma Bytes(v: nat)
    ensures v == 256 * (256 * (256 * (v / 0x100_0000) + v / 0x1_0000 % 0x100) + v / 0x100 % 0x100) + v % 0x100
  {
    var a := v / 0x100;
    var b := a / 0x100;
    assert b == v / 0x1_0000;
    assert b / 0x100 == v / 0x100_0000;
  }

  lemma BytesLow(b0: nat, b1: nat, b2: nat, b3: nat)
    requires b0 < 256 && b1 < 256 && b2 < 256 && b3 < 256 && b0 + b1 + b2 + b3 > 0
    ensures FfsOfBytes(b0, b1, b2, b3) == Low(256 * (256 * (256 * b3 + b2) + b1) + b0) + 1
  {
    var x2 := 256 * b3 + b2;
    LowByte(256 * x2 + b1, b0);
    if b0 == 0 {
      LowByte(x2, b1);
      if b1 == 0 {
        UpperBytes(b2, b3);
      }
    }
  }

  lemma UpperBytes(b2: nat, b3: nat)
    requires b2 < 256 && b3 < 256 && b2 + b3 > 0
    ensures Low(256 * b3 + b2) == if b2 > 0 then LowestBitTable(b2) else 8 + LowestBitTable(b3)
  {
    LowByte(b3, b2);
    LowByte(0, b3);
  }

  // ---------------------------------------------------------------- bitmaps

  /** One word for at most 32 priorities, or a word of groups and a table of eight-bit words. */
  datatype Bits = Flat(group: set<nat>) | Grouped(group: set<nat>, table: seq<set<nat>>)

  ghost predicate BitsOk(b: Bits) {
    && (forall x :: x in b.group ==> x < 32)
    && (b.Grouped? ==>
          && |b.table| == 32
          && (forall i :: 0 <= i < 32 ==> (i in b.group <==> b.table[i] != {}))
          && (forall i, x :: 0 <= i < 32 && x in b.table[i] ==> x < 8))
  }

  /** Priority `p` is marked ready. */
  predicate Contains(b: Bits, p: nat) {
    match b
    case Flat(group) => p in group
    case Grouped(group, table) => p / 8 < |table| && p % 8 in table[p / 8]
  }

  predicate Fits(b: Bits, p: nat) {
    match b
    case Flat(_) => p < 32
    case Grouped(_, table) => p < 256 && |table| == 32
  }

  function SetBit(b: Bits, p: nat): Bits
    requires Fits(b, p)
  {
    match b
    case Flat(group) => Flat(group + {p})
    case Grouped(group, table) => Grouped(group + {p / 8}, table[p / 8 := table[p / 8] + {p % 8}])
  }

  function ClearBit(b: Bits, p: nat): Bits
    requires Fits(b, p)
  {
    match b
    case Flat(group) => Flat(group - {p})
    case Grouped(group, table) =>
      var word := table[p / 8] - {p % 8};
      Grouped(if word == {} then group - {p / 8} else group, table[p / 8 := word])
  }

  /** Clearing or setting a bit that is set, and setting it again. */
  lemma BitsBack(b: Bits, p: nat)
    requires BitsOk(b) && Fits(b, p) && Contains(b, p)
    ensures SetBit(b, p) == b && Fits(ClearBit(b, p), p) && SetBit(ClearBit(b, p), p) == b
  {
    match b
    case Flat(group) =>
      assert group + {p} == group && group - {p} + {p} == group;
    case Grouped(group, table) =>
      var i, x := p / 8, p % 8;
      assert i in group && group + {i} == group && group - {i} + {i} == group;
      assert table[i] + {x} == table[i] && table[i] - {x} + {x} == table[i];
      assert table[i := table[i]] == table;
      assert table[i := table[i] - {x}][i := table[i]] == table;
  }

  lemma SetBitContains(b: Bits, p: nat, q: nat)
    requires BitsOk(b) && Fits(b, p)
    ensures BitsOk(SetBit(b, p)) && (Contains(SetBit(b, p), q) <==> Contains(b, q) || q == p)
  {
  }

  lemma ClearBitContains(b: Bits, p: nat, q: nat)
    requires BitsOk(b) && Fits(b, p)
    ensures BitsOk(ClearBit(b, p)) && (Contains(ClearBit(b, p), q) <==> Contains(b, q) && q != p)
  {
  }

  /** The lowest bit of a word from bit `k` on, or 32. */
  function LowestFrom(word: set<nat>, k: nat): (r: nat)
    requires k <= 32
    ensures k <= r <= 32 && (r < 32 ==> r in word)
    ensures forall x :: k <= x < r ==> x !in word
    decreases 32 - k
  {
    if k == 32 || k in word then k else LowestFrom(word, k + 1)
  }

  function Lowest(word: set<nat>): nat {
    LowestFrom(word, 0)
  }

  /** The best priority marked ready. */
  function Highest(b: Bits): nat {
    match b
    case Flat(group) => Lowest(group)
    case Grouped(group, table) =>
      var number := Lowest(group);
      if number < |table| then number * 8 + Lowest(table[number]) else 256
  }

  /** Both forms find the best priority, and `group` is empty exactly when there is none. */
  lemma HighestIsBest(b: Bits)
    requires BitsOk(b)
    ensures b.group != {} ==> Contains(b, Highest(b)) && Fits(b, Highest(b))
    ensures forall p :: Contains(b, p) ==> Highest(b) <= p
    ensures b.group == {} ==> forall p :: !Contains(b, p)
  {
    if b.group != {} {
      var x :| x in b.group;
      var number := Lowest(b.group);
      assert number in b.group;
      match b
      case Flat(_) =>
      case Grouped(group, table) => GroupedBest(b, number);
    }
  }

  lemma GroupedBest(b: Bits, number: nat)
    requires BitsOk(b) && b.Grouped? && number in b.group && forall x :: x in b.group ==> number <= x
    ensures var low := Lowest(b.table[number]);
            && low < 8 && Contains(b, number * 8 + low) && number < 32
            && forall p :: Contains(b, p) ==> number * 8 + low <= p
  {
    var y :| y in b.table[number];
    var low := Lowest(b.table[number]);
    assert low in b.table[number] && low < 8;
    assert (number * 8 + low) / 8 == number && (number * 8 + low) % 8 == low;
    forall p: nat | Contains(b, p)
      ensures number * 8 + low <= p
    {
      assert p / 8 in b.group;
    }
  }
}
