/** The ternary table that compares two unsigned numbers, and the random drop built on it. */
module Comparator {
  import opened Arith

  /** A `bit<n>`, most significant bit first. */
  type Bits = seq<bool>

  /** The unsigned number. */
  function Value(b: Bits): nat {
    if b == [] then 0 else (if b[0] then Pow2(|b| - 1) else 0) + Value(b[1..])
  }

  /** `(x &&& 1 << bit, y &&& 1 << bit): set_ret(ret)`. */
  datatype Entry = Entry(bit: nat, x: bool, y: bool, ret: nat)

  /** `CHECK_BIT(n - 1)` down to `CHECK_BIT(0)`. */
  function Table(n: nat): seq<Entry> {
    if n == 0 then []
    else [Entry(n - 1, false, true, 3), Entry(n - 1, true, false, 1)] + Table(n - 1)
  }

  predicate Matches(e: Entry, x: Bits, y: Bits)
    requires |x| == |y|
  {
    e.bit < |x| && x[|x| - 1 - e.bit] == e.x && y[|y| - 1 - e.bit] == e.y
  }

  /** The first entry that matches decides; the default action returns 0. */
  function Lookup(entries: seq<Entry>, x: Bits, y: Bits): nat
    requires |x| == |y|
  {
    if entries == [] then 0
    else if Matches(entries[0], x, y) then entries[0].ret
    else Lookup(entries[1..], x, y)
  }

  lemma {:induction false} ValueBelow(b: Bits)
    ensures Value(b) < Pow2(|b|)
  {
    if b != [] {
      ValueBelow(b[1..]);
    }
  }

  /** Entries for low bits do not look at the top bit. */
  lemma {:induction false} LowBits(n: nat, x: Bits, y: Bits)
    requires |x| == |y| && n < |x|
    ensures Lookup(Table(n), x, y) == Lookup(Table(n), x[1..], y[1..])
  {
    if n > 0 {
      var two := [Entry(n - 1, false, true, 3), Entry(n - 1, true, false, 1)];
      assert Table(n)[1..] == two[1..] + Table(n - 1) && Table(n)[1..][1..] == Table(n - 1);
      LowBits(n - 1, x, y);
    }
  }

  /** At every width the table is unsigned comparison: 3 for less, 1 for greater, 0 for equal. */
  lemma {:induction false} Compares(x: Bits, y: Bits)
    requires |x| == |y|
    ensures Lookup(Table(|x|), x, y) == if Value(x) < Value(y) then 3 else if Value(x) > Value(y) then 1 else 0
  {
    var n := |x|;
    if n > 0 {
      ValueBelow(x[1..]);
      ValueBelow(y[1..]);
      Compares(x[1..], y[1..]);
      LowBits(n - 1, x, y);
      var two := [Entry(n - 1, false, true, 3), Entry(n - 1, true, false, 1)];
      assert Table(n)[1..] == two[1..] + Table(n - 1) && Table(n)[1..][1..] == Table(n - 1);
    }
  }

  /** `random_drop`: a packet is dropped with probability `threshold / 2^32`. */
  method RandomDrop(random: Bits, threshold: Bits) returns (drop: bool)
    requires |random| == |threshold| == 32
    ensures drop <==> Value(random) < Value(threshold)
  {
    Compares(random, threshold);
    var result := Lookup(Table(32), random, threshold);
    drop := result == 3;
  }
}
