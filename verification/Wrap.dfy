/** Which packet numbers share a slot, given that the header's psn has 32 bits and lanes have any length. */
module Wrap {
  import Arith
  import opened DataPlane
  import opened Protocol

  /** The wrapped psn addresses the slot of the real one. */
  predicate Addressable(c: Config, psn: nat)
    requires c.len > 0
  {
    Index(c, psn) == psn % c.len
  }

  /** `x % m % len` when `len` divides `m`. */
  lemma {:induction false} NestedRemainder(x: nat, m: nat, len: nat)
    requires len > 0 && m > 0 && m % len == 0
    ensures x % m % len == x % len
  {
    Arith.DivMod(x, m);
    Arith.DivMod(m, len);
    Arith.DivMod(x % m, len);
    var a, b, r := x / m, m / len, x % m;
    assert x == a * (b * len) + r;
    assert a * (b * len) == (a * b) * len;
    assert (a * b + r / len) * len == (a * b) * len + r / len * len;
    Arith.Remainder(x, a * b + r / len, r % len, len);
  }

  /** The header's psn addresses the slot of the real psn, for ever, if and only if the lane length divides 2^32. */
  lemma {:induction false} AddressableIff(c: Config)
    requires Valid(c)
    ensures (forall psn: nat :: Addressable(c, psn)) <==> PSN_WRAP % c.len == 0
    ensures forall psn: nat | psn < PSN_WRAP :: Addressable(c, psn)
  {
    if PSN_WRAP % c.len == 0 {
      forall psn: nat
        ensures Addressable(c, psn)
      {
        NestedRemainder(psn, PSN_WRAP, c.len);
      }
    } else {
      Arith.Remainder(0, 0, 0, c.len);
      assert !Addressable(c, PSN_WRAP);
    }
  }

  /** Between two psns with one slot, less than a lane apart, the header's psn wrapped, and their distance is what is left of 2^32. */
  lemma {:induction false} SharedAcrossWrap(c: Config, p: nat, q: nat)
    requires Valid(c) && p < q < p + c.len && Index(c, p) == Index(c, q)
    ensures q - p == PSN_WRAP % c.len && p / PSN_WRAP < q / PSN_WRAP
  {
    var k, y, d := p / PSN_WRAP, p % PSN_WRAP, q - p;
    Arith.DivMod(p, PSN_WRAP);
    if y + d < PSN_WRAP {
      Arith.Remainder(q, k, y + d, PSN_WRAP);
      Arith.SameRemainder(y, y + d, c.len);
      assert false;
    } else {
      var z := y + d - PSN_WRAP;
      Arith.Remainder(q, k + 1, z, PSN_WRAP);
      Arith.Remainder(z, 0, z, c.len);
      Arith.DivMod(y, c.len);
      Arith.Remainder(PSN_WRAP, y / c.len, d, c.len);
    }
  }

  /** The first psn after a wrap shares its slot with the one as far back as is left of 2^32. */
  lemma {:induction false} SharedAtWrap(c: Config, k: nat)
    requires Valid(c) && k > 0
    ensures var r := PSN_WRAP % c.len; k * PSN_WRAP > r && Index(c, k * PSN_WRAP - r) == Index(c, k * PSN_WRAP)
  {
    var r := PSN_WRAP % c.len;
    Arith.DivMod(PSN_WRAP, c.len);
    Arith.Remainder(k * PSN_WRAP, k, 0, PSN_WRAP);
    Arith.Remainder(0, 0, 0, c.len);
    if r > 0 {
      Arith.Remainder(k * PSN_WRAP - r, k - 1, PSN_WRAP - r, PSN_WRAP);
      Arith.Remainder(PSN_WRAP - r, PSN_WRAP / c.len, 0, c.len);
    }
  }

  /** No two psns less than `d` apart, as those of a window are for `d == c.win`, share a slot. */
  ghost predicate NeverShare(c: Config, d: nat)
    requires c.len > 0
  {
    forall p: nat, q: nat | c.base <= p < q < p + d :: Index(c, p) != Index(c, q)
  }

  /** What is left of 2^32 after full lanes is nothing, or at least `d`. */
  predicate FitsWrap(c: Config, d: nat)
    requires c.len > 0
  {
    PSN_WRAP % c.len == 0 || d <= PSN_WRAP % c.len
  }

  /** The exact condition, at every distance up to a lane. */
  lemma {:induction false} NeverShareIff(c: Config, d: nat)
    requires Valid(c) && d <= c.len
    ensures NeverShare(c, d) <==> FitsWrap(c, d)
  {
    hide Index;
    var r := PSN_WRAP % c.len;
    if FitsWrap(c, d) {
      forall p: nat, q: nat | c.base <= p < q < p + d
        ensures Index(c, p) != Index(c, q)
      {
        if Index(c, p) == Index(c, q) {
          SharedAcrossWrap(c, p, q);
          assert false;
        }
      }
    } else {
      var k := c.base + 1;
      SharedAtWrap(c, k);
      var p, q := k * PSN_WRAP - r, k * PSN_WRAP;
      assert c.base <= p < q < p + d;
      assert Index(c, p) == Index(c, q);
    }
  }

  /** No host ever comes to a slot that was used less than two windows before. */
  ghost predicate EverApart(c: Config)
    requires c.len > 0
  {
    forall psn: nat :: Apart(c, psn)
  }

  /** The hosts may go on for ever if and only if nothing, or at least two windows, is left of 2^32 after full lanes. */
  lemma {:induction false} ApartIff(c: Config)
    requires Valid(c)
    ensures EverApart(c) <==> FitsWrap(c, 2 * c.win)
  {
    hide Index, FitsWrap;
    NeverShareIff(c, 2 * c.win);
    if NeverShare(c, 2 * c.win) {
      forall psn: nat
        ensures Apart(c, psn)
      {
      }
    }
    if EverApart(c) {
      forall p: nat, q: nat | c.base <= p < q < p + 2 * c.win
        ensures Index(c, p) != Index(c, q)
      {
        assert Apart(c, q);
      }
    }
  }

  /** In any case they may up to the first wrap. */
  lemma {:induction false} BelowWrap(c: Config, psn: nat)
    requires Valid(c) && psn < PSN_WRAP
    ensures Apart(c, psn)
  {
    hide Index;
    forall q: nat | c.base <= q < psn && Index(c, q) == Index(c, psn)
      ensures q + 2 * c.win <= psn
    {
      if psn < q + 2 * c.win {
        SharedAcrossWrap(c, q, psn);
        Arith.Remainder(psn, 0, psn, PSN_WRAP);
        assert false;
      }
    }
  }

  /** The first psn whose slot was used less than two windows before, if there is one, and that use. */
  lemma {:induction false} FirstClash(c: Config, bound: nat) returns (p: nat, q: nat)
    requires c.len > 0 && !Apart(c, bound)
    ensures c.base <= p < q < p + 2 * c.win && Index(c, p) == Index(c, q)
    ensures forall x: nat | x < q :: Apart(c, x)
    decreases bound
  {
    hide Index;
    if y: nat :| y < bound && !Apart(c, y) {
      p, q := FirstClash(c, y);
    } else {
      q := bound;
      p :| c.base <= p < q && Index(c, p) == Index(c, q) && !(p + 2 * c.win <= q);
    }
  }

  /** Of the divisions of `slots` slots into `lo` to `hi` lanes, exactly the even ones leave nothing of 2^32, or two windows. */
  predicate OnlyEvenShares(lo: nat, hi: nat, slots: nat, wrap: nat)
    requires 0 < lo <= hi <= slots
    decreases hi - lo
  {
    && ((wrap % (slots / lo) == 0 || 2 * (slots / lo / 2) <= wrap % (slots / lo)) <==> slots % lo == 0)
    && (lo < hi ==> OnlyEvenShares(lo + 1, hi, slots, wrap))
  }

  lemma {:induction false} FewLanes()
    ensures OnlyEvenShares(1, 16, 1024, 0x1_0000_0000)
  {
    assert OnlyEvenShares(9, 16, 1024, 0x1_0000_0000);
  }

  lemma {:induction false} MoreLanes()
    ensures OnlyEvenShares(17, 32, 1024, 0x1_0000_0000)
  {
    assert OnlyEvenShares(25, 32, 1024, 0x1_0000_0000);
  }

  lemma {:induction false} OneOfThem(lo: nat, hi: nat, slots: nat, workers: nat)
    requires 0 < lo <= workers <= hi <= slots && OnlyEvenShares(lo, hi, slots, PSN_WRAP)
    ensures var len := slots / workers;
            (PSN_WRAP % len == 0 || 2 * (len / 2) <= PSN_WRAP % len) <==> slots % workers == 0
    decreases hi - lo
  {
    if lo < workers {
      OneOfThem(lo + 1, hi, slots, workers);
    }
  }
}
