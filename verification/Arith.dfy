/** Minimum, powers of two on unbounded numbers, and division facts that the solver needs spelled out. */
module Arith {

  function Min(a: nat, b: nat): nat {
    if a < b then a else b
  }

  function Pow2(n: nat): nat {
    if n == 0 then 1 else 2 * Pow2(n - 1)
  }

  /** `a & b`. */
  function BitAnd(a: nat, b: nat): nat {
    if a == 0 || b == 0 then 0 else a % 2 * (b % 2) + 2 * BitAnd(a / 2, b / 2)
  }

  lemma {:induction false} AndSelf(a: nat)
    ensures BitAnd(a, a) == a
  {
    if a > 0 {
      AndSelf(a / 2);
    }
  }

  /** `ispower2`. */
  predicate IsPower2(x: nat) {
    x > 0 && BitAnd(x, x - 1) == 0
  }

  /** The bit test finds exactly the powers of two. */
  lemma {:induction false} Power2Iff(x: nat)
    ensures IsPower2(x) <==> exists k: nat :: x == Pow2(k)
  {
    if x == 1 {
      assert Pow2(0) == 1;
    } else if x > 1 {
      Power2Iff(x / 2);
      if x % 2 == 1 {
        AndSelf(x / 2);
        assert (x - 1) / 2 == x / 2;
        forall k: nat
          ensures x != Pow2(k)
        {
        }
      } else {
        assert (x - 1) / 2 == x / 2 - 1;
        HalfPower(x);
      }
    } else {
      forall k: nat
        ensures x != Pow2(k)
      {
        PowPositive(k);
      }
    }
  }

  lemma {:induction false} PowPositive(k: nat)
    ensures Pow2(k) > 0
  {
    if k > 0 {
      PowPositive(k - 1);
    }
  }

  lemma {:induction false} HalfPower(x: nat)
    requires x > 1 && x % 2 == 0
    ensures (exists k: nat :: x == Pow2(k)) <==> exists k: nat :: x / 2 == Pow2(k)
  {
    if k: nat :| x == Pow2(k) {
      assert k > 0 && x / 2 == Pow2(k - 1);
    }
    if k: nat :| x / 2 == Pow2(k) {
      assert Pow2(k + 1) == 2 * Pow2(k);
      assert x == Pow2(k + 1);
    }
  }

  lemma {:induction false} MulAtLeast(k: int, len: nat)
    requires k >= 1
    ensures k * len >= len
  {
  }

  lemma {:induction false} MulMinus(a: int, b: int, len: nat)
    ensures (a - b) * len == a * len - b * len
  {
  }

  lemma {:induction false} DivMod(x: int, len: nat)
    requires len > 0
    ensures x == x / len * len + x % len && 0 <= x % len < len
  {
  }

  /** A quotient and a small remainder are the quotient and the remainder. */
  lemma {:induction false} Remainder(x: int, q: int, r: int, len: nat)
    requires 0 <= r < len && x == q * len + r
    ensures x % len == r && x / len == q
  {
    DivMod(x, len);
    var d, m := x / len, x % len;
    MulMinus(d, q, len);
    if d > q {
      MulAtLeast(d - q, len);
      assert false;
    } else if d < q {
      MulMinus(q, d, len);
      MulAtLeast(q - d, len);
      assert false;
    }
  }

  /** Two numbers with the same remainder, less than one divisor apart in one direction. */
  lemma {:induction false} SameRemainder(a: int, b: int, len: nat)
    requires len > 0 && a % len == b % len && b < a + len
    ensures b <= a
  {
    DivMod(a, len);
    DivMod(b, len);
    if b > a {
      var x, y := a / len, b / len;
      MulMinus(y, x, len);
      if y > x {
        MulAtLeast(y - x, len);
        assert false;
      } else {
        MulMinus(x, y, len);
        if x > y {
          MulAtLeast(x - y, len);
        }
        assert false;
      }
    }
  }

  lemma {:induction false} Next(a: int, b: int, len: nat)
    requires len > 0 && a % len == b % len && a <= b <= a + len
    ensures b == a || b == a + len
  {
    if b < a + len {
      SameRemainder(a, b, len);
    }
  }

  lemma {:induction false} OneBack(x: int, len: nat)
    requires len > 0
    ensures (x - len) % len == x % len
  {
    DivMod(x, len);
    MulMinus(x / len, 1, len);
    Remainder(x - len, x / len - 1, x % len, len);
  }
}
