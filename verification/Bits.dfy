/** The bit operations of Python's integers: two's complement without a bound on the width. */
module Bits {

  function Pow2(k: nat): (r: nat)
    ensures r >= 1
  {
    if k == 0 then 1 else 2 * Pow2(k - 1)
  }

  /** 0 for the two numbers whose bits are all alike, 0 and -1. */
  function Magnitude(x: int): nat {
    if x >= 0 then x else -x - 1
  }

  /** `x & y`: the lowest bits, and the rest of both numbers. */
  function And(x: int, y: int): int
    decreases Magnitude(x) + Magnitude(y)
  {
    if Magnitude(x) == 0 && Magnitude(y) == 0 then if x == -1 && y == -1 then -1 else 0
    else 2 * And(x / 2, y / 2) + if x % 2 == 1 && y % 2 == 1 then 1 else 0
  }

  /** `x | y`. */
  function Or(x: int, y: int): int
    decreases Magnitude(x) + Magnitude(y)
  {
    if Magnitude(x) == 0 && Magnitude(y) == 0 then if x == -1 || y == -1 then -1 else 0
    else 2 * Or(x / 2, y / 2) + if x % 2 == 1 || y % 2 == 1 then 1 else 0
  }

  /** `~x`. */
  function Not(x: int): int {
    -x - 1
  }

  /** `x << k`. */
  function ShiftLeft(x: int, k: nat): (r: int)
    ensures x >= 0 ==> r >= 0
    decreases k
  {
    if k == 0 then x else 2 * ShiftLeft(x, k - 1)
  }

  /** `x >> k`. */
  function ShiftRight(x: int, k: nat): int {
    x / Pow2(k)
  }

  lemma {:induction false} AndZero(x: int)
    ensures And(x, 0) == 0
    decreases Magnitude(x)
  {
    if Magnitude(x) > 0 {
      AndZero(x / 2);
    }
  }

  lemma {:induction false} OrZero(y: int)
    ensures Or(0, y) == y
    decreases Magnitude(y)
  {
    if Magnitude(y) > 0 {
      OrZero(y / 2);
    }
  }

  lemma {:induction false} OrOnes(x: int)
    ensures Or(x, -1) == -1
    decreases Magnitude(x)
  {
    if Magnitude(x) > 0 {
      OrOnes(x / 2);
    }
  }

  lemma {:induction false} OrCommutes(x: int, y: int)
    ensures Or(x, y) == Or(y, x)
    decreases Magnitude(x) + Magnitude(y)
  {
    if Magnitude(x) > 0 || Magnitude(y) > 0 {
      OrCommutes(x / 2, y / 2);
    }
  }

  /** The remainder of a division by `2 * m`, bit by bit. */
  lemma ModDouble(x: int, m: nat)
    requires m > 0
    ensures x % (2 * m) == 2 * (x / 2 % m) + x % 2
  {
    var q, r := x / 2 / m, x / 2 % m;
    assert x / 2 == q * m + r;
    assert x == q * (2 * m) + (2 * r + x % 2);
    ModUnique(x, 2 * m, q, 2 * r + x % 2);
  }

  lemma MulNonNegative(e: nat, d: nat)
    ensures e * d >= 0
  {
  }

  lemma MulExpand(p: int, q: int, d: nat)
    ensures (q - p - 1) * d == q * d - p * d - d
  {
  }

  lemma MulGap(p: int, q: int, d: nat)
    requires p < q
    ensures p * d + d <= q * d
  {
    MulNonNegative(q - p - 1, d);
    MulExpand(p, q, d);
  }

  lemma SameQuotient(d: nat, p: int, s: nat, q: int, r: nat)
    requires p * d + s == q * d + r && s < d && r < d
    ensures s == r
  {
    if p < q {
      MulGap(p, q, d);
    } else if q < p {
      MulGap(q, p, d);
    }
  }

  lemma ModUnique(x: int, d: nat, q: int, r: nat)
    requires x == q * d + r && r < d
    ensures x % d == r
  {
    SameQuotient(d, x / d, x % d, q, r);
  }

  lemma OrEven(x: int, w: int)
    ensures Or(x, 2 * w) == 2 * Or(x / 2, w) + x % 2
  {
    assert 2 * w / 2 == w && 2 * w % 2 == 0;
  }

  lemma AndOdd(x: int, w: int)
    ensures And(x, 2 * w + 1) == 2 * And(x / 2, w) + x % 2
  {
    assert (2 * w + 1) / 2 == w && (2 * w + 1) % 2 == 1;
  }

  /** A mask of `k` ones keeps the remainder modulo 2^k, also of a negative number. */
  lemma {:induction false} AndMask(x: int, k: nat)
    ensures And(x, Pow2(k) - 1) == x % Pow2(k)
    decreases k
  {
    if k == 0 {
      AndZero(x);
    } else {
      AndMask(x / 2, k - 1);
      AndOdd(x, Pow2(k - 1) - 1);
      ModDouble(x, Pow2(k - 1));
    }
  }

  lemma OrSet(x: int, w: int, low: int)
    requires Or(x / 2, w) == low + w
    ensures Or(x, 2 * w) == 2 * low + x % 2 + 2 * w
  {
    OrEven(x, w);
  }

  /** Or-ing the complement of such a mask keeps the low bits and sets all others. */
  lemma {:induction false} OrNotMask(x: int, k: nat)
    ensures Or(x, Not(Pow2(k) - 1)) == x % Pow2(k) - Pow2(k)
    decreases k
  {
    if k == 0 {
      OrOnes(x);
    } else {
      OrNotMask(x / 2, k - 1);
      OrSet(x, Not(Pow2(k - 1) - 1), x / 2 % Pow2(k - 1));
      ModDouble(x, Pow2(k - 1));
    }
  }

  /** Or-ing bits above those already there is an addition. */
  lemma {:induction false} OrAbove(x: nat, y: nat, k: nat)
    requires x < Pow2(k)
    ensures Or(x, ShiftLeft(y, k)) == x + ShiftLeft(y, k)
    decreases k
  {
    if k == 0 {
      OrZero(y);
    } else {
      OrAbove(x / 2, y, k - 1);
      OrEven(x, ShiftLeft(y, k - 1));
    }
  }

  /** One bit of a number that has none above it. */
  lemma {:induction false} AndTopBit(x: nat, k: nat)
    requires x < Pow2(k + 1)
    ensures And(x, Pow2(k)) == if x >= Pow2(k) then Pow2(k) else 0
    decreases k
  {
    if k == 0 {
      assert And(0, 0) == 0;
    } else {
      AndTopBit(x / 2, k - 1);
      assert Pow2(k) / 2 == Pow2(k - 1) && Pow2(k) % 2 == 0;
    }
  }

  lemma {:induction false} ShiftAdd(x: int, j: nat, k: nat)
    ensures ShiftLeft(x, j + k) == ShiftLeft(ShiftLeft(x, j), k)
    decreases k
  {
    if k > 0 {
      ShiftAdd(x, j, k - 1);
    }
  }
}
