/** Products and quotients of natural numbers. */
module Arithmetic {

  lemma DivBounds(a: nat, m: nat)
    requires m > 0
    ensures 0 <= a / m && a / m * m <= a < a / m * m + m
  {
  }

  lemma MulMonotone(a: nat, b: nat, c: nat)
    requires a <= b
    ensures a * c <= b * c
  {
  }

  lemma Distribute(a: nat, b: nat, c: nat)
    ensures (a + b) * c == a * c + b * c
  {
  }

  lemma Associate(a: nat, b: nat, c: nat)
    ensures (a * b) * c == a * (b * c)
  {
  }

  lemma DivUnique(a: nat, m: nat, q: nat)
    requires m > 0 && q * m <= a < q * m + m
    ensures a / m == q
  {
    DivBounds(a, m);
    if a / m < q {
      assert (a / m + 1) * m <= q * m by { MulMonotone(a / m + 1, q, m); }
    } else if a / m > q {
      assert (q + 1) * m <= a / m * m by { MulMonotone(q + 1, a / m, m); }
    }
  }

  lemma FloorOfSum(x: nat, y: nat, m: nat)
    requires m > 0
    ensures (x + y) / m == x / m + y / m || (x + y) / m == x / m + y / m + 1
  {
    var a, q := x / m, y / m;
    DivBounds(x, m);
    DivBounds(y, m);
    Distribute(a, q, m);
    Distribute(a + q, 1, m);
    if x + y < (a + q + 1) * m {
      DivUnique(x + y, m, a + q);
    } else {
      DivUnique(x + y, m, a + q + 1);
    }
  }
}
