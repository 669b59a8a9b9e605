/** Division facts shared by the queue, pacing and fairness bounds. */
module Arithmetic {

  /** One more than the largest 64-bit unsigned number; `usize` is taken to be 64 bits wide. */
  const U64_RANGE: nat := 0x1_0000_0000_0000_0000

  function Max(a: nat, b: nat): nat {
    if a >= b then a else b
  }

  function Min(a: nat, b: nat): nat {
    if a <= b then a else b
  }

  function CeilDiv(a: nat, b: nat): (q: nat)
    requires b > 0
    ensures a <= q * b < a + b
  {
    DivBounds(a + b - 1, b);
    (a + b - 1) / b
  }

  lemma DivBounds(a: nat, b: nat)
    requires b > 0
    ensures a / b * b <= a < (a / b + 1) * b
  {
  }

  lemma MulMonotone(a: int, b: int, c: nat)
    requires a <= b
    ensures a * c <= b * c
  {
  }

  /** The quotient is the only number whose multiple brackets the dividend. */
  lemma DivUnique(a: nat, b: nat, q: nat)
    requires b > 0 && q * b <= a < (q + 1) * b
    ensures a / b == q
  {
    DivBounds(a, b);
    if a / b < q {
      MulMonotone(a / b + 1, q, b);
    } else if a / b > q {
      MulMonotone(q + 1, a / b, b);
    }
  }

  lemma DivAtLeast(a: nat, b: nat, q: nat)
    requires b > 0
    ensures q <= a / b <==> q * b <= a
  {
    DivBounds(a, b);
    if q <= a / b {
      MulMonotone(q, a / b, b);
    } else {
      MulMonotone(a / b + 1, q, b);
    }
  }

  lemma DivStep(small: nat, large: nat, b: nat)
    requires b > 0 && small + b <= large
    ensures small / b + 1 <= large / b
  {
    DivBounds(small, b);
    assert (small / b + 1) * b == small / b * b + b;
    DivAtLeast(large, b, small / b + 1);
  }

  lemma DivMonotone(a: nat, b: nat, m: nat)
    requires m > 0 && a <= b
    ensures a / m <= b / m
  {
    DivBounds(a, m);
    DivBounds(b, m);
    if a / m > b / m {
      MulMonotone(b / m + 1, a / m, m);
    }
  }

  lemma Distribute(x: int, y: int, n: int)
    ensures (x + y) * n == x * n + y * n
  {
  }

  /** A number split into quotient and remainder. */
  lemma ModUnique(x: nat, n: nat, q: nat, r: nat)
    requires n > 0 && r < n && x == q * n + r
    ensures x / n == q && x % n == r
  {
    Distribute(q, 1, n);
    DivUnique(x, n, q);
  }

  lemma DivBetween(a: nat, b: nat, lo: nat, hi: nat)
    requires b > 0 && lo * b <= a < hi * b
    ensures lo <= a / b < hi
  {
    DivAtLeast(a, b, lo);
    DivAtLeast(a, b, hi);
  }
}
