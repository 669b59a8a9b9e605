/** The shared rotation rule `counter.fetch_add(1) % n`: how evenly it spreads, and what the wrap of the
    64-bit counter does to it. */
module RoundRobin {
  import opened Arithmetic

  /** The member the `k`-th turn from counter value `c` falls on. */
  function Turn(c: nat, k: nat, n: nat): nat
    requires n > 0
  {
    (c + k) % U64_RANGE % n
  }

  lemma CounterStep(x: nat)
    ensures (x % U64_RANGE + 1) % U64_RANGE == (x + 1) % U64_RANGE
  {
  }

  /** How many of the next `turns` turns fall on member `i`. */
  function Hits(c: nat, turns: nat, n: nat, i: nat): nat
    requires n > 0
  {
    if turns == 0 then 0 else Hits(c, turns - 1, n, i) + (if Turn(c, turns - 1, n) == i then 1 else 0)
  }

  ghost predicate Fair(c: nat, turns: nat, n: nat)
    requires n > 0
  {
    forall i :: 0 <= i < n ==> turns / n <= Hits(c, turns, n, i) <= CeilDiv(turns, n)
  }

  /** `b` numbers below `x` leave remainder `i`, as products. */
  ghost predicate Brackets(b: nat, x: nat, n: nat, i: nat)
    requires i < n
  {
    b * n <= x + n - 1 - i < b * n + n
  }

  lemma BracketStep(b: nat, x: nat, n: nat, i: nat)
    requires i < n && Brackets(b, x, n, i)
    ensures Brackets(if x % n == i then b + 1 else b, x + 1, n, i)
  {
    var e := x + n - 1 - i - b * n;
    Distribute(b, 1, n);
    if e == n - 1 {
      ModUnique(x, n, b, i);
    } else if e + 1 + i >= n {
      ModUnique(x, n, b, e + 1 + i - n);
    } else {
      assert b > 0;
      Distribute(b - 1, 1, n);
      ModUnique(x, n, b - 1, e + 1 + i);
    }
  }

  /** No wrap disturbs the rotation. */
  ghost predicate Undisturbed(c: nat, turns: nat, n: nat)
    requires n > 0
  {
    forall k :: 0 <= k < turns ==> Turn(c, k, n) == (c + k) % n
  }

  lemma {:induction false} HitsBracket(c: nat, turns: nat, n: nat, i: nat, b: nat)
    requires i < n && Undisturbed(c, turns, n) && Brackets(b, c, n, i)
    ensures Brackets(b + Hits(c, turns, n, i), c + turns, n, i)
  {
    if turns > 0 {
      HitsBracket(c, turns - 1, n, i, b);
      BracketStep(b + Hits(c, turns - 1, n, i), c + turns - 1, n, i);
      assert Turn(c, turns - 1, n) == (c + turns - 1) % n;
    }
  }

  lemma {:induction false} SomeBracket(c: nat, n: nat, i: nat) returns (b: nat)
    requires i < n
    ensures Brackets(b, c, n, i)
  {
    if c == 0 {
      b := 0;
    } else {
      b := SomeBracket(c - 1, n, i);
      BracketStep(b, c - 1, n, i);
      if (c - 1) % n == i { b := b + 1; }
    }
  }

  lemma WithinOneRound(h: nat, turns: nat, n: nat)
    requires n > 0 && h * n < turns + n && turns < h * n + n
    ensures turns / n <= h
    ensures h <= CeilDiv(turns, n)
  {
    Distribute(h, 1, n);
    DivBetween(turns, n, 0, h + 1);
    CeilAbove(h, turns, n);
  }

  lemma CeilAbove(h: nat, turns: nat, n: nat)
    requires n > 0 && h * n < turns + n
    ensures h <= CeilDiv(turns, n)
  {
    var u := CeilDiv(turns, n);
    if h > u {
      Distribute(u, 1, n);
      MulMonotone(u + 1, h, n);
    }
  }

  lemma UndisturbedFair(c: nat, turns: nat, n: nat)
    requires n > 0 && Undisturbed(c, turns, n)
    ensures Fair(c, turns, n)
  {
    forall i | 0 <= i < n
      ensures turns / n <= Hits(c, turns, n, i) <= CeilDiv(turns, n)
    {
      var b := SomeBracket(c, n, i);
      HitsBracket(c, turns, n, i, b);
      Distribute(b, Hits(c, turns, n, i), n);
      WithinOneRound(Hits(c, turns, n, i), turns, n);
    }
  }

  /** Until the counter wraps, any window of turns is spread as evenly as its length allows. */
  lemma FairUntilWrap(c: nat, turns: nat, n: nat)
    requires n > 0 && c + turns <= U64_RANGE
    ensures Fair(c, turns, n)
  {
    forall k | 0 <= k < turns
      ensures Turn(c, k, n) == (c + k) % n
    {
      assert (c + k) % U64_RANGE == c + k;
    }
    UndisturbedFair(c, turns, n);
  }

  /** If `n` divides `m`, reducing modulo `m` first changes nothing modulo `n`. */
  lemma ModMultiple(x: nat, m: nat, n: nat, q: nat, r: nat, d: nat, s: nat, t: nat)
    requires n > 0 && x == q * m + r && m == d * n && r == s * n + t && t < n
    ensures x % n == r % n == t
  {
    assert q * m == q * d * n;
    Distribute(q * d, s, n);
    ModUnique(x, n, q * d + s, t);
    ModUnique(r, n, s, t);
  }

  lemma DividingTurn(x: nat, n: nat)
    requires n > 0 && U64_RANGE % n == 0
    ensures x % U64_RANGE % n == x % n
  {
    var r := x % U64_RANGE;
    assert U64_RANGE == U64_RANGE / n * n;
    ModMultiple(x, U64_RANGE, n, x / U64_RANGE, r, U64_RANGE / n, r / n, r % n);
  }

  lemma FairWhenDividing(c: nat, turns: nat, n: nat)
    requires n > 0 && U64_RANGE % n == 0
    ensures Fair(c, turns, n)
  {
    forall k | 0 <= k < turns
      ensures Turn(c, k, n) == (c + k) % n
    {
      DividingTurn(c + k, n);
    }
    UndisturbedFair(c, turns, n);
  }

  /** Across the wrap it is fair for every window exactly when `n` divides 2^64. */
  lemma FairAlwaysIff(n: nat)
    requires 0 < n < U64_RANGE
    ensures (forall c: nat, turns: nat :: c < U64_RANGE ==> Fair(c, turns, n)) <==> U64_RANGE % n == 0
  {
    if U64_RANGE % n == 0 {
      forall c: nat, turns: nat | c < U64_RANGE
        ensures Fair(c, turns, n)
      {
        FairWhenDividing(c, turns, n);
      }
    } else {
      UnfairAtWrap(n);
    }
  }

  lemma LastBeforeWrap(n: nat)
    requires 0 < n && U64_RANGE % n != 0
    ensures (U64_RANGE - 1) % n == U64_RANGE % n - 1
  {
    var q, r := U64_RANGE / n, U64_RANGE % n;
    assert U64_RANGE == q * n + r;
    ModUnique(U64_RANGE - 1, n, q, r - 1);
  }

  lemma CeilWithinOne(a: nat, n: nat)
    requires 0 < a <= n
    ensures CeilDiv(a, n) == 1
  {
    DivUnique(a + n - 1, n, 1);
  }

  /** Otherwise the last turn before the wrap and a turn soon after hit the same member within one round. */
  lemma UnfairAtWrap(n: nat)
    requires 0 < n < U64_RANGE && U64_RANGE % n != 0
    ensures !Fair(U64_RANGE - 1, U64_RANGE % n + 1, n)
  {
    var c, r := U64_RANGE - 1, U64_RANGE % n;
    LastBeforeWrap(n);
    assert Turn(c, 0, n) == r - 1;
    assert Turn(c, r, n) == r - 1 by {
      ModUnique(c + r, U64_RANGE, 1, r - 1);
      ModUnique(r - 1, n, 0, r - 1);
    }
    HitsGrow(c, 1, r, n, r - 1);
    CeilWithinOne(r + 1, n);
    assert Hits(c, 1, n, r - 1) == 1;
    assert Hits(c, r + 1, n, r - 1) == Hits(c, r, n, r - 1) + 1;
  }

  lemma {:induction false} HitsGrow(c: nat, a: nat, b: nat, n: nat, i: nat)
    requires n > 0 && a <= b
    ensures Hits(c, a, n, i) <= Hits(c, b, n, i)
  {
    if a < b {
      HitsGrow(c, a, b - 1, n, i);
    }
  }
}
