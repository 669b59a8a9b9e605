/** Tokens without a random number generator: a 64-bit counter stepped by an odd stride and mixed by
    xorshift, multiply, xorshift. Numbers are naturals below 2^64; wrap-around is written out. */
module Token {
  import opened Arithmetic
  import opened Transport

  const STRIDE: nat := 0x9E37_79B9_7F4A_7C15
  const FACTOR: nat := 0xBF58_476D_1CE4_E5B9

  /** Where the Katzenpost binding's counter starts, and the session counter of the rotating Nym client. */
  const TOKEN_START: nat := 0xA5A5_5A5A_1234_9E37
  const SESSION_START: nat := 0x1234_5678_9ABC_DEF0

  // ----- exclusive or and shifts

  function Xor(a: nat, b: nat): nat
    decreases a + b
  {
    if a + b == 0 then 0 else LowBit(a, b) + 2 * Xor(a / 2, b / 2)
  }

  function LowBit(a: nat, b: nat): (bit: nat)
    ensures bit < 2
  {
    if a % 2 == b % 2 then 0 else 1
  }

  function ShiftRight(x: nat, s: nat): nat {
    if s == 0 then x else ShiftRight(x / 2, s - 1)
  }

  function PowerOfTwo(n: nat): nat {
    if n == 0 then 1 else 2 * PowerOfTwo(n - 1)
  }

  function XorShift(x: nat, s: nat): nat {
    Xor(x, ShiftRight(x, s))
  }

  /** A bit in front of other bits. */
  lemma BitAndRest(bit: nat, rest: nat)
    requires bit < 2
    ensures (bit + 2 * rest) / 2 == rest && (bit + 2 * rest) % 2 == bit
  {
  }

  /** The lowest bit and the others, separately. */
  lemma XorHalves(a: nat, b: nat)
    ensures Xor(a, b) / 2 == Xor(a / 2, b / 2)
    ensures Xor(a, b) % 2 == 0 <==> a % 2 == b % 2
  {
    if a + b > 0 {
      BitAndRest(LowBit(a, b), Xor(a / 2, b / 2));
    }
  }

  lemma SameHalves(a: nat, b: nat)
    requires a / 2 == b / 2 && (a % 2 == 0 <==> b % 2 == 0)
    ensures a == b
  {
  }

  lemma {:induction false} XorCancels(a: nat, b: nat)
    ensures Xor(Xor(a, b), b) == a
    decreases a + b
  {
    if a + b > 0 {
      XorHalves(a, b);
      XorHalves(Xor(a, b), b);
      XorCancels(a / 2, b / 2);
      SameHalves(Xor(Xor(a, b), b), a);
    }
  }

  lemma {:induction false} XorShifted(a: nat, b: nat, s: nat)
    ensures ShiftRight(Xor(a, b), s) == Xor(ShiftRight(a, s), ShiftRight(b, s))
    decreases s
  {
    if s > 0 {
      XorHalves(a, b);
      XorShifted(a / 2, b / 2, s - 1);
    }
  }

  lemma {:induction false} ShiftShrinks(x: nat, s: nat)
    ensures ShiftRight(x, s) <= x
    ensures s > 0 && x > 0 ==> ShiftRight(x, s) < x
  {
    if s > 0 {
      ShiftShrinks(x / 2, s - 1);
    }
  }

  /** No information is lost: the shifted operand is recovered from the top down. */
  lemma {:induction false} XorShiftInjective(x: nat, y: nat, s: nat)
    requires s > 0 && XorShift(x, s) == XorShift(y, s)
    ensures x == y
    decreases x + y
  {
    var u, v := ShiftRight(x, s), ShiftRight(y, s);
    if x + y > 0 {
      XorShifted(x, u, s);
      XorShifted(y, v, s);
      ShiftShrinks(x, s);
      ShiftShrinks(y, s);
      XorShiftInjective(u, v, s);
      XorCancels(x, u);
      XorCancels(y, v);
    }
  }

  lemma {:induction false} XorBounded(a: nat, b: nat, n: nat)
    requires a < PowerOfTwo(n) && b < PowerOfTwo(n)
    ensures Xor(a, b) < PowerOfTwo(n)
    decreases n
  {
    if n > 0 {
      XorBounded(a / 2, b / 2, n - 1);
    }
  }

  lemma {:induction false} PowerSum(a: nat, b: nat)
    ensures PowerOfTwo(a + b) == PowerOfTwo(a) * PowerOfTwo(b)
  {
    if a > 0 {
      PowerSum(a - 1, b);
      assert 2 * PowerOfTwo(a - 1) * PowerOfTwo(b) == PowerOfTwo(a) * PowerOfTwo(b);
    }
  }

  lemma SixtyFourBits()
    ensures PowerOfTwo(64) == U64_RANGE
  {
    assert PowerOfTwo(4) == 16;
    PowerSum(4, 4);
    PowerSum(8, 8);
    PowerSum(16, 16);
    PowerSum(32, 32);
  }

  lemma XorShiftBounded(x: nat, s: nat)
    requires x < U64_RANGE
    ensures XorShift(x, s) < U64_RANGE
  {
    SixtyFourBits();
    ShiftShrinks(x, s);
    XorBounded(x, ShiftRight(x, s), 64);
  }

  // ----- multiplication modulo 2^64

  lemma ModDifference(x: nat, y: nat, r: nat) returns (t: int)
    requires r > 0 && x % r == y % r
    ensures x - y == t * r
  {
    t := x / r - y / r;
    Distribute(x / r, -(y / r), r);
  }

  lemma ModShift(x: nat, y: nat, t: int, r: nat)
    requires r > 0 && x - y == t * r
    ensures x % r == y % r
  {
    var q: int := y / r + t;
    Distribute(y / r, t, r);
    assert x == q * r + y % r;
    if q < 0 {
      MulMonotone(q, -1, r);
      assert false;
    }
    ModUnique(x, r, q, y % r);
  }

  /** With `m * inv == q * r + 1`, a multiple of `r` stays one when `m` is cancelled. */
  lemma CancelDifference(d: int, t: int, m: nat, inv: nat, q: nat, r: nat)
    requires m * inv == q * r + 1 && d * m == t * r
    ensures d == (t * inv - d * q) * r
  {
    calc {
      d;
      d * (q * r + 1) - d * q * r;
      d * (m * inv) - d * q * r;
      (d * m) * inv - d * q * r;
      (t * r) * inv - d * q * r;
      (t * inv - d * q) * r;
    }
  }

  /** A factor with an inverse modulo `r` can be cancelled. */
  lemma Cancel(a: nat, b: nat, m: nat, inv: nat, r: nat)
    requires r > 0 && m * inv % r == 1 && (a * m) % r == (b * m) % r
    ensures a % r == b % r
  {
    var t := ModDifference(a * m, b * m, r);
    var d: int := a - b;
    var q := m * inv / r;
    assert d * m == a * m - b * m;
    CancelDifference(d, t, m, inv, q, r);
    ModShift(a, b, t * inv - d * q, r);
  }

  // ----- draws

  /** The counter after `k` steps from `start`: what draw number `k` fetches. */
  function Counter(start: nat, k: nat): nat {
    (start + k * STRIDE) % U64_RANGE
  }

  lemma CounterStep(start: nat, k: nat)
    ensures Counter(start, k + 1) == (Counter(start, k) + STRIDE) % U64_RANGE
  {
    var x := start + k * STRIDE;
    Distribute(k, 1, STRIDE);
    DivBounds(x, U64_RANGE);
    ModShift(x + STRIDE, x % U64_RANGE + STRIDE, x / U64_RANGE, U64_RANGE);
  }

  /** The odd stride visits every 64-bit value before it repeats one. */
  lemma CounterEqualIff(start: nat, a: nat, b: nat)
    ensures Counter(start, a) == Counter(start, b) <==> a % U64_RANGE == b % U64_RANGE
  {
    if Counter(start, a) == Counter(start, b) {
      var t := ModDifference(start + a * STRIDE, start + b * STRIDE, U64_RANGE);
      ModShift(a * STRIDE, b * STRIDE, t, U64_RANGE);
      Cancel(a, b, STRIDE, 0xF1DE_83E1_9937_733D, U64_RANGE);
    }
    if a % U64_RANGE == b % U64_RANGE {
      var t := ModDifference(a, b, U64_RANGE);
      assert a * STRIDE - b * STRIDE == (t * STRIDE) * U64_RANGE;
      ModShift(start + a * STRIDE, start + b * STRIDE, t * STRIDE, U64_RANGE);
    }
  }

  function Mix(x: nat): nat {
    XorShift(XorShift(x, 30) * FACTOR % U64_RANGE, 27)
  }

  lemma FactorInjective(u: nat, v: nat)
    requires u < U64_RANGE && v < U64_RANGE && u * FACTOR % U64_RANGE == v * FACTOR % U64_RANGE
    ensures u == v
  {
    Cancel(u, v, FACTOR, 0x96DE_1B17_3F11_9089, U64_RANGE);
  }

  lemma MixInjective(x: nat, y: nat)
    requires x < U64_RANGE && y < U64_RANGE
    ensures Mix(x) == Mix(y) ==> x == y
  {
    if Mix(x) == Mix(y) {
      var u, v := XorShift(x, 30), XorShift(y, 30);
      XorShiftBounded(x, 30);
      XorShiftBounded(y, 30);
      XorShiftInjective(u * FACTOR % U64_RANGE, v * FACTOR % U64_RANGE, 27);
      FactorInjective(u, v);
      XorShiftInjective(x, y, 30);
    }
  }

  // ----- the mix undone

  lemma {:induction false} XorZero(a: nat)
    ensures Xor(a, 0) == a
    decreases a
  {
    if a > 0 {
      XorHalves(a, 0);
      XorZero(a / 2);
      SameHalves(Xor(a, 0), a);
    }
  }

  lemma {:induction false} XorAssociates(a: nat, b: nat, c: nat)
    ensures Xor(Xor(a, b), c) == Xor(a, Xor(b, c))
    decreases a + b + c
  {
    if a + b + c > 0 {
      var x, y := Xor(Xor(a, b), c), Xor(a, Xor(b, c));
      XorHalves(a, b);
      XorHalves(b, c);
      XorHalves(Xor(a, b), c);
      XorHalves(a, Xor(b, c));
      XorAssociates(a / 2, b / 2, c / 2);
      SameHalves(x, y);
    }
  }

  lemma {:induction false} ShiftTwice(x: nat, s: nat, t: nat)
    ensures ShiftRight(ShiftRight(x, s), t) == ShiftRight(x, s + t)
    decreases s
  {
    if s > 0 {
      ShiftTwice(x / 2, s - 1, t);
    }
  }

  lemma {:induction false} ShiftedOut(x: nat, s: nat)
    requires x < PowerOfTwo(s)
    ensures ShiftRight(x, s) == 0
    decreases s
  {
    if s > 0 {
      ShiftedOut(x / 2, s - 1);
    }
  }

  lemma {:induction false} PowerGrows(a: nat, b: nat)
    requires a <= b
    ensures PowerOfTwo(a) <= PowerOfTwo(b)
  {
    if a < b {
      PowerGrows(a, b - 1);
    }
  }

  /** Shifting a third of the width or more is undone by shifting the result once and twice. */
  function UndoShift(z: nat, s: nat): nat {
    Xor(Xor(z, ShiftRight(z, s)), ShiftRight(z, s + s))
  }

  /** With `b`, `c` and nothing further down the shifted parts cancel in pairs. */
  lemma PairsCancel(a: nat, b: nat, c: nat)
    ensures Xor(Xor(Xor(a, b), Xor(b, c)), c) == a
  {
    XorAssociates(Xor(a, b), b, c);
    XorCancels(a, b);
    XorCancels(a, c);
  }

  lemma ShiftUndone(x: nat, s: nat)
    requires x < U64_RANGE && 64 <= 3 * s
    ensures UndoShift(XorShift(x, s), s) == x
  {
    var b, c := ShiftRight(x, s), ShiftRight(x, s + s);
    XorShifted(x, b, s);
    ShiftTwice(x, s, s);
    XorShifted(x, b, s + s);
    ShiftTwice(x, s, s + s);
    SixtyFourBits();
    PowerGrows(64, s + (s + s));
    ShiftedOut(x, s + (s + s));
    XorZero(c);
    PairsCancel(x, b, c);
  }

  /** The mix backwards, with the inverse of the factor modulo 2^64. */
  function Unmix(y: nat): nat {
    UndoShift(UndoShift(y, 27) * 0x96DE_1B17_3F11_9089 % U64_RANGE, 30)
  }

  lemma InverseFactor(u: nat)
    requires u < U64_RANGE
    ensures u * FACTOR % U64_RANGE * 0x96DE_1B17_3F11_9089 % U64_RANGE == u
  {
    var inv: nat := 0x96DE_1B17_3F11_9089;
    var x := u * FACTOR;
    var q, k := x / U64_RANGE, FACTOR * inv / U64_RANGE;
    var m := x % U64_RANGE;
    assert x == q * U64_RANGE + m;
    assert FACTOR * inv == k * U64_RANGE + 1;
    InverseSteps(u, FACTOR, inv, q, m, k, U64_RANGE);
    ModShift(m * inv, u, u * k - q * inv, U64_RANGE);
    SmallMod(u);
  }

  lemma InverseSteps(u: nat, f: nat, inv: nat, q: nat, m: nat, k: nat, r: nat)
    requires u * f == q * r + m && f * inv == k * r + 1
    ensures m * inv - u == (u * k - q * inv) * r
  {
    calc {
      m * inv;
      (u * f - q * r) * inv;
      u * f * inv - q * r * inv;
      u * (f * inv) - q * inv * r;
      u * (k * r + 1) - q * inv * r;
      u + (u * k - q * inv) * r;
    }
  }

  /** Unmixing gives back every 64-bit value. */
  lemma MixUndone(x: nat)
    requires x < U64_RANGE
    ensures Unmix(Mix(x)) == x
  {
    var u := XorShift(x, 30);
    ShiftUndone(u * FACTOR % U64_RANGE, 27);
    XorShiftBounded(x, 30);
    InverseFactor(u);
    ShiftUndone(x, 30);
  }

  // ----- rendering

  const WORD: nat := 8

  /** `to_le_bytes` of a number of `n` bytes. */
  function LittleEndian(x: nat, n: nat): (r: seq<Byte>)
    ensures |r| == n
  {
    if n == 0 then [] else [x % 256] + LittleEndian(x / 256, n - 1)
  }

  function FromLittleEndian(s: seq<Byte>): nat {
    if s == [] then 0 else s[0] + 256 * FromLittleEndian(s[1..])
  }

  lemma {:induction false} LittleEndianRoundTrip(x: nat, n: nat)
    requires x < PowerOfTwo(8 * n)
    ensures FromLittleEndian(LittleEndian(x, n)) == x
  {
    if n > 0 {
      PowerSum(8, 8 * (n - 1));
      assert PowerOfTwo(4) == 16;
      PowerSum(4, 4);
      LittleEndianRoundTrip(x / 256, n - 1);
      assert LittleEndian(x, n)[1..] == LittleEndian(x / 256, n - 1);
    }
  }

  /** The eight bytes made from counter value `x`. */
  function Render(x: nat): (r: seq<Byte>)
    ensures |r| == 8
  {
    LittleEndian(Mix(x), WORD)
  }

  lemma RenderInjective(x: nat, y: nat)
    requires x < U64_RANGE && y < U64_RANGE
    ensures Render(x) == Render(y) ==> x == y
  {
    SixtyFourBits();
    XorShiftBounded(XorShift(x, 30) * FACTOR % U64_RANGE, 27);
    XorShiftBounded(XorShift(y, 30) * FACTOR % U64_RANGE, 27);
    LittleEndianRoundTrip(Mix(x), WORD);
    LittleEndianRoundTrip(Mix(y), WORD);
    MixInjective(x, y);
  }

  /** The eight bytes made from draw number `k`. */
  function Half(start: nat, k: nat): (r: seq<Byte>)
    ensures |r| == 8
  {
    Render(Counter(start, k))
  }

  /** Two draws make the same eight bytes exactly when they are a multiple of 2^64 draws apart. */
  lemma HalfEqualIff(start: nat, a: nat, b: nat)
    ensures Half(start, a) == Half(start, b) <==> a % U64_RANGE == b % U64_RANGE
  {
    CounterEqualIff(start, a, b);
    if Half(start, a) == Half(start, b) {
      RenderInjective(Counter(start, a), Counter(start, b));
    }
  }

  /** Token number `i` of a process whose calls do not overlap; `half` is what each draw makes. */
  function TokenNumber(half: nat -> seq<Byte>, i: nat): seq<Byte> {
    half(2 * i) + half(2 * i + 1)
  }

  function Halves(start: nat): nat -> seq<Byte> {
    (k: nat) => Half(start, k)
  }

  lemma DoubledMod(i: nat, j: nat, r: nat)
    requires r > 0
    ensures 2 * i % (2 * r) == 2 * j % (2 * r) <==> i % r == j % r
    ensures i % r == j % r ==> (2 * i + 1) % (2 * r) == (2 * j + 1) % (2 * r)
  {
    if 2 * i % (2 * r) == 2 * j % (2 * r) {
      var t := ModDifference(2 * i, 2 * j, 2 * r);
      assert t * (2 * r) == 2 * (t * r);
      ModShift(i, j, t, r);
    }
    if i % r == j % r {
      var t := ModDifference(i, j, r);
      assert t * (2 * r) == 2 * (t * r);
      ModShift(2 * i, 2 * j, t, 2 * r);
      ModShift(2 * i + 1, 2 * j + 1, t, 2 * r);
    }
  }

  lemma TokenParts(half: nat -> seq<Byte>, i: nat, j: nat)
    requires |half(2 * i)| == |half(2 * j)|
    ensures TokenNumber(half, i) == TokenNumber(half, j) <==> half(2 * i) == half(2 * j) && half(2 * i + 1) == half(2 * j + 1)
  {
    var t, u, n := TokenNumber(half, i), TokenNumber(half, j), |half(2 * i)|;
    assert t[..n] == half(2 * i) && t[n..] == half(2 * i + 1);
    assert u[..n] == half(2 * j) && u[n..] == half(2 * j + 1);
  }

  /** Such tokens repeat with a period of exactly 2^63. */
  lemma TokensRepeatIff(start: nat, i: nat, j: nat)
    ensures TokenNumber(Halves(start), i) == TokenNumber(Halves(start), j) <==> i % (U64_RANGE / 2) == j % (U64_RANGE / 2)
  {
    TokenParts(Halves(start), i, j);
    DoubledMod(i, j, U64_RANGE / 2);
    HalfEqualIff(start, 2 * i, 2 * j);
    HalfEqualIff(start, 2 * i + 1, 2 * j + 1);
  }

  /** The first token comes back as token number 2^63. */
  lemma FirstTokenRepeats(start: nat)
    ensures TokenNumber(Halves(start), U64_RANGE / 2) == TokenNumber(Halves(start), 0)
  {
    TokensRepeatIff(start, U64_RANGE / 2, 0);
  }

  // ----- concurrent calls

  /** `made[c]` holds the halves call `c` has drawn so far. */
  datatype Source = Source(ctr: nat, made: seq<seq<seq<Byte>>>)

  datatype Event = Begin | Draw(call: nat)

  predicate Enabled(s: Source, e: Event) {
    e.Draw? ==> e.call < |s.made| && |s.made[e.call]| < 2
  }

  /** `render` turns the counter value fetched into the bytes stored. */
  function Next(render: nat -> seq<Byte>, s: Source, e: Event): Source
    requires Enabled(s, e)
  {
    match e
    case Begin => s.(made := s.made + [[]])
    case Draw(c) => Source((s.ctr + STRIDE) % U64_RANGE, s.made[c := s.made[c] + [render(s.ctr)]])
  }

  ghost predicate Steps(render: nat -> seq<Byte>, before: Source, e: Event, s: Source) {
    Enabled(before, e) && s == Next(render, before, e)
  }

  ghost predicate Runs(render: nat -> seq<Byte>, start: nat, run: seq<Event>, s: Source)
    decreases |run|
  {
    if run == [] then s == Source(start, []) else
    var init, e := run[..|run| - 1], run[|run| - 1];
    exists before :: Runs(render, start, init, before) && Steps(render, before, e, s)
  }

  /** A half of a token in the making: which call's, and which one. */
  datatype Place = Place(call: nat, pos: nat)

  ghost predicate Present(made: seq<seq<seq<Byte>>>, p: Place) {
    p.call < |made| && p.pos < |made[p.call]|
  }

  function Total(made: seq<seq<seq<Byte>>>): nat {
    if made == [] then 0 else |made[0]| + Total(made[1..])
  }

  lemma {:induction false} TotalUpdate(made: seq<seq<seq<Byte>>>, c: nat, h: seq<Byte>)
    requires c < |made|
    ensures Total(made[c := made[c] + [h]]) == Total(made) + 1
  {
    var longer := made[c := made[c] + [h]];
    if c > 0 {
      TotalUpdate(made[1..], c - 1, h);
      assert longer[1..] == made[1..][c - 1 := made[1..][c - 1] + [h]];
    } else {
      assert longer[1..] == made[1..];
    }
  }

  lemma {:induction false} TotalBegin(made: seq<seq<seq<Byte>>>)
    ensures Total(made + [[]]) == Total(made)
  {
    if made != [] {
      TotalBegin(made[1..]);
      assert (made + [[]])[1..] == made[1..] + [[]];
    }
  }

  lemma {:induction false} TotalBounded(made: seq<seq<seq<Byte>>>)
    requires forall c :: 0 <= c < |made| ==> |made[c]| <= 2
    ensures Total(made) <= 2 * |made|
  {
    if made != [] {
      TotalBounded(made[1..]);
    }
  }

  /** `order[k]` is where the bytes of draw number `k` went. */
  ghost predicate Drawn(half: nat -> seq<Byte>, made: seq<seq<seq<Byte>>>, order: seq<Place>) {
    && (forall k :: 0 <= k < |order| ==> Present(made, order[k]) && made[order[k].call][order[k].pos] == half(k))
    && (forall p :: Present(made, p) ==> p in order)
  }

  ghost predicate Inv(half: nat -> seq<Byte>, start: nat, s: Source, order: seq<Place>) {
    && s.ctr == Counter(start, |order|) && Total(s.made) == |order|
    && (forall c :: 0 <= c < |s.made| ==> |s.made[c]| <= 2)
    && Drawn(half, s.made, order)
  }

  lemma BeginDrawn(half: nat -> seq<Byte>, made: seq<seq<seq<Byte>>>, order: seq<Place>)
    requires Drawn(half, made, order)
    ensures Drawn(half, made + [[]], order)
  {
    var more := made + [[]];
    forall p | Present(more, p)
      ensures p in order
    {
      assert Present(made, p);
    }
  }

  lemma DrawDrawn(half: nat -> seq<Byte>, made: seq<seq<seq<Byte>>>, order: seq<Place>, c: nat)
    requires Drawn(half, made, order) && c < |made|
    ensures Drawn(half, made[c := made[c] + [half(|order|)]], order + [Place(c, |made[c]|)])
  {
    var more, longer := made[c := made[c] + [half(|order|)]], order + [Place(c, |made[c]|)];
    forall p | Present(more, p)
      ensures p in longer
    {
      if p == Place(c, |made[c]|) {
        assert longer[|order|] == p;
      } else {
        assert Present(made, p);
      }
    }
  }

  lemma StepInv(render: nat -> seq<Byte>, half: nat -> seq<Byte>, start: nat, before: Source, e: Event, s: Source, order: seq<Place>)
      returns (longer: seq<Place>)
    requires Inv(half, start, before, order) && Steps(render, before, e, s)
    requires forall k: nat :: half(k) == render(Counter(start, k))
    ensures Inv(half, start, s, longer)
  {
    match e {
      case Begin =>
        longer := order;
        BeginDrawn(half, before.made, order);
        TotalBegin(before.made);
      case Draw(c) =>
        longer := order + [Place(c, |before.made[c]|)];
        assert half(|order|) == render(before.ctr);
        DrawDrawn(half, before.made, order, c);
        TotalUpdate(before.made, c, half(|order|));
        CounterStep(start, |order|);
    }
  }

  lemma {:induction false} RunInv(render: nat -> seq<Byte>, half: nat -> seq<Byte>, start: nat, run: seq<Event>, s: Source)
      returns (order: seq<Place>)
    requires start < U64_RANGE && Runs(render, start, run, s)
    requires forall k: nat :: half(k) == render(Counter(start, k))
    ensures Inv(half, start, s, order)
    decreases |run|
  {
    if run == [] {
      order := [];
    } else {
      var e, init := run[|run| - 1], run[..|run| - 1];
      var before :| Runs(render, start, init, before) && Steps(render, before, e, s);
      order := RunInv(render, half, start, init, before);
      order := StepInv(render, half, start, before, e, s, order);
    }
  }

  lemma DistinctPlaces(half: nat -> seq<Byte>, made: seq<seq<seq<Byte>>>, order: seq<Place>, p: Place, q: Place)
    requires Drawn(half, made, order) && Present(made, p) && Present(made, q) && p != q
    requires forall i: nat, j: nat :: i < |order| && j < |order| && i != j ==> half(i) != half(j)
    ensures made[p.call][p.pos] != made[q.call][q.pos]
  {
    var i :| 0 <= i < |order| && order[i] == p;
    var j :| 0 <= j < |order| && order[j] == q;
    assert half(i) != half(j);
  }

  lemma HalvesDistinct(start: nat, n: nat)
    requires n <= U64_RANGE
    ensures forall i: nat, j: nat :: i < n && j < n && i != j ==> Halves(start)(i) != Halves(start)(j)
  {
    forall i: nat, j: nat | i < n && j < n && i != j
      ensures Half(start, i) != Half(start, j)
    {
      SmallMod(i);
      SmallMod(j);
      HalfEqualIff(start, i, j);
    }
  }

  lemma SmallMod(i: nat)
    requires i < U64_RANGE
    ensures i % U64_RANGE == i
  {
  }

  /** However concurrent calls interleave their draws, the first 2^63 calls never make the same half twice, within one
      token or across tokens. */
  lemma NoSharedHalf(start: nat, run: seq<Event>, s: Source, p: Place, q: Place)
    requires start < U64_RANGE && Runs(Render, start, run, s) && |s.made| <= U64_RANGE / 2
    requires Present(s.made, p) && Present(s.made, q) && p != q
    ensures s.made[p.call][p.pos] != s.made[q.call][q.pos]
  {
    var order := RunInv(Render, Halves(start), start, run, s);
    TotalBounded(s.made);
    HalvesDistinct(start, |order|);
    DistinctPlaces(Halves(start), s.made, order, p, q);
  }

  // ----- the object

  class TokenSource {
    var ctr: nat

    ghost const start: nat
    ghost var draws: nat

    ghost predicate Valid()
      reads this
    {
      ctr == Counter(start, draws)
    }

    constructor ForTokens()
      ensures Valid() && start == TOKEN_START && draws == 0
    {
      ctr, start, draws := TOKEN_START, TOKEN_START, 0;
    }

    constructor ForSessions()
      ensures Valid() && start == SESSION_START && draws == 0
    {
      ctr, start, draws := SESSION_START, SESSION_START, 0;
    }

    method FetchAdd() returns (x: nat)
      requires Valid()
      modifies this
      ensures Valid() && x == Counter(start, old(draws)) && draws == old(draws) + 1
    {
      CounterStep(start, draws);
      x := ctr;
      ctr := (ctr + STRIDE) % U64_RANGE;
      draws := draws + 1;
    }

    /** `rand_id`: one draw. */
    method SessionId() returns (id: seq<Byte>)
      requires Valid()
      modifies this
      ensures Valid() && draws == old(draws) + 1 && id == Half(start, old(draws))
    {
      var x := FetchAdd();
      x := XorShift(x, 30);
      x := x * FACTOR % U64_RANGE;
      x := XorShift(x, 27);
      id := LittleEndian(x, WORD);
      assert id == Render(Counter(start, old(draws)));
    }

    /** `instance_token`: two draws, each filling one half of the array. */
    method InstanceToken() returns (out: array<Byte>)
      requires Valid()
      modifies this
      ensures Valid() && draws == old(draws) + 2
      ensures fresh(out) && out[..] == Half(start, old(draws)) + Half(start, old(draws) + 1)
    {
      out := new Byte[2 * WORD](_ => 0);
      ghost var halves: seq<Byte> := [];
      for h := 0 to 2
        invariant Valid() && draws == old(draws) + h && fresh(out) && out.Length == 16
        invariant out[..8 * h] == halves
        invariant h == 0 ==> halves == []
        invariant h == 1 ==> halves == Half(start, old(draws))
        invariant h == 2 ==> halves == Half(start, old(draws)) + Half(start, old(draws) + 1)
      {
        var bytes := SessionId();
        CopyInto(out, h * WORD, bytes);
        halves := halves + bytes;
      }
      assert out[..] == out[..16];
    }
  }

  /** `copy_from_slice` on the chunk of the array that starts at `from`. */
  method CopyInto(out: array<Byte>, from: nat, bytes: seq<Byte>)
    requires from + |bytes| <= out.Length
    modifies out
    ensures out[..from + |bytes|] == old(out[..from]) + bytes
    ensures out[from + |bytes|..] == old(out[from + |bytes|..])
  {
    for i := 0 to |bytes|
      invariant out[..from + i] == old(out[..from]) + bytes[..i]
      invariant out[from + |bytes|..] == old(out[from + |bytes|..])
    {
      out[from + i] := bytes[i];
      assert out[..from + i + 1] == out[..from + i] + [bytes[i]];
    }
    assert bytes[..|bytes|] == bytes;
  }
}
