/** Round-robin striping over several substrates, and the blended oracle of the combined path. Rates are bytes per
    second and times seconds, in exact reals: the integer floors of `Duration` come after this model. */
module Striped {
  import opened Arithmetic
  import opened RoundRobin
  import opened Transport

  // ----- striping

  class Striped {
    /** What each substrate was given, oldest first. */
    var subs: seq<seq<Datagram>>
    var next: nat

    constructor (n: nat)
      ensures |subs| == n && next == 0 && forall i :: 0 <= i < n ==> subs[i] == []
    {
      subs := seq(n, _ => []);
      next := 0;
    }

    method Send(datagram: Datagram)
      modifies this
      ensures |subs| == |old(subs)|
      ensures |subs| == 0 ==> next == old(next)
      ensures |subs| > 0 ==> var i := old(next) % |subs|;
                subs == old(subs)[i := old(subs)[i] + [datagram]] && next == (old(next) + 1) % U64_RANGE
    {
      if |subs| == 0 {
        return;
      }
      var i := next % |subs|;
      subs, next := subs[i := subs[i] + [datagram]], (next + 1) % U64_RANGE;
    }

    /** A burst of sends gives each substrate exactly its turns: an even share unless the counter wraps. */
    method SendAll(datagrams: seq<Datagram>)
      requires subs != [] && next < U64_RANGE
      modifies this
      ensures |subs| == |old(subs)|
      ensures forall i :: 0 <= i < |subs| ==>
                |subs[i]| == |old(subs)[i]| + Hits(old(next), |datagrams|, |subs|, i)
      ensures old(next) + |datagrams| <= U64_RANGE ==>
                forall i :: 0 <= i < |subs| ==>
                  |datagrams| / |subs| <= |subs[i]| - |old(subs)[i]| <= CeilDiv(|datagrams|, |subs|)
    {
      for k := 0 to |datagrams|
        invariant |subs| == |old(subs)| && next == (old(next) + k) % U64_RANGE
        invariant forall i :: 0 <= i < |subs| ==> |subs[i]| == |old(subs)[i]| + Hits(old(next), k, |subs|, i)
      {
        CounterStep(old(next) + k);
        Send(datagrams[k]);
      }
      if old(next) + |datagrams| <= U64_RANGE {
        FairUntilWrap(old(next), |datagrams|, |subs|);
      }
    }
  }

  // ----- the blended oracle

  /** A path's capacity in bytes per second; an uncapped one is taken at 1e9. */
  function Rate(p: OracleParams): real {
    if p.slotInterval == 0 then 1.0e9 else p.mtu as real * 1.0e9 / p.slotInterval as real
  }

  function Seconds(ns: nat): real {
    ns as real / 1.0e9
  }

  function RttSeconds(p: OracleParams): real {
    Seconds(p.Rtt())
  }

  function Sum(xs: seq<real>): real {
    if xs == [] then 0.0 else Sum(xs[..|xs| - 1]) + xs[|xs| - 1]
  }

  function Dot(xs: seq<real>, ys: seq<real>): real
    requires |xs| == |ys|
  {
    if xs == [] then 0.0 else Dot(xs[..|xs| - 1], ys[..|ys| - 1]) + xs[|xs| - 1] * ys[|ys| - 1]
  }

  function Rates(ps: seq<OracleParams>): (r: seq<real>)
    ensures |r| == |ps| && forall i :: 0 <= i < |ps| ==> r[i] == Rate(ps[i])
  {
    seq(|ps|, i requires 0 <= i < |ps| => Rate(ps[i]))
  }

  function Rtts(ps: seq<OracleParams>): (r: seq<real>)
    ensures |r| == |ps| && forall i :: 0 <= i < |ps| ==> r[i] == RttSeconds(ps[i])
  {
    seq(|ps|, i requires 0 <= i < |ps| => RttSeconds(ps[i]))
  }

  function Drops(ps: seq<OracleParams>): (r: seq<real>)
    ensures |r| == |ps| && forall i :: 0 <= i < |ps| ==> r[i] == ps[i].dropProb
  {
    seq(|ps|, i requires 0 <= i < |ps| => ps[i].dropProb)
  }

  function PathDelay(p: OracleParams): nat {
    p.meanHopDelay * p.hops
  }

  /** `d` is the longest one-way delay among the paths. */
  ghost predicate Slowest(ps: seq<OracleParams>, d: nat) {
    && (forall i :: 0 <= i < |ps| ==> PathDelay(ps[i]) <= d)
    && (ps != [] ==> exists i :: 0 <= i < |ps| && PathDelay(ps[i]) == d)
  }

  /** The blend before its slot is rounded to nanoseconds. */
  datatype Blend = Blend(hops: nat, meanHopDelay: nat, dropProb: real, slotSeconds: real, mtu: nat) {
    function RttSeconds(): real {
      Seconds(meanHopDelay * hops * 2)
    }

    /** `bdp_bytes` before its integer casts, for a capped path. */
    function Bdp(): real
      requires slotSeconds > 0.0
    {
      mtu as real / slotSeconds * RttSeconds()
    }
  }

  /** One hop as long as the slowest path, paced so that the first path's MTU leaves at the summed rate. */
  ghost predicate BlendOf(ps: seq<OracleParams>, b: Blend)
    requires ps != []
  {
    && b.hops == 1 && b.mtu == ps[0].mtu && Slowest(ps, b.meanHopDelay)
    && b.slotSeconds == (if Sum(Rates(ps)) > 0.0 then b.mtu as real / Sum(Rates(ps)) else 0.0)
  }

  method BlendOracles(ps: seq<OracleParams>) returns (b: Blend)
    ensures ps == [] ==> b == Blend(1, 0, 0.0, 0.0, 1200)
    ensures ps != [] ==> BlendOf(ps, b) && b.dropProb == Sum(Drops(ps)) / |ps| as real
  {
    if ps == [] {
      return Blend(1, 0, 0.0, 0.0, 1200);
    }
    var rate, drops, slowest := 0.0, 0.0, 0;
    for i := 0 to |ps|
      invariant rate == Sum(Rates(ps)[..i]) && drops == Sum(Drops(ps)[..i]) && Slowest(ps[..i], slowest)
      invariant i == 0 ==> slowest == 0
    {
      assert Rates(ps)[..i + 1][..i] == Rates(ps)[..i] && Drops(ps)[..i + 1][..i] == Drops(ps)[..i];
      rate := rate + Rate(ps[i]);
      drops := drops + ps[i].dropProb;
      ghost var before := slowest;
      if PathDelay(ps[i]) > slowest {
        slowest := PathDelay(ps[i]);
      }
      SlowestExtends(ps, i, before, slowest);
    }
    assert ps[..|ps|] == ps && Rates(ps)[..|ps|] == Rates(ps) && Drops(ps)[..|ps|] == Drops(ps);
    b := Blend(1, slowest, drops / |ps| as real, if rate > 0.0 then ps[0].mtu as real / rate else 0.0, ps[0].mtu);
  }

  lemma SlowestExtends(ps: seq<OracleParams>, i: nat, d: nat, e: nat)
    requires i < |ps| && Slowest(ps[..i], d) && (i == 0 ==> d == 0)
    requires e == if PathDelay(ps[i]) > d then PathDelay(ps[i]) else d
    ensures Slowest(ps[..i + 1], e)
  {
    var qs := ps[..i + 1];
    assert forall k :: 0 <= k < i ==> qs[k] == ps[..i][k];
    assert qs[i] == ps[i];
    if e != PathDelay(ps[i]) {
      var k :| 0 <= k < i && PathDelay(ps[..i][k]) == d;
      assert PathDelay(qs[k]) == e;
    }
  }

  ghost predicate AllCapped(ps: seq<OracleParams>) {
    forall i :: 0 <= i < |ps| ==> ps[i].slotInterval > 0
  }

  lemma {:induction false} SumPositive(xs: seq<real>)
    requires forall i :: 0 <= i < |xs| ==> xs[i] >= 0.0
    ensures Sum(xs) >= 0.0
    ensures xs != [] && xs[0] > 0.0 ==> Sum(xs) > 0.0
  {
    if xs != [] {
      SumPositive(xs[..|xs| - 1]);
    }
  }

  lemma RateAtLeastZero(p: OracleParams)
    ensures Rate(p) >= 0.0
    ensures p.slotInterval > 0 && p.mtu > 0 ==> Rate(p) > 0.0
  {
  }

  lemma RttAtMost(p: OracleParams, d: nat)
    requires PathDelay(p) <= d
    ensures RttSeconds(p) <= Seconds(2 * d)
  {
    assert p.Rtt() == 2 * PathDelay(p);
  }

  lemma ProductStep(bdp: real, rates: real, rate: real, rtt: real, t: real)
    requires bdp <= rates * t && rate >= 0.0 && rtt <= t
    ensures bdp + rate * rtt <= (rates + rate) * t
  {
    assert rate * rtt <= rate * t;
    assert (rates + rate) * t == rates * t + rate * t;
  }

  lemma {:induction false} DotAtMost(xs: seq<real>, ys: seq<real>, t: real)
    requires Within(xs, ys, t)
    ensures Dot(xs, ys) <= Sum(xs) * t
  {
    if xs != [] {
      var n := |xs| - 1;
      DotAtMost(xs[..n], ys[..n], t);
      ProductStep(Dot(xs[..n], ys[..n]), Sum(xs[..n]), xs[n], ys[n], t);
    }
  }

  ghost predicate Within(xs: seq<real>, ys: seq<real>, t: real) {
    |xs| == |ys| && forall i :: 0 <= i < |xs| ==> xs[i] >= 0.0 && ys[i] <= t
  }

  lemma PathsWithin(ps: seq<OracleParams>, d: nat)
    requires Slowest(ps, d)
    ensures Within(Rates(ps), Rtts(ps), Seconds(2 * d))
  {
    forall i | 0 <= i < |ps|
      ensures Rates(ps)[i] >= 0.0 && Rtts(ps)[i] <= Seconds(2 * d)
    {
      RateAtLeastZero(ps[i]);
      RttAtMost(ps[i], d);
    }
  }

  lemma Unscale(m: real, r: real)
    requires r > 0.0
    ensures m > 0.0 ==> m / r > 0.0 && m / (m / r) == r
    ensures m == 0.0 ==> m / r == 0.0
  {
  }

  /** An MTU paced at `m / rate` seconds makes `rate` bytes per second. */
  lemma PacedRate(m: real, rate: real, t: real)
    requires m > 0.0 && rate > 0.0
    ensures m / rate > 0.0 && m / (m / rate) * t == rate * t
  {
    Unscale(m, rate);
  }

  lemma BlendBdp(b: Blend, rate: real)
    requires b.hops == 1 && b.mtu > 0 && rate > 0.0 && b.slotSeconds == b.mtu as real / rate
    ensures b.slotSeconds > 0.0 && b.Bdp() == rate * b.RttSeconds()
  {
    PacedRate(b.mtu as real, rate, b.RttSeconds());
  }

  lemma BlendRtt(b: Blend)
    requires b.hops == 1
    ensures b.RttSeconds() == Seconds(2 * b.meanHopDelay)
  {
    assert b.meanHopDelay * b.hops * 2 == 2 * b.meanHopDelay;
  }

  /** The paths' products, against a round trip no path exceeds. */
  lemma PathsCovered(ps: seq<OracleParams>, d: nat)
    requires Slowest(ps, d)
    ensures Dot(Rates(ps), Rtts(ps)) <= Sum(Rates(ps)) * Seconds(2 * d)
  {
    PathsWithin(ps, d);
    DotAtMost(Rates(ps), Rtts(ps), Seconds(2 * d));
  }

  lemma CapacityPositive(ps: seq<OracleParams>)
    requires ps != [] && ps[0].slotInterval > 0 && ps[0].mtu > 0
    ensures Sum(Rates(ps)) > 0.0
  {
    forall i | 0 <= i < |ps|
      ensures Rates(ps)[i] >= 0.0
    {
      RateAtLeastZero(ps[i]);
    }
    RateAtLeastZero(ps[0]);
    SumPositive(Rates(ps));
  }

  /** Over capped paths the blend is itself capped exactly when its MTU, the first path's, is positive. */
  lemma BlendCappedIff(ps: seq<OracleParams>, b: Blend)
    requires ps != [] && AllCapped(ps) && BlendOf(ps, b)
    ensures b.slotSeconds > 0.0 <==> ps[0].mtu > 0
  {
    if ps[0].mtu > 0 {
      CapacityPositive(ps);
    }
    if Sum(Rates(ps)) > 0.0 {
      Unscale(b.mtu as real, Sum(Rates(ps)));
    }
  }

  /** The blend's bandwidth-delay product is the summed rate times the slowest round trip, and so covers the sum of
      the paths' own products. */
  lemma BlendCoversPaths(ps: seq<OracleParams>, b: Blend)
    requires ps != [] && AllCapped(ps) && BlendOf(ps, b) && ps[0].mtu > 0
    ensures b.slotSeconds > 0.0
    ensures b.Bdp() == Sum(Rates(ps)) * Seconds(2 * b.meanHopDelay)
    ensures b.Bdp() >= Dot(Rates(ps), Rtts(ps))
  {
    CapacityPositive(ps);
    BlendBdp(b, Sum(Rates(ps)));
    BlendRtt(b);
    PathsCovered(ps, b.meanHopDelay);
  }

  lemma {:induction false} SumOfEqual(xs: seq<real>, x: real)
    requires forall i :: 0 <= i < |xs| ==> xs[i] == x
    ensures Sum(xs) == |xs| as real * x
  {
    if xs != [] {
      SumOfEqual(xs[..|xs| - 1], x);
    }
  }

  /** A path's rate sends one MTU per slot, or 1e9 bytes per second when it has no slot. */
  lemma RatePerSlot(p: OracleParams)
    ensures p.slotInterval > 0 ==> Rate(p) * Seconds(p.slotInterval) == p.mtu as real
    ensures p.slotInterval == 0 ==> Rate(p) == 1.0e9
  {
    if p.slotInterval > 0 {
      var m, slot := p.mtu as real, p.slotInterval as real;
      SlotRate(m, slot);
    }
  }

  lemma SlotRate(m: real, slot: real)
    requires slot > 0.0
    ensures m * 1.0e9 / slot * (slot / 1.0e9) == m
  {
    var r := m * 1.0e9 / slot;
    assert r * slot == m * 1.0e9;
    assert r * (slot / 1.0e9) == r * slot / 1.0e9;
  }

  lemma ShareOfSlot(n: real, rate: real, slot: real, m: real)
    requires n > 0.0 && rate > 0.0 && rate * slot == m
    ensures m / (n * rate) * n == slot
  {
    var x := m / (n * rate);
    assert x * (n * rate) == m;
    assert (x * n) * rate == slot * rate;
    SameFactor(x * n, slot, rate);
  }

  lemma SameFactor(a: real, b: real, c: real)
    requires c > 0.0 && a * c == b * c
    ensures a == b
  {
    assert (a - b) * c == 0.0;
  }

  /** Blending `n` paths of the same rate and MTU paces `n` times as fast as one: by the `n`-th part of its slot, and so by
      the slot itself for a single path. */
  lemma BlendOfEqualPaths(ps: seq<OracleParams>, b: Blend)
    requires ps != [] && BlendOf(ps, b) && ps[0].mtu > 0 && ps[0].slotInterval > 0
    requires forall i :: 0 <= i < |ps| ==> ps[i].mtu == ps[0].mtu && ps[i].slotInterval == ps[0].slotInterval
    ensures b.slotSeconds * |ps| as real == Seconds(ps[0].slotInterval)
  {
    var rate := Rate(ps[0]);
    SumOfEqual(Rates(ps), rate);
    RatePerSlot(ps[0]);
    RateAtLeastZero(ps[0]);
    CapacityPositiveOf(|ps| as real, rate);
    ShareOfSlot(|ps| as real, rate, Seconds(ps[0].slotInterval), ps[0].mtu as real);
  }

  lemma CapacityPositiveOf(n: real, rate: real)
    requires n > 0.0 && rate > 0.0
    ensures n * rate > 0.0
  {
  }
}
