/** The bandwidth-delay sizing of `client.rs`, and what it buys the boundary. The float formulas are taken in exact
    arithmetic, with the saturating cast to 64 bits kept. */
module Client {
  import opened Arithmetic
  import opened Transport
  import BoundaryModel
  import BoundaryTheorems

  const U64_MAX: nat := U64_RANGE - 1

  function BdpBytes(p: OracleParams): nat {
    if p.slotInterval == 0 then 16 * 1024 * 1024
    else Max(Min(p.mtu * p.Rtt() / p.slotInterval, U64_MAX), p.mtu * 2)
  }

  function BdpPackets(p: OracleParams): nat {
    Max(BdpBytes(p) / Max(p.mtu, 1), 16)
  }

  /** `BdpBytes`, by what the path carries in a round trip. */
  lemma BytesCarried(p: OracleParams, carried: nat)
    requires carried == p.mtu * p.Rtt() && p.slotInterval > 0
    ensures BdpBytes(p) == Max(Min(carried / p.slotInterval, U64_MAX), 2 * p.mtu)
  {
  }

  /** The congestion window in bytes: what the path carries in a round trip, in whole bytes and within 64 bits, but never
      less than two datagrams; 16 MiB for an uncapped path. */
  lemma WindowBytes(p: OracleParams, carried: nat, window: nat)
    requires carried == p.mtu * p.Rtt() && window == BdpBytes(p) && 2 * p.mtu <= U64_MAX
    ensures p.slotInterval == 0 ==> window == 0x100_0000
    ensures p.slotInterval > 0 ==> 2 * p.mtu <= window <= U64_MAX
    ensures p.slotInterval > 0 && window > 2 * p.mtu ==> window * p.slotInterval <= carried
    ensures p.slotInterval > 0 && window < U64_MAX ==> carried < (window + 1) * p.slotInterval
  {
    if p.slotInterval > 0 {
      BytesCarried(p, carried);
      DivBounds(carried, p.slotInterval);
      WindowBetween(carried, p.slotInterval, carried / p.slotInterval, 2 * p.mtu, window);
    }
  }

  lemma WindowBetween(carried: nat, slot: nat, q: nat, floor: nat, window: nat)
    requires q * slot <= carried < (q + 1) * slot && window == Max(Min(q, U64_MAX), floor)
    ensures window > floor ==> window * slot <= carried
    ensures window < U64_MAX ==> carried < (window + 1) * slot
  {
    if window > floor {
      MulMonotone(window, q, slot);
    }
    if window < U64_MAX {
      MulMonotone(q + 1, window + 1, slot);
    }
  }

  /** Scaling the dividend by `m` and dividing `m` out again loses nothing. */
  lemma ScaledDiv(m: nat, r: nat, s: nat)
    requires m > 0 && s > 0
    ensures (m * r / s) / m == r / s
  {
    var q, x := r / s, m * r / s;
    DivBounds(r, s);
    Scaled(q, s, r, m);
    DivAtLeast(m * r, s, q * m);
    DivAtLeast(m * r, s, (q + 1) * m);
    DivUnique(x, m, q);
  }

  lemma Scaled(q: nat, s: nat, r: nat, m: nat)
    requires m > 0 && q * s <= r < (q + 1) * s
    ensures q * m * s <= m * r < (q + 1) * m * s
  {
    MulMonotone(q * s, r, m);
    MulMonotone(r + 1, (q + 1) * s, m);
    assert q * m * s == q * s * m && (q + 1) * m * s == (q + 1) * s * m;
  }

  lemma DivMinMax(x: nat, y: nat, m: nat)
    requires m > 0
    ensures Min(x, y) / m == Min(x / m, y / m)
    ensures Max(x, m * 2) / m == Max(x / m, 2)
  {
    if x <= y { DivMonotone(x, y, m); } else { DivMonotone(y, x, m); }
    if x <= m * 2 { DivMonotone(x, m * 2, m); } else { DivMonotone(m * 2, x, m); }
    DivUnique(m * 2, m, 2);
  }

  /** For a capped path, the queue depth is the number of slots in a round trip, at least 16 and at most what the
      64-bit byte count can express. */
  lemma PacketsPerRtt(p: OracleParams)
    requires p.slotInterval > 0 && p.mtu > 0
    ensures BdpPackets(p) == Max(16, Min(p.Rtt() / p.slotInterval, U64_MAX / p.mtu))
  {
    var x := p.mtu * p.Rtt() / p.slotInterval;
    ScaledDiv(p.mtu, p.Rtt(), p.slotInterval);
    DivMinMax(x, U64_MAX, p.mtu);
    DivMinMax(Min(x, U64_MAX), U64_MAX, p.mtu);
  }

  /** The depth at the edges: an uncapped path divides its 16 MiB by the MTU, a zero MTU counting as one, and a capped one
      without payload gets the floor. */
  lemma EdgeDepths(p: OracleParams, depth: nat, unit: nat)
    requires depth == BdpPackets(p) && unit == Max(p.mtu, 1)
    ensures p.slotInterval == 0 ==> depth >= 16 && 0x100_0000 < (depth + 1) * unit && (depth > 16 ==> depth * unit <= 0x100_0000)
    ensures p.slotInterval > 0 && p.mtu == 0 ==> depth == 16
  {
    DivBounds(BdpBytes(p), unit);
    if depth > BdpBytes(p) / unit {
      MulMonotone(BdpBytes(p) / unit + 1, depth + 1, unit);
    }
  }

  /** It is exactly `max(16, floor(rtt / slot))` unless the byte count saturates below it. */
  lemma PacketsExactIff(p: OracleParams)
    requires p.slotInterval > 0 && p.mtu > 0
    ensures BdpPackets(p) == Max(16, p.Rtt() / p.slotInterval)
            <==> p.Rtt() / p.slotInterval <= Max(16, U64_MAX / p.mtu)
  {
    PacketsPerRtt(p);
  }

  lemma SaturationExample()
    ensures var p := OracleParams(1, 0x8000_0000_0000_0000, 0.0, 1, 1200);
      BdpPackets(p) < Max(16, p.Rtt() / p.slotInterval)
  {
    PacketsPerRtt(OracleParams(1, 0x8000_0000_0000_0000, 0.0, 1, 1200));
  }

  /** `depth` lies between the depths for round trips of `low` and `high`. */
  ghost predicate DepthBand(depth: nat, low: nat, high: nat, slot: nat, mtu: nat)
    requires slot > 0 && mtu > 0
  {
    Max(16, Min(low / slot, U64_MAX / mtu)) <= depth <= Max(16, Min(high / slot, U64_MAX / mtu))
  }

  /** Bounds on the round trip bound the depth. */
  lemma DepthBetween(p: OracleParams, low: nat, high: nat)
    requires p.slotInterval > 0 && p.mtu > 0 && low <= p.Rtt() <= high
    ensures DepthBand(BdpPackets(p), low, high, p.slotInterval, p.mtu)
  {
    PacketsPerRtt(p);
    DivMonotone(low, p.Rtt(), p.slotInterval);
    DivMonotone(p.Rtt(), high, p.slotInterval);
  }

  lemma DepthTimesSlot(p: OracleParams)
    requires p.slotInterval > 0 && p.mtu > 0
    ensures BdpPackets(p) * p.slotInterval <= Max(16 * p.slotInterval, p.Rtt())
  {
    PacketsPerRtt(p);
    var q := p.Rtt() / p.slotInterval;
    DivBounds(p.Rtt(), p.slotInterval);
    if BdpPackets(p) > 16 {
      MulMonotone(BdpPackets(p), q, p.slotInterval);
    }
  }

  /** A boundary sized by `bdp_packets`, as the relay builds it: every accepted datagram reaches the inner substrate
      within `max(16 * slot, rtt)`, given a fixed slot interval, exact sleeps and instantaneous inner sends. */
  lemma RelayDelayBound(p: OracleParams, now: nat, es: seq<BoundaryModel.Event>)
    requires p.slotInterval > 0 && p.mtu > 0
    requires var b := BoundaryModel.Fresh(BdpPackets(p), p.slotInterval, now);
      BoundaryModel.Runs(b, es) && BoundaryTheorems.PromptRun(b, es)
    ensures var b := BoundaryModel.After(BoundaryModel.Fresh(BdpPackets(p), p.slotInterval, now), es);
      var limit := Max(16 * p.slotInterval, p.Rtt());
      && |b.starts| <= |b.acceptedAt|
      && (forall i :: 0 <= i < |b.starts| ==> b.starts[i] <= b.acceptedAt[i] + limit)
      && (forall i :: |b.starts| <= i < |b.acceptedAt| ==> b.now <= b.acceptedAt[i] + limit)
  {
    DepthTimesSlot(p);
    BoundaryTheorems.DelayBound(BdpPackets(p), p.slotInterval, now, es);
  }
}
