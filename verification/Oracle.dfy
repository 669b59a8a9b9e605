/** The online oracle estimator: a sliding window of round-trip samples, percentiles of its sorted copy, and the
    parameters derived from the median. Ratios are exact reals; the narrowing of nanosecond counts to 64 bits is kept. */
module Oracle {
  import opened Arithmetic
  import opened Sorting
  import opened Transport
  import C = Client

  const MAX_RTT_SAMPLES: nat := 256

  /** The last `n` entries of `s`, or all of them. */
  function LastOf<T>(s: seq<T>, n: nat): seq<T> {
    if |s| <= n then s else s[|s| - n..]
  }

  /** `record_rtt` on the window alone: drop the oldest of a full window, append. */
  function Record(window: seq<nat>, rtt: nat): seq<nat> {
    (if |window| >= MAX_RTT_SAMPLES then window[1..] else window) + [rtt]
  }

  function WindowAfter(history: seq<nat>): seq<nat> {
    if history == [] then [] else Record(WindowAfter(history[..|history| - 1]), history[|history| - 1])
  }

  /** The window is always the last `min(n, 256)` samples. */
  lemma {:induction false} WindowIsRecent(history: seq<nat>)
    ensures WindowAfter(history) == LastOf(history, MAX_RTT_SAMPLES)
    ensures |WindowAfter(history)| == Min(|history|, MAX_RTT_SAMPLES)
  {
    if history != [] {
      WindowIsRecent(history[..|history| - 1]);
    }
  }

  /** `x.round()` of the exact ratio `num / den`. */
  function Round(num: nat, den: nat): nat
    requires den > 0
  {
    (2 * num + den) / (2 * den)
  }

  lemma RoundBelow(num: nat, den: nat, n: nat)
    requires den > 0 && num <= n * den
    ensures Round(num, den) <= n
  {
    assert n * (2 * den) == 2 * (n * den);
    DivMonotone(2 * num + den, n * (2 * den) + den, 2 * den);
    DivUnique(n * (2 * den) + den, 2 * den, n);
  }

  function PercentileIndex(n: nat, percent: nat): (i: nat)
    requires n > 0 && percent <= 100
    ensures i < n
  {
    assert (n - 1) * percent <= (n - 1) * 100;
    RoundBelow((n - 1) * percent, 100, n - 1);
    Round((n - 1) * percent, 100)
  }

  function Percentile(window: seq<nat>, percent: nat): nat
    requires percent <= 100
  {
    if window == [] then 0 else Sort(window)[PercentileIndex(|window|, percent)]
  }

  /** What `rtt_percentiles` exports: `Duration::from_nanos(v as u64)`. */
  function Exported(window: seq<nat>, percent: nat): nat
    requires percent <= 100
  {
    Percentile(window, percent) % U64_RANGE
  }

  function Median(window: seq<nat>): nat {
    if window == [] then 0 else Sort(window)[|window| / 2]
  }

  function JitterIndex(n: nat): (i: nat)
    requires n > 0
    ensures i < n
  {
    Min(n * 999 / 1000, n - 1)
  }

  function JitterRatio(window: seq<nat>): real {
    if |window| < 2 || Median(window) == 0 then 0.0
    else
      var ratio := Sort(window)[JitterIndex(|window|)] as real / Median(window) as real;
      if ratio >= 1.5 then ratio else 1.5
  }

  function Estimate(window: seq<nat>, sent: nat, lost: nat, hops: nat, mtu: nat, slot: nat): OracleParams
    requires hops > 0
  {
    OracleParams(hops, (Median(window) / 2 / hops) % U64_RANGE,
                 if sent > 0 then lost as real / sent as real else 0.0, slot, mtu)
  }

  /** `root` is the square root of twice the hop count, as `loss_time_threshold` takes it. */
  ghost predicate JitterRoot(hops: nat, root: real) {
    root > 0.0 && root * root == (2 * Max(hops, 1)) as real
  }

  /** `loss_time_threshold`. */
  function LossTimeThreshold(root: real): real
    requires root > 0.0
  {
    var t := 1.0 + 3.1 / root;
    if t >= 1.5 then t else 1.5
  }

  /** The threshold choice of `quicmix_transport_with_jitter`. */
  function Threshold(jitter: real, structural: real): real {
    if jitter >= 1.5 then jitter else structural
  }

  // ----- percentiles

  /** The index is the nearest to that share of the window's span, halves going up. */
  lemma NearestRank(n: nat, percent: nat)
    requires n > 0 && percent <= 100
    ensures var error := 100 * PercentileIndex(n, percent) - (n - 1) * percent; -50 < error <= 50
  {
    DivBounds(2 * ((n - 1) * percent) + 100, 200);
  }

  lemma IndicesOrdered(n: nat)
    requires n > 0
    ensures PercentileIndex(n, 50) == n / 2
    ensures PercentileIndex(n, 50) <= PercentileIndex(n, 90) <= PercentileIndex(n, 99)
  {
  }

  lemma SortedAt(window: seq<nat>, i: nat, j: nat)
    requires i <= j < |window|
    ensures Sort(window)[i] <= Sort(window)[j]
  {
    SortSorts(window);
  }

  /** The percentiles are ordered, and the 50th is the median the estimate uses. */
  lemma PercentilesOrdered(window: seq<nat>)
    ensures Percentile(window, 50) <= Percentile(window, 90) <= Percentile(window, 99)
    ensures Percentile(window, 50) == Median(window)
  {
    var n := |window|;
    if n > 0 {
      IndicesOrdered(n);
      SortedAt(window, PercentileIndex(n, 50), PercentileIndex(n, 90));
      SortedAt(window, PercentileIndex(n, 90), PercentileIndex(n, 99));
    }
  }

  /** The exported durations are the percentiles exactly when the largest of them fits in 64 bits of nanoseconds, and
      then keep their order. */
  lemma ExportedExactIff(window: seq<nat>)
    ensures (Exported(window, 50) == Percentile(window, 50) && Exported(window, 90) == Percentile(window, 90)
             && Exported(window, 99) == Percentile(window, 99))
            <==> Percentile(window, 99) < U64_RANGE
    ensures Percentile(window, 99) < U64_RANGE ==>
      Exported(window, 50) <= Exported(window, 90) <= Exported(window, 99) && Exported(window, 50) == Median(window)
  {
    PercentilesOrdered(window);
    if Percentile(window, 99) < U64_RANGE {
      Narrow(Percentile(window, 50));
      Narrow(Percentile(window, 90));
      Narrow(Percentile(window, 99));
    }
  }

  lemma Narrow(x: nat)
    requires x < U64_RANGE
    ensures x % U64_RANGE == x
  {
  }

  /** The exported 50th percentile is the estimate's median exactly when that median fits in 64 bits. */
  lemma ExportedMedian(window: seq<nat>)
    ensures Exported(window, 50) == Median(window) <==> Median(window) < U64_RANGE
  {
    PercentilesOrdered(window);
  }

  lemma SortedAlready(w: seq<nat>)
    requires Ascending(w)
    ensures Sort(w) == w
  {
    SortSorts(w);
    AscendingUnique(Sort(w), w);
  }

  /** A sample of 2^64 nanoseconds or more is exported as less than a smaller one. */
  lemma ExportWraps()
    ensures var w := [1, 1, U64_RANGE]; Exported(w, 50) > Exported(w, 99)
  {
    SortedAlready([1, 1, U64_RANGE]);
    assert PercentileIndex(3, 50) == 1 && PercentileIndex(3, 99) == 2;
  }

  /** Percentiles, median and jitter ratio depend only on which samples the window holds, not on their order. */
  lemma WindowMultisetOnly(a: seq<nat>, b: seq<nat>)
    requires multiset(a) == multiset(b)
    ensures Median(a) == Median(b) && JitterRatio(a) == JitterRatio(b)
    ensures forall percent :: 0 <= percent <= 100 ==> Percentile(a, percent) == Percentile(b, percent)
  {
    SortByMultiset(a, b);
    assert |a| == |multiset(a)| == |multiset(b)| == |b|;
  }

  // ----- the loss threshold

  /** Because the window holds at most 256 samples the "p99.9" is the largest one. */
  lemma JitterIsLargestOverMedian(window: seq<nat>, largest: nat)
    requires 2 <= |window| <= MAX_RTT_SAMPLES && Median(window) > 0 && Largest(window, largest)
    ensures var ratio := largest as real / Median(window) as real;
      JitterRatio(window) == if ratio >= 1.5 then ratio else 1.5
  {
    LastIsLargest(window);
    assert JitterIndex(|window|) == |window| - 1;
  }

  /** The chosen threshold: measured when at least two samples give a positive median, structural otherwise; never
      below 1.5. */
  lemma ThresholdChoice(window: seq<nat>, largest: nat, hops: nat, root: real)
    requires |window| <= MAX_RTT_SAMPLES && (window != [] ==> Largest(window, largest)) && JitterRoot(hops, root)
    ensures var t := Threshold(JitterRatio(window), LossTimeThreshold(root));
      && t >= 1.5
      && (if |window| >= 2 && Median(window) > 0
          then var ratio := largest as real / Median(window) as real; t == if ratio >= 1.5 then ratio else 1.5
          else t == LossTimeThreshold(root))
  {
    StructuralThreshold(hops, root);
    if |window| >= 2 && Median(window) > 0 {
      JitterIsLargestOverMedian(window, largest);
    }
  }

  lemma SquareOrder(a: real, b: real)
    requires a > 0.0 && b > 0.0
    ensures a < b <==> a * a < b * b
  {
    if a < b {
      assert a * a < a * b && a * b < b * b;
    } else {
      assert a * a >= a * b && a * b >= b * b;
    }
  }

  lemma RatioAbove(root: real)
    requires root > 0.0
    ensures 1.0 + 3.1 / root > 1.5 <==> root < 6.2
  {
    var x := 3.1 / root;
    assert x * root == 3.1;
    if x > 0.5 {
      assert x * root > 0.5 * root;
    } else {
      assert x * root <= 0.5 * root;
    }
  }

  /** The structural threshold is never below its floor of 1.5, and above it exactly up to 19 hops. */
  lemma StructuralThreshold(hops: nat, root: real)
    requires JitterRoot(hops, root)
    ensures LossTimeThreshold(root) >= 1.5
    ensures LossTimeThreshold(root) > 1.5 <==> hops <= 19
    ensures hops <= 19 ==> (LossTimeThreshold(root) - 1.0) * root == 3.1
  {
    RatioAbove(root);
    SquareOrder(root, 6.2);
  }

  lemma ReciprocalOrder(a: real, b: real)
    requires 0.0 < a <= b
    ensures 3.1 / b <= 3.1 / a
  {
    var x, y := 3.1 / a, 3.1 / b;
    assert y * b == 3.1 == x * a && x * a <= x * b;
    CancelFactor(y, x, b);
  }

  lemma CancelFactor(y: real, x: real, b: real)
    requires b > 0.0 && y * b <= x * b
    ensures y <= x
  {
  }

  /** More hops never widen it. */
  lemma MoreHopsTighter(hops: nat, more: nat, root: real, larger: real)
    requires hops <= more && JitterRoot(hops, root) && JitterRoot(more, larger)
    ensures LossTimeThreshold(larger) <= LossTimeThreshold(root)
  {
    SquareOrder(larger, root);
    ReciprocalOrder(root, larger);
  }

  // ----- the round trip recomputed from the estimate

  lemma NestedFloors(median: nat, hops: nat)
    requires hops > 0
    ensures var perHop := median / 2 / hops; perHop * hops * 2 <= median < perHop * hops * 2 + 2 * hops
  {
    DivBounds(median / 2, hops);
    var q := median / 2 / hops;
    assert (q + 1) * hops == q * hops + hops;
  }

  /** A per-hop delay of `r` instead of `q`: within `2 * hops` of the median only if it is `q`. */
  lemma Shortfall(median: nat, hops: nat, q: nat, r: nat)
    requires r <= q && q * hops * 2 <= median < q * hops * 2 + 2 * hops
    ensures r * hops * 2 <= median
    ensures median - r * hops * 2 < 2 * hops <==> r == q
  {
    MulMonotone(r, q, hops);
    if r < q {
      MulMonotone(r + 1, q, hops);
      Distribute(r, 1, hops);
    }
  }

  /** Two nested floor divisions lose less than `2 * hops` nanoseconds of the median and never gain, exactly when the
      per-hop delay fits in 64 bits. */
  lemma EstimateRtt(window: seq<nat>, sent: nat, lost: nat, hops: nat, mtu: nat, slot: nat)
    requires hops > 0
    ensures var rtt, median := Estimate(window, sent, lost, hops, mtu, slot).Rtt(), Median(window);
      && rtt <= median
      && (median - rtt < 2 * hops <==> median / 2 / hops < U64_RANGE)
  {
    var median := Median(window);
    var q := median / 2 / hops;
    NestedFloors(median, hops);
    Shortfall(median, hops, q, q % U64_RANGE);
  }

  /** A median of 2^66 nanoseconds over one hop is estimated as no round trip at all. */
  lemma EstimateWraps()
    ensures Estimate([4 * U64_RANGE], 0, 0, 1, 1200, 0).Rtt() == 0
  {
    SortedAlready([4 * U64_RANGE]);
    assert 4 * U64_RANGE / 2 / 1 == 2 * U64_RANGE;
  }

  /** The estimate is of the configured path: its hops, MTU and slot, and the share of packets lost. */
  lemma EstimateIsConfigured(window: seq<nat>, sent: nat, lost: nat, hops: nat, mtu: nat, slot: nat)
    requires hops > 0
    ensures var p := Estimate(window, sent, lost, hops, mtu, slot);
      && p.hops == hops && p.mtu == mtu && p.slotInterval == slot
      && (sent > 0 ==> p.dropProb * sent as real == lost as real)
      && (sent == 0 ==> p.dropProb == 0.0)
  {
  }

  /** What is left of the median when `2 * hops` nanoseconds may be lost. */
  function Assured(median: nat, hops: nat): nat {
    if median <= 2 * hops then 0 else median - 2 * hops
  }

  /** The queue depth the estimate asks for: the slots in the median round trip, less at most `2 * hops` nanoseconds of it,
      at least 16 and at most what the byte count can express. */
  lemma EstimatedDepth(window: seq<nat>, sent: nat, lost: nat, hops: nat, mtu: nat, slot: nat)
    requires slot > 0 && mtu > 0 && hops > 0 && Median(window) / 2 / hops < U64_RANGE
    ensures C.DepthBand(C.BdpPackets(Estimate(window, sent, lost, hops, mtu, slot)), Assured(Median(window), hops), Median(window), slot, mtu)
  {
    EstimateRtt(window, sent, lost, hops, mtu, slot);
    C.DepthBetween(Estimate(window, sent, lost, hops, mtu, slot), Assured(Median(window), hops), Median(window));
  }

  // ----- the estimator

  class OracleEstimator {
    var rttNs: seq<nat>
    var sent: nat
    var lost: nat
    const hops: nat
    const mtu: nat
    const slotInterval: nat
    ghost var history: seq<nat>

    /** The window is the last 256 samples ever recorded. */
    ghost predicate Valid()
      reads this
    {
      rttNs == LastOf(history, MAX_RTT_SAMPLES) && hops > 0
    }

    constructor (hops: nat, mtu: nat, slotInterval: nat)
      ensures Valid() && history == [] && rttNs == [] && sent == lost == 0
      ensures this.hops == Max(hops, 1) && this.mtu == mtu && this.slotInterval == slotInterval
    {
      rttNs, sent, lost, history := [], 0, 0, [];
      this.hops, this.mtu, this.slotInterval := Max(hops, 1), mtu, slotInterval;
    }

    method RecordRtt(rtt: nat)
      requires Valid()
      modifies this`rttNs, this`history
      ensures Valid() && history == old(history) + [rtt] && rttNs == Record(old(rttNs), rtt)
      ensures |rttNs| == Min(|history|, MAX_RTT_SAMPLES) && rttNs[|rttNs| - 1] == rtt
    {
      if |rttNs| >= MAX_RTT_SAMPLES {
        rttNs := rttNs[1..];
      }
      rttNs := rttNs + [rtt];
      history := history + [rtt];
    }

    method RecordAcks(sent: nat, lost: nat)
      requires Valid()
      modifies this`sent, this`lost
      ensures Valid() && this.sent == sent && this.lost == lost
    {
      this.sent, this.lost := sent, lost;
    }

    /** A sorted copy, by insertion. */
    method Sorted() returns (v: seq<nat>)
      ensures Ascending(v) && multiset(v) == multiset(rttNs)
      ensures v == Sort(rttNs)
    {
      v := [];
      var i := |rttNs|;
      while i > 0
        invariant 0 <= i <= |rttNs| && v == Sort(rttNs[i..])
      {
        i := i - 1;
        assert rttNs[i..] == [rttNs[i]] + rttNs[i + 1..];
        v := Insert(rttNs[i], v);
      }
      assert rttNs[0..] == rttNs;
      SortSorts(rttNs);
    }

    method RttPercentiles() returns (p50: nat, p90: nat, p99: nat)
      ensures p50 == Exported(rttNs, 50) && p90 == Exported(rttNs, 90) && p99 == Exported(rttNs, 99)
      ensures Percentile(rttNs, 99) < U64_RANGE ==> p50 <= p90 <= p99 && p50 == Median(rttNs)
    {
      ExportedExactIff(rttNs);
      var v := Sorted();
      if v == [] {
        return 0, 0, 0;
      }
      p50 := v[PercentileIndex(|v|, 50)] % U64_RANGE;
      p90 := v[PercentileIndex(|v|, 90)] % U64_RANGE;
      p99 := v[PercentileIndex(|v|, 99)] % U64_RANGE;
    }

    method MeasuredJitter() returns (ratio: real)
      requires Valid()
      ensures ratio == JitterRatio(rttNs) && (ratio == 0.0 || ratio >= 1.5)
      ensures ratio == 0.0 <==> |history| < 2 || Median(rttNs) == 0
    {
      if |rttNs| < 2 {
        return 0.0;
      }
      var v := Sorted();
      var median := v[|v| / 2];
      var high := v[JitterIndex(|v|)];
      if median == 0 {
        return 0.0;
      }
      ratio := high as real / median as real;
      if ratio < 1.5 {
        ratio := 1.5;
      }
    }

    method MeasuredParams() returns (p: OracleParams)
      requires Valid()
      ensures p == Estimate(rttNs, sent, lost, hops, mtu, slotInterval)
      ensures p.Rtt() <= Median(rttNs) && p.hops == hops && p.mtu == mtu && p.slotInterval == slotInterval
      ensures if sent > 0 then p.dropProb * sent as real == lost as real else p.dropProb == 0.0
    {
      EstimateIsConfigured(rttNs, sent, lost, hops, mtu, slotInterval);
      EstimateRtt(rttNs, sent, lost, hops, mtu, slotInterval);
      var v := Sorted();
      var median := if v == [] then 0 else v[|v| / 2];
      var drop := if sent > 0 then lost as real / sent as real else 0.0;
      p := OracleParams(hops, (median / 2 / hops) % U64_RANGE, drop, slotInterval, mtu);
    }
  }
}
