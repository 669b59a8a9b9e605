/** The boundary's promises over every run: order and conservation, pacing under live oracle
    updates, and the queueing-delay bound that justifies sizing the queue from the oracle. */
module BoundaryTheorems {
  import opened Sequences
  import opened Arithmetic
  import opened BoundaryModel
  import opened Transport

  function Payloads(queue: seq<Queued>): (r: seq<Datagram>)
    ensures |r| == |queue| && forall i :: 0 <= i < |queue| ==> r[i] == queue[i].datagram
  {
    seq(|queue|, i requires 0 <= i < |queue| => queue[i].datagram)
  }

  // ----- order and conservation

  ghost predicate Ordered(b: Boundary) {
    && b.accepted == b.handed + Payloads(b.queue)
    && |b.starts| == |b.handed| && |b.ends| == |b.slots| == b.sent + b.sendErrors
    && |b.handed| == |b.ends| + (if b.pump.Sending? then 1 else 0)
  }

  ghost predicate Contained(b: Boundary) {
    && b.depth > 0 && |b.queue| <= b.depth && b.queueDepth < b.depth
    && b.lossyOffers == b.lossyAccepts + b.dropped
  }

  lemma EnqueueKeepsOrder(b: Boundary, d: Datagram, stamp: nat)
    requires Ordered(b)
    ensures Ordered(Enqueue(b, d, stamp))
  {
    assert Payloads(Enqueue(b, d, stamp).queue) == Payloads(b.queue) + [d];
    assert b.handed + (Payloads(b.queue) + [d]) == b.handed + Payloads(b.queue) + [d];
  }

  lemma PayloadsTail(queue: seq<Queued>)
    requires queue != []
    ensures Payloads(queue) == [queue[0].datagram] + Payloads(queue[1..])
  {
  }

  lemma TakeKeepsOrder(b: Boundary)
    requires Ordered(b) && Enabled(b, Take)
    ensures Ordered(Next(b, Take))
  {
    PayloadsTail(b.queue);
    var d, rest := b.queue[0].datagram, Payloads(b.queue[1..]);
    assert b.handed + ([d] + rest) == b.handed + [d] + rest;
  }

  lemma StepKeepsOrder(b: Boundary, e: Event)
    requires Ordered(b) && Contained(b) && Enabled(b, e)
    ensures Ordered(Next(b, e)) && Contained(Next(b, e))
  {
    if e.Take? {
      TakeKeepsOrder(b);
    } else if e.Send? || (e.LossySend? && HasRoom(b)) {
      EnqueueKeepsOrder(b, e.datagram, if e.Send? then e.stamp else b.now);
    }
  }

  lemma {:induction false} RunKeepsOrder(b: Boundary, es: seq<Event>)
    requires Ordered(b) && Contained(b) && Runs(b, es)
    ensures Ordered(After(b, es)) && Contained(After(b, es))
    decreases |es|
  {
    if es != [] {
      StepKeepsOrder(b, es[0]);
      RunKeepsOrder(Next(b, es[0]), es[1..]);
    }
  }

  /** In every run the accepted datagrams are, in order, those processed, then the one in hand, then those
      queued: the inner substrate is handed each exactly once, first come first served. The counters account
      for every datagram and the queue never outgrows its depth. */
  lemma FifoAndConserved(queueDepth: nat, slot: nat, now: nat, es: seq<Event>)
    requires Runs(Fresh(queueDepth, slot, now), es)
    ensures var b := After(Fresh(queueDepth, slot, now), es);
      && b.accepted == b.handed + Payloads(b.queue)
      && |b.handed| == b.sent + b.sendErrors + (if b.pump.Sending? then 1 else 0)
      && b.lossyOffers == b.lossyAccepts + b.dropped
      && |b.queue| <= (if queueDepth == 0 then 1 else queueDepth)
      && b.queueDepth <= (if queueDepth == 0 then 1 else queueDepth)
  {
    var b := Fresh(queueDepth, slot, now);
    assert b.accepted == b.handed + Payloads(b.queue);
    RunKeepsOrder(b, es);
    RunKeepsDepth(b, es);
  }

  lemma {:induction false} RunKeepsDepth(b: Boundary, es: seq<Event>)
    requires Runs(b, es)
    ensures After(b, es).depth == b.depth
    decreases |es|
  {
    if es != [] {
      RunKeepsDepth(Next(b, es[0]), es[1..]);
    }
  }

  // ----- capacity

  /** A burst of sends, with nothing taken in between. */
  function Burst(ds: seq<Datagram>, stamp: nat): seq<Event> {
    if ds == [] then [] else [Event.Send(ds[0], stamp)] + Burst(ds[1..], stamp)
  }

  lemma {:induction false} BurstFits(b: Boundary, ds: seq<Datagram>)
    requires |b.queue| <= b.depth
    ensures Runs(b, Burst(ds, b.now)) <==> |b.queue| + |ds| <= b.depth
    decreases |ds|
  {
    if ds != [] {
      var e := Event.Send(ds[0], b.now);
      assert Burst(ds, b.now)[1..] == Burst(ds[1..], b.now);
      if HasRoom(b) {
        BurstFits(Next(b, e), ds[1..]);
      }
    }
  }

  /** A new boundary accepts a burst exactly when it is no longer than `max(queueDepth, 1)`. */
  lemma AcceptsExactly(queueDepth: nat, slot: nat, now: nat, ds: seq<Datagram>)
    ensures Runs(Fresh(queueDepth, slot, now), Burst(ds, now)) <==> |ds| <= Max(queueDepth, 1)
  {
    BurstFits(Fresh(queueDepth, slot, now), ds);
  }

  // ----- effects

  /** A lossy send accepts the datagram exactly when there is room, and otherwise drops and counts it. */
  lemma LossySendEffect(b: Boundary, d: Datagram)
    ensures var c := Next(b, LossySend(d));
      && c.accepted == (if |b.queue| < b.depth then b.accepted + [d] else b.accepted)
      && c.dropped == (if |b.queue| < b.depth then b.dropped else b.dropped + 1)
      && (|b.queue| < b.depth ==> c.queue == b.queue + [Queued(b.now, d)] && c.acceptedAt == b.acceptedAt + [b.now])
  {
  }

  /** The slot interval published last, `slot` before any was. */
  function LastPublished(slot: nat, es: seq<Event>): nat
    decreases |es|
  {
    if es == [] then slot else LastPublished(if es[0].UpdateOracle? then es[0].slot else slot, es[1..])
  }

  lemma {:induction false} SlotIsPublished(b: Boundary, es: seq<Event>)
    requires Runs(b, es)
    ensures After(b, es).slot == LastPublished(b.slot, es)
    decreases |es|
  {
    if es != [] {
      SlotIsPublished(Next(b, es[0]), es[1..]);
    }
  }

  /** A completion reads the slot interval published last in the run, logs it with its time, and pauses for it. */
  lemma CompletionReadsPublished(queueDepth: nat, slot: nat, now: nat, es: seq<Event>, ok: bool)
    requires var f := Fresh(queueDepth, slot, now); Runs(f, es) && Enabled(After(f, es), Complete(ok))
    ensures var b, last := After(Fresh(queueDepth, slot, now), es), LastPublished(slot, es);
      var c := Next(b, Complete(ok));
      && c.slots == b.slots + [last] && c.ends == b.ends + [b.now]
      && c.pump == (if last == 0 then Idle else Pausing(b.now + last))
      && c.sent == (if ok then b.sent + 1 else b.sent) && c.sendErrors == (if ok then b.sendErrors else b.sendErrors + 1)
  {
    SlotIsPublished(Fresh(queueDepth, slot, now), es);
  }

  /** The gauges a take publishes: how many accepted datagrams are not yet handed over, and how many whole microseconds
      this one waited since it was asked for. */
  lemma TakeGauges(queueDepth: nat, slot: nat, now: nat, es: seq<Event>)
    requires var f := Fresh(queueDepth, slot, now); Runs(f, es) && Enabled(After(f, es), Take)
    ensures var b := After(Fresh(queueDepth, slot, now), es);
      var c, wait := Next(b, Take), b.now - b.queue[0].stamp;
      && c.queueDepth == |c.accepted| - |c.handed|
      && (0 <= wait < 1000 * U64_RANGE ==> 1000 * c.latency <= wait < 1000 * c.latency + 1000)
  {
    var f := Fresh(queueDepth, slot, now);
    assert f.accepted == f.handed + Payloads(f.queue);
    RunKeepsOrder(f, es);
    TakeKeepsOrder(After(f, es));
    var wait := After(f, es).now - After(f, es).queue[0].stamp;
    if 0 <= wait < 1000 * U64_RANGE {
      assert wait / 1000 < U64_RANGE;
    }
  }

  // ----- pacing

  /** The moment before which the pump cannot take another datagram. */
  function Resting(b: Boundary): nat {
    if b.pump.Pausing? then b.pump.until else b.now
  }

  ghost predicate Paced(b: Boundary) {
    && |b.ends| == |b.slots|
    && |b.starts| == |b.ends| + (if b.pump.Sending? then 1 else 0)
    && (forall i :: 0 <= i < |b.ends| ==> b.starts[i] <= b.ends[i])
    && (forall i, j :: 0 <= i < |b.ends| && i < j < |b.starts| ==> b.ends[i] + b.slots[i] <= b.starts[j])
    && (forall i :: 0 <= i < |b.starts| ==> b.starts[i] <= b.now)
    && (forall i :: 0 <= i < |b.ends| ==> b.ends[i] + b.slots[i] <= Resting(b))
  }

  lemma TakeKeepsPace(b: Boundary)
    requires Paced(b) && Enabled(b, Take)
    ensures Paced(Next(b, Take))
  {
  }

  lemma CompleteKeepsPace(b: Boundary, ok: bool)
    requires Paced(b) && Enabled(b, Complete(ok))
    ensures Paced(Next(b, Complete(ok)))
  {
  }

  lemma StepKeepsPace(b: Boundary, e: Event)
    requires Paced(b) && Enabled(b, e)
    ensures Paced(Next(b, e))
  {
    match e
    case Take => TakeKeepsPace(b);
    case Complete(ok) => CompleteKeepsPace(b, ok);
    case _ =>
  }

  lemma {:induction false} SendsKeepPace(b: Boundary, es: seq<Event>)
    requires Paced(b) && Runs(b, es)
    ensures Paced(After(b, es))
    decreases |es|
  {
    if es != [] {
      StepKeepsPace(b, es[0]);
      SendsKeepPace(Next(b, es[0]), es[1..]);
    }
  }

  /** No inner send starts before every earlier one finished and the slot interval published at that moment elapsed,
      whatever the oracle did in between. */
  lemma EachSendWaits(queueDepth: nat, slot: nat, now: nat, es: seq<Event>)
    requires Runs(Fresh(queueDepth, slot, now), es)
    ensures var b := After(Fresh(queueDepth, slot, now), es);
      && |b.ends| == |b.slots| && |b.ends| <= |b.starts| <= |b.ends| + 1
      && (forall i :: 0 <= i < |b.ends| ==> b.starts[i] <= b.ends[i])
      && (forall i, j :: 0 <= i < |b.ends| && i < j < |b.starts| ==> b.ends[i] + b.slots[i] <= b.starts[j])
  {
    SendsKeepPace(Fresh(queueDepth, slot, now), es);
  }

  ghost predicate Spaced(times: seq<nat>, gap: nat) {
    forall i, j :: 0 <= i < j < |times| ==> times[i] + gap <= times[j]
  }

  function Within(lo: int, hi: int): nat -> bool {
    (t: nat) => lo <= t <= hi
  }

  /** `n` times `gap` apart fit in a window of length `w`. */
  ghost predicate Fits(n: nat, gap: nat, w: nat)
    requires gap > 0
    ensures n <= 1 ==> Fits(n, gap, w)
  {
    n <= w / gap + 1
  }

  lemma FitsOneMore(n: nat, m: nat, gap: nat, left: nat, w: nat)
    requires gap > 0 && n <= m && Fits(m, gap, left) && left + gap <= w
    ensures Fits(n + 1, gap, w)
  {
    DivStep(left, w, gap);
  }

  /** Times at least `gap` apart: at most `w / gap + 1` fall in any window of length `w`. */
  lemma {:induction false} WindowBound(times: seq<nat>, gap: nat, lo: int, w: nat)
    requires gap > 0 && Spaced(times, gap)
    ensures Fits(Count(times, Within(lo, lo + w)), gap, w)
    decreases |times|
  {
    if times != [] {
      var t, rest := times[0], times[1..];
      assert forall j :: 0 <= j < |rest| ==> t + gap <= rest[j];
      if !(lo <= t <= lo + w) {
        WindowBound(rest, gap, lo, w);
      } else if lo + w < t + gap {
        CountNone(rest, Within(lo, lo + w));
      } else {
        var left := lo + w - (t + gap);
        CountPointwise(rest, rest, Within(lo, lo + w), Within(t + gap, t + gap + left));
        WindowBound(rest, gap, t + gap, left);
        FitsOneMore(Count(rest, Within(lo, lo + w)), Count(rest, Within(t + gap, t + gap + left)), gap, left, w);
      }
    }
  }

  ghost predicate SlotsAtLeast(es: seq<Event>, m: nat) {
    forall e :: e in es && e.UpdateOracle? ==> m <= e.slot
  }

  lemma {:induction false} PublishedFloor(b: Boundary, es: seq<Event>, m: nat)
    requires Runs(b, es) && SlotsAtLeast(es, m) && m <= b.slot
    requires forall i :: 0 <= i < |b.slots| ==> m <= b.slots[i]
    ensures forall i :: 0 <= i < |After(b, es).slots| ==> m <= After(b, es).slots[i]
    decreases |es|
  {
    if es != [] {
      PublishedFloor(Next(b, es[0]), es[1..], m);
    }
  }

  /** If no published slot interval falls below `m`, any window of length `w` holds at most
      `w / m + 1` inner sends. */
  lemma RateBound(queueDepth: nat, slot: nat, now: nat, es: seq<Event>, m: nat, lo: int, w: nat)
    requires Runs(Fresh(queueDepth, slot, now), es)
    requires 0 < m <= slot && SlotsAtLeast(es, m)
    ensures Count(After(Fresh(queueDepth, slot, now), es).starts, Within(lo, lo + w)) <= w / m + 1
  {
    var b := Fresh(queueDepth, slot, now);
    SendsKeepPace(b, es);
    PublishedFloor(b, es, m);
    WindowBound(After(b, es).starts, m, lo, w);
  }

  // ----- queueing delay

  /** Exact sleeps and instantaneous inner sends: the clock never runs past something the pump has to do. */
  ghost predicate Prompt(b: Boundary, e: Event) {
    e.Advance? ==>
      match b.pump
      case Idle => b.queue == [] || e.elapsed == 0
      case Sending => e.elapsed == 0
      case Pausing(until) => b.now + e.elapsed <= until
  }

  ghost predicate PromptRun(b: Boundary, es: seq<Event>)
    requires Runs(b, es)
    decreases |es|
  {
    es == [] || (Prompt(b, es[0]) && !es[0].UpdateOracle? && PromptRun(Next(b, es[0]), es[1..]))
  }

  /** When the pump can take the next datagram. */
  function ReadyAt(b: Boundary): nat {
    match b.pump
    case Idle => b.now
    case Sending => b.now + b.slot
    case Pausing(until) => until
  }

  /** Datagram `k` in the queue will be taken within `depth` slots of its acceptance. */
  ghost predicate OnTime(b: Boundary, k: nat)
    requires |b.starts| + k < |b.acceptedAt|
  {
    ReadyAt(b) + k * b.slot <= b.acceptedAt[|b.starts| + k] + b.depth * b.slot
  }

  ghost predicate Punctual(b: Boundary) {
    && |b.queue| <= b.depth
    && b.now <= ReadyAt(b) <= b.now + b.slot
    && |b.acceptedAt| == |b.starts| + |b.queue|
    && (forall k :: 0 <= k < |b.queue| ==> OnTime(b, k))
    && (forall i :: 0 <= i < |b.starts| ==> b.starts[i] <= b.acceptedAt[i] + b.depth * b.slot)
  }

  lemma EnqueuePunctual(b: Boundary, d: Datagram, stamp: nat)
    requires Punctual(b) && HasRoom(b)
    ensures Punctual(Enqueue(b, d, stamp))
  {
    var c := Enqueue(b, d, stamp);
    forall k | 0 <= k < |c.queue|
      ensures OnTime(c, k)
    {
      if k < |b.queue| {
        assert OnTime(b, k);
      } else {
        assert b.slot + k * b.slot == (k + 1) * b.slot;
        MulMonotone(k + 1, b.depth, b.slot);
      }
    }
  }

  lemma TakePunctual(b: Boundary)
    requires Punctual(b) && Enabled(b, Take)
    ensures Punctual(Next(b, Take))
  {
    var c := Next(b, Take);
    assert OnTime(b, 0);
    forall k | 0 <= k < |c.queue|
      ensures OnTime(c, k)
    {
      assert OnTime(b, k + 1);
      assert (k + 1) * b.slot == b.slot + k * b.slot;
    }
  }

  /** Two boundaries that agree on what punctuality is about. */
  ghost predicate SameSchedule(b: Boundary, c: Boundary) {
    && c.depth == b.depth && c.slot == b.slot && c.now == b.now && ReadyAt(c) == ReadyAt(b)
    && |c.queue| == |b.queue| && c.acceptedAt == b.acceptedAt && c.starts == b.starts
  }

  lemma SamePunctual(b: Boundary, c: Boundary)
    requires Punctual(b) && SameSchedule(b, c)
    ensures Punctual(c)
  {
    assert forall k :: 0 <= k < |b.queue| && OnTime(b, k) ==> OnTime(c, k);
  }

  lemma AdvancePunctual(b: Boundary, elapsed: nat)
    requires Punctual(b) && Prompt(b, Advance(elapsed))
    ensures Punctual(Next(b, Advance(elapsed)))
  {
    var c := Next(b, Advance(elapsed));
    assert forall k :: 0 <= k < |b.queue| && OnTime(b, k) ==> OnTime(c, k);
  }

  lemma StepPunctual(b: Boundary, e: Event)
    requires Punctual(b) && Enabled(b, e) && Prompt(b, e) && !e.UpdateOracle?
    ensures Punctual(Next(b, e))
  {
    if e.Take? {
      TakePunctual(b);
    } else if e.Send? || (e.LossySend? && HasRoom(b)) {
      var stamp := if e.Send? then e.stamp else b.now;
      EnqueuePunctual(b, e.datagram, stamp);
      SamePunctual(Enqueue(b, e.datagram, stamp), Next(b, e));
    } else if e.Advance? {
      AdvancePunctual(b, e.elapsed);
    } else {
      SamePunctual(b, Next(b, e));
    }
  }

  lemma {:induction false} RunPunctual(b: Boundary, es: seq<Event>)
    requires Punctual(b) && Runs(b, es) && PromptRun(b, es)
    ensures Punctual(After(b, es))
    ensures After(b, es).slot == b.slot && After(b, es).depth == b.depth
    decreases |es|
  {
    if es != [] {
      StepPunctual(b, es[0]);
      RunPunctual(Next(b, es[0]), es[1..]);
    }
  }

  /** Under a fixed slot interval, exact sleeps and instantaneous inner sends, every accepted datagram reaches
      the inner substrate within `depth * slot`: those handed over were in time, those queued still are. */
  lemma DelayBound(queueDepth: nat, slot: nat, now: nat, es: seq<Event>)
    requires queueDepth > 0 && Runs(Fresh(queueDepth, slot, now), es) && PromptRun(Fresh(queueDepth, slot, now), es)
    ensures var b := After(Fresh(queueDepth, slot, now), es);
      && |b.starts| <= |b.acceptedAt|
      && (forall i :: 0 <= i < |b.starts| ==> b.starts[i] <= b.acceptedAt[i] + queueDepth * slot)
      && (forall i :: |b.starts| <= i < |b.acceptedAt| ==> b.now <= b.acceptedAt[i] + queueDepth * slot)
  {
    var f := Fresh(queueDepth, slot, now);
    RunPunctual(f, es);
    var b := After(f, es);
    forall i | |b.starts| <= i < |b.acceptedAt|
      ensures b.now <= b.acceptedAt[i] + queueDepth * slot
    {
      var k := i - |b.starts|;
      assert OnTime(b, k);
      assert k * b.slot >= 0;
    }
  }
}
