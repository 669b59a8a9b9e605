/** The paced, bounded send side of the substrate boundary as a state machine: callers enqueue,
    one pump task takes, sends and pauses, and the oracle may be republished at any moment. */
module BoundaryModel {
  import opened Arithmetic
  import opened Transport

  /** `stamp` is when the caller asked, which for a backpressured send is before it waited for room. */
  datatype Queued = Queued(stamp: nat, datagram: Datagram)

  /** The send pump: waiting on the queue, inside the inner send, or pausing for the slot. */
  datatype Pump = Idle | Sending | Pausing(until: nat)

  /** `accepted` and `acceptedAt` log what entered the queue; `handed` and `starts` what the inner substrate was
      given and when; `ends` and `slots` when each inner send finished and the slot interval read then. */
  datatype Boundary = Boundary(
    depth: nat,
    queue: seq<Queued>,
    pump: Pump,
    slot: nat,
    now: nat,
    sent: nat,
    sendErrors: nat,
    dropped: nat,
    queueDepth: nat,
    latency: nat,
    accepted: seq<Datagram>,
    acceptedAt: seq<nat>,
    handed: seq<Datagram>,
    starts: seq<nat>,
    ends: seq<nat>,
    slots: seq<nat>,
    lossyOffers: nat,
    lossyAccepts: nat)

  datatype Event =
    | Send(datagram: Datagram, stamp: nat)
    | LossySend(datagram: Datagram)
    | Take
    | Complete(ok: bool)
    | Wake
    | UpdateOracle(slot: nat)
    | Advance(elapsed: nat)

  function Enqueue(b: Boundary, d: Datagram, stamp: nat): Boundary {
    b.(queue := b.queue + [Queued(stamp, d)], accepted := b.accepted + [d], acceptedAt := b.acceptedAt + [b.now])
  }

  /** `stamp.elapsed().as_micros() as u64`. */
  function Waited(now: nat, stamp: nat): nat {
    (if now >= stamp then (now - stamp) / 1000 else 0) % U64_RANGE
  }

  predicate HasRoom(b: Boundary) {
    |b.queue| < b.depth
  }

  /** `Send` is the backpressured or the successful non-blocking send: it happens when there is room. */
  predicate Enabled(b: Boundary, e: Event) {
    match e
    case Send(_, stamp) => HasRoom(b) && stamp <= b.now
    case Take => b.pump.Idle? && b.queue != []
    case Complete(_) => b.pump.Sending?
    case Wake => b.pump.Pausing? && b.pump.until <= b.now
    case _ => true
  }

  function Next(b: Boundary, e: Event): Boundary
    requires Enabled(b, e)
  {
    match e
    case Send(d, stamp) => Enqueue(b, d, stamp)
    case LossySend(d) =>
      if HasRoom(b) then Enqueue(b, d, b.now).(lossyOffers := b.lossyOffers + 1, lossyAccepts := b.lossyAccepts + 1)
      else b.(lossyOffers := b.lossyOffers + 1, dropped := b.dropped + 1)
    case Take =>
      b.(queue := b.queue[1..], pump := Sending, queueDepth := |b.queue| - 1,
         latency := Waited(b.now, b.queue[0].stamp),
         handed := b.handed + [b.queue[0].datagram], starts := b.starts + [b.now])
    case Complete(ok) =>
      b.(sent := b.sent + (if ok then 1 else 0), sendErrors := b.sendErrors + (if ok then 0 else 1),
         pump := if b.slot == 0 then Idle else Pausing(b.now + b.slot),
         ends := b.ends + [b.now], slots := b.slots + [b.slot])
    case Wake => b.(pump := Idle)
    case UpdateOracle(slot) => b.(slot := slot)
    case Advance(elapsed) => b.(now := b.now + elapsed)
  }

  /** `Substrate::new(inner, queueDepth)` over an inner substrate whose oracle says `slot`. */
  function Fresh(queueDepth: nat, slot: nat, now: nat): Boundary {
    Boundary(if queueDepth == 0 then 1 else queueDepth, [], Idle, slot, now, 0, 0, 0, 0, 0, [], [], [], [], [], [], 0, 0)
  }

  predicate Runs(b: Boundary, es: seq<Event>)
    decreases |es|
  {
    es == [] || (Enabled(b, es[0]) && Runs(Next(b, es[0]), es[1..]))
  }

  function After(b: Boundary, es: seq<Event>): Boundary
    requires Runs(b, es)
    decreases |es|
  {
    if es == [] then b else After(Next(b, es[0]), es[1..])
  }
}
