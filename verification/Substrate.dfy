/** The boundary object: callers and the pump task change its queue and counters in place, each method
    one atomic step of the machine. */
module Substrate {
  import opened Arithmetic
  import opened Sequences
  import opened BoundaryModel
  import T = BoundaryTheorems
  import opened Transport
  import R = Inbox

  datatype SendResult = Ok | Err(error: SubstrateError)

  /** The history fields of a boundary. */
  datatype Log = Log(
    accepted: seq<Datagram>,
    acceptedAt: seq<nat>,
    handed: seq<Datagram>,
    starts: seq<nat>,
    ends: seq<nat>,
    slots: seq<nat>,
    lossyOffers: nat,
    lossyAccepts: nat)

  class Substrate {
    const depth: nat
    var queue: seq<Queued>
    var pump: Pump
    var slot: nat
    var now: nat
    var sent: nat
    var sendErrors: nat
    var dropped: nat
    var queueDepth: nat
    var latency: nat
    ghost var log: Log

    ghost function View(): Boundary
      reads this
    {
      Boundary(depth, queue, pump, slot, now, sent, sendErrors, dropped, queueDepth, latency,
               log.accepted, log.acceptedAt, log.handed, log.starts, log.ends, log.slots,
               log.lossyOffers, log.lossyAccepts)
    }

    constructor (queueDepth: nat, slot: nat, now: nat)
      ensures View() == Fresh(queueDepth, slot, now) && depth == Max(queueDepth, 1) && this.slot == slot
    {
      depth := if queueDepth == 0 then 1 else queueDepth;
      queue, pump := [], Idle;
      this.slot, this.now := slot, now;
      sent, sendErrors, dropped, this.queueDepth, latency := 0, 0, 0, 0, 0;
      log := Log([], [], [], [], [], [], 0, 0);
    }

    /** Non-blocking enqueue: backpressure, with nothing changed, exactly when the queue is full. */
    method TrySend(datagram: Datagram) returns (r: SendResult)
      modifies this`queue, this`log
      ensures r == if old(HasRoom(View())) then Ok else Err(Backpressure)
      ensures View() == if r.Ok? then Next(old(View()), Event.Send(datagram, now)) else old(View())
    {
      if |queue| >= depth {
        return Err(Backpressure);
      }
      Send(datagram, now);
      return Ok;
    }

    /** A backpressured send asked for at `stamp` gets its room. */
    method Send(datagram: Datagram, stamp: nat)
      requires Enabled(View(), Event.Send(datagram, stamp))
      modifies this`queue, this`log
      ensures View() == Next(old(View()), Event.Send(datagram, stamp))
    {
      queue := queue + [Queued(stamp, datagram)];
      log := log.(accepted := log.accepted + [datagram], acceptedAt := log.acceptedAt + [now]);
    }

    /** The trait's lossy send: a full queue drops the datagram and counts it. */
    method LossySend(datagram: Datagram)
      modifies this`queue, this`dropped, this`log
      ensures View() == Next(old(View()), Event.LossySend(datagram))
    {
      var r := TrySend(datagram);
      if r.Err? {
        dropped := dropped + 1;
        log := log.(lossyOffers := log.lossyOffers + 1);
      } else {
        log := log.(lossyOffers := log.lossyOffers + 1, lossyAccepts := log.lossyAccepts + 1);
      }
    }

    /** The pump takes the oldest datagram and hands it to the inner substrate. */
    method PumpTake() returns (datagram: Datagram)
      requires Enabled(View(), Take)
      modifies this`queue, this`pump, this`queueDepth, this`latency, this`log
      ensures View() == Next(old(View()), Take) && datagram == old(queue[0].datagram)
    {
      var head := queue[0];
      datagram := head.datagram;
      queue, pump := queue[1..], Sending;
      queueDepth := |queue|;
      latency := Waited(now, head.stamp);
      log := log.(handed := log.handed + [datagram], starts := log.starts + [now]);
    }

    /** The inner send returns: count it, then pause for the slot interval current now. */
    method PumpComplete(ok: bool)
      requires Enabled(View(), Complete(ok))
      modifies this`sent, this`sendErrors, this`pump, this`log
      ensures View() == Next(old(View()), Complete(ok))
    {
      if ok {
        sent := sent + 1;
      } else {
        sendErrors := sendErrors + 1;
      }
      log := log.(ends := log.ends + [now], slots := log.slots + [slot]);
      pump := if slot == 0 then Idle else Pausing(now + slot);
    }

    method PumpWake()
      requires Enabled(View(), Wake)
      modifies this`pump
      ensures View() == Next(old(View()), Wake)
    {
      pump := Idle;
    }

    /** One pass of the pump's loop with an instantaneous inner send and an exact sleep. */
    method PumpOne(ok: bool)
      requires pump.Idle? && queue != []
      modifies this`queue, this`pump, this`queueDepth, this`latency, this`sent, this`sendErrors, this`now, this`log
      ensures pump.Idle? && queue == old(queue)[1..] && now == old(now) + slot
      ensures log.handed == old(log).handed + [old(queue)[0].datagram] && log.starts == old(log).starts + [old(now)]
      ensures sent == old(sent) + (if ok then 1 else 0) && sendErrors == old(sendErrors) + (if ok then 0 else 1)
      ensures log.accepted == old(log).accepted && log.acceptedAt == old(log).acceptedAt
    {
      var _ := PumpTake();
      PumpComplete(ok);
      if pump.Pausing? {
        now := pump.until;
        PumpWake();
      }
    }

    /** The pump's loop left alone with what is queued: every datagram is handed over once, in order, one a slot from now
        on, and counted as its send turned out. */
    method PumpAll(outcomes: seq<bool>)
      requires pump.Idle? && |outcomes| == |queue|
      modifies this`queue, this`pump, this`queueDepth, this`latency, this`sent, this`sendErrors, this`now, this`log
      ensures pump.Idle? && queue == [] && now == old(now) + |old(queue)| * slot
      ensures log.handed == old(log).handed + T.Payloads(old(queue))
      ensures |log.starts| == |old(log).starts| + |old(queue)|
      ensures forall i :: 0 <= i < |old(queue)| ==> log.starts[|old(log).starts| + i] == old(now) + i * slot
      ensures sent == old(sent) + Count(outcomes, Succeeded()) && sent + sendErrors == old(sent) + old(sendErrors) + |old(queue)|
    {
      ghost var all, handed := old(queue), old(log).handed;
      var k := 0;
      assert all[0..] == all && handed + T.Payloads(all[..0]) == handed;
      while queue != []
        invariant pump.Idle? && k <= |all| && queue == all[k..] && now == old(now) + k * slot
        invariant log.handed == handed + T.Payloads(all[..k])
        invariant |log.starts| == |old(log).starts| + k
        invariant forall i :: 0 <= i < k ==> log.starts[|old(log).starts| + i] == old(now) + i * slot
        invariant sent == old(sent) + Count(outcomes[..k], Succeeded()) && sent + sendErrors == old(sent) + old(sendErrors) + k
        decreases |queue|
      {
        PumpOne(outcomes[k]);
        HandedOneMore(handed, all, k);
        CountOneMore(outcomes, k);
        Distribute(k, 1, slot);
        k := k + 1;
      }
      assert all[..k] == all && outcomes[..k] == outcomes;
    }

    method UpdateOracle(published: nat)
      modifies this`slot
      ensures View() == Next(old(View()), Event.UpdateOracle(published))
    {
      slot := published;
    }
  }

  function Succeeded(): bool -> bool {
    (ok: bool) => ok
  }

  lemma HandedOneMore(handed: seq<Datagram>, all: seq<Queued>, k: nat)
    requires k < |all|
    ensures handed + T.Payloads(all[..k]) + [all[k..][0].datagram] == handed + T.Payloads(all[..k + 1])
    ensures all[k..][1..] == all[k + 1..]
  {
    assert T.Payloads(all[..k + 1]) == T.Payloads(all[..k]) + [all[k].datagram];
  }

  lemma CountOneMore(outcomes: seq<bool>, k: nat)
    requires k < |outcomes|
    ensures Count(outcomes[..k + 1], Succeeded()) == Count(outcomes[..k], Succeeded()) + (if outcomes[k] then 1 else 0)
  {
    assert outcomes[..k + 1] == outcomes[..k] + [outcomes[k]];
    CountAppend(outcomes[..k], [outcomes[k]], Succeeded());
  }

  /** The receive half: the pump's hand and the bounded queue towards the consumer. */
  class Receiver {
    const depth: nat
    var reader: R.Reader
    var queue: seq<R.Item>
    var received: nat
    ghost var yielded: seq<R.Item>
    ghost var seen: seq<R.Item>
    ghost var delivered: nat

    ghost function View(): R.Inbox
      reads this
    {
      R.Inbox(depth, reader, queue, received, yielded, seen, delivered)
    }

    constructor (queueDepth: nat)
      ensures View() == R.Fresh(queueDepth) && depth == Max(queueDepth, 1)
    {
      depth := if queueDepth == 0 then 1 else queueDepth;
      reader, queue, received := R.Reading, [], 0;
      yielded, seen, delivered := [], [], 0;
    }

    /** The inner `try_recv` returns. */
    method PumpYield(item: R.Item)
      requires R.Enabled(View(), R.Yield(item))
      modifies this`reader, this`received, this`yielded
      ensures View() == R.Next(old(View()), R.Yield(item))
    {
      if item.Data? {
        received := received + 1;
      }
      reader, yielded := R.Holding(item), yielded + [item];
    }

    /** The pump's send into the queue finds room; after an error the pump ends. */
    method PumpForward()
      requires R.Enabled(View(), R.Forward)
      modifies this`reader, this`queue
      ensures View() == R.Next(old(View()), R.Forward)
    {
      var item := reader.item;
      queue := queue + [item];
      reader := if item.Data? then R.Reading else R.Ended;
    }

    /** The consumer's `recv`: the oldest item, or `Closed` once the pump is gone and the queue is dry. */
    method Recv() returns (item: R.Item)
      requires R.Enabled(View(), R.Consume)
      modifies this`queue, this`seen, this`delivered
      ensures View() == R.Next(old(View()), R.Consume) && seen == old(seen) + [item]
    {
      if queue == [] {
        item := R.Fault(Closed);
      } else {
        item := queue[0];
        queue, delivered := queue[1..], delivered + 1;
      }
      seen := seen + [item];
    }
  }
}
