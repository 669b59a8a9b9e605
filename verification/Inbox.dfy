/** The receive side of the boundary: a pump forwards what the inner substrate yields into a bounded
    queue, surfaces its first error and ends; the consumer drains the queue, then reads `Closed`. */
module Inbox {
  import opened Arithmetic
  import opened Sequences
  import opened Transport

  datatype Item = Data(datagram: Datagram) | Fault(error: SubstrateError)

  datatype Reader = Reading | Holding(item: Item) | Ended

  /** `yielded` logs what the inner substrate produced, `seen` what the consumer was told, and `delivered`
      how many queued items it took. */
  datatype Inbox = Inbox(
    depth: nat,
    reader: Reader,
    queue: seq<Item>,
    received: nat,
    yielded: seq<Item>,
    seen: seq<Item>,
    delivered: nat)

  datatype Step = Yield(item: Item) | Forward | Consume

  predicate Enabled(b: Inbox, e: Step) {
    match e
    case Yield(_) => b.reader.Reading?
    case Forward => b.reader.Holding? && |b.queue| < b.depth
    case Consume => b.queue != [] || b.reader.Ended?
  }

  function Next(b: Inbox, e: Step): Inbox
    requires Enabled(b, e)
  {
    match e
    case Yield(item) =>
      b.(reader := Holding(item), received := b.received + (if item.Data? then 1 else 0), yielded := b.yielded + [item])
    case Forward =>
      b.(queue := b.queue + [b.reader.item], reader := if b.reader.item.Data? then Reading else Ended)
    case Consume =>
      if b.queue == [] then b.(seen := b.seen + [Fault(Closed)])
      else b.(queue := b.queue[1..], seen := b.seen + [b.queue[0]], delivered := b.delivered + 1)
  }

  function Fresh(queueDepth: nat): Inbox {
    Inbox(if queueDepth == 0 then 1 else queueDepth, Reading, [], 0, [], [], 0)
  }

  predicate Runs(b: Inbox, es: seq<Step>)
    decreases |es|
  {
    es == [] || (Enabled(b, es[0]) && Runs(Next(b, es[0]), es[1..]))
  }

  function After(b: Inbox, es: seq<Step>): Inbox
    requires Runs(b, es)
    decreases |es|
  {
    if es == [] then b else After(Next(b, es[0]), es[1..])
  }

  function InHand(b: Inbox): seq<Item> {
    if b.reader.Holding? then [b.reader.item] else []
  }

  function IsData(): Item -> bool {
    (x: Item) => x.Data?
  }

  /** Everything yielded is delivered, queued or in hand, in order; only the last item can be a fault. */
  ghost predicate Faithful(b: Inbox) {
    && |b.queue| <= b.depth && b.delivered <= |b.yielded| && b.delivered <= |b.seen|
    && b.yielded[b.delivered..] == b.queue + InHand(b)
    && b.seen[..b.delivered] == b.yielded[..b.delivered]
    && (forall i :: b.delivered <= i < |b.seen| ==> b.seen[i] == Fault(Closed))
    && (|b.seen| > b.delivered ==> b.reader.Ended? && b.queue == [])
    && (forall i :: 0 <= i < |b.yielded| - 1 ==> b.yielded[i].Data?)
    && (b.reader.Reading? ==> forall i :: 0 <= i < |b.yielded| ==> b.yielded[i].Data?)
    && (b.reader.Ended? ==> b.yielded != [] && b.yielded[|b.yielded| - 1].Fault?)
    && b.received == Count(b.yielded, IsData())
  }

  lemma YieldKeepsFaith(b: Inbox, item: Item)
    requires Faithful(b) && Enabled(b, Yield(item))
    ensures Faithful(Next(b, Yield(item)))
  {
    CountAppend(b.yielded, [item], IsData());
    assert (b.yielded + [item])[b.delivered..] == b.yielded[b.delivered..] + [item];
  }

  /** Taking the next item moves the boundary between delivered and waiting by one. */
  lemma DeliverNext(yielded: seq<Item>, seen: seq<Item>, waiting: seq<Item>, d: nat)
    requires d < |yielded| && yielded[d..] == waiting && seen == yielded[..d] && waiting != []
    ensures yielded[d + 1..] == waiting[1..] && seen + [waiting[0]] == yielded[..d + 1]
  {
    assert yielded[d..][1..] == yielded[d + 1..] && yielded[d..][0] == yielded[d];
  }

  lemma ConsumeKeepsFaith(b: Inbox)
    requires Faithful(b) && Enabled(b, Consume)
    ensures Faithful(Next(b, Consume))
  {
    if b.queue != [] {
      assert b.seen == b.seen[..b.delivered];
      DeliverNext(b.yielded, b.seen, b.queue + InHand(b), b.delivered);
      assert (b.queue + InHand(b))[1..] == b.queue[1..] + InHand(b);
    }
  }

  lemma {:induction false} RunKeepsFaith(b: Inbox, es: seq<Step>)
    requires Faithful(b) && Runs(b, es)
    ensures Faithful(After(b, es))
    ensures After(b, es).depth == b.depth
    decreases |es|
  {
    if es != [] {
      match es[0] {
        case Yield(item) => YieldKeepsFaith(b, item);
        case Forward => assert b.queue + InHand(b) == b.queue + [b.reader.item] + [];
        case Consume => ConsumeKeepsFaith(b);
      }
      RunKeepsFaith(Next(b, es[0]), es[1..]);
    }
  }

  /** The pump reads and forwards a burst nobody consumes. */
  function Burst(ds: seq<Datagram>): seq<Step> {
    if ds == [] then [] else [Yield(Data(ds[0])), Forward] + Burst(ds[1..])
  }

  lemma TwoSteps(b: Inbox, d: Datagram, rest: seq<Step>)
    requires b.reader.Reading?
    ensures Runs(b, [Yield(Data(d)), Forward] + rest) <==>
      |b.queue| < b.depth && Runs(b.(queue := b.queue + [Data(d)], received := b.received + 1, yielded := b.yielded + [Data(d)]), rest)
  {
    var es := [Yield(Data(d)), Forward] + rest;
    assert es[1..] == [Forward] + rest && es[1..][1..] == rest;
  }

  lemma {:induction false} BurstFits(b: Inbox, ds: seq<Datagram>)
    requires b.reader.Reading? && |b.queue| <= b.depth
    ensures Runs(b, Burst(ds)) <==> |b.queue| + |ds| <= b.depth
    decreases |ds|
  {
    if ds != [] {
      TwoSteps(b, ds[0], Burst(ds[1..]));
      if |b.queue| < b.depth {
        BurstFits(b.(queue := b.queue + [Data(ds[0])], received := b.received + 1, yielded := b.yielded + [Data(ds[0])]), ds[1..]);
      }
    }
  }

  /** Exactly `max(queueDepth, 1)` datagrams are forwarded to a consumer that takes none. */
  lemma BuffersExactly(queueDepth: nat, ds: seq<Datagram>)
    ensures Runs(Fresh(queueDepth), Burst(ds)) <==> |ds| <= Max(queueDepth, 1)
  {
    BurstFits(Fresh(queueDepth), ds);
  }

  /** What the consumer has seen is a prefix of the inner substrate's datagrams in order, then possibly its one
      error, then `Closed` for ever; and `received` runs ahead of the datagrams delivered by at most the depth plus one. */
  lemma ConsumerView(queueDepth: nat, es: seq<Step>)
    requires Runs(Fresh(queueDepth), es)
    ensures var b := After(Fresh(queueDepth), es);
      && b.delivered <= |b.seen| && b.delivered <= |b.yielded|
      && b.seen[..b.delivered] == b.yielded[..b.delivered]
      && (forall i :: 0 <= i < |b.yielded| - 1 ==> b.yielded[i].Data?)
      && (forall i :: b.delivered <= i < |b.seen| ==> b.seen[i] == Fault(Closed))
      && (|b.seen| > b.delivered ==> b.delivered == |b.yielded| && b.yielded != [] && b.yielded[b.delivered - 1].Fault?)
      && b.received <= Count(b.seen[..b.delivered], IsData()) + (if queueDepth == 0 then 1 else queueDepth) + 1
  {
    var b := After(Fresh(queueDepth), es);
    RunKeepsFaith(Fresh(queueDepth), es);
    assert b.yielded == b.yielded[..b.delivered] + b.yielded[b.delivered..];
    CountAppend(b.yielded[..b.delivered], b.yielded[b.delivered..], IsData());
    CountAtMostLength(b.yielded[b.delivered..], IsData());
  }
}
