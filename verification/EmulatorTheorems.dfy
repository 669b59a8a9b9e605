/** What every run of the emulator keeps: conservation, bounded egress, and what is left when the egress loop ends. */
module EmulatorTheorems {
  import opened Arithmetic
  import opened Sequences
  import opened Transport
  import opened EmulatorModel

  /** Everything inside the pipe. */
  function Pipe(m: Emulator): multiset<Datagram> {
    multiset(m.inbox) + m.delayed + multiset(m.ready) + multiset(m.queue)
  }

  /** Everything that has left it for good. */
  function Gone(log: Log): multiset<Datagram> {
    log.baseDropped + log.tailDropped + multiset(log.received) + log.discarded
  }

  ghost predicate Conserved(m: Emulator) {
    m.log.injected == Pipe(m) + multiset(m.output) + Gone(m.log)
  }

  /** The `j`-th egress waited for the `j`-th tick, and the ticker never fires early. */
  ghost predicate Ticked(m: Emulator) {
    && |m.log.egressAt| <= m.ticks
    && forall j :: 0 <= j < |m.log.egressAt| ==> m.start + j * m.slot <= m.log.egressAt[j]
  }

  /** The buffer and its limit. */
  ghost predicate Buffered(m: Emulator) {
    && (m.limit.Some? ==> |m.queue| <= m.limit.value)
    && (m.limit.None? ==> m.log.tailDropped == multiset{})
    && (m.slot == 0 ==> m.queue == [])
  }

  /** How the object and then the egress loop come to an end. */
  ghost predicate Ending(m: Emulator) {
    && (m.open ==> m.log.discarded == multiset{} && !m.closed)
    && (!m.open ==> m.output == [])
    && (m.closed ==> m.ready == [] && !Upstream(m))
    && (m.done ==> m.closed)
  }

  ghost predicate Finished(m: Emulator) {
    m.done ==> m.queue == []
  }

  /** What a run never changes. */
  ghost predicate Set(m: Emulator, slot: nat, limit: Option<nat>, start: nat) {
    m.slot == slot && m.limit == limit && m.start == start
  }

  // ----- every step conserves

  lemma EmitConserves(m: Emulator, d: Datagram)
    requires m.log.injected == Pipe(m) + multiset{d} + multiset(m.output) + Gone(m.log)
    ensures Conserved(Emit(m, d))
  {
    assert multiset(m.output + [d]) == multiset(m.output) + multiset{d};
  }

  lemma AdmitConserves(m: Emulator, drop: bool)
    requires Conserved(m) && Enabled(m, Admit(drop))
    ensures Conserved(Next(m, Admit(drop)))
  {
    HeadTail(m.inbox);
  }

  lemma RipenConserves(m: Emulator, d: Datagram)
    requires Conserved(m) && Enabled(m, Ripen(d))
    ensures Conserved(Next(m, Ripen(d)))
  {
    assert multiset(m.ready + [d]) == multiset(m.ready) + multiset{d};
  }

  /** What `m` becomes when its oldest ready datagram is taken and judged. */
  function Taken(m: Emulator, kept: bool): Emulator
    requires m.ready != []
  {
    m.(ready := m.ready[1..], log := m.log.(verdicts := m.log.verdicts + [Verdict(m.ready[0], kept)]))
  }

  lemma TakenPipe(m: Emulator, kept: bool)
    requires m.ready != []
    ensures Pipe(m) == Pipe(Taken(m, kept)) + multiset{m.ready[0]} && Gone(Taken(m, kept).log) == Gone(m.log)
  {
    HeadTail(m.ready);
  }

  lemma BufferConserves(m: Emulator, d: Datagram)
    requires m.log.injected == Pipe(m) + multiset{d} + multiset(m.output) + Gone(m.log)
    ensures Conserved(m.(queue := m.queue + [d]))
  {
    assert multiset(m.queue + [d]) == multiset(m.queue) + multiset{d};
  }

  lemma RefuseConserves(m: Emulator, d: Datagram)
    requires m.log.injected == Pipe(m) + multiset{d} + multiset(m.output) + Gone(m.log)
    ensures Conserved(m.(log := m.log.(tailDropped := m.log.tailDropped + multiset{d})))
  {
  }

  lemma AcceptConserves(m: Emulator)
    requires Conserved(m) && Enabled(m, Accept)
    ensures Conserved(Next(m, Accept))
  {
    var d, kept := m.ready[0], m.slot == 0 || HasRoom(m);
    TakenPipe(m, kept);
    if m.slot == 0 {
      EmitConserves(Taken(m, kept), d);
    } else if kept {
      BufferConserves(Taken(m, kept), d);
    } else {
      RefuseConserves(Taken(m, kept), d);
    }
  }

  lemma TickConserves(m: Emulator)
    requires Conserved(m) && Enabled(m, Tick)
    ensures Conserved(Next(m, Tick))
  {
    if m.queue != [] {
      HeadTail(m.queue);
      var n := m.(ticks := m.ticks + 1, queue := m.queue[1..]);
      assert Pipe(m) == Pipe(n) + multiset{m.queue[0]};
      EmitConserves(n, m.queue[0]);
    }
  }

  lemma RecvConserves(m: Emulator)
    requires Conserved(m) && Enabled(m, Recv)
    ensures Conserved(Next(m, Recv))
  {
    HeadTail(m.output);
    assert multiset(m.log.received + [m.output[0]]) == multiset(m.log.received) + multiset{m.output[0]};
  }

  lemma StepConserves(m: Emulator, e: Event)
    requires Conserved(m) && Enabled(m, e)
    ensures Conserved(Next(m, e))
  {
    match e
    case Inject(d) => assert multiset(m.inbox + [d]) == multiset(m.inbox) + multiset{d};
    case Admit(drop) => AdmitConserves(m, drop);
    case Ripen(d) => RipenConserves(m, d);
    case Accept => AcceptConserves(m);
    case Tick => TickConserves(m);
    case Recv => RecvConserves(m);
    case _ =>
  }

  lemma StepSets(m: Emulator, e: Event)
    requires Enabled(m, e)
    ensures Set(Next(m, e), m.slot, m.limit, m.start)
  {
  }

  lemma AcceptBuffers(m: Emulator)
    requires Buffered(m) && Enabled(m, Accept)
    ensures Buffered(Next(m, Accept))
  {
  }

  lemma StepBuffers(m: Emulator, e: Event)
    requires Buffered(m) && Enabled(m, e)
    ensures Buffered(Next(m, e))
  {
    match e
    case Accept => AcceptBuffers(m);
    case _ =>
  }

  lemma StepEnds(m: Emulator, e: Event)
    requires Ending(m) && Enabled(m, e)
    ensures Ending(Next(m, e))
  {
  }

  lemma StepFinishes(m: Emulator, e: Event)
    requires Finished(m) && Ending(m) && Buffered(m) && Enabled(m, e)
    ensures Finished(Next(m, e))
  {
  }

  lemma TickTicks(m: Emulator)
    requires Ticked(m) && Enabled(m, Tick)
    ensures Ticked(Next(m, Tick))
  {
    MulMonotone(|m.log.egressAt|, m.ticks, m.slot);
  }

  lemma StepTicks(m: Emulator, e: Event)
    requires Ticked(m) && Enabled(m, e) && m.slot > 0
    ensures Ticked(Next(m, e))
  {
    match e
    case Tick => TickTicks(m);
    case _ =>
  }

  // ----- from steps to runs

  /** Every enabled step keeps `inv`. */
  ghost predicate Preserved(inv: Emulator -> bool) {
    forall m, e {:trigger Next(m, e)} :: inv(m) && Enabled(m, e) ==> inv(Next(m, e))
  }

  lemma {:induction false} RunKeeps(inv: Emulator -> bool, m: Emulator, es: seq<Event>)
    requires Preserved(inv) && inv(m) && Runs(m, es)
    ensures inv(After(m, es))
    decreases |es|
  {
    if es != [] {
      RunKeeps(inv, Next(m, es[0]), es[1..]);
    }
  }

  lemma ConservedKept()
    ensures Preserved(Conserved)
  {
    forall m, e | Conserved(m) && Enabled(m, e)
      ensures Conserved(Next(m, e))
    {
      StepConserves(m, e);
    }
  }

  ghost predicate Shaped(m: Emulator) {
    Buffered(m) && Ending(m) && Finished(m)
  }

  lemma ShapedKept()
    ensures Preserved(Shaped)
  {
    forall m, e | Shaped(m) && Enabled(m, e)
      ensures Shaped(Next(m, e))
    {
      StepBuffers(m, e);
      StepEnds(m, e);
      StepFinishes(m, e);
    }
  }

  ghost function Fixed(slot: nat, limit: Option<nat>, start: nat): Emulator -> bool {
    (m: Emulator) => Set(m, slot, limit, start)
  }

  lemma FixedKept(slot: nat, limit: Option<nat>, start: nat)
    ensures Preserved(Fixed(slot, limit, start))
  {
    forall m, e | Set(m, slot, limit, start) && Enabled(m, e)
      ensures Set(Next(m, e), slot, limit, start)
    {
      StepSets(m, e);
    }
  }

  lemma ConservedRun(m: Emulator, es: seq<Event>)
    requires Conserved(m) && Runs(m, es)
    ensures Conserved(After(m, es))
  {
    ConservedKept();
    RunKeeps(Conserved, m, es);
  }

  lemma ShapedRun(m: Emulator, es: seq<Event>)
    requires Shaped(m) && Runs(m, es)
    ensures Shaped(After(m, es))
  {
    ShapedKept();
    RunKeeps(Shaped, m, es);
  }

  lemma FixedRun(m: Emulator, es: seq<Event>)
    requires Runs(m, es)
    ensures Set(After(m, es), m.slot, m.limit, m.start)
  {
    FixedKept(m.slot, m.limit, m.start);
    RunKeeps(Fixed(m.slot, m.limit, m.start), m, es);
  }

  lemma FreshRun(slot: nat, limit: Option<nat>, now: nat, es: seq<Event>)
    requires Runs(Fresh(slot, limit, now), es)
    ensures var m := After(Fresh(slot, limit, now), es); Conserved(m) && Shaped(m) && Set(m, slot, limit, now)
  {
    ConservedRun(Fresh(slot, limit, now), es);
    ShapedRun(Fresh(slot, limit, now), es);
    FixedRun(Fresh(slot, limit, now), es);
  }

  /** In every run each injected datagram is in the pipe, waiting in the output, received, dropped at the base rate,
      tail-dropped, or lost with the object; the buffer never outgrows its limit, without a limit nothing is
      tail-dropped, and nothing is lost while the object lives. */
  lemma EverythingAccounted(slot: nat, limit: Option<nat>, now: nat, es: seq<Event>)
    requires Runs(Fresh(slot, limit, now), es)
    ensures var m := After(Fresh(slot, limit, now), es);
      && m.log.injected == Pipe(m) + multiset(m.output)
           + (m.log.baseDropped + m.log.tailDropped + multiset(m.log.received) + m.log.discarded)
      && (limit.Some? ==> |m.queue| <= limit.value)
      && (limit.None? ==> m.log.tailDropped == multiset{})
      && (m.open ==> m.log.discarded == multiset{})
  {
    FreshRun(slot, limit, now, es);
  }

  lemma TailDropStep(m: Emulator, e: Event)
    requires Enabled(m, e) && Next(m, e).log.tailDropped != m.log.tailDropped
    ensures m.limit.Some? && |m.queue| >= m.limit.value
  {
  }

  /** Tail drop happens only at a full buffer. */
  lemma TailDropOnlyWhenFull(slot: nat, limit: Option<nat>, now: nat, es: seq<Event>, e: Event)
    requires Runs(Fresh(slot, limit, now), es) && Enabled(After(Fresh(slot, limit, now), es), e)
    requires var m := After(Fresh(slot, limit, now), es); Next(m, e).log.tailDropped != m.log.tailDropped
    ensures limit.Some? && |After(Fresh(slot, limit, now), es).queue| == limit.value
  {
    TailDropStep(After(Fresh(slot, limit, now), es), e);
    FreshRun(slot, limit, now, es);
  }

  // ----- order

  function Given(verdicts: seq<Verdict>): seq<Datagram> {
    Mapped(verdicts, (v: Verdict) => v.datagram)
  }

  /** The datagrams kept, in order. */
  function Kept(verdicts: seq<Verdict>): seq<Datagram> {
    Given(Filter(verdicts, (v: Verdict) => v.kept))
  }

  lemma OneMoreVerdict(verdicts: seq<Verdict>, v: Verdict)
    ensures Given(verdicts + [v]) == Given(verdicts) + [v.datagram]
    ensures Kept(verdicts + [v]) == if v.kept then Kept(verdicts) + [v.datagram] else Kept(verdicts)
  {
    var kept := (v: Verdict) => v.kept;
    FilterAppend(verdicts, [v], kept);
    assert Filter([v], kept) == if v.kept then [v] else [];
    assert Filter(verdicts, kept) + [] == Filter(verdicts, kept);
  }

  /** The egress loop takes datagrams as they became ready, puts out those it keeps in that order, and the consumer takes
      them in that order. */
  ghost predicate Queued(m: Emulator) {
    && m.log.ripened == Given(m.log.verdicts) + m.ready
    && Kept(m.log.verdicts) == m.log.left + m.queue
    && m.log.received <= m.log.left
    && (m.open ==> m.log.received + m.output == m.log.left)
    && (m.slot == 0 ==> m.queue == [])
  }

  lemma MoveHead(done: seq<Datagram>, waiting: seq<Datagram>)
    requires waiting != []
    ensures done + waiting == done + [waiting[0]] + waiting[1..]
  {
  }

  lemma EmitQueued(m: Emulator, d: Datagram)
    requires m.log.ripened == Given(m.log.verdicts) + m.ready && Kept(m.log.verdicts) == m.log.left + [d] + m.queue
    requires m.log.received <= m.log.left && (m.open ==> m.log.received + m.output == m.log.left)
    requires m.slot == 0 ==> m.queue == []
    ensures Queued(Emit(m, d))
  {
    if m.open {
      assert m.log.received + (m.output + [d]) == m.log.received + m.output + [d];
    }
  }

  lemma AcceptQueued(m: Emulator)
    requires Queued(m) && Enabled(m, Accept)
    ensures Queued(Next(m, Accept))
  {
    var d, kept := m.ready[0], m.slot == 0 || HasRoom(m);
    var n := m.(ready := m.ready[1..], log := m.log.(verdicts := m.log.verdicts + [Verdict(d, kept)]));
    OneMoreVerdict(m.log.verdicts, Verdict(d, kept));
    MoveHead(Given(m.log.verdicts), m.ready);
    if m.slot == 0 {
      assert Kept(n.log.verdicts) == m.log.left + [d] + [] by {
        assert m.log.left + [] + [d] == m.log.left + [d] + [];
      }
      EmitQueued(n, d);
    } else if kept {
      assert m.log.left + m.queue + [d] == m.log.left + (m.queue + [d]);
    }
  }

  lemma TickQueued(m: Emulator)
    requires Queued(m) && Enabled(m, Tick)
    ensures Queued(Next(m, Tick))
  {
    if m.queue != [] {
      MoveHead(m.log.left, m.queue);
      EmitQueued(m.(ticks := m.ticks + 1, queue := m.queue[1..]), m.queue[0]);
    }
  }

  lemma RecvQueued(m: Emulator)
    requires Queued(m) && Enabled(m, Recv)
    ensures Queued(Next(m, Recv))
  {
    MoveHead(m.log.received, m.output);
  }

  lemma StepQueued(m: Emulator, e: Event)
    requires Queued(m) && Enabled(m, e)
    ensures Queued(Next(m, e))
  {
    match e
    case Ripen(d) => assert Given(m.log.verdicts) + (m.ready + [d]) == Given(m.log.verdicts) + m.ready + [d];
    case Accept => AcceptQueued(m);
    case Tick => TickQueued(m);
    case Recv => RecvQueued(m);
    case _ =>
  }

  lemma QueuedKept()
    ensures Preserved(Queued)
  {
    forall m, e | Queued(m) && Enabled(m, e)
      ensures Queued(Next(m, e))
    {
      StepQueued(m, e);
    }
  }

  /** In every run, of what became ready the egress loop has received a first part in the order it became ready; those kept
      have left or wait in that order; and the consumer has taken a first part of what left, in that order. */
  lemma LeavesInOrder(slot: nat, limit: Option<nat>, now: nat, es: seq<Event>)
    requires Runs(Fresh(slot, limit, now), es)
    ensures var m := After(Fresh(slot, limit, now), es);
      && m.log.ripened == Given(m.log.verdicts) + m.ready
      && Kept(m.log.verdicts) == m.log.left + m.queue
      && m.log.received <= m.log.left
      && (m.open ==> m.log.received + m.output == m.log.left)
  {
    QueuedKept();
    assert Queued(Fresh(slot, limit, now));
    RunKeeps(Queued, Fresh(slot, limit, now), es);
  }

  // ----- rate

  ghost function Ticking(slot: nat, start: nat): Emulator -> bool {
    (m: Emulator) => Ticked(m) && m.slot == slot && m.start == start
  }

  lemma TickingRun(slot: nat, limit: Option<nat>, now: nat, es: seq<Event>)
    requires slot > 0 && Runs(Fresh(slot, limit, now), es)
    ensures Ticking(slot, now)(After(Fresh(slot, limit, now), es))
  {
    forall m, e | Ticking(slot, now)(m) && Enabled(m, e)
      ensures Ticking(slot, now)(Next(m, e))
    {
      StepTicks(m, e);
    }
    RunKeeps(Ticking(slot, now), Fresh(slot, limit, now), es);
  }

  function Until(t: nat): nat -> bool {
    (x: nat) => x <= t
  }

  lemma {:induction false} EarlyCount(times: seq<nat>, start: nat, slot: nat, t: nat)
    requires slot > 0 && forall j :: 0 <= j < |times| ==> start + j * slot <= times[j]
    ensures Count(times, Until(start + t)) <= t / slot + 1
  {
    if times != [] {
      var n := |times| - 1;
      assert times == times[..n] + [times[n]];
      EarlyCount(times[..n], start, slot, t);
      CountAppend(times[..n], [times[n]], Until(start + t));
      if times[n] <= start + t {
        DivAtLeast(t, slot, n);
        CountAtMostLength(times[..n], Until(start + t));
      }
    }
  }

  /** In the first `t` of ticker time at most `t / slot + 1` datagrams leave. */
  lemma EgressBound(slot: nat, limit: Option<nat>, now: nat, es: seq<Event>, t: nat)
    requires slot > 0 && Runs(Fresh(slot, limit, now), es)
    ensures Count(After(Fresh(slot, limit, now), es).log.egressAt, Until(now + t)) <= t / slot + 1
  {
    TickingRun(slot, limit, now, es);
    EarlyCount(After(Fresh(slot, limit, now), es).log.egressAt, now, slot, t);
  }

  // ----- the end of the egress loop

  ghost predicate Lossless(es: seq<Event>) {
    forall i :: 0 <= i < |es| ==> es[i] != Admit(true)
  }

  lemma {:induction false} LosslessDrops(m: Emulator, es: seq<Event>)
    requires Runs(m, es) && Lossless(es) && m.log.baseDropped == multiset{}
    ensures After(m, es).log.baseDropped == multiset{}
    decreases |es|
  {
    if es != [] {
      LosslessDrops(Next(m, es[0]), es[1..]);
    }
  }

  /** With no base drops and an unbounded buffer, everything injected has left the egress by the time its loop ends. */
  lemma DrainedAtEnd(slot: nat, now: nat, es: seq<Event>)
    requires Runs(Fresh(slot, None, now), es) && Lossless(es) && After(Fresh(slot, None, now), es).done
    ensures var m := After(Fresh(slot, None, now), es);
      && Pipe(m) == multiset{} && m.output == []
      && m.log.injected == multiset(m.log.received) + m.log.discarded
  {
    FreshRun(slot, None, now, es);
    LosslessDrops(Fresh(slot, None, now), es);
  }

  ghost function Frozen(log: Log): Emulator -> bool {
    (m: Emulator) => !m.open && m.log.injected == log.injected && m.log.received == log.received
  }

  lemma StepFrozen(m: Emulator, e: Event)
    requires !m.open && Enabled(m, e)
    ensures !Next(m, e).open && Next(m, e).log.injected == m.log.injected
  {
  }

  lemma StepUnreceived(m: Emulator, e: Event)
    requires !m.open && Enabled(m, e)
    ensures Next(m, e).log.received == m.log.received
  {
  }

  lemma FrozenKept(log: Log)
    ensures Preserved(Frozen(log))
  {
    forall m, e | Frozen(log)(m) && Enabled(m, e)
      ensures Frozen(log)(Next(m, e))
    {
      StepFrozen(m, e);
      StepUnreceived(m, e);
    }
  }

  /** Nothing enters or is received once the object is gone. */
  lemma FrozenAfterClose(m: Emulator, es: seq<Event>)
    requires Runs(m, es) && !m.open
    ensures After(m, es).log.injected == m.log.injected && After(m, es).log.received == m.log.received
  {
    FrozenKept(m.log);
    RunKeeps(Frozen(m.log), m, es);
  }

  lemma NoneLeft(output: seq<Datagram>)
    requires multiset(output) == multiset{}
    ensures output == []
  {
    assert |multiset(output)| == |output|;
  }

  lemma EmptyIff(pipe: multiset<Datagram>, output: seq<Datagram>, received: multiset<Datagram>)
    ensures received == pipe + multiset(output) + received <==> pipe == multiset{} && output == []
  {
    var all := pipe + multiset(output) + received;
    if received == all {
      forall d
        ensures pipe[d] == 0 && multiset(output)[d] == 0
      {
        assert all[d] == pipe[d] + multiset(output)[d] + received[d];
      }
      NoneLeft(output);
    }
  }

  lemma LosslessBalance(slot: nat, now: nat, es: seq<Event>)
    requires Runs(Fresh(slot, None, now), es) && Lossless(es) && After(Fresh(slot, None, now), es).open
    ensures var m := After(Fresh(slot, None, now), es);
      m.log.injected == Pipe(m) + multiset(m.output) + multiset(m.log.received)
  {
    FreshRun(slot, None, now, es);
    LosslessDrops(Fresh(slot, None, now), es);
  }

  /** But what leaves after the emulator object is dropped reaches nobody, nor does what lies unread in the output at that
      moment: everything injected is received exactly when pipe and output were both empty when it was dropped. */
  lemma ReceivedIffEmptyAtClose(slot: nat, now: nat, before: seq<Event>, after: seq<Event>)
    requires var f := Fresh(slot, None, now);
      && Runs(f, before) && After(f, before).open && Lossless(before)
      && Runs(Next(After(f, before), Close), after)
    ensures var m := After(Fresh(slot, None, now), before);
      var q := After(Next(m, Close), after);
      multiset(q.log.received) == q.log.injected <==> Pipe(m) == multiset{} && m.output == []
  {
    var m := After(Fresh(slot, None, now), before);
    LosslessBalance(slot, now, before);
    FrozenAfterClose(Next(m, Close), after);
    EmptyIff(Pipe(m), m.output, multiset(m.log.received));
  }

  // ----- a run to the contrary

  lemma RunOn(m: Emulator, e: Event, es: seq<Event>)
    requires Enabled(m, e) && Runs(Next(m, e), es)
    ensures Runs(m, [e] + es) && After(m, [e] + es) == After(Next(m, e), es)
  {
    assert ([e] + es)[1..] == es;
  }

  lemma LateTail(m: Emulator, d: Datagram)
    requires !m.open && !m.closed && !m.done && m.slot == 0
    requires m.inbox == [] && m.ready == [] && m.delayed == multiset{d}
    ensures Runs(m, [Ripen(d), Accept, Hangup]) && After(m, [Ripen(d), Accept, Hangup]).done
  {
    var m1 := Next(m, Ripen(d));
    var m2 := Next(m1, Accept);
    assert m2.delayed == multiset{};
    assert Runs(Next(m2, Hangup), []);
    RunOn(m2, Hangup, []);
    RunOn(m1, Accept, [Hangup]);
    RunOn(m, Ripen(d), [Accept, Hangup]);
    assert [Accept] + [Hangup] == [Accept, Hangup] && [Ripen(d)] + [Accept, Hangup] == [Ripen(d), Accept, Hangup];
  }

  /** Without drops or limits a datagram can still be lost: its delay ends after the object is gone. */
  lemma LateDatagramLost(d: Datagram)
    ensures var s := Next(Next(Fresh(0, None, 0), Inject(d)), Admit(false));
      var es := [Ripen(d), Accept, Hangup];
      && Runs(Next(s, Close), es) && After(Next(s, Close), es).done
      && After(Next(s, Close), es).log.injected == multiset{d}
      && After(Next(s, Close), es).log.received == []
  {
    var s := Next(Next(Fresh(0, None, 0), Inject(d)), Admit(false));
    LateTail(Next(s, Close), d);
    FrozenAfterClose(Next(s, Close), [Ripen(d), Accept, Hangup]);
  }

  /** Or it has passed the whole pipe and lies unread when the object goes. */
  lemma UnreadDatagramLost(d: Datagram)
    ensures var s := Next(Next(Next(Next(Fresh(0, None, 0), Inject(d)), Admit(false)), Ripen(d)), Accept);
      && Pipe(s) == multiset{} && s.output == [d]
      && Next(s, Close).log.injected == multiset{d} == Next(s, Close).log.discarded
      && Next(s, Close).log.received == []
  {
  }
}
