/** The pool's promises, stated over every run from start-up. */
module PoolTheorems {
  import opened Sequences
  import opened Arithmetic
  import opened PoolModel
  import opened PoolSafety

  ghost predicate Holds(p: Pool, id: nat) {
    exists s :: s in p.slots && s.id == id
  }

  /** What only moves forward: the clock, the closed connections, the retirement log. */
  ghost predicate Grows(p: Pool, q: Pool) {
    && q.cfg == p.cfg && p.now <= q.now && p.closed <= q.closed
    && forall id :: id in p.retiredAt ==> id in q.retiredAt && q.retiredAt[id] == p.retiredAt[id]
  }

  lemma StepGrows(p: Pool, e: Event)
    requires Inv(p) && Enabled(p, e)
    ensures Grows(p, Next(p, e))
  {
    if e.Tick? {
      RetireDates(p, e.seen);
    }
  }

  lemma {:induction false} RunGrows(p: Pool, es: seq<Event>)
    requires Inv(p) && Runs(p, es)
    ensures Grows(p, After(p, es))
    decreases |es|
  {
    if es != [] {
      StepGrows(p, es[0]);
      StepKeepsInv(p, es[0]);
      RunGrows(Next(p, es[0]), es[1..]);
    }
  }

  // ----- leases

  /** In-flight counts are exactly the leases out, so dropping a lease never wraps a counter. */
  lemma LeaseCountsExact(p: Pool, es: seq<Event>, id: nat)
    requires Init(p) && Runs(p, es)
    ensures var q := After(p, es);
      && InFlight(q.active, id) == q.leases[id]
      && (Enabled(q, DropLease(id)) ==> InFlight(Next(q, DropLease(id)).active, id) == q.leases[id] - 1)
  {
    InitInv(p);
    RunKeepsInv(p, es);
  }

  lemma StepLeases(p: Pool, e: Event, id: nat)
    requires Inv(p) && Enabled(p, e) && id in p.retiredAt
    ensures Next(p, e).leases[id] <= p.leases[id]
  {
    if e.Pick? {
      var q := Prune(p, LiveIn(p.closed));
      FilterMembers(p.slots, LiveIn(p.closed));
      if Choice(q).Some? {
        assert q.slots[Choice(q).value] in q.slots;
      }
    }
  }

  /** Once retired, a circuit is never leased again: its leases can only run out. */
  lemma {:induction false} RetiredNeverLeased(p: Pool, es: seq<Event>, id: nat)
    requires Inv(p) && Runs(p, es) && id in p.retiredAt
    ensures After(p, es).leases[id] <= p.leases[id]
    decreases |es|
  {
    if es != [] {
      StepLeases(p, es[0], id);
      StepGrows(p, es[0]);
      StepKeepsInv(p, es[0]);
      RetiredNeverLeased(Next(p, es[0]), es[1..], id);
    }
  }

  /** A granted lease is on a live circuit that was not retired, chosen from the vector. */
  lemma LeaseOnReadyOnly(p: Pool, es: seq<Event>, id: nat)
    requires Init(p) && Runs(p, es)
    requires Next(After(p, es), Pick).leases[id] > After(p, es).leases[id]
    ensures var q := After(p, es); id !in q.retiredAt && id !in q.closed && Holds(q, id)
  {
    var q := After(p, es);
    InitInv(p);
    RunKeepsInv(p, es);
    FilterMembers(q.slots, LiveIn(q.closed));
    var r := Prune(q, LiveIn(q.closed));
    assert r.slots[Choice(r).value] in r.slots;
  }

  // ----- draining never cuts a live request short

  lemma PickSurvives(p: Pool, i: nat)
    requires i < |p.slots| && p.slots[i].id !in p.closed
    ensures Holds(PickNext(p), p.slots[i].id)
  {
    var q := Prune(p, LiveIn(p.closed));
    FilterMembers(p.slots, LiveIn(p.closed));
    assert p.slots[i] in q.slots;
    var j :| 0 <= j < |q.slots| && q.slots[j] == p.slots[i];
    assert PickNext(p).slots[j] in PickNext(p).slots;
  }

  lemma TickSurvives(p: Pool, seen: nat -> nat, i: nat)
    requires Named(p) && Dated(p) && p.lastTick <= p.now && i < |p.slots|
    requires var id := p.slots[i].id;
      && id !in p.closed && InFlight(p.active, id) > 0
      && (id in TickNext(p, seen).retiredAt ==> p.now < TickNext(p, seen).retiredAt[id] + p.cfg.drainTimeout)
    ensures Holds(TickNext(p, seen), p.slots[i].id)
  {
    var q := RetireAll(p, seen);
    RetireDates(p, seen);
    FilterMembers(q.slots, KeepIn(q.active, q.closed, q.now));
    assert q.slots[i] in q.slots && DatedSlot(q.slots[i], q.retiredAt, q.cfg.drainTimeout);
    assert q.slots[i] in TickNext(p, seen).slots;
  }

  lemma StepSurvives(p: Pool, e: Event, id: nat)
    requires Inv(p) && Enabled(p, e) && Holds(p, id)
    requires id !in p.closed && p.leases[id] > 0
    requires var q := Next(p, e); id in q.retiredAt ==> p.now < q.retiredAt[id] + p.cfg.drainTimeout
    ensures Holds(Next(p, e), id)
  {
    var i :| 0 <= i < |p.slots| && p.slots[i].id == id;
    match e
    case Pick => PickSurvives(p, i);
    case Tick(seen) => TickSurvives(p, seen, i);
    case _ => assert p.slots[i] in Next(p, e).slots;
  }

  /** A lease on `id` is out in every state of the run before the last. */
  ghost predicate LeasedThroughout(p: Pool, es: seq<Event>, id: nat)
    requires Runs(p, es)
    decreases |es|
  {
    es == [] || (p.leases[id] > 0 && LeasedThroughout(Next(p, es[0]), es[1..], id))
  }

  lemma {:induction false} SurvivesToDeadline(p: Pool, es: seq<Event>, id: nat)
    requires Inv(p) && Runs(p, es) && Holds(p, id) && LeasedThroughout(p, es, id)
    requires id !in After(p, es).closed
    requires var q := After(p, es); id in q.retiredAt ==> q.now < q.retiredAt[id] + q.cfg.drainTimeout
    ensures Holds(After(p, es), id)
    decreases |es|
  {
    if es != [] {
      RunGrows(p, es);
      StepGrows(p, es[0]);
      StepKeepsInv(p, es[0]);
      RunGrows(Next(p, es[0]), es[1..]);
      StepSurvives(p, es[0], id);
      SurvivesToDeadline(Next(p, es[0]), es[1..], id);
    }
  }

  /** The event is a tick at or past the deadline it leaves on `id`. */
  ghost predicate OverdueAt(p: Pool, e: Event, id: nat)
    requires Enabled(p, e)
  {
    e.Tick? && id in Next(p, e).retiredAt && p.now >= Next(p, e).retiredAt[id] + p.cfg.drainTimeout
  }

  lemma OverdueReaped(p: Pool, seen: nat -> nat, id: nat)
    requires Named(p) && Dated(p) && p.lastTick <= p.now && Enabled(p, Tick(seen)) && OverdueAt(p, Tick(seen), id)
    ensures !Holds(TickNext(p, seen), id)
  {
    var q := RetireAll(p, seen);
    RetireDates(p, seen);
    FilterMembers(q.slots, KeepIn(q.active, q.closed, q.now));
    assert forall s :: s in q.slots ==> DatedSlot(s, q.retiredAt, q.cfg.drainTimeout);
  }

  /** A step removes a leased live circuit exactly when it is a tick at or past the circuit's deadline. */
  lemma StepReapsIff(p: Pool, e: Event, id: nat)
    requires Inv(p) && Enabled(p, e) && Holds(p, id) && id !in p.closed && p.leases[id] > 0
    ensures Holds(Next(p, e), id) <==> !OverdueAt(p, e, id)
  {
    var i :| 0 <= i < |p.slots| && p.slots[i].id == id;
    match e
    case Pick => PickSurvives(p, i);
    case Tick(seen) =>
      if OverdueAt(p, e, id) {
        OverdueReaped(p, seen, id);
      } else {
        TickSurvives(p, seen, i);
      }
    case _ => assert p.slots[i] in Next(p, e).slots;
  }

  /** Built once, and neither held nor on its way into the pool. */
  ghost predicate Departed(p: Pool, id: nat) {
    id < p.built && !Holds(p, id) && !(p.phase.Carrying? && p.phase.slot.id == id)
  }

  /** Every slot of `b` has the identity of one of `a`. */
  ghost predicate NoNewcomer(a: seq<Slot>, b: seq<Slot>) {
    forall t :: t in b ==> exists s :: s in a && s.id == t.id
  }

  lemma PickBringsNone(p: Pool)
    ensures NoNewcomer(p.slots, PickNext(p).slots)
  {
    var q := Prune(p, LiveIn(p.closed));
    FilterMembers(p.slots, LiveIn(p.closed));
    if Choice(q).Some? {
      var s := q.slots[Choice(q).value];
      assert s in q.slots;
      assert forall t :: t in PickNext(p).slots ==> t in q.slots || t.id == s.id;
    }
  }

  lemma TickBringsNone(p: Pool, seen: nat -> nat)
    ensures NoNewcomer(p.slots, TickNext(p, seen).slots)
  {
    var q := RetireAll(p, seen);
    FilterMembers(q.slots, KeepIn(q.active, q.closed, q.now));
    forall t | t in TickNext(p, seen).slots
      ensures exists s :: s in p.slots && s.id == t.id
    {
      var i :| 0 <= i < |q.slots| && q.slots[i] == t;
      assert p.slots[i] in p.slots && p.slots[i].id == t.id;
    }
  }

  lemma StepDeparted(p: Pool, e: Event, id: nat)
    requires Departed(p, id) && Enabled(p, e)
    ensures Departed(Next(p, e), id)
  {
    match e
    case Pick => PickBringsNone(p);
    case Tick(seen) => TickBringsNone(p, seen);
    case _ =>
  }

  lemma {:induction false} DepartedForGood(p: Pool, es: seq<Event>, id: nat)
    requires Departed(p, id) && Runs(p, es)
    ensures !Holds(After(p, es), id)
    decreases |es|
  {
    if es != [] {
      StepDeparted(p, es[0], id);
      DepartedForGood(Next(p, es[0]), es[1..], id);
    }
  }

  ghost predicate Overdue(p: Pool, es: seq<Event>, id: nat)
    requires Runs(p, es)
    decreases |es|
  {
    es != [] && (OverdueAt(p, es[0], id) || Overdue(Next(p, es[0]), es[1..], id))
  }

  lemma ReapedDeparts(p: Pool, e: Event, id: nat)
    requires Inv(p) && Enabled(p, e) && Holds(p, id) && OverdueAt(p, e, id) && !Holds(Next(p, e), id)
    ensures Departed(Next(p, e), id)
  {
    var s :| s in p.slots && s.id == id;
  }

  lemma {:induction false} ReapedIff(p: Pool, es: seq<Event>, id: nat)
    requires Inv(p) && Runs(p, es) && Holds(p, id) && LeasedThroughout(p, es, id) && id !in After(p, es).closed
    ensures !Holds(After(p, es), id) <==> Overdue(p, es, id)
    decreases |es|
  {
    if es != [] {
      var q := Next(p, es[0]);
      RunGrows(p, es);
      StepReapsIff(p, es[0], id);
      if Holds(q, id) {
        StepKeepsInv(p, es[0]);
        ReapedIff(q, es[1..], id);
      } else {
        ReapedDeparts(p, es[0], id);
        DepartedForGood(q, es[1..], id);
      }
    }
  }

  /** A circuit leased all along and never closed is gone at the end of a run exactly when some tick of the run came at or
      past its deadline, `drain_timeout` after the tick that retired it; so it survives a run that ends before then. */
  lemma LeasedCircuitSurvives(p: Pool, es: seq<Event>, id: nat)
    requires Inv(p) && Runs(p, es) && Holds(p, id) && LeasedThroughout(p, es, id) && id !in After(p, es).closed
    ensures !Holds(After(p, es), id) <==> Overdue(p, es, id)
    ensures var q := After(p, es);
      (id in q.retiredAt ==> q.now < q.retiredAt[id] + q.cfg.drainTimeout) ==> Holds(q, id)
  {
    var q := After(p, es);
    ReapedIff(p, es, id);
    if id in q.retiredAt ==> q.now < q.retiredAt[id] + q.cfg.drainTimeout {
      SurvivesToDeadline(p, es, id);
    }
  }

  /** Every slot that ever left did so for a stated reason, at a stated time. */
  lemma RemovalsJustified(p: Pool, es: seq<Event>, r: Removal)
    requires Init(p) && Runs(p, es) && r in After(p, es).removed
    ensures MayGo(After(p, es), r)
  {
    InitInv(p);
    RunKeepsInv(p, es);
  }

  // ----- memory

  lemma DrainingBound(p: Pool)
    requires Clocked(p) && Banded(p) && p.cfg.tick > 0
    ensures Count(p.slots, Not(Undrained())) <= CeilDiv(p.cfg.drainTimeout, p.cfg.tick) * p.cfg.target
  {
    var k := CeilDiv(p.cfg.drainTimeout, p.cfg.tick);
    assert Band(p, k);
    CountPointwise(p.slots, p.slots, Not(Undrained()), DueAfter(p.lastTick + p.cfg.drainTimeout - k * p.cfg.tick));
  }

  /** Ready circuits never exceed `target`; all slots held never exceed
      `target * (2 + ceil(drain_timeout / tick))`. */
  lemma MemoryBound(p: Pool, es: seq<Event>)
    requires Init(p) && Runs(p, es)
    ensures var q := After(p, es);
      && ReadyCount(q) <= q.cfg.target
      && (q.cfg.tick > 0 ==> |q.slots| <= q.cfg.target * (2 + CeilDiv(q.cfg.drainTimeout, q.cfg.tick)))
  {
    InitInv(p);
    RunKeepsInv(p, es);
    var q := After(p, es);
    if q.cfg.tick > 0 {
      DrainingBound(q);
      CountAtMostLength(q.slots, Undrained());
      assert forall k: nat, n: nat :: n * (2 + k) == 2 * n + k * n;
    }
  }

  // ----- accounting

  /** Whatever stretch of a run is looked at, each refill finished in it adds at most one build error. */
  lemma {:induction false} OneErrorPerRefill(p: Pool, es: seq<Event>)
    requires Runs(p, es)
    ensures p.refills <= After(p, es).refills && p.buildErrors <= After(p, es).buildErrors
    ensures After(p, es).buildErrors - p.buildErrors <= After(p, es).refills - p.refills
    decreases |es|
  {
    if es != [] {
      OneErrorPerRefill(Next(p, es[0]), es[1..]);
    }
  }

  /** `built` splits into held, removed and at most one in transit; `retired` counts the circuits ever given a deadline;
      and over any further stretch of the run each refill adds at most one build error. */
  lemma AccountsBalance(p: Pool, es: seq<Event>, more: seq<Event>)
    requires Init(p) && Runs(p, es) && Runs(After(p, es), more)
    ensures var q := After(p, es);
      && q.built == |q.slots| + |q.removed| + InTransit(q)
      && InTransit(q) <= 1
      && q.retired == |q.retiredAt|
      && (forall s :: s in q.slots ==> (s.draining.Some? <==> s.id in q.retiredAt))
    ensures var q, r := After(p, es), After(After(p, es), more);
      0 <= r.buildErrors - q.buildErrors <= r.refills - q.refills
  {
    InitInv(p);
    RunKeepsInv(p, es);
    var q := After(p, es);
    assert forall s :: s in q.slots ==> DatedSlot(s, q.retiredAt, q.cfg.drainTimeout);
    OneErrorPerRefill(q, more);
  }

  // ----- self-healing

  ghost predicate Quiet(es: seq<Event>) {
    forall e :: e in es ==> !e.PeerClose?
  }

  /** A refill under way covers the whole shortfall. */
  ghost predicate OnCourse(p: Pool) {
    p.phase.Building? || p.phase.Carrying? ==>
      p.phase.left > 0 && ReadyCount(p) + p.phase.left == p.cfg.target
      && (p.phase.Carrying? ==> p.phase.slot.id !in p.closed)
  }

  /** Since `errors0` errors and `refills0` refills: either every refill since has failed, or the pool is full. */
  ghost predicate Healing(p: Pool, errors0: nat, refills0: nat) {
    && OnCourse(p)
    && (p.phase.Counting? || p.phase.Asleep? ==>
          p.refills - refills0 <= p.buildErrors - errors0 || ReadyCount(p) == p.cfg.target)
    && (p.phase.Building? || p.phase.Carrying? ==> p.refills - refills0 <= p.buildErrors - errors0)
  }

  lemma {:induction false} QuietTickKeeps(p: Pool, seen: nat -> nat)
    requires Inv(p) && Enabled(p, Tick(seen)) && TickNext(p, seen).retired == p.retired
    ensures ReadyCount(TickNext(p, seen)) == ReadyCount(p)
  {
    var due := Due(p.cfg, seen);
    var q := RetireAll(p, seen);
    CountZero(p.slots, due);
    assert q.slots == p.slots by {
      assert forall i :: 0 <= i < |p.slots| ==> p.slots[i] in p.slots && q.slots[i] == p.slots[i];
    }
    CountFilter(q.slots, KeepIn(q.active, q.closed, q.now), ReadyIn(q.closed));
  }

  lemma {:induction false} CountZero<T>(s: seq<T>, p: T -> bool)
    requires Count(s, p) == 0
    ensures forall x :: x in s ==> !p(x)
  {
    if s != [] {
      CountZero(s[1..], p);
      assert s == [s[0]] + s[1..];
    }
  }

  lemma PickKeepsReady(p: Pool)
    ensures ReadyCount(PickNext(p)) == ReadyCount(p)
  {
    var q := Prune(p, LiveIn(p.closed));
    CountFilter(p.slots, LiveIn(p.closed), ReadyIn(p.closed));
    if Choice(q).Some? {
      var i := Choice(q).value;
      CountUpdate(q.slots, i, q.slots[i].(uses := q.slots[i].uses + 1), ReadyIn(q.closed));
    }
  }

  lemma StepHeals(p: Pool, e: Event, errors0: nat, refills0: nat)
    requires Inv(p) && Enabled(p, e) && !e.PeerClose? && Next(p, e).retired == p.retired
    requires Healing(p, errors0, refills0)
    ensures Healing(Next(p, e), errors0, refills0)
  {
    match e
    case Pick => PickKeepsReady(p);
    case Tick(seen) => QuietTickKeeps(p, seen);
    case Push => CountAppend(p.slots, [p.phase.slot], ReadyIn(p.closed));
    case _ =>
  }

  lemma {:induction false} RunHeals(p: Pool, es: seq<Event>, errors0: nat, refills0: nat)
    requires Inv(p) && Runs(p, es) && Quiet(es) && After(p, es).retired == p.retired
    requires Healing(p, errors0, refills0)
    ensures Healing(After(p, es), errors0, refills0)
    decreases |es|
  {
    if es != [] {
      var q := Next(p, es[0]);
      StepKeepsInv(p, es[0]);
      RetiredGrows(q, es[1..]);
      StepHeals(p, es[0], errors0, refills0);
      RunHeals(q, es[1..], errors0, refills0);
    }
  }

  lemma {:induction false} RetiredGrows(p: Pool, es: seq<Event>)
    requires Runs(p, es)
    ensures p.retired <= After(p, es).retired
    decreases |es|
  {
    if es != [] {
      RetiredGrows(Next(p, es[0]), es[1..]);
    }
  }

  /** Quiet healing: from any reachable state between refills, if no peer closes, nothing is retired and at
      most `failures` builds fail, then once `failures + 1` refills have finished the pool is full, and stays so. */
  lemma SelfHeals(start: Pool, before: seq<Event>, es: seq<Event>, failures: nat)
    requires Init(start) && Runs(start, before)
    requires var p := After(start, before);
      && (p.phase.Asleep? || p.phase.Counting?) && Runs(p, es) && Quiet(es)
      && After(p, es).retired == p.retired
      && After(p, es).buildErrors <= p.buildErrors + failures
      && After(p, es).refills > p.refills + failures
    ensures var q := After(After(start, before), es); ReadyCount(q) == q.cfg.target
  {
    var p := After(start, before);
    InitInv(start);
    RunKeepsInv(start, before);
    RunHeals(p, es, p.buildErrors, p.refills);
  }
}
