/** Which circuits a tick retires and which it reaps, in terms of what the run did to them. */
module PoolRetirement {
  import opened Sequences
  import opened PoolModel
  import opened PoolSafety
  import opened PoolTheorems

  // ----- one tick

  /** Old enough, on the clock reading `read`, or used often enough to be retired. */
  ghost predicate Spent(cfg: Config, born: nat, uses: nat, read: nat) {
    || (cfg.maxAge.Some? && born + cfg.maxAge.value <= read)
    || (cfg.maxUses.Some? && cfg.maxUses.value <= uses)
  }

  lemma LoggedIff(log: map<nat, nat>, slots: seq<Slot>, due: Slot -> bool, now: nat, i: nat)
    requires Distinct(slots) && i < |slots| && slots[i].id !in log
    requires forall s :: s in slots && due(s) ==> s.id !in log
    ensures slots[i].id in Logged(log, slots, due, now) <==> due(slots[i])
  {
    LoggedFacts(log, slots, due, now);
    assert slots[i] in slots;
  }

  /** A tick retires exactly the undrained circuits that are spent. */
  lemma TickRetiresIff(p: Pool, seen: nat -> nat, s: Slot)
    requires Inv(p) && Enabled(p, Tick(seen)) && s in p.slots && s.draining.None?
    ensures s.id in Next(p, Tick(seen)).retiredAt <==> Spent(p.cfg, s.born, s.uses, seen(s.id))
  {
    var i :| 0 <= i < |p.slots| && p.slots[i] == s;
    assert forall t :: t in p.slots ==> DatedSlot(t, p.retiredAt, p.cfg.drainTimeout);
    LoggedIff(p.retiredAt, p.slots, Due(p.cfg, seen), p.now, i);
  }

  /** Nothing else enters the retirement log. */
  lemma RetiredWasHeld(p: Pool, seen: nat -> nat, id: nat)
    requires Inv(p) && Enabled(p, Tick(seen)) && id in Next(p, Tick(seen)).retiredAt && id !in p.retiredAt
    ensures exists s :: s in p.slots && s.id == id && s.draining.None?
  {
    assert forall t :: t in p.slots ==> DatedSlot(t, p.retiredAt, p.cfg.drainTimeout);
    LoggedFacts(p.retiredAt, p.slots, Due(p.cfg, seen), p.now);
  }

  lemma KeptIff(q: Pool, i: nat)
    requires Distinct(q.slots) && i < |q.slots|
    ensures Holds(Prune(q, KeepIn(q.active, q.closed, q.now)), q.slots[i].id) <==> KeepIn(q.active, q.closed, q.now)(q.slots[i])
  {
    FilterMembers(q.slots, KeepIn(q.active, q.closed, q.now));
    assert q.slots[i] in q.slots;
  }

  /** The reaping test, by the retirement log. */
  lemma KeepMeans(q: Pool, s: Slot)
    requires DatedSlot(s, q.retiredAt, q.cfg.drainTimeout)
    ensures KeepIn(q.active, q.closed, q.now)(s) <==>
      s.id !in q.closed && (s.id in q.retiredAt ==> InFlight(q.active, s.id) > 0 && q.now < q.retiredAt[s.id] + q.cfg.drainTimeout)
  {
  }

  lemma MarkedSlot(p: Pool, seen: nat -> nat, i: nat)
    requires Named(p) && Dated(p) && p.lastTick <= p.now && i < |p.slots|
    ensures var q := RetireAll(p, seen);
      && Distinct(q.slots) && |q.slots| == |p.slots| && q.slots[i].id == p.slots[i].id
      && DatedSlot(q.slots[i], q.retiredAt, q.cfg.drainTimeout)
  {
    var q := RetireAll(p, seen);
    RetireDates(p, seen);
    assert q.slots[i] in q.slots;
    assert forall j :: 0 <= j < |q.slots| ==> q.slots[j].id == p.slots[j].id;
  }

  lemma SlotKeptIff(p: Pool, seen: nat -> nat, i: nat)
    requires Named(p) && Dated(p) && p.lastTick <= p.now && i < |p.slots|
    ensures var q, id := RetireAll(p, seen), p.slots[i].id;
      Holds(TickNext(p, seen), id) <==>
        id !in p.closed && (id in q.retiredAt ==> InFlight(p.active, id) > 0 && p.now < q.retiredAt[id] + p.cfg.drainTimeout)
  {
    var q := RetireAll(p, seen);
    MarkedSlot(p, seen, i);
    KeptIff(q, i);
    KeepMeans(q, q.slots[i]);
  }

  /** A tick keeps a circuit exactly when its connection is open and it is not retired, or is retired with a lease out and
      its deadline, `drain_timeout` after its retirement, still to come. */
  lemma TickKeepsIff(p: Pool, seen: nat -> nat, id: nat)
    requires Inv(p) && Enabled(p, Tick(seen)) && Holds(p, id)
    ensures var q := Next(p, Tick(seen));
      Holds(q, id) <==>
        id !in p.closed && (id in q.retiredAt ==> p.leases[id] > 0 && p.now < q.retiredAt[id] + p.cfg.drainTimeout)
  {
    var i :| 0 <= i < |p.slots| && p.slots[i].id == id;
    SlotKeptIff(p, seen, i);
  }

  // ----- what the run did to a circuit

  /** The event is a pick that leases `id`. */
  ghost predicate Grants(p: Pool, e: Event, id: nat)
    requires Enabled(p, e)
  {
    e.Pick? && Next(p, e).leases[id] > p.leases[id]
  }

  /** How many picks of the run leased `id`. */
  ghost function GrantCount(p: Pool, es: seq<Event>, id: nat): nat
    requires Runs(p, es)
    decreases |es|
  {
    if es == [] then 0
    else (if Grants(p, es[0], id) then 1 else 0) + GrantCount(Next(p, es[0]), es[1..], id)
  }

  /** The clock when the run built `id`, or `none` if it did not. */
  ghost function BuiltAt(p: Pool, es: seq<Event>, id: nat, none: nat): nat
    requires Runs(p, es)
    decreases |es|
  {
    if es == [] then none
    else BuiltAt(Next(p, es[0]), es[1..], id, if es[0] == Build(true) && p.built == id then p.now else none)
  }

  ghost predicate SlotIs(s: Slot, id: nat, uses: nat, born: nat) {
    s.id == id ==> s.uses == uses && s.born == born
  }

  /** Wherever the pool has `id`, it was born then and used so often; what is not built yet was not used. */
  ghost predicate Tracked(p: Pool, id: nat, uses: nat, born: nat) {
    && (forall s :: s in p.slots ==> SlotIs(s, id, uses, born))
    && (p.phase.Carrying? ==> SlotIs(p.phase.slot, id, uses, born))
    && (p.phase.Carrying? && p.phase.slot.id == id ==> uses == 0)
    && (p.built <= id ==> uses == 0)
  }

  lemma GrantTracked(p: Pool, i: nat, id: nat, uses: nat, born: nat)
    requires Named(p) && Tracked(p, id, uses, born) && i < |p.slots|
    ensures Grant(p, i).leases[id] > p.leases[id] <==> p.slots[i].id == id
    ensures Tracked(Grant(p, i), id, if p.slots[i].id == id then uses + 1 else uses, born)
  {
    var q := Grant(p, i);
    assert p.slots[i] in p.slots;
    forall t | t in q.slots
      ensures SlotIs(t, id, if p.slots[i].id == id then uses + 1 else uses, born)
    {
      var j :| 0 <= j < |q.slots| && q.slots[j] == t;
      assert p.slots[j] in p.slots;
    }
  }

  lemma PruneTracked(p: Pool, keep: Slot -> bool, id: nat, uses: nat, born: nat)
    requires Named(p) && Tracked(p, id, uses, born)
    ensures Named(Prune(p, keep)) && Tracked(Prune(p, keep), id, uses, born)
  {
    FilterMembers(p.slots, keep);
    FilterDistinct(p.slots, keep);
  }

  lemma PickTracked(p: Pool, id: nat, uses: nat, born: nat)
    requires Named(p) && Tracked(p, id, uses, born)
    ensures Tracked(PickNext(p), id, if PickNext(p).leases[id] > p.leases[id] then uses + 1 else uses, born)
  {
    var q := Prune(p, LiveIn(p.closed));
    PruneTracked(p, LiveIn(p.closed), id, uses, born);
    if Choice(q).Some? {
      GrantTracked(q, Choice(q).value, id, uses, born);
    }
  }

  lemma TickTracked(p: Pool, seen: nat -> nat, id: nat, uses: nat, born: nat)
    requires Named(p) && Tracked(p, id, uses, born) && p.phase.Asleep?
    ensures Tracked(TickNext(p, seen), id, uses, born)
  {
    var q := RetireAll(p, seen);
    FilterMembers(q.slots, KeepIn(q.active, q.closed, q.now));
    forall t | t in q.slots
      ensures SlotIs(t, id, uses, born)
    {
      var j :| 0 <= j < |q.slots| && q.slots[j] == t;
      assert p.slots[j] in p.slots;
    }
  }

  lemma StepTracked(p: Pool, e: Event, id: nat, uses: nat, born: nat)
    requires Named(p) && Tracked(p, id, uses, born) && Enabled(p, e)
    ensures Tracked(Next(p, e), id, if Grants(p, e, id) then uses + 1 else uses,
                    if e == Build(true) && p.built == id then p.now else born)
  {
    match e
    case Pick => PickTracked(p, id, uses, born);
    case Tick(seen) => TickTracked(p, seen, id, uses, born);
    case _ =>
  }

  lemma {:induction false} RunTracked(inv: Pool -> bool, p: Pool, es: seq<Event>, id: nat, uses: nat, born: nat)
    requires Names(inv) && inv(p) && Runs(p, es) && Tracked(p, id, uses, born)
    ensures Tracked(After(p, es), id, uses + GrantCount(p, es, id), BuiltAt(p, es, id, born))
    decreases |es|
  {
    if es != [] {
      var q := Next(p, es[0]);
      assert Step(p, es[0], q);
      StepTracked(p, es[0], id, uses, born);
      RunTracked(inv, q, es[1..], id, if Grants(p, es[0], id) then uses + 1 else uses,
                 if es[0] == Build(true) && p.built == id then p.now else born);
    }
  }

  /** In every run a tick retires an undrained circuit exactly when `max_age` has passed since the run built it, or the
      run has leased it `max_uses` times. */
  lemma RetiredExactlyWhenSpent(start: Pool, es: seq<Event>, seen: nat -> nat, s: Slot)
    requires Init(start) && Runs(start, es) && Enabled(After(start, es), Tick(seen))
    requires s in After(start, es).slots && s.draining.None?
    ensures var q := After(start, es);
      s.id in Next(q, Tick(seen)).retiredAt <==>
        Spent(q.cfg, BuiltAt(start, es, s.id, 0), GrantCount(start, es, s.id), seen(s.id))
  {
    InitInv(start);
    RunKeepsInv(start, es);
    InvNames();
    RunTracked(Inv, start, es, s.id, 0, 0);
    TickRetiresIff(After(start, es), seen, s);
  }

  /** Whatever ends a refill, the maintainer sleeps for exactly one tick, and a circuit is tested no sooner. */
  lemma SleepsOneTick(p: Pool, e: Event)
    requires Enabled(p, e)
    ensures Next(p, e).phase.Asleep? && !p.phase.Asleep? ==> Next(p, e).phase.wake == p.now + p.cfg.tick
    ensures p.phase.Asleep? && !Next(p, e).phase.Asleep? ==> e.Tick? && p.phase.wake <= p.now
    ensures p.phase.Asleep? && Next(p, e).phase.Asleep? ==> Next(p, e).phase == p.phase
  {
  }
}
