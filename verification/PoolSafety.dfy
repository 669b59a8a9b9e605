/** What every interleaving of the warm pool keeps: lease counts, drain deadlines, the removal
    log, the accounting of the counters, and the memory bound. */
module PoolSafety {
  import opened Sequences
  import opened PoolModel
  import opened Arithmetic

  // ----- the invariant, clause by clause

  ghost predicate Distinct(slots: seq<Slot>) {
    forall i, j :: 0 <= i < j < |slots| ==> slots[i].id != slots[j].id
  }

  ghost predicate Named(p: Pool) {
    && Distinct(p.slots)
    && (forall s :: s in p.slots ==> s.id < p.built)
    && (forall id :: id in p.closed ==> id < p.built)
    && (p.phase.Carrying? ==>
          && p.phase.left > 0 && p.phase.slot.id < p.built
          && p.phase.slot.draining.None? && p.phase.slot.id !in p.retiredAt
          && forall s :: s in p.slots ==> s.id != p.phase.slot.id)
  }

  ghost predicate Leased(p: Pool) {
    && (forall id: nat :: id in p.active <==> id < p.built)
    && (forall id: nat :: p.leases[id] == InFlight(p.active, id))
  }

  /** A slot is draining exactly when the log has it, until `drain` after its retirement. */
  ghost predicate DatedSlot(s: Slot, log: map<nat, nat>, drain: nat) {
    if s.draining.None? then s.id !in log else s.id in log && s.draining.value == log[s.id] + drain
  }

  ghost predicate DatedBy(slots: seq<Slot>, log: map<nat, nat>, drain: nat, built: nat, lastTick: nat, retired: nat) {
    && (forall s :: s in slots ==> DatedSlot(s, log, drain))
    && (forall id :: id in log ==> id < built && log[id] <= lastTick)
    && |log| == retired
  }

  ghost predicate Dated(p: Pool) {
    DatedBy(p.slots, p.retiredAt, p.cfg.drainTimeout, p.built, p.lastTick, p.retired)
  }

  /** Why a slot may leave: its connection closed, or it was retired and either nothing was in flight
      or its deadline, `drain_timeout` after the tick that retired it, had come. */
  ghost predicate MayGo(p: Pool, r: Removal) {
    || r.closed
    || (&& r.deadline.Some? && r.id in p.retiredAt
        && r.deadline.value == p.retiredAt[r.id] + p.cfg.drainTimeout
        && (r.leases == 0 || r.at >= r.deadline.value))
  }

  ghost predicate Justified(p: Pool) {
    forall r :: r in p.removed ==> MayGo(p, r)
  }

  function InTransit(p: Pool): nat {
    if p.phase.Carrying? then 1 else 0
  }

  ghost predicate Balanced(p: Pool) {
    && p.built == |p.slots| + |p.removed| + InTransit(p)
    && p.buildErrors <= p.refills
  }

  function Pending(phase: Phase): nat {
    match phase
    case Building(left) => left
    case Carrying(_, left) => left
    case _ => 0
  }

  /** Draining with a deadline after `bound`. */
  function DueAfter(bound: int): Slot -> bool {
    (s: Slot) => s.draining.Some? && s.draining.value > bound
  }

  ghost predicate Clocked(p: Pool) {
    && p.lastTick <= p.now
    && (p.phase.Asleep? ==> p.lastTick + p.cfg.tick <= p.phase.wake)
    && (forall s :: s in p.slots && s.draining.Some? ==> s.draining.value > p.lastTick)
  }

  /** The draining slots, banded by deadline: at most `target` retired by each of the last `k` ticks. */
  ghost predicate Band(p: Pool, k: nat) {
    Count(p.slots, DueAfter(p.lastTick + p.cfg.drainTimeout - k * p.cfg.tick)) <= k * p.cfg.target
  }

  ghost predicate Banded(p: Pool) {
    forall k: nat :: Band(p, k)
  }

  ghost predicate Bounded(p: Pool) {
    && ReadyCount(p) + Pending(p.phase) <= p.cfg.target
    && Count(p.slots, Undrained()) + Pending(p.phase) <= 2 * p.cfg.target
    && (p.phase.Counting? ==> Count(p.slots, Undrained()) <= p.cfg.target)
  }

  ghost predicate Inv(p: Pool) {
    Named(p) && Leased(p) && Dated(p) && Justified(p) && Balanced(p) && Clocked(p) && Banded(p) && Bounded(p)
  }

  // ----- pruning

  lemma {:induction false} FilterDistinct(slots: seq<Slot>, keep: Slot -> bool)
    requires Distinct(slots)
    ensures Distinct(Filter(slots, keep))
  {
    if slots != [] {
      var rest := Filter(slots[1..], keep);
      FilterDistinct(slots[1..], keep);
      FilterMembers(slots[1..], keep);
      forall j | 0 <= j < |rest|
        ensures rest[j].id != slots[0].id
      {
        assert rest[j] in slots[1..];
      }
    }
  }

  lemma PruneLogs(p: Pool, keep: Slot -> bool)
    requires Justified(p)
    requires forall s :: s in p.slots && !keep(s) ==> MayGo(p, RecordOf(p)(s))
    ensures Justified(Prune(p, keep))
  {
    var q := Prune(p, keep);
    var gone := Filter(p.slots, Not(keep));
    FilterMembers(p.slots, Not(keep));
    forall r | r in q.removed
      ensures MayGo(q, r)
    {
      if r !in p.removed {
        var i :| 0 <= i < |gone| && r == RecordOf(p)(gone[i]);
        assert gone[i] in gone;
        assert MayGo(p, r);
      }
    }
  }

  lemma PruneCounts(p: Pool, keep: Slot -> bool)
    requires Banded(p) && Bounded(p) && Balanced(p)
    ensures Banded(Prune(p, keep)) && Bounded(Prune(p, keep)) && Balanced(Prune(p, keep))
    ensures ReadyCount(Prune(p, keep)) <= ReadyCount(p)
    ensures Count(Prune(p, keep).slots, Undrained()) <= Count(p.slots, Undrained())
  {
    var q := Prune(p, keep);
    FilterLength(p.slots, keep);
    CountFilter(p.slots, keep, ReadyIn(p.closed));
    CountFilter(p.slots, keep, Undrained());
    forall k: nat
      ensures Band(q, k)
    {
      assert Band(p, k);
      CountFilter(p.slots, keep, DueAfter(p.lastTick + p.cfg.drainTimeout - k * p.cfg.tick));
    }
  }

  /** Dropping slots that may go keeps the invariant. */
  lemma PruneKeepsInv(p: Pool, keep: Slot -> bool)
    requires Inv(p)
    requires forall s :: s in p.slots && !keep(s) ==> MayGo(p, RecordOf(p)(s))
    ensures Inv(Prune(p, keep))
    ensures Count(Prune(p, keep).slots, Undrained()) <= Count(p.slots, Undrained())
  {
    PruneCounts(p, keep);
    PruneLogs(p, keep);
    FilterDistinct(p.slots, keep);
    FilterMembers(p.slots, keep);
  }

  // ----- the maintainer's tick

  lemma {:induction false} LoggedFacts(log: map<nat, nat>, slots: seq<Slot>, due: Slot -> bool, now: nat)
    requires Distinct(slots)
    requires forall s :: s in slots && due(s) ==> s.id !in log
    ensures var r := Logged(log, slots, due, now);
      && |r| == |log| + Count(slots, due)
      && (forall id :: id in log ==> id in r && r[id] == log[id])
      && (forall s :: s in slots && due(s) ==> s.id in r && r[s.id] == now)
      && (forall id :: id in r && id !in log ==> r[id] == now && exists s :: s in slots && due(s) && s.id == id)
    decreases |slots|
  {
    if slots != [] {
      var log' := if due(slots[0]) then log[slots[0].id := now] else log;
      forall s | s in slots[1..]
        ensures s in slots && s.id != slots[0].id
      {
        var i :| 0 <= i < |slots[1..]| && slots[1..][i] == s;
        assert s == slots[i + 1];
      }
      LoggedFacts(log', slots[1..], due, now);
      assert forall s :: s in slots ==> s == slots[0] || s in slots[1..];
    }
  }

  lemma RetireDate(slots: seq<Slot>, log: map<nat, nat>, due: Slot -> bool, now: nat, drain: nat, i: nat)
    requires Distinct(slots) && i < |slots|
    requires forall s :: s in slots ==> DatedSlot(s, log, drain) && (due(s) ==> s.draining.None?)
    ensures DatedSlot(RetireIf(due, now + drain)(slots[i]), Logged(log, slots, due, now), drain)
  {
    LoggedFacts(log, slots, due, now);
    var s := slots[i];
    assert s in slots;
    if !due(s) && s.draining.None? && s.id in Logged(log, slots, due, now) {
      var t :| t in slots && due(t) && t.id == s.id;
      var j :| 0 <= j < |slots| && slots[j] == t;
      assert false;
    }
  }

  lemma RetireAllDated(slots: seq<Slot>, log: map<nat, nat>, due: Slot -> bool, now: nat, drain: nat)
    requires Distinct(slots)
    requires forall s :: s in slots ==> DatedSlot(s, log, drain) && (due(s) ==> s.draining.None?)
    ensures forall s :: s in Mapped(slots, RetireIf(due, now + drain)) ==> DatedSlot(s, Logged(log, slots, due, now), drain)
  {
    var marked := Mapped(slots, RetireIf(due, now + drain));
    forall s | s in marked
      ensures DatedSlot(s, Logged(log, slots, due, now), drain)
    {
      var i :| 0 <= i < |marked| && marked[i] == s;
      RetireDate(slots, log, due, now, drain, i);
    }
  }

  lemma LogDates(slots: seq<Slot>, log: map<nat, nat>, due: Slot -> bool, drain: nat, built: nat, tick: nat, now: nat, retired: nat)
    requires Distinct(slots) && DatedBy(slots, log, drain, built, tick, retired) && tick <= now
    requires forall s :: s in slots ==> s.id < built && (due(s) ==> s.draining.None?)
    ensures DatedBy(Mapped(slots, RetireIf(due, now + drain)), Logged(log, slots, due, now), drain, built, now, retired + Count(slots, due))
  {
    LoggedFacts(log, slots, due, now);
    RetireAllDated(slots, log, due, now, drain);
  }

  /** The retirement log only grows. */
  ghost predicate LogKept(log: map<nat, nat>, more: map<nat, nat>) {
    forall id :: id in log ==> id in more && more[id] == log[id]
  }

  lemma RetireWhereDates(p: Pool, due: Slot -> bool)
    requires Named(p) && Dated(p) && p.lastTick <= p.now && forall s :: s in p.slots && due(s) ==> s.draining.None?
    ensures Dated(RetireWhere(p, due))
  {
    LogDates(p.slots, p.retiredAt, due, p.cfg.drainTimeout, p.built, p.lastTick, p.now, p.retired);
  }

  lemma RetireWhereLogs(p: Pool, due: Slot -> bool)
    requires Named(p) && Dated(p) && forall s :: s in p.slots && due(s) ==> s.draining.None?
    ensures LogKept(p.retiredAt, RetireWhere(p, due).retiredAt)
  {
    assert forall s :: s in p.slots ==> DatedSlot(s, p.retiredAt, p.cfg.drainTimeout);
    LoggedFacts(p.retiredAt, p.slots, due, p.now);
  }

  lemma RetireDates(p: Pool, seen: nat -> nat)
    requires Named(p) && Dated(p) && p.lastTick <= p.now
    ensures Dated(RetireAll(p, seen)) && LogKept(p.retiredAt, RetireAll(p, seen).retiredAt)
  {
    RetireWhereDates(p, Due(p.cfg, seen));
    RetireWhereLogs(p, Due(p.cfg, seen));
  }

  lemma RetiredLate(p: Pool, seen: nat -> nat, late: int, before: int)
    requires before <= late
    ensures Count(TickNext(p, seen).slots, DueAfter(late)) <= ReadyCount(p) + Count(p.slots, DueAfter(before))
  {
    var q := RetireAll(p, seen);
    CountCover(p.slots, q.slots, KeepIn(q.active, q.closed, q.now), DueAfter(late), ReadyIn(p.closed), DueAfter(before));
  }

  lemma NoneBeyond(p: Pool, seen: nat -> nat)
    requires Dated(p) && p.lastTick <= p.now
    ensures Count(TickNext(p, seen).slots, DueAfter(p.now + p.cfg.drainTimeout)) == 0
  {
    var q := RetireAll(p, seen);
    var late := DueAfter(p.now + p.cfg.drainTimeout);
    forall i | 0 <= i < |q.slots|
      ensures !late(q.slots[i])
    {
      assert DatedSlot(p.slots[i], p.retiredAt, p.cfg.drainTimeout);
    }
    CountNone(q.slots, late);
    CountFilter(q.slots, KeepIn(q.active, q.closed, q.now), late);
  }

  /** Deadlines within `shift` of the latest: what this tick retires, and what had one within `older` before. */
  lemma TickShift(p: Pool, seen: nat -> nat, shift: int, older: int, bound: nat)
    requires p.lastTick + p.cfg.tick <= p.now && ReadyCount(p) <= p.cfg.target && shift <= older + p.cfg.tick
    requires Count(p.slots, DueAfter(p.lastTick + p.cfg.drainTimeout - older)) <= bound
    ensures Count(TickNext(p, seen).slots, DueAfter(p.now + p.cfg.drainTimeout - shift)) <= bound + p.cfg.target
  {
    RetiredLate(p, seen, p.now + p.cfg.drainTimeout - shift, p.lastTick + p.cfg.drainTimeout - older);
  }

  /** Each band gains at most the `target` circuits this tick retires and inherits the next older band. */
  lemma TickBand(p: Pool, seen: nat -> nat, k: nat)
    requires Dated(p) && Banded(p) && p.lastTick + p.cfg.tick <= p.now && ReadyCount(p) <= p.cfg.target
    ensures Band(TickNext(p, seen), k)
  {
    if k == 0 {
      NoneBeyond(p, seen);
    } else {
      assert Band(p, k - 1);
      Distribute(k - 1, 1, p.cfg.tick);
      Distribute(k - 1, 1, p.cfg.target);
      TickShift(p, seen, k * p.cfg.tick, (k - 1) * p.cfg.tick, (k - 1) * p.cfg.target);
    }
  }

  /** After a tick every slot not draining is live, so ready and undrained coincide. */
  lemma TickBounds(p: Pool, seen: nat -> nat)
    requires ReadyCount(p) <= p.cfg.target
    ensures Bounded(TickNext(p, seen))
  {
    var q := RetireAll(p, seen);
    var keep := KeepIn(q.active, q.closed, q.now);
    CountCover(p.slots, q.slots, keep, Undrained(), ReadyIn(p.closed), (s: Slot) => false);
    CountNone(p.slots, (s: Slot) => false);
    CountPointwise(Filter(q.slots, keep), Filter(q.slots, keep), ReadyIn(p.closed), Undrained());
  }

  lemma RetireJustified(p: Pool, seen: nat -> nat)
    requires Named(p) && Dated(p) && Justified(p) && p.lastTick <= p.now
    ensures Justified(RetireAll(p, seen))
  {
    RetireDates(p, seen);
    assert forall r :: r in p.removed && MayGo(p, r) ==> MayGo(RetireAll(p, seen), r);
  }

  /** What the reaping test turns away may go. */
  lemma ReapJustified(q: Pool, s: Slot)
    requires Leased(q) && Dated(q) && s in q.slots && !KeepIn(q.active, q.closed, q.now)(s)
    ensures MayGo(q, RecordOf(q)(s))
  {
    assert DatedSlot(s, q.retiredAt, q.cfg.drainTimeout);
  }

  lemma ReapLogs(q: Pool)
    requires Leased(q) && Dated(q) && Justified(q)
    ensures Justified(Prune(q, KeepIn(q.active, q.closed, q.now)))
  {
    forall s | s in q.slots && !KeepIn(q.active, q.closed, q.now)(s)
      ensures MayGo(q, RecordOf(q)(s))
    {
      ReapJustified(q, s);
    }
    PruneLogs(q, KeepIn(q.active, q.closed, q.now));
  }

  lemma TickLogs(p: Pool, seen: nat -> nat)
    requires Named(p) && Leased(p) && Dated(p) && Justified(p) && p.lastTick <= p.now
    ensures Justified(TickNext(p, seen))
  {
    var q := RetireAll(p, seen);
    RetireDates(p, seen);
    RetireJustified(p, seen);
    ReapLogs(q);
    assert forall r :: MayGo(TickNext(p, seen), r) == MayGo(Prune(q, KeepIn(q.active, q.closed, q.now)), r);
  }

  lemma TickNames(p: Pool, seen: nat -> nat)
    requires Named(p)
    ensures Named(TickNext(p, seen))
  {
    var q := RetireAll(p, seen);
    assert forall i :: 0 <= i < |q.slots| ==> p.slots[i] in p.slots && q.slots[i].id == p.slots[i].id;
    FilterDistinct(q.slots, KeepIn(q.active, q.closed, q.now));
    FilterMembers(q.slots, KeepIn(q.active, q.closed, q.now));
  }

  lemma TickDates(p: Pool, seen: nat -> nat)
    requires Named(p) && Dated(p) && p.lastTick <= p.now && p.phase.Asleep? && Balanced(p)
    ensures Dated(TickNext(p, seen)) && Balanced(TickNext(p, seen)) && Clocked(TickNext(p, seen))
  {
    var q := RetireAll(p, seen);
    RetireDates(p, seen);
    FilterLength(q.slots, KeepIn(q.active, q.closed, q.now));
    FilterMembers(q.slots, KeepIn(q.active, q.closed, q.now));
  }

  lemma TickKeepsInv(p: Pool, seen: nat -> nat)
    requires Inv(p) && Enabled(p, Tick(seen))
    ensures Inv(TickNext(p, seen))
  {
    TickLogs(p, seen);
    TickBounds(p, seen);
    TickNames(p, seen);
    TickDates(p, seen);
    forall k: nat {
      TickBand(p, seen, k);
    }
  }

  // ----- the other events

  /** A use changes neither who a slot is nor whether it drains, so every count stands. */
  lemma GrantCounts(p: Pool, i: nat)
    requires Banded(p) && Bounded(p) && Balanced(p) && i < |p.slots|
    ensures Banded(Grant(p, i)) && Bounded(Grant(p, i)) && Balanced(Grant(p, i))
  {
    var s' := p.slots[i].(uses := p.slots[i].uses + 1);
    CountUpdate(p.slots, i, s', ReadyIn(p.closed));
    CountUpdate(p.slots, i, s', Undrained());
    forall k: nat
      ensures Band(Grant(p, i), k)
    {
      assert Band(p, k);
      CountUpdate(p.slots, i, s', DueAfter(p.lastTick + p.cfg.drainTimeout - k * p.cfg.tick));
    }
  }

  lemma GrantNames(p: Pool, i: nat)
    requires Named(p) && Dated(p) && Clocked(p) && i < |p.slots|
    ensures Named(Grant(p, i)) && Dated(Grant(p, i)) && Clocked(Grant(p, i))
  {
    assert p.slots[i] in p.slots;
    var s' := p.slots[i].(uses := p.slots[i].uses + 1);
    assert forall x :: x in Grant(p, i).slots ==> x in p.slots || x == s';
    assert DatedSlot(p.slots[i], p.retiredAt, p.cfg.drainTimeout);
  }

  lemma GrantKeepsInv(p: Pool, i: nat)
    requires Inv(p) && i < |p.slots|
    ensures Inv(Grant(p, i))
  {
    GrantCounts(p, i);
    GrantNames(p, i);
    assert p.slots[i] in p.slots;
    assert forall r :: MayGo(Grant(p, i), r) == MayGo(p, r);
  }

  lemma PickKeepsInv(p: Pool)
    requires Inv(p)
    ensures Inv(PickNext(p))
  {
    var q := Prune(p, LiveIn(p.closed));
    PruneKeepsInv(p, LiveIn(p.closed));
    if Choice(q).Some? {
      GrantKeepsInv(q, Choice(q).value);
    }
  }

  lemma SameSlots(p: Pool, q: Pool)
    requires Banded(p) && q.slots == p.slots && q.cfg == p.cfg && q.lastTick == p.lastTick
    ensures Banded(q)
  {
    forall k: nat
      ensures Band(q, k)
    {
      assert Band(p, k);
    }
  }

  lemma CloseKeepsInv(p: Pool, id: nat)
    requires Inv(p) && id < p.built
    ensures Inv(p.(closed := p.closed + {id}))
  {
    CountPointwise(p.slots, p.slots, ReadyIn(p.closed + {id}), ReadyIn(p.closed));
    SameSlots(p, p.(closed := p.closed + {id}));
    assert forall r :: MayGo(p.(closed := p.closed + {id}), r) == MayGo(p, r);
  }

  lemma BuildKeepsInv(p: Pool, ok: bool)
    requires Inv(p) && Enabled(p, Build(ok))
    ensures Inv(Next(p, Build(ok)))
  {
    var q := Next(p, Build(ok));
    SameSlots(p, q);
    assert forall r :: MayGo(q, r) == MayGo(p, r);
  }

  lemma PushCounts(p: Pool)
    requires Banded(p) && Bounded(p) && Balanced(p) && Enabled(p, Push) && p.phase.slot.draining.None?
    ensures Banded(Next(p, Push)) && Bounded(Next(p, Push)) && Balanced(Next(p, Push))
  {
    var q := Next(p, Push);
    CountAppend(p.slots, [p.phase.slot], ReadyIn(p.closed));
    CountAppend(p.slots, [p.phase.slot], Undrained());
    forall k: nat
      ensures Band(q, k)
    {
      assert Band(p, k);
      CountAppend(p.slots, [p.phase.slot], DueAfter(p.lastTick + p.cfg.drainTimeout - k * p.cfg.tick));
    }
  }

  lemma PushNames(p: Pool)
    requires Named(p) && Dated(p) && Clocked(p) && Enabled(p, Push)
    ensures Named(Next(p, Push)) && Dated(Next(p, Push)) && Clocked(Next(p, Push))
  {
    assert forall s :: s in Next(p, Push).slots ==> s in p.slots || s == p.phase.slot;
  }

  lemma PushKeepsInv(p: Pool)
    requires Inv(p) && Enabled(p, Push)
    ensures Inv(Next(p, Push))
  {
    PushCounts(p);
    PushNames(p);
    assert forall r :: MayGo(Next(p, Push), r) == MayGo(p, r);
  }

  lemma CountKeepsInv(p: Pool)
    requires Inv(p) && Enabled(p, CountReady)
    ensures Inv(Next(p, CountReady))
  {
    var q := Next(p, CountReady);
    SameSlots(p, q);
    assert forall r :: MayGo(q, r) == MayGo(p, r);
  }

  lemma AdvanceKeepsInv(p: Pool, elapsed: nat)
    requires Inv(p)
    ensures Inv(p.(now := p.now + elapsed))
  {
    var q := p.(now := p.now + elapsed);
    SameSlots(p, q);
    assert forall r :: MayGo(q, r) == MayGo(p, r);
  }

  lemma DropKeepsInv(p: Pool, id: nat)
    requires Inv(p) && Enabled(p, DropLease(id))
    ensures Inv(Next(p, DropLease(id)))
  {
    var q := Next(p, DropLease(id));
    SameSlots(p, q);
    assert forall r :: MayGo(q, r) == MayGo(p, r);
  }

  lemma StepKeepsInv(p: Pool, e: Event)
    requires Inv(p) && Enabled(p, e)
    ensures Inv(Next(p, e))
  {
    match e
    case Pick => PickKeepsInv(p);
    case PeerClose(id) => CloseKeepsInv(p, id);
    case Tick(seen) => TickKeepsInv(p, seen);
    case Build(ok) => BuildKeepsInv(p, ok);
    case Push => PushKeepsInv(p);
    case CountReady => CountKeepsInv(p);
    case Advance(elapsed) => AdvanceKeepsInv(p, elapsed);
    case DropLease(id) => DropKeepsInv(p, id);
  }

  lemma {:induction false} RunKeepsInv(p: Pool, es: seq<Event>)
    requires Inv(p) && Runs(p, es)
    ensures Inv(After(p, es))
    decreases |es|
  {
    if es != [] {
      StepKeepsInv(p, es[0]);
      RunKeepsInv(Next(p, es[0]), es[1..]);
    }
  }

  lemma InitInv(p: Pool)
    requires Init(p)
    ensures Inv(p)
  {
    forall k: nat
      ensures Band(p, k)
    {
    }
  }

  /** An invariant under which slots are told apart. */
  ghost predicate Names(inv: Pool -> bool) {
    && (forall p: Pool :: inv(p) ==> Named(p))
    && (forall p: Pool, e: Event, q: Pool :: inv(p) && Step(p, e, q) ==> inv(q))
  }

  lemma InvNames()
    ensures Names(Inv)
  {
    forall p: Pool, e: Event, q: Pool | Inv(p) && Step(p, e, q)
      ensures Inv(q)
    {
      StepKeepsInv(p, e);
    }
  }
}
