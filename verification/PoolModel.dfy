/** The warm circuit pool as a state machine.

    Every use of the slot vector happens under one lock, so a run is a sequence of atomic
    events: requests picking and dropping leases, peers closing connections, the clock moving,
    and the single maintainer task going through its cycle (sleep, tick, count, build, push).
    A circuit is an opaque identifier; identifiers are handed out in build order. */
module PoolModel {
  import opened Arithmetic
  import opened Sequences

  datatype Config = Config(target: nat, maxUses: Option<nat>, maxAge: Option<nat>, tick: nat, drainTimeout: nat)

  datatype Slot = Slot(id: nat, born: nat, uses: nat, draining: Option<nat>)

  /** Where the maintainer task stands. `left` counts the builds its refill still has to do,
      including the one being carried from `build_one` to the slot vector. */
  datatype Phase = Asleep(wake: nat) | Counting | Building(left: nat) | Carrying(slot: Slot, left: nat)

  /** A slot leaving the vector, with what was true of it at that moment. */
  datatype Removal = Removal(id: nat, at: nat, closed: bool, leases: nat, deadline: Option<nat>)

  /** `active` holds the shared in-flight counters, which outlive their slot. `leases` (leases handed
      out and not yet dropped), `lastTick`, `refills`, `removed` and `retiredAt` are history: no
      decision reads them. */
  datatype Pool = Pool(
    cfg: Config,
    slots: seq<Slot>,
    active: map<nat, nat>,
    closed: set<nat>,
    rr: nat,
    now: nat,
    phase: Phase,
    built: nat,
    retired: nat,
    buildErrors: nat,
    leases: multiset<nat>,
    lastTick: nat,
    refills: nat,
    removed: seq<Removal>,
    retiredAt: map<nat, nat>)

  /** `seen(id)` is the clock reading `born.elapsed()` makes when the tick examines circuit `id`. */
  datatype Event =
    | Pick
    | DropLease(id: nat)
    | PeerClose(id: nat)
    | Advance(elapsed: nat)
    | Tick(seen: nat -> nat)
    | CountReady
    | Build(ok: bool)
    | Push

  // ----- tests on slots

  function InFlight(active: map<nat, nat>, id: nat): nat {
    if id in active then active[id] else 0
  }

  /** `fetch_sub(1)` on an unsigned counter: it wraps below zero. */
  function FetchSub(count: nat): nat {
    if count == 0 then U64_RANGE - 1 else count - 1
  }

  function LiveIn(closed: set<nat>): Slot -> bool {
    (s: Slot) => s.id !in closed
  }

  function ReadyIn(closed: set<nat>): Slot -> bool {
    (s: Slot) => s.draining.None? && s.id !in closed
  }

  function Undrained(): Slot -> bool {
    (s: Slot) => s.draining.None?
  }

  function Due(cfg: Config, seen: nat -> nat): Slot -> bool {
    (s: Slot) => s.draining.None?
         && ((cfg.maxAge.Some? && seen(s.id) - s.born >= cfg.maxAge.value)
             || (cfg.maxUses.Some? && s.uses >= cfg.maxUses.value))
  }

  function KeepIn(active: map<nat, nat>, closed: set<nat>, now: nat): Slot -> bool {
    (s: Slot) => s.id !in closed
         && !(s.draining.Some? && (InFlight(active, s.id) == 0 || now >= s.draining.value))
  }

  function RetireIf(due: Slot -> bool, deadline: nat): Slot -> Slot {
    (s: Slot) => if due(s) then s.(draining := Some(deadline)) else s
  }

  function ReadyCount(p: Pool): nat {
    Count(p.slots, ReadyIn(p.closed))
  }

  /** Indices of the slots not draining, in order. */
  function Undraining(slots: seq<Slot>): (idxs: seq<nat>)
    ensures forall k :: 0 <= k < |idxs| ==> idxs[k] < |slots| && slots[idxs[k]].draining.None?
  {
    if slots == [] then [] else
      var last := |slots| - 1;
      Undraining(slots[..last]) + (if slots[last].draining.None? then [last] else [])
  }

  // ----- effects

  function RecordOf(p: Pool): Slot -> Removal {
    (s: Slot) => Removal(s.id, p.now, s.id in p.closed, p.leases[s.id], s.draining)
  }

  /** `slots.retain(keep)`, logging what goes. */
  function Prune(p: Pool, keep: Slot -> bool): Pool {
    p.(slots := Filter(p.slots, keep),
       removed := p.removed + Mapped(Filter(p.slots, Not(keep)), RecordOf(p)))
  }

  /** Lease the slot at index `i`. */
  function Grant(p: Pool, i: nat): Pool
    requires i < |p.slots|
  {
    var s := p.slots[i];
    p.(slots := p.slots[i := s.(uses := s.uses + 1)],
       active := p.active[s.id := InFlight(p.active, s.id) + 1],
       leases := p.leases + multiset{s.id},
       rr := (p.rr + 1) % U64_RANGE)
  }

  /** The slot index a pick leases, after dead slots have been pruned. */
  function Choice(p: Pool): (c: Option<nat>)
    ensures c.Some? ==> c.value < |p.slots| && p.slots[c.value].draining.None?
  {
    var idxs := Undraining(p.slots);
    if idxs == [] then None else Some(idxs[p.rr % |idxs|])
  }

  function PickNext(p: Pool): Pool {
    var q := Prune(p, LiveIn(p.closed));
    match Choice(q)
    case None => q
    case Some(i) => Grant(q, i)
  }

  function Logged(log: map<nat, nat>, slots: seq<Slot>, due: Slot -> bool, now: nat): map<nat, nat>
    decreases |slots|
  {
    if slots == [] then log
    else Logged(if due(slots[0]) then log[slots[0].id := now] else log, slots[1..], due, now)
  }

  function RetireWhere(p: Pool, due: Slot -> bool): Pool {
    p.(slots := Mapped(p.slots, RetireIf(due, p.now + p.cfg.drainTimeout)),
       retired := p.retired + Count(p.slots, due),
       retiredAt := Logged(p.retiredAt, p.slots, due, p.now),
       lastTick := p.now)
  }

  function RetireAll(p: Pool, seen: nat -> nat): Pool {
    RetireWhere(p, Due(p.cfg, seen))
  }

  function TickNext(p: Pool, seen: nat -> nat): Pool {
    var q := RetireAll(p, seen);
    Prune(q, KeepIn(q.active, q.closed, q.now)).(phase := Counting)
  }

  /** The refill is over: the maintainer goes to sleep for one tick. */
  function Rest(p: Pool): Pool {
    p.(phase := Asleep(p.now + p.cfg.tick), refills := p.refills + 1)
  }

  /** Go on building, or rest when `left` builds are done. */
  function Resume(p: Pool, left: nat): Pool {
    if left == 0 then Rest(p) else p.(phase := Building(left))
  }

  /** `target.saturating_sub(ready)`. */
  function Shortfall(target: nat, ready: nat): nat {
    if ready <= target then target - ready else 0
  }

  // ----- the machine

  ghost predicate Enabled(p: Pool, e: Event) {
    match e
    case DropLease(id) => p.leases[id] > 0
    case PeerClose(id) => id < p.built
    case Tick(seen) => p.phase.Asleep? && p.phase.wake <= p.now && forall id: nat :: p.now <= seen(id)
    case CountReady => p.phase.Counting?
    case Build(_) => p.phase.Building? && p.phase.left > 0
    case Push => p.phase.Carrying? && p.phase.left > 0
    case _ => true
  }

  function Next(p: Pool, e: Event): Pool
    requires Enabled(p, e)
  {
    match e
    case Pick => PickNext(p)
    case DropLease(id) =>
      p.(active := p.active[id := FetchSub(InFlight(p.active, id))],
         leases := p.leases - multiset{id})
    case PeerClose(id) => p.(closed := p.closed + {id})
    case Advance(elapsed) => p.(now := p.now + elapsed)
    case Tick(seen) => TickNext(p, seen)
    case CountReady => Resume(p, Shortfall(p.cfg.target, ReadyCount(p)))
    case Build(ok) =>
      if ok then
        p.(phase := Carrying(Slot(p.built, p.now, 0, None), p.phase.left),
           active := p.active[p.built := 0],
           built := p.built + 1)
      else
        Rest(p.(buildErrors := p.buildErrors + 1))
    case Push => Resume(p.(slots := p.slots + [p.phase.slot]), p.phase.left - 1)
  }

  ghost predicate Step(p: Pool, e: Event, q: Pool) {
    Enabled(p, e) && q == Next(p, e)
  }

  /** `spawn`: an empty pool about to do its pre-warming refill. */
  ghost predicate Init(p: Pool) {
    && p.slots == [] && p.active == map[] && p.closed == {} && p.rr == 0
    && p.phase == Counting
    && p.built == p.retired == p.buildErrors == p.refills == 0
    && p.leases == multiset{} && p.removed == [] && p.retiredAt == map[]
    && p.lastTick == p.now
  }

  ghost predicate Runs(p: Pool, es: seq<Event>)
    decreases |es|
  {
    es == [] || (Enabled(p, es[0]) && Runs(Next(p, es[0]), es[1..]))
  }

  function After(p: Pool, es: seq<Event>): Pool
    requires Runs(p, es)
    decreases |es|
  {
    if es == [] then p else After(Next(p, es[0]), es[1..])
  }
}
