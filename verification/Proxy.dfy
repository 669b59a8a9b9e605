/** The pool object itself: a slot vector and counters changed in place, each method one atomic
    section of `proxy.rs`, proved to take the step the state machine says. */
module Proxy {
  import opened Arithmetic
  import opened Sequences
  import opened PoolModel

  class WarmPool {
    const cfg: Config
    var slots: seq<Slot>
    var active: map<nat, nat>
    var closed: set<nat>
    var rr: nat
    var now: nat
    var phase: Phase
    var built: nat
    var retired: nat
    var buildErrors: nat
    ghost var leases: multiset<nat>
    ghost var lastTick: nat
    ghost var refills: nat
    ghost var removed: seq<Removal>
    ghost var retiredAt: map<nat, nat>

    ghost function View(): Pool
      reads this
    {
      Pool(cfg, slots, active, closed, rr, now, phase, built, retired, buildErrors,
           leases, lastTick, refills, removed, retiredAt)
    }

    constructor (cfg: Config, now: nat)
      ensures View().cfg == cfg && View().now == now && Init(View())
    {
      this.cfg, this.now := cfg, now;
      slots, active, closed, rr := [], map[], {}, 0;
      phase, built, retired, buildErrors := Counting, 0, 0, 0;
      leases, lastTick, refills, removed, retiredAt := multiset{}, now, 0, [], map[];
    }

    /** `slots.retain(keep)`. */
    method Retain(keep: Slot -> bool)
      modifies this`slots, this`removed
      ensures View() == Prune(old(View()), keep)
    {
      var kept: seq<Slot> := [];
      ghost var gone: seq<Slot> := [];
      for i := 0 to |slots|
        invariant slots == old(slots) && removed == old(removed)
        invariant kept == Filter(slots[..i], keep) && gone == Filter(slots[..i], Not(keep))
      {
        assert slots[..i + 1] == slots[..i] + [slots[i]];
        FilterAppend(slots[..i], [slots[i]], keep);
        FilterAppend(slots[..i], [slots[i]], Not(keep));
        if keep(slots[i]) {
          kept := kept + [slots[i]];
        } else {
          gone := gone + [slots[i]];
        }
      }
      assert slots[..|slots|] == slots;
      removed := removed + Mapped(gone, RecordOf(View()));
      slots := kept;
    }

    /** The indices `pick` rotates over. */
    method UndrainedIndices() returns (idxs: seq<nat>)
      ensures idxs == Undraining(slots)
    {
      idxs := [];
      for i := 0 to |slots|
        invariant idxs == Undraining(slots[..i])
      {
        assert slots[..i + 1][..i] == slots[..i];
        if slots[i].draining.None? {
          idxs := idxs + [i];
        }
      }
      assert slots[..|slots|] == slots;
    }

    /** Count a use and an in-flight request on the slot at `i`. */
    method Take(i: nat)
      requires i < |slots|
      modifies this`slots, this`active, this`rr, this`leases
      ensures View() == Grant(old(View()), i)
    {
      var s := slots[i];
      slots := slots[i := s.(uses := s.uses + 1)];
      active := active[s.id := InFlight(active, s.id) + 1];
      rr := (rr + 1) % U64_RANGE;
      leases := leases + multiset{s.id};
    }

    /** Lease a live, undrained circuit in rotation; `None` when there is none. */
    method Pick() returns (lease: Option<nat>)
      modifies this
      ensures View() == Next(old(View()), Event.Pick)
      ensures leases == old(leases) + (if lease.Some? then multiset{lease.value} else multiset{})
      ensures lease.None? <==> old(ReadyCount(View())) == 0
    {
      ChoiceWhenReady(View());
      var dead := closed;
      Retain(LiveIn(dead));
      var idxs := UndrainedIndices();
      if idxs == [] {
        return None;
      }
      var i := idxs[rr % |idxs|];
      lease := Some(slots[i].id);
      Take(i);
    }

    method Drop(id: nat)
      requires Enabled(View(), DropLease(id))
      modifies this`active, this`leases
      ensures View() == Next(old(View()), DropLease(id))
    {
      active := active[id := FetchSub(InFlight(active, id))];
      leases := leases - multiset{id};
    }

    /** Mark aged and over-used circuits as draining. */
    method MarkDue(seen: nat -> nat)
      modifies this`slots, this`retired, this`retiredAt, this`lastTick
      ensures View() == RetireAll(old(View()), seen)
    {
      var due := Due(cfg, seen);
      var marked, count := Mark(slots, due, now + cfg.drainTimeout);
      retiredAt := Logged(retiredAt, slots, due, now);
      slots, retired, lastTick := marked, retired + count, now;
    }

    /** One maintainer pass under the lock: mark what is due as draining, then reap. */
    method Maintain(seen: nat -> nat)
      requires Enabled(View(), Tick(seen))
      modifies this
      ensures View() == Next(old(View()), Tick(seen))
    {
      MarkDue(seen);
      var inFlight, dead, t := active, closed, now;
      Retain(KeepIn(inFlight, dead, t));
      phase := Counting;
    }

    /** The ready gauge, `len`. */
    method Len() returns (ready: nat)
      ensures ready == ReadyCount(View())
    {
      ready := 0;
      for i := 0 to |slots|
        invariant ready == Count(slots[..i], ReadyIn(closed))
      {
        assert slots[..i + 1] == slots[..i] + [slots[i]];
        CountAppend(slots[..i], [slots[i]], ReadyIn(closed));
        if slots[i].draining.None? && slots[i].id !in closed {
          ready := ready + 1;
        }
      }
      assert slots[..|slots|] == slots;
    }

    /** The counting step of a refill: decide how many circuits to build. */
    method BeginRefill()
      requires Enabled(View(), CountReady)
      modifies this`phase, this`refills
      ensures View() == Next(old(View()), CountReady)
    {
      var ready := Len();
      var left := Shortfall(cfg.target, ready);
      if left == 0 {
        phase, refills := Asleep(now + cfg.tick), refills + 1;
      } else {
        phase := Building(left);
      }
    }

    /** One build attempt of a refill; a failure ends the refill. */
    method BuildOne(ok: bool)
      requires Enabled(View(), Build(ok))
      modifies this
      ensures View() == Next(old(View()), Build(ok))
    {
      if ok {
        phase := Carrying(Slot(built, now, 0, None), phase.left);
        active, built := active[built := 0], built + 1;
      } else {
        buildErrors := buildErrors + 1;
        phase, refills := Asleep(now + cfg.tick), refills + 1;
      }
    }

    method PushBuilt()
      requires Enabled(View(), Push)
      modifies this
      ensures View() == Next(old(View()), Push)
      ensures ReadyCount(View()) == old(ReadyCount(View())) + (if old(ReadyIn(closed)(phase.slot)) then 1 else 0)
    {
      CountAppend(slots, [phase.slot], ReadyIn(closed));
      slots := slots + [phase.slot];
      if phase.left == 1 {
        phase, refills := Asleep(now + cfg.tick), refills + 1;
      } else {
        phase := Building(phase.left - 1);
      }
    }

    /** One uninterrupted refill: build up to the shortfall, stopping at the first failure. */
    method Refill(outcomes: seq<bool>) returns (pushed: nat)
      requires phase.Counting? && |outcomes| >= cfg.target
      requires forall id :: id in closed ==> id < built
      requires ReadyCount(View()) <= cfg.target
      modifies this
      ensures phase.Asleep? && closed == old(closed)
      ensures pushed <= Shortfall(cfg.target, old(ReadyCount(View())))
      ensures forall k :: 0 <= k < pushed ==> outcomes[k]
      ensures ReadyCount(View()) == old(ReadyCount(View())) + pushed
      ensures built == old(built) + pushed && refills == old(refills) + 1
      ensures if pushed == Shortfall(cfg.target, old(ReadyCount(View())))
              then ReadyCount(View()) == cfg.target && buildErrors == old(buildErrors)
              else !outcomes[pushed] && buildErrors == old(buildErrors) + 1
    {
      BeginRefill();
      pushed := 0;
      ghost var short := Shortfall(cfg.target, old(ReadyCount(View())));
      while phase.Building?
        invariant closed == old(closed) && pushed <= short
        invariant if pushed < short then phase == Building(short - pushed) && refills == old(refills)
                  else phase.Asleep? && refills == old(refills) + 1
        invariant forall k :: 0 <= k < pushed ==> outcomes[k]
        invariant ReadyCount(View()) == old(ReadyCount(View())) + pushed
        invariant built == old(built) + pushed && buildErrors == old(buildErrors)
        decreases short - pushed
      {
        var ok := outcomes[pushed];
        BuildOne(ok);
        if !ok {
          return;
        }
        PushBuilt();
        pushed := pushed + 1;
      }
    }
  }

  /** The retiring loop over the slots: every due slot gets the deadline, nothing else changes. */
  method Mark(slots: seq<Slot>, due: Slot -> bool, deadline: nat) returns (marked: seq<Slot>, count: nat)
    ensures marked == Mapped(slots, RetireIf(due, deadline)) && count == Count(slots, due)
  {
    marked, count := [], 0;
    for i := 0 to |slots|
      invariant marked == Mapped(slots[..i], RetireIf(due, deadline)) && count == Count(slots[..i], due)
    {
      assert slots[..i + 1] == slots[..i] + [slots[i]];
      CountAppend(slots[..i], [slots[i]], due);
      var s := slots[i];
      if due(s) {
        s := s.(draining := Some(deadline));
        count := count + 1;
      }
      marked := marked + [s];
    }
    assert slots[..|slots|] == slots;
  }

  lemma {:induction false} UndrainingCount(slots: seq<Slot>)
    ensures |Undraining(slots)| == Count(slots, Undrained())
  {
    if slots != [] {
      var last := |slots| - 1;
      UndrainingCount(slots[..last]);
      assert slots == slots[..last] + [slots[last]];
      CountAppend(slots[..last], [slots[last]], Undrained());
    }
  }

  /** A pick finds a circuit exactly when one is ready. */
  lemma ChoiceWhenReady(p: Pool)
    ensures Choice(Prune(p, LiveIn(p.closed))).None? <==> ReadyCount(p) == 0
  {
    var q := Prune(p, LiveIn(p.closed));
    UndrainingCount(q.slots);
    CountFilter(p.slots, LiveIn(p.closed), ReadyIn(p.closed));
    FilterMembers(p.slots, LiveIn(p.closed));
    assert forall i :: 0 <= i < |q.slots| ==> q.slots[i] in q.slots;
    CountPointwise(q.slots, q.slots, Undrained(), ReadyIn(p.closed));
    CountPointwise(q.slots, q.slots, ReadyIn(p.closed), Undrained());
  }
}
