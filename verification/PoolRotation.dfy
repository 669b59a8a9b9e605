/** How picks rotate over the ready circuits, whatever else happens between them. */
module PoolRotation {
  import opened Arithmetic
  import opened Sequences
  import opened PoolModel
  import opened PoolSafety
  import opened RoundRobin

  /** The slots a pick may lease, in order. */
  function Ready(p: Pool): seq<Slot> {
    Filter(p.slots, ReadyIn(p.closed))
  }

  function Ids(slots: seq<Slot>): seq<nat> {
    Mapped(slots, (s: Slot) => s.id)
  }

  function Uses(slots: seq<Slot>): seq<nat> {
    Mapped(slots, (s: Slot) => s.uses)
  }

  // ----- where the indices of a pick point

  lemma {:induction false} UndrainingSame(a: seq<Slot>, b: seq<Slot>)
    requires |a| == |b| && forall i :: 0 <= i < |a| ==> a[i].draining == b[i].draining
    ensures Undraining(a) == Undraining(b)
  {
    if a != [] {
      UndrainingSame(a[..|a| - 1], b[..|b| - 1]);
    }
  }

  ghost predicate Increasing(idxs: seq<nat>) {
    forall j, k :: 0 <= j < k < |idxs| ==> idxs[j] < idxs[k]
  }

  lemma {:induction false} UndrainingIncreases(slots: seq<Slot>)
    ensures Increasing(Undraining(slots))
  {
    if slots != [] {
      UndrainingIncreases(slots[..|slots| - 1]);
    }
  }

  /** `idxs` are the places in `slots` of the slots `picked`. */
  ghost predicate Points(slots: seq<Slot>, idxs: seq<nat>, picked: seq<Slot>) {
    |idxs| == |picked| && forall k :: 0 <= k < |idxs| ==> idxs[k] < |slots| && slots[idxs[k]] == picked[k]
  }

  lemma {:induction false} UndrainingPoints(slots: seq<Slot>)
    ensures Points(slots, Undraining(slots), Filter(slots, Undrained()))
  {
    if slots != [] {
      var last := |slots| - 1;
      UndrainingPoints(slots[..last]);
      assert slots == slots[..last] + [slots[last]];
      FilterAppend(slots[..last], [slots[last]], Undrained());
    }
  }

  function Used(s: Slot): Slot {
    s.(uses := s.uses + 1)
  }

  lemma UseAt(slots: seq<Slot>, j: nat)
    requires j < |Undraining(slots)|
    ensures var i := Undraining(slots)[j];
      var picked := Filter(slots, Undrained());
      j < |picked| && Filter(slots[i := Used(slots[i])], Undrained()) == picked[j := Used(picked[j])]
  {
    var i := Undraining(slots)[j];
    var used := slots[i := Used(slots[i])];
    UndrainingSame(slots, used);
    UndrainingIncreases(slots);
    UndrainingPoints(slots);
    UndrainingPoints(used);
  }

  lemma {:induction false} FilterSame(s: seq<Slot>, a: Slot -> bool, b: Slot -> bool)
    requires forall x :: x in s ==> a(x) == b(x)
    ensures Filter(s, a) == Filter(s, b)
  {
    if s != [] {
      FilterSame(s[1..], a, b);
    }
  }

  lemma {:induction false} FilterTwice(s: seq<Slot>, keep: Slot -> bool, a: Slot -> bool)
    requires forall x :: a(x) ==> keep(x)
    ensures Filter(Filter(s, keep), a) == Filter(s, a)
  {
    if s != [] {
      FilterTwice(s[1..], keep, a);
      FilterAppend(if keep(s[0]) then [s[0]] else [], Filter(s[1..], keep), a);
    }
  }

  /** After dead slots are pruned, ready and undrained are the same. */
  lemma PrunedReady(p: Pool)
    ensures Filter(Filter(p.slots, LiveIn(p.closed)), Undrained()) == Ready(p)
  {
    FilterMembers(p.slots, LiveIn(p.closed));
    FilterSame(Filter(p.slots, LiveIn(p.closed)), Undrained(), ReadyIn(p.closed));
    FilterTwice(p.slots, LiveIn(p.closed), ReadyIn(p.closed));
  }

  // ----- one step

  lemma GrantReady(p: Pool, j: nat)
    requires j < |Undraining(p.slots)| && forall s :: s in p.slots ==> LiveIn(p.closed)(s)
    ensures var ready := Filter(p.slots, Undrained());
      j < |ready| && Ready(Grant(p, Undraining(p.slots)[j])) == ready[j := Used(ready[j])]
  {
    var i := Undraining(p.slots)[j];
    var used := p.slots[i := Used(p.slots[i])];
    UseAt(p.slots, j);
    assert p.slots[i] in p.slots;
    assert forall s :: s in used ==> s in p.slots || s == Used(p.slots[i]);
    FilterSame(used, Undrained(), ReadyIn(p.closed));
  }

  lemma ChosenTurn(p: Pool, q: Pool)
    requires q == Prune(p, LiveIn(p.closed)) && Ready(p) != []
    ensures Filter(q.slots, Undrained()) == Ready(p) && |Undraining(q.slots)| == |Ready(p)|
    ensures PickNext(p) == Grant(q, Undraining(q.slots)[p.rr % |Ready(p)|])
  {
    PrunedReady(p);
    UndrainingPoints(q.slots);
  }

  /** A pick counts one use on the ready slot whose turn it is, and nothing on the others. */
  lemma PickTurns(p: Pool)
    requires Ready(p) != []
    ensures var j := p.rr % |Ready(p)|;
      Ready(PickNext(p)) == Ready(p)[j := Used(Ready(p)[j])] && PickNext(p).rr == (p.rr + 1) % U64_RANGE
  {
    var q := Prune(p, LiveIn(p.closed));
    ChosenTurn(p, q);
    FilterMembers(p.slots, LiveIn(p.closed));
    GrantReady(q, p.rr % |Ready(p)|);
  }

  /** Slots of the same identity have the same use count. */
  ghost predicate SameUses(a: seq<Slot>, b: seq<Slot>) {
    forall i, j :: 0 <= i < |a| && 0 <= j < |b| && a[i].id == b[j].id ==> a[i].uses == b[j].uses
  }

  lemma TickUses(p: Pool, seen: nat -> nat)
    requires Distinct(p.slots)
    ensures SameUses(p.slots, TickNext(p, seen).slots)
  {
    var q := RetireAll(p, seen);
    var kept := TickNext(p, seen).slots;
    FilterMembers(q.slots, KeepIn(q.active, q.closed, q.now));
    forall i, j | 0 <= i < |p.slots| && 0 <= j < |kept| && p.slots[i].id == kept[j].id
      ensures p.slots[i].uses == kept[j].uses
    {
      assert kept[j] in q.slots;
      var k :| 0 <= k < |q.slots| && q.slots[k] == kept[j];
      assert p.slots[k].id == p.slots[i].id;
    }
  }

  lemma OtherUses(p: Pool, e: Event)
    requires Named(p) && Enabled(p, e) && !e.Pick?
    ensures SameUses(p.slots, Next(p, e).slots) && Next(p, e).rr == p.rr
  {
    if e.Tick? {
      TickUses(p, e.seen);
    }
  }

  lemma {:induction false} FilterPlace(s: seq<Slot>, keep: Slot -> bool, j: nat) returns (i: nat)
    requires j < |Filter(s, keep)|
    ensures i < |s| && s[i] == Filter(s, keep)[j]
  {
    if keep(s[0]) && j == 0 {
      i := 0;
    } else {
      var k := FilterPlace(s[1..], keep, if keep(s[0]) then j - 1 else j);
      i := k + 1;
    }
  }

  /** Anything but a pick that leaves the ready circuits as they were leaves their use counts too. */
  lemma OtherStep(p: Pool, e: Event)
    requires Named(p) && Enabled(p, e) && !e.Pick? && Ids(Ready(Next(p, e))) == Ids(Ready(p))
    ensures Uses(Ready(Next(p, e))) == Uses(Ready(p)) && Next(p, e).rr == p.rr
  {
    var q := Next(p, e);
    var a, b := Ready(p), Ready(q);
    OtherUses(p, e);
    assert |a| == |Ids(a)| == |Ids(b)| == |b|;
    forall j | 0 <= j < |a|
      ensures a[j].uses == b[j].uses
    {
      var i := FilterPlace(p.slots, ReadyIn(p.closed), j);
      var k := FilterPlace(q.slots, ReadyIn(q.closed), j);
      assert Ids(a)[j] == a[j].id && Ids(b)[j] == b[j].id;
    }
  }

  // ----- runs

  /** Every state of the run is `steady`. */
  ghost predicate Steady(p: Pool, es: seq<Event>, steady: Pool -> bool)
    requires Runs(p, es)
    decreases |es|
  {
    steady(p) && (es == [] || Steady(Next(p, es[0]), es[1..], steady))
  }

  /** The ready circuits are `ids`, in that order. */
  function ReadyAre(ids: seq<nat>): Pool -> bool {
    (p: Pool) => Ids(Ready(p)) == ids
  }

  function IsPick(): Event -> bool {
    (e: Event) => e.Pick?
  }

  /** `uses` is what `k` turns from counter `c` make of `uses0`. */
  ghost predicate Turned(uses0: seq<nat>, c: nat, uses: seq<nat>, k: nat) {
    && |uses| == |uses0| > 0
    && forall j :: 0 <= j < |uses| ==> uses[j] == uses0[j] + Hits(c, k, |uses|, j)
  }

  lemma TurnOnce(uses0: seq<nat>, c: nat, uses: seq<nat>, k: nat)
    requires Turned(uses0, c, uses, k)
    ensures var j := Turn(c, k, |uses|); Turned(uses0, c, uses[j := uses[j] + 1], k + 1)
  {
  }

  /** A pick's turn, on the use counts alone. */
  lemma PickStep(p: Pool, uses0: seq<nat>, c: nat, k: nat)
    requires Turned(uses0, c, Uses(Ready(p)), k) && p.rr == (c + k) % U64_RANGE
    ensures Turned(uses0, c, Uses(Ready(PickNext(p))), k + 1) && PickNext(p).rr == (c + k + 1) % U64_RANGE
  {
    var ready := Ready(p);
    var j := p.rr % |ready|;
    PickTurns(p);
    CounterStep(c + k);
    TurnOnce(uses0, c, Uses(ready), k);
    assert Uses(ready[j := Used(ready[j])]) == Uses(ready)[j := Uses(ready)[j] + 1];
  }

  /** Steps between steady states keep `inv` and `had`, which counts picks. */
  ghost predicate Counted(inv: Pool -> bool, had: (Pool, nat) -> bool, steady: Pool -> bool) {
    forall p: Pool, e: Event, q: Pool, k: nat {:trigger had(p, k), Step(p, e, q)} ::
      inv(p) && had(p, k) && steady(p) && Step(p, e, q) && steady(q) ==> inv(q) && had(q, if e.Pick? then k + 1 else k)
  }

  lemma {:induction false} RunCounts(inv: Pool -> bool, had: (Pool, nat) -> bool, steady: Pool -> bool, p: Pool, es: seq<Event>, k: nat)
    requires Counted(inv, had, steady) && inv(p) && had(p, k) && Runs(p, es) && Steady(p, es, steady)
    ensures had(After(p, es), k + Count(es, IsPick()))
    decreases |es|
  {
    if es != [] {
      var q := Next(p, es[0]);
      assert Step(p, es[0], q);
      RunCounts(inv, had, steady, q, es[1..], if es[0].Pick? then k + 1 else k);
    }
  }

  /** The ready circuits have had `k` turns since `uses0` and counter `c`. */
  ghost predicate HadTurns(p: Pool, k: nat, uses0: seq<nat>, c: nat) {
    Turned(uses0, c, Uses(Ready(p)), k) && p.rr == (c + k) % U64_RANGE
  }

  ghost function Had(uses0: seq<nat>, c: nat): (Pool, nat) -> bool {
    (p: Pool, k: nat) => HadTurns(p, k, uses0, c)
  }

  lemma StepTurns(p: Pool, e: Event, q: Pool, ids: seq<nat>, uses0: seq<nat>, c: nat, k: nat)
    requires Named(p) && HadTurns(p, k, uses0, c) && Step(p, e, q) && Ids(Ready(p)) == ids && Ids(Ready(q)) == ids
    ensures HadTurns(q, if e.Pick? then k + 1 else k, uses0, c)
  {
    if e.Pick? {
      PickStep(p, uses0, c, k);
    } else {
      OtherStep(p, e);
    }
  }

  lemma TurnsCounted(inv: Pool -> bool, ids: seq<nat>, uses0: seq<nat>, c: nat)
    requires Names(inv)
    ensures Counted(inv, Had(uses0, c), ReadyAre(ids))
  {
    forall p: Pool, e: Event, q: Pool, k: nat
      | inv(p) && HadTurns(p, k, uses0, c) && Step(p, e, q) && Ids(Ready(p)) == ids && Ids(Ready(q)) == ids
      ensures inv(q) && HadTurns(q, if e.Pick? then k + 1 else k, uses0, c)
    {
      StepTurns(p, e, q, ids, uses0, c, k);
    }
  }

  lemma {:induction false} CounterInRange(p: Pool, es: seq<Event>)
    requires Runs(p, es) && p.rr < U64_RANGE
    ensures After(p, es).rr < U64_RANGE
    decreases |es|
  {
    if es != [] {
      CounterInRange(Next(p, es[0]), es[1..]);
    }
  }

  lemma TurnsAreFair(uses0: seq<nat>, c: nat, uses: seq<nat>, n: nat)
    requires Turned(uses0, c, uses, n) && (c + n <= U64_RANGE || U64_RANGE % |uses0| == 0)
    ensures forall j :: 0 <= j < |uses| ==> n / |uses| <= uses[j] - uses0[j] <= CeilDiv(n, |uses|)
  {
    if c + n <= U64_RANGE {
      FairUntilWrap(c, n, |uses|);
    } else {
      FairWhenDividing(c, n, |uses|);
    }
  }

  /** Use counts grown by even shares of `n`. */
  ghost predicate EvenShares(was: seq<nat>, uses: seq<nat>, n: nat) {
    && |uses| == |was| > 0
    && forall j :: 0 <= j < |was| ==> n / |was| <= uses[j] - was[j] <= CeilDiv(n, |was|)
  }

  lemma SteadyShares(inv: Pool -> bool, steady: Pool -> bool, p: Pool, es: seq<Event>, was: seq<nat>, c: nat)
    requires Counted(inv, Had(was, c), steady) && inv(p) && Had(was, c)(p, 0) && Runs(p, es) && Steady(p, es, steady)
    requires c + Count(es, IsPick()) <= U64_RANGE || U64_RANGE % |was| == 0
    ensures EvenShares(was, Uses(Ready(After(p, es))), Count(es, IsPick()))
  {
    RunCounts(inv, Had(was, c), steady, p, es, 0);
    TurnsAreFair(was, c, Uses(Ready(After(p, es))), Count(es, IsPick()));
  }

  lemma ReachedInv(start: Pool, before: seq<Event>)
    requires Init(start) && Runs(start, before)
    ensures Inv(After(start, before)) && After(start, before).rr < U64_RANGE
  {
    InitInv(start);
    RunKeepsInv(start, before);
    CounterInRange(start, before);
  }

  lemma FirstTurn(p: Pool)
    requires Ready(p) != [] && p.rr < U64_RANGE
    ensures Had(Uses(Ready(p)), p.rr)(p, 0)
  {
  }

  /** From any reachable state `p`, while the ready circuits stay the same, every one of them is used `floor` or `ceil`
      of `N / ready` times by the next `N` picks, whatever leases end, circuits die, drain, are reaped or fail to be
      built, and time passes in between; until the counter wraps, or for ever when their number divides 2^64. */
  lemma PicksSpreadEvenly(start: Pool, before: seq<Event>, p: Pool, es: seq<Event>)
    requires Init(start) && Runs(start, before) && p == After(start, before) && Runs(p, es)
    requires Ready(p) != [] && Steady(p, es, ReadyAre(Ids(Ready(p))))
    requires p.rr + Count(es, IsPick()) <= U64_RANGE || U64_RANGE % |Ready(p)| == 0
    ensures EvenShares(Uses(Ready(p)), Uses(Ready(After(p, es))), Count(es, IsPick()))
  {
    var was := Uses(Ready(p));
    ReachedInv(start, before);
    FirstTurn(p);
    InvNames();
    TurnsCounted(Inv, Ids(Ready(p)), was, p.rr);
    SteadyShares(Inv, ReadyAre(Ids(Ready(p))), p, es, was, p.rr);
  }
}
