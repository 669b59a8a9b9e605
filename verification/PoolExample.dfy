/** A run in which the pool reaps a circuit whose request is still in flight. */
module PoolExample {
  import opened Sequences
  import opened PoolModel
  import opened PoolTheorems

  /** One circuit, retired after one use, with no time to drain. */
  function Start(): Pool {
    Pool(Config(1, Some(1), None, 1, 0), [], map[], {}, 0, 0, Counting, 0, 0, 0, multiset{}, 0, 0, [], map[])
  }

  function Wanting(): Pool {
    Start().(phase := Building(1))
  }

  function Carried(): Pool {
    Wanting().(phase := Carrying(Slot(0, 0, 0, None), 1), active := map[0 := 0], built := 1)
  }

  function Warm(): Pool {
    Carried().(slots := [Slot(0, 0, 0, None)], phase := Asleep(1), refills := 1)
  }

  function Busy(): Pool {
    Warm().(slots := [Slot(0, 0, 1, None)], active := map[0 := 1], leases := multiset{0}, rr := 1)
  }

  function Due(): Pool {
    Busy().(now := 1)
  }

  function Clock(): Event {
    Tick((id: nat) => 1)
  }

  lemma Counts()
    ensures Step(Start(), CountReady, Wanting())
  {
  }

  lemma Builds()
    ensures Step(Wanting(), Build(true), Carried())
  {
  }

  lemma Pushes()
    ensures Step(Carried(), Push, Warm())
  {
  }

  lemma Picks()
    ensures Step(Warm(), Pick, Busy())
  {
    var p := Warm();
    FilterAll(p.slots, LiveIn(p.closed));
    assert Prune(p, LiveIn(p.closed)) == p;
    assert Undraining(p.slots) == [0];
  }

  lemma Waits()
    ensures Step(Busy(), Advance(1), Due())
  {
  }

  lemma Reaps()
    ensures Enabled(Due(), Clock()) && Next(Due(), Clock()).slots == []
  {
    var q := RetireAll(Due(), (id: nat) => 1);
    assert q.slots == [Slot(0, 0, 1, Some(1))] && q.slots[1..] == [];
  }

  /** A run one event longer, at its front. */
  lemma StepThen(p: Pool, e: Event, q: Pool, es: seq<Event>, last: Pool)
    requires Step(p, e, q) && Runs(q, es) && After(q, es) == last
    ensures Runs(p, [e] + es) && After(p, [e] + es) == last
  {
    assert ([e] + es)[1..] == es;
  }

  function Prelude(): seq<Event> {
    [CountReady] + ([Build(true)] + ([Push] + ([Pick] + ([Advance(1)] + []))))
  }

  lemma PreludeRuns()
    ensures Runs(Start(), Prelude()) && After(Start(), Prelude()) == Due()
  {
    Waits();
    StepThen(Busy(), Advance(1), Due(), [], Due());
    Picks();
    StepThen(Warm(), Pick, Busy(), [Advance(1)] + [], Due());
    Pushes();
    StepThen(Carried(), Push, Warm(), [Pick] + ([Advance(1)] + []), Due());
    Builds();
    StepThen(Wanting(), Build(true), Carried(), [Push] + ([Pick] + ([Advance(1)] + [])), Due());
    Counts();
    StepThen(Start(), CountReady, Wanting(), [Build(true)] + ([Push] + ([Pick] + ([Advance(1)] + []))), Due());
  }

  /** From start-up: one build, one pick, one tick. The lease is out and the connection open, yet the circuit is gone. */
  lemma BusyCircuitReaped()
    ensures Init(Start()) && Runs(Start(), Prelude()) && Enabled(After(Start(), Prelude()), Clock())
    ensures var p := After(Start(), Prelude());
      var q := Next(p, Clock());
      && Holds(p, 0) && p.leases[0] == 1 && p.closed == {}
      && !Holds(q, 0) && q.leases[0] == 1 && q.closed == {}
  {
    PreludeRuns();
    Reaps();
    assert Slot(0, 0, 1, None) in Due().slots;
  }
}
