/** The gateway directory: a lazily pruned table that answers as if it kept every announcement ever made. */
module Directory {
  import opened Arithmetic
  import opened Sequences
  import opened Transport

  type Addr = string

  type Cert = seq<Byte>

  /** A table entry, and also the announcement that made it. */
  datatype GatewayInfo = GatewayInfo(addr: Addr, cert: Cert, lastSeen: nat)

  type Table = map<Addr, GatewayInfo>

  // ----- the reference: the full announcement history

  ghost predicate Ordered(history: seq<GatewayInfo>) {
    forall i, j :: 0 <= i < j < |history| ==> history[i].lastSeen <= history[j].lastSeen
  }

  /** `g` is what its address announced last. */
  ghost predicate Latest(history: seq<GatewayInfo>, g: GatewayInfo) {
    exists i :: 0 <= i < |history| && history[i] == g && forall j :: i < j < |history| ==> history[j].addr != g.addr
  }

  /** What `live` must answer at time `now`: the latest announcement of each address, if younger than `ttl`. */
  ghost predicate Alive(history: seq<GatewayInfo>, ttl: nat, now: nat, g: GatewayInfo) {
    Latest(history, g) && now < g.lastSeen + ttl
  }

  // ----- the table

  /** `Instant::duration_since` saturates at zero. */
  function Since(now: nat, seen: nat): nat {
    if now < seen then 0 else now - seen
  }

  function Announced(table: Table, g: GatewayInfo): Table {
    table[g.addr := g]
  }

  function Pruned(table: Table, ttl: nat, now: nat): Table {
    map a | a in table && Since(now, table[a].lastSeen) < ttl :: table[a]
  }

  /** The table holds the latest announcement of each address, except those expired at `horizon`, the latest instant it
      was pruned for. `clock` is when the lock was last taken: announcements are dated under the lock, but a pruning
      call reads its clock before it takes the lock and may come late. */
  ghost predicate Agrees(table: Table, ttl: nat, history: seq<GatewayInfo>, horizon: nat, clock: nat) {
    && Ordered(history) && horizon <= clock
    && (forall i :: 0 <= i < |history| ==> history[i].lastSeen <= clock)
    && (forall a :: a in table ==> table[a].addr == a && Latest(history, table[a]))
    && (forall a :: a in table ==> ttl == 0 || horizon < table[a].lastSeen + ttl)
    && (forall g :: Latest(history, g) && ttl > 0 && horizon < g.lastSeen + ttl ==> g.addr in table && table[g.addr] == g)
  }

  lemma LatestUnique(history: seq<GatewayInfo>, g: GatewayInfo, h: GatewayInfo)
    requires Latest(history, g) && Latest(history, h) && g.addr == h.addr
    ensures g == h
  {
  }

  lemma LatestAppend(history: seq<GatewayInfo>, g: GatewayInfo, h: GatewayInfo)
    ensures Latest(history + [g], h) <==> h == g || (Latest(history, h) && h.addr != g.addr)
  {
    var longer := history + [g];
    var n := |history|;
    assert longer[n] == g;
    if Latest(longer, h) && h != g {
      var i :| 0 <= i < |longer| && longer[i] == h && forall j :: i < j < |longer| ==> longer[j].addr != h.addr;
      assert i < n && history[i] == h;
      forall j | i < j < n
        ensures history[j].addr != h.addr
      {
        assert longer[j] == history[j];
      }
    }
    if Latest(history, h) && h.addr != g.addr {
      var i :| 0 <= i < n && history[i] == h && forall j :: i < j < n ==> history[j].addr != h.addr;
      assert longer[i] == h;
    }
  }

  lemma AnnounceAgrees(table: Table, ttl: nat, history: seq<GatewayInfo>, horizon: nat, clock: nat, g: GatewayInfo)
    requires Agrees(table, ttl, history, horizon, clock) && clock <= g.lastSeen
    ensures Agrees(Announced(table, g), ttl, history + [g], horizon, g.lastSeen)
  {
    forall h: GatewayInfo
      ensures Latest(history + [g], h) <==> h == g || (Latest(history, h) && h.addr != g.addr)
    {
      LatestAppend(history, g, h);
    }
  }

  /** Pruning for `now`, however late the lock came, leaves and answers exactly the latest announcement of each address
      that is unexpired at `now` and at every instant pruned for before. */
  lemma PruneAgrees(table: Table, ttl: nat, history: seq<GatewayInfo>, horizon: nat, clock: nat, now: nat, locked: nat)
    requires Agrees(table, ttl, history, horizon, clock) && clock <= locked && now <= locked
    ensures Agrees(Pruned(table, ttl, now), ttl, history, Max(horizon, now), locked)
    ensures forall g :: g in Pruned(table, ttl, now).Values <==> ttl > 0 && Alive(history, ttl, Max(horizon, now), g)
  {
    var kept := Pruned(table, ttl, now);
    forall g
      ensures g in kept.Values <==> ttl > 0 && Alive(history, ttl, Max(horizon, now), g)
    {
      if g in kept.Values {
        var a :| a in kept && kept[a] == g;
      }
      if ttl > 0 && Alive(history, ttl, Max(horizon, now), g) {
        assert kept[g.addr] == g;
      }
    }
  }

  // ----- whole runs

  datatype Call = Announce(info: GatewayInfo) | Live(now: nat, locked: nat)

  function When(c: Call): nat {
    if c.Announce? then c.info.lastSeen else c.locked
  }

  /** Calls in the order they take the lock. */
  ghost predicate Timely(calls: seq<Call>) {
    && (forall i, j :: 0 <= i < j < |calls| ==> When(calls[i]) <= When(calls[j]))
    && (forall i :: 0 <= i < |calls| && calls[i].Live? ==> calls[i].now <= calls[i].locked)
  }

  /** No call was delayed between reading the clock and taking the lock. */
  ghost predicate Sequential(calls: seq<Call>) {
    Timely(calls) && forall i :: 0 <= i < |calls| && calls[i].Live? ==> calls[i].now == calls[i].locked
  }

  function TableAfter(ttl: nat, calls: seq<Call>): Table {
    if calls == [] then map[] else
    var before := TableAfter(ttl, calls[..|calls| - 1]);
    match calls[|calls| - 1]
    case Announce(info) => Announced(before, info)
    case Live(now, _) => Pruned(before, ttl, now)
  }

  function HistoryOf(calls: seq<Call>): seq<GatewayInfo> {
    if calls == [] then [] else
    HistoryOf(calls[..|calls| - 1]) + match calls[|calls| - 1]
    case Announce(info) => [info]
    case Live(_, _) => []
  }

  /** The latest instant any call pruned for. */
  function Horizon(calls: seq<Call>): nat {
    if calls == [] then 0 else
    var before := Horizon(calls[..|calls| - 1]);
    match calls[|calls| - 1]
    case Announce(_) => before
    case Live(now, _) => Max(before, now)
  }

  function Clock(calls: seq<Call>): nat {
    if calls == [] then 0 else When(calls[|calls| - 1])
  }

  lemma {:induction false} RunAgrees(ttl: nat, calls: seq<Call>)
    requires Timely(calls)
    ensures Agrees(TableAfter(ttl, calls), ttl, HistoryOf(calls), Horizon(calls), Clock(calls))
  {
    if calls != [] {
      var n := |calls| - 1;
      var before := calls[..n];
      RunAgrees(ttl, before);
      assert before != [] ==> When(before[n - 1]) <= When(calls[n]);
      var table, history, horizon := TableAfter(ttl, before), HistoryOf(before), Horizon(before);
      match calls[n] {
        case Announce(info) => AnnounceAgrees(table, ttl, history, horizon, Clock(before), info);
        case Live(now, locked) =>
          PruneAgrees(table, ttl, history, horizon, Clock(before), now, locked);
          assert history + [] == history;
      }
    }
  }

  /** After any run, a call that reads its clock at `now` answers exactly what the full history answers at `now` or at the
      latest instant pruned for, whichever is later. */
  lemma LiveAnswers(ttl: nat, calls: seq<Call>, now: nat, g: GatewayInfo)
    requires Timely(calls)
    ensures g in Pruned(TableAfter(ttl, calls), ttl, now).Values <==>
      ttl > 0 && Alive(HistoryOf(calls), ttl, Max(Horizon(calls), now), g)
  {
    RunAgrees(ttl, calls);
    PruneAgrees(TableAfter(ttl, calls), ttl, HistoryOf(calls), Horizon(calls), Clock(calls), now, Max(Clock(calls), now));
  }

  /** For sequential calls the answer is the history's at `now`: pruning in between never shows. */
  lemma LiveExact(ttl: nat, calls: seq<Call>, now: nat, g: GatewayInfo)
    requires Sequential(calls) && Clock(calls) <= now
    ensures g in Pruned(TableAfter(ttl, calls), ttl, now).Values <==> Alive(HistoryOf(calls), ttl, now, g)
  {
    LiveAnswers(ttl, calls, now, g);
    RunAgrees(ttl, calls);
  }

  /** A late call can only hide a gateway, and hides exactly those that an earlier call had already found expired. */
  lemma LateCall(ttl: nat, calls: seq<Call>, now: nat, g: GatewayInfo)
    requires Timely(calls) && ttl > 0
    ensures g in Pruned(TableAfter(ttl, calls), ttl, now).Values ==> Alive(HistoryOf(calls), ttl, now, g)
    ensures Alive(HistoryOf(calls), ttl, now, g) ==>
      (g !in Pruned(TableAfter(ttl, calls), ttl, now).Values <==> g.lastSeen + ttl <= Horizon(calls))
  {
    LiveAnswers(ttl, calls, now, g);
  }

  lemma OneMoreCall(calls: seq<Call>, c: Call)
    ensures HistoryOf(calls + [c]) == if c.Announce? then HistoryOf(calls) + [c.info] else HistoryOf(calls)
    ensures Horizon(calls + [c]) == if c.Announce? then Horizon(calls) else Max(Horizon(calls), c.now)
  {
    assert (calls + [c])[..|calls + [c]| - 1] == calls;
    assert HistoryOf(calls) + [] == HistoryOf(calls);
  }

  lemma AnnouncedThenPruned(g: GatewayInfo, calls: seq<Call>, now: nat)
    requires calls == [Announce(g), Live(now, now)]
    ensures HistoryOf(calls) == [g] && Horizon(calls) == now
  {
    OneMoreCall([], Announce(g));
    OneMoreCall([Announce(g)], Live(now, now));
    assert [] + [Announce(g)] == [Announce(g)] && [Announce(g)] + [Live(now, now)] == calls && [] + [g] == [g];
  }

  lemma PrunedIsMissed(ttl: nat, calls: seq<Call>, now: nat, g: GatewayInfo)
    requires Timely(calls) && HistoryOf(calls) == [g] && now < g.lastSeen + ttl <= Horizon(calls) && ttl > 0
    ensures Alive(HistoryOf(calls), ttl, now, g) && g !in Pruned(TableAfter(ttl, calls), ttl, now).Values
  {
    assert [g][0] == g;
    assert Latest([g], g);
    LateCall(ttl, calls, now, g);
  }

  /** Announced at 0 with 10 to live, pruned by a call at 15, and asked for by a call that read 5 on its clock. */
  lemma LateCallMisses(g: GatewayInfo, calls: seq<Call>)
    requires g.lastSeen == 0 && calls == [Announce(g), Live(15, 15)]
    ensures Timely(calls) && Alive(HistoryOf(calls), 10, 5, g) && g !in Pruned(TableAfter(10, calls), 10, 5).Values
  {
    AnnouncedThenPruned(g, calls, 15);
    PrunedIsMissed(10, calls, 5, g);
  }

  // ----- the object

  class GatewayDirectory {
    var gateways: Table
    const ttl: nat

    ghost var history: seq<GatewayInfo>
    ghost var horizon: nat
    ghost var clock: nat

    ghost predicate Valid()
      reads this
    {
      Agrees(gateways, ttl, history, horizon, clock)
    }

    constructor (ttl: nat)
      ensures Valid() && this.ttl == ttl && gateways == map[] && history == [] && horizon == clock == 0
    {
      this.ttl := ttl;
      gateways, history, horizon, clock := map[], [], 0, 0;
    }

    method Announce(addr: Addr, cert: Cert, now: nat)
      requires Valid() && clock <= now
      modifies this
      ensures Valid() && history == old(history) + [GatewayInfo(addr, cert, now)]
      ensures gateways == old(gateways)[addr := GatewayInfo(addr, cert, now)]
      ensures clock == now && horizon == old(horizon)
    {
      var info := GatewayInfo(addr, cert, now);
      AnnounceAgrees(gateways, ttl, history, horizon, clock, info);
      gateways := gateways[addr := info];
      history, clock := history + [info], now;
    }

    /** `now` is read before the lock, taken at `locked`. Without delay the answer is exactly the history's. */
    method Live(now: nat, ghost locked: nat) returns (live: set<GatewayInfo>)
      requires Valid() && clock <= locked && now <= locked
      modifies this
      ensures Valid() && history == old(history) && clock == locked && horizon == Max(old(horizon), now)
      ensures gateways == Pruned(old(gateways), ttl, now)
      ensures forall g :: g in live <==> ttl > 0 && Alive(history, ttl, horizon, g)
      ensures now == locked ==> forall g :: g in live <==> Alive(history, ttl, now, g)
      ensures forall g, h :: g in live && h in live && g.addr == h.addr ==> g == h
    {
      PruneAgrees(gateways, ttl, history, horizon, clock, now, locked);
      gateways := map a | a in gateways && Since(now, gateways[a].lastSeen) < ttl :: gateways[a];
      horizon, clock := Max(horizon, now), locked;
      live := gateways.Values;
    }

    method Sample(now: nat) returns (chosen: Option<GatewayInfo>)
      requires Valid() && clock <= now
      modifies this
      ensures Valid() && history == old(history) && clock == now && horizon == Max(old(horizon), now)
      ensures chosen.Some? ==> Alive(history, ttl, now, chosen.value)
      ensures chosen.None? ==> forall g :: !Alive(history, ttl, now, g)
    {
      var live := Live(now, now);
      if live == {} {
        return None;
      }
      var g :| g in live;
      return Some(g);
    }
  }
}
