/** The emulated mixnet: a drop-and-delay stage that reorders, then an egress buffer of bounded length drained one
    datagram per slot by a ticker. Randomness is choice: which datagrams drop, and when each delay ends. */
module EmulatorModel {
  import opened Sequences
  import opened Transport

  /** `limit` is `None` for the unbounded buffer. `open` holds while the emulator object lives: dropping it closes the
      input and, with it, the receiving end of the output, whose unread datagrams go too. `log` is history. */
  datatype Emulator = Emulator(
    slot: nat,
    limit: Option<nat>,
    start: nat,
    now: nat,
    ticks: nat,
    open: bool,
    inbox: seq<Datagram>,
    delayed: multiset<Datagram>,
    ready: seq<Datagram>,
    queue: seq<Datagram>,
    output: seq<Datagram>,
    closed: bool,
    done: bool,
    log: Log)

  /** What the egress loop made of a ready datagram. */
  datatype Verdict = Verdict(datagram: Datagram, kept: bool)

  /** `ripened` lists the datagrams as they became ready, `verdicts` as the egress loop received them, `left` as it put them
      out, and `received` as the consumer took them. */
  datatype Log = Log(
    injected: multiset<Datagram>,
    baseDropped: multiset<Datagram>,
    tailDropped: multiset<Datagram>,
    received: seq<Datagram>,
    discarded: multiset<Datagram>,
    ripened: seq<Datagram>,
    verdicts: seq<Verdict>,
    left: seq<Datagram>,
    egressAt: seq<nat>)

  datatype Event =
    | Inject(datagram: Datagram)
    | Admit(drop: bool)
    | Ripen(datagram: Datagram)
    | Accept
    | Hangup
    | Tick
    | Recv
    | Close
    | Advance(elapsed: nat)

  predicate HasRoom(m: Emulator) {
    m.limit.None? || |m.queue| < m.limit.value
  }

  /** Stage one is over: nothing can become ready any more. */
  predicate Upstream(m: Emulator) {
    m.open || m.inbox != [] || m.delayed != multiset{}
  }

  /** Hand a datagram to the output channel; with the receiver gone it is lost. */
  function Emit(m: Emulator, d: Datagram): Emulator {
    var log := m.log.(left := m.log.left + [d], egressAt := m.log.egressAt + [m.now]);
    if m.open then m.(output := m.output + [d], log := log)
    else m.(log := log.(discarded := log.discarded + multiset{d}))
  }

  predicate Enabled(m: Emulator, e: Event) {
    match e
    case Inject(_) => m.open
    case Admit(_) => m.inbox != []
    case Ripen(d) => d in m.delayed
    case Accept => !m.done && !m.closed && m.ready != []
    case Hangup => !m.done && !m.closed && m.ready == [] && !Upstream(m)
    case Tick => !m.done && m.slot > 0 && m.start + m.ticks * m.slot <= m.now
    case Recv => m.open && m.output != []
    case _ => true
  }

  function Next(m: Emulator, e: Event): Emulator
    requires Enabled(m, e)
  {
    match e
    case Inject(d) => m.(inbox := m.inbox + [d], log := m.log.(injected := m.log.injected + multiset{d}))
    case Admit(drop) =>
      var d := m.inbox[0];
      if drop then m.(inbox := m.inbox[1..], log := m.log.(baseDropped := m.log.baseDropped + multiset{d}))
      else m.(inbox := m.inbox[1..], delayed := m.delayed + multiset{d})
    case Ripen(d) =>
      m.(delayed := m.delayed - multiset{d}, ready := m.ready + [d], log := m.log.(ripened := m.log.ripened + [d]))
    case Accept =>
      var d := m.ready[0];
      var kept := m.slot == 0 || HasRoom(m);
      var n := m.(ready := m.ready[1..], log := m.log.(verdicts := m.log.verdicts + [Verdict(d, kept)]));
      if m.slot == 0 then Emit(n, d)
      else if kept then n.(queue := m.queue + [d])
      else n.(log := n.log.(tailDropped := n.log.tailDropped + multiset{d}))
    case Hangup => m.(closed := true, done := m.slot == 0)
    case Tick =>
      var n := m.(ticks := m.ticks + 1);
      if m.queue != [] then Emit(n.(queue := m.queue[1..]), m.queue[0])
      else n.(done := m.closed)
    case Recv =>
      m.(output := m.output[1..], log := m.log.(received := m.log.received + [m.output[0]]))
    case Close =>
      m.(open := false, output := [], log := m.log.(discarded := m.log.discarded + multiset(m.output)))
    case Advance(elapsed) => m.(now := m.now + elapsed)
  }

  function Fresh(slot: nat, limit: Option<nat>, now: nat): Emulator {
    Emulator(slot, limit, now, now, 0, true, [], multiset{}, [], [], [], false, false,
             Log(multiset{}, multiset{}, multiset{}, [], multiset{}, [], [], [], []))
  }

  predicate Runs(m: Emulator, es: seq<Event>)
    decreases |es|
  {
    es == [] || (Enabled(m, es[0]) && Runs(Next(m, es[0]), es[1..]))
  }

  function After(m: Emulator, es: seq<Event>): Emulator
    requires Runs(m, es)
    decreases |es|
  {
    if es == [] then m else After(Next(m, es[0]), es[1..])
  }
}
