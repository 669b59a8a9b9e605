# QUICMIX, verified

A Dafny 4.11 model of the state machines, bounds and codecs inside QUICMIX, with proofs about every run and every
input. `dafny verify dfyconfig.toml` checks all of it.

| part | files | what is proved |
|---|---|---|
| Warm circuit pool | `PoolModel`, `PoolSafety`, `PoolTheorems`, `PoolRetirement`, `PoolRotation`, `PoolExample`, `Proxy` | a concurrent protocol of leases, drain deadlines and refills: one invariant kept by every event, and over every run exact lease counts, drain safety, a memory bound, balanced counters, self-healing, even rotation |
| Substrate boundary | `BoundaryModel`, `BoundaryTheorems`, `Inbox`, `Substrate`, `Client` | FIFO and conservation, pacing under live oracle updates, a rate bound, a queueing-delay bound tied to the bandwidth-delay sizing, and the consumer's view |
| Emulator and striping | `EmulatorModel`, `EmulatorTheorems`, `Emulator`, `RoundRobin`, `Striped` | conservation of datagrams, egress rate, what is delivered at shutdown, fairness of round robin with the counter's wrap, the blended oracle |
| Online oracle | `Sorting`, `Oracle` | the sliding window, percentile relations, the loss threshold, and the round trip recomputed through two floor divisions |
| Codecs | `Framing`, `Socks5`, `Hex`, `Chunked`, `Token` | round trips, cut streams, two decoders that agree, the exact end of a SOCKS5 reply, chunked bodies cut anywhere, token uniqueness under concurrency |
| Gateway directory | `Directory`, `Autopilot` | a lazily pruned table that answers as the full history would, and exactly when the refresh loop keeps a peer alive |

A concurrent part is a state record, an event type, `Enabled` and `Next`; a run is a sequence of enabled events and
`After` the state it leads to, so a statement about `After` holds in every interleaving. Beside it stands a class whose
methods change fields in place as the program does, each proved to take exactly the step `Next` describes. History
(accepted datagrams, removals, retirement times) is recorded in fields no decision reads.

## Conventions

- Time is a natural number of nanoseconds that never goes back. Locks, atomics and channel operations are atomic steps.
- Randomness, scheduling, failures and peer behaviour are choices: a theorem holds for all of them.
- Floating-point formulas are taken in exact integers or reals. Where the source narrows, saturates or wraps an integer
  (`as u64`, `as u32`, `fetch_add`, `fetch_sub`, `wrapping_mul`) the model does too, and `usize` is 64 bits wide.

## Where the code does not meet a natural reading

Each of these has an exact condition and a concrete run or input.

- A busy circuit is reaped, although the pool's documentation says it is not, exactly when a tick finds it past
  `drain_timeout`: `PoolTheorems.LeasedCircuitSurvives`, `PoolExample.BusyCircuitReaped`.
- `bdp_packets` is `max(16, floor(rtt / slot))` unless the byte count saturates 64 bits first: `Client.PacketsExactIff`,
  `Client.SaturationExample`.
- Exported percentiles are narrowed to 64 bits and can then be out of order: `Oracle.ExportedExactIff`,
  `Oracle.ExportedMedian`, `Oracle.ExportWraps`.
- The recomputed round trip is within `2 * hops` ns of the median exactly when the per-hop delay fits in 64 bits:
  `Oracle.EstimateRtt`, `Oracle.EstimateWraps`.
- Round robin is fair across the wrap of its counter exactly when the number of members divides 2^64:
  `RoundRobin.FairAlwaysIff`, `RoundRobin.UnfairAtWrap`.
- Without drops or limits the emulator still loses what is in the pipe or unread when the object is dropped, because
  input and output close together: `EmulatorTheorems.ReceivedIffEmptyAtClose`, `EmulatorTheorems.LateDatagramLost`,
  `EmulatorTheorems.UnreadDatagramLost`.
- The bridge stops at an empty datagram, and at one above 65507 bytes, where the client decoder goes on:
  `Framing.BridgeAgrees`, `Framing.BridgeRoundTripIff`, `Framing.EmptyStopsBridge`.
- A datagram above 2^20 bytes is framed and written, but not read back: `Framing.FramesRoundTripIff`,
  `Framing.OversizedStops`.
- A chunk size near 2^64 makes `dechunk` panic: `Chunked.PanicsIff`, `Chunked.HugeSizePanics`.
- Tokens repeat, with a period of exactly 2^63 calls: `Token.TokensRepeatIff`, `Token.FirstTokenRepeats`.
- A delayed `live` call can miss a gateway that an earlier call already found expired: `Directory.LateCall`,
  `Directory.LateCallMisses`.
- With the node's own limits six slow bootstrap peers are too many, although each answers in every pass:
  `Autopilot.FivePeersAreSafe`, `Autopilot.SlowestExpires`.
- A promoted node skips itself in the refresh loop as "already announced"; its own directory entry therefore expires
  after one time to live and does not come back, on every schedule: `Autopilot.OwnEntryExpires`.

## Model

| member | source | states |
|---|---|---|
| `PoolSafety.StepKeepsInv` | crates/quicmix-eval/src/proxy.rs:84-274 | every event of the pool (pick, drop, tick, count, build, push, peer close, clock) keeps the invariant: distinct slots, counts equal to leases, deadlines equal to retirement plus `drain_timeout`, justified removals, balanced counters, slots banded by deadline |
| `PoolSafety.RunKeepsInv` | crates/quicmix-eval/src/proxy.rs:84-274 | hence every run from a state that satisfies it, in any interleaving, stays in it |
| `PoolSafety.InitInv` | crates/quicmix-eval/src/proxy.rs:142-169 | a freshly spawned pool satisfies the invariant |
| `PoolTheorems.LeaseCountsExact` | crates/quicmix-eval/src/proxy.rs:84-88 | in every run a circuit's in-flight count equals its outstanding leases, so dropping a lease lowers it by one and never wraps it |
| `PoolTheorems.LeaseOnReadyOnly` | crates/quicmix-eval/src/proxy.rs:217-231 | in every run a pick that grants a lease grants it on a circuit that is held, not closed and never retired |
| `PoolTheorems.RetiredNeverLeased` | crates/quicmix-eval/src/proxy.rs:217-231 | once a circuit is retired its leases never grow again, however the run goes on |
| `PoolTheorems.LeasedCircuitSurvives` | crates/quicmix-eval/src/proxy.rs:241-270 | a circuit leased throughout a run and not closed is gone at its end exactly when some tick of the run came at or past its deadline, `drain_timeout` after the tick that retired it; hence it is held in every run that ends sooner |
| `PoolTheorems.StepReapsIff` | crates/quicmix-eval/src/proxy.rs:263-270 | of all events only a tick at or past the deadline removes a leased, live circuit, and it always does |
| `PoolExample.BusyCircuitReaped` | crates/quicmix-eval/src/proxy.rs:241-270 | a run from start-up that reaps a circuit whose lease is out and whose connection is open |
| `PoolTheorems.RemovalsJustified` | crates/quicmix-eval/src/proxy.rs:219-270 | every slot that ever left had a closed connection, or was retired and had no lease or was at or past a deadline exactly `drain_timeout` after its retirement |
| `PoolRetirement.RetiredExactlyWhenSpent` | crates/quicmix-eval/src/proxy.rs:241-250 | in every run a tick retires an undrained circuit exactly when `max_age` has passed since the run built it or the run has leased it `max_uses` times |
| `PoolRetirement.TickRetiresIff` | crates/quicmix-eval/src/proxy.rs:243-246 | the same of one tick, in terms of the slot's birth and use count |
| `PoolRetirement.RetiredWasHeld` | crates/quicmix-eval/src/proxy.rs:241-250 | nothing but an undrained slot of the vector is ever newly retired |
| `PoolRetirement.RunTracked` | crates/quicmix-eval/src/proxy.rs:184-192 | a held slot's birth is the clock when the run built it, and its use count the picks that leased it |
| `PoolRetirement.TickKeepsIff` | crates/quicmix-eval/src/proxy.rs:263-270 | a tick keeps a circuit, leased or idle, exactly when its connection is open and it is not retired, or retired with a lease out and its deadline to come |
| `PoolRetirement.SleepsOneTick` | crates/quicmix-eval/src/proxy.rs:233-236 | the maintainer sleeps exactly `tick` after each refill, and wakes only to tick |
| `PoolTheorems.MemoryBound` | crates/quicmix-eval/src/proxy.rs:197-274 | in every reachable state ready circuits are at most `target` and all slots held at most `target * (2 + ceil(drain_timeout / tick))` |
| `PoolTheorems.AccountsBalance` | crates/quicmix-eval/src/proxy.rs:176-270 | `built` is held plus removed plus at most one in transit; `retired` counts the circuits ever given a deadline; over any later stretch of the run build errors grow by at most one per refill |
| `PoolTheorems.OneErrorPerRefill` | crates/quicmix-eval/src/proxy.rs:204-211 | in every stretch of every run build errors grow by no more than finished refills |
| `PoolTheorems.SelfHeals` | crates/quicmix-eval/src/proxy.rs:195-213 | from any reachable state between refills, if nothing closes or retires and at most F builds fail, then after F + 1 refills the pool is full and stays full |
| `PoolRotation.PicksSpreadEvenly` | crates/quicmix-eval/src/proxy.rs:217-231 | from any reachable state, while the ready circuits stay the same, N picks use each of them floor or ceil of N / ready times, whatever lease drops, deaths, ticks, reaping, failed builds and time lie between them; from any counter value until it wraps, and across the wrap when their number divides 2^64 |
| `PoolRotation.PickTurns` | crates/quicmix-eval/src/proxy.rs:218-225 | a pick counts one use on the ready circuit whose turn it is, by the counter modulo the ready ones, and none on the others, also when it prunes dead slots first |
| `Proxy.WarmPool.constructor` | crates/quicmix-eval/src/proxy.rs:142-162 | a new pool is empty with zero counters, about to pre-warm |
| `Proxy.WarmPool.Retain` | crates/quicmix-eval/src/proxy.rs:264-270 | in-place pruning keeps exactly the slots the test accepts, in order, and logs the rest |
| `Proxy.WarmPool.Pick` | crates/quicmix-eval/src/proxy.rs:217-231 | takes the machine's pick step, hands out one more lease on the circuit it returns, and returns nothing exactly when no circuit is ready |
| `Proxy.WarmPool.Drop` | crates/quicmix-eval/src/proxy.rs:84-88 | takes the machine's lease-drop step, changing only the count and the leases |
| `Proxy.WarmPool.Maintain` | crates/quicmix-eval/src/proxy.rs:233-271 | one maintainer pass (retire what is due, then reap) is the machine's tick |
| `Proxy.WarmPool.Len` | crates/quicmix-eval/src/proxy.rs:276-284 | counts exactly the undrained live circuits |
| `Proxy.WarmPool.BeginRefill` | crates/quicmix-eval/src/proxy.rs:197-204 | the counting step decides on `target` minus ready builds, or goes back to sleep |
| `Proxy.WarmPool.BuildOne` | crates/quicmix-eval/src/proxy.rs:176-193 | a successful build carries a fresh idle slot with a new identity; a failed one is counted and ends the refill |
| `Proxy.WarmPool.PushBuilt` | crates/quicmix-eval/src/proxy.rs:204-206 | pushing the carried slot raises the ready count by one unless its connection already closed |
| `Proxy.WarmPool.Refill` | crates/quicmix-eval/src/proxy.rs:197-213 | an undisturbed refill builds the shortfall and reaches `target`, or stops at the first failure with exactly one more build error |
| `Proxy.Mark` | crates/quicmix-eval/src/proxy.rs:241-250 | the retiring loop sets the deadline on every due slot and on no other, and counts them |
| `Proxy.ChoiceWhenReady` | crates/quicmix-eval/src/proxy.rs:219-224 | after dead slots are pruned a pick finds a circuit exactly when one is ready |
| `BoundaryTheorems.FifoAndConserved` | crates/quicmix/src/substrate.rs:83-115 | in every run the accepted datagrams are, in order, those handed to the inner substrate and then those queued; `sent + send_errors` counts those processed; lossy offers are accepts plus `dropped`; the queue never exceeds `max(queue_depth, 1)` |
| `BoundaryTheorems.AcceptsExactly` | crates/quicmix/src/substrate.rs:83-86 | a new boundary accepts a burst with nothing taken between exactly when it is no longer than `max(queue_depth, 1)` |
| `BoundaryTheorems.LossySendEffect` | crates/quicmix/src/substrate.rs:220-224 | a lossy send accepts and stamps the datagram exactly when there is room, and else drops and counts it |
| `BoundaryTheorems.CompletionReadsPublished` | crates/quicmix/src/substrate.rs:101-112 | after any run a completion counts its outcome and pauses for the slot interval published last |
| `BoundaryTheorems.TakeGauges` | crates/quicmix/src/substrate.rs:95-99 | a take publishes how many accepted datagrams are not yet handed over, and the whole microseconds this one waited |
| `BoundaryTheorems.EachSendWaits` | crates/quicmix/src/substrate.rs:94-113 | in every run, under any oracle updates, each inner send starts no sooner than every earlier completion plus the slot current at that completion |
| `BoundaryTheorems.RateBound` | crates/quicmix/src/substrate.rs:94-113 | if no published slot falls below m > 0, any window of length W holds at most floor(W / m) + 1 inner sends |
| `BoundaryTheorems.WindowBound` | crates/quicmix/src/substrate.rs:109-112 | instants at least m apart: at most floor(W / m) + 1 fall in any window of length W |
| `BoundaryTheorems.DelayBound` | crates/quicmix/src/substrate.rs:83-114 | with a fixed slot, exact sleeps and instantaneous inner sends every accepted datagram is handed over within `depth * slot` of its acceptance |
| `Client.PacketsPerRtt` | crates/quicmix/src/client.rs:51-66 | the queue depth is the number of slots in a round trip, at least 16 and at most what a 64-bit byte count can express |
| `Client.WindowBytes` | crates/quicmix/src/client.rs:51-59 | the congestion window is the whole bytes the path carries in a round trip, saturated at 64 bits, at least two datagrams, and 16 MiB for an uncapped path |
| `Client.EdgeDepths` | crates/quicmix/src/client.rs:51-66 | the depth of an uncapped path and of one with a zero MTU |
| `Client.PacketsExactIff` | crates/quicmix/src/client.rs:51-66 | it is `max(16, floor(rtt / slot))` exactly when the byte count does not saturate below that |
| `Client.SaturationExample` | crates/quicmix/src/client.rs:57 | a path for which it saturates |
| `Client.DepthTimesSlot` | crates/quicmix/src/client.rs:61-66 | draining a queue of that depth takes at most `max(16 * slot, rtt)` |
| `Client.RelayDelayBound` | crates/quicmix/src/relay.rs:36-39 | a boundary sized as the relay sizes it hands every accepted datagram over within `max(16 * slot, rtt)` |
| `Inbox.ConsumerView` | crates/quicmix/src/substrate.rs:117-136 | in every run the consumer sees a prefix of the inner datagrams in order, then at most one typed error, then `Closed` for ever; `received` runs ahead of what was delivered by at most the depth plus one |
| `Inbox.BuffersExactly` | crates/quicmix/src/substrate.rs:87 | a consumer that takes nothing has exactly `max(queue_depth, 1)` datagrams forwarded to it |
| `Substrate.Substrate.constructor` | crates/quicmix/src/substrate.rs:82-88 | a new boundary is empty, idle and of depth exactly `max(queue_depth, 1)` |
| `Substrate.Receiver.constructor` | crates/quicmix/src/substrate.rs:82-88 | so is its receive side |
| `Substrate.Substrate.TrySend` | crates/quicmix/src/substrate.rs:179-184 | queues the datagram, or reports backpressure and changes nothing, exactly when the queue is full |
| `Substrate.Substrate.Send` | crates/quicmix/src/substrate.rs:155-160 | once there is room the backpressured send queues the datagram with the stamp taken before it waited |
| `Substrate.Substrate.LossySend` | crates/quicmix/src/substrate.rs:220-224 | the trait's send either queues or drops and counts |
| `Substrate.Substrate.PumpTake` | crates/quicmix/src/substrate.rs:94-101 | the pump hands over the oldest datagram and publishes queue length and wait |
| `Substrate.Substrate.PumpComplete` | crates/quicmix/src/substrate.rs:101-112 | the pump counts the outcome, then pauses for the slot current at that moment, or not at all for a zero slot |
| `Substrate.Substrate.PumpOne` | crates/quicmix/src/substrate.rs:94-112 | one pass of the pump's loop hands over the oldest datagram, counts its outcome and lets one slot pass |
| `Substrate.Substrate.PumpAll` | crates/quicmix/src/substrate.rs:94-113 | left alone, the loop hands over everything queued once and in order, the i-th i slots from now, with sent and failed counted exactly |
| `Substrate.Substrate.UpdateOracle` | crates/quicmix/src/substrate.rs:200-202 | publishing changes the slot the next pause will use and nothing else |
| `Substrate.Receiver.PumpYield` | crates/quicmix/src/substrate.rs:120-133 | the receive pump counts and holds what the inner substrate yields |
| `Substrate.Receiver.PumpForward` | crates/quicmix/src/substrate.rs:124-131 | it forwards into a queue with room, and ends after an error |
| `Substrate.Receiver.Recv` | crates/quicmix/src/substrate.rs:188-190 | the consumer gets the oldest item, or `Closed` once the pump is gone and the queue is dry |
| `EmulatorTheorems.EverythingAccounted` | crates/quicmix-eval/src/emulator.rs:42-104 | in every run injected equals in the pipe plus unread in the output plus base-dropped plus tail-dropped plus received plus lost with the object, as multisets; the buffer never outgrows its limit, an unbounded one never tail-drops, and nothing is lost while the object lives |
| `EmulatorTheorems.TailDropOnlyWhenFull` | crates/quicmix-eval/src/emulator.rs:87-92 | a step that tail-drops finds the buffer at its limit |
| `EmulatorTheorems.LeavesInOrder` | crates/quicmix-eval/src/emulator.rs:74-104 | in every run datagrams are judged, leave and are received in the order they became ready, those refused at a full buffer left out |
| `EmulatorTheorems.EgressBound` | crates/quicmix-eval/src/emulator.rs:82-103 | in the first t of ticker time at most floor(t / slot) + 1 datagrams leave |
| `EmulatorTheorems.DrainedAtEnd` | crates/quicmix-eval/src/emulator.rs:85-103 | with no drops and no limit everything injected has left the pipe when the egress loop ends |
| `EmulatorTheorems.ReceivedIffEmptyAtClose` | crates/quicmix-eval/src/emulator.rs:106-126 | and everything injected was received exactly when pipe and output were both empty at the moment the object was dropped |
| `EmulatorTheorems.LateDatagramLost` | crates/quicmix-eval/src/emulator.rs:66-69 | a run in which a datagram ripens after that moment and is lost |
| `EmulatorTheorems.UnreadDatagramLost` | crates/quicmix-eval/src/emulator.rs:106-110 | a run in which a datagram is through the pipe but unread at that moment and is lost |
| `Emulator.EmulatedMixnet.Admit` | crates/quicmix-eval/src/emulator.rs:49-70 | stage one drops or delays the oldest input |
| `Emulator.EmulatedMixnet.OnReady` | crates/quicmix-eval/src/emulator.rs:75-92 | a ready datagram passes, is buffered, or is refused exactly at a full buffer |
| `Emulator.EmulatedMixnet.OnHangup` | crates/quicmix-eval/src/emulator.rs:77-93 | the end of stage one closes the loop's input, and ends the loop of an uncapped emulator |
| `Emulator.EmulatedMixnet.OnTick` | crates/quicmix-eval/src/emulator.rs:95-101 | a tick releases the oldest buffered datagram, or ends the loop once closed and dry |
| `Emulator.EmulatedMixnet.Beat` | crates/quicmix-eval/src/emulator.rs:95-101 | one tick, not before its time: releases exactly the oldest buffered datagram into the output while it is held, or ends a closed loop |
| `Emulator.EmulatedMixnet.Egress` | crates/quicmix-eval/src/emulator.rs:85-103 | n ticks without arrivals release the first min(n, buffered) datagrams in order, and end the loop exactly when it is closed and n exceeds what was buffered |
| `Emulator.EmulatedMixnet.Recv` | crates/quicmix-eval/src/emulator.rs:124-126 | the consumer takes the oldest datagram of the output |
| `Emulator.EmulatedMixnet.Drop` | crates/quicmix-eval/src/emulator.rs:106-110 | dropping the object closes the input and loses the unread output |
| `RoundRobin.FairUntilWrap` | crates/quicmix-eval/src/striped.rs:100-106 | any N turns before the counter wraps give every member floor or ceil of N / n |
| `RoundRobin.FairWhenDividing` | crates/quicmix-eval/src/striped.rs:104 | when n divides 2^64 the wrap disturbs nothing |
| `RoundRobin.FairAlwaysIff` | crates/quicmix-eval/src/striped.rs:104 | all windows, across the wrap too, are fair exactly when n divides 2^64 |
| `RoundRobin.UnfairAtWrap` | crates/quicmix-eval/src/striped.rs:104 | otherwise a window over the wrap is not |
| `Striped.Striped.Send` | crates/quicmix-eval/src/striped.rs:100-106 | the datagram goes to the member whose turn it is and the counter steps, or nothing happens without members |
| `Striped.Striped.SendAll` | crates/quicmix-eval/src/striped.rs:100-106 | a burst gives each substrate its turns, and an even share until the counter wraps |
| `Striped.BlendOracles` | crates/quicmix-eval/src/striped.rs:57-92 | the blend is one hop as long as the slowest path, paced so that the first path's MTU leaves at the summed rate, with the mean drop probability; a fixed default without paths |
| `Striped.BlendCappedIff` | crates/quicmix-eval/src/striped.rs:85-89 | over capped paths the blend is capped exactly when the first path's MTU is positive |
| `Striped.BlendOfEqualPaths` | crates/quicmix-eval/src/striped.rs:71-89 | n paths of the same rate and MTU blend to the n-th part of their slot, one path to its own |
| `Striped.RatePerSlot` | crates/quicmix-eval/src/striped.rs:73-77 | a path's rate sends one MTU per slot, an uncapped one 1e9 bytes per second |
| `Striped.BlendCoversPaths` | crates/quicmix-eval/src/striped.rs:57-92 | its bandwidth-delay product is the summed rate times the largest round trip, hence at least the sum of the paths' products, for any number of paths |
| `Oracle.WindowIsRecent` | crates/quicmix/src/oracle.rs:46-51 | after any history the window is its last min(n, 256) samples |
| `Oracle.PercentilesOrdered` | crates/quicmix/src/oracle.rs:74-102 | p50 <= p90 <= p99, and p50 is the median the estimate uses |
| `Oracle.NearestRank` | crates/quicmix/src/oracle.rs:80 | a percentile's index is the nearest to that share of the window, halves going up |
| `Oracle.ExportedExactIff` | crates/quicmix/src/oracle.rs:79-83 | all three exported durations are their percentiles exactly when p99 fits in 64 bits, and then keep their order with p50 the median |
| `Oracle.ExportedMedian` | crates/quicmix/src/oracle.rs:79-83 | exported p50 equals that median exactly when the median fits in 64 bits |
| `Oracle.ExportWraps` | crates/quicmix/src/oracle.rs:81 | a window whose exported p99 is below its p50 |
| `Oracle.WindowMultisetOnly` | crates/quicmix/src/oracle.rs:66-119 | percentiles, median and jitter ratio depend only on the multiset of samples |
| `Oracle.JitterIsLargestOverMedian` | crates/quicmix/src/oracle.rs:106-119 | because of the 256 cap the jitter ratio is `max(1.5, largest / median)` |
| `Oracle.ThresholdChoice` | crates/quicmix/src/client.rs:123-125 | the chosen loss threshold is that ratio, or the structural one without two samples and a positive median, and never below 1.5 |
| `Oracle.StructuralThreshold` | crates/quicmix/src/lib.rs:91-94 | the structural threshold is never below 1.5, and exceeds it exactly up to 19 hops, where its excess over one times the root is 3.1 |
| `Oracle.MoreHopsTighter` | crates/quicmix/src/lib.rs:83-93 | more hops never widen it |
| `Oracle.EstimateRtt` | crates/quicmix/src/oracle.rs:123-138 | the round trip recomputed from the estimate never exceeds the median, and falls short by less than `2 * hops` ns exactly when the per-hop delay fits in 64 bits |
| `Oracle.EstimateIsConfigured` | crates/quicmix/src/oracle.rs:126-137 | the estimate has the configured hops, MTU and slot, and a drop probability that times the packets sent is the packets lost |
| `Oracle.EstimatedDepth` | crates/quicmix/src/client.rs:51-66 | the queue depth for the estimate is the slots in the median round trip, short of at most `2 * hops` ns of it, between 16 and what the byte count expresses |
| `Oracle.EstimateWraps` | crates/quicmix/src/oracle.rs:133 | a median for which the recomputed round trip is zero |
| `Oracle.OracleEstimator.constructor` | crates/quicmix/src/oracle.rs:31-40 | a new estimator is empty and has at least one hop |
| `Oracle.OracleEstimator.RecordRtt` | crates/quicmix/src/oracle.rs:46-51 | recording keeps the window equal to the last 256 samples of the whole history |
| `Oracle.OracleEstimator.RecordAcks` | crates/quicmix/src/oracle.rs:54-57 | replaces the cumulative counts and leaves the window alone |
| `Oracle.OracleEstimator.Sorted` | crates/quicmix/src/oracle.rs:66-70 | an ascending permutation of the window |
| `Oracle.OracleEstimator.RttPercentiles` | crates/quicmix/src/oracle.rs:74-84 | the three percentiles, ordered and anchored at the median when p99 fits in 64 bits |
| `Oracle.OracleEstimator.MeasuredJitter` | crates/quicmix/src/oracle.rs:106-119 | at least 1.5, or zero exactly with fewer than two samples or a zero median |
| `Oracle.OracleEstimator.MeasuredParams` | crates/quicmix/src/oracle.rs:123-138 | the estimate of the current window: configured hops, MTU and slot, measured loss, and a round trip that never exceeds the median |
| `Framing.LenRoundTrip` | crates/quicmix/src/tor.rs:90-100 | a length prefix reads back as the length modulo 2^32 |
| `Framing.PrefixOrder` | crates/quicmix/src/tor.rs:90 | the prefix is big-endian: byte strings of prefixes are ordered as the lengths are |
| `Framing.FrameRoundTripIff` | crates/quicmix/src/tor.rs:88-107 | which datagrams a frame gives back: those within 2^20 bytes, with exactly the frame consumed |
| `Framing.FramesRoundTripIff` | crates/quicmix/src/tor.rs:88-107 | a framed stream gives back every datagram in order exactly when all are within 2^20 bytes |
| `Framing.OversizedStops` | crates/quicmix/src/tor.rs:101-103 | one larger datagram, of a length the prefix can hold, loses itself and everything after it, and nothing before |
| `Framing.OversizedFrame` | crates/quicmix/src/tor.rs:100-103 | such a frame is reported as malformed with only its prefix read |
| `Framing.CutRecovers` | crates/quicmix/src/tor.rs:96-107 | a framed stream cut anywhere gives back exactly the datagrams whose frames are complete |
| `Framing.BridgeAgrees` | crates/quicmix/src/stream_bridge.rs:57-78 | on every byte stream the bridge reads what the client decoder reads up to the first empty datagram, and injects it up to the first that is empty or above the UDP payload limit |
| `Framing.BridgeRoundTripIff` | crates/quicmix/src/stream_bridge.rs:57-78 | for every sequence of datagrams: the bridge's decoder gives it back exactly when each has 1 to 2^20 bytes, and the bridge injects all of it exactly when each has 1 to 65507 |
| `Framing.EmptyStopsBridge` | crates/quicmix/src/stream_bridge.rs:66-68 | a stream the client decoder reads in full and of which the bridge injects nothing |
| `Framing.StreamDatagram.TrySend` | crates/quicmix/src/tor.rs:88-95 | appends one frame to the stream |
| `Framing.StreamDatagram.Receive` | crates/quicmix/src/tor.rs:96-107 | reads one frame or the typed error, leaving the stream right after what it read |
| `Framing.BridgeToUdp` | crates/quicmix/src/stream_bridge.rs:57-78 | the de-framing loop injects exactly that, ending at a send the socket refuses for its size |
| `Framing.BridgeToTcp` | crates/quicmix/src/stream_bridge.rs:81-99 | the framing loop writes a stream the client decoder reads back as the replies |
| `Socks5.HandshakeConsumes` | crates/quicmix/src/tor.rs:135-168 | after any success reply of any of the three address types exactly the reply is consumed |
| `Socks5.HandshakeOnlyAfterReply` | crates/quicmix/src/tor.rs:135-168 | conversely it connects only on a granted method and a success reply, and stops right after it |
| `Socks5.RefusedIff` | crates/quicmix/src/tor.rs:138-165 | each refusal (method, host length, reply code, address type) happens exactly on its cause |
| `Socks5.TunnelRecovers` | crates/quicmix/src/tor.rs:129-169 | decoding what follows the reply, cut anywhere, recovers the complete frames in order |
| `Socks5.RequestRoundTrip` | crates/quicmix/src/tor.rs:142-149 | a proxy parsing the request by section 4 of RFC 1928 reads back the host and port |
| `Socks5.GreetingOffersNoAuth` | crates/quicmix/src/tor.rs:134-135 | a proxy parsing the greeting by section 3 of RFC 1928 reads exactly the method "no authentication" |
| `Socks5.SocksStream.ReadBound` | crates/quicmix/src/tor.rs:156-167 | the bound address and port are skipped for each address type, and the stream is left after them |
| `Socks5.SocksStream.Connect` | crates/quicmix/src/tor.rs:129-169 | performs the handshake on the stream; the greeting is always written, the request exactly when the method is granted and the host fits |
| `Chunked.WellFormedDecodes` | crates/quicmix/src/metrics_ws.rs:412-431 | a well-formed body (section 7.1 of RFC 9112), its sizes rendered in any case, with or without extensions and trailers, decodes to all chunk data; cut at any point it decodes to a prefix of it |
| `Chunked.CutBodyDecodesToPrefix` | crates/quicmix/src/metrics_ws.rs:412-431 | cutting any body anywhere yields a prefix of what the whole yields, or had gathered before a size overflowed; and a cut overflows only if the whole does |
| `Chunked.PanicsIff` | crates/quicmix/src/metrics_ws.rs:425-426 | decoding panics exactly when the cursor comes to a size line whose chunk would end past 2^64 |
| `Chunked.HugeSizePanics` | crates/quicmix/src/metrics_ws.rs:421-426 | a first line of sixteen digits `f` is one, whatever follows |
| `Chunked.SizeRead` | crates/quicmix/src/metrics_ws.rs:420-421 | a size written in hexadecimal digits of any case, with leading zeros, blanks around it and an extension, is read back; one of 2^64 or more reads as zero |
| `Hex.ParseRoundTrip` | crates/quicmix/src/metrics_ws.rs:421 | every number below 2^64 is read back from its rendering by repeated division, in any mix of cases, with leading zeros or a plus; no larger one is |
| `Hex.DigitsOnly` | crates/quicmix/src/metrics_ws.rs:421 | exactly the sixteen digits in either case are digits |
| `Chunked.FindsFirst` | crates/quicmix/src/metrics_ws.rs:416-419 | the line end is the first CR LF pair, and none is found where there is none |
| `Chunked.DechunkBody` | crates/quicmix/src/metrics_ws.rs:412-431 | the loop, whose cursor strictly advances, computes the decoder the lemmas are about |
| `Chunked.ReadRound` | crates/quicmix/src/metrics_ws.rs:416-428 | one pass of the loop on absolute positions: stop, overflow, or the slice to copy and how far the cursor moves |
| `Token.XorShiftInjective` | substrates/quicmix-katzenpost/src/lib.rs:353-355 | exclusive or with its own right shift loses nothing, at any width |
| `Token.MixInjective` | substrates/quicmix-katzenpost/src/lib.rs:353-355 | the xorshift-multiply-xorshift mix is injective on 64-bit values |
| `Token.MixUndone` | substrates/quicmix-katzenpost/src/lib.rs:353-355 | an explicit inverse, with the shifts undone and the factor's inverse modulo 2^64, gives back every 64-bit value |
| `Token.CounterEqualIff` | substrates/quicmix-katzenpost/src/lib.rs:352 | two draws fetch the same counter value exactly when they are a multiple of 2^64 draws apart |
| `Token.HalfEqualIff` | substrates/quicmix-nym/src/bin/nym_rotate.rs:88-99 | and the same holds of the eight bytes they make, so session ids are distinct for 2^64 draws |
| `Token.LittleEndianRoundTrip` | substrates/quicmix-katzenpost/src/lib.rs:356 | the byte rendering can be read back |
| `Token.NoSharedHalf` | substrates/quicmix-katzenpost/src/lib.rs:347-359 | in every interleaving of the first 2^63 calls no two halves, of one token or of two, are equal |
| `Token.TokensRepeatIff` | substrates/quicmix-katzenpost/src/lib.rs:347-359 | non-overlapping calls repeat a token with a period of exactly 2^63 |
| `Token.FirstTokenRepeats` | substrates/quicmix-katzenpost/src/lib.rs:347-359 | token number 2^63 is token number 0 |
| `Token.TokenSource.ForTokens` | substrates/quicmix-katzenpost/src/lib.rs:349 | the token counter starts at its constant with no draws made |
| `Token.TokenSource.ForSessions` | substrates/quicmix-nym/src/bin/nym_rotate.rs:93 | so does the session counter |
| `Token.TokenSource.FetchAdd` | substrates/quicmix-katzenpost/src/lib.rs:352 | the wrapping counter returns the value of the next draw number |
| `Token.TokenSource.SessionId` | substrates/quicmix-nym/src/bin/nym_rotate.rs:88-99 | one draw makes one half |
| `Token.TokenSource.InstanceToken` | substrates/quicmix-katzenpost/src/lib.rs:347-359 | two draws fill the two halves of a fresh array of 16 bytes |
| `Directory.LiveExact` | crates/quicmix/src/directory.rs:46-63 | after any sequential calls `live` answers exactly the latest announcement of each address younger than the time to live, so earlier pruning never shows |
| `Directory.LiveAnswers` | crates/quicmix/src/directory.rs:58-63 | for calls delayed between clock and lock it answers what the history answers at the latest instant pruned for |
| `Directory.LateCall` | crates/quicmix/src/directory.rs:58-63 | a delayed call answers only gateways the history has alive, and misses exactly those of them that had expired at an instant pruned for before |
| `Directory.LateCallMisses` | crates/quicmix/src/directory.rs:58-63 | a sequence of calls in which that happens |
| `Directory.RunAgrees` | crates/quicmix/src/directory.rs:46-63 | in every run the table holds each latest announcement not expired at the latest pruning instant, and nothing else |
| `Directory.GatewayDirectory.constructor` | crates/quicmix/src/directory.rs:38-43 | a new directory is empty |
| `Directory.GatewayDirectory.Announce` | crates/quicmix/src/directory.rs:46-55 | extends the history by one announcement and replaces that address's entry |
| `Directory.GatewayDirectory.Live` | crates/quicmix/src/directory.rs:58-63 | prunes, and answers one entry per address: exactly those the history has alive |
| `Directory.GatewayDirectory.Sample` | crates/quicmix/src/directory.rs:66-68 | some gateway the history has alive, or nothing exactly when there is none |
| `Autopilot.QuickPassesSuffice` | crates/quicmix/src/autopilot.rs:159-174 | a peer that answers in every pass never expires if each pass takes less than a quarter of the time to live |
| `Autopilot.QuarterIsTooSlow` | crates/quicmix/src/autopilot.rs:159-174 | passes of exactly a quarter can let it expire |
| `Autopilot.NeverExpiresIff` | crates/quicmix/src/autopilot.rs:159-174 | with fetches bounded by a limit, no schedule lets an answering peer expire exactly when peers times limit plus half the time to live is below the time to live |
| `Autopilot.SlowestExpires` | crates/quicmix/src/autopilot.rs:159-174 | the schedule that shows it: two passes of fetches at the limit |
| `Autopilot.FivePeersAreSafe` | crates/quicmix/src/autopilot.rs:141-145 | with two timeouts of five seconds per fetch and 120 seconds to live that means at most five peers |
| `Autopilot.OwnEntryExpires` | crates/quicmix/src/autopilot.rs:163-165 | the node's own entry, announced once at start, is listed for one time to live and never again |
| `Autopilot.RunPass` | crates/quicmix/src/autopilot.rs:162-170 | a pass of the loop tells the directory, in order and at the right times, what the schedule says |
| `Autopilot.ToldIffFetched` | crates/quicmix/src/autopilot.rs:166-169 | the directory is told exactly of the fetches that succeeded, each with its certificate and the time it ended |
| `Autopilot.SilentNeverListed` | crates/quicmix/src/autopilot.rs:158-169 | an address whose every fetch fails is never listed |
| `Autopilot.ListedAfterLastAnswer` | crates/quicmix/src/autopilot.rs:158-171 | a peer is listed for one time to live after its last answer and at no time later, with the certificate of that answer |

## Left out

- quinn, rustls, certificates and `rotation.rs`: a circuit is an opaque number with a permanent closed flag.
- `ingress.rs`, `node.rs`, `front.rs`, sidecars and environment parsing: plumbing around sockets and processes.
- The HOPR and Nym bindings, the Tor daemon supervisor, CBOR and BLAKE2: wrappers over external services.
- Katzenpost's `write_frame` and `read_frame`: the framing of `Framing` with another cap; it would only repeat it.
- `sched.rs` and the evaluation metrics: constants and a fixed list of names.
- `split_url` and `parse_response` in `metrics_ws.rs`, `qualifies_as_gateway`, `split_host_port`: easy members.
- Probabilities of delay and drop; IEEE rounding; timer granularity; weak memory ordering.
- The sampling of circuits into the measured oracle inside `maintain`, and its once-a-second throttle.
- `send_timeout`: it is `Send`, or has no effect. Sending into a boundary whose pump is gone (`Closed`) is not modelled.
- Upward overflow of 64-bit statistics counters, of `Duration` arithmetic and of `mtu * 2`, and of `2 * hops` in 32 bits.
- Read errors other than the end of the stream, write errors, and a UDP send that fails for another reason than its size.
- Unicode blanks around a chunk size; the model trims the ASCII ones.
- `fetch_cert`'s write has no timeout in the source; the refresh schedule takes each fetch's duration as given.
- BlendCoversPaths: stated before the blend's slot is rounded to nanoseconds.
- The square root in `loss_time_threshold`: a parameter whose square is twice the hop count, since reals have no root function.
- DelayBound: assumes a fixed slot, exact sleeps and instantaneous inner sends, as does `RelayDelayBound`.
