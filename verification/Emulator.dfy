/** The emulator object: its two tasks change channels, the egress deque and the loop flags in place. */
module Emulator {
  import opened Sequences
  import opened Transport
  import M = EmulatorModel

  class EmulatedMixnet {
    const slot: nat
    const limit: Option<nat>
    const start: nat
    var now: nat
    var ticks: nat
    var open: bool
    var inbox: seq<Datagram>
    var delayed: multiset<Datagram>
    var ready: seq<Datagram>
    var queue: seq<Datagram>
    var output: seq<Datagram>
    var closed: bool
    var done: bool
    ghost var log: M.Log

    ghost function View(): M.Emulator
      reads this
    {
      M.Emulator(slot, limit, start, now, ticks, open, inbox, delayed, ready, queue, output, closed, done, log)
    }

    constructor (slot: nat, limit: Option<nat>, now: nat)
      ensures View() == M.Fresh(slot, limit, now)
    {
      this.slot, this.limit, this.start, this.now := slot, limit, now, now;
      ticks, open, inbox, delayed, ready, queue, output := 0, true, [], multiset{}, [], [], [];
      closed, done := false, false;
      log := M.Log(multiset{}, multiset{}, multiset{}, [], multiset{}, [], [], [], []);
    }

    method Send(datagram: Datagram)
      requires M.Enabled(View(), M.Inject(datagram))
      modifies this`inbox, this`log
      ensures View() == M.Next(old(View()), M.Inject(datagram))
    {
      inbox := inbox + [datagram];
      log := log.(injected := log.injected + multiset{datagram});
    }

    /** Stage one takes the next datagram: drop it, or start its delay. */
    method Admit(drop: bool)
      requires M.Enabled(View(), M.Admit(drop))
      modifies this`inbox, this`delayed, this`log
      ensures View() == M.Next(old(View()), M.Admit(drop))
    {
      var d := inbox[0];
      inbox := inbox[1..];
      if drop {
        log := log.(baseDropped := log.baseDropped + multiset{d});
      } else {
        delayed := delayed + multiset{d};
      }
    }

    /** A delay ends. */
    method Ripen(datagram: Datagram)
      requires M.Enabled(View(), M.Ripen(datagram))
      modifies this`delayed, this`ready, this`log
      ensures View() == M.Next(old(View()), M.Ripen(datagram))
    {
      delayed, ready := delayed - multiset{datagram}, ready + [datagram];
      log := log.(ripened := log.ripened + [datagram]);
    }

    /** `out_tx.send`: into the output while someone holds it, else nowhere. */
    method Emit(d: Datagram)
      modifies this`output, this`log
      ensures View() == M.Emit(old(View()), d)
    {
      log := log.(left := log.left + [d], egressAt := log.egressAt + [now]);
      if open {
        output := output + [d];
      } else {
        log := log.(discarded := log.discarded + multiset{d});
      }
    }

    /** The consumer's `recv` with something to read. */
    method Recv() returns (datagram: Datagram)
      requires M.Enabled(View(), M.Recv)
      modifies this`output, this`log
      ensures View() == M.Next(old(View()), M.Recv) && old(output) == [datagram] + output
    {
      datagram := output[0];
      output := output[1..];
      log := log.(received := log.received + [datagram]);
    }

    /** The object goes: input and output close together. */
    method Drop()
      modifies this`open, this`output, this`log
      ensures View() == M.Next(old(View()), M.Close)
    {
      log := log.(discarded := log.discarded + multiset(output));
      open, output := false, [];
    }

    /** The egress loop's receive branch: pass through, buffer, or tail-drop. */
    method OnReady() returns (passed: Option<Datagram>, kept: bool)
      requires M.Enabled(View(), M.Accept)
      modifies this`ready, this`queue, this`output, this`log
      ensures View() == M.Next(old(View()), M.Accept)
      ensures passed == if slot == 0 then Some(old(ready)[0]) else None
      ensures !kept <==> slot > 0 && limit.Some? && old(|queue|) >= limit.value
    {
      var d := ready[0];
      ready, passed := ready[1..], None;
      kept := slot == 0 || limit.None? || |queue| < limit.value;
      log := log.(verdicts := log.verdicts + [M.Verdict(d, kept)]);
      if slot == 0 {
        passed := Some(d);
        Emit(d);
      } else if kept {
        queue := queue + [d];
      } else {
        log := log.(tailDropped := log.tailDropped + multiset{d});
      }
    }

    method OnHangup()
      requires M.Enabled(View(), M.Hangup)
      modifies this`closed, this`done
      ensures View() == M.Next(old(View()), M.Hangup)
    {
      closed, done := true, slot == 0;
    }

    /** The egress loop's ticker branch: release the oldest datagram, or end once closed and dry. */
    method OnTick() returns (released: Option<Datagram>)
      requires M.Enabled(View(), M.Tick)
      modifies this`ticks, this`queue, this`output, this`done, this`log
      ensures View() == M.Next(old(View()), M.Tick)
      ensures released == if old(queue) == [] then None else Some(old(queue)[0])
    {
      ticks, released := ticks + 1, None;
      if queue != [] {
        var d := queue[0];
        queue, released := queue[1..], Some(d);
        Emit(d);
      } else if closed {
        done := true;
      }
    }

    /** One turn of the egress loop's ticker: wait for the tick, then take it. */
    method Beat() returns (released: Option<Datagram>)
      requires slot > 0 && !done
      modifies this`now, this`ticks, this`queue, this`output, this`done, this`log
      ensures start + old(ticks) * slot <= now && old(now) <= now && ticks == old(ticks) + 1
      ensures old(queue) == [] ==> released.None? && queue == [] && output == old(output) && log == old(log) && done == closed
      ensures old(queue) != [] ==> released == Some(old(queue)[0]) && queue == old(queue)[1..] && !done
      ensures old(queue) != [] ==> output == if open then old(output) + [old(queue)[0]] else old(output)
      ensures log.received == old(log).received && log.tailDropped == old(log).tailDropped
    {
      var due := start + ticks * slot;
      if now < due {
        now := due;
      }
      released := OnTick();
    }

    /** The egress loop while nothing new becomes ready, for up to `n` ticks: it releases the oldest datagrams in order,
        one a tick, and ends exactly when it is closed and a tick finds the buffer dry. */
    method Egress(n: nat) returns (released: seq<Datagram>)
      requires slot > 0 && !done
      modifies this`now, this`ticks, this`queue, this`output, this`done, this`log
      ensures released + queue == old(queue)
      ensures |released| == if n <= |old(queue)| then n else |old(queue)|
      ensures done <==> closed && |old(queue)| < n
      ensures output == if open then old(output) + released else old(output)
      ensures log.received == old(log).received && log.tailDropped == old(log).tailDropped
    {
      released := [];
      assert [] + queue == queue && output + [] == output;
      var k := 0;
      while k < n && !done
        invariant k <= n && ticks == old(ticks) + k
        invariant released + queue == old(queue)
        invariant |released| == if k <= |old(queue)| then k else |old(queue)|
        invariant done <==> closed && |old(queue)| < k
        invariant output == if open then old(output) + released else old(output)
        invariant log.received == old(log).received && log.tailDropped == old(log).tailDropped
      {
        ghost var sofar, rest := released, queue;
        var d := Beat();
        if d.Some? {
          released := released + [d.value];
          assert sofar + rest == released + queue;
        }
        k := k + 1;
      }
    }
  }
}
