/** Length-prefix framing of datagrams over a byte stream, with its two decoders: the client's `StreamDatagram` and
    the gateway's stream bridge. A stream is the sequence of bytes still to come. */
module Framing {
  import opened Transport

  const MAX_DATAGRAM: nat := 0x10_0000
  const U32_RANGE: nat := 0x1_0000_0000

  /** `(n as u32).to_be_bytes()`. */
  function LenBytes(n: nat): (r: seq<Byte>)
    ensures |r| == 4
  {
    [n / 0x100_0000 % 256, n / 0x1_0000 % 256, n / 0x100 % 256, n % 256]
  }

  /** `u32::from_be_bytes`. */
  function LenOf(b: seq<Byte>): nat
    requires |b| == 4
  {
    b[0] as nat * 0x100_0000 + b[1] as nat * 0x1_0000 + b[2] as nat * 0x100 + b[3] as nat
  }

  lemma LenRoundTrip(n: nat)
    ensures LenOf(LenBytes(n)) == n % U32_RANGE
  {
    var q1, q2, q3, q4 := n / 0x100, n / 0x1_0000, n / 0x100_0000, n / U32_RANGE;
    assert n == q1 * 0x100 + n % 256;
    assert q1 == q2 * 0x100 + q1 % 256;
    assert q2 == q3 * 0x100 + q2 % 256;
    assert q3 == q4 * 0x100 + q3 % 256;
    assert n == q4 * U32_RANGE + n % U32_RANGE;
  }

  ghost predicate LexLess(a: seq<Byte>, b: seq<Byte>) {
    a != [] && b != [] && (a[0] < b[0] || (a[0] == b[0] && LexLess(a[1..], b[1..])))
  }

  lemma LexFour(a: seq<Byte>, b: seq<Byte>)
    requires |a| == |b| == 4
    ensures LexLess(a, b) <==>
      || a[0] < b[0]
      || (a[0] == b[0] && (a[1] < b[1] || (a[1] == b[1] && (a[2] < b[2] || (a[2] == b[2] && a[3] < b[3])))))
  {
    assert a[1..][1..] == a[2..] && b[1..][1..] == b[2..];
    assert a[2..][1..] == a[3..] && b[2..][1..] == b[3..];
    assert LexLess(a[3..], b[3..]) <==> a[3] < b[3];
    assert LexLess(a[2..], b[2..]) <==> a[2] < b[2] || (a[2] == b[2] && a[3] < b[3]);
  }

  lemma LexByValue(a: seq<Byte>, b: seq<Byte>)
    requires |a| == |b| == 4
    ensures LexLess(a, b) <==> LenOf(a) < LenOf(b)
  {
    LexFour(a, b);
  }

  /** The prefix is big-endian: as byte strings prefixes are ordered as the lengths are. */
  lemma PrefixOrder(m: nat, n: nat)
    requires m < U32_RANGE && n < U32_RANGE
    ensures LexLess(LenBytes(m), LenBytes(n)) <==> m < n
  {
    LenExact(m);
    LenExact(n);
    LexByValue(LenBytes(m), LenBytes(n));
  }

  function Frame(d: Datagram): seq<Byte> {
    LenBytes(|d|) + d
  }

  function Frames(ds: seq<Datagram>): seq<Byte> {
    if ds == [] then [] else Frame(ds[0]) + Frames(ds[1..])
  }

  /** The outcome of a read: a value, or an error, and in both cases what is left of the stream. */
  datatype Read<+T> = Got(value: T, rest: seq<Byte>) | Failed(error: SubstrateError, rest: seq<Byte>)

  /** `read_exact`: running out of bytes is the stream closing. */
  function ReadExact(s: seq<Byte>, n: nat): Read<seq<Byte>> {
    if |s| < n then Failed(Closed, []) else Got(s[..n], s[n..])
  }

  /** `StreamDatagram::try_recv`. */
  function TryRecv(s: seq<Byte>): Read<Datagram> {
    match ReadExact(s, 4)
    case Failed(e, rest) => Failed(e, rest)
    case Got(len, rest) =>
      if LenOf(len) > MAX_DATAGRAM then Failed(Malformed, rest) else ReadExact(rest, LenOf(len))
  }

  lemma TryRecvShrinks(s: seq<Byte>)
    ensures TryRecv(s).Got? ==> |TryRecv(s).rest| < |s|
  {
  }

  /** Everything `try_recv` yields before its first error. */
  function RecvAll(s: seq<Byte>): seq<Datagram>
    decreases |s|
  {
    TryRecvShrinks(s);
    match TryRecv(s)
    case Got(d, rest) => [d] + RecvAll(rest)
    case Failed(_, _) => []
  }

  /** What the bridge's loop passes on while `ok` holds of each datagram it reads. */
  function BridgeWhile(s: seq<Byte>, ok: Datagram -> bool): seq<Datagram>
    decreases |s|
  {
    TryRecvShrinks(s);
    match TryRecv(s)
    case Got(d, rest) => if ok(d) then [d] + BridgeWhile(rest, ok) else []
    case Failed(_, _) => []
  }

  function NonEmpty(): Datagram -> bool {
    (d: Datagram) => d != []
  }

  /** The largest UDP payload over IPv4. */
  const UDP_MAX: nat := 65507

  /** What the loopback socket accepts, less the empty datagram at which the loop stops. */
  function Sendable(): Datagram -> bool {
    (d: Datagram) => 1 <= |d| <= UDP_MAX
  }

  /** What the bridge's decoder reads: an empty frame ends it. */
  function BridgeReads(s: seq<Byte>): seq<Datagram> {
    BridgeWhile(s, NonEmpty())
  }

  /** What reaches UDP: a datagram the socket refuses ends it too. */
  function BridgeInjects(s: seq<Byte>): seq<Datagram> {
    BridgeWhile(s, Sendable())
  }

  // ----- one frame

  lemma LenExact(n: nat)
    requires n < U32_RANGE
    ensures LenOf(LenBytes(n)) == n
  {
    LenRoundTrip(n);
  }

  /** Four length bytes and then as many bytes as they say. */
  lemma ReadPrefixed(len: seq<Byte>, d: Datagram, rest: seq<Byte>)
    requires |len| == 4 && LenOf(len) == |d| <= MAX_DATAGRAM
    ensures TryRecv(len + d + rest) == Got(d, rest)
  {
    var s := len + d + rest;
    assert s[..4] == len && s[4..] == d + rest;
    assert (d + rest)[..|d|] == d && (d + rest)[|d|..] == rest;
  }

  lemma FrameRead(d: Datagram, rest: seq<Byte>)
    requires |d| <= MAX_DATAGRAM
    ensures TryRecv(Frame(d) + rest) == Got(d, rest)
  {
    LenExact(|d|);
    ReadPrefixed(LenBytes(|d|), d, rest);
  }

  /** Nothing longer than the cap is ever read. */
  lemma ReadWithinCap(s: seq<Byte>)
    ensures TryRecv(s).Got? ==> |TryRecv(s).value| <= MAX_DATAGRAM
  {
  }

  /** A frame decodes to its datagram, leaving the stream at the next byte, exactly when the datagram is within the cap. */
  lemma FrameRoundTripIff(d: Datagram, rest: seq<Byte>)
    ensures TryRecv(Frame(d) + rest) == Got(d, rest) <==> |d| <= MAX_DATAGRAM
  {
    ReadWithinCap(Frame(d) + rest);
    if |d| <= MAX_DATAGRAM {
      FrameRead(d, rest);
    }
  }

  // ----- whole and cut streams

  ghost predicate AllWithinCap(ds: seq<Datagram>) {
    forall i :: 0 <= i < |ds| ==> |ds[i]| <= MAX_DATAGRAM
  }

  lemma ShortFrame(d: Datagram, s: seq<Byte>)
    requires |d| <= MAX_DATAGRAM && s <= Frame(d) && |s| < |Frame(d)|
    ensures TryRecv(s).Failed? && TryRecv(s).error == Closed
  {
    LenRoundTrip(|d|);
    if |s| >= 4 {
      assert s[..4] == Frame(d)[..4] == LenBytes(|d|);
    }
  }

  /** `m` is the number of frames of `ds` that lie wholly within the first `k` bytes. */
  ghost predicate WholeFrames(ds: seq<Datagram>, k: nat, m: nat) {
    && m <= |ds| && |Frames(ds[..m])| <= k
    && (m < |ds| ==> k < |Frames(ds[..m + 1])|)
  }

  lemma FramesHead(ds: seq<Datagram>, m: nat)
    requires 0 < m <= |ds|
    ensures Frames(ds[..m]) == Frame(ds[0]) + Frames(ds[1..][..m - 1])
  {
    assert ds[..m][1..] == ds[1..][..m - 1];
  }

  /** The first `k` bytes of the framed `ds` give back exactly the first `m` datagrams, whose frames they hold whole. */
  ghost predicate Recovered(ds: seq<Datagram>, k: nat, m: nat) {
    WholeFrames(ds, k, m) && k <= |Frames(ds)| && RecvAll(Frames(ds)[..k]) == ds[..m]
  }

  lemma CutShort(ds: seq<Datagram>, k: nat)
    requires ds != [] && |ds[0]| <= MAX_DATAGRAM && k < |Frame(ds[0])| && k <= |Frames(ds)|
    ensures Recovered(ds, k, 0)
  {
    assert Frames(ds)[..k] <= Frame(ds[0]);
    ShortFrame(ds[0], Frames(ds)[..k]);
    FramesHead(ds, 1);
  }

  lemma RecvCons(d: Datagram, rest: seq<Byte>)
    requires |d| <= MAX_DATAGRAM
    ensures RecvAll(Frame(d) + rest) == [d] + RecvAll(rest)
  {
    FrameRead(d, rest);
  }

  lemma WholeTail(ds: seq<Datagram>, k: nat, j: nat, n: nat)
    requires ds != [] && k == |Frame(ds[0])| + j && WholeFrames(ds[1..], j, n)
    ensures WholeFrames(ds, k, n + 1)
  {
    FramesHead(ds, n + 1);
    if n + 1 < |ds| {
      FramesHead(ds, n + 2);
    }
  }

  lemma CutAfter(head: seq<Byte>, tail: seq<Byte>, j: nat)
    requires j <= |tail|
    ensures (head + tail)[..|head| + j] == head + tail[..j]
  {
  }

  lemma CutTail(d: Datagram, tail: seq<Byte>, j: nat)
    requires |d| <= MAX_DATAGRAM && j <= |tail|
    ensures RecvAll((Frame(d) + tail)[..|Frame(d)| + j]) == [d] + RecvAll(tail[..j])
  {
    CutAfter(Frame(d), tail, j);
    RecvCons(d, tail[..j]);
  }

  lemma PrefixHead(ds: seq<Datagram>, n: nat)
    requires ds != [] && n < |ds|
    ensures ds[..n + 1] == [ds[0]] + ds[1..][..n]
  {
  }

  lemma CutStep(ds: seq<Datagram>, k: nat, j: nat, n: nat)
    requires ds != [] && |ds[0]| <= MAX_DATAGRAM && k == |Frame(ds[0])| + j && Recovered(ds[1..], j, n)
    ensures Recovered(ds, k, n + 1)
  {
    WholeTail(ds, k, j, n);
    CutTail(ds[0], Frames(ds[1..]), j);
    PrefixHead(ds, n);
  }

  /** Cutting a framed stream anywhere recovers exactly the datagrams whose frames are complete, in order. */
  lemma {:induction false} CutRecovers(ds: seq<Datagram>, k: nat) returns (m: nat)
    requires AllWithinCap(ds) && k <= |Frames(ds)|
    ensures Recovered(ds, k, m)
  {
    if ds == [] {
      m := 0;
    } else if k < |Frame(ds[0])| {
      m := 0;
      CutShort(ds, k);
    } else {
      var j := k - |Frame(ds[0])|;
      var n := CutRecovers(ds[1..], j);
      m := n + 1;
      CutStep(ds, k, j, n);
    }
  }

  lemma {:induction false} AllReadWithinCap(s: seq<Byte>)
    ensures AllWithinCap(RecvAll(s))
    decreases |s|
  {
    TryRecvShrinks(s);
    ReadWithinCap(s);
    if TryRecv(s).Got? {
      AllReadWithinCap(TryRecv(s).rest);
    }
  }

  lemma {:induction false} FramesReadBack(ds: seq<Datagram>)
    requires AllWithinCap(ds)
    ensures RecvAll(Frames(ds)) == ds
  {
    if ds != [] {
      RecvCons(ds[0], Frames(ds[1..]));
      FramesReadBack(ds[1..]);
    }
  }

  /** An uncut framed stream gives back every datagram in order exactly when all are within the cap. */
  lemma FramesRoundTripIff(ds: seq<Datagram>)
    ensures RecvAll(Frames(ds)) == ds <==> AllWithinCap(ds)
  {
    AllReadWithinCap(Frames(ds));
    if AllWithinCap(ds) {
      FramesReadBack(ds);
    }
  }

  lemma RefusedPrefix(len: seq<Byte>, rest: seq<Byte>)
    requires |len| == 4 && LenOf(len) > MAX_DATAGRAM
    ensures RecvAll(len + rest) == [] && TryRecv(len + rest) == Failed(Malformed, rest)
  {
    assert (len + rest)[..4] == len && (len + rest)[4..] == rest;
  }

  lemma OversizedFrame(d: Datagram, rest: seq<Byte>)
    requires MAX_DATAGRAM < |d| < U32_RANGE
    ensures RecvAll(Frame(d) + rest) == [] && TryRecv(Frame(d) + rest) == Failed(Malformed, d + rest)
  {
    LenExact(|d|);
    RefusedPrefix(LenBytes(|d|), d + rest);
    assert Frame(d) + rest == LenBytes(|d|) + (d + rest);
  }

  /** One datagram above the cap, of a length that fits the prefix, loses itself and all that follow, and nothing before. */
  lemma {:induction false} OversizedStops(before: seq<Datagram>, d: Datagram, rest: seq<Byte>)
    requires AllWithinCap(before) && MAX_DATAGRAM < |d| < U32_RANGE
    ensures RecvAll(Frames(before) + (Frame(d) + rest)) == before
  {
    if before == [] {
      assert [] + (Frame(d) + rest) == Frame(d) + rest;
      OversizedFrame(d, rest);
    } else {
      var more := Frames(before[1..]) + (Frame(d) + rest);
      assert Frames(before) + (Frame(d) + rest) == Frame(before[0]) + more;
      RecvCons(before[0], more);
      OversizedStops(before[1..], d, rest);
    }
  }

  // ----- the bridge against the client decoder

  /** The longest prefix of `ds` in which `ok` holds throughout. */
  function While(ds: seq<Datagram>, ok: Datagram -> bool): seq<Datagram> {
    if ds == [] || !ok(ds[0]) then [] else [ds[0]] + While(ds[1..], ok)
  }

  lemma {:induction false} BridgeIsWhile(s: seq<Byte>, ok: Datagram -> bool)
    ensures BridgeWhile(s, ok) == While(RecvAll(s), ok)
    decreases |s|
  {
    TryRecvShrinks(s);
    if TryRecv(s).Got? {
      BridgeIsWhile(TryRecv(s).rest, ok);
      assert RecvAll(s)[1..] == RecvAll(TryRecv(s).rest);
    }
  }

  /** On every byte stream, well framed or not, the bridge reads what the client decoder reads up to the first empty
      datagram, and injects it up to the first that is empty or larger than UDP carries. */
  lemma BridgeAgrees(s: seq<Byte>)
    ensures BridgeReads(s) == While(RecvAll(s), NonEmpty())
    ensures BridgeInjects(s) == While(RecvAll(s), Sendable())
  {
    BridgeIsWhile(s, NonEmpty());
    BridgeIsWhile(s, Sendable());
  }

  lemma {:induction false} WhileWhole(ds: seq<Datagram>, ok: Datagram -> bool)
    ensures While(ds, ok) == ds <==> forall i :: 0 <= i < |ds| ==> ok(ds[i])
  {
    if ds != [] {
      WhileWhole(ds[1..], ok);
      assert ds == [ds[0]] + ds[1..];
      if ok(ds[0]) && While(ds, ok) == ds {
        assert While(ds, ok)[1..] == While(ds[1..], ok);
      }
    }
  }

  lemma {:induction false} WhileWithin(ds: seq<Datagram>, ok: Datagram -> bool)
    ensures |While(ds, ok)| <= |ds| && While(ds, ok) <= ds
  {
    if ds != [] {
      WhileWithin(ds[1..], ok);
    }
  }

  lemma PrefixWithinCap(a: seq<Datagram>, b: seq<Datagram>)
    requires a <= b && AllWithinCap(b)
    ensures AllWithinCap(a)
  {
    assert forall i :: 0 <= i < |a| ==> a[i] == b[i];
  }

  lemma WhileRoundTrip(ds: seq<Datagram>, ok: Datagram -> bool)
    ensures BridgeWhile(Frames(ds), ok) == ds <==> AllWithinCap(ds) && forall i :: 0 <= i < |ds| ==> ok(ds[i])
  {
    var read := RecvAll(Frames(ds));
    BridgeIsWhile(Frames(ds), ok);
    AllReadWithinCap(Frames(ds));
    WhileWithin(read, ok);
    WhileWhole(ds, ok);
    PrefixWithinCap(While(read, ok), read);
    if AllWithinCap(ds) {
      FramesReadBack(ds);
    }
  }

  /** So its decoder gives back a framed sequence exactly when its datagrams have 1 to 2^20 bytes, and the bridge as a
      whole exactly when they have 1 to 65507. */
  lemma BridgeRoundTripIff(ds: seq<Datagram>)
    ensures BridgeReads(Frames(ds)) == ds <==> forall i :: 0 <= i < |ds| ==> 1 <= |ds[i]| <= MAX_DATAGRAM
    ensures BridgeInjects(Frames(ds)) == ds <==> forall i :: 0 <= i < |ds| ==> 1 <= |ds[i]| <= UDP_MAX
  {
    WhileRoundTrip(ds, NonEmpty());
    WhileRoundTrip(ds, Sendable());
  }

  /** The client decoder reads past an empty datagram; the bridge does not. */
  lemma EmptyStopsBridge(d: Datagram)
    requires 1 <= |d| <= UDP_MAX
    ensures RecvAll(Frames([[], d])) == [[], d] && BridgeInjects(Frames([[], d])) == []
  {
    FramesReadBack([[], d]);
    BridgeAgrees(Frames([[], d]));
  }

  // ----- the objects

  /** A byte stream split into what can still be read and what has been written. */
  class StreamDatagram {
    var read: seq<Byte>
    var written: seq<Byte>

    constructor (stream: seq<Byte>)
      ensures read == stream && written == []
    {
      read, written := stream, [];
    }

    method TrySend(datagram: Datagram)
      modifies this`written
      ensures written == old(written) + Frame(datagram)
    {
      written := written + LenBytes(|datagram|);
      written := written + datagram;
      assert old(written) + LenBytes(|datagram|) + datagram == old(written) + (LenBytes(|datagram|) + datagram);
    }

    method Receive() returns (r: Read<Datagram>)
      modifies this`read
      ensures r == TryRecv(old(read)) && read == r.rest
    {
      var len := ReadExact(read, 4);
      read := len.rest;
      if len.Failed? {
        return Failed(len.error, read);
      }
      var n := LenOf(len.value);
      if n > MAX_DATAGRAM {
        return Failed(Malformed, read);
      }
      r := ReadExact(read, n);
      read := r.rest;
    }
  }

  /** The bridge's TCP-to-UDP loop over everything the peer will ever send, on a loopback socket that refuses only what
      is larger than UDP carries. */
  method BridgeToUdp(stream: seq<Byte>) returns (sent: seq<Datagram>)
    ensures sent == BridgeInjects(stream)
  {
    sent := [];
    var rest := stream;
    while true
      invariant sent + BridgeInjects(rest) == BridgeInjects(stream)
      decreases |rest|
    {
      var len := ReadExact(rest, 4);
      if len.Failed? {
        break;
      }
      var n := LenOf(len.value);
      if n == 0 || n > MAX_DATAGRAM {
        break;
      }
      var buf := ReadExact(len.rest, n);
      if buf.Failed? {
        break;
      }
      if |buf.value| > UDP_MAX {
        break;
      }
      assert BridgeInjects(rest) == [buf.value] + BridgeInjects(buf.rest);
      sent := sent + [buf.value];
      rest := buf.rest;
    }
  }

  /** The bridge's UDP-to-TCP loop frames every reply. */
  method BridgeToTcp(replies: seq<Datagram>) returns (written: seq<Byte>)
    ensures written == Frames(replies)
    ensures AllWithinCap(replies) ==> RecvAll(written) == replies
  {
    written := [];
    for i := 0 to |replies|
      invariant written == Frames(replies[..i])
    {
      assert replies[..i + 1] == replies[..i] + [replies[i]];
      FramesAppend(replies[..i], replies[i]);
      written := written + LenBytes(|replies[i]|) + replies[i];
    }
    assert replies[..|replies|] == replies;
    if AllWithinCap(replies) {
      FramesReadBack(replies);
    }
  }

  lemma {:induction false} FramesAppend(ds: seq<Datagram>, d: Datagram)
    ensures Frames(ds + [d]) == Frames(ds) + LenBytes(|d|) + d
  {
    if ds == [] {
      assert ds + [d] == [d];
    } else {
      assert (ds + [d])[0] == ds[0] && (ds + [d])[1..] == ds[1..] + [d];
      FramesAppend(ds[1..], d);
      assert Frame(ds[0]) + (Frames(ds[1..]) + LenBytes(|d|) + d) == Frame(ds[0]) + Frames(ds[1..]) + LenBytes(|d|) + d;
    }
  }
}
