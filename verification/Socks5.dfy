/** The SOCKS5 client handshake of `tor.rs` (sections 3, 4 and 6 of RFC 1928): what it writes, what it accepts, and that
    it stops reading at exactly the last byte of the proxy's reply. */
module Socks5 {
  import opened Transport
  import opened Framing

  datatype Refusal = Eof | MethodRejected | HostTooLong | ConnectFailed(rep: Byte) | BadAddressType(atyp: Byte)

  /** `rest` is the stream positioned after the reply. */
  datatype Outcome = Connected(rest: seq<Byte>) | Refused(reason: Refusal)

  const GREETING: seq<Byte> := [5, 1, 0]

  function Request(host: seq<Byte>, port: nat): seq<Byte>
    requires |host| <= 255 && port < 0x1_0000
  {
    [5, 1, 0, 3, |host|] + host + [port / 256, port % 256]
  }

  /** The bound address after the four header bytes, and the two port bytes, are read and discarded. */
  function SkipAddress(atyp: Byte, s: seq<Byte>): Outcome {
    if atyp == 1 then Skip(s, 6)
    else if atyp == 4 then Skip(s, 18)
    else if atyp == 3 then
      if s == [] then Refused(Eof) else Skip(s[1..], s[0] as nat + 2)
    else Refused(BadAddressType(atyp))
  }

  function Skip(s: seq<Byte>, n: nat): Outcome {
    match ReadExact(s, n)
    case Got(_, rest) => Connected(rest)
    case Failed(_, _) => Refused(Eof)
  }

  function ReadReply(s: seq<Byte>): Outcome {
    match ReadExact(s, 4)
    case Failed(_, _) => Refused(Eof)
    case Got(head, rest) =>
      if head[1] != 0 then Refused(ConnectFailed(head[1])) else SkipAddress(head[3], rest)
  }

  /** The handshake over the bytes `s` the proxy sends. */
  function Handshake(s: seq<Byte>, host: seq<Byte>): Outcome {
    match ReadExact(s, 2)
    case Failed(_, _) => Refused(Eof)
    case Got(sel, rest) =>
      if sel != [5, 0] then Refused(MethodRejected)
      else if |host| > 255 then Refused(HostTooLong)
      else ReadReply(rest)
  }

  /** A success reply: four header bytes with reply field zero, an address of the type they name, and a port. The client
      checks neither the version nor the reserved byte. */
  ghost predicate SuccessReply(r: seq<Byte>) {
    && |r| >= 5 && r[1] == 0
    && match r[3]
       case 1 => |r| == 10
       case 4 => |r| == 22
       case 3 => |r| == 7 + r[4] as nat
       case _ => false
  }

  lemma ReplyHead(r: seq<Byte>, rest: seq<Byte>)
    requires |r| >= 5
    ensures (r + rest)[..4] == r[..4] && (r + rest)[4..] == r[4..] + rest
  {
  }

  lemma SkipExactly(a: seq<Byte>, rest: seq<Byte>)
    ensures Skip(a + rest, |a|) == Connected(rest)
  {
    assert (a + rest)[|a|..] == rest;
  }

  lemma ReplyConsumed(r: seq<Byte>, rest: seq<Byte>)
    requires SuccessReply(r)
    ensures ReadReply(r + rest) == Connected(rest)
  {
    ReplyHead(r, rest);
    if r[3] == 3 {
      assert (r[4..] + rest)[1..] == r[5..] + rest;
      SkipExactly(r[5..], rest);
    } else {
      SkipExactly(r[4..], rest);
    }
  }

  /** After any success reply of any address type, exactly the reply is consumed. */
  lemma HandshakeConsumes(r: seq<Byte>, rest: seq<Byte>, host: seq<Byte>)
    requires SuccessReply(r) && |host| <= 255
    ensures Handshake([5, 0] + r + rest, host) == Connected(rest)
  {
    var s := [5, 0] + r + rest;
    assert s[..2] == [5, 0] && s[2..] == r + rest;
    ReplyConsumed(r, rest);
  }

  lemma SkipTakes(s: seq<Byte>, n: nat)
    requires Skip(s, n).Connected?
    ensures n <= |s| && s == s[..n] + Skip(s, n).rest
  {
  }

  lemma ReplyRead(s: seq<Byte>) returns (r: seq<Byte>)
    requires ReadReply(s).Connected?
    ensures SuccessReply(r) && s == r + ReadReply(s).rest
  {
    var head, tail := s[..4], s[4..];
    if head[3] == 3 {
      SkipTakes(tail[1..], tail[0] as nat + 2);
      r := s[..7 + tail[0] as nat];
    } else if head[3] == 1 {
      SkipTakes(tail, 6);
      r := s[..10];
    } else {
      SkipTakes(tail, 18);
      r := s[..22];
    }
  }

  /** Conversely the handshake connects only on a granted method and a success reply, and then stops right after it. */
  lemma HandshakeOnlyAfterReply(s: seq<Byte>, host: seq<Byte>) returns (r: seq<Byte>)
    requires Handshake(s, host).Connected?
    ensures |host| <= 255 && SuccessReply(r) && s == [5, 0] + r + Handshake(s, host).rest
  {
    assert s == s[..2] + s[2..];
    r := ReplyRead(s[2..]);
  }

  /** What follows the reply is the framed stream, cut wherever the connection ended: the datagrams whose frames came
      through whole are recovered, in order. */
  lemma TunnelRecovers(r: seq<Byte>, ds: seq<Datagram>, k: nat, host: seq<Byte>) returns (m: nat)
    requires SuccessReply(r) && |host| <= 255 && AllWithinCap(ds) && k <= |Frames(ds)|
    ensures WholeFrames(ds, k, m)
    ensures Handshake([5, 0] + r + Frames(ds)[..k], host).Connected?
    ensures RecvAll(Handshake([5, 0] + r + Frames(ds)[..k], host).rest) == ds[..m]
  {
    HandshakeConsumes(r, Frames(ds)[..k], host);
    m := CutRecovers(ds, k);
  }

  // ----- refusals

  /** The reason a reply is refused, if it is not a success reply or one cut short. */
  lemma ReplyRefusedIff(s: seq<Byte>)
    ensures forall rep :: ReadReply(s) == Refused(ConnectFailed(rep)) <==> |s| >= 4 && s[1] == rep && rep != 0
    ensures forall atyp :: ReadReply(s) == Refused(BadAddressType(atyp)) <==>
      |s| >= 4 && s[1] == 0 && s[3] == atyp && atyp != 1 && atyp != 3 && atyp != 4
    ensures ReadReply(s) != Refused(MethodRejected) && ReadReply(s) != Refused(HostTooLong)
  {
  }

  /** Every refusal of the handshake has its exact cause in what the proxy sent and what was asked for; running out of bytes
      is what remains when the proxy granted the method and no other cause applies. */
  lemma RefusedIff(s: seq<Byte>, host: seq<Byte>)
    ensures Handshake(s, host) == Refused(MethodRejected) <==> |s| >= 2 && s[..2] != [5, 0]
    ensures Handshake(s, host) == Refused(HostTooLong) <==> |s| >= 2 && s[..2] == [5, 0] && |host| > 255
    ensures forall rep :: Handshake(s, host) == Refused(ConnectFailed(rep)) <==>
      |s| >= 6 && s[..2] == [5, 0] && |host| <= 255 && s[3] == rep && rep != 0
    ensures forall atyp :: Handshake(s, host) == Refused(BadAddressType(atyp)) <==>
      |s| >= 6 && s[..2] == [5, 0] && |host| <= 255 && s[3] == 0 && s[5] == atyp && atyp != 1 && atyp != 3 && atyp != 4
  {
    if |s| >= 2 {
      ReplyRefusedIff(s[2..]);
    }
  }

  // ----- what is written

  /** How a proxy reads the greeting (section 3 of RFC 1928): the methods the client offers. */
  function ParseGreeting(s: seq<Byte>): Read<seq<Byte>> {
    if |s| < 2 || s[0] != 5 || |s| < 2 + s[1] as nat then Failed(Malformed, s)
    else Got(s[2..2 + s[1] as nat], s[2 + s[1] as nat..])
  }

  /** The greeting offers exactly the method "no authentication", number 0. */
  lemma GreetingOffersNoAuth(rest: seq<Byte>)
    ensures ParseGreeting(GREETING + rest) == Got([0], rest)
  {
    var s := GREETING + rest;
    assert s[..3] == GREETING && s[3..] == rest;
    assert s[2..3] == [0];
  }

  /** How a proxy reads a domain-name CONNECT request (section 4 of RFC 1928). */
  function ParseRequest(s: seq<Byte>): Read<(seq<Byte>, nat)> {
    if |s| < 5 || s[..4] != [5, 1, 0, 3] || |s| < 7 + s[4] as nat then Failed(Malformed, s)
    else
      var n := s[4] as nat;
      Got((s[5..5 + n], s[5 + n] as nat * 256 + s[6 + n] as nat), s[7 + n..])
  }

  /** The proxy reads back the host and port the client asked for. */
  lemma RequestRoundTrip(host: seq<Byte>, port: nat, rest: seq<Byte>)
    requires |host| <= 255 && port < 0x1_0000
    ensures ParseRequest(Request(host, port) + rest) == Got((host, port), rest)
  {
    var s := Request(host, port) + rest;
    var n := |host|;
    assert s[..4] == [5, 1, 0, 3] && s[4] == n;
    assert s[5..5 + n] == host;
    assert s[5 + n] == port / 256 && s[6 + n] == port % 256;
    assert s[7 + n..] == rest;
  }

  /** The proxy chose "no authentication". */
  predicate Granted(s: seq<Byte>) {
    |s| >= 2 && s[..2] == [5, 0]
  }

  /** The client's side of the connection. */
  class SocksStream {
    var incoming: seq<Byte>
    var written: seq<Byte>

    constructor (incoming: seq<Byte>)
      ensures this.incoming == incoming && written == []
    {
      this.incoming, written := incoming, [];
    }

    method Take(n: nat) returns (r: Read<seq<Byte>>)
      modifies this`incoming
      ensures r == ReadExact(old(incoming), n) && incoming == r.rest
    {
      r := ReadExact(incoming, n);
      incoming := r.rest;
    }

    method ReadBound(atyp: Byte) returns (r: Outcome)
      modifies this`incoming
      ensures r == SkipAddress(atyp, old(incoming)) && (r.Connected? ==> incoming == r.rest)
    {
      var len := 4;
      if atyp == 4 {
        len := 16;
      } else if atyp == 3 {
        var l := Take(1);
        if l.Failed? {
          return Refused(Eof);
        }
        len := l.value[0] as nat;
      } else if atyp != 1 {
        return Refused(BadAddressType(atyp));
      }
      var skip := Take(len + 2);
      r := if skip.Failed? then Refused(Eof) else Connected(incoming);
    }

    /** `socks5_connect` once the TCP connection to the proxy is up. */
    method Connect(host: seq<Byte>, port: nat) returns (r: Outcome)
      requires port < 0x1_0000
      modifies this
      ensures r == Handshake(old(incoming), host) && (r.Connected? ==> incoming == r.rest)
      ensures written == old(written) + GREETING + (if Granted(old(incoming)) && |host| <= 255 then Request(host, port) else [])
      ensures r.Connected? ==> |host| <= 255 && Granted(old(incoming))
    {
      written := written + GREETING;
      assert written + [] == written;
      var sel := Take(2);
      if sel.Failed? {
        return Refused(Eof);
      }
      if sel.value != [5, 0] {
        return Refused(MethodRejected);
      }
      if |host| > 255 {
        return Refused(HostTooLong);
      }
      written := written + Request(host, port);
      var head := Take(4);
      if head.Failed? {
        return Refused(Eof);
      }
      if head.value[1] != 0 {
        return Refused(ConnectFailed(head.value[1]));
      }
      r := ReadBound(head.value[3]);
    }
  }
}
