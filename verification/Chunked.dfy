/** Chunked transfer decoding (section 7.1 of RFC 9112) as `dechunk` does it: on complete bodies, on bodies cut anywhere, and
    on arbitrary bytes. */
module Chunked {
  import opened Arithmetic
  import opened Hex
  import opened Sequences
  import opened Transport

  const CR: Byte := '\r' as nat
  const LF: Byte := '\n' as nat
  const SEMICOLON: Byte := ';' as nat

  // ----- the size line

  predicate Blank(b: Byte) {
    9 <= b <= 13 || b == 32
  }

  function TrimStart(s: seq<Byte>): seq<Byte> {
    if s != [] && Blank(s[0]) then TrimStart(s[1..]) else s
  }

  function TrimEnd(s: seq<Byte>): seq<Byte> {
    if s != [] && Blank(s[|s| - 1]) then TrimEnd(s[..|s| - 1]) else s
  }

  function Trim(s: seq<Byte>): seq<Byte> {
    TrimEnd(TrimStart(s))
  }

  /** `split(';').next()`. */
  function BeforeSemicolon(s: seq<Byte>): seq<Byte> {
    if s == [] || s[0] == SEMICOLON then [] else [s[0]] + BeforeSemicolon(s[1..])
  }

  function ChunkSize(line: seq<Byte>): nat {
    match ParseHex(Trim(BeforeSemicolon(Trim(line))))
    case Some(n) => n
    case None => 0
  }

  /** First index of a CR LF pair. */
  function FindCrlf(s: seq<Byte>): (r: Option<nat>)
    ensures r.Some? ==> r.value + 1 < |s|
  {
    if |s| < 2 then None
    else if s[0] == CR && s[1] == LF then Some(0)
    else match FindCrlf(s[1..])
      case None => None
      case Some(p) => Some(p + 1)
  }

  // ----- the decoder

  /** `data_start + size` leaves the 64-bit range: an overflow panic, or with wrapping arithmetic a slice panic. */
  datatype Decoded = Data(bytes: seq<Byte>) | Panic

  function Prepend(bytes: seq<Byte>, d: Decoded): Decoded {
    if d.Panic? then Panic else Data(bytes + d.bytes)
  }

  /** One round of the decoding loop: leave it, overflow, or copy some bytes and move the cursor on, by one more than `skip`. */
  datatype Round = Stop | Overflow | Copy(bytes: seq<Byte>, skip: nat)

  /** The round at cursor `i`, with `rest` the body from there on; `sizeOf` reads size lines. */
  function RoundAt(sizeOf: seq<Byte> -> nat, rest: seq<Byte>, i: nat): Round {
    match FindCrlf(rest)
    case None => Stop
    case Some(p) =>
      var size := sizeOf(rest[..p]);
      var start := p + 2;
      if size == 0 then Stop
      else if i + start + size >= U64_RANGE then Overflow
      else
        var end := if start + size <= |rest| then start + size else |rest|;
        Copy(rest[start..end], end + 1)
  }

  function Rounds(sizeOf: seq<Byte> -> nat, body: seq<Byte>): nat -> Round {
    (i: nat) => if i < |body| then RoundAt(sizeOf, body[i..], i) else Stop
  }

  /** The decoding loop entered at cursor `i` of a body of `n` bytes. */
  function Decode(round: nat -> Round, n: nat, i: nat): Decoded
    decreases if i < n then n - i else 0
  {
    if i >= n then Data([]) else
    match round(i)
    case Stop => Data([])
    case Overflow => Panic
    case Copy(bytes, skip) => Prepend(bytes, Decode(round, n, i + skip + 1))
  }

  function Dechunk(body: seq<Byte>): Decoded {
    Decode(Rounds(ChunkSize, body), |body|, 0)
  }

  /** The bytes gathered by the time the loop ends or overflows. */
  function Gathered(round: nat -> Round, n: nat, i: nat): seq<Byte>
    decreases if i < n then n - i else 0
  {
    if i < n && round(i).Copy? then round(i).bytes + Gathered(round, n, i + round(i).skip + 1) else []
  }

  function BytesBefore(body: seq<Byte>): seq<Byte> {
    Gathered(Rounds(ChunkSize, body), |body|, 0)
  }

  lemma {:induction false} DecodeGathers(round: nat -> Round, n: nat, i: nat)
    ensures Decode(round, n, i) == Panic || Decode(round, n, i) == Data(Gathered(round, n, i))
    decreases if i < n then n - i else 0
  {
    if i < n && round(i).Copy? {
      DecodeGathers(round, n, i + round(i).skip + 1);
    }
  }

  lemma PrependTwice(a: seq<Byte>, b: seq<Byte>, d: Decoded)
    ensures Prepend(a, Prepend(b, d)) == Prepend(a + b, d)
    ensures Prepend([], d) == d
  {
    if d.Data? {
      assert a + (b + d.bytes) == (a + b) + d.bytes && [] + d.bytes == d.bytes;
    }
  }

  lemma SliceOfRest(body: seq<Byte>, i: nat, from: nat, to: nat)
    requires i + from <= i + to <= |body|
    ensures body[i..][from..to] == body[i + from..i + to]
  {
  }

  /** One pass through the loop's body, on absolute positions. */
  method ReadRound(sizeOf: seq<Byte> -> nat, body: seq<Byte>, i: nat) returns (r: Round)
    requires i < |body|
    ensures r == Rounds(sizeOf, body)(i)
  {
    var found := FindCrlf(body[i..]);
    if found.None? {
      return Stop;
    }
    var lineEnd := i + found.value;
    SliceOfRest(body, i, 0, found.value);
    var size := sizeOf(body[i..lineEnd]);
    if size == 0 {
      return Stop;
    }
    var start := lineEnd + 2;
    if start + size >= U64_RANGE {
      return Overflow;
    }
    var end := if start + size <= |body| then start + size else |body|;
    SliceOfRest(body, i, start - i, end - i);
    return Copy(body[start..end], end + 1 - i);
  }

  /** The loop with the bytes gathered so far. */
  function DecodeInto(round: nat -> Round, n: nat, i: nat, data: seq<Byte>): Decoded
    decreases if i < n then n - i else 0
  {
    if i >= n then Data(data) else
    match round(i)
    case Stop => Data(data)
    case Overflow => Panic
    case Copy(bytes, skip) => DecodeInto(round, n, i + skip + 1, data + bytes)
  }

  lemma {:induction false} DecodeIntoPrepends(round: nat -> Round, n: nat, i: nat, data: seq<Byte>)
    ensures DecodeInto(round, n, i, data) == Prepend(data, Decode(round, n, i))
    decreases if i < n then n - i else 0
  {
    if i < n && round(i).Copy? {
      var bytes, next := round(i).bytes, i + round(i).skip + 1;
      DecodeIntoPrepends(round, n, next, data + bytes);
      PrependTwice(data, bytes, Decode(round, n, next));
    } else {
      assert data + [] == data;
    }
  }

  method DechunkLoop(sizeOf: seq<Byte> -> nat, body: seq<Byte>) returns (out: Decoded)
    ensures out == Decode(Rounds(sizeOf, body), |body|, 0)
  {
    var data: seq<Byte> := [];
    var i := 0;
    ghost var rounds := Rounds(sizeOf, body);
    ghost var whole := Decode(rounds, |body|, 0);
    DecodeIntoPrepends(rounds, |body|, 0, []);
    PrependTwice([], [], whole);
    while i < |body|
      invariant DecodeInto(rounds, |body|, i, data) == whole
      decreases if i < |body| then |body| - i else 0
    {
      var round := ReadRound(sizeOf, body, i);
      match round {
        case Stop => return Data(data);
        case Overflow => return Panic;
        case Copy(bytes, skip) => data, i := data + bytes, i + skip + 1;
      }
    }
    return Data(data);
  }

  method DechunkBody(body: seq<Byte>) returns (out: Decoded)
    ensures out == Dechunk(body)
  {
    out := DechunkLoop(ChunkSize, body);
  }

  // ----- cut bodies

  lemma {:induction false} FindCrlfCut(s: seq<Byte>, t: seq<Byte>)
    requires s <= t && FindCrlf(s).Some?
    ensures FindCrlf(t) == FindCrlf(s)
  {
    if !(s[0] == CR && s[1] == LF) {
      assert s[1..] <= t[1..];
      FindCrlfCut(s[1..], t[1..]);
    }
  }

  /** Round `c`, on a body that ends `left` bytes on, stops, or does what round `r` does as far as that end allows. */
  ghost predicate CutRound(c: Round, r: Round, left: nat) {
    || c == Stop
    || (c == Overflow && r == Overflow)
    || (c.Copy? && c == r)
    || (c.Copy? && r.Copy? && c.bytes <= r.bytes && left <= c.skip + 1)
  }

  lemma RoundsCut(sizeOf: seq<Byte> -> nat, body: seq<Byte>, k: nat, i: nat)
    requires i < k <= |body|
    ensures CutRound(Rounds(sizeOf, body[..k])(i), Rounds(sizeOf, body)(i), k - i)
  {
    var short, rest := body[..k][i..], body[i..];
    assert short <= rest;
    if FindCrlf(short).Some? {
      FindCrlfCut(short, rest);
      var p := FindCrlf(short).value;
      assert short[..p] == rest[..p];
      CopiesCut(short, rest, p + 2, p + 2 + sizeOf(short[..p]));
    }
  }

  lemma CopiesCut(short: seq<Byte>, rest: seq<Byte>, start: nat, end: nat)
    requires short <= rest && start <= |short| && start <= end
    ensures end <= |short| ==> short[start..end] == rest[start..end]
    ensures |short| < end ==> short[start..] <= rest[start..if end <= |rest| then end else |rest|]
  {
  }

  lemma {:induction false} GatheredCut(cut: nat -> Round, round: nat -> Round, k: nat, n: nat, i: nat)
    requires k <= n && forall j :: 0 <= j < k ==> CutRound(cut(j), round(j), k - j)
    ensures Gathered(cut, k, i) <= Gathered(round, n, i)
    ensures Decode(cut, k, i).Panic? ==> Decode(round, n, i).Panic?
    decreases if i < n then n - i else 0
  {
    if i < k && cut(i).Copy? {
      var c, r := cut(i), round(i);
      if c == r {
        GatheredCut(cut, round, k, n, i + r.skip + 1);
      } else {
        assert Gathered(cut, k, i + c.skip + 1) == [] && c.bytes + [] == c.bytes;
        assert Decode(cut, k, i + c.skip + 1) == Data([]);
        assert r.bytes <= Gathered(round, n, i);
      }
    }
  }

  /** Cutting any body, anywhere, yields a prefix of what the whole yields, or had gathered before it overflowed; and
      only a body that overflows does so when cut. */
  lemma CutBodyDecodesToPrefix(body: seq<Byte>, k: nat)
    requires k <= |body|
    ensures BytesBefore(body[..k]) <= BytesBefore(body)
    ensures Dechunk(body[..k]).Data? ==> Dechunk(body[..k]).bytes <= BytesBefore(body)
    ensures Dechunk(body[..k]).Panic? ==> Dechunk(body).Panic?
    ensures Dechunk(body).Data? ==> Dechunk(body).bytes == BytesBefore(body)
  {
    forall j: nat | j < k
      ensures CutRound(Rounds(ChunkSize, body[..k])(j), Rounds(ChunkSize, body)(j), k - j)
    {
      RoundsCut(ChunkSize, body, k, j);
    }
    GatheredCut(Rounds(ChunkSize, body[..k]), Rounds(ChunkSize, body), k, |body|, 0);
    DecodeGathers(Rounds(ChunkSize, body[..k]), k, 0);
    DecodeGathers(Rounds(ChunkSize, body), |body|, 0);
  }

  // ----- sizes that overflow

  /** The loop comes from cursor `i` to cursor `j`. */
  ghost predicate Reaches(round: nat -> Round, n: nat, i: nat, j: nat)
    decreases if i < n then n - i else 0
  {
    i == j || (i < n && round(i).Copy? && Reaches(round, n, i + round(i).skip + 1, j))
  }

  /** The loop comes to a cursor where the size line overflows. */
  ghost predicate Overflows(round: nat -> Round, n: nat, i: nat) {
    exists j: nat :: j < n && Reaches(round, n, i, j) && round(j) == Overflow
  }

  lemma OverflowsNext(round: nat -> Round, n: nat, i: nat)
    requires i < n && round(i).Copy?
    ensures Overflows(round, n, i) <==> Overflows(round, n, i + round(i).skip + 1)
  {
    var next := i + round(i).skip + 1;
    if Overflows(round, n, i) {
      var j: nat :| j < n && Reaches(round, n, i, j) && round(j) == Overflow;
      assert Reaches(round, n, next, j);
    }
    if Overflows(round, n, next) {
      var j: nat :| j < n && Reaches(round, n, next, j) && round(j) == Overflow;
      assert Reaches(round, n, i, j);
    }
  }

  lemma {:induction false} DecodePanicsIff(round: nat -> Round, n: nat, i: nat)
    ensures Decode(round, n, i).Panic? <==> Overflows(round, n, i)
    decreases if i < n then n - i else 0
  {
    if i < n && round(i).Copy? {
      DecodePanicsIff(round, n, i + round(i).skip + 1);
      OverflowsNext(round, n, i);
    } else if i < n && round(i) == Overflow {
      assert Reaches(round, n, i, i);
    }
  }

  /** The line at cursor `j` announces a chunk that would end past the 64-bit range. */
  ghost predicate HugeSizeAt(body: seq<Byte>, j: nat) {
    && j < |body| && FindCrlf(body[j..]).Some?
    && var p := FindCrlf(body[j..]).value;
       ChunkSize(body[j..j + p]) > 0 && j + p + 2 + ChunkSize(body[j..j + p]) >= U64_RANGE
  }

  lemma OverflowAt(body: seq<Byte>, j: nat)
    requires j < |body|
    ensures Rounds(ChunkSize, body)(j) == Overflow <==> HugeSizeAt(body, j)
  {
    if FindCrlf(body[j..]).Some? {
      SliceOfRest(body, j, 0, FindCrlf(body[j..]).value);
    }
  }

  /** Decoding panics exactly when the cursor comes to a line with such a size. */
  lemma PanicsIff(body: seq<Byte>)
    ensures Dechunk(body).Panic? <==> exists j: nat :: Reaches(Rounds(ChunkSize, body), |body|, 0, j) && HugeSizeAt(body, j)
  {
    var round := Rounds(ChunkSize, body);
    DecodePanicsIff(round, |body|, 0);
    forall j: nat | j < |body|
      ensures round(j) == Overflow <==> HugeSizeAt(body, j)
    {
      OverflowAt(body, j);
    }
  }

  // ----- well-formed bodies

  /** A size line: the size in hexadecimal, in any mix of cases and with any leading zeros, blanks around it, and possibly
      an extension introduced by a semicolon. */
  datatype SizeLine = SizeLine(lead: seq<Byte>, zeros: nat, size: nat, upper: nat -> bool, pad: seq<Byte>, ext: seq<Byte>) {
    ghost predicate Valid() {
      && Blanks(lead) && Blanks(pad)
      && (ext != [] ==> ext[0] == SEMICOLON)
      && CR !in ext
    }

    function Text(): seq<Byte> {
      lead + Numeral(zeros, size, upper) + pad + ext
    }
  }

  /** Spaces, tabs and the other ASCII blanks but the carriage return. */
  ghost predicate Blanks(s: seq<Byte>) {
    forall i :: 0 <= i < |s| ==> s[i] == 32 || 9 <= s[i] <= 12
  }

  /** `line` is a size line announcing `n` bytes. */
  ghost predicate Announces(line: seq<Byte>, n: nat) {
    exists l: SizeLine :: l.Valid() && l.Text() == line && l.size == n < U64_RANGE
  }

  datatype Chunk = Chunk(line: seq<Byte>, data: seq<Byte>) {
    function Text(): seq<Byte> {
      line + [CR, LF] + data + [CR, LF]
    }
  }

  function Encode(chunks: seq<Chunk>, last: seq<Byte>, trailer: seq<Byte>): seq<Byte> {
    if chunks == [] then last + [CR, LF] + trailer else chunks[0].Text() + Encode(chunks[1..], last, trailer)
  }

  function Payload(chunks: seq<Chunk>): seq<Byte> {
    if chunks == [] then [] else chunks[0].data + Payload(chunks[1..])
  }

  lemma {:induction false} TrimEndBlanks(s: seq<Byte>, pad: seq<Byte>)
    requires s != [] && !Blank(s[|s| - 1]) && forall i :: 0 <= i < |pad| ==> Blank(pad[i])
    ensures TrimEnd(s + pad) == s
  {
    var t := s + pad;
    if pad == [] {
      assert t == s;
    } else {
      assert t[..|t| - 1] == s + pad[..|pad| - 1];
      TrimEndBlanks(s, pad[..|pad| - 1]);
    }
  }

  /** Trimming never reaches past a byte that is not blank. */
  lemma {:induction false} TrimEndKeeps(s: seq<Byte>, t: seq<Byte>)
    requires t != [] && !Blank(t[0])
    ensures TrimEnd(s + t) == s + TrimEnd(t) && TrimEnd(t) != [] && TrimEnd(t)[0] == t[0]
  {
    var n := |t| - 1;
    if Blank(t[n]) {
      assert (s + t)[..|s + t| - 1] == s + t[..n];
      TrimEndKeeps(s, t[..n]);
    }
  }

  lemma {:induction false} BeforeSemicolonStops(s: seq<Byte>, t: seq<Byte>)
    requires SEMICOLON !in s && (t != [] ==> t[0] == SEMICOLON)
    ensures BeforeSemicolon(s + t) == s
  {
    if s == [] {
      assert s + t == t;
    } else {
      assert (s + t)[1..] == s[1..] + t;
      BeforeSemicolonStops(s[1..], t);
    }
  }

  lemma {:induction false} TrimStartBlanks(pad: seq<Byte>, s: seq<Byte>)
    requires s != [] && !Blank(s[0]) && Blanks(pad)
    ensures TrimStart(pad + s) == s
  {
    if pad == [] {
      assert pad + s == s;
    } else {
      assert (pad + s)[1..] == pad[1..] + s;
      TrimStartBlanks(pad[1..], s);
    }
  }

  /** Blanks around a numeral and an extension after it are stripped. */
  lemma NumeralFound(lead: seq<Byte>, d: seq<Byte>, pad: seq<Byte>, ext: seq<Byte>)
    requires Blanks(lead) && Blanks(pad) && (ext != [] ==> ext[0] == SEMICOLON)
    requires d != [] && AllHex(d)
    ensures Trim(BeforeSemicolon(Trim(lead + d + pad + ext))) == d
  {
    var head := d + pad;
    assert lead + d + pad + ext == lead + (head + ext) && head + [] == head && d + [] == d;
    TrimStartBlanks(lead, head + ext);
    assert IsHex(d[0]) && IsHex(d[|d| - 1]) && SEMICOLON !in head;
    TrimEndBlanks(d, pad);
    TrimEndBlanks(d, []);
    if ext == [] {
      BeforeSemicolonStops(d, []);
    } else {
      TrimEndKeeps(head, ext);
      BeforeSemicolonStops(head, TrimEnd(ext));
    }
  }

  /** The size is read through blanks, zeros, cases and extensions; one of 2^64 or more reads as zero, which ends the body. */
  lemma SizeRead(l: SizeLine)
    requires l.Valid()
    ensures ChunkSize(l.Text()) == if l.size < U64_RANGE then l.size else 0
  {
    NumeralRead(l.zeros, l.size, l.upper);
    NumeralFound(l.lead, Numeral(l.zeros, l.size, l.upper), l.pad, l.ext);
    ParseRoundTrip(l.zeros, l.size, l.upper);
  }

  lemma LineHasNoReturn(l: SizeLine)
    requires l.Valid()
    ensures CR !in l.Text()
  {
    NumeralRead(l.zeros, l.size, l.upper);
  }

  /** A CR LF pair is found where the first one is, and nothing where there is none. */
  lemma {:induction false} FindsFirst(s: seq<Byte>)
    ensures FindCrlf(s).Some? ==> s[FindCrlf(s).value] == CR && s[FindCrlf(s).value + 1] == LF
    ensures forall i, j :: 0 <= i && j == i + 1 < |s| && s[i] == CR && s[j] == LF ==> FindCrlf(s).Some? && FindCrlf(s).value <= i
  {
    if |s| >= 2 {
      FindsFirst(s[1..]);
      forall i, j | 0 <= i && j == i + 1 < |s| && s[i] == CR && s[j] == LF
        ensures FindCrlf(s).Some? && FindCrlf(s).value <= i
      {
        if i > 0 {
          assert s[1..][i - 1] == CR && s[1..][j - 1] == LF;
        }
      }
    }
  }

  lemma {:induction false} LineFound(line: seq<Byte>, rest: seq<Byte>)
    requires CR !in line
    ensures FindCrlf(line + [CR, LF] + rest) == Some(|line|)
  {
    var s := line + [CR, LF] + rest;
    if line != [] {
      assert s[0] == line[0] && s[1..] == line[1..] + [CR, LF] + rest;
      LineFound(line[1..], rest);
    }
  }

  /** `sizeOf` reads `line` as `n`, and the line's end is where it seems. */
  ghost predicate Reads(sizeOf: seq<Byte> -> nat, line: seq<Byte>, n: nat) {
    CR !in line && sizeOf(line) == n
  }

  lemma AnnouncedRead(line: seq<Byte>, n: nat)
    requires Announces(line, n)
    ensures Reads(ChunkSize, line, n)
  {
    var l: SizeLine :| l.Valid() && l.Text() == line && l.size == n < U64_RANGE;
    SizeRead(l);
    LineHasNoReturn(l);
  }

  /** The chunk at the front of `rest` is copied whole. */
  lemma ChunkRound(sizeOf: seq<Byte> -> nat, c: Chunk, more: seq<Byte>, rest: seq<Byte>, i: nat)
    requires c.data != [] && Reads(sizeOf, c.line, |c.data|) && rest == c.Text() + more && i + |rest| < U64_RANGE
    ensures RoundAt(sizeOf, rest, i) == Copy(c.data, |c.line| + |c.data| + 3)
  {
    var tail := c.data + [CR, LF] + more;
    assert rest == c.line + [CR, LF] + tail;
    LineFound(c.line, tail);
    assert rest[..|c.line|] == c.line && rest[|c.line| + 2..|c.line| + 2 + |c.data|] == c.data;
  }

  lemma LastRound(sizeOf: seq<Byte> -> nat, last: seq<Byte>, trailer: seq<Byte>, rest: seq<Byte>, i: nat)
    requires Reads(sizeOf, last, 0) && rest == last + [CR, LF] + trailer
    ensures RoundAt(sizeOf, rest, i) == Stop
  {
    LineFound(last, trailer);
    assert rest[..|last|] == last;
  }

  /** Where the chunks still to come begin. */
  function Offset(chunks: seq<Chunk>, k: nat): nat
    requires k <= |chunks|
  {
    if k == 0 then 0 else Offset(chunks, k - 1) + |chunks[k - 1].line| + |chunks[k - 1].data| + 4
  }

  lemma {:induction false} EncodeAt(chunks: seq<Chunk>, last: seq<Byte>, trailer: seq<Byte>, k: nat)
    requires k <= |chunks|
    ensures Offset(chunks, k) <= |Encode(chunks, last, trailer)|
    ensures Encode(chunks, last, trailer)[Offset(chunks, k)..] == Encode(chunks[k..], last, trailer)
  {
    var body := Encode(chunks, last, trailer);
    if k == 0 {
      assert chunks[0..] == chunks && body[0..] == body;
    } else {
      EncodeAt(chunks, last, trailer, k - 1);
      var text, next := chunks[k - 1].Text(), Encode(chunks[k..], last, trailer);
      assert chunks[k - 1..][0] == chunks[k - 1] && chunks[k - 1..][1..] == chunks[k..];
      EncodeDrop(body, Offset(chunks, k - 1), text, next);
    }
  }

  lemma EncodeDrop(body: seq<Byte>, i: nat, text: seq<Byte>, next: seq<Byte>)
    requires i <= |body| && body[i..] == text + next
    ensures i + |text| <= |body| && body[i + |text|..] == next
  {
    assert body[i + |text|..] == body[i..][|text|..];
  }

  /** The round at cursor `i` copies the chunk and moves the cursor to `next`. */
  ghost predicate Copies(r: Round, c: Chunk, i: nat, next: nat) {
    r.Copy? && r.bytes == c.data && i + r.skip + 1 == next
  }

  /** The rounds copy the chunks, chunk `k` at cursor `at(k)`, and then stop. */
  ghost predicate Follows(round: nat -> Round, n: nat, at: nat -> nat, chunks: seq<Chunk>) {
    && (forall k: nat :: k < |chunks| ==> at(k) < n && Copies(round(at(k)), chunks[k], at(k), at(k + 1)))
    && round(at(|chunks|)) == Stop
  }

  lemma {:induction false} FollowsDecodes(round: nat -> Round, n: nat, at: nat -> nat, chunks: seq<Chunk>, k: nat)
    requires Follows(round, n, at, chunks) && k <= |chunks|
    ensures Decode(round, n, at(k)) == Data(Payload(chunks[k..]))
    decreases |chunks| - k
  {
    if k < |chunks| {
      FollowsDecodes(round, n, at, chunks, k + 1);
      assert chunks[k..][0] == chunks[k] && chunks[k..][1..] == chunks[k + 1..];
    }
  }

  function Offsets(chunks: seq<Chunk>): nat -> nat {
    (k: nat) => if k <= |chunks| then Offset(chunks, k) else 0
  }

  ghost predicate AllRead(sizeOf: seq<Byte> -> nat, chunks: seq<Chunk>) {
    forall k :: 0 <= k < |chunks| ==> chunks[k].data != [] && Reads(sizeOf, chunks[k].line, |chunks[k].data|)
  }

  lemma ChunkFollows(sizeOf: seq<Byte> -> nat, chunks: seq<Chunk>, last: seq<Byte>, trailer: seq<Byte>, body: seq<Byte>, k: nat)
    requires AllRead(sizeOf, chunks) && k < |chunks|
    requires body == Encode(chunks, last, trailer) && |body| < U64_RANGE
    ensures var at := Offset(chunks, k);
      at < |body| && Copies(RoundAt(sizeOf, body[at..], at), chunks[k], at, Offset(chunks, k + 1))
  {
    EncodeAt(chunks, last, trailer, k);
    var at := Offset(chunks, k);
    ChunkRound(sizeOf, chunks[k], Encode(chunks[k..][1..], last, trailer), body[at..], at);
  }

  lemma EncodeFollows(sizeOf: seq<Byte> -> nat, chunks: seq<Chunk>, last: seq<Byte>, trailer: seq<Byte>, body: seq<Byte>)
    requires AllRead(sizeOf, chunks) && Reads(sizeOf, last, 0)
    requires body == Encode(chunks, last, trailer) && |body| < U64_RANGE
    ensures Follows(Rounds(sizeOf, body), |body|, Offsets(chunks), chunks)
  {
    var at := Offsets(chunks);
    forall k: nat | k < |chunks|
      ensures at(k) < |body| && Copies(Rounds(sizeOf, body)(at(k)), chunks[k], at(k), at(k + 1))
    {
      ChunkFollows(sizeOf, chunks, last, trailer, body, k);
    }
    var end := Offset(chunks, |chunks|);
    EncodeAt(chunks, last, trailer, |chunks|);
    LastRound(sizeOf, last, trailer, body[end..], end);
  }

  /** A well-formed body, with or without extensions and trailers, decodes to the concatenated chunk data; cut anywhere,
      it decodes to a prefix of it. */
  lemma WellFormedDecodes(chunks: seq<Chunk>, last: seq<Byte>, trailer: seq<Byte>, k: nat)
    requires forall i :: 0 <= i < |chunks| ==> chunks[i].data != [] && Announces(chunks[i].line, |chunks[i].data|)
    requires Announces(last, 0) && k <= |Encode(chunks, last, trailer)| < U64_RANGE
    ensures Dechunk(Encode(chunks, last, trailer)) == Data(Payload(chunks))
    ensures Dechunk(Encode(chunks, last, trailer)[..k]).Data?
    ensures Dechunk(Encode(chunks, last, trailer)[..k]).bytes <= Payload(chunks)
  {
    var body := Encode(chunks, last, trailer);
    forall i | 0 <= i < |chunks|
      ensures Reads(ChunkSize, chunks[i].line, |chunks[i].data|)
    {
      AnnouncedRead(chunks[i].line, |chunks[i].data|);
    }
    AnnouncedRead(last, 0);
    EncodeFollows(ChunkSize, chunks, last, trailer, body);
    FollowsDecodes(Rounds(ChunkSize, body), |body|, Offsets(chunks), chunks, 0);
    assert chunks[0..] == chunks;
    CutBodyDecodesToPrefix(body, k);
  }

  // ----- a size that overflows

  lemma LongLinePanics(line: seq<Byte>, n: nat, rest: seq<Byte>)
    requires Reads(ChunkSize, line, n) && n > 0 && |line| + 2 + n >= U64_RANGE
    ensures Dechunk(line + [CR, LF] + rest) == Panic
  {
    var body := line + [CR, LF] + rest;
    LineFound(line, rest);
    assert body[0..] == body && body[0..0 + |line|] == line;
    assert HugeSizeAt(body, 0);
    assert Reaches(Rounds(ChunkSize, body), |body|, 0, 0);
    PanicsIff(body);
  }

  /** A first line of sixteen digits `f` makes the decoder panic, whatever follows. */
  lemma HugeSizePanics(rest: seq<Byte>)
    ensures Dechunk(Fs(16) + [CR, LF] + rest) == Panic
  {
    FsText(16, 0);
    SixteenDigits();
    var l := SizeLine([], 0, U64_RANGE - 1, _ => false, [], []);
    assert l.Text() == Fs(16) by {
      assert [] + (Zeros(0) + HexText(l.size, l.upper)) + [] + [] == HexText(l.size, l.upper);
    }
    SizeRead(l);
    LineHasNoReturn(l);
    LongLinePanics(Fs(16), U64_RANGE - 1, rest);
  }
}
