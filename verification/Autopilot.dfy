/** The bootstrap refresh loop: fetch and announce each peer in turn, sleep half the directory's time to live, and start
    over. When does a peer that always answers stay in the directory? */
module Autopilot {
  import opened Arithmetic
  import opened Sequences
  import opened Directory

  const SECOND: nat := 1_000_000_000
  const DIR_TTL: nat := 120 * SECOND

  /** One `fetch_cert`: how long it took and what it brought. */
  datatype Fetch = Fetch(took: nat, cert: Option<Cert>)

  /** One run of the loop. Pass `k` fetches `peers[j]` as `passes[k][j]`; `first` is when pass 0 starts. */
  datatype Refresh = Refresh(ttl: nat, peers: seq<Addr>, self: Option<Addr>, first: nat, passes: seq<seq<Fetch>>) {
    predicate Valid() {
      forall k :: 0 <= k < |passes| ==> |passes[k]| == |peers|
    }

    predicate Skips(j: nat)
      requires j < |peers|
    {
      self == Some(peers[j])
    }

    function Took(k: nat, j: nat): nat
      requires Valid() && k < |passes| && j < |peers|
    {
      if Skips(j) then 0 else passes[k][j].took
    }

    /** The time when pass `k` has dealt with its first `j` peers. */
    function At(k: nat, j: nat): nat
      requires Valid() && k < |passes| && j <= |peers|
      decreases k, j
    {
      if j > 0 then At(k, j - 1) + Took(k, j - 1)
      else if k > 0 then At(k - 1, |peers|) + ttl / 2
      else first
    }

    /** What the directory was told when pass `k` has dealt with its first `j` peers. */
    function Told(k: nat, j: nat): seq<GatewayInfo>
      requires Valid() && k < |passes| && j <= |peers|
      decreases k, j
    {
      if j > 0 then Told(k, j - 1) + TellsOf(k, j - 1)
      else if k > 0 then Told(k - 1, |peers|)
      else []
    }

    function TellsOf(k: nat, j: nat): seq<GatewayInfo>
      requires Valid() && k < |passes| && j < |peers|
    {
      if Skips(j) || passes[k][j].cert.None? then []
      else [GatewayInfo(peers[j], passes[k][j].cert.value, At(k, j + 1))]
    }

    /** Peer `i` answers in every pass. */
    ghost predicate Answers(i: nat)
      requires Valid() && i < |peers|
    {
      !Skips(i) && forall k :: 0 <= k < |passes| ==> passes[k][i].cert.Some?
    }

    /** `now` falls after step `j` of pass `k` and no later than the next one. */
    ghost predicate Between(k: nat, j: nat, now: nat)
      requires Valid() && k < |passes| && j <= |peers|
    {
      At(k, j) <= now <= if j < |peers| then At(k, j + 1) else At(k, j) + ttl / 2
    }

    /** From its first announcement on, whenever the directory is asked, peer `i` is in it. */
    ghost predicate NeverExpires(i: nat)
      requires Valid() && i < |peers|
    {
      forall k: nat, j: nat, now: nat | k < |passes| && j <= |peers| && (k > 0 || i < j) && Between(k, j, now) ::
        Listed(Told(k, j), ttl, now, peers[i])
    }
  }

  ghost predicate Listed(history: seq<GatewayInfo>, ttl: nat, now: nat, a: Addr) {
    exists g :: Alive(history, ttl, now, g) && g.addr == a
  }

  // ----- what the directory was told

  /** `a` announced itself at `t` or later. */
  ghost predicate HeardSince(history: seq<GatewayInfo>, a: Addr, t: nat) {
    exists i :: 0 <= i < |history| && history[i].addr == a && history[i].lastSeen >= t
  }

  lemma HeardGrows(history: seq<GatewayInfo>, more: seq<GatewayInfo>, a: Addr, t: nat)
    requires HeardSince(history, a, t)
    ensures HeardSince(history + more, a, t)
  {
    var i :| 0 <= i < |history| && history[i].addr == a && history[i].lastSeen >= t;
    assert (history + more)[i] == history[i];
  }

  /** In an ordered history the latest announcement is at least as young as any other. */
  lemma {:induction false} HeardListed(history: seq<GatewayInfo>, ttl: nat, now: nat, a: Addr, t: nat)
    requires HeardSince(history, a, t) && now < t + ttl && Ordered(history)
    ensures Listed(history, ttl, now, a)
  {
    var n := |history| - 1;
    if history[n].addr == a {
      assert Latest(history, history[n]);
      assert Alive(history, ttl, now, history[n]);
    } else {
      var before, g := history[..n], history[n];
      assert before + [g] == history;
      var i :| 0 <= i <= n && history[i].addr == a && history[i].lastSeen >= t;
      assert before[i] == history[i];
      HeardListed(before, ttl, now, a, t);
      var h :| Alive(before, ttl, now, h) && h.addr == a;
      LatestAppend(before, g, h);
      assert Alive(history, ttl, now, h);
    }
  }

  lemma {:induction false} ToldOrdered(r: Refresh, k: nat, j: nat)
    requires r.Valid() && k < |r.passes| && j <= |r.peers|
    ensures Ordered(r.Told(k, j))
    ensures forall i :: 0 <= i < |r.Told(k, j)| ==> r.Told(k, j)[i].lastSeen <= r.At(k, j)
    decreases k, j
  {
    if j > 0 {
      ToldOrdered(r, k, j - 1);
    } else if k > 0 {
      ToldOrdered(r, k - 1, |r.peers|);
    }
  }

  /** Once pass `k` has dealt with peer `i`, the directory has heard of it since then. */
  lemma {:induction false} ToldThisPass(r: Refresh, i: nat, k: nat, j: nat)
    requires r.Valid() && i < j <= |r.peers| && k < |r.passes| && r.Answers(i)
    ensures HeardSince(r.Told(k, j), r.peers[i], r.At(k, i + 1))
  {
    if j == i + 1 {
      var told := r.Told(k, j);
      assert told[|told| - 1] == GatewayInfo(r.peers[i], r.passes[k][i].cert.value, r.At(k, j));
    } else {
      ToldThisPass(r, i, k, j - 1);
      HeardGrows(r.Told(k, j - 1), r.TellsOf(k, j - 1), r.peers[i], r.At(k, i + 1));
    }
  }

  lemma {:induction false} ToldLastPass(r: Refresh, i: nat, k: nat, j: nat)
    requires r.Valid() && i < |r.peers| && j <= |r.peers| && 0 < k < |r.passes| && r.Answers(i)
    ensures HeardSince(r.Told(k, j), r.peers[i], r.At(k - 1, i + 1))
  {
    if j == 0 {
      ToldThisPass(r, i, k - 1, |r.peers|);
    } else {
      ToldLastPass(r, i, k, j - 1);
      HeardGrows(r.Told(k, j - 1), r.TellsOf(k, j - 1), r.peers[i], r.At(k - 1, i + 1));
    }
  }

  // ----- exactly what the directory was told

  /** Step `b` of pass `a` comes before pass `k` has dealt with its first `j` peers. */
  ghost predicate Earlier(a: nat, b: nat, k: nat, j: nat, n: nat) {
    (a < k && b < n) || (a == k && b < j)
  }

  /** `g` is what a successful fetch in step `b` of pass `a` announces: the peer, the certificate fetched, the time. */
  ghost predicate Fetched(r: Refresh, a: nat, b: nat, g: GatewayInfo)
    requires r.Valid() && a < |r.passes| && b < |r.peers|
  {
    !r.Skips(b) && r.passes[a][b].cert == Some(g.cert) && g.addr == r.peers[b] && g.lastSeen == r.At(a, b + 1)
  }

  lemma StepTells(r: Refresh, a: nat, b: nat, g: GatewayInfo)
    requires r.Valid() && a < |r.passes| && b < |r.peers|
    ensures g in r.TellsOf(a, b) <==> Fetched(r, a, b, g)
  {
  }

  ghost predicate FetchedBefore(r: Refresh, k: nat, j: nat, g: GatewayInfo)
    requires r.Valid() && k < |r.passes| && j <= |r.peers|
  {
    exists a: nat, b: nat :: Earlier(a, b, k, j, |r.peers|) && Fetched(r, a, b, g)
  }

  lemma OneMoreStep(r: Refresh, k: nat, j: nat, g: GatewayInfo)
    requires r.Valid() && k < |r.passes| && 0 < j <= |r.peers|
    ensures FetchedBefore(r, k, j, g) <==> FetchedBefore(r, k, j - 1, g) || Fetched(r, k, j - 1, g)
  {
    if FetchedBefore(r, k, j, g) {
      var a: nat, b: nat :| Earlier(a, b, k, j, |r.peers|) && Fetched(r, a, b, g);
      assert Earlier(a, b, k, j - 1, |r.peers|) || (a == k && b == j - 1);
    }
    if FetchedBefore(r, k, j - 1, g) {
      var a: nat, b: nat :| Earlier(a, b, k, j - 1, |r.peers|) && Fetched(r, a, b, g);
      assert Earlier(a, b, k, j, |r.peers|);
    }
    if Fetched(r, k, j - 1, g) {
      assert Earlier(k, j - 1, k, j, |r.peers|);
    }
  }

  lemma NextPass(r: Refresh, k: nat, g: GatewayInfo)
    requires r.Valid() && 0 < k < |r.passes|
    ensures FetchedBefore(r, k, 0, g) <==> FetchedBefore(r, k - 1, |r.peers|, g)
  {
    if FetchedBefore(r, k, 0, g) {
      var a: nat, b: nat :| Earlier(a, b, k, 0, |r.peers|) && Fetched(r, a, b, g);
      assert Earlier(a, b, k - 1, |r.peers|, |r.peers|);
    }
    if FetchedBefore(r, k - 1, |r.peers|, g) {
      var a: nat, b: nat :| Earlier(a, b, k - 1, |r.peers|, |r.peers|) && Fetched(r, a, b, g);
      assert Earlier(a, b, k, 0, |r.peers|);
    }
  }

  /** The directory was told exactly of the fetches that succeeded, each with its certificate and the time it ended. */
  lemma {:induction false} ToldIffFetched(r: Refresh, k: nat, j: nat, g: GatewayInfo)
    requires r.Valid() && k < |r.passes| && j <= |r.peers|
    ensures g in r.Told(k, j) <==> FetchedBefore(r, k, j, g)
    decreases k, j
  {
    if j > 0 {
      ToldIffFetched(r, k, j - 1, g);
      StepTells(r, k, j - 1, g);
      OneMoreStep(r, k, j, g);
    } else if k > 0 {
      ToldIffFetched(r, k - 1, |r.peers|, g);
      NextPass(r, k, g);
    }
  }

  /** An address whose every fetch fails is never listed. */
  lemma SilentNeverListed(r: Refresh, addr: Addr, k: nat, j: nat, now: nat)
    requires r.Valid() && k < |r.passes| && j <= |r.peers|
    requires forall a, b :: 0 <= a < |r.passes| && 0 <= b < |r.peers| && r.peers[b] == addr ==> r.Skips(b) || r.passes[a][b].cert.None?
    ensures !Listed(r.Told(k, j), r.ttl, now, addr)
  {
    forall g | Alive(r.Told(k, j), r.ttl, now, g)
      ensures g.addr != addr
    {
      ToldIffFetched(r, k, j, g);
    }
  }

  /** The last answer of peer `i` before pass `k` has dealt with its first `j` peers was in pass `last`. */
  ghost predicate LastAnswer(r: Refresh, i: nat, k: nat, j: nat, last: nat)
    requires r.Valid() && k < |r.passes| && j <= |r.peers| && i < |r.peers|
  {
    && last <= k && (last < k || i < j) && !r.Skips(i) && r.passes[last][i].cert.Some?
    && (forall a :: last < a < k ==> r.passes[a][i].cert.None?)
    && (last < k && i < j ==> r.passes[k][i].cert.None?)
  }

  function AnswerOf(r: Refresh, i: nat, last: nat): GatewayInfo
    requires r.Valid() && i < |r.peers| && last < |r.passes| && r.passes[last][i].cert.Some?
  {
    GatewayInfo(r.peers[i], r.passes[last][i].cert.value, r.At(last, i + 1))
  }

  ghost predicate Different(peers: seq<Addr>) {
    forall a, b :: 0 <= a < b < |peers| ==> peers[a] != peers[b]
  }

  lemma {:induction false} LatestIsLastAnswer(r: Refresh, i: nat, k: nat, j: nat, last: nat)
    requires r.Valid() && k < |r.passes| && j <= |r.peers| && i < |r.peers|
    requires Different(r.peers) && LastAnswer(r, i, k, j, last)
    ensures Latest(r.Told(k, j), AnswerOf(r, i, last))
    decreases k, j
  {
    var g := AnswerOf(r, i, last);
    if j == 0 {
      LatestIsLastAnswer(r, i, k - 1, |r.peers|, last);
    } else if j - 1 == i && k == last {
      LatestAppend(r.Told(k, j - 1), g, g);
    } else {
      LatestIsLastAnswer(r, i, k, j - 1, last);
      TellsKeepLatest(r.Told(k, j - 1), r.TellsOf(k, j - 1), g);
    }
  }

  lemma TellsKeepLatest(history: seq<GatewayInfo>, tells: seq<GatewayInfo>, g: GatewayInfo)
    requires Latest(history, g) && |tells| <= 1 && forall h :: h in tells ==> h.addr != g.addr
    ensures Latest(history + tells, g)
  {
    if tells == [] {
      assert history + tells == history;
    } else {
      assert tells == [tells[0]];
      LatestAppend(history, tells[0], g);
    }
  }

  /** A peer is listed for one time to live after its last answer and at no time later, with the certificate it gave then. */
  lemma ListedAfterLastAnswer(r: Refresh, i: nat, k: nat, j: nat, last: nat, now: nat)
    requires r.Valid() && k < |r.passes| && j <= |r.peers| && i < |r.peers|
    requires Different(r.peers) && LastAnswer(r, i, k, j, last)
    ensures Listed(r.Told(k, j), r.ttl, now, r.peers[i]) <==> now < r.At(last, i + 1) + r.ttl
    ensures forall g :: Alive(r.Told(k, j), r.ttl, now, g) && g.addr == r.peers[i] ==> r.passes[last][i].cert == Some(g.cert)
  {
    var answer := AnswerOf(r, i, last);
    LatestIsLastAnswer(r, i, k, j, last);
    forall g | Latest(r.Told(k, j), g) && g.addr == r.peers[i]
      ensures g == answer
    {
      LatestUnique(r.Told(k, j), g, answer);
    }
    if now < answer.lastSeen + r.ttl {
      assert Alive(r.Told(k, j), r.ttl, now, answer);
    }
  }

  // ----- how long a peer waits

  lemma {:induction false} AtMonotone(r: Refresh, k: nat, i: nat, j: nat)
    requires r.Valid() && k < |r.passes| && i <= j <= |r.peers|
    ensures r.At(k, i) <= r.At(k, j)
  {
    if i < j {
      AtMonotone(r, k, i, j - 1);
    }
  }

  /** Around pass `k`, peer `i` waits less than the time to live: from its turn in the pass before to its turn in this
      one, and from there to the end of the sleep. */
  ghost predicate ShortWait(r: Refresh, i: nat, k: nat)
    requires r.Valid() && i < |r.peers| && k < |r.passes|
  {
    && (k > 0 ==> r.At(k, i + 1) < r.At(k - 1, i + 1) + r.ttl)
    && r.At(k, |r.peers|) + r.ttl / 2 < r.At(k, i + 1) + r.ttl
  }

  lemma ListedAfterTurn(r: Refresh, i: nat, k: nat, j: nat, now: nat)
    requires r.Valid() && i < j <= |r.peers| && k < |r.passes| && r.Answers(i) && ShortWait(r, i, k) && r.Between(k, j, now)
    ensures Listed(r.Told(k, j), r.ttl, now, r.peers[i])
  {
    ToldOrdered(r, k, j);
    ToldThisPass(r, i, k, j);
    if j < |r.peers| {
      AtMonotone(r, k, j + 1, |r.peers|);
    }
    HeardListed(r.Told(k, j), r.ttl, now, r.peers[i], r.At(k, i + 1));
  }

  lemma ListedBeforeTurn(r: Refresh, i: nat, k: nat, j: nat, now: nat)
    requires r.Valid() && j <= i < |r.peers| && 0 < k < |r.passes| && r.Answers(i) && ShortWait(r, i, k) && r.Between(k, j, now)
    ensures Listed(r.Told(k, j), r.ttl, now, r.peers[i])
  {
    ToldOrdered(r, k, j);
    ToldLastPass(r, i, k, j);
    AtMonotone(r, k, j + 1, i + 1);
    HeardListed(r.Told(k, j), r.ttl, now, r.peers[i], r.At(k - 1, i + 1));
  }

  lemma WaitsSuffice(r: Refresh, i: nat)
    requires r.Valid() && i < |r.peers| && r.Answers(i)
    requires forall k :: 0 <= k < |r.passes| ==> ShortWait(r, i, k)
    ensures r.NeverExpires(i)
  {
    forall k: nat, j: nat, now: nat | k < |r.passes| && j <= |r.peers| && (k > 0 || i < j) && r.Between(k, j, now)
      ensures Listed(r.Told(k, j), r.ttl, now, r.peers[i])
    {
      if i < j {
        ListedAfterTurn(r, i, k, j, now);
      } else {
        ListedBeforeTurn(r, i, k, j, now);
      }
    }
  }

  /** A peer that answers in every pass never expires if each pass takes less than a quarter of the time to live. */
  lemma QuickPassesSuffice(r: Refresh, i: nat)
    requires r.Valid() && i < |r.peers| && r.Answers(i)
    requires forall k :: 0 <= k < |r.passes| ==> 4 * (r.At(k, |r.peers|) - r.At(k, 0)) < r.ttl
    ensures r.NeverExpires(i)
  {
    forall k | 0 <= k < |r.passes|
      ensures ShortWait(r, i, k)
    {
      AtMonotone(r, k, 0, i + 1);
      AtMonotone(r, k, i + 1, |r.peers|);
      if k > 0 {
        AtMonotone(r, k - 1, 0, i + 1);
      }
    }
    WaitsSuffice(r, i);
  }

  /** Every fetch is over within `limit`. */
  ghost predicate Prompt(r: Refresh, limit: nat)
    requires r.Valid()
  {
    forall k, j :: 0 <= k < |r.passes| && 0 <= j < |r.peers| ==> r.passes[k][j].took <= limit
  }

  /** `n` fetches of length `limit` in a row. */
  function InARow(n: nat, limit: nat): nat {
    if n == 0 then 0 else InARow(n - 1, limit) + limit
  }

  lemma {:induction false} InARowProduct(n: nat, limit: nat)
    ensures InARow(n, limit) == n * limit
  {
    if n > 0 {
      InARowProduct(n - 1, limit);
      Distribute(n - 1, 1, limit);
    }
  }

  lemma {:induction false} InARowSum(a: nat, b: nat, limit: nat)
    ensures InARow(a + b, limit) == InARow(a, limit) + InARow(b, limit)
  {
    if b > 0 {
      InARowSum(a, b - 1, limit);
    }
  }

  lemma {:induction false} PromptSteps(r: Refresh, limit: nat, k: nat, i: nat, steps: nat)
    requires r.Valid() && Prompt(r, limit) && k < |r.passes| && i + steps <= |r.peers|
    ensures r.At(k, i + steps) <= r.At(k, i) + InARow(steps, limit)
  {
    if steps > 0 {
      PromptSteps(r, limit, k, i, steps - 1);
    }
  }

  /** A peer's turn comes within `head` of the start of a pass and its end within `tail` of the turn. */
  lemma WaitWithin(r: Refresh, i: nat, k: nat, head: nat, tail: nat)
    requires r.Valid() && i < |r.peers| && k < |r.passes| && head + tail + r.ttl / 2 < r.ttl
    requires r.At(k, i + 1) <= r.At(k, 0) + head && r.At(k, |r.peers|) <= r.At(k, i + 1) + tail
    requires k > 0 ==> r.At(k - 1, |r.peers|) <= r.At(k - 1, i + 1) + tail
    ensures ShortWait(r, i, k)
  {
    if k > 0 {
      AtStart(r, k);
    }
  }

  lemma PromptWait(r: Refresh, limit: nat, i: nat, k: nat)
    requires r.Valid() && i < |r.peers| && k < |r.passes| && Prompt(r, limit)
    requires InARow(|r.peers|, limit) + r.ttl / 2 < r.ttl
    ensures ShortWait(r, i, k)
  {
    var before, after := i + 1, |r.peers| - (i + 1);
    InARowSum(before, after, limit);
    PromptSteps(r, limit, k, 0, before);
    PromptSteps(r, limit, k, before, after);
    if k > 0 {
      PromptSteps(r, limit, k - 1, before, after);
    }
    WaitWithin(r, i, k, InARow(before, limit), InARow(after, limit));
  }

  lemma AtStart(r: Refresh, k: nat)
    requires r.Valid() && 0 < k < |r.passes|
    ensures r.At(k, 0) == r.At(k - 1, |r.peers|) + r.ttl / 2
  {
  }

  lemma PromptSuffices(r: Refresh, limit: nat, i: nat)
    requires r.Valid() && i < |r.peers| && r.Answers(i) && Prompt(r, limit)
    requires |r.peers| * limit + r.ttl / 2 < r.ttl
    ensures r.NeverExpires(i)
  {
    InARowProduct(|r.peers|, limit);
    forall k | 0 <= k < |r.passes|
      ensures ShortWait(r, i, k)
    {
      PromptWait(r, limit, i, k);
    }
    WaitsSuffice(r, i);
  }

  // ----- the limit is exact

  /** Two passes in which every fetch succeeds and takes `limit`. */
  function Slowest(ttl: nat, peers: seq<Addr>, first: nat, limit: nat): (r: Refresh)
    ensures r.Valid() && Prompt(r, limit)
  {
    var fetches := seq(|peers|, j => Fetch(limit, Some([])));
    Refresh(ttl, peers, None, first, [fetches, fetches])
  }

  lemma {:induction false} SlowestSteps(ttl: nat, peers: seq<Addr>, first: nat, limit: nat, k: nat, j: nat)
    requires k < 2 && j <= |peers|
    ensures var r := Slowest(ttl, peers, first, limit);
      r.At(k, j) == first + j * limit + if k == 0 then 0 else |peers| * limit + ttl / 2
    decreases k, j
  {
    if j > 0 {
      SlowestSteps(ttl, peers, first, limit, k, j - 1);
      Distribute(j - 1, 1, limit);
    } else if k > 0 {
      SlowestSteps(ttl, peers, first, limit, k - 1, |peers|);
    }
  }

  /** Before its turn in the second pass comes, a peer was heard of in the first only. */
  lemma {:induction false} SlowestTold(ttl: nat, peers: seq<Addr>, first: nat, limit: nat, i: nat, k: nat, j: nat, h: nat)
    requires i < |peers| && k < 2 && j <= |peers| && (k == 1 ==> j <= i)
    requires Different(peers)
    requires h < |Slowest(ttl, peers, first, limit).Told(k, j)|
    ensures var r := Slowest(ttl, peers, first, limit);
      r.Told(k, j)[h].addr == peers[i] ==> r.Told(k, j)[h].lastSeen == r.At(0, i + 1)
    decreases k, j
  {
    var r := Slowest(ttl, peers, first, limit);
    if j > 0 {
      if h < |r.Told(k, j - 1)| {
        SlowestTold(ttl, peers, first, limit, i, k, j - 1, h);
      } else {
        assert r.Told(k, j)[h] == r.TellsOf(k, j - 1)[0];
      }
    } else if k > 0 {
      SlowestTold(ttl, peers, first, limit, i, k - 1, |peers|, h);
    }
  }

  lemma SlowestExpires(ttl: nat, peers: seq<Addr>, first: nat, limit: nat, i: nat)
    requires i < |peers| && ttl <= |peers| * limit + ttl / 2
    requires Different(peers)
    ensures Slowest(ttl, peers, first, limit).Answers(i) && !Slowest(ttl, peers, first, limit).NeverExpires(i)
  {
    var r := Slowest(ttl, peers, first, limit);
    var now := r.At(1, i + 1);
    SlowestSteps(ttl, peers, first, limit, 1, i + 1);
    SlowestSteps(ttl, peers, first, limit, 0, i + 1);
    AtMonotone(r, 1, i, i + 1);
    assert r.Between(1, i, now);
    assert !Listed(r.Told(1, i), ttl, now, peers[i]) by {
      forall g | Latest(r.Told(1, i), g) && g.addr == peers[i]
        ensures !Alive(r.Told(1, i), ttl, now, g)
      {
        var h :| 0 <= h < |r.Told(1, i)| && r.Told(1, i)[h] == g;
        SlowestTold(ttl, peers, first, limit, i, 1, i, h);
      }
    }
  }

  /** With fetches bounded by `limit`, no schedule lets an answering peer expire, exactly when a round of all peers fits
      into what the sleep leaves of the time to live. */
  lemma NeverExpiresIff(ttl: nat, peers: seq<Addr>, limit: nat, i: nat)
    requires i < |peers| && Different(peers)
    ensures |peers| * limit + ttl / 2 < ttl <==>
      forall r: Refresh :: r.Valid() && r.ttl == ttl && r.peers == peers && r.Answers(i) && Prompt(r, limit) ==> r.NeverExpires(i)
  {
    if |peers| * limit + ttl / 2 < ttl {
      forall r: Refresh | r.Valid() && r.ttl == ttl && r.peers == peers && r.Answers(i) && Prompt(r, limit)
        ensures r.NeverExpires(i)
      {
        PromptSuffices(r, limit, i);
      }
    } else {
      SlowestExpires(ttl, peers, 0, limit, i);
    }
  }

  /** `fetch_cert` gives connecting and reading five seconds each. */
  const FETCH_LIMIT: nat := 10 * SECOND

  /** With the node's own time to live and fetch limits, five bootstrap peers are safe and six are not. */
  lemma FivePeersAreSafe(peers: seq<Addr>, i: nat)
    requires i < |peers| && Different(peers)
    ensures |peers| <= 5 <==>
      forall r: Refresh :: r.Valid() && r.ttl == DIR_TTL && r.peers == peers && r.Answers(i) && Prompt(r, FETCH_LIMIT) ==> r.NeverExpires(i)
  {
    NeverExpiresIff(DIR_TTL, peers, FETCH_LIMIT, i);
  }

  /** A quarter of the time to live is the limit for whole passes: two passes of exactly that length, the first slow
      after the peer's turn and the second before it, let it expire. */
  lemma QuarterIsTooSlow(quarter: nat, a: Addr, b: Addr)
    requires quarter > 0 && a != b
    ensures var early, late := Fetch(0, Some([])), Fetch(quarter, Some([]));
      var r := Refresh(4 * quarter, [a, b], None, 0, [[early, late], [late, early]]);
      && r.Valid() && r.Answers(0) && !r.NeverExpires(0)
      && (forall k :: 0 <= k < 2 ==> 4 * (r.At(k, 2) - r.At(k, 0)) == r.ttl)
  {
    var early, late := Fetch(0, Some([])), Fetch(quarter, Some([]));
    var r := Refresh(4 * quarter, [a, b], None, 0, [[early, late], [late, early]]);
    assert r.At(0, 1) == 0 && r.At(0, 2) == quarter;
    assert r.At(1, 0) == 3 * quarter && r.At(1, 1) == 4 * quarter && r.At(1, 2) == 4 * quarter;
    var told := [GatewayInfo(a, [], 0), GatewayInfo(b, [], quarter)];
    assert r.Told(0, 1) == told[..1];
    assert r.Told(1, 0) == r.Told(0, 2) == told;
    assert r.Between(1, 0, 4 * quarter);
    assert !Listed(told, r.ttl, 4 * quarter, a);
  }

  // ----- the node's own entry

  lemma {:induction false} SelfNeverTold(r: Refresh, self: Addr, k: nat, j: nat, h: nat)
    requires r.Valid() && k < |r.passes| && j <= |r.peers| && r.self == Some(self) && h < |r.Told(k, j)|
    ensures r.Told(k, j)[h].addr != self
    decreases k, j
  {
    if j > 0 {
      if h < |r.Told(k, j - 1)| {
        SelfNeverTold(r, self, k, j - 1, h);
      }
    } else if k > 0 {
      SelfNeverTold(r, self, k - 1, |r.peers|, h);
    }
  }

  /** A promoted node announces itself once, and the loop skips it: its own entry is listed for one time to live and
      never again. */
  lemma OwnEntryExpires(r: Refresh, own: GatewayInfo, k: nat, j: nat, now: nat)
    requires r.Valid() && k < |r.passes| && j <= |r.peers| && r.self == Some(own.addr)
    ensures Listed([own] + r.Told(k, j), r.ttl, now, own.addr) <==> now < own.lastSeen + r.ttl
  {
    var history := [own] + r.Told(k, j);
    assert history[0] == own;
    forall h | 0 < h < |history|
      ensures history[h].addr != own.addr
    {
      SelfNeverTold(r, own.addr, k, j, h - 1);
    }
    assert Latest(history, own);
    if now < own.lastSeen + r.ttl {
      assert Alive(history, r.ttl, now, own);
    }
    forall g | Alive(history, r.ttl, now, g) && g.addr == own.addr
      ensures g == own
    {
      LatestUnique(history, g, own);
    }
  }

  // ----- the loop

  lemma AppendPastBase(heard: seq<GatewayInfo>, base: seq<GatewayInfo>, told: seq<GatewayInfo>, more: seq<GatewayInfo>)
    requires base <= told
    ensures base <= told + more
    ensures heard + (told + more)[|base|..] == (heard + told[|base|..]) + more
    ensures more == [] ==> told + more == told && (heard + told[|base|..]) + more == heard + told[|base|..]
  {
    assert (told + more)[|base|..] == told[|base|..] + more;
  }

  /** Pass `k` of the loop on a directory that was told what the passes before told it, after what it knew at the start. */
  method RunPass(dir: GatewayDirectory, r: Refresh, k: nat) returns (ended: nat)
    requires r.Valid() && k < |r.passes|
    requires dir.Valid() && dir.clock <= r.At(k, 0)
    modifies dir
    ensures dir.Valid() && dir.clock <= ended == r.At(k, |r.peers|)
    ensures r.Told(k, 0) <= r.Told(k, |r.peers|)
    ensures dir.history == old(dir.history) + r.Told(k, |r.peers|)[|r.Told(k, 0)|..]
  {
    ended := r.At(k, 0);
    ghost var base, heard := r.Told(k, 0), old(dir.history);
    for j := 0 to |r.peers|
      invariant dir.Valid() && dir.clock <= ended == r.At(k, j)
      invariant base <= r.Told(k, j) && dir.history == heard + r.Told(k, j)[|base|..]
    {
      var addr := r.peers[j];
      if r.self != Some(addr) {
        var fetch := r.passes[k][j];
        ended := ended + fetch.took;
        if fetch.cert.Some? {
          dir.Announce(addr, fetch.cert.value, ended);
        }
      }
      AppendPastBase(heard, base, r.Told(k, j), r.TellsOf(k, j));
    }
  }
}
