/** The per-client sliding-window request limiter kept in memory by the HTTP middleware.

    `InMemoryRateLimiter.Check` is the imperative code: a dictionary of deques.
    `Accepted` is the independent reading of what a sliding window means: a call is accepted
    when fewer than `limit` accepted calls of the same client are newer than the window. */
module RateLimiter {

  datatype Bucket = Auth | Global

  /** Who is being limited: one budget per bucket and IP address. */
  datatype Client = Client(bucket: Bucket, ip: string)

  datatype Call = Call(ip: string, path: string, nowMs: int)

  datatype Decision = Decision(allowed: bool, retryAfterMs: int, bucket: Bucket, key: string, limit: int, windowMs: int)

  /** The settings reader keeps every limit and window positive. */
  datatype RawBudget = Budget(limit: int, windowMs: int)

  type Budget = b: RawBudget | b.limit >= 1 && b.windowMs >= 1 witness Budget(1, 1)

  datatype Config = Config(global: Budget, auth: Budget)

  /** The limiter's dictionary of deques, by key. */
  type Events = map<string, seq<int>>

  const AUTH_PATH := "/auth/"

  function ClientOf(c: Call): Client {
    Client(if AUTH_PATH <= c.path then Auth else Global, c.ip)
  }

  function KeyOf(c: Client): string {
    (if c.bucket.Auth? then "auth" else "global") + ":" + c.ip
  }

  function BudgetOf(cfg: Config, b: Bucket): Budget {
    if b.Auth? then cfg.auth else cfg.global
  }

  function Queue(events: Events, client: Client): seq<int> {
    if KeyOf(client) in events then events[KeyOf(client)] else []
  }

  /** What the pops at the front of a deque leave. */
  function Expire(queue: seq<int>, boundary: int): seq<int> {
    if queue != [] && queue[0] <= boundary then Expire(queue[1..], boundary) else queue
  }

  function Admits(b: Budget, queue: seq<int>, nowMs: int): bool {
    |Expire(queue, nowMs - b.windowMs)| < b.limit
  }

  /** The wait a refused call is told, 0 for an accepted one. */
  function Hint(b: Budget, queue: seq<int>, nowMs: int): int {
    if Admits(b, queue, nowMs) then 0 else
      var wait := Expire(queue, nowMs - b.windowMs)[0] + b.windowMs - nowMs;
      if wait >= 1 then wait else 1
  }

  function Advance(b: Budget, queue: seq<int>, nowMs: int): seq<int> {
    Expire(queue, nowMs - b.windowMs) + if Admits(b, queue, nowMs) then [nowMs] else []
  }

  /** What one call is answered. */
  function Decide(cfg: Config, events: Events, c: Call): Decision {
    var client := ClientOf(c);
    var b, queue := BudgetOf(cfg, client.bucket), Queue(events, client);
    Decision(Admits(b, queue, c.nowMs), Hint(b, queue, c.nowMs), client.bucket, KeyOf(client), b.limit, b.windowMs)
  }

  class InMemoryRateLimiter {
    const cfg: Config
    var events: Events

    constructor (cfg: Config)
      ensures this.cfg == cfg && events == map[]
    {
      this.cfg := cfg;
      events := map[];
    }

    /** One call: only the caller's own deque changes, and it advances as the specification says. */
    method Check(ip: string, path: string, nowMs: int) returns (decision: Decision)
      modifies this`events
      ensures var client := ClientOf(Call(ip, path, nowMs));
              var b := BudgetOf(cfg, client.bucket);
              var queue := Queue(old(events), client);
              && decision == Decide(cfg, old(events), Call(ip, path, nowMs))
              && events == old(events)[KeyOf(client) := Advance(b, queue, nowMs)]
    {
      var client := ClientOf(Call(ip, path, nowMs));
      var b := BudgetOf(cfg, client.bucket);
      var key := KeyOf(client);
      if key !in events {
        events := events[key := []];
      }
      var boundary := nowMs - b.windowMs;
      while events[key] != [] && events[key][0] <= boundary
        invariant key in events && events == old(events)[key := events[key]]
        invariant Expire(events[key], boundary) == Expire(Queue(old(events), client), boundary)
        decreases |events[key]|
      {
        events := events[key := events[key][1..]];
      }
      if |events[key]| >= b.limit {
        var oldestMs := events[key][0];
        var wait := oldestMs + b.windowMs - nowMs;
        assert Advance(b, Queue(old(events), client), nowMs) == events[key];
        return Decision(false, if wait >= 1 then wait else 1, client.bucket, key, b.limit, b.windowMs);
      }
      events := events[key := events[key] + [nowMs]];
      return Decision(true, 0, client.bucket, key, b.limit, b.windowMs);
    }
  }

  // ---------------------------------------------------------------- whole runs

  /** The dictionary after a run of calls on a fresh limiter. */
  function Run(cfg: Config, calls: seq<Call>): Events {
    if calls == [] then map[] else
      var events, c := Run(cfg, calls[..|calls| - 1]), calls[|calls| - 1];
      var client := ClientOf(c);
      events[KeyOf(client) := Advance(BudgetOf(cfg, client.bucket), Queue(events, client), c.nowMs)]
  }

  /** One client's deque, `queue` at first, after calls at the given times. */
  function QueueRun(b: Budget, queue: seq<int>, times: seq<int>): seq<int> {
    if times == [] then queue else Advance(b, QueueRun(b, queue, times[..|times| - 1]), times[|times| - 1])
  }

  function TimesOf(calls: seq<Call>, client: Client): seq<int> {
    if calls == [] then []
    else TimesOf(calls[..|calls| - 1], client)
         + if ClientOf(calls[|calls| - 1]) == client then [calls[|calls| - 1].nowMs] else []
  }

  predicate Sorted(s: seq<int>) {
    forall i, j :: 0 <= i < j < |s| ==> s[i] <= s[j]
  }

  function Newer(times: seq<int>, boundary: int): seq<int> {
    if times == [] then []
    else (if times[0] > boundary then [times[0]] else []) + Newer(times[1..], boundary)
  }

  /** How many of `times` lie in the half-open interval [lo, hi). */
  function CountIn(times: seq<int>, lo: int, hi: int): nat {
    if times == [] then 0
    else (if lo <= times[0] < hi then 1 else 0) + CountIn(times[1..], lo, hi)
  }

  /** Reference definition: the times of the accepted calls among calls made at `times`,
      read off the definition of a sliding window, with no deque. */
  function Accepted(b: Budget, times: seq<int>): seq<int> {
    if times == [] then [] else
      var before, now := Accepted(b, times[..|times| - 1]), times[|times| - 1];
      if |Newer(before, now - b.windowMs)| < b.limit then before + [now] else before
  }

  /** Distinct clients have distinct dictionary keys, whatever the address text is. */
  lemma KeysSeparateClients(a: Client, b: Client)
    ensures KeyOf(a) == KeyOf(b) <==> a == b
  {
    assert KeyOf(a)[0] == if a.bucket.Auth? then 'a' else 'g';
    assert KeyOf(b)[0] == if b.bucket.Auth? then 'a' else 'g';
    assert KeyOf(a)[if a.bucket.Auth? then 5 else 7..] == a.ip;
    assert KeyOf(b)[if b.bucket.Auth? then 5 else 7..] == b.ip;
  }

  /** Isolation: in the middle of any traffic a client's deque is the one its own calls alone produce. */
  lemma {:induction false} ClientsDoNotInterfere(cfg: Config, calls: seq<Call>, client: Client)
    ensures Queue(Run(cfg, calls), client) == QueueRun(BudgetOf(cfg, client.bucket), [], TimesOf(calls, client))
  {
    if calls != [] {
      var before, c := calls[..|calls| - 1], calls[|calls| - 1];
      ClientsDoNotInterfere(cfg, before, client);
      KeysSeparateClients(ClientOf(c), client);
      var times := TimesOf(before, client);
      if ClientOf(c) == client {
        assert TimesOf(calls, client)[..|times|] == times;
      } else {
        assert TimesOf(calls, client) == times;
      }
    }
  }

  lemma {:induction false} NewerAppend(s: seq<int>, x: int, b: int)
    ensures Newer(s + [x], b) == Newer(s, b) + if x > b then [x] else []
  {
    if s != [] {
      assert (s + [x])[1..] == s[1..] + [x];
      NewerAppend(s[1..], x, b);
    }
  }

  lemma {:induction false} NewerMembers(s: seq<int>, b: int)
    ensures forall x :: x in Newer(s, b) <==> x in s && x > b
  {
    if s != [] { NewerMembers(s[1..], b); }
  }

  lemma {:induction false} NewerSorted(s: seq<int>, b: int)
    requires Sorted(s)
    ensures Sorted(Newer(s, b))
  {
    if s != [] {
      NewerSorted(s[1..], b);
      var rest := Newer(s[1..], b);
      forall k | 0 <= k < |rest| ensures s[0] <= rest[k] {
        NewerMembers(s[1..], b);
        assert rest[k] in rest;
      }
    }
  }

  lemma {:induction false} NewerTwice(s: seq<int>, b: int, b': int)
    requires b <= b'
    ensures Newer(Newer(s, b), b') == Newer(s, b')
  {
    if s != [] {
      NewerTwice(s[1..], b, b');
      if s[0] > b {
        assert ([s[0]] + Newer(s[1..], b))[1..] == Newer(s[1..], b);
      } else {
        assert Newer(s, b) == Newer(s[1..], b);
      }
    }
  }

  /** Popping the front of a sorted deque removes every expired time, not just the leading ones. */
  lemma {:induction false} ExpireOfSorted(s: seq<int>, boundary: int)
    requires Sorted(s)
    ensures Expire(s, boundary) == Newer(s, boundary)
  {
    if s != [] {
      ExpireOfSorted(s[1..], boundary);
      if s[0] > boundary && |s| > 1 {
        assert Expire(s[1..], boundary) == s[1..];
      }
    }
  }

  lemma {:induction false} CountAppend(s: seq<int>, x: int, lo: int, hi: int)
    ensures CountIn(s + [x], lo, hi) == CountIn(s, lo, hi) + if lo <= x < hi then 1 else 0
  {
    if s != [] {
      assert (s + [x])[1..] == s[1..] + [x];
      CountAppend(s[1..], x, lo, hi);
    }
  }

  lemma {:induction false} CountBelowNewer(s: seq<int>, lo: int, hi: int, boundary: int)
    requires boundary < lo
    ensures CountIn(s, lo, hi) <= |Newer(s, boundary)|
  {
    if s != [] { CountBelowNewer(s[1..], lo, hi, boundary); }
  }

  lemma {:induction false} AcceptedInOrder(b: Budget, times: seq<int>)
    requires Sorted(times)
    ensures Sorted(Accepted(b, times))
    ensures forall t :: t in Accepted(b, times) ==> t <= times[|times| - 1]
  {
    if times != [] {
      var before := times[..|times| - 1];
      AcceptedInOrder(b, before);
      var acc := Accepted(b, before);
      forall k | 0 <= k < |acc| ensures acc[k] <= times[|times| - 1] {
        assert acc[k] in acc;
      }
    }
  }

  /** The deque after the pops of a call at `now` is the reference window at `now`. */
  lemma {:induction false} LiveIsWindow(b: Budget, times: seq<int>, now: int)
    requires Sorted(times + [now])
    ensures Expire(QueueRun(b, [], times), now - b.windowMs) == Newer(Accepted(b, times), now - b.windowMs)
  {
    if times != [] {
      var before, last := times[..|times| - 1], times[|times| - 1];
      assert before + [last] == times;
      assert Sorted(times) by { assert times == (times + [now])[..|times|]; }
      LiveIsWindow(b, before, last);
      NewerAppend(Accepted(b, before), last, last - b.windowMs);
      assert QueueRun(b, [], times) == Newer(Accepted(b, times), last - b.windowMs);
      AcceptedInOrder(b, times);
      assert (times + [now])[|times| - 1] <= (times + [now])[|times|];
      ExpireAgain(Accepted(b, times), last - b.windowMs, now - b.windowMs);
    }
  }

  lemma ExpireAgain(s: seq<int>, boundary: int, later: int)
    requires Sorted(s) && boundary <= later
    ensures Expire(Newer(s, boundary), later) == Newer(s, later)
  {
    NewerSorted(s, boundary);
    ExpireOfSorted(Newer(s, boundary), later);
    NewerTwice(s, boundary, later);
  }

  /** Refinement: after any run the deque holds exactly the accepted times still inside the
      window of the last call, and it is never longer than the limit. */
  lemma {:induction false} DequeIsSlidingWindow(b: Budget, times: seq<int>)
    requires Sorted(times) && times != []
    ensures QueueRun(b, [], times) == Newer(Accepted(b, times), times[|times| - 1] - b.windowMs)
    ensures |QueueRun(b, [], times)| <= b.limit
  {
    var before, last := times[..|times| - 1], times[|times| - 1];
    assert before + [last] == times;
    LiveIsWindow(b, before, last);
    NewerAppend(Accepted(b, before), last, last - b.windowMs);
    QueueWithinLimit(b, times);
  }

  lemma {:induction false} QueueWithinLimit(b: Budget, times: seq<int>)
    ensures |QueueRun(b, [], times)| <= b.limit
  {
    if times != [] {
      var before, last := times[..|times| - 1], times[|times| - 1];
      QueueWithinLimit(b, before);
      ExpireIsSuffix(QueueRun(b, [], before), last - b.windowMs);
    }
  }

  lemma {:induction false} ExpireIsSuffix(q: seq<int>, boundary: int)
    ensures |Expire(q, boundary)| <= |q|
    ensures Expire(q, boundary) != [] ==> Expire(q, boundary)[0] > boundary
  {
    if q != [] { ExpireIsSuffix(q[1..], boundary); }
  }

  /** The budget: however long the run and whoever else calls, no half-open interval one window
      long holds more than `limit` accepted calls of a client. */
  lemma {:induction false} WindowBudget(b: Budget, times: seq<int>, start: int)
    requires Sorted(times)
    ensures CountIn(Accepted(b, times), start, start + b.windowMs) <= b.limit
  {
    if times != [] {
      var before, now := times[..|times| - 1], times[|times| - 1];
      WindowBudget(b, before, start);
      CountAppend(Accepted(b, before), now, start, start + b.windowMs);
      if now < start + b.windowMs {
        CountBelowNewer(Accepted(b, before), start, start + b.windowMs, now - b.windowMs);
      }
    }
  }

  /** The limiter's verdict on any call of any run is the one the reference definition gives. */
  lemma VerdictIsReference(cfg: Config, calls: seq<Call>, c: Call)
    requires Sorted(TimesOf(calls, ClientOf(c)) + [c.nowMs])
    ensures var b, times := BudgetOf(cfg, ClientOf(c).bucket), TimesOf(calls, ClientOf(c));
            Accepted(b, times + [c.nowMs])
            == Accepted(b, times) + if Admits(b, Queue(Run(cfg, calls), ClientOf(c)), c.nowMs) then [c.nowMs] else []
  {
    var b, times := BudgetOf(cfg, ClientOf(c).bucket), TimesOf(calls, ClientOf(c));
    ClientsDoNotInterfere(cfg, calls, ClientOf(c));
    LiveIsWindow(b, times, c.nowMs);
    assert (times + [c.nowMs])[..|times|] == times;
  }

  // ---------------------------------------------------------------- the retry hint

  /** A refused call keeps exactly the live part of the deque, and its hint runs to the moment the
      oldest entry expires. */
  lemma RefusalKeepsLive(b: Budget, queue: seq<int>, now: int)
    requires !Admits(b, queue, now)
    ensures var live := Expire(queue, now - b.windowMs);
            Advance(b, queue, now) == live && |live| >= b.limit && now + Hint(b, queue, now) == live[0] + b.windowMs
  {
    ExpireIsSuffix(queue, now - b.windowMs);
  }

  /** A deque at the limit refuses, unchanged, exactly until its oldest entry is a window old. */
  lemma FullUntilOldestExpires(b: Budget, full: seq<int>, t: int)
    requires |full| == b.limit
    ensures Admits(b, full, t) <==> t >= full[0] + b.windowMs
    ensures !Admits(b, full, t) ==> Advance(b, full, t) == full
  {
    ExpireIsSuffix(full[1..], t - b.windowMs);
  }

  /** Until the hint runs out calls are refused, and refused calls leave the deque as it was. */
  lemma {:induction false} RefusedUntilHint(b: Budget, full: seq<int>, later: seq<int>)
    requires |full| == b.limit
    requires forall i :: 0 <= i < |later| ==> later[i] < full[0] + b.windowMs
    ensures QueueRun(b, full, later) == full
    ensures forall i :: 0 <= i < |later| ==> !Admits(b, QueueRun(b, full, later[..i]), later[i])
  {
    if later != [] {
      var n := |later| - 1;
      RefusedUntilHint(b, full, later[..n]);
      FullUntilOldestExpires(b, full, later[n]);
      forall i | 0 <= i < |later| ensures !Admits(b, QueueRun(b, full, later[..i]), later[i]) {
        assert i < n ==> later[..n][..i] == later[..i] && later[..n][i] == later[i];
      }
    }
  }

  /** The hint is exact. Take any run of a client's calls, then a refused call at `now`, then any
      calls before the hint runs out: those are all refused, and the next call is accepted if and
      only if it comes no earlier than the hint said. */
  lemma {:induction false} RetryHintIsExact(b: Budget, times: seq<int>, now: int, later: seq<int>, next: int)
    requires !Admits(b, QueueRun(b, [], times), now)
    requires forall i :: 0 <= i < |later| ==> later[i] < now + Hint(b, QueueRun(b, [], times), now)
    ensures var refused := QueueRun(b, [], times + [now]);
            && (forall i :: 0 <= i < |later| ==> !Admits(b, QueueRun(b, refused, later[..i]), later[i]))
            && (Admits(b, QueueRun(b, refused, later), next) <==> next >= now + Hint(b, QueueRun(b, [], times), now))
  {
    assert (times + [now])[..|times|] == times;
    RefusalKeepsLive(b, QueueRun(b, [], times), now);
    QueueWithinLimit(b, times + [now]);
    RefusedUntilHint(b, QueueRun(b, [], times + [now]), later);
    FullUntilOldestExpires(b, QueueRun(b, [], times + [now]), next);
  }

  // ---------------------------------------------------------------- from the calls alone

  /** Which calls share a budget: those from one address whose paths both start with the
      authentication prefix, or both do not. */
  predicate ShareBudget(a: Call, b: Call) { a.ip == b.ip && ("/auth/" <= a.path <==> "/auth/" <= b.path) }

  function LimitOn(cfg: Config, c: Call): int { if "/auth/" <= c.path then cfg.auth.limit else cfg.global.limit }

  function WindowOn(cfg: Config, c: Call): int {
    if "/auth/" <= c.path then cfg.auth.windowMs else cfg.global.windowMs
  }

  /** How many of the calls that were let through share a budget with `c` and came in [lo, hi). */
  function LetThroughIn(calls: seq<Call>, through: seq<bool>, c: Call, lo: int, hi: int): nat
    requires |through| == |calls|
  {
    if calls == [] then 0 else
      var n := |calls| - 1;
      LetThroughIn(calls[..n], through[..n], c, lo, hi)
      + if through[n] && ShareBudget(calls[n], c) && lo <= calls[n].nowMs < hi then 1 else 0
  }

  /** And how many came later than some moment. */
  function LetThroughSince(calls: seq<Call>, through: seq<bool>, c: Call, moment: int): nat
    requires |through| == |calls|
  {
    if calls == [] then 0 else
      var n := |calls| - 1;
      LetThroughSince(calls[..n], through[..n], c, moment)
      + if through[n] && ShareBudget(calls[n], c) && calls[n].nowMs > moment then 1 else 0
  }

  /** A call passes with fewer than the limit let through before it, on its budget, within the window. */
  predicate Passes(cfg: Config, calls: seq<Call>, through: seq<bool>, c: Call)
    requires |through| == |calls|
  {
    LetThroughSince(calls, through, c, c.nowMs - WindowOn(cfg, c)) < LimitOn(cfg, c)
  }

  /** Which calls of a run are let through. */
  function Through(cfg: Config, calls: seq<Call>): (through: seq<bool>)
    ensures |through| == |calls|
  {
    if calls == [] then [] else
      var n := |calls| - 1;
      var before := Through(cfg, calls[..n]);
      before + [Passes(cfg, calls[..n], before, calls[n])]
  }

  lemma SharingIsSameClient(a: Call, b: Call)
    ensures ShareBudget(a, b) <==> ClientOf(a) == ClientOf(b)
  {
  }

  /** The client's accepted times are those of its calls that were let through. */
  lemma {:induction false} ThroughIsAccepted(cfg: Config, calls: seq<Call>, c: Call, moment: int)
    ensures LetThroughSince(calls, Through(cfg, calls), c, moment)
         == |Newer(Accepted(BudgetOf(cfg, ClientOf(c).bucket), TimesOf(calls, ClientOf(c))), moment)|
  {
    if calls != [] {
      var n := |calls| - 1;
      var last, client := calls[n], ClientOf(c);
      var b, times := BudgetOf(cfg, client.bucket), TimesOf(calls[..n], client);
      SharingIsSameClient(last, c);
      ThroughIsAccepted(cfg, calls[..n], c, moment);
      assert Through(cfg, calls)[..n] == Through(cfg, calls[..n]);
      if ClientOf(last) == client {
        ThroughIsAccepted(cfg, calls[..n], last, last.nowMs - b.windowMs);
        assert (times + [last.nowMs])[..|times|] == times;
        NewerAppend(Accepted(b, times), last.nowMs, moment);
      } else {
        assert TimesOf(calls, client) == times;
      }
    }
  }

  lemma {:induction false} ThroughInIsAcceptedIn(cfg: Config, calls: seq<Call>, c: Call, lo: int, hi: int)
    ensures LetThroughIn(calls, Through(cfg, calls), c, lo, hi)
         == CountIn(Accepted(BudgetOf(cfg, ClientOf(c).bucket), TimesOf(calls, ClientOf(c))), lo, hi)
  {
    if calls != [] {
      var n := |calls| - 1;
      var last, client := calls[n], ClientOf(c);
      var b, times := BudgetOf(cfg, client.bucket), TimesOf(calls[..n], client);
      SharingIsSameClient(last, c);
      ThroughInIsAcceptedIn(cfg, calls[..n], c, lo, hi);
      assert Through(cfg, calls)[..n] == Through(cfg, calls[..n]);
      if ClientOf(last) == client {
        ThroughIsAccepted(cfg, calls[..n], last, last.nowMs - b.windowMs);
        assert (times + [last.nowMs])[..|times|] == times;
        CountAppend(Accepted(b, times), last.nowMs, lo, hi);
      } else {
        assert TimesOf(calls, client) == times;
      }
    }
  }

  /** Every call of every run is answered from the calls before it: allowed or not as the definition
      above says, with the limit and the window of its own kind of path, and with a wait only if refused. */
  lemma AnswersAreThrough(cfg: Config, calls: seq<Call>, c: Call)
    requires Sorted(TimesOf(calls, ClientOf(c)) + [c.nowMs])
    ensures var d := Decide(cfg, Run(cfg, calls), c);
            && (d.allowed <==> Through(cfg, calls + [c])[|calls|])
            && (d.bucket == Auth <==> "/auth/" <= c.path)
            && d.key == (if "/auth/" <= c.path then "auth:" else "global:") + c.ip
            && d.limit == LimitOn(cfg, c) && d.windowMs == WindowOn(cfg, c)
            && (if d.allowed then d.retryAfterMs == 0 else d.retryAfterMs >= 1)
  {
    KeyReads(c);
    AllowedIsThrough(cfg, calls, c);
  }

  lemma KeyReads(c: Call)
    ensures KeyOf(ClientOf(c)) == (if "/auth/" <= c.path then "auth:" else "global:") + c.ip
  {
    assert "auth" + ":" == "auth:" && "global" + ":" == "global:";
  }

  /** A call is let through when few enough accepted calls of its client are inside the window. */
  lemma AllowedIsFewLive(cfg: Config, calls: seq<Call>, c: Call)
    requires Sorted(TimesOf(calls, ClientOf(c)) + [c.nowMs])
    ensures var b := BudgetOf(cfg, ClientOf(c).bucket);
            Decide(cfg, Run(cfg, calls), c).allowed
            <==> |Newer(Accepted(b, TimesOf(calls, ClientOf(c))), c.nowMs - b.windowMs)| < b.limit
  {
    var client := ClientOf(c);
    var b, times := BudgetOf(cfg, client.bucket), TimesOf(calls, client);
    assert Queue(Run(cfg, calls), client) == QueueRun(b, [], times) by { ClientsDoNotInterfere(cfg, calls, client); }
    LiveIsWindow(b, times, c.nowMs);
  }

  lemma AllowedIsThrough(cfg: Config, calls: seq<Call>, c: Call)
    requires Sorted(TimesOf(calls, ClientOf(c)) + [c.nowMs])
    ensures Decide(cfg, Run(cfg, calls), c).allowed <==> Through(cfg, calls + [c])[|calls|]
  {
    AllowedIsFewLive(cfg, calls, c);
    ThroughIsAccepted(cfg, calls, c, c.nowMs - WindowOn(cfg, c));
    NextThrough(cfg, calls, c);
  }

  lemma NextThrough(cfg: Config, calls: seq<Call>, c: Call)
    ensures Through(cfg, calls + [c])[|calls|] == Passes(cfg, calls, Through(cfg, calls), c)
  {
    var all, n := calls + [c], |calls|;
    assert all[..n] == calls && all[n] == c;
  }

  /** The budget, end to end: of the calls of any run on one budget, no half-open interval one window
      long holds more than the limit of those let through. */
  lemma CallsWithinBudget(cfg: Config, calls: seq<Call>, c: Call, start: int)
    requires Sorted(TimesOf(calls, ClientOf(c)))
    ensures LetThroughIn(calls, Through(cfg, calls), c, start, start + WindowOn(cfg, c)) <= LimitOn(cfg, c)
  {
    ThroughInIsAcceptedIn(cfg, calls, c, start, start + WindowOn(cfg, c));
    WindowBudget(BudgetOf(cfg, ClientOf(c).bucket), TimesOf(calls, ClientOf(c)), start);
  }
}
