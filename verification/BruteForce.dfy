/** The login brute-force guard and the login handler that drives it.

    The handler asks `CheckAllowed` first and records an attempt only when the credentials were
    wrong, so what a run of requests can do to the guard's tables is decided by both together. */
module BruteForce {
  import opened Prelude

  datatype Attempt = Attempt(login: string, ip: string, success: bool, at: int)

  /** The guard's settings, and the strip-and-lower-case it applies to a login. */
  datatype RawPolicy = Policy(windowMs: int, loginLimit: int, ipLimit: int, blockMs: int, normalize: string -> string)

  /** What the settings reader guarantees, and that digits are left alone. */
  ghost predicate ValidPolicy(p: RawPolicy) {
    && p.windowMs >= 1 && p.loginLimit >= 2 && p.ipLimit >= 1 && p.blockMs >= 0
    && forall n: nat :: p.normalize(Decimal(n)) == Decimal(n)
  }

  function Digit(d: nat): char
    requires d < 10
  {
    ('0' as int + d) as char
  }

  function Decimal(n: nat): (s: string)
    ensures s != ""
  {
    if n < 10 then [Digit(n)] else Decimal(n / 10) + [Digit(n % 10)]
  }

  type Policy = p: RawPolicy | ValidPolicy(p) ghost witness Policy(1, 2, 1, 0, s => s)

  datatype Tables = Tables(attempts: seq<Attempt>, blocks: map<string, int>)

  function LoginFailures(attempts: seq<Attempt>, login: string, since: int): nat {
    if attempts == [] then 0 else
      var a := attempts[|attempts| - 1];
      LoginFailures(attempts[..|attempts| - 1], login, since)
      + if a.login == login && !a.success && a.at >= since then 1 else 0
  }

  function IpFailures(attempts: seq<Attempt>, ip: string, since: int): nat {
    if attempts == [] then 0 else
      var a := attempts[|attempts| - 1];
      IpFailures(attempts[..|attempts| - 1], ip, since)
      + if a.ip == ip && !a.success && a.at >= since then 1 else 0
  }

  predicate Blocked(t: Tables, ip: string, now: int) {
    ip in t.blocks && t.blocks[ip] > now
  }

  /** A check forgets a block that has run out. */
  function AfterCheck(t: Tables, ip: string, now: int): Tables {
    if ip in t.blocks && t.blocks[ip] <= now then t.(blocks := t.blocks - {ip}) else t
  }

  function BlockFor(p: Policy, attempts: seq<Attempt>, login: string, ip: string, now: int): Option<int> {
    if LoginFailures(attempts, p.normalize(login), now - p.windowMs) >= p.loginLimit
       || IpFailures(attempts, ip, now - p.windowMs) >= p.ipLimit
    then Some(now + p.blockMs) else None
  }

  function AfterFailure(p: Policy, t: Tables, login: string, ip: string, now: int): Tables {
    var attempts := t.attempts + [Attempt(p.normalize(login), ip, false, now)];
    match BlockFor(p, attempts, login, ip, now)
    case Some(until) => Tables(attempts, t.blocks[ip := until])
    case None => Tables(attempts, t.blocks)
  }

  class BruteForceGuard {
    const policy: Policy
    var attempts: seq<Attempt>
    var ipBlocks: map<string, int>

    constructor (policy: Policy)
      ensures this.policy == policy && View() == Tables([], map[])
    {
      this.policy := policy;
      attempts, ipBlocks := [], map[];
    }

    ghost function View(): Tables
      reads this
    {
      Tables(attempts, ipBlocks)
    }

    method CheckAllowed(ip: string, now: int) returns (allowed: bool, until: Option<int>)
      modifies this
      ensures View() == AfterCheck(old(View()), ip, now)
      ensures allowed == !Blocked(old(View()), ip, now)
      ensures until == if allowed then None else Some(ipBlocks[ip])
    {
      if ip !in ipBlocks {
        return true, None;
      }
      var blockedUntil := ipBlocks[ip];
      if blockedUntil <= now {
        ipBlocks := ipBlocks - {ip};
        return true, None;
      }
      return false, Some(blockedUntil);
    }

    method RecordAttempt(login: string, ip: string, success: bool, now: int) returns (until: Option<int>)
      modifies this
      ensures success ==> until == None
      ensures success
          ==> View() == Tables(old(attempts) + [Attempt(policy.normalize(login), ip, true, now)], old(ipBlocks))
      ensures !success ==> View() == AfterFailure(policy, old(View()), login, ip, now)
      ensures !success ==> until == BlockFor(policy, attempts, login, ip, now)
    {
      var normalized := policy.normalize(login);
      attempts := attempts + [Attempt(normalized, ip, success, now)];
      if success {
        return None;
      }
      var boundary := now - policy.windowMs;
      var loginFailed := LoginFailures(attempts, normalized, boundary);
      var ipFailed := IpFailures(attempts, ip, boundary);
      if loginFailed >= policy.loginLimit || ipFailed >= policy.ipLimit {
        var blockedUntil := now + policy.blockMs;
        ipBlocks := ipBlocks[ip := blockedUntil];
        return Some(blockedUntil);
      }
      return None;
    }
  }

  // ---------------------------------------------------------------- the login handler

  /** How the account service answers a login. */
  datatype Outcome = Granted | InvalidCredentials | OtherRefusal

  datatype Request = Request(login: string, ip: string, outcome: Outcome, checkAt: int, recordAt: int)

  datatype Reply = LoggedIn | TooManyAttempts(until: int) | Refused

  function LoginStep(p: Policy, t: Tables, r: Request): Tables {
    if Blocked(t, r.ip, r.checkAt) then t
    else if r.outcome.InvalidCredentials? then
      AfterFailure(p, AfterCheck(t, r.ip, r.checkAt), r.login, r.ip, r.recordAt)
    else AfterCheck(t, r.ip, r.checkAt)
  }

  function ReplyTo(p: Policy, t: Tables, r: Request): Reply {
    if Blocked(t, r.ip, r.checkAt) then TooManyAttempts(t.blocks[r.ip])
    else if r.outcome.Granted? then LoggedIn
    else if r.outcome.InvalidCredentials? && BlockFor(p, LoginStep(p, t, r).attempts, r.login, r.ip, r.recordAt).Some?
    then TooManyAttempts(r.recordAt + p.blockMs)
    else Refused
  }

  /** The login request: a blocked address is turned away before its password is looked at, and
      only wrong credentials are recorded. */
  method Login(guard: BruteForceGuard, r: Request) returns (reply: Reply)
    modifies guard
    ensures guard.View() == LoginStep(guard.policy, old(guard.View()), r)
    ensures reply == ReplyTo(guard.policy, old(guard.View()), r)
  {
    var allowed, until := guard.CheckAllowed(r.ip, r.checkAt);
    if !allowed {
      return TooManyAttempts(until.value);
    }
    if r.outcome.Granted? {
      return LoggedIn;
    }
    var blockedUntil: Option<int> := None;
    if r.outcome.InvalidCredentials? {
      blockedUntil := guard.RecordAttempt(r.login, r.ip, false, r.recordAt);
    }
    return if blockedUntil.Some? then TooManyAttempts(blockedUntil.value) else Refused;
  }

  // ---------------------------------------------------------------- whole runs

  function Run(p: Policy, rs: seq<Request>): Tables {
    if rs == [] then Tables([], map[]) else LoginStep(p, Run(p, rs[..|rs| - 1]), rs[|rs| - 1])
  }

  /** Requests are served one after the other by a clock that never runs backwards. */
  predicate Ordered(rs: seq<Request>) {
    && (forall i :: 0 <= i < |rs| ==> rs[i].checkAt <= rs[i].recordAt)
    && (forall i, j :: 0 <= i < j < |rs| ==> rs[i].recordAt <= rs[j].checkAt)
  }

  /** Recorded failures of one address in the half-open interval [lo, hi). */
  function FailuresIn(attempts: seq<Attempt>, ip: string, lo: int, hi: int): nat {
    if attempts == [] then 0 else
      var a := attempts[|attempts| - 1];
      FailuresIn(attempts[..|attempts| - 1], ip, lo, hi)
      + if a.ip == ip && !a.success && lo <= a.at < hi then 1 else 0
  }

  predicate Counts(a: Attempt, login: string, lo: int, hi: int) { a.login == login && !a.success && lo <= a.at < hi }

  /** Recorded failures of one login from anywhere. */
  function LoginFailuresIn(attempts: seq<Attempt>, login: string, lo: int, hi: int): nat {
    if attempts == [] then 0
    else LoginFailuresIn(attempts[..|attempts| - 1], login, lo, hi)
         + if Counts(attempts[|attempts| - 1], login, lo, hi) then 1 else 0
  }

  // ---------------------------------------------------------------- what the attempts alone decide

  /** Whether the i-th attempt shuts its address out: up to it, and no older than the window, there are
      as many failures of its address, or of its login, as the limit. */
  predicate Strikes(p: Policy, attempts: seq<Attempt>, i: nat)
    requires i < |attempts|
  {
    var a, upTo := attempts[i], attempts[..i + 1];
    || FailuresIn(upTo, a.ip, a.at - p.windowMs, a.at + 1) >= p.ipLimit
    || LoginFailuresIn(upTo, a.login, a.at - p.windowMs, a.at + 1) >= p.loginLimit
  }

  predicate ShutOut(p: Policy, attempts: seq<Attempt>, ip: string, now: int) {
    exists i: nat :: i < |attempts| && attempts[i].ip == ip && Strikes(p, attempts, i)
      && now < attempts[i].at + p.blockMs
  }

  /** The attempts a run leaves: the wrong credentials of every address not shut out at that moment. */
  function Recorded(p: Policy, rs: seq<Request>): seq<Attempt> {
    if rs == [] then [] else
      var before, r := Recorded(p, rs[..|rs| - 1]), rs[|rs| - 1];
      if r.outcome == InvalidCredentials && !ShutOut(p, before, r.ip, r.checkAt)
      then before + [Attempt(p.normalize(r.login), r.ip, false, r.recordAt)] else before
  }

  /** The end that every stored block has, and the block of every attempt that shuts its address out. */
  ghost predicate BlocksComeFrom(p: Policy, t: Tables) {
    forall ip :: ip in t.blocks ==>
      exists i: nat :: i < |t.attempts| && t.attempts[i].ip == ip && Strikes(p, t.attempts, i)
        && t.blocks[ip] == t.attempts[i].at + p.blockMs
  }

  ghost predicate StrikesBlock(p: Policy, t: Tables, now: int) {
    forall i: nat :: i < |t.attempts| && Strikes(p, t.attempts, i) ==>
      var ip, end := t.attempts[i].ip, t.attempts[i].at + p.blockMs;
      end <= now || (ip in t.blocks && t.blocks[ip] >= end)
  }

  predicate NoneAfter(attempts: seq<Attempt>, now: int) {
    forall i :: 0 <= i < |attempts| ==> attempts[i].at <= now
  }

  ghost predicate Exact(p: Policy, t: Tables, now: int) {
    NoneAfter(t.attempts, now) && BlocksComeFrom(p, t) && StrikesBlock(p, t, now)
  }

  lemma ExactLater(p: Policy, t: Tables, now: int, later: int)
    requires Exact(p, t, now) && now <= later
    ensures Exact(p, t, later)
  {
  }

  lemma {:induction false} CountsAgree(attempts: seq<Attempt>, login: string, ip: string, since: int, now: int)
    requires NoneAfter(attempts, now)
    ensures IpFailures(attempts, ip, since) == FailuresIn(attempts, ip, since, now + 1)
    ensures LoginFailures(attempts, login, since) == LoginFailuresIn(attempts, login, since, now + 1)
  {
    if attempts != [] { CountsAgree(attempts[..|attempts| - 1], login, ip, since, now); }
  }

  lemma StrikesStay(p: Policy, attempts: seq<Attempt>, a: Attempt, i: nat)
    requires i < |attempts|
    ensures Strikes(p, attempts + [a], i) == Strikes(p, attempts, i)
  {
    assert (attempts + [a])[..i + 1] == attempts[..i + 1];
  }

  lemma BlockedIsShutOut(p: Policy, t: Tables, ip: string, now: int)
    requires Exact(p, t, now)
    ensures Blocked(t, ip, now) <==> ShutOut(p, t.attempts, ip, now)
  {
  }

  lemma CheckKeepsExact(p: Policy, t: Tables, ip: string, now: int)
    requires Exact(p, t, now)
    ensures Exact(p, AfterCheck(t, ip, now), now)
  {
  }

  /** A failure sets a block exactly when it strikes. */
  lemma FailureStrikes(p: Policy, t: Tables, login: string, ip: string, at: int)
    requires NoneAfter(t.attempts, at)
    ensures var attempts := t.attempts + [Attempt(p.normalize(login), ip, false, at)];
            && AfterFailure(p, t, login, ip, at).attempts == attempts
            && BlockFor(p, attempts, login, ip, at)
               == (if Strikes(p, attempts, |t.attempts|) then Some(at + p.blockMs) else None)
            && AfterFailure(p, t, login, ip, at).blocks
               == if Strikes(p, attempts, |t.attempts|) then t.blocks[ip := at + p.blockMs] else t.blocks
  {
    var attempts := t.attempts + [Attempt(p.normalize(login), ip, false, at)];
    assert attempts[..|t.attempts| + 1] == attempts;
    CountsAgree(attempts, p.normalize(login), ip, at - p.windowMs, at);
  }

  lemma FailureKeepsOrigins(p: Policy, t: Tables, login: string, ip: string, at: int)
    requires BlocksComeFrom(p, t) && NoneAfter(t.attempts, at)
    ensures BlocksComeFrom(p, AfterFailure(p, t, login, ip, at))
  {
    var a, t' := Attempt(p.normalize(login), ip, false, at), AfterFailure(p, t, login, ip, at);
    FailureStrikes(p, t, login, ip, at);
    forall other | other in t'.blocks
      ensures exists i: nat :: i < |t'.attempts| && t'.attempts[i].ip == other && Strikes(p, t'.attempts, i)
                && t'.blocks[other] == t'.attempts[i].at + p.blockMs
    {
      if other == ip && Strikes(p, t'.attempts, |t.attempts|) {
        assert t'.attempts[|t.attempts|] == a;
      } else {
        var i: nat :| i < |t.attempts| && t.attempts[i].ip == other && Strikes(p, t.attempts, i)
                      && t.blocks[other] == t.attempts[i].at + p.blockMs;
        StrikesStay(p, t.attempts, a, i);
        assert t'.attempts[i] == t.attempts[i];
      }
    }
  }

  lemma FailureKeepsStrikes(p: Policy, t: Tables, login: string, ip: string, at: int)
    requires StrikesBlock(p, t, at) && NoneAfter(t.attempts, at)
    ensures StrikesBlock(p, AfterFailure(p, t, login, ip, at), at)
  {
    var a, t' := Attempt(p.normalize(login), ip, false, at), AfterFailure(p, t, login, ip, at);
    FailureStrikes(p, t, login, ip, at);
    forall i: nat | i < |t'.attempts| && Strikes(p, t'.attempts, i)
      ensures var end := t'.attempts[i].at + p.blockMs;
              end <= at || (t'.attempts[i].ip in t'.blocks && t'.blocks[t'.attempts[i].ip] >= end)
    {
      if i < |t.attempts| {
        StrikesStay(p, t.attempts, a, i);
        assert t'.attempts[i] == t.attempts[i];
      }
    }
  }

  lemma FailureKeepsExact(p: Policy, t: Tables, login: string, ip: string, at: int)
    requires Exact(p, t, at)
    ensures Exact(p, AfterFailure(p, t, login, ip, at), at)
  {
    FailureKeepsOrigins(p, t, login, ip, at);
    FailureKeepsStrikes(p, t, login, ip, at);
  }

  lemma StepKeepsExact(p: Policy, t: Tables, r: Request)
    requires Exact(p, t, r.checkAt) && r.checkAt <= r.recordAt
    ensures Exact(p, LoginStep(p, t, r), r.recordAt)
  {
    var checked := AfterCheck(t, r.ip, r.checkAt);
    CheckKeepsExact(p, t, r.ip, r.checkAt);
    ExactLater(p, checked, r.checkAt, r.recordAt);
    ExactLater(p, t, r.checkAt, r.recordAt);
    if !Blocked(t, r.ip, r.checkAt) && r.outcome.InvalidCredentials? {
      FailureKeepsExact(p, checked, r.login, r.ip, r.recordAt);
    }
  }

  lemma {:induction false} RunIsExact(p: Policy, rs: seq<Request>, now: int)
    requires Ordered(rs) && forall i :: 0 <= i < |rs| ==> rs[i].recordAt <= now
    ensures Exact(p, Run(p, rs), now)
  {
    if rs != [] {
      var r := rs[|rs| - 1];
      RunIsExact(p, rs[..|rs| - 1], r.checkAt);
      StepKeepsExact(p, Run(p, rs[..|rs| - 1]), r);
      ExactLater(p, Run(p, rs), r.recordAt, now);
    }
  }

  lemma {:induction false} RunRecords(p: Policy, rs: seq<Request>)
    requires Ordered(rs)
    ensures Run(p, rs).attempts == Recorded(p, rs)
  {
    if rs != [] {
      var r := rs[|rs| - 1];
      RunRecords(p, rs[..|rs| - 1]);
      RunIsExact(p, rs[..|rs| - 1], r.checkAt);
      BlockedIsShutOut(p, Run(p, rs[..|rs| - 1]), r.ip, r.checkAt);
    }
  }

  /** The guard is exact: over every run in order, the recorded attempts are those of the definition
      that knows no block table; an address is refused exactly while a recorded failure that reached
      a limit within its window is less than the block's length old; and every stored block ends the
      block's length after such a failure from that address. */
  lemma GuardIsExact(p: Policy, rs: seq<Request>, ip: string, now: int)
    requires Ordered(rs) && forall i :: 0 <= i < |rs| ==> rs[i].recordAt <= now
    ensures var t := Run(p, rs);
            && t.attempts == Recorded(p, rs)
            && (ip in t.blocks && now < t.blocks[ip] <==> ShutOut(p, t.attempts, ip, now))
            && (ip in t.blocks ==>
                  exists i: nat :: i < |t.attempts| && t.attempts[i].ip == ip && Strikes(p, t.attempts, i)
                    && t.blocks[ip] == t.attempts[i].at + p.blockMs)
  {
    RunRecords(p, rs);
    RunIsExact(p, rs, now);
    BlockedIsShutOut(p, Run(p, rs), ip, now);
  }

  /** The address is shut out until then. */
  ghost predicate ShutUntil(p: Policy, attempts: seq<Attempt>, ip: string, now: int, until: int) {
    exists i: nat :: i < |attempts| && attempts[i].ip == ip && Strikes(p, attempts, i)
      && now < until == attempts[i].at + p.blockMs
  }

  /** Whether a failure recorded next would shut its address out. */
  predicate WouldStrike(p: Policy, attempts: seq<Attempt>, r: Request) {
    Strikes(p, attempts + [Attempt(p.normalize(r.login), r.ip, false, r.recordAt)], |attempts|)
  }

  /** What a login is answered, from the attempts alone. */
  lemma RepliesAreExact(p: Policy, rs: seq<Request>, r: Request)
    requires Ordered(rs + [r])
    ensures var attempts, reply := Recorded(p, rs), ReplyTo(p, Run(p, rs), r);
            if ShutOut(p, attempts, r.ip, r.checkAt)
            then reply.TooManyAttempts? && ShutUntil(p, attempts, r.ip, r.checkAt, reply.until)
            else reply == if r.outcome == Granted then LoggedIn
                          else if r.outcome == InvalidCredentials && WouldStrike(p, attempts, r)
                          then TooManyAttempts(r.recordAt + p.blockMs)
                          else Refused
  {
    assert (rs + [r])[..|rs|] == rs && (rs + [r])[|rs|] == r;
    assert forall i :: 0 <= i < |rs| ==> (rs + [r])[i] == rs[i];
    RunIsExact(p, rs, r.checkAt);
    RunRecords(p, rs);
    ReplyIsExact(p, Run(p, rs), r);
  }

  lemma ReplyIsExact(p: Policy, t: Tables, r: Request)
    requires Exact(p, t, r.checkAt) && r.checkAt <= r.recordAt
    ensures var reply := ReplyTo(p, t, r);
            if ShutOut(p, t.attempts, r.ip, r.checkAt)
            then reply.TooManyAttempts? && ShutUntil(p, t.attempts, r.ip, r.checkAt, reply.until)
            else reply == if r.outcome == Granted then LoggedIn
                          else if r.outcome == InvalidCredentials && WouldStrike(p, t.attempts, r)
                          then TooManyAttempts(r.recordAt + p.blockMs)
                          else Refused
  {
    BlockedIsShutOut(p, t, r.ip, r.checkAt);
    if !Blocked(t, r.ip, r.checkAt) && r.outcome.InvalidCredentials? {
      FailureStrikes(p, AfterCheck(t, r.ip, r.checkAt), r.login, r.ip, r.recordAt);
    }
  }

  // ---------------------------------------------------------------- budgets

  lemma {:induction false} FailuresInWithin(attempts: seq<Attempt>, ip: string, lo: int, hi: int, since: int)
    requires since <= lo
    ensures FailuresIn(attempts, ip, lo, hi) <= IpFailures(attempts, ip, since)
  {
    if attempts != [] { FailuresInWithin(attempts[..|attempts| - 1], ip, lo, hi, since); }
  }

  /** An interval already holding its full budget is over, or the address is blocked until it is. */
  ghost predicate BudgetKept(p: Policy, t: Tables, ip: string, start: int, now: int) {
    var n := FailuresIn(t.attempts, ip, start, start + p.windowMs);
    && n <= p.ipLimit
    && (n == p.ipLimit ==> now >= start + p.windowMs || (ip in t.blocks && t.blocks[ip] >= start + p.windowMs))
  }

  lemma CheckKeepsBudget(p: Policy, t: Tables, asking: string, at: int, ip: string, start: int, now: int)
    requires BudgetKept(p, t, ip, start, now) && now <= at
    ensures BudgetKept(p, AfterCheck(t, asking, at), ip, start, at)
  {
  }

  lemma OneMoreFailure(attempts: seq<Attempt>, a: Attempt, ip: string, lo: int, hi: int)
    ensures FailuresIn(attempts + [a], ip, lo, hi)
         == FailuresIn(attempts, ip, lo, hi) + if a.ip == ip && !a.success && lo <= a.at < hi then 1 else 0
  {
    assert (attempts + [a])[..|attempts|] == attempts;
  }

  lemma FailureKeepsBudget(p: Policy, t: Tables, login: string, failing: string, at: int, ip: string, start: int,
                           now: int)
    requires p.blockMs >= p.windowMs && BudgetKept(p, t, ip, start, now) && now <= at && failing !in t.blocks
    ensures BudgetKept(p, AfterFailure(p, t, login, failing, at), ip, start, at)
  {
    var a, hi := Attempt(p.normalize(login), failing, false, at), start + p.windowMs;
    OneMoreFailure(t.attempts, a, ip, start, hi);
    if failing == ip && start <= at < hi {
      assert FailuresIn(t.attempts, ip, start, hi) < p.ipLimit;
      FailuresInWithin(t.attempts + [a], ip, start, hi, at - p.windowMs);
    }
  }

  lemma StepKeepsBudget(p: Policy, t: Tables, r: Request, ip: string, start: int, now: int)
    requires p.blockMs >= p.windowMs && now <= r.checkAt <= r.recordAt
    requires BudgetKept(p, t, ip, start, now)
    ensures BudgetKept(p, LoginStep(p, t, r), ip, start, r.recordAt)
  {
    var checked := AfterCheck(t, r.ip, r.checkAt);
    CheckKeepsBudget(p, t, r.ip, r.checkAt, ip, start, now);
    if !Blocked(t, r.ip, r.checkAt) && r.outcome.InvalidCredentials? {
      FailureKeepsBudget(p, checked, r.login, r.ip, r.recordAt, ip, start, r.checkAt);
    }
  }

  lemma {:induction false} RunKeepsBudget(p: Policy, rs: seq<Request>, ip: string, start: int, now: int)
    requires p.blockMs >= p.windowMs && Ordered(rs)
    requires forall i :: 0 <= i < |rs| ==> rs[i].recordAt <= now
    ensures BudgetKept(p, Run(p, rs), ip, start, now)
  {
    if rs != [] {
      var r := rs[|rs| - 1];
      RunKeepsBudget(p, rs[..|rs| - 1], ip, start, r.checkAt);
      StepKeepsBudget(p, Run(p, rs[..|rs| - 1]), r, ip, start, r.checkAt);
    }
  }

  lemma StepMovesBlockLater(p: Policy, t: Tables, r: Request, ip: string)
    requires r.checkAt <= r.recordAt && ip in t.blocks
    ensures var t' := LoginStep(p, t, r);
            if ip in t'.blocks then t'.blocks[ip] >= t.blocks[ip] else r.checkAt >= t.blocks[ip]
  {
  }

  lemma StepMakesBlockLater(p: Policy, t: Tables, r: Request, ip: string)
    requires r.checkAt <= r.recordAt && ip !in t.blocks
    ensures ip in LoginStep(p, t, r).blocks ==> LoginStep(p, t, r).blocks[ip] >= r.checkAt
  {
  }

  /** A block that was in force stays, or is replaced by a later one, or has run out. */
  lemma {:induction false} BlockEndNeverMovesEarlier(p: Policy, rs: seq<Request>, more: seq<Request>, ip: string)
    requires Ordered(rs + more) && ip in Run(p, rs).blocks
    ensures var t := Run(p, rs + more);
            if ip in t.blocks then t.blocks[ip] >= Run(p, rs).blocks[ip]
            else exists i :: 0 <= i < |more| && more[i].checkAt >= Run(p, rs).blocks[ip]
  {
    if more == [] {
      assert rs + more == rs;
    } else {
      var init, r := more[..|more| - 1], more[|more| - 1];
      assert (rs + more)[..|rs + more| - 1] == rs + init;
      assert Ordered(rs + init) by {
        assert forall i :: 0 <= i < |rs + init| ==> (rs + init)[i] == (rs + more)[i];
      }
      BlockEndNeverMovesEarlier(p, rs, init, ip);
      assert r == (rs + more)[|rs + more| - 1];
      if ip in Run(p, rs + init).blocks {
        StepMovesBlockLater(p, Run(p, rs + init), r, ip);
        assert more[|more| - 1].checkAt == r.checkAt;
      } else {
        var i :| 0 <= i < |init| && init[i].checkAt >= Run(p, rs).blocks[ip];
        assert more[i] == init[i] == (rs + more)[|rs| + i];
        StepMakesBlockLater(p, Run(p, rs + init), r, ip);
      }
    }
  }

  // ---------------------------------------------------------------- the condition is exact

  const PROBE := "ip"

  lemma {:induction false} DecimalsDiffer(m: nat, n: nat)
    requires m != n
    ensures Decimal(m) != Decimal(n)
  {
    if m >= 10 && n >= 10 {
      var a, b := Decimal(m), Decimal(n);
      if m / 10 != n / 10 {
        DecimalsDiffer(m / 10, n / 10);
        assert a[..|a| - 1] == Decimal(m / 10) && b[..|b| - 1] == Decimal(n / 10);
      } else {
        assert a[|a| - 1] == Digit(m % 10) && b[|b| - 1] == Digit(n % 10);
      }
    }
  }

  function Pow10(k: nat): nat { if k == 0 then 1 else 10 * Pow10(k - 1) }

  lemma {:induction false} DecimalLength(n: nat, k: nat)
    requires k >= 1 && n < Pow10(k)
    ensures |Decimal(n)| <= k
  {
    if n >= 10 {
      assert k > 1;
      DecimalLength(n / 10, k - 1);
    }
  }

  lemma ShortDecimal(n: nat)
    requires n <= 10_000
    ensures 1 <= |Decimal(n)| <= 5
  {
    assert Pow10(1) == 10 && Pow10(2) == 100 && Pow10(3) == 1_000 && Pow10(4) == 10_000 && Pow10(5) == 100_000;
    DecimalLength(n, 5);
  }

  /** `n` failures at time 0, each for a different login. */
  function Burst(n: nat): seq<Request> {
    seq(n, i requires 0 <= i < n => Request(Decimal(i), PROBE, InvalidCredentials, 0, 0))
  }

  function BurstAttempts(n: nat): seq<Attempt> {
    seq(n, i requires 0 <= i < n => Attempt(Decimal(i), PROBE, false, 0))
  }

  lemma {:induction false} BurstCounts(n: nat, window: int)
    requires window >= 1
    ensures IpFailures(BurstAttempts(n), PROBE, -window) == n
    ensures FailuresIn(BurstAttempts(n), PROBE, 0, window) == n
  {
    if n > 0 {
      BurstCounts(n - 1, window);
      assert BurstAttempts(n)[..n - 1] == BurstAttempts(n - 1);
    }
  }

  lemma {:induction false} FreshLogin(n: nat, k: nat, since: int)
    requires k >= n
    ensures LoginFailures(BurstAttempts(n), Decimal(k), since) == 0
  {
    if n > 0 {
      FreshLogin(n - 1, k, since);
      assert BurstAttempts(n)[..n - 1] == BurstAttempts(n - 1);
      DecimalsDiffer(k, n - 1);
    }
  }

  lemma BurstStep(p: Policy, n: nat)
    requires n < p.ipLimit
    ensures AfterFailure(p, Tables(BurstAttempts(n), map[]), Decimal(n), PROBE, 0)
         == Tables(BurstAttempts(n + 1), if n + 1 < p.ipLimit then map[] else map[PROBE := p.blockMs])
  {
    assert BurstAttempts(n) + [Attempt(Decimal(n), PROBE, false, 0)] == BurstAttempts(n + 1);
    assert BurstAttempts(n + 1)[..n] == BurstAttempts(n);
    BurstCounts(n + 1, p.windowMs);
    FreshLogin(n, n, -p.windowMs);
  }

  lemma {:induction false} BurstRun(p: Policy, n: nat)
    requires n <= p.ipLimit
    ensures Run(p, Burst(n)) == Tables(BurstAttempts(n), if n < p.ipLimit then map[] else map[PROBE := p.blockMs])
  {
    if n > 0 {
      BurstRun(p, n - 1);
      assert Burst(n)[..n - 1] == Burst(n - 1);
      BurstStep(p, n - 1);
    }
  }

  /** A block shorter than the window lets one interval hold more failures than the limit. The logins
      are short: for every limit the settings allow, at most five characters. */
  lemma ShortBlockBreaksBudget(p: Policy) returns (rs: seq<Request>)
    requires p.blockMs < p.windowMs
    ensures Ordered(rs) && FailuresIn(Run(p, rs).attempts, PROBE, 0, p.windowMs) == p.ipLimit + 1
    ensures p.ipLimit <= 10_000 ==> forall i :: 0 <= i < |rs| ==> 1 <= |rs[i].login| <= 5
  {
    var late := Request(Decimal(p.ipLimit), PROBE, InvalidCredentials, p.blockMs, p.blockMs);
    rs := Burst(p.ipLimit) + [late];
    if p.ipLimit <= 10_000 {
      forall i | 0 <= i < |rs| ensures 1 <= |rs[i].login| <= 5 {
        assert rs[i].login == Decimal(i);
        ShortDecimal(i);
      }
    }
    LateCounts(p, rs, late);
  }

  lemma LateCounts(p: Policy, rs: seq<Request>, late: Request)
    requires p.blockMs < p.windowMs && rs == Burst(p.ipLimit) + [late]
    requires late == Request(Decimal(p.ipLimit), PROBE, InvalidCredentials, p.blockMs, p.blockMs)
    ensures FailuresIn(Run(p, rs).attempts, PROBE, 0, p.windowMs) == p.ipLimit + 1
  {
    var t, a := Run(p, Burst(p.ipLimit)), Attempt(p.normalize(late.login), PROBE, false, p.blockMs);
    BurstRun(p, p.ipLimit);
    assert rs[..p.ipLimit] == Burst(p.ipLimit);
    assert !Blocked(t, PROBE, p.blockMs);
    assert Run(p, rs).attempts == BurstAttempts(p.ipLimit) + [a];
    BurstCounts(p.ipLimit, p.windowMs);
    OneMoreFailure(BurstAttempts(p.ipLimit), a, PROBE, 0, p.windowMs);
  }

  ghost predicate WithinBudget(p: Policy, rs: seq<Request>, ip: string, start: int) {
    FailuresIn(Run(p, rs).attempts, ip, start, start + p.windowMs) <= p.ipLimit
  }

  /** The bound on failures per window, over every run of login requests and every interval one
      window long, holds exactly for the settings whose block lasts at least a window. */
  lemma WindowBudgetIffBlockCoversWindow(p: Policy)
    ensures (forall rs: seq<Request>, ip: string, start: int | Ordered(rs) :: WithinBudget(p, rs, ip, start))
       <==> p.blockMs >= p.windowMs
  {
    if p.blockMs >= p.windowMs {
      forall rs: seq<Request>, ip: string, start: int | Ordered(rs) ensures WithinBudget(p, rs, ip, start) {
        RunKeepsBudget(p, rs, ip, start, if rs == [] then 0 else rs[|rs| - 1].recordAt);
      }
    } else {
      var rs := ShortBlockBreaksBudget(p);
      assert !WithinBudget(p, rs, PROBE, 0);
    }
  }

  // ---------------------------------------------------------------- what one login may get

  /** Recorded failures of one login from one address in the half-open interval [lo, hi). */
  function PairFailures(attempts: seq<Attempt>, login: string, ip: string, lo: int, hi: int): nat {
    if attempts == [] then 0 else
      var a := attempts[|attempts| - 1];
      PairFailures(attempts[..|attempts| - 1], login, ip, lo, hi)
      + if a.login == login && a.ip == ip && !a.success && lo <= a.at < hi then 1 else 0
  }

  lemma {:induction false} PairWithin(attempts: seq<Attempt>, login: string, ip: string, lo: int, hi: int, since: int)
    requires since <= lo
    ensures PairFailures(attempts, login, ip, lo, hi) <= LoginFailures(attempts, login, since)
  {
    if attempts != [] { PairWithin(attempts[..|attempts| - 1], login, ip, lo, hi, since); }
  }

  /** An interval already holding the login's full budget is over, or the address is blocked until it is. */
  ghost predicate PairKept(p: Policy, t: Tables, login: string, ip: string, start: int, now: int) {
    var n := PairFailures(t.attempts, login, ip, start, start + p.windowMs);
    && n <= p.loginLimit
    && (n == p.loginLimit ==> now >= start + p.windowMs || (ip in t.blocks && t.blocks[ip] >= start + p.windowMs))
  }

  lemma OneMorePair(attempts: seq<Attempt>, a: Attempt, login: string, ip: string, lo: int, hi: int)
    ensures PairFailures(attempts + [a], login, ip, lo, hi)
         == PairFailures(attempts, login, ip, lo, hi)
            + if a.login == login && a.ip == ip && !a.success && lo <= a.at < hi then 1 else 0
  {
    assert (attempts + [a])[..|attempts|] == attempts;
  }

  lemma FailureKeepsPair(p: Policy, t: Tables, name: string, failing: string, at: int,
                         login: string, ip: string, start: int, now: int)
    requires p.blockMs >= p.windowMs && PairKept(p, t, login, ip, start, now) && now <= at && failing !in t.blocks
    ensures PairKept(p, AfterFailure(p, t, name, failing, at), login, ip, start, at)
  {
    var a, hi := Attempt(p.normalize(name), failing, false, at), start + p.windowMs;
    OneMorePair(t.attempts, a, login, ip, start, hi);
    if a.login == login && failing == ip && start <= at < hi {
      assert PairFailures(t.attempts, login, ip, start, hi) < p.loginLimit;
      PairWithin(t.attempts + [a], login, ip, start, hi, at - p.windowMs);
    }
  }

  lemma {:induction false} RunKeepsPair(p: Policy, rs: seq<Request>, login: string, ip: string, start: int, now: int)
    requires p.blockMs >= p.windowMs && Ordered(rs)
    requires forall i :: 0 <= i < |rs| ==> rs[i].recordAt <= now
    ensures PairKept(p, Run(p, rs), login, ip, start, now)
  {
    if rs != [] {
      var r, t := rs[|rs| - 1], Run(p, rs[..|rs| - 1]);
      RunKeepsPair(p, rs[..|rs| - 1], login, ip, start, r.checkAt);
      assert PairKept(p, AfterCheck(t, r.ip, r.checkAt), login, ip, start, r.checkAt);
      if !Blocked(t, r.ip, r.checkAt) && r.outcome.InvalidCredentials? {
        FailureKeepsPair(p, AfterCheck(t, r.ip, r.checkAt), r.login, r.ip, r.recordAt, login, ip, start, r.checkAt);
      }
    }
  }

  /** The login's budget: with a block at least as long as the window, no interval one window long holds
      more recorded failures of one login from one address than the login limit. */
  lemma LoginBudgetPerAddress(p: Policy, rs: seq<Request>, login: string, ip: string, start: int)
    requires p.blockMs >= p.windowMs && Ordered(rs)
    ensures PairFailures(Run(p, rs).attempts, login, ip, start, start + p.windowMs) <= p.loginLimit
  {
    RunKeepsPair(p, rs, login, ip, start, if rs == [] then 0 else rs[|rs| - 1].recordAt);
  }

  /** The addresses those failures came from. */
  function Addresses(attempts: seq<Attempt>, login: string, lo: int, hi: int): set<string> {
    if attempts == [] then {}
    else Addresses(attempts[..|attempts| - 1], login, lo, hi)
         + if Counts(attempts[|attempts| - 1], login, lo, hi) then {attempts[|attempts| - 1].ip} else {}
  }

  /** The addresses of those failures that came once the limit was reached, or reached it. */
  function Late(attempts: seq<Attempt>, login: string, lo: int, hi: int, limit: int): set<string> {
    if attempts == [] then {}
    else Late(attempts[..|attempts| - 1], login, lo, hi, limit)
         + if Counts(attempts[|attempts| - 1], login, lo, hi) && LoginFailuresIn(attempts, login, lo, hi) >= limit
           then {attempts[|attempts| - 1].ip} else {}
  }

  lemma {:induction false} LateAmongAddresses(attempts: seq<Attempt>, login: string, lo: int, hi: int, limit: int)
    ensures Late(attempts, login, lo, hi, limit) <= Addresses(attempts, login, lo, hi)
  {
    if attempts != [] { LateAmongAddresses(attempts[..|attempts| - 1], login, lo, hi, limit); }
  }

  lemma {:induction false} LoginFailuresWithin(attempts: seq<Attempt>, login: string, lo: int, hi: int, since: int)
    requires since <= lo
    ensures LoginFailuresIn(attempts, login, lo, hi) <= LoginFailures(attempts, login, since)
  {
    if attempts != [] { LoginFailuresWithin(attempts[..|attempts| - 1], login, lo, hi, since); }
  }

  /** Each late address is blocked until the interval is over, so it is late only once. */
  ghost predicate SpreadKept(p: Policy, t: Tables, login: string, start: int, now: int) {
    var late := Late(t.attempts, login, start, start + p.windowMs, p.loginLimit);
    && LoginFailuresIn(t.attempts, login, start, start + p.windowMs) <= p.loginLimit - 1 + |late|
    && (now < start + p.windowMs ==> forall ip :: ip in late ==> ip in t.blocks && t.blocks[ip] >= start + p.windowMs)
  }

  lemma OneMoreAttempt(attempts: seq<Attempt>, a: Attempt, login: string, lo: int, hi: int, limit: int)
    ensures LoginFailuresIn(attempts + [a], login, lo, hi)
         == LoginFailuresIn(attempts, login, lo, hi) + if Counts(a, login, lo, hi) then 1 else 0
    ensures Late(attempts + [a], login, lo, hi, limit)
         == Late(attempts, login, lo, hi, limit)
            + if Counts(a, login, lo, hi) && LoginFailuresIn(attempts + [a], login, lo, hi) >= limit then {a.ip} else {}
  {
    assert (attempts + [a])[..|attempts|] == attempts;
  }

  lemma CountedKeepsSpread(p: Policy, t: Tables, t': Tables, failing: string, at: int, login: string, start: int)
    requires p.blockMs >= p.windowMs && start <= at < start + p.windowMs && failing !in t.blocks
    requires SpreadKept(p, t, login, start, at)
    requires t'.attempts == t.attempts + [Attempt(login, failing, false, at)]
    requires t'.blocks == t.blocks || t'.blocks == t.blocks[failing := at + p.blockMs]
    requires LoginFailuresIn(t'.attempts, login, start, start + p.windowMs) >= p.loginLimit
             ==> t'.blocks == t.blocks[failing := at + p.blockMs]
    ensures SpreadKept(p, t', login, start, at)
  {
    var hi := start + p.windowMs;
    var late := Late(t.attempts, login, start, hi, p.loginLimit);
    var late' := Late(t'.attempts, login, start, hi, p.loginLimit);
    OneMoreAttempt(t.attempts, Attempt(login, failing, false, at), login, start, hi, p.loginLimit);
    assert failing !in late;
    if LoginFailuresIn(t'.attempts, login, start, hi) >= p.loginLimit {
      assert late' == late + {failing} && |late'| == |late| + 1;
      forall ip | ip in late' ensures ip in t'.blocks && t'.blocks[ip] >= hi {
        assert ip in late || ip == failing;
      }
    } else {
      assert late' == late;
    }
  }

  lemma UncountedKeepsSpread(p: Policy, t: Tables, t': Tables, a: Attempt, login: string, start: int, now: int)
    requires SpreadKept(p, t, login, start, now) && now <= a.at && !Counts(a, login, start, start + p.windowMs)
    requires t'.attempts == t.attempts + [a]
    requires forall ip :: ip in t.blocks ==> ip in t'.blocks && t'.blocks[ip] == t.blocks[ip]
    ensures SpreadKept(p, t', login, start, a.at)
  {
    var hi := start + p.windowMs;
    OneMoreAttempt(t.attempts, a, login, start, hi, p.loginLimit);
    assert Late(t'.attempts, login, start, hi, p.loginLimit) == Late(t.attempts, login, start, hi, p.loginLimit);
  }

  lemma FailureKeepsSpread(p: Policy, t: Tables, name: string, failing: string, at: int,
                           login: string, start: int, now: int)
    requires p.blockMs >= p.windowMs && SpreadKept(p, t, login, start, now) && now <= at && failing !in t.blocks
    ensures SpreadKept(p, AfterFailure(p, t, name, failing, at), login, start, at)
  {
    var t', a := AfterFailure(p, t, name, failing, at), Attempt(p.normalize(name), failing, false, at);
    if Counts(a, login, start, start + p.windowMs) {
      LoginFailuresWithin(t'.attempts, login, start, start + p.windowMs, at - p.windowMs);
      SpreadLater(p, t, login, start, now, at);
      CountedKeepsSpread(p, t, t', failing, at, login, start);
    } else {
      UncountedKeepsSpread(p, t, t', a, login, start, now);
    }
  }

  lemma SpreadLater(p: Policy, t: Tables, login: string, start: int, now: int, later: int)
    requires SpreadKept(p, t, login, start, now) && now <= later
    ensures SpreadKept(p, t, login, start, later)
  {
  }

  lemma CheckKeepsSpread(p: Policy, t: Tables, asking: string, at: int, login: string, start: int, now: int)
    requires SpreadKept(p, t, login, start, now) && now <= at
    ensures SpreadKept(p, AfterCheck(t, asking, at), login, start, at)
  {
  }

  lemma {:induction false} RunKeepsSpread(p: Policy, rs: seq<Request>, login: string, start: int, now: int)
    requires p.blockMs >= p.windowMs && Ordered(rs)
    requires forall i :: 0 <= i < |rs| ==> rs[i].recordAt <= now
    ensures SpreadKept(p, Run(p, rs), login, start, now)
  {
    if rs != [] {
      var r, t := rs[|rs| - 1], Run(p, rs[..|rs| - 1]);
      RunKeepsSpread(p, rs[..|rs| - 1], login, start, r.checkAt);
      CheckKeepsSpread(p, t, r.ip, r.checkAt, login, start, r.checkAt);
      if !Blocked(t, r.ip, r.checkAt) && r.outcome.InvalidCredentials? {
        FailureKeepsSpread(p, AfterCheck(t, r.ip, r.checkAt), r.login, r.ip, r.recordAt, login, start, r.checkAt);
      }
    }
  }

  /** From anywhere: the guard blocks addresses, never logins, so each further address may try a login
      once more. With a block at least as long as the window, one login gets at most one failure less
      than its limit and one more for each address, in any interval one window long. */
  lemma LoginBudgetOverAddresses(p: Policy, rs: seq<Request>, login: string, start: int)
    requires p.blockMs >= p.windowMs && Ordered(rs)
    ensures var attempts, hi := Run(p, rs).attempts, start + p.windowMs;
            LoginFailuresIn(attempts, login, start, hi) <= p.loginLimit - 1 + |Addresses(attempts, login, start, hi)|
  {
    var attempts, hi := Run(p, rs).attempts, start + p.windowMs;
    RunKeepsSpread(p, rs, login, start, if rs == [] then 0 else rs[|rs| - 1].recordAt);
    LateAmongAddresses(attempts, login, start, hi, p.loginLimit);
    NoMore(Late(attempts, login, start, hi, p.loginLimit), Addresses(attempts, login, start, hi));
  }

  lemma NoMore(a: set<string>, b: set<string>)
    requires a <= b
    ensures |a| <= |b|
  {
    assert b == a + (b - a);
  }

  ghost predicate Distinct(names: nat -> string) { forall i: nat, j: nat :: i != j ==> names(i) != names(j) }

  /** The address of the i-th failure: the first one until the limit is reached, and then each in turn. */
  function From(p: Policy, names: nat -> string, i: nat): string {
    if i < p.loginLimit then names(0) else names(i - p.loginLimit + 1)
  }

  function Spread(p: Policy, names: nat -> string, login: string, n: nat): seq<Request> {
    seq(n, i requires 0 <= i < n => Request(login, From(p, names, i), InvalidCredentials, 0, 0))
  }

  function SpreadAttempts(p: Policy, names: nat -> string, login: string, n: nat): seq<Attempt> {
    seq(n, i requires 0 <= i < n => Attempt(login, From(p, names, i), false, 0))
  }

  lemma OneMoreSpread(p: Policy, names: nat -> string, login: string, n: nat)
    requires n > 0
    ensures SpreadAttempts(p, names, login, n)
         == SpreadAttempts(p, names, login, n - 1) + [Attempt(login, From(p, names, n - 1), false, 0)]
    ensures SpreadAttempts(p, names, login, n)[..n - 1] == SpreadAttempts(p, names, login, n - 1)
    ensures Spread(p, names, login, n)[..n - 1] == Spread(p, names, login, n - 1)
  {
  }

  lemma {:induction false} SpreadCounts(p: Policy, names: nat -> string, login: string, n: nat, ip: string)
    ensures LoginFailures(SpreadAttempts(p, names, login, n), login, -p.windowMs) == n
    ensures LoginFailuresIn(SpreadAttempts(p, names, login, n), login, 0, p.windowMs) == n
    ensures IpFailures(SpreadAttempts(p, names, login, n), ip, -p.windowMs) <= n
  {
    if n > 0 {
      SpreadCounts(p, names, login, n - 1, ip);
      OneMoreSpread(p, names, login, n);
    }
  }

  function FirstNames(names: nat -> string, count: nat): set<string> { set j: nat | j < count :: names(j) }

  lemma OneMoreName(names: nat -> string, count: nat)
    ensures FirstNames(names, count + 1) == FirstNames(names, count) + {names(count)}
    ensures FirstNames(names, 0) == {}
  {
  }

  lemma {:induction false} FirstNamesCount(names: nat -> string, count: nat)
    requires Distinct(names)
    ensures |FirstNames(names, count)| == count
  {
    if count > 0 {
      FirstNamesCount(names, count - 1);
      OneMoreName(names, count - 1);
    } else {
      OneMoreName(names, 0);
    }
  }

  /** How many addresses have been used up after n failures. */
  function Used(p: Policy, n: nat): nat { if n < p.loginLimit then 0 else n - p.loginLimit + 1 }

  lemma {:induction false} SpreadRun(p: Policy, names: nat -> string, login: string, n: nat)
    requires p.loginLimit <= p.ipLimit && Distinct(names) && p.normalize(login) == login
    ensures Run(p, Spread(p, names, login, n)).attempts == SpreadAttempts(p, names, login, n)
    ensures Run(p, Spread(p, names, login, n)).blocks.Keys <= FirstNames(names, Used(p, n))
  {
    if n > 0 {
      SpreadRun(p, names, login, n - 1);
      OneMoreSpread(p, names, login, n);
      SpreadStep(p, names, login, n - 1, Run(p, Spread(p, names, login, n - 1)));
    }
  }

  lemma SpreadStep(p: Policy, names: nat -> string, login: string, n: nat, t: Tables)
    requires p.loginLimit <= p.ipLimit && Distinct(names) && p.normalize(login) == login
    requires t.attempts == SpreadAttempts(p, names, login, n) && t.blocks.Keys <= FirstNames(names, Used(p, n))
    ensures var t' := LoginStep(p, t, Request(login, From(p, names, n), InvalidCredentials, 0, 0));
            && t'.attempts == SpreadAttempts(p, names, login, n + 1)
            && t'.blocks.Keys <= FirstNames(names, Used(p, n + 1))
  {
    var ip := From(p, names, n);
    assert ip !in FirstNames(names, Used(p, n));
    OneMoreSpread(p, names, login, n + 1);
    SpreadCounts(p, names, login, n + 1, ip);
    OneMoreName(names, Used(p, n));
    if n + 1 >= p.loginLimit { assert ip == names(n + 1 - p.loginLimit); }
  }

  lemma NextAddress(p: Policy, names: nat -> string, login: string, n: nat)
    requires n >= 1
    ensures Addresses(SpreadAttempts(p, names, login, n), login, 0, p.windowMs)
         == Addresses(SpreadAttempts(p, names, login, n - 1), login, 0, p.windowMs) + {From(p, names, n - 1)}
  {
    OneMoreSpread(p, names, login, n);
  }

  lemma {:induction false} OneAddress(p: Policy, names: nat -> string, login: string, n: nat)
    requires n < p.loginLimit
    ensures Addresses(SpreadAttempts(p, names, login, n), login, 0, p.windowMs) == if n == 0 then {} else {names(0)}
  {
    if n > 0 {
      OneAddress(p, names, login, n - 1);
      NextAddress(p, names, login, n);
    }
  }

  lemma {:induction false} SpreadAddresses(p: Policy, names: nat -> string, login: string, n: nat, more: nat)
    requires n == p.loginLimit + more
    ensures Addresses(SpreadAttempts(p, names, login, n), login, 0, p.windowMs) == FirstNames(names, more + 1)
    decreases more
  {
    NextAddress(p, names, login, n);
    OneMoreName(names, more);
    if more > 0 { SpreadAddresses(p, names, login, n - 1, more - 1); } else { OneAddress(p, names, login, n - 1); }
  }

  /** That bound is met, for any number of addresses, where the login limit is not above the address
      limit: so nothing bounds the failures of one login from everywhere. */
  lemma LoginBoundIsMet(p: Policy, names: nat -> string, login: string, addresses: nat) returns (rs: seq<Request>)
    requires addresses >= 1 && p.loginLimit <= p.ipLimit && Distinct(names) && p.normalize(login) == login
    ensures var attempts := Run(p, rs).attempts;
            && Ordered(rs) && |Addresses(attempts, login, 0, p.windowMs)| == addresses
            && LoginFailuresIn(attempts, login, 0, p.windowMs) == p.loginLimit - 1 + addresses
  {
    var n: nat := p.loginLimit - 1 + addresses;
    rs := Spread(p, names, login, n);
    SpreadRun(p, names, login, n);
    SpreadOrdered(p, names, login, n);
    SpreadTotals(p, names, login, n, addresses, Run(p, rs).attempts);
  }

  lemma SpreadOrdered(p: Policy, names: nat -> string, login: string, n: nat)
    ensures Ordered(Spread(p, names, login, n))
  {
  }

  lemma SpreadTotals(p: Policy, names: nat -> string, login: string, n: nat, addresses: nat, attempts: seq<Attempt>)
    requires addresses >= 1 && n == p.loginLimit - 1 + addresses && Distinct(names)
    requires attempts == SpreadAttempts(p, names, login, n)
    ensures |Addresses(attempts, login, 0, p.windowMs)| == addresses
    ensures LoginFailuresIn(attempts, login, 0, p.windowMs) == n
  {
    SpreadCounts(p, names, login, n, login);
    SpreadAddresses(p, names, login, n, addresses - 1);
    FirstNamesCount(names, addresses);
  }
}
