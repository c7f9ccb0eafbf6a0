/** The proxy's cache of who may use the internet. The cache is emptied as a whole when it is more
    than thirty seconds old; until then a stored verdict is returned without asking the database.

    Every client is served by its own thread and nothing guards the cache, so a check is cut where it
    asks the database: it reads the cache, looks up, and stores, and between these steps the checks of
    other threads may read, empty and fill the cache. */
module ProxyCache {
  import opened Prelude

  /** What the database says about an address at a moment: the answer an uncached lookup would give. */
  type Database = (string, real) -> bool

  datatype Cache = Cache(verdicts: map<string, bool>, since: real)

  const MAX_AGE: real := 30.0

  predicate Stale(c: Cache, now: real) { now - c.since > MAX_AGE }

  function Purged(c: Cache, now: real): Cache { if Stale(c, now) then Cache(map[], now) else c }

  function Found(c: Cache, ip: string): Option<bool> { if ip in c.verdicts then Some(c.verdicts[ip]) else None }

  function Stored(c: Cache, ip: string, verdict: bool): Cache { c.(verdicts := c.verdicts[ip := verdict]) }

  /** One check from start to end: its clock reading, and when it asks the database if it has to. */
  datatype Query = Query(ip: string, now: real, lookupAt: real)

  function Verdict(db: Database, c: Cache, q: Query): bool {
    match Found(Purged(c, q.now), q.ip)
    case Some(verdict) => verdict
    case None => db(q.ip, q.lookupAt)
  }

  function After(db: Database, c: Cache, q: Query): Cache { Stored(Purged(c, q.now), q.ip, Verdict(db, c, q)) }

  class InternetCheck {
    const db: Database
    var ipCache: map<string, bool>
    var cacheTs: real

    constructor (db: Database)
      ensures this.db == db && View() == Cache(map[], 0.0)
    {
      this.db := db;
      ipCache, cacheTs := map[], 0.0;
    }

    function View(): Cache
      reads this
    {
      Cache(ipCache, cacheTs)
    }

    method PurgeAndRead(ip: string, now: real) returns (found: Option<bool>)
      modifies this
      ensures View() == Purged(old(View()), now) && found == Found(View(), ip)
    {
      if now - cacheTs > MAX_AGE {
        ipCache, cacheTs := map[], now;
      }
      if ip in ipCache {
        return Some(ipCache[ip]);
      }
      return None;
    }

    method StoreVerdict(ip: string, verdict: bool)
      modifies this`ipCache
      ensures View() == Stored(old(View()), ip, verdict)
    {
      ipCache := ipCache[ip := verdict];
    }

    /** A check that no other thread interrupts. */
    method CheckInternet(q: Query) returns (enabled: bool)
      modifies this
      ensures enabled == Verdict(db, old(View()), q) && View() == After(db, old(View()), q)
    {
      var found := PurgeAndRead(q.ip, q.now);
      if found.Some? {
        assert ipCache == ipCache[q.ip := found.value];
        return found.value;
      }
      enabled := db(q.ip, q.lookupAt);
      StoreVerdict(q.ip, enabled);
    }
  }

  // ---------------------------------------------------------------- one check at a time

  function Run(db: Database, qs: seq<Query>): Cache {
    if qs == [] then Cache(map[], 0.0) else After(db, Run(db, qs[..|qs| - 1]), qs[|qs| - 1])
  }

  /** The clock never runs backwards, and starts after the epoch; each check ends before the next begins. */
  predicate Ordered(qs: seq<Query>) {
    && (forall i :: 0 <= i < |qs| ==> 0.0 <= qs[i].now <= qs[i].lookupAt)
    && (forall i, j :: 0 <= i < j < |qs| ==> qs[i].lookupAt <= qs[j].now)
  }

  ghost predicate TrueSometime(db: Database, ip: string, verdict: bool, from: real, until: real) {
    exists s: real :: from <= s <= until && db(ip, s) == verdict
  }

  /** Every stored verdict was the database's answer at some moment since the cache was last emptied. */
  lemma {:induction false} StoredSinceEmptied(db: Database, qs: seq<Query>, until: real)
    requires Ordered(qs) && 0.0 <= until && forall i :: 0 <= i < |qs| ==> qs[i].lookupAt <= until
    ensures var c := Run(db, qs);
            c.since <= until && forall ip :: ip in c.verdicts ==> TrueSometime(db, ip, c.verdicts[ip], c.since, until)
  {
    if qs != [] {
      var init, q := qs[..|qs| - 1], qs[|qs| - 1];
      var c, c' := Run(db, init), Run(db, qs);
      StoredSinceEmptied(db, init, q.now);
      forall ip | ip in c'.verdicts ensures TrueSometime(db, ip, c'.verdicts[ip], c'.since, until) {
        if ip in Purged(c, q.now).verdicts {
          var s: real :| c.since <= s <= q.now && db(ip, s) == c.verdicts[ip];
          assert c'.since <= s <= until && db(ip, s) == c'.verdicts[ip];
        } else {
          assert c'.since <= q.lookupAt <= until && db(ip, q.lookupAt) == c'.verdicts[ip];
        }
      }
    }
  }

  /** While checks do not overlap, every verdict, against a database that changes at will, is one the
      database itself would have given within the last thirty seconds. */
  lemma VerdictAtMostThirtySecondsOld(db: Database, qs: seq<Query>, q: Query)
    requires Ordered(qs + [q])
    ensures TrueSometime(db, q.ip, Verdict(db, Run(db, qs), q), q.now - 30.0, q.lookupAt)
  {
    var all := qs + [q];
    assert forall i :: 0 <= i < |qs| ==> all[i] == qs[i];
    assert all[|qs|] == q;
    StoredSinceEmptied(db, qs, q.now);
    var c := Run(db, qs);
    if q.ip in Purged(c, q.now).verdicts {
      var s: real :| c.since <= s <= q.now && db(q.ip, s) == c.verdicts[q.ip];
      assert q.now - 30.0 <= s <= q.lookupAt && db(q.ip, s) == Verdict(db, c, q);
    } else {
      assert q.now - 30.0 <= q.lookupAt <= q.lookupAt && db(q.ip, q.lookupAt) == Verdict(db, c, q);
    }
  }

  /** And the cache is a cache: until it is more than thirty seconds old, an address that was checked
      gets the verdict it got, whatever the database has come to say. */
  lemma CheckedOnceInThirtySeconds(db: Database, qs: seq<Query>, q: Query, more: seq<Query>, again: Query)
    requires again.ip == q.ip
    requires var since := Run(db, qs + [q]).since;
             again.now - since <= 30.0 && forall i :: 0 <= i < |more| ==> more[i].now - since <= 30.0
    ensures Verdict(db, Run(db, qs + [q] + more), again) == Verdict(db, Run(db, qs), q)
  {
    assert (qs + [q])[..|qs|] == qs;
    StaysStored(db, qs + [q], q.ip, more);
  }

  lemma {:induction false} StaysStored(db: Database, qs: seq<Query>, ip: string, more: seq<Query>)
    requires ip in Run(db, qs).verdicts
    requires forall i :: 0 <= i < |more| ==> more[i].now - Run(db, qs).since <= 30.0
    ensures var c := Run(db, qs + more);
            c.since == Run(db, qs).since && ip in c.verdicts && c.verdicts[ip] == Run(db, qs).verdicts[ip]
  {
    if more == [] {
      assert qs + more == qs;
    } else {
      assert (qs + more)[..|qs + more| - 1] == qs + more[..|more| - 1];
      StaysStored(db, qs, ip, more[..|more| - 1]);
    }
  }

  // ---------------------------------------------------------------- checks that interleave

  /** How far a check has come that did not find its address in the cache. */
  datatype Stage = Missed(ip: string) | Looked(ip: string, at: real, verdict: bool)

  /** When a stored verdict was looked up, and when it was stored. */
  datatype Origin = Origin(lookupAt: real, storedAt: real)

  /** The cache, the checks under way, and where the stored verdicts came from. */
  datatype Proxy = Proxy(cache: Cache, checks: map<int, Stage>, origins: map<string, Origin>)

  datatype Step =
    | Ask(check: int, ip: string, at: real)
    | LookUp(check: int, at: real)
    | Store(check: int, at: real)

  const IDLE := Proxy(Cache(map[], 0.0), map[], map[])

  function Stepped(db: Database, p: Proxy, s: Step): Proxy {
    match s
    case Ask(check, ip, at) =>
      var c := Purged(p.cache, at);
      Proxy(c, if ip in c.verdicts then p.checks - {check} else p.checks[check := Missed(ip)],
            if Stale(p.cache, at) then map[] else p.origins)
    case LookUp(check, at) =>
      if check !in p.checks || !p.checks[check].Missed? then p
      else var ip := p.checks[check].ip; p.(checks := p.checks[check := Looked(ip, at, db(ip, at))])
    case Store(check, at) =>
      if check !in p.checks || !p.checks[check].Looked? then p
      else
        var looked := p.checks[check];
        Proxy(Stored(p.cache, looked.ip, looked.verdict), p.checks - {check},
              p.origins[looked.ip := Origin(looked.at, at)])
  }

  /** The proxy after a run: any interleaving of the steps of any number of checks. */
  function AfterSteps(db: Database, run: seq<Step>): Proxy {
    if run == [] then IDLE else Stepped(db, AfterSteps(db, run[..|run| - 1]), run[|run| - 1])
  }

  /** The steps in the order of the clock, up to a moment. */
  predicate InOrder(run: seq<Step>, until: real) {
    && 0.0 <= until && (forall i :: 0 <= i < |run| ==> 0.0 <= run[i].at <= until)
    && (forall i, j :: 0 <= i < j < |run| ==> run[i].at <= run[j].at)
  }

  /** One thread's check, cut where other threads can come in between. */
  class CheckCall {
    const check: InternetCheck
    const ip: string
    var stage: Option<Stage>

    constructor (check: InternetCheck, ip: string)
      ensures this.check == check && this.ip == ip && stage == None
    {
      this.check, this.ip, stage := check, ip, None;
    }

    method AskCache(now: real) returns (found: Option<bool>)
      modifies this, check
      ensures check.View() == Purged(old(check.View()), now) && found == Found(check.View(), ip)
      ensures stage == if found.Some? then old(stage) else Some(Missed(ip))
    {
      found := check.PurgeAndRead(ip, now);
      if found.None? { stage := Some(Missed(ip)); }
    }

    method LookUpAddress(at: real)
      requires stage == Some(Missed(ip))
      modifies this
      ensures stage == Some(Looked(ip, at, check.db(ip, at)))
    {
      stage := Some(Looked(ip, at, check.db(ip, at)));
    }

    method StoreFound() returns (enabled: bool)
      requires stage.Some? && stage.value.Looked? && stage.value.ip == ip
      modifies this, check
      ensures enabled == old(stage).value.verdict && check.View() == Stored(old(check.View()), ip, enabled)
          && stage == None
    {
      enabled := stage.value.verdict;
      check.StoreVerdict(ip, enabled);
      stage := None;
    }
  }

  /** This verdict was looked up and stored at these moments, the second since the cache was last emptied. */
  predicate ComesFrom(db: Database, ip: string, verdict: bool, o: Origin, since: real, until: real) {
    db(ip, o.lookupAt) == verdict && o.lookupAt <= o.storedAt && since <= o.storedAt <= until
  }

  ghost predicate Traced(db: Database, p: Proxy, until: real) {
    && p.cache.since <= until && p.origins.Keys == p.cache.verdicts.Keys
    && (forall ip :: ip in p.origins
          ==> ComesFrom(db, ip, p.cache.verdicts[ip], p.origins[ip], p.cache.since, until))
    && (forall k :: k in p.checks && p.checks[k].Looked?
          ==> p.checks[k].at <= until && db(p.checks[k].ip, p.checks[k].at) == p.checks[k].verdict)
  }

  lemma StepKeepsTraced(db: Database, p: Proxy, s: Step, until: real)
    requires Traced(db, p, until) && until <= s.at
    ensures Traced(db, Stepped(db, p, s), s.at)
  {
    var p' := Stepped(db, p, s);
    forall ip | ip in p'.origins
      ensures ip in p'.cache.verdicts && ComesFrom(db, ip, p'.cache.verdicts[ip], p'.origins[ip], p'.cache.since, s.at)
    {
      assert ip in p.origins ==> ComesFrom(db, ip, p.cache.verdicts[ip], p.origins[ip], p.cache.since, until);
    }
  }

  lemma {:induction false} RunKeepsTraced(db: Database, run: seq<Step>, until: real)
    requires InOrder(run, until)
    ensures Traced(db, AfterSteps(db, run), until)
  {
    if run != [] {
      var init, s := run[..|run| - 1], run[|run| - 1];
      var from := if init == [] then 0.0 else init[|init| - 1].at;
      RunKeepsTraced(db, init, from);
      StepKeepsTraced(db, AfterSteps(db, init), s, from);
      TracedLater(db, AfterSteps(db, run), s.at, until);
    }
  }

  lemma TracedLater(db: Database, p: Proxy, now: real, until: real)
    requires Traced(db, p, now) && now <= until
    ensures Traced(db, p, until)
  {
    forall ip | ip in p.origins
      ensures ComesFrom(db, ip, p.cache.verdicts[ip], p.origins[ip], p.cache.since, until)
    {
      assert ComesFrom(db, ip, p.cache.verdicts[ip], p.origins[ip], p.cache.since, now);
    }
  }

  /** Bounded staleness, over every interleaving: a verdict found in the cache is one the database gave
      at a known moment, and it is older than thirty seconds by no more than the time that check took
      from its lookup to its store. */
  lemma StaleByLookupToStore(db: Database, run: seq<Step>, ip: string, now: real)
    requires InOrder(run, now) && Found(Purged(AfterSteps(db, run).cache, now), ip).Some?
    ensures var p := AfterSteps(db, run);
            && ip in p.origins
            && var o := p.origins[ip];
               && Found(Purged(p.cache, now), ip) == Some(db(ip, o.lookupAt)) && o.lookupAt <= o.storedAt <= now
               && now - o.lookupAt <= 30.0 + (o.storedAt - o.lookupAt)
  {
    RunKeepsTraced(db, run, now);
    var p := AfterSteps(db, run);
    assert ComesFrom(db, ip, p.cache.verdicts[ip], p.origins[ip], p.cache.since, now);
  }

  /** Thirty seconds are kept by every later reader of a verdict exactly when the cache was not emptied
      between its lookup and its store: `since` is when it was last emptied, and the store came after. */
  lemma ThirtySecondsIffNotEmptied(db: Database, run: seq<Step>, ip: string, until: real)
    requires InOrder(run, until) && Found(Purged(AfterSteps(db, run).cache, until), ip).Some?
    ensures var p := AfterSteps(db, run);
            && ip in p.origins && p.cache.since <= p.origins[ip].storedAt
            && ((forall now: real :: until <= now && !Stale(p.cache, now) ==> now - p.origins[ip].lookupAt <= 30.0)
                <==> p.cache.since <= p.origins[ip].lookupAt)
  {
    RunKeepsTraced(db, run, until);
    var p := AfterSteps(db, run);
    assert ComesFrom(db, ip, p.cache.verdicts[ip], p.origins[ip], p.cache.since, until);
    assert !Stale(p.cache, p.cache.since + 30.0) && until <= p.cache.since + 30.0;
  }

  /** The bound is met, however late the store: a check looks up, another one empties the cache after
      `delay` more seconds, and only then the first stores. Thirty seconds after that the verdict is
      still handed out, though the database has not given it since the lookup. This is about a
      database that can be asked by address; on the server's own every lookup answers no. */
  lemma LateStoreOutlives(delay: real) returns (db: Database, run: seq<Step>, now: real)
    requires delay > 0.0
    ensures InOrder(run, now) && Found(Purged(AfterSteps(db, run).cache, now), "a") == Some(true)
    ensures forall s: real :: db("a", s) <==> s <= now - 30.0 - delay
  {
    db, now := (ip: string, s: real) => s <= 70.0, 100.0 + delay;
    run := [Ask(1, "a", 40.0), LookUp(1, 70.0), Ask(2, "b", 70.0 + delay), Store(1, 70.0 + delay)];
    assert run[..3] == [Ask(1, "a", 40.0), LookUp(1, 70.0), Ask(2, "b", 70.0 + delay)];
    assert run[..3][..2] == [Ask(1, "a", 40.0), LookUp(1, 70.0)] && run[..3][..2][..1] == [Ask(1, "a", 40.0)];
    assert run[..3][..2][..1][..0] == [];
    assert AfterSteps(db, run[..3][..2][..1]) == Proxy(Cache(map[], 40.0), map[1 := Missed("a")], map[]);
    assert AfterSteps(db, run[..3][..2]).checks == map[1 := Looked("a", 70.0, true)];
    assert AfterSteps(db, run[..3]).cache == Cache(map[], 70.0 + delay);
  }
}
