/** What each request of the edge sync API makes of each event, told row by row: where an event comes
    from, whom it waits for, which pull hands it out, and what settles it. Nothing here mentions how
    the queue selects, sorts, updates or resolves. */
module SyncFates {
  import opened Prelude
  import opened Ordering
  import opened SyncQueue
  import opened SyncQueueLaws

  predicate Unsettled(e: Event) { e.status == Pending || e.status == Sent }

  predicate RunOut(e: Event, now: int) { e.expiresAt.Some? && e.expiresAt.value <= now }

  predicate Marked(env: Env, e: Event) {
    e.payload.conflictMarker || (e.resolution.Some? && env.lower(e.resolution.value) == "manual")
  }

  /** Whether an event may be handed out to a target; a pull without a target takes all. */
  predicate Available(e: Event, target: string, now: int) {
    e.status == Pending && !RunOut(e, now) && (target == "" || e.target == target)
  }

  predicate Older(a: Event, b: Event) { a.createdAt < b.createdAt || (a.createdAt == b.createdAt && a.id < b.id) }

  /** The events a pull takes before this one. */
  ghost function Ahead(q: Queue, e: Event, target: string, now: int): set<Event> {
    set x | x in q.events && Available(x, target, now) && Older(x, e)
  }

  /** A pull takes the oldest available events, at least one and at most five hundred. */
  ghost predicate Taken(q: Queue, e: Event, target: string, limit: int, now: int) {
    && Available(e, target, now)
    && |Ahead(q, e, target, now)| < (if limit < 1 then 1 else if limit > 500 then 500 else limit)
  }

  function PushedKey(env: Env, r: Request): string
    requires r.Push?
  {
    var own := if r.payload.idempotencyKey == "" then r.payload.altKey else r.payload.idempotencyKey;
    if env.strip(own) == ""
    then env.digest(env.strip(r.eventType), r.payload, env.strip(r.source), env.strip(r.target)) else env.strip(own)
  }

  predicate Accepted(env: Env, r: Request) {
    r.Push? && env.strip(r.eventType) != "" && env.strip(r.source) != "" && env.strip(r.target) != ""
  }

  function PushedAt(r: Request): int
    requires r.Push?
  {
    if r.payload.createdAt.None? || r.payload.createdAt.value == 0 then r.now else r.payload.createdAt.value
  }

  /** What an event keeps for ever of the push it came from. */
  predicate Carries(env: Env, e: Event, r: Request) {
    && Accepted(env, r) && e.key == PushedKey(env, r)
    && e.eventType == env.strip(r.eventType) && e.payload == r.payload
    && e.source == env.strip(r.source) && e.target == env.strip(r.target)
    && e.createdAt == PushedAt(r)
    && e.expiresAt == if r.payload.expiresAt.Some? then r.payload.expiresAt else Some(PushedAt(r) + 604_800_000)
  }

  predicate Fresh(e: Event) {
    e.status == Pending && e.attempts == 0 && e.lastAttempt == None && e.resolution == e.payload.resolution
  }

  predicate Stores(env: Env, q: Queue, r: Request)
    requires r.Push?
  {
    exists i :: 0 <= i < |q.events| && q.events[i].key == PushedKey(env, r)
  }

  function Settled(env: Env, e: Event): Event {
    if Marked(env, e) then e.(status := Conflict, resolution := Some("manual")) else e
  }

  /** What a request makes of an event that is in the table. */
  ghost function Fate(env: Env, q: Queue, e: Event, r: Request): Event {
    match r
    case Push(_, _, _, _, _) =>
      if Accepted(env, r) && e.key == PushedKey(env, r) then Settled(env, e) else e
    case Pull(target, limit, now) =>
      if Unsettled(e) && RunOut(e, now) then e.(status := Expired)
      else if Taken(q, e, target, limit, now) then
        Settled(env, e.(status := Sent, lastAttempt := Some(now), attempts := e.attempts + 1))
      else e
    case Ack(id, reason, now) =>
      if e.id != id then e
      else if reason == "" then e.(status := Acknowledged, lastAttempt := Some(now))
      else e.(status := Conflict, resolution := if e.resolution.None? then Some("manual") else e.resolution)
    case Collect(now) =>
      if Unsettled(e) && RunOut(e, now) then e.(status := Expired) else e
  }

  /** The tombstone a request writes for an event, if it writes one. */
  function Stone(e: Event, r: Request): Option<Tombstone> {
    match r
    case Push(_, _, _, _, _) => None
    case Pull(_, _, now) => if Unsettled(e) && RunOut(e, now) then Some(Tombstone(now, "expired")) else None
    case Ack(id, reason, now) => if e.id == id && reason != "" then Some(Tombstone(now, reason)) else None
    case Collect(now) => if Unsettled(e) && RunOut(e, now) then Some(Tombstone(now, "expired")) else None
  }

  ghost predicate RowByRow(env: Env, q: Queue, q': Queue, r: Request) {
    && |q.events| <= |q'.events|
    && (forall i :: 0 <= i < |q.events| ==> q'.events[i] == Fate(env, q, q.events[i], r))
  }

  ghost predicate StoneByStone(q: Queue, q': Queue, r: Request) {
    forall i :: 0 <= i < |q.events| ==>
      match Stone(q.events[i], r)
      case Some(stone) => q.events[i].id in q'.tombs && q'.tombs[q.events[i].id] == stone
      case None => (q.events[i].id in q'.tombs <==> q.events[i].id in q.tombs)
                   && (q.events[i].id in q.tombs ==> q'.tombs[q.events[i].id] == q.tombs[q.events[i].id])
  }

  /** An accepted push under a key that is not stored adds one row, at the end; nothing else adds any. */
  ghost predicate AddsItsOwn(env: Env, q: Queue, q': Queue, r: Request) {
    var n := |q.events|;
    if Accepted(env, r) && !Stores(env, q, r)
    then |q'.events| == n + 1 && Carries(env, q'.events[n], r) && Fresh(q'.events[n]) && q'.events[n].id == q.nextId
    else |q'.events| == n
  }

  // ---------------------------------------------------------------- a pull, row by row

  lemma ExpireRows(q: Queue, now: int)
    requires IdsAscend(q)
    ensures var q' := Expire(q, now);
            && |q'.events| == |q.events| && q'.nextId == q.nextId
            && forall i :: 0 <= i < |q.events| ==>
                 q'.events[i] == if Unsettled(q.events[i]) && RunOut(q.events[i], now)
                                 then q.events[i].(status := Expired) else q.events[i]
    ensures StoneByStone(q, Expire(q, now), Collect(now))
  {
    forall i | 0 <= i < |q.events|
      ensures q.events[i].id in DueIds(q.events, now) <==> Unsettled(q.events[i]) && RunOut(q.events[i], now)
    {
      if q.events[i].id in DueIds(q.events, now) {
        var j :| 0 <= j < |q.events| && Due(q.events[j], now) && q.events[j].id == q.events[i].id;
        assert i == j;
      }
    }
  }

  /** The rows with these ids are sent once more; nothing else changes. */
  ghost predicate SentOn(q: Queue, q': Queue, ids: set<int>, now: int) {
    && |q'.events| == |q.events| && q'.tombs == q.tombs && q'.nextId == q.nextId
    && forall i :: 0 <= i < |q.events| ==>
         var e := q.events[i];
         q'.events[i] == if e.id in ids then e.(status := Sent, lastAttempt := Some(now), attempts := e.attempts + 1)
                         else e
  }

  lemma SentTwice(q: Queue, q': Queue, q'': Queue, a: set<int>, b: set<int>, now: int)
    requires SentOn(q, q', a, now) && SentOn(q', q'', b, now) && a !! b
    ensures SentOn(q, q'', a + b, now)
  {
  }

  lemma MarkRow(q: Queue, id: int, now: int)
    requires AllOpen(q, {id}) && MarkSentReply(q, id, now).result.Ok?
    ensures SentOn(q, MarkSentReply(q, id, now).queue, {id}, now)
  {
  }

  lemma {:induction false} MarkAllRows(env: Env, q: Queue, rows: seq<Event>, now: int)
    requires WellFormed(env, q) && Known(q, rows) && NoRepeats(Ids(rows)) && AllOpen(q, IdsOf(rows))
    ensures SentOn(q, MarkAll(q, rows, now).queue, IdsOf(rows), now)
    decreases |rows|
  {
    if rows == [] {
      assert IdsOf(rows) == {};
    } else {
      var id, first, rest := rows[0].id, MarkSentReply(q, rows[0].id, now).queue, rows[1..];
      HeadApart(rows);
      IdsSplit(rows);
      MarkStored(env, q, rows[0], now);
      assert SentOn(q, first, {id}, now) by { MarkRow(q, id, now); }
      assert SentOn(first, MarkAll(first, rest, now).queue, IdsOf(rest), now) by {
        KnownLater(q, first, rest, {id});
        OpenLater(q, first, id, IdsOf(rest));
        MarkAllRows(env, first, rest, now);
      }
      SentTwice(q, first, MarkAll(first, rest, now).queue, {id}, IdsOf(rest), now);
    }
  }

  /** The rows with these ids are settled; nothing else changes. */
  ghost predicate SettledOn(env: Env, q: Queue, q': Queue, ids: set<int>) {
    && |q'.events| == |q.events| && q'.tombs == q.tombs && q'.nextId == q.nextId
    && forall i :: 0 <= i < |q.events| ==>
         q'.events[i] == if q.events[i].id in ids then Settled(env, q.events[i]) else q.events[i]
  }

  lemma SettledTwice(env: Env, q: Queue, q': Queue, q'': Queue, a: set<int>, b: set<int>)
    requires SettledOn(env, q, q', a) && SettledOn(env, q', q'', b)
    ensures SettledOn(env, q, q'', a + b)
  {
  }

  /** The answers are the settled rows, in turn. */
  ghost predicate Answered(env: Env, q: Queue, rows: seq<Event>, answers: seq<Event>) {
    && |answers| == |rows|
    && forall k, i :: 0 <= k < |rows| && 0 <= i < |q.events| && q.events[i].id == rows[k].id ==>
         answers[k] == Settled(env, q.events[i])
  }

  lemma AnsweredNext(env: Env, q: Queue, q': Queue, rows: seq<Event>, answer: Event, answers: seq<Event>)
    requires rows != [] && SettledOn(env, q, q', {rows[0].id})
    requires Answered(env, q, [rows[0]], [answer]) && Answered(env, q', rows[1..], answers)
    ensures Answered(env, q, rows, [answer] + answers)
  {
    forall k, i | 0 <= k < |rows| && 0 <= i < |q.events| && q.events[i].id == rows[k].id
      ensures ([answer] + answers)[k] == Settled(env, q.events[i])
    {
      if k == 0 {
        assert [rows[0]][0].id == q.events[i].id;
      } else {
        assert rows[1..][k - 1] == rows[k] && q'.events[i].id == rows[k].id;
      }
    }
  }

  lemma {:induction false} ResolveAllRows(env: Env, q: Queue, rows: seq<Event>, now: int, done: seq<Event>)
      returns (answers: seq<Event>)
    requires WellFormed(env, q) && Known(q, rows)
    ensures var r := ResolveAll(env, q, rows, now, done);
            && SettledOn(env, q, r.queue, IdsOf(rows))
            && r.result == Ok(done + answers) && Answered(env, q, rows, answers)
    decreases |rows|
  {
    if rows == [] {
      answers := [];
      assert IdsOf(rows) == {} && done + answers == done;
    } else {
      var first, rest := ResolveReply(env, q, rows[0].key, now), rows[1..];
      ResolveRow(env, q, rows[0], now);
      var answer := first.result.value;
      assert WellFormed(env, first.queue) && Known(first.queue, rest) by {
        ResolveStored(env, q, rows[0], now);
        KnownLater(q, first.queue, rest, {rows[0].id});
      }
      var others := ResolveAllRows(env, first.queue, rest, now, done + [answer]);
      answers := [answer] + others;
      assert done + answers == done + [answer] + others;
      assert IdsOf(rows) == {rows[0].id} + IdsOf(rest) by { IdsSplit(rows); }
      SettledTwice(env, q, first.queue, ResolveAll(env, q, rows, now, done).queue, {rows[0].id}, IdsOf(rest));
      AnsweredNext(env, q, first.queue, rows, answer, others);
    }
  }

  /** Resolving the key of one stored event settles that event and answers with it. */
  lemma ResolveRow(env: Env, q: Queue, e: Event, now: int)
    requires WellFormed(env, q) && Stored(q, e)
    ensures var r := ResolveReply(env, q, e.key, now);
            SettledOn(env, q, r.queue, {e.id}) && r.result.Ok? && Answered(env, q, [e], [r.result.value])
  {
    var i :| 0 <= i < |q.events| && SameEvent(q.events[i], e);
    ResolveUnique(env, q, i, now);
    UniqueRow(env, q, i, e, now);
  }

  lemma UniqueRow(env: Env, q: Queue, i: nat, e: Event, now: int)
    requires IdsAscend(q) && i < |q.events| && q.events[i].id == e.id
    requires var r := ResolveReply(env, q, e.key, now);
             && r.queue == (if IsManual(env, q.events[i]) then q.(events := Update(q.events, {e.id}, ToManual)) else q)
             && r.result == Ok(r.queue.events[i])
    ensures var r := ResolveReply(env, q, e.key, now);
            SettledOn(env, q, r.queue, {e.id}) && r.result.Ok? && Answered(env, q, [e], [r.result.value])
  {
  }

  /** A row's position in the line is the number of events ahead of it. */
  lemma PositionInLine(q: Queue, target: string, now: int, k: nat)
    requires IdsAscend(q) && k < |Line(q, target, now)|
    ensures var e := Line(q, target, now)[k];
            e in q.events && Available(e, target, now) && |Ahead(q, e, target, now)| == k
  {
    var line := Line(q, target, now);
    LineListed(q, target, now);
    assert line[k] in line;
    assert forall x :: Older(x, line[k]) <==> Before(Age()(x), Age()(line[k]));
    Rank(Age(), line, k, Ahead(q, line[k], target, now));
  }

  /** The front of the line is what a pull takes. */
  lemma FrontIsTaken(q: Queue, target: string, limit: int, now: int)
    requires IdsAscend(q)
    ensures var front := Take(Line(q, target, now), Batch(limit));
            && (forall i :: 0 <= i < |front| ==> front[i] in q.events && Taken(q, front[i], target, limit, now))
            && (forall e :: e in q.events && Taken(q, e, target, limit, now) ==> e in front)
            && OldestFirst(front)
  {
    var line, front := Line(q, target, now), Take(Line(q, target, now), Batch(limit));
    forall i | 0 <= i < |front| ensures front[i] in q.events && Taken(q, front[i], target, limit, now) {
      PositionInLine(q, target, now, i);
    }
    forall e | e in q.events && Taken(q, e, target, limit, now) ensures e in front {
      assert e in line by { LineListed(q, target, now); }
      var k :| 0 <= k < |line| && line[k] == e;
      PositionInLine(q, target, now, k);
      assert front[k] == e;
    }
    forall i, j | 0 <= i < j < |front| ensures Older(front[i], front[j]) {
      LineListed(q, target, now);
      assert Before(Age()(line[i]), Age()(line[j]));
    }
  }

  lemma TakenIds(q: Queue, target: string, limit: int, now: int, i: nat)
    requires IdsAscend(q) && i < |q.events|
    ensures q.events[i].id in IdsOf(Take(Line(q, target, now), Batch(limit)))
            <==> Taken(q, q.events[i], target, limit, now)
  {
    var front := Take(Line(q, target, now), Batch(limit));
    FrontIsTaken(q, target, limit, now);
    if q.events[i].id in IdsOf(front) {
      var k :| 0 <= k < |front| && front[k].id == q.events[i].id;
      var j :| 0 <= j < |q.events| && q.events[j] == front[k];
      assert i == j;
    }
    if Taken(q, q.events[i], target, limit, now) { assert q.events[i] in front; }
  }

  /** What marking and resolving the front leaves, once due events are out of the way. */
  lemma FrontRows(env: Env, q: Queue, target: string, limit: int, now: int) returns (q1: Queue)
    requires WellFormed(env, q)
    ensures var front, r := Take(Line(q, target, now), Batch(limit)), PullReply(env, q, target, limit, now);
            && SentOn(Expire(q, now), q1, IdsOf(front), now) && SettledOn(env, q1, r.queue, IdsOf(front))
            && r.result.Ok? && Answered(env, q1, front, r.result.value)
  {
    var q0, front := Expire(q, now), Take(Line(q, target, now), Batch(limit));
    q1 := MarkAll(q0, front, now).queue;
    ExpireKeeps(env, q, now);
    SelectedKnown(q0, limit, target);
    MarkAllWorks(env, q0, front, now);
    assert SentOn(q0, q1, IdsOf(front), now) by {
      FrontPending(q, target, limit, now);
      FrontOpen(q, target, limit, now);
      MarkAllRows(env, q0, front, now);
    }
    KnownLater(q0, q1, front, IdsOf(front));
    var answers := ResolveAllRows(env, q1, front, now, []);
    assert [] + answers == answers;
  }

  /** The rows a pull leaves, and those it answers with. */
  lemma PullRows(env: Env, q: Queue, target: string, limit: int, now: int)
    requires WellFormed(env, q)
    ensures var r := PullReply(env, q, target, limit, now);
            && |r.queue.events| == |q.events| && r.queue.nextId == q.nextId
            && r.queue.tombs == Expire(q, now).tombs
            && RowByRow(env, q, r.queue, Pull(target, limit, now))
    ensures AnswersAre(q, Take(Line(q, target, now), Batch(limit)), PullReply(env, q, target, limit, now))
  {
    var front, r := Take(Line(q, target, now), Batch(limit)), PullReply(env, q, target, limit, now);
    var q1 := FrontRows(env, q, target, limit, now);
    ExpireRows(q, now);
    forall i | 0 <= i < |q.events| ensures r.queue.events[i] == Fate(env, q, q.events[i], Pull(target, limit, now)) {
      TakenIds(q, target, limit, now, i);
      assert q1.events[i].id == q.events[i].id;
    }
    forall k, i | 0 <= k < |front| && 0 <= i < |q.events| && front[k] == q.events[i]
      ensures r.result.value[k] == r.queue.events[i]
    {
      assert q1.events[i].id == front[k].id && front[k].id in IdsOf(front);
    }
  }

  ghost predicate AnswersAre(q: Queue, front: seq<Event>, r: Reply<seq<Event>>) {
    && r.result.Ok? && |r.result.value| == |front| && |r.queue.events| == |q.events|
    && forall k, i :: 0 <= k < |front| && 0 <= i < |q.events| && front[k] == q.events[i] ==>
         r.result.value[k] == r.queue.events[i]
  }

  /** Every row taken is answered, as it is left. */
  ghost predicate AnswersTaken(q: Queue, r: Reply<seq<Event>>, target: string, limit: int, now: int)
    requires r.result.Ok? && |r.queue.events| == |q.events|
  {
    forall i :: 0 <= i < |q.events| && Taken(q, q.events[i], target, limit, now) ==>
      r.queue.events[i] in r.result.value
  }

  ghost predicate OnlyTaken(q: Queue, r: Reply<seq<Event>>, target: string, limit: int, now: int)
    requires r.result.Ok? && |r.queue.events| == |q.events|
  {
    forall k :: 0 <= k < |r.result.value| ==>
      exists i :: 0 <= i < |q.events| && Taken(q, q.events[i], target, limit, now)
        && r.result.value[k] == r.queue.events[i]
  }

  predicate OldestFirst(rows: seq<Event>) { forall j, k :: 0 <= j < k < |rows| ==> Older(rows[j], rows[k]) }

  /** A pull never fails on a reachable table; it answers with the rows it took, as it left them,
      each once and oldest first. */
  lemma PullAnswers(env: Env, q: Queue, target: string, limit: int, now: int)
    requires WellFormed(env, q)
    ensures var r := PullReply(env, q, target, limit, now);
            && r.result.Ok? && |r.queue.events| == |q.events|
            && AnswersTaken(q, r, target, limit, now) && OnlyTaken(q, r, target, limit, now)
            && OldestFirst(r.result.value)
  {
    var front, r := Take(Line(q, target, now), Batch(limit)), PullReply(env, q, target, limit, now);
    PullRows(env, q, target, limit, now);
    FrontIsTaken(q, target, limit, now);
    forall k | 0 <= k < |front|
      ensures exists i :: 0 <= i < |q.events| && q.events[i] == front[k] && r.result.value[k] == r.queue.events[i]
      ensures SameEvent(front[k], r.result.value[k])
    {
      var i :| 0 <= i < |q.events| && q.events[i] == front[k];
      SameMoment(env, q, q.events[i], Pull(target, limit, now));
      assert r.result.value[k] == r.queue.events[i];
    }
    assert AnswersTaken(q, r, target, limit, now) by { TakenAnswered(q, front, r, target, limit, now); }
    assert OldestFirst(r.result.value) by { StillOldestFirst(front, r.result.value); }
  }

  lemma TakenAnswered(q: Queue, front: seq<Event>, r: Reply<seq<Event>>, target: string, limit: int, now: int)
    requires AnswersAre(q, front, r)
    requires forall e :: e in q.events && Taken(q, e, target, limit, now) ==> e in front
    ensures AnswersTaken(q, r, target, limit, now)
  {
    forall i | 0 <= i < |q.events| && Taken(q, q.events[i], target, limit, now)
      ensures r.queue.events[i] in r.result.value
    {
      assert q.events[i] in q.events;
      var k :| 0 <= k < |front| && front[k] == q.events[i];
      assert r.result.value[k] == r.queue.events[i];
    }
  }

  lemma StillOldestFirst(front: seq<Event>, rows: seq<Event>)
    requires OldestFirst(front) && |rows| == |front| && forall k :: 0 <= k < |front| ==> SameEvent(front[k], rows[k])
    ensures OldestFirst(rows)
  {
    forall j, k | 0 <= j < k < |rows| ensures Older(rows[j], rows[k]) {
      assert SameEvent(front[j], rows[j]) && SameEvent(front[k], rows[k]);
    }
  }

  /** A fate leaves all that an event was pushed with. */
  lemma SameMoment(env: Env, q: Queue, e: Event, r: Request)
    ensures SameEvent(e, Fate(env, q, e, r))
  {
  }

  // ---------------------------------------------------------------- every request, row by row

  ghost predicate PushFits(env: Env, q: Queue, r: Request)
    requires r.Push?
  {
    var a := EnqueueReply(env, q, r.eventType, r.payload, r.source, r.target, r.now);
    && RowByRow(env, q, a.queue, r) && AddsItsOwn(env, q, a.queue, r) && a.queue.tombs == q.tombs
    && (a.result.Ok? <==> Accepted(env, r))
    && (a.result.Ok? ==> a.result.value in a.queue.events && a.result.value.key == PushedKey(env, r))
  }

  lemma NewKeyRows(env: Env, q: Queue, r: Request)
    requires Accepted(env, r) && Filter(HasKey(PushedKey(env, r)), q.events) == []
    ensures PushFits(env, q, r)
  {
    forall i | 0 <= i < |q.events| ensures q.events[i].key != PushedKey(env, r) { NewKey(q, PushedKey(env, r), i); }
  }

  lemma StoredKeyRows(env: Env, q: Queue, r: Request)
    requires WellFormed(env, q) && Accepted(env, r) && Filter(HasKey(PushedKey(env, r)), q.events) != []
    ensures PushFits(env, q, r)
  {
    var key := PushedKey(env, r);
    FilterMembers(HasKey(key), q.events);
    assert Filter(HasKey(key), q.events)[0] in q.events;
    var i := StoredAt(q.events, key);
    ResolveUnique(env, q, i, r.now);
    UniqueRow(env, q, i, q.events[i], r.now);
    KeyIsId(env, q, i, key);
    var a := EnqueueReply(env, q, r.eventType, r.payload, r.source, r.target, r.now);
    assert a.result.value == a.queue.events[i];
  }

  lemma KeyIsId(env: Env, q: Queue, i: nat, key: string)
    requires WellFormed(env, q) && i < |q.events| && q.events[i].key == key
    ensures forall k :: 0 <= k < |q.events| ==> (q.events[k].key == key <==> q.events[k].id == q.events[i].id)
  {
  }

  /** A push is answered with the event stored under its key, its own one if the key is new; it is
      refused exactly when its type, source or target is blank. */
  lemma PushRows(env: Env, q: Queue, r: Request)
    requires WellFormed(env, q) && r.Push?
    ensures PushFits(env, q, r)
  {
    if Accepted(env, r) {
      if Filter(HasKey(PushedKey(env, r)), q.events) == [] {
        NewKeyRows(env, q, r);
      } else {
        StoredKeyRows(env, q, r);
      }
    }
  }

  lemma AckRows(env: Env, q: Queue, r: Request)
    requires WellFormed(env, q) && r.Ack?
    ensures var a := AckReply(q, r.id, r.reason, r.now);
            && RowByRow(env, q, a.queue, r) && |a.queue.events| == |q.events| && StoneByStone(q, a.queue, r)
  {
    FindById(q.events, r.id);
    if Find(q.events, r.id).None? {
      assert forall i :: 0 <= i < |q.events| ==> Fate(env, q, q.events[i], r) == q.events[i];
    } else if r.reason == "" {
      assert StoneByStone(q, AckReply(q, r.id, r.reason, r.now).queue, r);
    }
  }

  /** A conflict without a reason is buried under the default one. */
  lemma ConflictReason(q: Queue, id: int, now: int)
    requires MarkConflictReply(q, id, "", now).result.Ok?
    ensures var tombs := MarkConflictReply(q, id, "", now).queue.tombs;
            id in tombs && tombs[id] == Tombstone(now, "manual_conflict")
  {
    assert id in Bury(q.tombs, {id}, now, "manual_conflict");
  }

  /** An acknowledgement answers with the event it names, and fails exactly when there is none. */
  lemma AckAnswers(env: Env, q: Queue, id: int, reason: string, now: int)
    requires WellFormed(env, q)
    ensures var a := AckReply(q, id, reason, now);
            match a.result
            case Ok(e) => e.id == id && e in a.queue.events
            case Err(error) =>
              && a.queue == q && error == (if reason == "" then NotFound else IntegrityError)
              && forall i :: 0 <= i < |q.events| ==> q.events[i].id != id
  {
    FindById(q.events, id);
    if Find(q.events, id).Some? {
      var a := AckReply(q, id, reason, now);
      FindById(a.queue.events, id);
      var i :| 0 <= i < |q.events| && q.events[i] == Find(q.events, id).value;
      assert a.queue.events[i].id == id;
    }
  }

  /** Every request of every run moves every event as its fate says, buries it as its stone says, and
      only an accepted push under a new key adds an event: its own. */
  lemma ServedRowByRow(env: Env, rs: seq<Request>, r: Request)
    ensures var q, q' := Run(env, rs), Run(env, rs + [r]);
            RowByRow(env, q, q', r) && StoneByStone(q, q', r) && AddsItsOwn(env, q, q', r)
  {
    var q := Run(env, rs);
    assert (rs + [r])[..|rs|] == rs;
    RunWellFormed(env, rs);
    match r {
      case Push(_, _, _, _, _) => PushRows(env, q, r);
      case Pull(target, limit, now) =>
        PullRows(env, q, target, limit, now);
        ExpireRows(q, now);
      case Ack(_, _, _) => AckRows(env, q, r);
      case Collect(now) => ExpireRows(q, now);
    }
  }

  // ---------------------------------------------------------------- where events come from

  ghost predicate PushedIn(env: Env, rs: seq<Request>, e: Event) {
    exists k :: 0 <= k < |rs| && Carries(env, e, rs[k])
  }

  /** Over every run each event in the table was pushed by some push of the run, and still carries
      that push's type, payload, source, target, key and moments. */
  lemma {:induction false} EventsWerePushed(env: Env, rs: seq<Request>, i: nat)
    requires i < |Run(env, rs).events|
    ensures PushedIn(env, rs, Run(env, rs).events[i])
  {
    var init, r := rs[..|rs| - 1], rs[|rs| - 1];
    assert rs == init + [r];
    ServedRowByRow(env, init, r);
    var q, e := Run(env, init), Run(env, rs).events[i];
    if i < |q.events| {
      EventsWerePushed(env, init, i);
      var k :| 0 <= k < |init| && Carries(env, q.events[i], init[k]);
      SameMoment(env, q, q.events[i], r);
      SameEventSamePush(env, q.events[i], e, rs[k]);
    } else {
      assert Carries(env, e, rs[|rs| - 1]);
    }
  }

  lemma SameEventSamePush(env: Env, e: Event, e': Event, r: Request)
    requires SameEvent(e, e') && Carries(env, e, r)
    ensures Carries(env, e', r)
  {
  }

  lemma HandedOutWasStored(env: Env, q: Queue, target: string, limit: int, now: int, k: nat) returns (i: nat)
    requires WellFormed(env, q)
    requires PullReply(env, q, target, limit, now).result.Ok?
    requires k < |PullReply(env, q, target, limit, now).result.value|
    ensures i < |q.events| && SameEvent(q.events[i], PullReply(env, q, target, limit, now).result.value[k])
    ensures target == "" || q.events[i].target == target
  {
    var r := PullReply(env, q, target, limit, now);
    PullAnswers(env, q, target, limit, now);
    i :| 0 <= i < |q.events| && Taken(q, q.events[i], target, limit, now) && r.result.value[k] == r.queue.events[i];
    assert r.queue.events[i] == Fate(env, q, q.events[i], Pull(target, limit, now)) by {
      PullRows(env, q, target, limit, now);
    }
    SameMoment(env, q, q.events[i], Pull(target, limit, now));
  }

  /** Whatever a pull for a target hands out was pushed for that target in the run so far, and
      carries that push's type, payload and source. */
  lemma HandedOutWasPushed(env: Env, rs: seq<Request>, target: string, limit: int, now: int, k: nat)
    requires PullReply(env, Run(env, rs), target, limit, now).result.Ok?
    requires k < |PullReply(env, Run(env, rs), target, limit, now).result.value|
    ensures var e := PullReply(env, Run(env, rs), target, limit, now).result.value[k];
            exists j :: 0 <= j < |rs| && Carries(env, e, rs[j]) && (target == "" || env.strip(rs[j].target) == target)
  {
    RunWellFormed(env, rs);
    var e := PullReply(env, Run(env, rs), target, limit, now).result.value[k];
    var i := HandedOutWasStored(env, Run(env, rs), target, limit, now, k);
    EventsWerePushed(env, rs, i);
    var j :| 0 <= j < |rs| && Carries(env, Run(env, rs).events[i], rs[j]);
    SameEventSamePush(env, Run(env, rs).events[i], e, rs[j]);
  }

  /** An accepted push under a new key puts its event in the line of its own target until it runs
      out: at the payload's own moment, or seven days after it was created. */
  lemma PushedWaits(env: Env, rs: seq<Request>, r: Request, now: int)
    requires Accepted(env, r) && !Stores(env, Run(env, rs), r)
    ensures var q := Run(env, rs + [r]);
            exists e :: e in q.events && Carries(env, e, r) && Fresh(e)
              && (e in Line(q, env.strip(r.target), now)
                  <==> now < if r.payload.expiresAt.Some? then r.payload.expiresAt.value
                             else PushedAt(r) + 604_800_000)
              && forall other :: other != "" && other != env.strip(r.target) ==> e !in Line(q, other, now)
  {
    ServedRowByRow(env, rs, r);
    RunWellFormed(env, rs + [r]);
    var q := Run(env, rs + [r]);
    var e := q.events[|q.events| - 1];
    assert e in q.events;
    LineListed(q, env.strip(r.target), now);
    forall other | other != "" && other != env.strip(r.target) ensures e !in Line(q, other, now) {
      LineListed(q, other, now);
    }
  }
}
