/** What the edge sync queue keeps over whole runs of its API. */
module SyncQueueLaws {
  import opened Prelude
  import opened Ordering
  import opened SyncQueue

  // ---------------------------------------------------------------- what every call keeps

  ghost predicate IdsAscend(q: Queue) {
    && (forall i, j :: 0 <= i < j < |q.events| ==> q.events[i].id < q.events[j].id)
    && (forall i :: 0 <= i < |q.events| ==> q.events[i].id < q.nextId)
  }

  ghost predicate KeysClean(env: Env, q: Queue) {
    && (forall i, j :: 0 <= i < j < |q.events| ==> q.events[i].key != q.events[j].key)
    && (forall i :: 0 <= i < |q.events| ==> q.events[i].key != "" && env.strip(q.events[i].key) == q.events[i].key)
  }

  /** An expired event has a tombstone, and a tombstoned event is never pending or sent. */
  ghost predicate Buried(q: Queue) {
    && (forall i :: 0 <= i < |q.events| ==> RowBuried(q.events[i], q.tombs))
    && (forall id :: id in q.tombs ==> id < q.nextId)
  }

  predicate RowBuried(e: Event, tombs: map<int, Tombstone>) {
    (e.status.Expired? ==> e.id in tombs) && (e.id in tombs ==> !Open(e.status))
  }

  /** What holds of the two tables in every reachable state. */
  ghost predicate WellFormed(env: Env, q: Queue) {
    IdsAscend(q) && KeysClean(env, q) && Buried(q)
  }

  /** No event returns to pending, and only a pending or sent event is ever sent. */
  predicate Forward(before: Status, after: Status) {
    (after.Pending? ==> before.Pending?) && (after.Sent? ==> Open(before))
  }

  predicate SameEvent(a: Event, b: Event) {
    b == a.(status := b.status, lastAttempt := b.lastAttempt, attempts := b.attempts, resolution := b.resolution)
  }

  /** Rows are never removed, keep their identity, and move forward; rows outside `ids` are not changed at all. */
  ghost predicate Evolves(q: Queue, q': Queue, ids: set<int>) {
    && |q.events| <= |q'.events|
    && (forall i :: 0 <= i < |q.events| ==> SameEvent(q.events[i], q'.events[i]))
    && (forall i :: 0 <= i < |q.events| ==> Forward(q.events[i].status, q'.events[i].status))
    && (forall i :: 0 <= i < |q.events| && q.events[i].id !in ids ==> q'.events[i] == q.events[i])
  }

  lemma EvolvesTwice(q: Queue, q': Queue, q'': Queue, a: set<int>, b: set<int>)
    requires Evolves(q, q', a) && Evolves(q', q'', b)
    ensures Evolves(q, q'', a + b)
  {
    forall i | 0 <= i < |q.events|
      ensures SameEvent(q.events[i], q''.events[i]) && Forward(q.events[i].status, q''.events[i].status)
      ensures q.events[i].id !in a + b ==> q''.events[i] == q.events[i]
    {
      assert SameEvent(q.events[i], q'.events[i]) && SameEvent(q'.events[i], q''.events[i]);
    }
  }

  /** Every update the service issues, with the tombstones that go with it. */
  lemma {:induction false} UpdateKeeps(env: Env, q: Queue, ids: set<int>, c: Change, tombs: map<int, Tombstone>)
    requires WellFormed(env, q)
    requires q.tombs.Keys <= tombs.Keys <= q.tombs.Keys + ids && forall id :: id in ids ==> id < q.nextId
    requires tombs.Keys == q.tombs.Keys || c.ToExpired? || c.ToConflict?
    requires c.ToExpired? ==> ids <= tombs.Keys
    ensures var q' := Queue(Update(q.events, ids, c), tombs, q.nextId);
            WellFormed(env, q') && Evolves(q, q', ids) && |q'.events| == |q.events|
  {
    var events := Update(q.events, ids, c);
    forall i | 0 <= i < |events|
      ensures SameEvent(q.events[i], events[i]) && Forward(q.events[i].status, events[i].status)
          && RowBuried(events[i], tombs)
    {
      assert RowBuried(q.events[i], q.tombs);
    }
    SameRowsSameKeys(env, q, Queue(events, tombs, q.nextId));
  }

  lemma SameRowsSameKeys(env: Env, q: Queue, q': Queue)
    requires IdsAscend(q) && KeysClean(env, q) && |q'.events| == |q.events| && q'.nextId == q.nextId
    requires forall i :: 0 <= i < |q.events| ==> SameEvent(q.events[i], q'.events[i])
    ensures IdsAscend(q') && KeysClean(env, q')
  {
    forall i | 0 <= i < |q.events| ensures q'.events[i].id == q.events[i].id && q'.events[i].key == q.events[i].key {
      assert SameEvent(q.events[i], q'.events[i]);
    }
  }

  lemma {:induction false} FindById(events: seq<Event>, id: int)
    ensures match Find(events, id)
            case None => forall i :: 0 <= i < |events| ==> events[i].id != id
            case Some(e) => e.id == id && e in events
  {
    if events != [] && events[0].id != id { FindById(events[1..], id); }
  }

  lemma {:induction false} ExpireKeeps(env: Env, q: Queue, now: int)
    requires WellFormed(env, q)
    ensures WellFormed(env, Expire(q, now)) && Evolves(q, Expire(q, now), DueIds(q.events, now))
  {
    var due := DueIds(q.events, now);
    UpdateKeeps(env, q, due, ToExpired, Bury(q.tombs, due, now, "expired"));
  }

  /** The one-row updates, on a known or an unknown id. */
  lemma {:induction false} MarkKeeps(env: Env, q: Queue, id: int, reason: string, now: int)
    requires WellFormed(env, q)
    ensures var r := MarkSentReply(q, id, now);
            WellFormed(env, r.queue) && Evolves(q, r.queue, {id}) && |r.queue.events| == |q.events|
    ensures var r := AckReply(q, id, reason, now);
            WellFormed(env, r.queue) && Evolves(q, r.queue, {id}) && |r.queue.events| == |q.events|
  {
    FindById(q.events, id);
    if Find(q.events, id).Some? {
      UpdateKeeps(env, q, {id}, ToSent(now), q.tombs);
      UpdateKeeps(env, q, {id}, ToAcknowledged(now), q.tombs);
      UpdateKeeps(env, q, {id}, ToConflict,
                  Bury(q.tombs, {id}, now, if reason == "" then "manual_conflict" else reason));
    }
  }

  /** The rows with a key, last writer first: all of them, in strict order. */
  lemma RivalsListed(q: Queue, key: string)
    requires IdsAscend(q)
    ensures Ordered(NewestFirst(), Rivals(q, key))
    ensures forall e :: e in Rivals(q, key) <==> e in q.events && e.key == key
  {
    assert DistinctKeys(NewestFirst(), q.events);
    QueryOrders(NewestFirst(), HasKey(key), q.events);
  }

  lemma RivalIdsKnown(q: Queue, key: string)
    requires IdsAscend(q)
    ensures forall id :: id in IdsOf(Rivals(q, key)) ==> id < q.nextId
  {
    var rows := Rivals(q, key);
    RivalsListed(q, key);
    forall i | 0 <= i < |rows| ensures rows[i].id < q.nextId { assert rows[i] in q.events; }
  }

  lemma ResolvedKeeps(env: Env, q: Queue, rows: seq<Event>, now: int)
    requires WellFormed(env, q) && rows != [] && forall id :: id in IdsOf(rows) ==> id < q.nextId
    ensures var q' := Resolved(env, q, rows, now);
            WellFormed(env, q') && Evolves(q, q', IdsOf(rows)) && |q'.events| == |q.events|
  {
    if AnyManual(env, rows) {
      UpdateKeeps(env, q, IdsOf(rows), ToManual, q.tombs);
    } else {
      var losers := IdsOf(rows[1..]);
      assert losers <= IdsOf(rows);
      UpdateKeeps(env, q, losers, ToExpired, Bury(q.tombs, losers, now, "duplicate_last_write_wins"));
    }
  }

  lemma {:induction false} ResolveKeeps(env: Env, q: Queue, key: string, now: int)
    requires WellFormed(env, q)
    ensures var r := ResolveReply(env, q, key, now);
            WellFormed(env, r.queue) && Evolves(q, r.queue, IdsOf(Rivals(q, env.strip(key))))
              && |r.queue.events| == |q.events|
  {
    var rows := Rivals(q, env.strip(key));
    RivalIdsKnown(q, env.strip(key));
    if env.strip(key) != "" && rows != [] { ResolvedKeeps(env, q, rows, now); }
  }

  lemma NewKey(q: Queue, key: string, i: nat)
    requires Filter(HasKey(key), q.events) == [] && i < |q.events|
    ensures q.events[i].key != key
  {
    FilterMembers(HasKey(key), q.events);
    assert q.events[i] !in Filter(HasKey(key), q.events);
  }

  lemma AppendKeepsKeys(env: Env, q: Queue, e: Event, q': Queue)
    requires KeysClean(env, q) && e.key != "" && env.strip(e.key) == e.key && Filter(HasKey(e.key), q.events) == []
    requires q'.events == q.events + [e]
    ensures KeysClean(env, q')
  {
    forall i | 0 <= i < |q.events| ensures q.events[i].key != e.key { NewKey(q, e.key, i); }
    var n := |q.events|;
    assert forall i :: 0 <= i < |q'.events| ==> q'.events[i] == if i < n then q.events[i] else e;
  }

  lemma AppendKeeps(env: Env, q: Queue, e: Event)
    requires WellFormed(env, q) && e.id == q.nextId && e.status.Pending? && e.key != "" && env.strip(e.key) == e.key
    requires Filter(HasKey(e.key), q.events) == []
    ensures WellFormed(env, Queue(q.events + [e], q.tombs, q.nextId + 1))
    ensures Evolves(q, Queue(q.events + [e], q.tombs, q.nextId + 1), AllIds(q))
  {
    var q' := Queue(q.events + [e], q.tombs, q.nextId + 1);
    AppendKeepsKeys(env, q, e, q');
    forall i | 0 <= i < |q'.events| ensures RowBuried(q'.events[i], q'.tombs) {
      assert i < |q.events| ==> RowBuried(q.events[i], q.tombs);
    }
  }

  lemma EnqueueKeeps(env: Env, q: Queue, eventType: string, p: Payload, source: string, target: string, now: int)
    requires WellFormed(env, q)
    ensures var q' := EnqueueReply(env, q, eventType, p, source, target, now).queue;
            WellFormed(env, q') && Evolves(q, q', AllIds(q))
  {
    var (t, source', target') := (env.strip(eventType), env.strip(source), env.strip(target));
    if t != "" && source' != "" && target' != "" {
      var e := NewEvent(env, q.nextId, t, p, source', target', now);
      if Filter(HasKey(e.key), q.events) == [] {
        AppendKeeps(env, q, e);
      } else {
        ResolveKeeps(env, q, e.key, now);
        EvolvesWithin(q, ResolveReply(env, q, e.key, now).queue, IdsOf(Rivals(q, e.key)));
      }
    }
  }

  lemma EvolvesWithin(q: Queue, q': Queue, ids: set<int>)
    requires Evolves(q, q', ids)
    ensures Evolves(q, q', AllIds(q)) && Evolves(q, q', AllIds(q'))
  {
    forall i | 0 <= i < |q.events| ensures q.events[i].id in AllIds(q) && q.events[i].id in AllIds(q') {
      assert SameEvent(q.events[i], q'.events[i]);
    }
  }

  ghost function AllIds(q: Queue): set<int> { IdsOf(q.events) }

  /** Where keys are unique, resolving a stored event's key is the identity unless the event is
      marked for manual review, and it answers with that event. */
  lemma ResolveUnique(env: Env, q: Queue, i: nat, now: int)
    requires WellFormed(env, q) && i < |q.events|
    ensures var e, r := q.events[i], ResolveReply(env, q, q.events[i].key, now);
            && r.queue == (if IsManual(env, e) then q.(events := Update(q.events, {e.id}, ToManual)) else q)
            && Evolves(q, r.queue, {e.id}) && WellFormed(env, r.queue) && |r.queue.events| == |q.events|
            && r.result == Ok(r.queue.events[i]) && r.result.value.id == e.id
  {
    var e := q.events[i];
    var rows := Rivals(q, e.key);
    RivalsListed(q, e.key);
    assert e in q.events;
    assert rows == [e] by { OneOrder(NewestFirst(), rows, [e]); }
    assert IdsOf([e]) == {e.id} && IdsOf(rows[1..]) == {};
    assert AnyManual(env, rows) <==> IsManual(env, e) by { assert rows[0] == e; }
    var q' := Resolved(env, q, rows, now);
    assert Update(q.events, {}, ToExpired) == q.events;
    assert Bury(q.tombs, {}, now, "duplicate_last_write_wins") == q.tombs;
    ResolveKeeps(env, q, e.key, now);
    assert q'.events[i].id == e.id;
    FindAt(q', i);
  }

  // ---------------------------------------------------------------- a pull

  function Ids(rows: seq<Event>): seq<int> { seq(|rows|, i requires 0 <= i < |rows| => rows[i].id) }

  ghost predicate Known(q: Queue, rows: seq<Event>) {
    forall k :: 0 <= k < |rows| ==> Stored(q, rows[k])
  }

  ghost predicate Stored(q: Queue, e: Event) {
    exists i :: 0 <= i < |q.events| && SameEvent(q.events[i], e)
  }

  ghost predicate NonePending(q: Queue, ids: set<int>) {
    forall i :: 0 <= i < |q.events| && q.events[i].id in ids ==> !q.events[i].status.Pending?
  }

  lemma KnownLater(q: Queue, q': Queue, rows: seq<Event>, ids: set<int>)
    requires Known(q, rows) && Evolves(q, q', ids)
    ensures Known(q', rows)
  {
    forall k | 0 <= k < |rows| ensures Stored(q', rows[k]) {
      assert Stored(q, rows[k]);
      var i :| 0 <= i < |q.events| && SameEvent(q.events[i], rows[k]);
      assert SameEvent(q.events[i], q'.events[i]);
      assert SameEvent(q'.events[i], rows[k]);
    }
  }

  lemma MarkSentAt(q: Queue, i: nat, now: int)
    requires IdsAscend(q) && i < |q.events|
    ensures var r := MarkSentReply(q, q.events[i].id, now); r.result.Ok? && NonePending(r.queue, {q.events[i].id})
  {
    FindAt(q, i);
    UpdateAscends(q, {q.events[i].id}, ToSent(now));
    FindAt(q.(events := Update(q.events, {q.events[i].id}, ToSent(now))), i);
  }

  /** Marking a stored event sent succeeds and leaves it not pending. */
  lemma {:induction false} MarkStored(env: Env, q: Queue, e: Event, now: int)
    requires WellFormed(env, q) && Stored(q, e)
    ensures var r := MarkSentReply(q, e.id, now);
            && r.result.Ok? && WellFormed(env, r.queue) && |r.queue.events| == |q.events|
            && Evolves(q, r.queue, {e.id}) && NonePending(r.queue, {e.id})
  {
    var i :| 0 <= i < |q.events| && SameEvent(q.events[i], e);
    MarkKeeps(env, q, e.id, "", now);
    MarkSentAt(q, i, now);
  }

  lemma NonePendingLater(q: Queue, q': Queue, ids: set<int>, touched: set<int>)
    requires NonePending(q, ids) && Evolves(q, q', touched) && |q'.events| == |q.events|
    ensures NonePending(q', ids)
  {
    forall i | 0 <= i < |q'.events| && q'.events[i].id in ids ensures !q'.events[i].status.Pending? {
      assert SameEvent(q.events[i], q'.events[i]) && Forward(q.events[i].status, q'.events[i].status);
    }
  }

  lemma {:induction false} MarkAllWorks(env: Env, q: Queue, rows: seq<Event>, now: int)
    requires WellFormed(env, q) && Known(q, rows)
    ensures var r := MarkAll(q, rows, now);
            && r.result.Ok? && WellFormed(env, r.queue) && |r.queue.events| == |q.events|
            && Evolves(q, r.queue, IdsOf(rows)) && NonePending(r.queue, IdsOf(rows))
    decreases |rows|
  {
    if rows != [] {
      var id, first := rows[0].id, MarkSentReply(q, rows[0].id, now).queue;
      MarkStored(env, q, rows[0], now);
      KnownLater(q, first, rows[1..], {id});
      MarkAllWorks(env, first, rows[1..], now);
      var last := MarkAll(first, rows[1..], now).queue;
      EvolvesTwice(q, first, last, {id}, IdsOf(rows[1..]));
      NonePendingLater(first, last, {id}, IdsOf(rows[1..]));
      IdsSplit(rows);
    }
  }

  lemma IdsSplit(rows: seq<Event>)
    requires rows != []
    ensures IdsOf(rows) == {rows[0].id} + IdsOf(rows[1..])
  {
    forall i | 0 <= i < |rows| ensures rows[i].id in {rows[0].id} + IdsOf(rows[1..]) {
      assert i > 0 ==> rows[i] == rows[1..][i - 1];
    }
  }

  lemma {:induction false} ResolveAllWorks(env: Env, q: Queue, rows: seq<Event>, now: int, done: seq<Event>)
    requires WellFormed(env, q) && Known(q, rows)
    ensures var r := ResolveAll(env, q, rows, now, done);
            && r.result.Ok? && Ids(r.result.value) == Ids(done) + Ids(rows)
            && WellFormed(env, r.queue) && |r.queue.events| == |q.events| && Evolves(q, r.queue, IdsOf(rows))
    decreases |rows|
  {
    if rows != [] {
      var first := ResolveReply(env, q, rows[0].key, now);
      ResolveStored(env, q, rows[0], now);
      KnownLater(q, first.queue, rows[1..], {rows[0].id});
      var done' := done + [first.result.value];
      ResolveAllWorks(env, first.queue, rows[1..], now, done');
      var last := ResolveAll(env, first.queue, rows[1..], now, done');
      assert ResolveAll(env, q, rows, now, done) == last;
      EvolvesTwice(q, first.queue, last.queue, {rows[0].id}, IdsOf(rows[1..]));
      IdsSplit(rows);
      IdsShift(done, first.result.value, rows);
    }
  }

  lemma IdsShift(done: seq<Event>, e: Event, rows: seq<Event>)
    requires rows != [] && e.id == rows[0].id
    ensures Ids(done + [e]) + Ids(rows[1..]) == Ids(done) + Ids(rows)
  {
  }

  lemma ResolveStored(env: Env, q: Queue, e: Event, now: int)
    requires WellFormed(env, q) && Stored(q, e)
    ensures var r := ResolveReply(env, q, e.key, now);
            && r.result.Ok? && r.result.value.id == e.id
            && Evolves(q, r.queue, {e.id}) && WellFormed(env, r.queue) && |r.queue.events| == |q.events|
  {
    var i :| 0 <= i < |q.events| && SameEvent(q.events[i], e);
    ResolveUnique(env, q, i, now);
  }

  /** The events waiting for a target at a given time, oldest first. */
  function Line(q: Queue, target: string, now: int): seq<Event> {
    SortBy(Age(), Filter(WaitingFor(target), Expire(q, now).events))
  }

  /** Which rows wait: the pending ones for the target that are not due yet. */
  lemma LineListed(q: Queue, target: string, now: int)
    requires IdsAscend(q)
    ensures Ordered(Age(), Line(q, target, now))
    ensures forall e :: e in Line(q, target, now) <==> e in q.events && WaitingFor(target)(e) && !Due(e, now)
  {
    var events := Expire(q, now).events;
    assert DistinctKeys(Age(), events) by {
      assert forall i :: 0 <= i < |events| ==> events[i].id == q.events[i].id;
    }
    QueryOrders(Age(), WaitingFor(target), events);
    forall e ensures e in events && WaitingFor(target)(e) <==> e in q.events && WaitingFor(target)(e) && !Due(e, now) {
      if e in events && e.status.Pending? {
        var i :| 0 <= i < |events| && events[i] == e;
        assert q.events[i].id !in DueIds(q.events, now) && q.events[i] == e;
      }
      if e in q.events && e.status.Pending? && !Due(e, now) {
        var i :| 0 <= i < |q.events| && q.events[i] == e;
        assert e.id !in DueIds(q.events, now);
        assert events[i] == e;
      }
    }
  }

  lemma SelectedKnown(q: Queue, limit: int, target: string)
    ensures Known(q, Selected(q, limit, target))
  {
    var waiting, rows := Filter(WaitingFor(target), q.events), Selected(q, limit, target);
    FilterMembers(WaitingFor(target), q.events);
    SortByMembers(Age(), waiting);
    forall k | 0 <= k < |rows| ensures Stored(q, rows[k]) {
      assert rows[k] in SortBy(Age(), waiting) && rows[k] in q.events;
      var i :| 0 <= i < |q.events| && q.events[i] == rows[k];
      assert SameEvent(q.events[i], rows[k]);
    }
  }

  /** A pull never fails on a reachable table. It hands out the front of the line, in order, and
      none of what it handed out is pending afterwards; the other rows only expire. */
  lemma {:induction false} PullHandsOutFront(env: Env, q: Queue, target: string, limit: int, now: int)
    requires WellFormed(env, q)
    ensures var r, front := PullReply(env, q, target, limit, now), Take(Line(q, target, now), Batch(limit));
            && r.result.Ok? && Ids(r.result.value) == Ids(front)
            && WellFormed(env, r.queue) && |r.queue.events| == |q.events|
            && Evolves(Expire(q, now), r.queue, IdsOf(front)) && NonePending(r.queue, IdsOf(front))
  {
    ExpireKeeps(env, q, now);
    var q0, rows := Expire(q, now), Selected(Expire(q, now), limit, target);
    SelectedKnown(q0, limit, target);
    MarkAllWorks(env, q0, rows, now);
    var q1 := MarkAll(q0, rows, now).queue;
    KnownLater(q0, q1, rows, IdsOf(rows));
    ResolveAllWorks(env, q1, rows, now, []);
    var q2 := PullReply(env, q, target, limit, now).queue;
    EvolvesTwice(q0, q1, q2, IdsOf(rows), IdsOf(rows));
    assert Ids([]) + Ids(rows) == Ids(rows);
    NonePendingLater(q1, q2, IdsOf(rows), IdsOf(rows));
  }

  // ---------------------------------------------------------------- draining

  /** What a pull leaves of the line is the line behind what it handed out. */
  lemma PullLeavesRest(env: Env, q: Queue, target: string, limit: int, now: int)
    requires WellFormed(env, q)
    ensures Line(PullReply(env, q, target, limit, now).queue, target, now) == Drop(Line(q, target, now), Batch(limit))
  {
    PullHandsOutFront(env, q, target, limit, now);
    var q0, q', n := Expire(q, now), PullReply(env, q, target, limit, now).queue, Batch(limit);
    var line, front := Line(q, target, now), Take(Line(q, target, now), Batch(limit));
    LineListed(q, target, now);
    LineListed(q', target, now);
    TakenAndDropped(Age(), line, n);
    ExpireKeeps(env, q, now);
    ExpireIdempotent(q, now);
    LineListed(q0, target, now);
    forall e ensures e in Line(q', target, now) <==> e in line && e !in front {
      if e in Line(q', target, now) {
        var i :| 0 <= i < |q'.events| && q'.events[i] == e;
        assert SameEvent(q0.events[i], q'.events[i]) && q0.events[i] in q0.events;
        assert e.id !in IdsOf(front);
        assert q0.events[i] == e;
        assert e in front ==> e.id in IdsOf(front);
      }
      if e in line && e !in front {
        SameIdSameRow(q0, line, front, e);
        var i :| 0 <= i < |q0.events| && q0.events[i] == e;
        assert e.id !in IdsOf(front) && q'.events[i] == e;
      }
    }
    OneOrder(Age(), Line(q', target, now), Drop(line, n));
  }

  /** Expiring twice at the same time is expiring once. */
  lemma ExpireIdempotent(q: Queue, now: int)
    ensures Expire(Expire(q, now), now).events == Expire(q, now).events
  {
    var events := Expire(q, now).events;
    forall i | 0 <= i < |events| ensures !Due(events[i], now) {
      if Due(q.events[i], now) { assert q.events[i].id in DueIds(q.events, now); }
    }
    assert DueIds(events, now) == {};
  }

  lemma SameIdSameRow(q: Queue, line: seq<Event>, front: seq<Event>, e: Event)
    requires IdsAscend(q) && (forall x :: x in line ==> x in q.events) && (forall x :: x in front ==> x in line)
    requires e in q.events
    ensures e.id in IdsOf(front) <==> e in front
  {
    if e.id in IdsOf(front) {
      var k :| 0 <= k < |front| && front[k].id == e.id;
      assert front[k] in q.events;
      var i :| 0 <= i < |q.events| && q.events[i] == e;
      var j :| 0 <= j < |q.events| && q.events[j] == front[k];
      assert i == j;
    }
  }

  /** The ids handed out by one pull after another at the given times, with nothing enqueued in between. */
  function Drain(env: Env, q: Queue, target: string, limit: int, times: seq<int>): seq<int>
    decreases |times|
  {
    if times == [] then [] else
      var r := PullReply(env, q, target, limit, times[0]);
      (if r.result.Ok? then Ids(r.result.value) else []) + Drain(env, r.queue, target, limit, times[1..])
  }

  /** Times that do not go back, from a moment on. */
  predicate Ascends(from: int, times: seq<int>) {
    && (forall i :: 0 <= i < |times| ==> from <= times[i])
    && (forall i, j :: 0 <= i < j < |times| ==> times[i] <= times[j])
  }

  function StillGood(now: int): Event -> bool { (e: Event) => !Due(e, now) }

  /** Time only shortens the line: whoever is not due yet keeps their place. */
  lemma LineShortens(q: Queue, target: string, from: int, now: int)
    requires IdsAscend(q) && from <= now
    ensures Line(q, target, now) == Filter(StillGood(now), Line(q, target, from))
  {
    var line := Line(q, target, from);
    LineListed(q, target, from);
    LineListed(q, target, now);
    FilterMembers(StillGood(now), line);
    FilterOrdered(Age(), StillGood(now), line);
    OneOrder(Age(), Line(q, target, now), Filter(StillGood(now), line));
  }

  /** Reference definition of a drain, with no queue: at each time those who have run out leave the
      line, and the first of the rest are served. */
  function ServedFrom(line: seq<Event>, limit: int, times: seq<int>): seq<Event>
    decreases |times|
  {
    if times == [] then [] else
      var live := Filter(StillGood(times[0]), line);
      Take(live, Batch(limit)) + ServedFrom(Drop(live, Batch(limit)), limit, times[1..])
  }

  /** Draining, whatever runs out meanwhile: pulls in a row hand out exactly what the reference definition
      serves from the line as it stood at the start. */
  lemma {:induction false} DrainIsServed(env: Env, q: Queue, target: string, limit: int, from: int, times: seq<int>)
    requires WellFormed(env, q) && Ascends(from, times)
    ensures Drain(env, q, target, limit, times) == Ids(ServedFrom(Line(q, target, from), limit, times))
    decreases |times|, 1
  {
    if times == [] {
      assert Ids(ServedFrom(Line(q, target, from), limit, [])) == [];
    } else {
      var live := Line(q, target, times[0]);
      var rest := DrainServesRest(env, q, target, limit, times);
      LineShortens(q, target, from, times[0]);
      IdsJoined(Take(live, Batch(limit)), ServedFrom(Drop(live, Batch(limit)), limit, times[1..]), rest);
    }
  }

  lemma {:induction false} DrainServesRest(env: Env, q: Queue, target: string, limit: int, times: seq<int>)
    returns (rest: seq<int>)
    requires WellFormed(env, q) && times != [] && Ascends(times[0], times)
    ensures rest == Ids(ServedFrom(Drop(Line(q, target, times[0]), Batch(limit)), limit, times[1..]))
    ensures Drain(env, q, target, limit, times) == Ids(Take(Line(q, target, times[0]), Batch(limit))) + rest
    decreases |times|, 0
  {
    var q' := PullReply(env, q, target, limit, times[0]).queue;
    PullHandsOutFront(env, q, target, limit, times[0]);
    PullLeavesRest(env, q, target, limit, times[0]);
    DrainIsServed(env, q', target, limit, times[0], times[1..]);
    rest := Drain(env, q', target, limit, times[1..]);
  }

  lemma IdsJoined(front: seq<Event>, back: seq<Event>, rest: seq<int>)
    requires rest == Ids(back)
    ensures Ids(front + back) == Ids(front) + rest
  {
  }

  /** What is served comes from the line, in its order and each once. */
  lemma {:induction false} ServedInOrder(line: seq<Event>, limit: int, times: seq<int>)
    requires Ordered(Age(), line)
    ensures Ordered(Age(), ServedFrom(line, limit, times))
    ensures forall e :: e in ServedFrom(line, limit, times) ==> e in line
    decreases |times|
  {
    if times != [] {
      var live := Filter(StillGood(times[0]), line);
      var front, rest := Take(live, Batch(limit)), Drop(live, Batch(limit));
      FilterMembers(StillGood(times[0]), line);
      FilterOrdered(Age(), StillGood(times[0]), line);
      TakenAndDropped(Age(), live, Batch(limit));
      ServedInOrder(rest, limit, times[1..]);
      var later := ServedFrom(rest, limit, times[1..]);
      forall i, j | 0 <= i < |front| && 0 <= j < |later| ensures Before(Age()(front[i]), Age()(later[j])) {
        assert later[j] in later;
        FrontBeforeRest(live, Batch(limit), i, later[j]);
      }
    }
  }

  lemma FrontBeforeRest(live: seq<Event>, n: nat, i: nat, e: Event)
    requires Ordered(Age(), live) && i < |Take(live, n)| && e in Drop(live, n)
    ensures Before(Age()(Take(live, n)[i]), Age()(e))
  {
    var k :| 0 <= k < |Drop(live, n)| && Drop(live, n)[k] == e;
    assert live[n + k] == e && live[i] == Take(live, n)[i];
  }

  /** With at least as many pulls as there are waiting events, every event that is not served had run
      out by the last pull. */
  lemma {:induction false} ServedOrRunOut(line: seq<Event>, limit: int, from: int, times: seq<int>, e: Event)
    requires Ascends(from, times) && |times| >= |line| && e in line
    ensures e in ServedFrom(line, limit, times) || Due(e, times[|times| - 1])
    decreases |times|
  {
    var live, now := Filter(StillGood(times[0]), line), times[0];
    FilterMembers(StillGood(now), line);
    FilterNoLonger(StillGood(now), line);
    if !Due(e, now) && e !in Take(live, Batch(limit)) {
      var k :| 0 <= k < |live| && live[k] == e;
      assert k >= Batch(limit) && Drop(live, Batch(limit))[k - Batch(limit)] == e;
      ServedOrRunOut(Drop(live, Batch(limit)), limit, now, times[1..], e);
    }
  }

  lemma {:induction false} FilterNoLonger(p: Event -> bool, s: seq<Event>)
    ensures |Filter(p, s)| <= |s|
  {
    if s != [] { FilterNoLonger(p, s[1..]); }
  }

  /** What a drain owes the waiting events, whatever runs out meanwhile: what it hands out is the ids of
      some of them, in the order of the line and each once, and with at least as many pulls as there are
      of them, every event that was not handed out had run out by the last pull. */
  lemma DrainServesOrRunsOut(env: Env, q: Queue, target: string, limit: int, from: int, times: seq<int>)
    returns (served: seq<Event>)
    requires WellFormed(env, q) && Ascends(from, times)
    ensures Drain(env, q, target, limit, times) == Ids(served) && Ordered(Age(), served)
    ensures forall e :: e in served ==> e in Line(q, target, from)
    ensures |times| >= |Line(q, target, from)|
            ==> forall e :: e in Line(q, target, from) && e !in served ==> Due(e, times[|times| - 1])
  {
    var line := Line(q, target, from);
    served := ServedFrom(line, limit, times);
    DrainIsServed(env, q, target, limit, from, times);
    LineListed(q, target, from);
    ServedInOrder(line, limit, times);
    if |times| >= |line| {
      forall e | e in line && e !in served ensures Due(e, times[|times| - 1]) {
        ServedOrRunOut(line, limit, from, times, e);
      }
    }
  }

  /** No pending event runs out between two times. */
  ghost predicate Steady(q: Queue, from: int, until: int) {
    forall i :: 0 <= i < |q.events| && q.events[i].status.Pending? && q.events[i].expiresAt.Some?
      ==> q.events[i].expiresAt.value <= from || q.events[i].expiresAt.value > until
  }

  /** Draining: k pulls in a row hand out, in order and without gaps or repeats, the first k batches
      of the line as it stood at the start; so enough pulls hand out the whole line and then stop. */
  lemma {:induction false} DrainEmptiesLine(env: Env, q: Queue, target: string, limit: int, from: int, until: int,
                                            times: seq<int>)
    requires WellFormed(env, q) && Steady(q, from, until) && Within(times, from, until)
    ensures Drain(env, q, target, limit, times) == Ids(Take(Line(q, target, from), Batches(|times|, limit)))
  {
    var line := Line(q, target, from);
    DrainIsServed(env, q, target, limit, from, times);
    LineListed(q, target, from);
    forall e, i | e in line && 0 <= i < |times| ensures !Due(e, times[i]) {
      var k :| 0 <= k < |q.events| && q.events[k] == e;
    }
    SteadyServed(line, limit, times);
  }

  /** While nothing in a line runs out, it is served in batches. */
  lemma {:induction false} SteadyServed(line: seq<Event>, limit: int, times: seq<int>)
    requires forall e, i :: e in line && 0 <= i < |times| ==> !Due(e, times[i])
    ensures ServedFrom(line, limit, times) == Take(line, Batches(|times|, limit))
    decreases |times|
  {
    if times != [] {
      var n, later := Batch(limit), times[1..];
      FilterAll(StillGood(times[0]), line);
      forall e, i | e in Drop(line, n) && 0 <= i < |later| ensures !Due(e, later[i]) {
        assert later[i] == times[i + 1] && e in line;
      }
      SteadyServed(Drop(line, n), limit, later);
      TakeParts(line, n, Batches(|later|, limit));
    }
  }

  lemma TakeParts(line: seq<Event>, n: nat, m: nat)
    ensures Take(line, n) + Take(Drop(line, n), m) == Take(line, n + m)
  {
  }

  /** The size of that many batches. */
  function Batches(pulls: nat, limit: int): nat {
    if pulls == 0 then 0 else Batch(limit) + Batches(pulls - 1, limit)
  }

  /** Times that do not go back, in a span. */
  predicate Within(times: seq<int>, from: int, until: int) {
    && (forall i :: 0 <= i < |times| ==> from <= times[i] <= until)
    && (forall i, j :: 0 <= i < j < |times| ==> times[i] <= times[j])
  }

  /** A drain ends: with at least as many pulls as there are waiting events, exactly the whole line is handed out. */
  lemma {:induction false} EnoughPullsDrain(env: Env, q: Queue, target: string, limit: int, from: int, until: int,
                                            times: seq<int>)
    requires WellFormed(env, q) && Steady(q, from, until) && Within(times, from, until)
    requires |times| >= |Line(q, target, from)|
    ensures Drain(env, q, target, limit, times) == Ids(Line(q, target, from))
  {
    DrainEmptiesLine(env, q, target, limit, from, until, times);
    BatchesGrow(|times|, limit);
  }

  lemma {:induction false} BatchesGrow(pulls: nat, limit: int)
    ensures Batches(pulls, limit) >= pulls
  {
    if pulls > 0 { BatchesGrow(pulls - 1, limit); }
  }

  // ---------------------------------------------------------------- whole runs of the API

  datatype Request =
    | Push(eventType: string, payload: Payload, source: string, target: string, now: int)
    | Pull(forTarget: string, limit: int, now: int)
    | Ack(id: int, reason: string, now: int)
    | Collect(now: int)

  function Serve(env: Env, q: Queue, r: Request): Queue {
    match r
    case Push(t, p, s, d, now) => EnqueueReply(env, q, t, p, s, d, now).queue
    case Pull(target, limit, now) => PullReply(env, q, target, limit, now).queue
    case Ack(id, reason, now) => AckReply(q, id, reason, now).queue
    case Collect(now) => Expire(q, now)
  }

  const EMPTY := Queue([], map[], 1)

  function Run(env: Env, rs: seq<Request>): Queue {
    if rs == [] then EMPTY else Serve(env, Run(env, rs[..|rs| - 1]), rs[|rs| - 1])
  }

  lemma {:induction false} ServeKeeps(env: Env, q: Queue, r: Request)
    requires WellFormed(env, q)
    ensures WellFormed(env, Serve(env, q, r)) && Evolves(q, Serve(env, q, r), AllIds(Serve(env, q, r)))
  {
    var q' := Serve(env, q, r);
    match r {
      case Push(t, p, s, d, now) => EnqueueKeeps(env, q, t, p, s, d, now);
      case Pull(target, limit, now) =>
        var front := Take(Line(q, target, now), Batch(limit));
        ExpireKeeps(env, q, now);
        PullHandsOutFront(env, q, target, limit, now);
        EvolvesTwice(q, Expire(q, now), q', DueIds(q.events, now), IdsOf(front));
      case Ack(id, reason, now) => MarkKeeps(env, q, id, reason, now);
      case Collect(now) => ExpireKeeps(env, q, now);
    }
    forall i | 0 <= i < |q.events| ensures q.events[i].id in AllIds(q') {
      assert SameEvent(q.events[i], q'.events[i]);
    }
  }

  /** Reachable tables: keys stay unique, every expired event has a tombstone, and no tombstoned
      event is pending or sent. */
  lemma {:induction false} RunWellFormed(env: Env, rs: seq<Request>)
    ensures WellFormed(env, Run(env, rs))
  {
    if rs != [] {
      RunWellFormed(env, rs[..|rs| - 1]);
      ServeKeeps(env, Run(env, rs[..|rs| - 1]), rs[|rs| - 1]);
    }
  }

  /** No event ever comes back: between any two points of a run no row is lost or changes identity,
      none returns to pending, and only a pending or sent one is sent. */
  lemma {:induction false} RunMovesForward(env: Env, rs: seq<Request>, more: seq<Request>)
    ensures Evolves(Run(env, rs), Run(env, rs + more), AllIds(Run(env, rs + more)))
  {
    if more == [] {
      assert rs + more == rs;
    } else {
      var init, last := more[..|more| - 1], more[|more| - 1];
      assert rs + more == rs + init + [last];
      RunMovesForward(env, rs, init);
      StepMovesForward(env, rs + init, last);
      EvolvesOn(Run(env, rs), Run(env, rs + init), Run(env, rs + init + [last]));
    }
  }

  lemma StepMovesForward(env: Env, rs: seq<Request>, r: Request)
    ensures Evolves(Run(env, rs), Run(env, rs + [r]), AllIds(Run(env, rs + [r])))
  {
    assert (rs + [r])[..|rs|] == rs;
    RunWellFormed(env, rs);
    ServeKeeps(env, Run(env, rs), r);
  }

  lemma EvolvesOn(q: Queue, q': Queue, q'': Queue)
    requires Evolves(q, q', AllIds(q')) && Evolves(q', q'', AllIds(q''))
    ensures Evolves(q, q'', AllIds(q''))
  {
    EvolvesTwice(q, q', q'', AllIds(q'), AllIds(q''));
    EvolvesWithin(q, q'', AllIds(q') + AllIds(q''));
  }

  /** The ids of all events handed out by the pulls of a run, in the order they were handed out. */
  function HandedOut(env: Env, rs: seq<Request>): seq<int> {
    if rs == [] then [] else
      var q, r := Run(env, rs[..|rs| - 1]), rs[|rs| - 1];
      HandedOut(env, rs[..|rs| - 1])
      + if r.Pull? && PullReply(env, q, r.forTarget, r.limit, r.now).result.Ok?
        then Ids(PullReply(env, q, r.forTarget, r.limit, r.now).result.value) else []
  }

  ghost predicate NoneInLine(q: Queue, ids: seq<int>) {
    forall i :: 0 <= i < |q.events| && q.events[i].id in ids ==> !q.events[i].status.Pending?
  }

  ghost predicate Issued(q: Queue, ids: seq<int>) {
    forall id :: id in ids ==> exists i :: 0 <= i < |q.events| && q.events[i].id == id
  }

  lemma LaterNotInLine(q: Queue, q': Queue, ids: seq<int>, touched: set<int>)
    requires NoneInLine(q, ids) && Issued(q, ids) && Evolves(q, q', touched) && IdsAscend(q')
    ensures NoneInLine(q', ids) && Issued(q', ids)
  {
    forall id | id in ids
      ensures exists i :: 0 <= i < |q'.events| && q'.events[i].id == id && !q'.events[i].status.Pending?
    {
      var i :| 0 <= i < |q.events| && q.events[i].id == id;
      assert SameEvent(q.events[i], q'.events[i]) && Forward(q.events[i].status, q'.events[i].status);
      assert q'.events[i].id == id && !q'.events[i].status.Pending?;
    }
  }

  predicate NoRepeats(ids: seq<int>) {
    forall i, j :: 0 <= i < j < |ids| ==> ids[i] != ids[j]
  }

  /** The front of the line: pending events, each of them once. */
  lemma FrontPending(q: Queue, target: string, limit: int, now: int)
    requires IdsAscend(q)
    ensures var ids := Ids(Take(Line(q, target, now), Batch(limit)));
            NoRepeats(ids)
            && forall id :: id in ids ==>
                 exists i :: 0 <= i < |q.events| && q.events[i].id == id && q.events[i].status.Pending?
  {
    var front := Take(Line(q, target, now), Batch(limit));
    LineListed(q, target, now);
    forall k | 0 <= k < |front|
      ensures exists i :: 0 <= i < |q.events| && q.events[i] == front[k] && q.events[i].status.Pending?
    {
      assert front[k] in Line(q, target, now);
    }
    forall j, k | 0 <= j < k < |front| ensures front[j].id != front[k].id {
      assert Before(Age()(front[j]), Age()(front[k]));
      var a :| 0 <= a < |q.events| && q.events[a] == front[j];
      var b :| 0 <= b < |q.events| && q.events[b] == front[k];
      assert a != b;
    }
  }

  /** What a pull hands out is new, and is no longer in line afterwards. */
  lemma PullHandsOutNew(env: Env, q: Queue, before: seq<int>, target: string, limit: int, now: int)
    requires WellFormed(env, q) && NoRepeats(before) && NoneInLine(q, before)
    ensures var r, ids := PullReply(env, q, target, limit, now), Ids(Take(Line(q, target, now), Batch(limit)));
            && r.result.Ok? && Ids(r.result.value) == ids && NoRepeats(before + ids)
            && NoneInLine(r.queue, ids) && Issued(r.queue, ids)
  {
    var q', front := PullReply(env, q, target, limit, now).queue, Take(Line(q, target, now), Batch(limit));
    var ids := Ids(front);
    PullHandsOutFront(env, q, target, limit, now);
    FrontPending(q, target, limit, now);
    ServeKeeps(env, q, Pull(target, limit, now));
    NewlyHandedOut(q, q', ids, AllIds(q'));
    forall i | 0 <= i < |q'.events| && q'.events[i].id in ids ensures !q'.events[i].status.Pending? {
      assert q'.events[i].id in IdsOf(front);
    }
    forall j, k | 0 <= j < |before| && 0 <= k < |ids| ensures before[j] != ids[k] {
      assert before[j] in before && ids[k] in ids;
    }
  }

  /** Exactly-once hand-out: over any run of the API, whoever pulls and whatever is pushed,
      acknowledged or expired in between, no event is handed out twice. */
  lemma {:induction false} HandedOutOnce(env: Env, rs: seq<Request>)
    ensures NoRepeats(HandedOut(env, rs))
    ensures NoneInLine(Run(env, rs), HandedOut(env, rs)) && Issued(Run(env, rs), HandedOut(env, rs))
  {
    if rs != [] {
      var init, r := rs[..|rs| - 1], rs[|rs| - 1];
      var q, q', before := Run(env, init), Run(env, rs), HandedOut(env, init);
      HandedOutOnce(env, init);
      RunWellFormed(env, init);
      ServeKeeps(env, q, r);
      LaterNotInLine(q, q', before, AllIds(q'));
      if r.Pull? {
        PullHandsOutNew(env, q, before, r.forTarget, r.limit, r.now);
        assert HandedOut(env, rs) == before + Ids(Take(Line(q, r.forTarget, r.now), Batch(r.limit)));
      } else {
        assert HandedOut(env, rs) == before;
      }
    }
  }

  lemma NewlyHandedOut(q: Queue, q': Queue, ids: seq<int>, touched: set<int>)
    requires Issued(q, ids) && Evolves(q, q', touched)
    ensures Issued(q', ids)
  {
    forall id | id in ids ensures exists i :: 0 <= i < |q'.events| && q'.events[i].id == id {
      var i :| 0 <= i < |q.events| && q.events[i].id == id;
      assert SameEvent(q.events[i], q'.events[i]);
      assert q'.events[i].id == id;
    }
  }

  // ---------------------------------------------------------------- counting attempts

  /** The attempt counts have grown by one on the rows with these ids, and nowhere else. */
  ghost predicate Attempted(q: Queue, q': Queue, ids: set<int>) {
    && |q.events| <= |q'.events|
    && forall i :: 0 <= i < |q.events| ==>
         q'.events[i].id == q.events[i].id
           && q'.events[i].attempts == q.events[i].attempts + if q.events[i].id in ids then 1 else 0
  }

  lemma AttemptedTwice(q: Queue, q': Queue, q'': Queue, a: set<int>, b: set<int>)
    requires Attempted(q, q', a) && Attempted(q', q'', b) && a !! b
    ensures Attempted(q, q'', a + b)
  {
  }

  ghost predicate AllOpen(q: Queue, ids: set<int>) {
    forall i :: 0 <= i < |q.events| && q.events[i].id in ids ==> Open(q.events[i].status)
  }

  lemma MarkAttempts(q: Queue, id: int, now: int)
    requires AllOpen(q, {id}) && MarkSentReply(q, id, now).result.Ok?
    ensures Attempted(q, MarkSentReply(q, id, now).queue, {id})
  {
  }

  lemma HeadApart(rows: seq<Event>)
    requires rows != [] && NoRepeats(Ids(rows))
    ensures rows[0].id !in IdsOf(rows[1..]) && NoRepeats(Ids(rows[1..]))
  {
    var rest := rows[1..];
    forall k | 0 <= k < |rest| ensures Ids(rest)[k] == rest[k].id == Ids(rows)[k + 1] != rows[0].id {
      assert Ids(rows)[0] == rows[0].id;
    }
  }

  lemma OpenLater(q: Queue, q': Queue, id: int, ids: set<int>)
    requires AllOpen(q, {id} + ids) && Evolves(q, q', {id}) && |q'.events| == |q.events| && id !in ids
    ensures AllOpen(q', ids)
  {
    forall i | 0 <= i < |q'.events| && q'.events[i].id in ids ensures Open(q'.events[i].status) {
      assert SameEvent(q.events[i], q'.events[i]);
    }
  }

  lemma {:induction false} MarkAllAttempts(env: Env, q: Queue, rows: seq<Event>, now: int)
    requires WellFormed(env, q) && Known(q, rows) && NoRepeats(Ids(rows)) && AllOpen(q, IdsOf(rows))
    ensures Attempted(q, MarkAll(q, rows, now).queue, IdsOf(rows))
    decreases |rows|
  {
    if rows == [] {
      assert IdsOf(rows) == {};
    } else {
      var id, first, rest := rows[0].id, MarkSentReply(q, rows[0].id, now).queue, rows[1..];
      HeadApart(rows);
      IdsSplit(rows);
      assert Attempted(q, first, {id}) by {
        MarkStored(env, q, rows[0], now);
        MarkAttempts(q, id, now);
      }
      assert Attempted(first, MarkAll(first, rest, now).queue, IdsOf(rest)) by {
        MarkStored(env, q, rows[0], now);
        KnownLater(q, first, rest, {id});
        OpenLater(q, first, id, IdsOf(rest));
        MarkAllAttempts(env, first, rest, now);
      }
      assert MarkAll(q, rows, now).queue == MarkAll(first, rest, now).queue by { MarkStored(env, q, rows[0], now); }
      AttemptedTwice(q, first, MarkAll(first, rest, now).queue, {id}, IdsOf(rest));
    }
  }

  lemma {:induction false} ResolveAllAttempts(env: Env, q: Queue, rows: seq<Event>, now: int, done: seq<Event>)
    ensures Attempted(q, ResolveAll(env, q, rows, now, done).queue, {})
    decreases |rows|
  {
    if rows != [] {
      var first := ResolveReply(env, q, rows[0].key, now);
      assert Attempted(q, first.queue, {});
      if first.result.Ok? {
        ResolveAllAttempts(env, first.queue, rows[1..], now, done + [first.result.value]);
      }
    }
  }

  lemma FrontAttempts(env: Env, q: Queue, target: string, limit: int, now: int)
    requires WellFormed(env, q)
    ensures var q0, rows := Expire(q, now), Selected(Expire(q, now), limit, target);
            MarkAll(q0, rows, now).result.Ok? && Attempted(q0, MarkAll(q0, rows, now).queue, IdsOf(rows))
  {
    var q0, rows := Expire(q, now), Selected(Expire(q, now), limit, target);
    ExpireKeeps(env, q, now);
    SelectedKnown(q0, limit, target);
    FrontPending(q, target, limit, now);
    FrontOpen(q, target, limit, now);
    MarkAllWorks(env, q0, rows, now);
    MarkAllAttempts(env, q0, rows, now);
  }

  lemma PullAttempts(env: Env, q: Queue, target: string, limit: int, now: int)
    requires WellFormed(env, q)
    ensures Attempted(q, PullReply(env, q, target, limit, now).queue, IdsOf(Take(Line(q, target, now), Batch(limit))))
  {
    var q0, rows := Expire(q, now), Selected(Expire(q, now), limit, target);
    var q1, q2 := MarkAll(q0, rows, now).queue, PullReply(env, q, target, limit, now).queue;
    FrontAttempts(env, q, target, limit, now);
    ResolveAllAttempts(env, q1, rows, now, []);
    assert Attempted(q, q0, {});
    AttemptedTwice(q, q0, q1, {}, IdsOf(rows));
    AttemptedTwice(q, q1, q2, {} + IdsOf(rows), {});
    assert {} + IdsOf(rows) + {} == IdsOf(rows);
  }

  lemma FrontOpen(q: Queue, target: string, limit: int, now: int)
    requires IdsAscend(q)
    ensures AllOpen(Expire(q, now), IdsOf(Take(Line(q, target, now), Batch(limit))))
  {
    var q0, front := Expire(q, now), Take(Line(q, target, now), Batch(limit));
    LineListed(q, target, now);
    forall i | 0 <= i < |q0.events| && q0.events[i].id in IdsOf(front) ensures Open(q0.events[i].status) {
      var k :| 0 <= k < |front| && front[k].id == q0.events[i].id;
      assert front[k] in Line(q, target, now);
      var j :| 0 <= j < |q.events| && q.events[j] == front[k];
      assert i == j;
      assert q.events[i].id !in DueIds(q.events, now);
    }
  }

  lemma QuietAttempts(env: Env, q: Queue, r: Request)
    requires WellFormed(env, q) && !r.Pull?
    ensures Attempted(q, Serve(env, q, r), {})
    ensures forall i :: |q.events| <= i < |Serve(env, q, r).events| ==>
              Serve(env, q, r).events[i].id == q.nextId && Serve(env, q, r).events[i].attempts == 0
  {
    if r.Push? { PushAttempts(env, q, r.eventType, r.payload, r.source, r.target, r.now); }
  }

  lemma PushAttempts(env: Env, q: Queue, eventType: string, p: Payload, source: string, target: string, now: int)
    requires WellFormed(env, q)
    ensures var q' := EnqueueReply(env, q, eventType, p, source, target, now).queue;
            && Attempted(q, q', {})
            && forall i :: |q.events| <= i < |q'.events| ==> q'.events[i].id == q.nextId && q'.events[i].attempts == 0
  {
  }

  /** The attempt count is honest: after any run it is one on every event handed out and zero on every other. */
  lemma {:induction false} AttemptsCountHandOuts(env: Env, rs: seq<Request>, i: nat)
    requires i < |Run(env, rs).events|
    ensures Run(env, rs).events[i].attempts == if Run(env, rs).events[i].id in HandedOut(env, rs) then 1 else 0
  {
    var init, r := rs[..|rs| - 1], rs[|rs| - 1];
    var q, q', before := Run(env, init), Run(env, rs), HandedOut(env, init);
    RunWellFormed(env, init);
    HandedOutOnce(env, init);
    if i < |q.events| { AttemptsCountHandOuts(env, init, i); }
    if r.Pull? {
      var front := Take(Line(q, r.forTarget, r.now), Batch(r.limit));
      PullHandsOutFront(env, q, r.forTarget, r.limit, r.now);
      PullHandsOutNew(env, q, before, r.forTarget, r.limit, r.now);
      PullAttempts(env, q, r.forTarget, r.limit, r.now);
      HandedOutGrows(before, front, q.events[i].id);
      assert HandedOut(env, rs) == before + Ids(front);
    } else {
      QuietAttempts(env, q, r);
      assert HandedOut(env, rs) == before;
      NextIdNotIssued(q, before);
    }
  }

  lemma NextIdNotIssued(q: Queue, ids: seq<int>)
    requires Issued(q, ids) && IdsAscend(q)
    ensures q.nextId !in ids
  {
  }

  lemma HandedOutGrows(before: seq<int>, front: seq<Event>, id: int)
    requires NoRepeats(before + Ids(front))
    ensures id in before + Ids(front) <==> id in before || id in IdsOf(front)
    ensures !(id in before && id in IdsOf(front))
  {
    var ids := Ids(front);
    if id in IdsOf(front) {
      var k :| 0 <= k < |front| && front[k].id == id;
      assert ids[k] == id && (before + ids)[|before| + k] == id;
      forall j | 0 <= j < |before| ensures before[j] != id { assert (before + ids)[j] == before[j]; }
    }
    if id in ids {
      var k :| 0 <= k < |ids| && ids[k] == id;
      assert front[k].id == id;
    }
  }

  // ---------------------------------------------------------------- duplicates

  /** Whether `w` is the last write among the rows with its key. */
  ghost predicate LastWrite(q: Queue, key: string, w: Event) {
    && w in q.events && w.key == key
    && forall e :: e in q.events && e.key == key && e != w ==> Before(Age()(e), Age()(w))
  }

  lemma WinnerIsLastWrite(q: Queue, key: string)
    requires IdsAscend(q) && Rivals(q, key) != []
    ensures var rows := Rivals(q, key);
            && LastWrite(q, key, rows[0])
            && forall i :: 0 <= i < |q.events| ==>
                 (q.events[i].id in IdsOf(rows[1..]) <==> q.events[i].key == key && q.events[i] != rows[0])
  {
    var rows := Rivals(q, key);
    RivalsListed(q, key);
    assert rows[0] in rows;
    forall e | e in q.events && e.key == key && e != rows[0]
      ensures Before(Age()(e), Age()(rows[0])) && e.id in IdsOf(rows[1..])
    {
      assert e in rows;
      var k :| 1 <= k < |rows| && rows[k] == e;
      assert Before(NewestFirst()(rows[0]), NewestFirst()(rows[k]));
      assert rows[1..][k - 1] == e;
    }
    forall i | 0 <= i < |q.events| && q.events[i].id in IdsOf(rows[1..])
      ensures q.events[i].key == key && q.events[i] != rows[0]
    {
      var k :| 0 <= k < |rows[1..]| && rows[1..][k].id == q.events[i].id;
      assert rows[k + 1] in rows && Before(NewestFirst()(rows[0]), NewestFirst()(rows[k + 1]));
      var j :| 0 <= j < |q.events| && q.events[j] == rows[k + 1];
      assert i == j;
    }
  }

  lemma FindAt(q: Queue, i: nat)
    requires IdsAscend(q) && i < |q.events|
    ensures Find(q.events, q.events[i].id) == Some(q.events[i])
  {
    FindById(q.events, q.events[i].id);
    var e := Find(q.events, q.events[i].id).value;
    var j :| 0 <= j < |q.events| && q.events[j] == e;
  }

  lemma UpdateAscends(q: Queue, ids: set<int>, c: Change)
    requires IdsAscend(q)
    ensures IdsAscend(q.(events := Update(q.events, ids, c)))
  {
    assert forall i :: 0 <= i < |q.events| ==> Update(q.events, ids, c)[i].id == q.events[i].id;
  }

  /** Every row of `q` with the key but `w` is expired in `q'`; all other rows are as they were. */
  ghost predicate LosersExpired(q: Queue, q': Queue, key: string, w: Event) {
    && |q'.events| == |q.events|
    && forall i :: 0 <= i < |q.events| ==>
         q'.events[i] == if q.events[i].key == key && q.events[i] != w then q.events[i].(status := Expired)
           else q.events[i]
  }

  /** The rows expired that way, and no others, get a new tombstone. */
  ghost predicate LosersBuried(q: Queue, q': Queue, key: string, w: Event, now: int) {
    var stone := Tombstone(now, "duplicate_last_write_wins");
    && (forall i :: 0 <= i < |q.events| && q.events[i].key == key && q.events[i] != w
          ==> q.events[i].id in q'.tombs && q'.tombs[q.events[i].id] == stone)
    && (forall i :: 0 <= i < |q.events| && (q.events[i].key != key || q.events[i] == w)
          ==> (q.events[i].id in q'.tombs <==> q.events[i].id in q.tombs)
              && (q.events[i].id in q.tombs ==> q'.tombs[q.events[i].id] == q.tombs[q.events[i].id]))
  }

  /** Last write wins, on any table, even one with many rows for a key: the last write is left as it
      is and returned, every other row with the key expires and gets a tombstone, and nothing else
      changes. */
  lemma LastWriteWins(env: Env, q: Queue, key: string, now: int)
    requires IdsAscend(q) && key != "" && env.strip(key) == key
    requires exists e :: e in q.events && e.key == key
    requires forall e :: e in q.events && e.key == key ==> !IsManual(env, e)
    ensures var r := ResolveReply(env, q, key, now);
            && r.result.Ok? && LastWrite(q, key, r.result.value)
            && LosersExpired(q, r.queue, key, r.result.value)
            && LosersBuried(q, r.queue, key, r.result.value, now)
            && IdsAscend(r.queue)
  {
    var rows := Rivals(q, key);
    RivalsListed(q, key);
    var e :| e in q.events && e.key == key;
    assert e in rows;
    forall i | 0 <= i < |rows| ensures !IsManual(env, rows[i]) { assert rows[i] in rows; }
    WinnerIsLastWrite(q, key);
    AutomaticOutcome(env, q, rows, now);
  }

  lemma AutomaticOutcome(env: Env, q: Queue, rows: seq<Event>, now: int)
    requires IdsAscend(q) && rows != [] && rows[0] in q.events && !AnyManual(env, rows)
    requires forall i :: 0 <= i < |q.events| ==>
      (q.events[i].id in IdsOf(rows[1..]) <==> q.events[i].key == rows[0].key && q.events[i] != rows[0])
    ensures var q' := Resolved(env, q, rows, now);
            && Get(q', rows[0].id) == Ok(rows[0]) && IdsAscend(q')
            && LosersExpired(q, q', rows[0].key, rows[0]) && LosersBuried(q, q', rows[0].key, rows[0], now)
  {
    var q' := Resolved(env, q, rows, now);
    UpdateAscends(q, IdsOf(rows[1..]), ToExpired);
    var w :| 0 <= w < |q.events| && q.events[w] == rows[0];
    assert q'.events[w] == rows[0];
    FindAt(q', w);
  }

  /** Every row of `q` with the key is in conflict in `q'`; all other rows are as they were. */
  ghost predicate AllInConflict(q: Queue, q': Queue, key: string) {
    && |q'.events| == |q.events|
    && forall i :: 0 <= i < |q.events| ==>
         q'.events[i] == if q.events[i].key == key then q.events[i].(status := Conflict, resolution := Some("manual"))
           else q.events[i]
  }

  /** One marked row sends every row with the key to conflict, for an operator to look at. */
  lemma ManualMarkerWins(env: Env, q: Queue, key: string, now: int)
    requires IdsAscend(q) && key != "" && env.strip(key) == key
    requires exists e :: e in q.events && e.key == key && IsManual(env, e)
    ensures var r := ResolveReply(env, q, key, now);
            && r.result.Ok? && r.result.value.status.Conflict? && r.queue.tombs == q.tombs
            && AllInConflict(q, r.queue, key) && IdsAscend(r.queue)
  {
    var rows := Rivals(q, key);
    RivalsListed(q, key);
    var e :| e in q.events && e.key == key && IsManual(env, e);
    assert e in rows;
    assert AnyManual(env, rows) by { var k :| 0 <= k < |rows| && rows[k] == e; assert IsManual(env, rows[k]); }
    assert rows[0] in rows;
    RivalIds(q, key);
    ManualOutcome(q, rows, key);
  }

  lemma RivalIds(q: Queue, key: string)
    requires IdsAscend(q)
    ensures forall i :: 0 <= i < |q.events| ==> (q.events[i].id in IdsOf(Rivals(q, key)) <==> q.events[i].key == key)
  {
    var rows := Rivals(q, key);
    RivalsListed(q, key);
    forall i | 0 <= i < |q.events| && q.events[i].id in IdsOf(rows) ensures q.events[i].key == key {
      var k :| 0 <= k < |rows| && rows[k].id == q.events[i].id;
      assert rows[k] in rows;
      var j :| 0 <= j < |q.events| && q.events[j] == rows[k];
      assert i == j;
    }
    forall i | 0 <= i < |q.events| && q.events[i].key == key ensures q.events[i].id in IdsOf(rows) {
      assert q.events[i] in rows;
    }
  }

  lemma ManualOutcome(q: Queue, rows: seq<Event>, key: string)
    requires IdsAscend(q) && rows != [] && rows[0] in q.events && rows[0].key == key
    requires forall i :: 0 <= i < |q.events| ==> (q.events[i].id in IdsOf(rows) <==> q.events[i].key == key)
    ensures var q' := q.(events := Update(q.events, IdsOf(rows), ToManual));
            && AllInConflict(q, q', key) && IdsAscend(q')
            && Get(q', rows[0].id).Ok? && Get(q', rows[0].id).value.status.Conflict?
  {
    var q' := q.(events := Update(q.events, IdsOf(rows), ToManual));
    var w :| 0 <= w < |q.events| && q.events[w] == rows[0];
    UpdateAscends(q, IdsOf(rows), ToManual);
    assert q'.events[w].id == rows[0].id && q'.events[w].status.Conflict?;
    FindAt(q', w);
  }

  /** Resolving again changes no row. */
  lemma ResolveTwice(env: Env, q: Queue, key: string, now: int, later: int)
    requires IdsAscend(q) && key != "" && env.strip(key) == key && exists e :: e in q.events && e.key == key
    ensures var q' := ResolveReply(env, q, key, now).queue;
            ResolveReply(env, q', key, later).queue.events == q'.events
  {
    if e :| e in q.events && e.key == key && IsManual(env, e) {
      ManualMarkerWins(env, q, key, now);
      ManualTwice(env, q, ResolveReply(env, q, key, now).queue, key, later);
    } else {
      LastWriteWins(env, q, key, now);
      AutomaticTwice(env, q, ResolveReply(env, q, key, now).queue, key, ResolveReply(env, q, key, now).result.value,
                     later);
    }
  }

  lemma ManualTwice(env: Env, q: Queue, q': Queue, key: string, later: int)
    requires IdsAscend(q') && key != "" && env.strip(key) == key
    requires AllInConflict(q, q', key) && exists e :: e in q.events && e.key == key
    ensures ResolveReply(env, q', key, later).queue.events == q'.events
  {
    var e :| e in q.events && e.key == key;
    var k :| 0 <= k < |q.events| && q.events[k] == e;
    assert q'.events[k] in q'.events && IsManual(env, q'.events[k]);
    ManualMarkerWins(env, q', key, later);
    ConflictTwice(q, q', ResolveReply(env, q', key, later).queue, key);
  }

  lemma ConflictTwice(q: Queue, q': Queue, q'': Queue, key: string)
    requires AllInConflict(q, q', key) && AllInConflict(q', q'', key)
    ensures q''.events == q'.events
  {
  }

  lemma AutomaticTwice(env: Env, q: Queue, q': Queue, key: string, w: Event, later: int)
    requires IdsAscend(q') && key != "" && env.strip(key) == key
    requires LastWrite(q, key, w) && LosersExpired(q, q', key, w)
    requires forall e :: e in q.events && e.key == key ==> !IsManual(env, e)
    ensures ResolveReply(env, q', key, later).queue.events == q'.events
  {
    LosersStay(env, q, q', key, w);
    LastWriteWins(env, q', key, later);
    var q'', w' := ResolveReply(env, q', key, later).queue, ResolveReply(env, q', key, later).result.value;
    assert w' == w;
    forall i | 0 <= i < |q'.events| ensures q''.events[i] == q'.events[i] {
      assert q'.events[i] in q'.events;
    }
  }

  lemma LosersStay(env: Env, q: Queue, q': Queue, key: string, w: Event)
    requires LastWrite(q, key, w) && LosersExpired(q, q', key, w)
    requires forall e :: e in q.events && e.key == key ==> !IsManual(env, e)
    ensures LastWrite(q', key, w)
    ensures forall e :: e in q'.events && e.key == key ==> !IsManual(env, e) && (e != w ==> e.status.Expired?)
  {
    var j :| 0 <= j < |q.events| && q.events[j] == w;
    assert q'.events[j] == w;
    forall e | e in q'.events && e.key == key
      ensures !IsManual(env, e) && (e != w ==> Before(Age()(e), Age()(w)) && e.status.Expired?)
    {
      var i :| 0 <= i < |q'.events| && q'.events[i] == e;
      assert q.events[i] in q.events && q.events[i].key == key;
    }
  }

  /** Retry-safe enqueue: pushing the same event again, at any later time, adds no row and answers
      with the row of the first push. */
  lemma {:induction false} EnqueueTwice(env: Env, rs: seq<Request>, eventType: string, p: Payload, source: string,
                                        target: string, now: int, later: int)
    requires EnqueueReply(env, Run(env, rs), eventType, p, source, target, now).result.Ok?
    ensures var first := EnqueueReply(env, Run(env, rs), eventType, p, source, target, now);
            var second := EnqueueReply(env, first.queue, eventType, p, source, target, later);
            && |second.queue.events| == |first.queue.events|
            && second.result.Ok? && second.result.value.id == first.result.value.id
            && Evolves(first.queue, second.queue, {first.result.value.id})
  {
    var q := Run(env, rs);
    RunWellFormed(env, rs);
    var first := EnqueueReply(env, q, eventType, p, source, target, now);
    var e := NewEvent(env, q.nextId, env.strip(eventType), p, env.strip(source), env.strip(target), now);
    EnqueueKeeps(env, q, eventType, p, source, target, now);
    FilterMembers(HasKey(e.key), q.events);
    var i := if Filter(HasKey(e.key), q.events) == [] then |q.events| else StoredAt(q.events, e.key);
    if Filter(HasKey(e.key), q.events) != [] {
      assert Filter(HasKey(e.key), q.events)[0] in q.events;
      ResolveUnique(env, q, i, now);
      assert SameEvent(q.events[i], first.queue.events[i]);
    }
    FilterMembers(HasKey(e.key), first.queue.events);
    assert first.queue.events[i] in first.queue.events && first.queue.events[i].key == e.key;
    ResolveUnique(env, first.queue, i, later);
  }

  /** The module's own description says the last write wins, but keys are unique, so through the
      API the first one does: a push whose key is already stored discards its payload and leaves the
      stored row as it is (or, if that row is marked, sends it to conflict). */
  lemma FirstWriteWins(env: Env, rs: seq<Request>, i: nat, eventType: string, p: Payload, source: string,
                       target: string, now: int)
    requires i < |Run(env, rs).events| && env.strip(eventType) != "" && env.strip(source) != ""
        && env.strip(target) != ""
    requires Run(env, rs).events[i].key == KeyFor(env, env.strip(eventType), p, env.strip(source), env.strip(target))
    ensures var q, r := Run(env, rs), EnqueueReply(env, Run(env, rs), eventType, p, source, target, now);
            && r.queue == (if IsManual(env, q.events[i]) then q.(events := Update(q.events, {q.events[i].id}, ToManual))
                           else q)
            && r.result.Ok? && r.result.value.id == q.events[i].id
  {
    var q := Run(env, rs);
    RunWellFormed(env, rs);
    FilterMembers(HasKey(q.events[i].key), q.events);
    assert q.events[i] in Filter(HasKey(q.events[i].key), q.events);
    ResolveUnique(env, q, i, now);
  }

  ghost function StoredAt(events: seq<Event>, key: string): (i: nat)
    ensures (exists e :: e in events && e.key == key) ==> i < |events| && events[i].key == key
  {
    if events == [] || events[0].key == key then 0 else 1 + StoredAt(events[1..], key)
  }
}
