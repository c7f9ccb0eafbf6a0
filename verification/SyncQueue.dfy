/** The edge sync event queue and the two API handlers that drive it.

    Every service call is one transaction on the two tables; a call that raises leaves them as they
    were. The handlers make several calls, and what they have already committed stays. */
module SyncQueue {
  import opened Prelude
  import opened Ordering

  datatype Status = Pending | Sent | Acknowledged | Conflict | Expired

  /** The payload fields the queue looks at; an absent text is "". */
  datatype Payload = Payload(createdAt: Option<int>, expiresAt: Option<int>, resolution: Option<string>,
                             conflictMarker: bool, idempotencyKey: string, altKey: string, body: string)

  datatype Event = Event(id: int, eventType: string, payload: Payload, source: string, target: string, key: string,
                         status: Status, createdAt: int, lastAttempt: Option<int>, attempts: nat,
                         expiresAt: Option<int>, resolution: Option<string>)

  datatype Tombstone = Tombstone(at: int, reason: string)

  /** Rows in id order, tombstones by event id, and the next id the table will hand out. */
  datatype Queue = Queue(events: seq<Event>, tombs: map<int, Tombstone>, nextId: int)

  datatype Error = EmptyText | NotFound | IntegrityError

  datatype Reply<T> = Reply(queue: Queue, result: Result<T, Error>)

  /** Text clean-up and the digest of the fields that identify an event without a key of its own. */
  datatype RawEnv = Env(strip: string -> string, lower: string -> string,
                        digest: (string, Payload, string, string) -> string)
  ghost predicate ValidEnv(e: RawEnv) {
    && (forall s :: e.strip(e.strip(s)) == e.strip(s))
    && e.lower("manual") == "manual"
    && (forall t, p, s, d :: e.strip(e.digest(t, p, s, d)) == e.digest(t, p, s, d) && e.digest(t, p, s, d) != "")
  }
  type Env = e: RawEnv | ValidEnv(e) ghost witness Env(s => s, s => s, (t, p, s, d) => "k")

  const DEFAULT_TTL_MS := 7 * 24 * 60 * 60 * 1000
  const MAX_BATCH := 500

  function KeyFor(env: Env, eventType: string, p: Payload, source: string, target: string): (key: string)
    ensures key != "" && env.strip(key) == key
  {
    var explicit := if p.idempotencyKey != "" then p.idempotencyKey else p.altKey;
    if env.strip(explicit) != "" then env.strip(explicit) else env.digest(eventType, p, source, target)
  }

  function Find(events: seq<Event>, id: int): Option<Event> {
    if events == [] then None else if events[0].id == id then Some(events[0]) else Find(events[1..], id)
  }

  function Get(q: Queue, id: int): Result<Event, Error> {
    if Find(q.events, id).None? then Err(NotFound) else Ok(Find(q.events, id).value)
  }

  /** The SET clauses of the queue's updates. */
  datatype Change = ToExpired | ToManual | ToConflict | ToSent(at: int) | ToAcknowledged(at: int)

  function Changed(e: Event, c: Change): Event {
    match c
    case ToExpired => e.(status := Expired)
    case ToManual => e.(status := Conflict, resolution := Some("manual"))
    case ToConflict => e.(status := Conflict, resolution := if e.resolution.None? then Some("manual") else e.resolution)
    case ToSent(at) => if Open(e.status) then e.(status := Sent, lastAttempt := Some(at), attempts := e.attempts + 1)
      else e
    case ToAcknowledged(at) => e.(status := Acknowledged, lastAttempt := Some(at))
  }

  /** UPDATE ... WHERE id IN ids. */
  function Update(events: seq<Event>, ids: set<int>, c: Change): seq<Event> {
    seq(|events|, i requires 0 <= i < |events| => if events[i].id in ids then Changed(events[i], c) else events[i])
  }

  function Bury(tombs: map<int, Tombstone>, ids: set<int>, at: int, reason: string): map<int, Tombstone> {
    map id | id in tombs.Keys + ids :: if id in ids then Tombstone(at, reason) else tombs[id]
  }

  predicate Open(s: Status) { s.Pending? || s.Sent? }

  predicate Due(e: Event, now: int) {
    Open(e.status) && e.expiresAt.Some? && e.expiresAt.value <= now
  }

  function DueIds(events: seq<Event>, now: int): set<int> {
    set i | 0 <= i < |events| && Due(events[i], now) :: events[i].id
  }

  function Expire(q: Queue, now: int): Queue {
    var due := DueIds(q.events, now);
    Queue(Update(q.events, due, ToExpired), Bury(q.tombs, due, now, "expired"), q.nextId)
  }

  function Age(): Event -> Key { (e: Event) => Key(e.createdAt, e.id, 0) }

  function NewestFirst(): Event -> Key { (e: Event) => Key(-e.createdAt, -e.id, 0) }

  function WaitingFor(target: string): Event -> bool {
    (e: Event) => e.status.Pending? && (target == "" || e.target == target)
  }

  function HasKey(key: string): Event -> bool { (e: Event) => e.key == key }

  function Batch(limit: int): nat { if limit < 1 then 1 else if limit > MAX_BATCH then MAX_BATCH else limit }

  /** The rows a dequeue selects once due events are out of the way. */
  function Selected(q: Queue, limit: int, target: string): seq<Event> {
    Take(SortBy(Age(), Filter(WaitingFor(target), q.events)), Batch(limit))
  }

  function MarkSentReply(q: Queue, id: int, now: int): Reply<Event> {
    var q' := q.(events := Update(q.events, {id}, ToSent(now)));
    if Find(q.events, id).None? then Reply(q, Err(NotFound)) else Reply(q', Get(q', id))
  }

  function MarkAcknowledgedReply(q: Queue, id: int, now: int): Reply<Event> {
    var q' := q.(events := Update(q.events, {id}, ToAcknowledged(now)));
    if Find(q.events, id).None? then Reply(q, Err(NotFound)) else Reply(q', Get(q', id))
  }

  /** The tombstone of an unknown event violates the foreign key, so the call fails there. */
  function MarkConflictReply(q: Queue, id: int, reason: string, now: int): Reply<Event> {
    var events := Update(q.events, {id}, ToConflict);
    var q' := Queue(events, Bury(q.tombs, {id}, now, if reason == "" then "manual_conflict" else reason), q.nextId);
    if Find(q.events, id).None? then Reply(q, Err(IntegrityError)) else Reply(q', Get(q', id))
  }

  predicate IsManual(env: Env, e: Event) {
    e.payload.conflictMarker || (e.resolution.Some? && env.lower(e.resolution.value) == "manual")
  }

  /** All rows with a key, the last writer first. */
  function Rivals(q: Queue, key: string): seq<Event> {
    SortBy(NewestFirst(), Filter(HasKey(key), q.events))
  }

  function IdsOf(rows: seq<Event>): set<int> { set i | 0 <= i < |rows| :: rows[i].id }

  lemma UpdateNext(events: seq<Event>, rows: seq<Event>, i: nat, c: Change)
    requires i < |rows| && (c.ToExpired? || c.ToManual?)
    ensures IdsOf(rows[..i + 1]) == IdsOf(rows[..i]) + {rows[i].id}
    ensures Update(Update(events, IdsOf(rows[..i]), c), {rows[i].id}, c) == Update(events, IdsOf(rows[..i + 1]), c)
  {
  }

  predicate AnyManual(env: Env, rows: seq<Event>) { exists i :: 0 <= i < |rows| && IsManual(env, rows[i]) }

  function Resolved(env: Env, q: Queue, rows: seq<Event>, now: int): Queue
    requires rows != []
  {
    if AnyManual(env, rows) then q.(events := Update(q.events, IdsOf(rows), ToManual))
    else Queue(Update(q.events, IdsOf(rows[1..]), ToExpired),
               Bury(q.tombs, IdsOf(rows[1..]), now, "duplicate_last_write_wins"), q.nextId)
  }

  function ResolveReply(env: Env, q: Queue, key: string, now: int): Reply<Event> {
    var rows := Rivals(q, env.strip(key));
    if env.strip(key) == "" then Reply(q, Err(EmptyText))
    else if rows == [] then Reply(q, Err(NotFound))
    else var q' := Resolved(env, q, rows, now); Reply(q', Get(q', rows[0].id))
  }

  function NewEvent(env: Env, id: int, eventType: string, p: Payload, source: string, target: string, now: int): Event {
    var created := if p.createdAt.Some? && p.createdAt.value != 0 then p.createdAt.value else now;
    Event(id, eventType, p, source, target, KeyFor(env, eventType, p, source, target), Pending, created, None, 0,
          Some(if p.expiresAt.Some? then p.expiresAt.value else created + DEFAULT_TTL_MS), p.resolution)
  }

  function EnqueueReply(env: Env, q: Queue, eventType: string, p: Payload, source: string, target: string,
                        now: int): Reply<Event> {
    var (t, s, d) := (env.strip(eventType), env.strip(source), env.strip(target));
    if t == "" || s == "" || d == "" then Reply(q, Err(EmptyText))
    else
      var e := NewEvent(env, q.nextId, t, p, s, d, now);
      if Filter(HasKey(e.key), q.events) != [] then ResolveReply(env, q, e.key, now)
      else Reply(Queue(q.events + [e], q.tombs, q.nextId + 1), Ok(e))
  }

  class SyncQueueService {
    const env: Env
    var events: seq<Event>
    var tombs: map<int, Tombstone>
    var nextId: int

    constructor (env: Env)
      ensures this.env == env && View() == Queue([], map[], 1)
    {
      this.env := env;
      events, tombs, nextId := [], map[], 1;
    }

    function View(): Queue
      reads this
    {
      Queue(events, tombs, nextId)
    }

    method ExpireEvents(now: int) returns (count: nat)
      modifies this
      ensures View() == Expire(old(View()), now)
      ensures count == |Filter((e: Event) => Due(e, now), old(events))|
    {
      var rows := Filter((e: Event) => Due(e, now), events);
      FilterMembers((e: Event) => Due(e, now), events);
      ghost var due := DueIds(events, now);
      assert IdsOf(rows) == due by {
        assert forall i :: 0 <= i < |rows| ==> rows[i] in rows;
        assert forall i :: 0 <= i < |events| && Due(events[i], now) ==> events[i] in rows;
      }
      BurialLoop(rows, now, "expired");
      return |rows|;
    }

    /** The loop shared by expiry and duplicate resolution: expire each row, then write its tombstone. */
    method BurialLoop(rows: seq<Event>, now: int, reason: string)
      modifies this
      ensures View() == Queue(Update(old(events), IdsOf(rows), ToExpired), Bury(old(tombs), IdsOf(rows), now, reason),
                              old(nextId))
    {
      for i := 0 to |rows|
        invariant nextId == old(nextId)
        invariant events == Update(old(events), IdsOf(rows[..i]), ToExpired)
        invariant tombs == Bury(old(tombs), IdsOf(rows[..i]), now, reason)
      {
        UpdateNext(old(events), rows, i, ToExpired);
        events := Update(events, {rows[i].id}, ToExpired);
        tombs := tombs[rows[i].id := Tombstone(now, reason)];
      }
      assert rows[..|rows|] == rows;
    }

    method EnqueueEvent(eventType: string, payload: Payload, source: string, target: string, now: int)
      returns (result: Result<Event, Error>)
      modifies this
      ensures Reply(View(), result) == EnqueueReply(env, old(View()), eventType, payload, source, target, now)
    {
      var t, s, d := env.strip(eventType), env.strip(source), env.strip(target);
      if t == "" || s == "" || d == "" { return Err(EmptyText); }
      var event := NewEvent(env, nextId, t, payload, s, d, now);
      if Filter(HasKey(event.key), events) != [] {
        result := ResolveDuplicates(event.key, now);
        return;
      }
      events, nextId := events + [event], nextId + 1;
      return Ok(event);
    }

    method DequeuePending(limit: int, target: string, now: int) returns (rows: seq<Event>)
      modifies this
      ensures View() == Expire(old(View()), now)
      ensures rows == Selected(Expire(old(View()), now), limit, target)
    {
      var count := ExpireEvents(now);
      rows := Selected(View(), limit, target);
    }

    method MarkSent(id: int, now: int) returns (result: Result<Event, Error>)
      modifies this
      ensures Reply(View(), result) == MarkSentReply(old(View()), id, now)
    {
      if Find(events, id).None? { return Err(NotFound); }
      events := Update(events, {id}, ToSent(now));
      return Get(View(), id);
    }

    method MarkAcknowledged(id: int, now: int) returns (result: Result<Event, Error>)
      modifies this
      ensures Reply(View(), result) == MarkAcknowledgedReply(old(View()), id, now)
    {
      if Find(events, id).None? { return Err(NotFound); }
      events := Update(events, {id}, ToAcknowledged(now));
      return Get(View(), id);
    }

    method MarkConflict(id: int, reason: string, now: int) returns (result: Result<Event, Error>)
      modifies this
      ensures Reply(View(), result) == MarkConflictReply(old(View()), id, reason, now)
    {
      if Find(events, id).None? { return Err(IntegrityError); }
      events := Update(events, {id}, ToConflict);
      tombs := Bury(tombs, {id}, now, if reason == "" then "manual_conflict" else reason);
      return Get(View(), id);
    }

    method ResolveDuplicates(key: string, now: int) returns (result: Result<Event, Error>)
      modifies this
      ensures Reply(View(), result) == ResolveReply(env, old(View()), key, now)
    {
      var stripped := env.strip(key);
      if stripped == "" { return Err(EmptyText); }
      var rows := Rivals(View(), stripped);
      if rows == [] { return Err(NotFound); }
      var manual := AnyManual(env, rows);
      if manual {
        for i := 0 to |rows|
          invariant tombs == old(tombs) && nextId == old(nextId)
          invariant events == Update(old(events), IdsOf(rows[..i]), ToManual)
        {
          UpdateNext(old(events), rows, i, ToManual);
          events := Update(events, {rows[i].id}, ToManual);
        }
        assert rows[..|rows|] == rows;
      } else {
        BurialLoop(rows[1..], now, "duplicate_last_write_wins");
      }
      return Get(View(), rows[0].id);
    }
  }

  // ---------------------------------------------------------------- the API handlers

  function MarkAll(q: Queue, rows: seq<Event>, now: int): Reply<()>
    decreases |rows|
  {
    if rows == [] then Reply(q, Ok(())) else
      var first := MarkSentReply(q, rows[0].id, now);
      if first.result.Err? then Reply(first.queue, Err(first.result.error)) else MarkAll(first.queue, rows[1..], now)
  }

  function ResolveAll(env: Env, q: Queue, rows: seq<Event>, now: int, done: seq<Event>): Reply<seq<Event>>
    decreases |rows|
  {
    if rows == [] then Reply(q, Ok(done)) else
      var first := ResolveReply(env, q, rows[0].key, now);
      if first.result.Err? then Reply(first.queue, Err(first.result.error))
      else ResolveAll(env, first.queue, rows[1..], now, done + [first.result.value])
  }

  function PullReply(env: Env, q: Queue, target: string, limit: int, now: int): Reply<seq<Event>> {
    var rows := Selected(Expire(q, now), limit, target);
    var marked := MarkAll(Expire(q, now), rows, now);
    if marked.result.Err? then Reply(marked.queue, Err(marked.result.error))
    else ResolveAll(env, marked.queue, rows, now, [])
  }

  function AckReply(q: Queue, id: int, reason: string, now: int): Reply<Event> {
    if reason != "" then MarkConflictReply(q, id, reason, now) else MarkAcknowledgedReply(q, id, now)
  }

  method PullPending(service: SyncQueueService, target: string, limit: int, now: int)
      returns (result: Result<seq<Event>, Error>)
    modifies service
    ensures Reply(service.View(), result) == PullReply(service.env, old(service.View()), target, limit, now)
  {
    var rows := service.DequeuePending(limit, target, now);
    for i := 0 to |rows|
      invariant MarkAll(service.View(), rows[i..], now) == MarkAll(Expire(old(service.View()), now), rows, now)
    {
      var sent := service.MarkSent(rows[i].id, now);
      assert rows[i..][1..] == rows[i + 1..];
      if sent.Err? { return Err(sent.error); }
    }
    var refreshed := [];
    ghost var marked := service.View();
    for i := 0 to |rows|
      invariant ResolveAll(service.env, service.View(), rows[i..], now, refreshed)
             == ResolveAll(service.env, marked, rows, now, [])
    {
      var event := service.ResolveDuplicates(rows[i].key, now);
      assert rows[i..][1..] == rows[i + 1..];
      if event.Err? { return Err(event.error); }
      refreshed := refreshed + [event.value];
    }
    return Ok(refreshed);
  }

  method Acknowledge(service: SyncQueueService, id: int, reason: string, now: int)
      returns (result: Result<Event, Error>)
    modifies service
    ensures Reply(service.View(), result) == AckReply(old(service.View()), id, reason, now)
  {
    if reason != "" {
      result := service.MarkConflict(id, reason, now);
    } else {
      result := service.MarkAcknowledged(id, now);
    }
  }
}
