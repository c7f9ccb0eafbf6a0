/** The realtime chat broker: which websocket is in which room, while broadcasts are under way.

    The broker runs on one event loop. Each of its critical sections runs to the end without
    suspending, so it is one step here; a broadcast suspends at every send, so its snapshot, each
    of its sends and its clean-up are separate steps between which anything else may happen. */
module Broker {

  type Socket = int

  /** The broker's two dictionaries. */
  datatype Hub = Hub(rooms: map<int, set<Socket>>, users: map<Socket, int>)

  const MAX_CONNECTIONS := 50

  /** The number of connections: the sum of the room sizes. */
  ghost function Total(rooms: map<int, set<Socket>>): nat
    decreases rooms.Keys
  {
    if exists c :: c in rooms then
      var c :| c in rooms;
      |rooms[c]| + Total(rooms - {c})
    else 0
  }

  function RoomOf(rooms: map<int, set<Socket>>, chat: int): set<Socket> {
    if chat in rooms then rooms[chat] else {}
  }

  function Online(h: Hub): set<int> { set ws | ws in h.users :: h.users[ws] }

  ghost function Connected(h: Hub, chat: int, ws: Socket, user: int): Hub {
    if Total(h.rooms) >= MAX_CONNECTIONS then h
    else Hub(h.rooms[chat := RoomOf(h.rooms, chat) + {ws}], h.users[ws := user])
  }

  /** Takes `gone` out of one room and out of the user map; a room that becomes empty goes too. */
  function Removed(h: Hub, chat: int, gone: set<Socket>): Hub {
    if chat !in h.rooms then h
    else if h.rooms[chat] - gone == {} then Hub(h.rooms - {chat}, h.users - gone)
    else Hub(h.rooms[chat := h.rooms[chat] - gone], h.users - gone)
  }

  /** A broadcast under way: the sockets it was taken for, how many were tried, and the outcome so far. */
  datatype Broadcast = Broadcast(chat: int, targets: seq<Socket>, tried: nat, delivered: nat, dead: seq<Socket>)

  function Sent(b: Broadcast, ok: bool): Broadcast
    requires b.tried < |b.targets|
  {
    if ok then b.(tried := b.tried + 1, delivered := b.delivered + 1)
    else b.(tried := b.tried + 1, dead := b.dead + [b.targets[b.tried]])
  }

  function ToSet(s: seq<Socket>): set<Socket> { set w | w in s }

  predicate NoDuplicates(s: seq<Socket>) {
    forall i, j :: 0 <= i < j < |s| ==> s[i] != s[j]
  }

  function Finished(h: Hub, b: Broadcast): Hub {
    if b.dead == [] then h else Removed(h, b.chat, ToSet(b.dead))
  }

  lemma {:induction false} TotalSplit(rooms: map<int, set<Socket>>, c: int)
    requires c in rooms
    ensures Total(rooms) == |rooms[c]| + Total(rooms - {c})
    decreases rooms.Keys
  {
    var d :| d in rooms && Total(rooms) == |rooms[d]| + Total(rooms - {d});
    if d != c {
      TotalSplit(rooms - {d}, c);
      TotalSplit(rooms - {c}, d);
      assert rooms - {d} - {c} == rooms - {c} - {d};
    }
  }

  class ChatRealtimeBroker {
    var rooms: map<int, set<Socket>>
    var wsUsers: map<Socket, int>

    constructor ()
      ensures View() == Hub(map[], map[])
    {
      rooms, wsUsers := map[], map[];
    }

    ghost function View(): Hub
      reads this
    {
      Hub(rooms, wsUsers)
    }

    method ActiveCount() returns (count: nat)
      ensures count == Total(rooms)
    {
      count := 0;
      var left := rooms;
      while exists chat :: chat in left
        invariant count + Total(left) == Total(rooms)
        decreases left.Keys
      {
        var chat :| chat in left;
        TotalSplit(left, chat);
        count := count + |left[chat]|;
        left := left - {chat};
      }
    }

    method OnlineUsers() returns (ids: set<int>)
      ensures ids == Online(View())
    {
      ids := set ws | ws in wsUsers :: wsUsers[ws];
    }

    method Connect(chat: int, ws: Socket, user: int) returns (closed: bool)
      modifies this
      ensures View() == Connected(old(View()), chat, ws, user)
      ensures closed <==> Total(old(rooms)) >= MAX_CONNECTIONS
    {
      var count := ActiveCount();
      if count >= MAX_CONNECTIONS {
        return true;
      }
      if chat !in rooms {
        rooms := rooms[chat := {}];
      }
      rooms := rooms[chat := rooms[chat] + {ws}];
      wsUsers := wsUsers[ws := user];
      return false;
    }

    method Disconnect(chat: int, ws: Socket)
      modifies this
      ensures View() == Removed(old(View()), chat, {ws})
    {
      if chat !in rooms {
        return;
      }
      rooms := rooms[chat := rooms[chat] - {ws}];
      wsUsers := wsUsers - {ws};
      if rooms[chat] == {} {
        rooms := rooms - {chat};
      }
    }

    /** The snapshot a broadcast works from: the room's sockets in some order, each once. */
    method Snapshot(chat: int) returns (targets: seq<Socket>)
      ensures NoDuplicates(targets) && ToSet(targets) == RoomOf(rooms, chat)
    {
      targets := [];
      var left := RoomOf(rooms, chat);
      while exists ws :: ws in left
        invariant NoDuplicates(targets) && ToSet(targets) !! left && ToSet(targets) + left == RoomOf(rooms, chat)
        decreases left
      {
        var ws :| ws in left;
        targets, left := targets + [ws], left - {ws};
      }
    }

    method DropDead(chat: int, dead: seq<Socket>)
      modifies this
      ensures View() == Removed(old(View()), chat, ToSet(dead))
    {
      if chat !in rooms {
        return;
      }
      assert ToSet(dead[..0]) == {} && rooms[chat] - {} == rooms[chat];
      for i := 0 to |dead|
        invariant chat in rooms && rooms == old(rooms)[chat := old(rooms)[chat] - ToSet(dead[..i])]
        invariant wsUsers == old(wsUsers) - ToSet(dead[..i])
      {
        assert ToSet(dead[..i + 1]) == ToSet(dead[..i]) + {dead[i]};
        assert rooms[chat] - {dead[i]} == old(rooms)[chat] - ToSet(dead[..i + 1]);
        rooms := rooms[chat := rooms[chat] - {dead[i]}];
        wsUsers := wsUsers - {dead[i]};
      }
      assert dead[..|dead|] == dead;
      if rooms[chat] == {} {
        rooms := rooms - {chat};
      }
    }
  }

  /** One call of `publish`, cut at its suspension points. */
  class PublishCall {
    const broker: ChatRealtimeBroker
    const chat: int
    var targets: seq<Socket>
    var tried: nat
    var delivered: nat
    var dead: seq<Socket>

    ghost function View(): Broadcast
      reads this
    {
      Broadcast(chat, targets, tried, delivered, dead)
    }

    constructor (broker: ChatRealtimeBroker, chat: int)
      ensures this.broker == broker
      ensures View() == Broadcast(chat, targets, 0, 0, [])
      ensures NoDuplicates(targets) && ToSet(targets) == RoomOf(broker.rooms, chat)
    {
      this.broker, this.chat := broker, chat;
      targets, tried, delivered, dead := [], 0, 0, [];
      new;
      targets := broker.Snapshot(chat);
    }

    method SendNext(ok: bool)
      requires tried < |targets|
      modifies this
      ensures View() == Sent(old(View()), ok)
    {
      if ok {
        delivered := delivered + 1;
      } else {
        dead := dead + [targets[tried]];
      }
      tried := tried + 1;
    }

    method Finish() returns (count: nat)
      requires tried == |targets|
      modifies broker
      ensures broker.View() == Finished(old(broker.View()), old(View())) && count == delivered
    {
      if dead != [] {
        broker.DropDead(chat, dead);
      }
      return delivered;
    }
  }

  // ---------------------------------------------------------------- all interleavings

  /** The broker with every broadcast under way, by task id. */
  datatype State = State(hub: Hub, broadcasts: map<int, Broadcast>)

  datatype Action =
    | Connect(ws: Socket, user: int)
    | Disconnect(ws: Socket)
    | Begin(task: int, chat: int, order: seq<Socket>)
    | Send(task: int, ok: bool)
    | Finish(task: int)

  /** Each websocket is opened for one chat and keeps it: `chatOf` says which. */
  ghost predicate Enabled(chatOf: Socket -> int, s: State, a: Action) {
    match a
    case Connect(_, _) => true
    case Disconnect(_) => true
    case Begin(task, chat, order) =>
      task !in s.broadcasts && NoDuplicates(order) && ToSet(order) == RoomOf(s.hub.rooms, chat)
    case Send(task, _) => task in s.broadcasts && s.broadcasts[task].tried < |s.broadcasts[task].targets|
    case Finish(task) => task in s.broadcasts && s.broadcasts[task].tried == |s.broadcasts[task].targets|
  }

  ghost function Step(chatOf: Socket -> int, s: State, a: Action): State
    requires Enabled(chatOf, s, a)
  {
    match a
    case Connect(ws, user) => s.(hub := Connected(s.hub, chatOf(ws), ws, user))
    case Disconnect(ws) => s.(hub := Removed(s.hub, chatOf(ws), {ws}))
    case Begin(task, chat, order) => s.(broadcasts := s.broadcasts[task := Broadcast(chat, order, 0, 0, [])])
    case Send(task, ok) => s.(broadcasts := s.broadcasts[task := Sent(s.broadcasts[task], ok)])
    case Finish(task) => State(Finished(s.hub, s.broadcasts[task]), s.broadcasts - {task})
  }

  /** A run: any interleaving in which every action is possible when it is taken. */
  ghost predicate Feasible(chatOf: Socket -> int, s: State, run: seq<Action>)
    decreases |run|
  {
    run == [] || (Enabled(chatOf, s, run[0]) && Feasible(chatOf, Step(chatOf, s, run[0]), run[1..]))
  }

  ghost function After(chatOf: Socket -> int, s: State, run: seq<Action>): State
    requires Feasible(chatOf, s, run)
    decreases |run|
  {
    if run == [] then s else After(chatOf, Step(chatOf, s, run[0]), run[1..])
  }

  /** Rooms are never empty and hold only their own sockets (so they are disjoint); the user map
      covers exactly the sockets in the rooms; and it has at most 50 of them. */
  ghost predicate Consistent(chatOf: Socket -> int, h: Hub) {
    && (forall c :: c in h.rooms ==> h.rooms[c] != {})
    && Matches(chatOf, h.rooms, h.users.Keys)
    && |h.users| <= MAX_CONNECTIONS
  }

  predicate InRoom(rooms: map<int, set<Socket>>, chat: int, ws: Socket) {
    chat in rooms && ws in rooms[chat]
  }

  /** The rooms hold exactly these sockets, each in its own chat's room and no other. */
  ghost predicate Matches(chatOf: Socket -> int, rooms: map<int, set<Socket>>, sockets: set<Socket>) {
    && (forall c, w :: InRoom(rooms, c, w) ==> w in sockets && chatOf(w) == c)
    && (forall w :: w in sockets ==> InRoom(rooms, chatOf(w), w))
  }

  /** Nothing a broadcast tried is lost or counted twice, and it only ever concerns its own room. */
  ghost predicate Accounted(chatOf: Socket -> int, b: Broadcast) {
    && b.tried <= |b.targets| && b.delivered + |b.dead| == b.tried
    && NoDuplicates(b.targets)
    && (forall w :: w in b.targets ==> chatOf(w) == b.chat)
    && (forall w :: w in b.dead ==> w in b.targets[..b.tried])
  }

  ghost predicate Invariant(chatOf: Socket -> int, s: State) {
    Consistent(chatOf, s.hub) && forall t :: t in s.broadcasts ==> Accounted(chatOf, s.broadcasts[t])
  }

  /** The connection count is the number of users on record, whatever the order of summation. */
  lemma {:induction false} TotalIsUserCount(chatOf: Socket -> int, rooms: map<int, set<Socket>>, sockets: set<Socket>)
    requires Matches(chatOf, rooms, sockets)
    ensures Total(rooms) == |sockets|
    decreases rooms.Keys
  {
    if c :| c in rooms {
      TotalSplit(rooms, c);
      var others := rooms - {c};
      forall w | w in rooms[c] ensures w in sockets && chatOf(w) == c { assert InRoom(rooms, c, w); }
      assert forall d, w :: InRoom(others, d, w) <==> InRoom(rooms, d, w) && d != c;
      TotalIsUserCount(chatOf, others, sockets - rooms[c]);
      assert sockets == (sockets - rooms[c]) + rooms[c];
    } else {
      assert forall w :: w in sockets ==> InRoom(rooms, chatOf(w), w);
      assert sockets == {};
    }
  }

  lemma AddMatches(chatOf: Socket -> int, rooms: map<int, set<Socket>>, sockets: set<Socket>, ws: Socket)
    requires Matches(chatOf, rooms, sockets)
    ensures var c := chatOf(ws); Matches(chatOf, rooms[c := RoomOf(rooms, c) + {ws}], sockets + {ws})
  {
    var c := chatOf(ws);
    var rooms' := rooms[c := RoomOf(rooms, c) + {ws}];
    assert forall d, w :: InRoom(rooms', d, w) <==> InRoom(rooms, d, w) || (d == c && w == ws);
  }

  lemma RemovedRooms(h: Hub, chat: int, gone: set<Socket>, c: int, w: Socket)
    ensures InRoom(Removed(h, chat, gone).rooms, c, w) <==> InRoom(h.rooms, c, w) && !(c == chat && w in gone)
  {
    if chat in h.rooms && w in h.rooms[chat] && w !in gone {
      assert w in h.rooms[chat] - gone;
    }
  }

  lemma RemoveMatches(chatOf: Socket -> int, h: Hub, chat: int, gone: set<Socket>)
    requires Matches(chatOf, h.rooms, h.users.Keys) && forall w :: w in gone ==> chatOf(w) == chat
    ensures Matches(chatOf, Removed(h, chat, gone).rooms, h.users.Keys - gone)
  {
    forall c, w
      ensures InRoom(Removed(h, chat, gone).rooms, c, w) <==> InRoom(h.rooms, c, w) && !(c == chat && w in gone)
    {
      RemovedRooms(h, chat, gone, c, w);
    }
  }

  lemma {:induction false} ConnectKeepsConsistent(chatOf: Socket -> int, h: Hub, ws: Socket, user: int)
    requires Consistent(chatOf, h)
    ensures Consistent(chatOf, Connected(h, chatOf(ws), ws, user))
  {
    TotalIsUserCount(chatOf, h.rooms, h.users.Keys);
    AddMatches(chatOf, h.rooms, h.users.Keys, ws);
    assert h.users[ws := user].Keys == h.users.Keys + {ws};
  }

  /** Removing sockets of one room drops exactly those, and leaves the other rooms alone. */
  lemma RemoveIsLocal(chatOf: Socket -> int, h: Hub, chat: int, gone: set<Socket>)
    requires Matches(chatOf, h.rooms, h.users.Keys) && forall w :: w in gone ==> chatOf(w) == chat
    ensures Removed(h, chat, gone).users == h.users - gone
    ensures forall c :: c != chat ==> RoomOf(Removed(h, chat, gone).rooms, c) == RoomOf(h.rooms, c)
  {
    if chat !in h.rooms {
      assert forall w :: w in gone ==> !InRoom(h.rooms, chatOf(w), w);
      assert h.users - gone == h.users;
    }
  }

  lemma RemoveLeavesNoEmptyRoom(h: Hub, chat: int, gone: set<Socket>, c: int)
    requires c in Removed(h, chat, gone).rooms && forall d :: d in h.rooms ==> h.rooms[d] != {}
    ensures Removed(h, chat, gone).rooms[c] != {}
  {
  }

  lemma {:induction false} RemoveKeepsConsistent(chatOf: Socket -> int, h: Hub, chat: int, gone: set<Socket>)
    requires Consistent(chatOf, h) && forall w :: w in gone ==> chatOf(w) == chat
    ensures Consistent(chatOf, Removed(h, chat, gone))
  {
    var h' := Removed(h, chat, gone);
    RemoveIsLocal(chatOf, h, chat, gone);
    RemoveMatches(chatOf, h, chat, gone);
    assert h'.users.Keys == h.users.Keys - gone;
    assert |h'.users.Keys| <= |h.users.Keys|;
    forall c | c in h'.rooms ensures h'.rooms[c] != {} { RemoveLeavesNoEmptyRoom(h, chat, gone, c); }
  }

  lemma StepKeepsInvariant(chatOf: Socket -> int, s: State, a: Action)
    requires Invariant(chatOf, s) && Enabled(chatOf, s, a)
    ensures Invariant(chatOf, Step(chatOf, s, a))
  {
    match a
    case Connect(ws, user) => ConnectKeepsConsistent(chatOf, s.hub, ws, user);
    case Disconnect(ws) => RemoveKeepsConsistent(chatOf, s.hub, chatOf(ws), {ws});
    case Begin(task, chat, order) =>
      forall w | w in order ensures chatOf(w) == chat {
        assert w in ToSet(order);
        assert InRoom(s.hub.rooms, chat, w);
      }
    case Send(task, ok) =>
      var b := s.broadcasts[task];
      assert b.targets[..b.tried + 1] == b.targets[..b.tried] + [b.targets[b.tried]];
    case Finish(task) =>
      var b := s.broadcasts[task];
      if b.dead != [] { RemoveKeepsConsistent(chatOf, s.hub, b.chat, ToSet(b.dead)); }
  }

  /** The broker invariant holds after every interleaving of connects, disconnects and broadcasts. */
  lemma {:induction false} AlwaysInvariant(chatOf: Socket -> int, s: State, run: seq<Action>)
    requires Invariant(chatOf, s) && Feasible(chatOf, s, run)
    ensures Invariant(chatOf, After(chatOf, s, run))
    decreases |run|
  {
    if run != [] {
      StepKeepsInvariant(chatOf, s, run[0]);
      AlwaysInvariant(chatOf, Step(chatOf, s, run[0]), run[1..]);
    }
  }

  const EMPTY := State(Hub(map[], map[]), map[])

  /** The broker's promise, from start-up on: whatever the interleaving, no room is empty, no socket
      is in two rooms, the user map covers exactly the rooms, and at most 50 connections are open. */
  lemma {:induction false} BrokerPromise(chatOf: Socket -> int, run: seq<Action>)
    requires Feasible(chatOf, EMPTY, run)
    ensures var h := After(chatOf, EMPTY, run).hub;
            && (forall c :: c in h.rooms ==> h.rooms[c] != {})
            && (forall c, d :: c in h.rooms && d in h.rooms && c != d ==> h.rooms[c] !! h.rooms[d])
            && (forall w :: w in h.users <==> exists c :: InRoom(h.rooms, c, w))
            && Total(h.rooms) == |h.users| <= 50
  {
    AlwaysInvariant(chatOf, EMPTY, run);
    var h := After(chatOf, EMPTY, run).hub;
    TotalIsUserCount(chatOf, h.rooms, h.users.Keys);
    forall c, d | c in h.rooms && d in h.rooms && c != d ensures h.rooms[c] !! h.rooms[d] {
      forall w | w in h.rooms[c] ensures w !in h.rooms[d] {
        assert InRoom(h.rooms, c, w) && (w in h.rooms[d] ==> InRoom(h.rooms, d, w));
      }
    }
  }

  /** A user counts as online exactly while one of their sockets is in some room. */
  lemma OnlineIffInSomeRoom(chatOf: Socket -> int, run: seq<Action>, user: int)
    requires Feasible(chatOf, EMPTY, run)
    ensures var h := After(chatOf, EMPTY, run).hub;
            user in Online(h) <==> exists c, ws :: InRoom(h.rooms, c, ws) && ws in h.users && h.users[ws] == user
  {
    AlwaysInvariant(chatOf, EMPTY, run);
    var h := After(chatOf, EMPTY, run).hub;
    if user in Online(h) {
      var ws :| ws in h.users && h.users[ws] == user;
      assert InRoom(h.rooms, chatOf(ws), ws);
    }
  }

  /** What a broadcast does when it ends, however much happened since its snapshot: delivered and
      dead make up the snapshot, the dead sockets and no others leave, and other rooms are untouched. */
  lemma BroadcastAccounting(chatOf: Socket -> int, run: seq<Action>, task: int)
    requires Feasible(chatOf, EMPTY, run) && Enabled(chatOf, After(chatOf, EMPTY, run), Finish(task))
    ensures var s := After(chatOf, EMPTY, run);
            var b, hub' := s.broadcasts[task], Step(chatOf, s, Finish(task)).hub;
            && b.delivered + |b.dead| == |b.targets|
            && hub'.users == s.hub.users - ToSet(b.dead)
            && (forall w :: w in b.dead ==> w in b.targets && chatOf(w) == b.chat)
            && (forall c :: c != b.chat ==> RoomOf(hub'.rooms, c) == RoomOf(s.hub.rooms, c))
  {
    AlwaysInvariant(chatOf, EMPTY, run);
    var s := After(chatOf, EMPTY, run);
    var b := s.broadcasts[task];
    if b.dead == [] {
      assert s.hub.users - ToSet(b.dead) == s.hub.users;
    } else {
      RemoveIsLocal(chatOf, s.hub, b.chat, ToSet(b.dead));
    }
  }

  /** Whether this action takes, or prepares to take, `ws` out: its own disconnect or a failed send to it. */
  predicate Hits(s: State, a: Action, ws: Socket) {
    || a == Disconnect(ws)
    || (a.Send? && !a.ok && a.task in s.broadcasts
        && s.broadcasts[a.task].tried < |s.broadcasts[a.task].targets|
        && s.broadcasts[a.task].targets[s.broadcasts[a.task].tried] == ws)
  }

  ghost predicate NeverHits(chatOf: Socket -> int, s: State, run: seq<Action>, ws: Socket)
    requires Feasible(chatOf, s, run)
    decreases |run|
  {
    run == [] || (!Hits(s, run[0], ws) && NeverHits(chatOf, Step(chatOf, s, run[0]), run[1..], ws))
  }

  /** No live socket is lost: one that is connected and not already given up on stays connected
      through every interleaving in which it does not disconnect and no send to it fails. */
  lemma {:induction false} LiveSocketsStay(chatOf: Socket -> int, s: State, run: seq<Action>, ws: Socket)
    requires Invariant(chatOf, s) && Feasible(chatOf, s, run) && NeverHits(chatOf, s, run, ws)
    requires ws in s.hub.users && forall t :: t in s.broadcasts ==> ws !in s.broadcasts[t].dead
    ensures ws in After(chatOf, s, run).hub.users
    decreases |run|
  {
    if run != [] {
      var a := run[0];
      StepKeepsInvariant(chatOf, s, a);
      if a.Disconnect? {
        RemoveIsLocal(chatOf, s.hub, chatOf(a.ws), {a.ws});
      } else if a.Finish? {
        var b := s.broadcasts[a.task];
        if b.dead != [] { RemoveIsLocal(chatOf, s.hub, b.chat, ToSet(b.dead)); }
      }
      LiveSocketsStay(chatOf, Step(chatOf, s, a), run[1..], ws);
    }
  }

  // ---------------------------------------------------------------- who is connected, action by action

  /** The sockets that the sends of a broadcast have failed for. */
  ghost predicate FailedIn(s: State, task: int, ws: Socket) { task in s.broadcasts && ws in s.broadcasts[task].dead }

  /** After any run, a connect puts its socket into its own room and on record for its user while
      fewer than fifty are on record, and otherwise nothing; a disconnect takes exactly its socket
      away; the end of a broadcast takes away exactly the sockets its sends failed for. */
  lemma ConnectedAfter(chatOf: Socket -> int, run: seq<Action>, a: Action, ws: Socket)
    requires Feasible(chatOf, EMPTY, run) && Enabled(chatOf, After(chatOf, EMPTY, run), a)
    ensures var s := After(chatOf, EMPTY, run);
            var users, hub' := s.hub.users, Step(chatOf, s, a).hub;
            var joins := exists user :: a == Connect(ws, user) && |users| < 50;
            && (ws in hub'.users
                <==> joins || (ws in users && a != Disconnect(ws) && !(a.Finish? && FailedIn(s, a.task, ws))))
            && (ws in hub'.users ==> hub'.users[ws] == if joins then a.user else users[ws])
            && forall c :: InRoom(hub'.rooms, c, ws) <==> c == chatOf(ws) && ws in hub'.users
  {
    AlwaysInvariant(chatOf, EMPTY, run);
    var s := After(chatOf, EMPTY, run);
    StepKeepsInvariant(chatOf, s, a);
    TotalIsUserCount(chatOf, s.hub.rooms, s.hub.users.Keys);
    RoomsMatch(chatOf, Step(chatOf, s, a).hub, ws);
    match a {
      case Connect(_, _) =>
      case Disconnect(w) => RemoveIsLocal(chatOf, s.hub, chatOf(w), {w});
      case Finish(task) =>
        var b := s.broadcasts[task];
        if b.dead != [] { RemoveIsLocal(chatOf, s.hub, b.chat, ToSet(b.dead)); }
      case _ =>
    }
  }

  lemma RoomsMatch(chatOf: Socket -> int, h: Hub, ws: Socket)
    requires Consistent(chatOf, h)
    ensures forall c :: InRoom(h.rooms, c, ws) <==> c == chatOf(ws) && ws in h.users
  {
  }

  /** What each step makes of a broadcast: it begins with its room's sockets; a send that succeeds is
      counted, and one that fails sets its socket aside; nothing else touches it until it ends. */
  lemma BroadcastAfter(chatOf: Socket -> int, s: State, a: Action, task: int)
    requires Enabled(chatOf, s, a)
    ensures var s' := Step(chatOf, s, a);
            && (task in s'.broadcasts
                <==> a != Finish(task) && (task in s.broadcasts || (a.Begin? && a.task == task)))
            && (task !in s.broadcasts && task in s'.broadcasts ==>
                  && s'.broadcasts[task] == Broadcast(a.chat, a.order, 0, 0, [])
                  && forall ws :: ws in a.order <==> InRoom(s.hub.rooms, a.chat, ws))
            && (task in s.broadcasts && task in s'.broadcasts ==>
                  var b, b' := s.broadcasts[task], s'.broadcasts[task];
                  if a == Send(task, true) then b' == b.(tried := b.tried + 1, delivered := b.delivered + 1)
                  else if a == Send(task, false)
                  then b' == b.(tried := b.tried + 1, dead := b.dead + [b.targets[b.tried]])
                  else b' == b)
  {
    if a.Begin? {
      forall ws ensures ws in a.order <==> InRoom(s.hub.rooms, a.chat, ws) {
        assert ws in a.order <==> ws in ToSet(a.order);
      }
    }
  }
}
