/** Who gets into a chat room, how many rooms a user may own, and which room a direct message leads to:
    over whole runs of service calls. */
module ChatRoomLaws {
  import opened Prelude
  import opened Users
  import opened Attachments
  import opened ChatStore
  import opened ChatStoreLaws

  /** The tables of a new server. */
  function NewServer(users: map<int, User>): Store { Store(users, map[], map[], map[], [], map[], 1, 1) }

  lemma NextRun(env: Env, s: Store, ops: seq<Op>, op: Op)
    ensures Run(env, s, ops + [op]) == Apply(env, Run(env, s, ops), op)
  {
    assert (ops + [op])[..|ops|] == ops;
  }

  // ---------------------------------------------------------------- who gets into a room

  /** The room has a code, and this is one it accepts. */
  predicate CodeVerifies(env: Env, c: Chat, code: Option<string>) {
    var n := NormalizeCode(env, code);
    c.codeHash.Some? && n.Ok? && n.value.Some? && env.verify(n.value.value, c.codeHash.value)
  }

  /** A stored code is never the empty hash, so it is always asked for. */
  ghost predicate CodesReal(s: Store) {
    forall c :: c in s.chats && s.chats[c].codeHash.Some? ==> s.chats[c].codeHash.value != ""
  }

  /** An active user who has no role in the room and is no administrator. */
  ghost predicate Stranger(s: Store, chat: int, user: int) {
    Inactive(s, user).None? && !IsAdmin(s, user) && (chat, user) !in s.members
  }

  lemma StepKeepsCodesReal(env: Env, s: Store, op: Op)
    requires CodesReal(s)
    ensures CodesReal(Apply(env, s, op))
  {
  }

  lemma {:induction false} RunKeepsCodesReal(env: Env, s: Store, ops: seq<Op>)
    requires CodesReal(s)
    ensures CodesReal(Run(env, s, ops))
  {
    if ops != [] {
      RunKeepsCodesReal(env, s, ops[..|ops| - 1]);
      StepKeepsCodesReal(env, Run(env, s, ops[..|ops| - 1]), ops[|ops| - 1]);
    }
  }

  /** When a stranger may enter a custom room: it is not private, or it has no code, or the code verifies. */
  lemma StrangerEntersIff(env: Env, s: Store, chat: int, user: int, code: Option<string>)
    requires CodesReal(s) && chat in s.chats && s.chats[chat].kind.Custom? && Stranger(s, chat, user)
    ensures Join(env, s, chat, user, code).result.Ok?
       <==> !s.chats[chat].isPrivate || s.chats[chat].codeHash.None? || CodeVerifies(env, s.chats[chat], code)
    ensures Join(env, s, chat, user, code).result.Ok?
       <==> (chat, user) in Join(env, s, chat, user, code).store.members
  {
  }

  /** A private room is meant to keep strangers without the code out. At every point of every run it
      does so exactly when it has a code: the private flag alone keeps nobody out. */
  lemma {:induction false} PrivateRoomClosedIff(env: Env, s: Store, ops: seq<Op>, chat: int, user: int)
    requires CodesReal(s) && chat in Run(env, s, ops).chats && Stranger(Run(env, s, ops), chat, user)
    requires Run(env, s, ops).chats[chat].isPrivate && Run(env, s, ops).chats[chat].kind.Custom?
    ensures var t := Run(env, s, ops);
            (forall code :: Join(env, t, chat, user, code).result.Ok? ==> CodeVerifies(env, t.chats[chat], code))
            <==> t.chats[chat].codeHash.Some?
  {
    var t := Run(env, s, ops);
    RunKeepsCodesReal(env, s, ops);
    if t.chats[chat].codeHash.None? {
      StrangerEntersIff(env, t, chat, user, None);
    } else {
      forall code | Join(env, t, chat, user, code).result.Ok? ensures CodeVerifies(env, t.chats[chat], code) {
        StrangerEntersIff(env, t, chat, user, code);
      }
    }
  }

  /** A new direct message is such a room: private and without a code, so any active user can enter it. */
  lemma StrangerEntersNewDm(env: Env, s: Store, a: int, b: int, title: string, now: int, stranger: int)
    requires StoreOk(s) && DirectMessage(s, a, b, title, now).result.Ok?
        && DirectMessage(s, a, b, title, now).store != s
    requires Inactive(s, stranger).None? && stranger != a && stranger != b
    ensures var r := DirectMessage(s, a, b, title, now);
            var room, entered := r.result.value, Join(env, r.store, r.result.value, stranger, None);
            && r.store.chats[room].isPrivate && r.store.chats[room].codeHash.None?
            && (room, stranger) !in r.store.members
            && entered.result == Ok(Plain) && (room, stranger) in entered.store.members
  {
    FirstSharedIsFirst(s, a, b, 1);
  }

  /** Nobody has the owner's row of this chat, whether or not it still exists. */
  ghost predicate Ownerless(s: Store, chat: int) { forall u :: !IsOwner(s, chat, u) }

  lemma StepAddsNoOwner(env: Env, s: Store, op: Op, chat: int, user: int)
    requires StoreOk(s) && chat < s.nextChat && !IsOwner(s, chat, user)
    ensures !IsOwner(Apply(env, s, op), chat, user)
  {
  }

  /** And it stays open: a room made for a direct message has no owner, over any run, so nobody but an
      administrator can ever give it a code, make it anything else, or add anybody. */
  lemma {:induction false} DmHasNoOwner(env: Env, s: Store, a: int, b: int, title: string, now: int, ops: seq<Op>)
    requires StoreOk(s) && DirectMessage(s, a, b, title, now).result.Ok?
    requires DirectMessage(s, a, b, title, now).store != s
    ensures var room := DirectMessage(s, a, b, title, now).result.value;
            var t := Run(env, DirectMessage(s, a, b, title, now).store, ops);
            && room < t.nextChat && Ownerless(t, room)
            && (forall u, newTitle: Option<string>, code: Option<string>, private: Option<bool>, salt, at ::
                  Configure(env, t, room, u, newTitle, code, private, salt, at).result.Ok? ==> IsAdmin(t, u))
            && forall u, target :: AddMember(t, room, target, u).result.Ok? ==> IsAdmin(t, u)
  {
    var room, s0 := DirectMessage(s, a, b, title, now).result.value, DirectMessage(s, a, b, title, now).store;
    DmOpensRoom(env, s, a, b, title, now);
    if ops == [] {
      FirstSharedIsFirst(s, a, b, 1);
      assert forall u :: (room, u) !in s.members;
    } else {
      var t, op := Run(env, s0, ops[..|ops| - 1]), ops[|ops| - 1];
      DmHasNoOwner(env, s, a, b, title, now, ops[..|ops| - 1]);
      RunKeeps(env, s0, ops[..|ops| - 1]);
      RecordStays(env, t, op, room);
      forall u ensures !IsOwner(Apply(env, t, op), room, u) { StepAddsNoOwner(env, t, op, room, u); }
    }
  }

  /** The call that invites this user into this room: their own entry as an administrator or with the
      room's code, an owner or administrator adding them, or the room being made with them in it. */
  ghost predicate Invites(env: Env, s: Store, op: Op, chat: int, user: int) {
    || (op.JoinChat? && op.chat == chat && op.user == user && chat in s.chats
        && (IsAdmin(s, user) || CodeVerifies(env, s.chats[chat], op.code)))
    || (op.AddTo? && op.chat == chat && op.target == user && (IsAdmin(s, op.actor) || IsOwner(s, chat, op.actor)))
    || (chat == s.nextChat && op.NewCustom? && op.user == user)
    || (chat == s.nextChat && op.Dm? && (op.user == user || op.target == user))
  }

  /** The call by which this user enters this room while it has no code. */
  ghost predicate WalksIn(s: Store, op: Op, chat: int, user: int) {
    op.JoinChat? && op.chat == chat && op.user == user && chat in s.chats && s.chats[chat].codeHash.None?
  }

  lemma StepAdmits(env: Env, s: Store, op: Op, chat: int, user: int)
    requires StoreOk(s) && CodesReal(s)
    requires (chat, user) !in s.members && (chat, user) in Apply(env, s, op).members
    ensures Invites(env, s, op, chat, user) || WalksIn(s, op, chat, user)
  {
  }

  /** Where members come from: whoever is a member of a chat at the end of a run, and was not at its
      start, was invited by some call of the run or walked in while the room had no code. */
  lemma {:induction false} MembersWereAdmitted(env: Env, s: Store, ops: seq<Op>, chat: int, user: int)
    requires StoreOk(s) && CodesReal(s) && (chat, user) !in s.members && (chat, user) in Run(env, s, ops).members
    ensures exists i :: 0 <= i < |ops|
              && (Invites(env, Run(env, s, ops[..i]), ops[i], chat, user)
                  || WalksIn(Run(env, s, ops[..i]), ops[i], chat, user))
  {
    var n := |ops| - 1;
    RunKeeps(env, s, ops[..n]);
    RunKeepsCodesReal(env, s, ops[..n]);
    if (chat, user) in Run(env, s, ops[..n]).members {
      MembersWereAdmitted(env, s, ops[..n], chat, user);
      var i :| 0 <= i < n && (Invites(env, Run(env, s, ops[..n][..i]), ops[..n][i], chat, user)
                              || WalksIn(Run(env, s, ops[..n][..i]), ops[..n][i], chat, user));
      assert ops[..n][..i] == ops[..i] && ops[..n][i] == ops[i];
    } else {
      StepAdmits(env, Run(env, s, ops[..n]), ops[n], chat, user);
    }
  }

  /** So nobody comes uninvited into a room that has a code whenever it exists. */
  lemma {:induction false} CodedRoomInvites(env: Env, s: Store, ops: seq<Op>, chat: int, user: int)
    requires StoreOk(s) && CodesReal(s) && (chat, user) !in s.members && (chat, user) in Run(env, s, ops).members
    requires forall i :: 0 <= i < |ops| && chat in Run(env, s, ops[..i]).chats
               ==> Run(env, s, ops[..i]).chats[chat].codeHash.Some?
    ensures exists i :: 0 <= i < |ops| && Invites(env, Run(env, s, ops[..i]), ops[i], chat, user)
  {
    MembersWereAdmitted(env, s, ops, chat, user);
  }

  /** The code a room was made with, or was last given, opens it to every active user. */
  lemma CodeOpensRoom(env: Env, s: Store, given: Op, user: int)
    requires StoreOk(s) && Inactive(s, user).None?
    requires given.NewCustom? || (given.Config? && given.private != Some(false))
    requires given.code.Some? && NormalizeCode(env, given.code).Ok?
    requires Apply(env, s, given) != s
    ensures var chat := if given.NewCustom? then s.nextChat else given.chat;
            Join(env, Apply(env, s, given), chat, user, given.code).result.Ok?
  {
  }

  // ---------------------------------------------------------------- direct messages

  lemma {:induction false} FirstSharedIsFirst(s: Store, a: int, b: int, from: int)
    ensures match FirstShared(s, a, b, from)
            case None => forall c :: from <= c < s.nextChat ==> !Shared(s, c, a, b)
            case Some(c) =>
              from <= c < s.nextChat && Shared(s, c, a, b) && forall d :: from <= d < c ==> !Shared(s, d, a, b)
    decreases s.nextChat - from
  {
    if from < s.nextChat && !Shared(s, from, a, b) { FirstSharedIsFirst(s, a, b, from + 1); }
  }

  /** `c` is the room the pair is directed to. */
  ghost predicate PairRoom(s: Store, a: int, b: int, c: int) {
    1 <= c && Shared(s, c, a, b) && forall d :: 1 <= d < c ==> !Shared(s, d, a, b)
  }

  lemma DmFindsPairRoom(s: Store, user: int, target: int, title: string, now: int)
    requires StoreOk(s) && DirectMessage(s, user, target, title, now).result.Ok?
    ensures var r := DirectMessage(s, user, target, title, now);
            && PairRoom(r.store, user, target, r.result.value) && PairRoom(r.store, target, user, r.result.value)
            && (forall c :: PairRoom(s, user, target, c) || PairRoom(s, target, user, c)
                            ==> r.result.value == c && r.store == s)
  {
    FirstSharedIsFirst(s, user, target, 1);
    var r := DirectMessage(s, user, target, title, now);
    forall d ensures Shared(r.store, d, user, target) <==> Shared(r.store, d, target, user) {}
    forall d ensures Shared(s, d, user, target) <==> Shared(s, d, target, user) {}
    forall d | 1 <= d < s.nextChat ensures Shared(r.store, d, user, target) <==> Shared(s, d, user, target) {}
    forall c | PairRoom(s, user, target, c) || PairRoom(s, target, user, c)
      ensures r.result.value == c && r.store == s
    {
      assert Shared(s, c, user, target) && c < s.nextChat;
      var first := FirstShared(s, user, target, 1).value;
      assert !(c < first) && !(first < c);
    }
  }

  /** A room the two share is found again, whoever of them asks; it is the same one exactly when no
      older room has come to be shared. */
  lemma SharedRoomFound(s: Store, user: int, target: int, title: string, now: int, c: int)
    requires StoreOk(s) && DirectMessage(s, user, target, title, now).result.Ok? && Shared(s, c, user, target)
    ensures var r := DirectMessage(s, user, target, title, now);
            && r.store == s && Shared(s, r.result.value, user, target)
            && (r.result.value == c <==> forall d :: 1 <= d < c ==> !Shared(s, d, user, target))
  {
    FirstSharedIsFirst(s, user, target, 1);
  }

  /** Calls that take away this room, or the privacy of it. */
  predicate Undoes(op: Op, chat: int) {
    || (op.RemoveChat? && op.chat == chat) || op.RemoveAllChats? || op.ResetAll?
    || (op.Config? && op.chat == chat && op.private == Some(false))
  }

  lemma StepKeepsShared(env: Env, s: Store, op: Op, a: int, b: int, c: int)
    requires StoreOk(s) && Shared(s, c, a, b) && !Undoes(op, c)
    ensures Shared(Apply(env, s, op), c, a, b)
  {
    assert c < s.nextChat;
  }

  lemma {:induction false} RoomStaysShared(env: Env, s: Store, ops: seq<Op>, a: int, b: int, c: int)
    requires StoreOk(s) && Shared(s, c, a, b) && forall i :: 0 <= i < |ops| ==> !Undoes(ops[i], c)
    ensures Shared(Run(env, s, ops), c, a, b)
  {
    if ops != [] {
      RoomStaysShared(env, s, ops[..|ops| - 1], a, b, c);
      RunKeeps(env, s, ops[..|ops| - 1]);
      StepKeepsShared(env, Run(env, s, ops[..|ops| - 1]), ops[|ops| - 1], a, b, c);
    }
  }

  predicate Between(op: Op, a: int, b: int) {
    op.Dm? && ((op.user == a && op.target == b) || (op.user == b && op.target == a))
  }

  /** Calls that put nobody into an existing room, and make none private. */
  predicate Quiet(op: Op) { !op.JoinChat? && !op.AddTo? && !op.Config? }

  lemma StepSharesNoOlder(env: Env, s: Store, op: Op, a: int, b: int, d: int)
    requires StoreOk(s) && d < s.nextChat && Quiet(op) && !Shared(s, d, a, b)
    ensures !Shared(Apply(env, s, op), d, a, b)
  {
  }

  lemma {:induction false} RunSharesNoOlder(env: Env, s: Store, ops: seq<Op>, a: int, b: int, c: int)
    requires StoreOk(s) && c < s.nextChat && forall d :: 1 <= d < c ==> !Shared(s, d, a, b)
    requires forall i :: 0 <= i < |ops| ==> Quiet(ops[i])
    ensures c < Run(env, s, ops).nextChat && forall d :: 1 <= d < c ==> !Shared(Run(env, s, ops), d, a, b)
  {
    if ops != [] {
      var t, op := Run(env, s, ops[..|ops| - 1]), ops[|ops| - 1];
      RunSharesNoOlder(env, s, ops[..|ops| - 1], a, b, c);
      RunKeeps(env, s, ops[..|ops| - 1]);
      RecordStays(env, t, op, c);
      forall d | 1 <= d < c ensures !Shared(Apply(env, t, op), d, a, b) { StepSharesNoOlder(env, t, op, a, b, d); }
    }
  }

  /** One room per pair. Once a direct message between two users has been opened, opening it again from
      either side creates nothing, after any run of calls by anybody that leaves that room in place and
      private. It is the same room exactly when no older one has come to be shared; and none has unless
      somebody was put into an existing room, or one was made private. */
  lemma {:induction false} OneRoomPerPair(env: Env, s: Store, a: int, b: int, title: string, now: int,
                                          ops: seq<Op>, again: Op)
    requires StoreOk(s) && DirectMessage(s, a, b, title, now).result.Ok? && Between(again, a, b)
    requires forall i :: 0 <= i < |ops| ==> !Undoes(ops[i], DirectMessage(s, a, b, title, now).result.value)
    requires var s1 := Run(env, DirectMessage(s, a, b, title, now).store, ops);
             DirectMessage(s1, again.user, again.target, again.title, again.now).result.Ok?
    ensures var c := DirectMessage(s, a, b, title, now).result.value;
            var s1 := Run(env, DirectMessage(s, a, b, title, now).store, ops);
            var r := DirectMessage(s1, again.user, again.target, again.title, again.now);
            && r.store == s1 && Shared(s1, r.result.value, a, b)
            && (r.result.value == c <==> forall d :: 1 <= d < c ==> !Shared(s1, d, a, b))
            && ((forall i :: 0 <= i < |ops| ==> Quiet(ops[i])) ==> r.result.value == c)
  {
    var s0, c := DirectMessage(s, a, b, title, now).store, DirectMessage(s, a, b, title, now).result.value;
    DmOpensRoom(env, s, a, b, title, now);
    RoomStaysShared(env, s0, ops, a, b, c);
    RunKeeps(env, s0, ops);
    AgainFindsRoom(Run(env, s0, ops), again, a, b, c);
    QuietRunSharesNoOlder(env, s0, ops, a, b, c);
  }

  lemma DmOpensRoom(env: Env, s: Store, a: int, b: int, title: string, now: int)
    requires StoreOk(s) && DirectMessage(s, a, b, title, now).result.Ok?
    ensures var s0, c := DirectMessage(s, a, b, title, now).store, DirectMessage(s, a, b, title, now).result.value;
            StoreOk(s0) && c < s0.nextChat && PairRoom(s0, a, b, c)
  {
    DmFindsPairRoom(s, a, b, title, now);
    ApplyKeeps(env, s, Dm(a, b, title, now));
    assert Apply(env, s, Dm(a, b, title, now)) == DirectMessage(s, a, b, title, now).store;
  }

  lemma QuietRunSharesNoOlder(env: Env, s: Store, ops: seq<Op>, a: int, b: int, c: int)
    requires StoreOk(s) && c < s.nextChat && forall d :: 1 <= d < c ==> !Shared(s, d, a, b)
    ensures (forall i :: 0 <= i < |ops| ==> Quiet(ops[i]))
        ==> forall d :: 1 <= d < c ==> !Shared(Run(env, s, ops), d, a, b)
  {
    if forall i :: 0 <= i < |ops| ==> Quiet(ops[i]) { RunSharesNoOlder(env, s, ops, a, b, c); }
  }

  lemma AgainFindsRoom(s: Store, again: Op, a: int, b: int, c: int)
    requires StoreOk(s) && Shared(s, c, a, b) && Between(again, a, b)
    requires DirectMessage(s, again.user, again.target, again.title, again.now).result.Ok?
    ensures var r := DirectMessage(s, again.user, again.target, again.title, again.now);
            && r.store == s && Shared(s, r.result.value, a, b)
            && (r.result.value == c <==> forall d :: 1 <= d < c ==> !Shared(s, d, a, b))
  {
    forall d ensures Shared(s, d, again.user, again.target) <==> Shared(s, d, a, b) {}
    SharedRoomFound(s, again.user, again.target, again.title, again.now, c);
  }

  function MembersOf(s: Store, chat: int): set<int> { set k | k in s.members && k.0 == chat :: k.1 }

  predicate NoThirdMember(s: Store, a: int, b: int, chat: int) {
    forall k :: k in s.members && k.0 == chat ==> k.1 == a || k.1 == b
  }

  /** A direct message is meant to be one-on-one. It is exactly when the first private room the two
      already share, if there is one, has no third member: any shared room is taken for theirs. */
  lemma OneOnOneIff(s: Store, user: int, target: int, title: string, now: int)
    requires StoreOk(s) && DirectMessage(s, user, target, title, now).result.Ok?
    ensures var r := DirectMessage(s, user, target, title, now);
            MembersOf(r.store, r.result.value) == {user, target}
            <==> forall c :: PairRoom(s, user, target, c) ==> NoThirdMember(s, user, target, c)
  {
    FirstSharedIsFirst(s, user, target, 1);
    DmFindsPairRoom(s, user, target, title, now);
    var r := DirectMessage(s, user, target, title, now);
    var c := r.result.value;
    if FirstShared(s, user, target, 1).None? {
      assert (c, user) in r.store.members && (c, target) in r.store.members;
      assert MembersOf(r.store, c) == {user, target};
    } else {
      assert PairRoom(s, user, target, c);
      forall u ensures u in MembersOf(s, c) <==> (c, u) in s.members {
        if u in MembersOf(s, c) { var k :| k in s.members && k.0 == c && k.1 == u; assert k == (c, u); }
      }
      assert NoThirdMember(s, user, target, c) <==> MembersOf(s, c) == {user, target};
    }
  }

  function ThreeUsers(): map<int, User> {
    map[1 := User(Member, Active), 2 := User(Member, Active), 3 := User(Member, Active)]
  }

  lemma RunOfThree(env: Env, s: Store, a: Op, b: Op, c: Op)
    ensures Run(env, s, [a, b, c]) == Apply(env, Apply(env, Apply(env, s, a), b), c)
  {
    NextRun(env, s, [], a);
    NextRun(env, s, [a], b);
    NextRun(env, s, [a, b], c);
    assert [] + [a] == [a] && [a] + [b] == [a, b] && [a, b] + [c] == [a, b, c];
  }

  lemma PrivateRoomMade(env: Env)
    ensures Apply(env, NewServer(ThreeUsers()), NewCustom(3, "room", true, None, "", 0))
         == Store(ThreeUsers(), map[1 := Chat(Custom, env.strip("room"), Some(3), true, None, 0)],
                  map[(1, 3) := Owner], map[], [], map[], 2, 1)
  {
    assert CustomChatsOf(NewServer(ThreeUsers()), 3) == {};
    assert Word("room");
  }

  lemma OwnerAdds(env: Env, s: Store, target: int)
    requires s.users == ThreeUsers() && target in s.users && (1, target) !in s.members
    requires 1 in s.chats && s.chats[1].kind.Custom? && IsOwner(s, 1, 3)
    ensures Apply(env, s, AddTo(1, target, 3)) == s.(members := s.members[(1, target) := Plain])
  {
  }

  lemma ThreeInRoom(s: Store)
    requires s.users == ThreeUsers()
    requires 1 in s.chats && s.chats[1].isPrivate && s.chats[1].kind.Custom? && s.nextChat == 2
    requires s.members == map[(1, 3) := Owner, (1, 1) := Plain, (1, 2) := Plain]
    ensures DirectMessage(s, 1, 2, "a & b", 0) == Reply(s, Ok(1)) && MembersOf(s, 1) == {1, 2, 3}
  {
    assert (1, 1) in s.members && (1, 2) in s.members && (1, 3) in s.members;
    assert Shared(s, 1, 1, 2);
    forall u ensures u in MembersOf(s, 1) <==> u in {1, 2, 3} {
      if u in {1, 2, 3} { assert (1, u) in s.members; }
    }
  }

  /** On a new server: the third user makes a private room and adds the first and the second. Their
      direct message is then led into it. */
  lemma GroupRoomTakenForDm(env: Env)
    ensures var s := Run(env, NewServer(ThreeUsers()),
                         [NewCustom(3, "room", true, None, "", 0), AddTo(1, 1, 3), AddTo(1, 2, 3)]);
            DirectMessage(s, 1, 2, "a & b", 0) == Reply(s, Ok(1)) && MembersOf(s, 1) == {1, 2, 3}
  {
    var made, first, second := NewCustom(3, "room", true, None, "", 0), AddTo(1, 1, 3), AddTo(1, 2, 3);
    RunOfThree(env, NewServer(ThreeUsers()), made, first, second);
    PrivateRoomMade(env);
    var s1 := Apply(env, NewServer(ThreeUsers()), made);
    OwnerAdds(env, s1, 1);
    OwnerAdds(env, Apply(env, s1, first), 2);
    ThreeInRoom(Apply(env, Apply(env, s1, first), second));
  }

  // ---------------------------------------------------------------- a client id used by two

  lemma SharedRoomMade(env: Env)
    ensures Apply(env, TwoUsers(Member), ROOM)
         == TwoUsers(Member).(chats := map[1 := Chat(Custom, "room", Some(1), false, None, 0)],
                              members := map[(1, 1) := Owner], nextChat := 2)
  {
    assert Word("room");
    assert CustomChatsOf(TwoUsers(Member), 1) == {};
  }

  lemma SecondAdded(env: Env, s: Store)
    requires s.users == TwoUsers(Member).users && 1 in s.chats && s.chats[1].kind.Custom?
    requires IsOwner(s, 1, 1) && (1, 2) !in s.members
    ensures Apply(env, s, AddTo(1, 2, 1)) == s.(members := s.members[(1, 2) := Plain])
  {
  }

  /** A message under the client id "x". */
  function Sending(body: string): Draft { Draft(body, Some("x"), []) }

  lemma FirstPosted(env: Env, s: Store)
    requires s.users == TwoUsers(Member).users && s.messages == map[] && s.nextMessage == 1
    requires 1 in s.chats && (1, 1) in s.members
    ensures var t := Apply(env, s, SendTo(1, 1, Sending("first"), 0));
            && t.messages == map[1 := Message(1, 1, "first", Some("x"), 0)]
            && t.users == s.users && t.members == s.members && 1 in t.chats
  {
    assert Word("first") && Word("x");
    assert Distinct([]) == [];
  }

  lemma SecondAnswered(env: Env, s: Store)
    requires s.users == TwoUsers(Member).users && 1 in s.chats && (1, 2) in s.members
    requires s.messages == map[1 := Message(1, 1, "first", Some("x"), 0)]
    ensures var r := Send(env, s, 1, 2, Sending("second"), 0);
            r.store == s && r.result.Ok? && r.result.value.id == 1 && r.result.value.message == s.messages[1]
  {
    assert Word("second") && Word("x");
    assert Distinct([]) == [];
    assert Taken(s, 1, Some("x"), 1);
  }

  /** A lost message, on a new server: the first user makes a room and adds the second, and both send
      under the same client id. The second send succeeds, stores nothing, and shows the first's message. */
  lemma SecondMessageLost(env: Env)
    ensures var s := Run(env, TwoUsers(Member), [ROOM, AddTo(1, 2, 1), SendTo(1, 1, Sending("first"), 0)]);
            var r := Send(env, s, 1, 2, Sending("second"), 0);
            r.store == s && r.result.Ok? && r.result.value.message == Message(1, 1, "first", Some("x"), 0)
  {
    var s1 := Apply(env, TwoUsers(Member), ROOM);
    RunOfThree(env, TwoUsers(Member), ROOM, AddTo(1, 2, 1), SendTo(1, 1, Sending("first"), 0));
    SharedRoomMade(env);
    SecondAdded(env, s1);
    var s2 := Apply(env, s1, AddTo(1, 2, 1));
    FirstPosted(env, s2);
    SecondAnswered(env, Apply(env, s2, SendTo(1, 1, Sending("first"), 0)));
  }

  // ---------------------------------------------------------------- the limit on custom chats

  /** A user the limit is meant for: neither administrator nor moderator. */
  predicate Ordinary(s: Store, user: int) {
    user in s.users ==> !s.users[user].role.Admin? && !s.users[user].role.Moderator?
  }

  lemma SmallerSet(a: set<int>, b: set<int>)
    requires a <= b
    ensures |a| <= |b|
  {
    assert b == a + (b - a);
  }

  lemma AddedChat(s: Store, s': Store, chat: Chat, user: int)
    requires StoreOk(s) && s'.chats == s.chats[s.nextChat := chat]
    ensures CustomChatsOf(s', user)
         == CustomChatsOf(s, user) + if chat.kind.Custom? && chat.owner == Some(user) then {s.nextChat} else {}
    ensures s.nextChat !in CustomChatsOf(s, user)
  {
  }

  /** Calls that create no chat leave no user with more of them. */
  lemma OthersAddNoChat(env: Env, s: Store, op: Op, user: int)
    requires StoreOk(s) && !op.NewCustom? && !op.Dm? && !op.NewCommon?
    ensures CustomChatsOf(Apply(env, s, op), user) <= CustomChatsOf(s, user)
  {
  }

  /** When a direct message makes a room: between two different active users who share none yet. */
  ghost predicate NeedsRoom(s: Store, user: int, target: int) {
    && user != target && Inactive(s, user).None? && Inactive(s, target).None?
    && forall c :: !Shared(s, c, user, target)
  }

  lemma DmMakesRoomIff(s: Store, user: int, target: int, title: string, now: int)
    requires StoreOk(s)
    ensures DirectMessage(s, user, target, title, now).store != s <==> NeedsRoom(s, user, target)
  {
    FirstSharedIsFirst(s, user, target, 1);
  }

  /** The limit is checked where a custom chat is created, but not where a direct message creates one.
      So a call takes an ordinary user above the limit exactly when, at the limit, they open a direct
      message that needs a room. */
  lemma LimitExceededIff(env: Env, s: Store, op: Op, user: int)
    requires StoreOk(s) && Ordinary(s, user) && |CustomChatsOf(s, user)| <= MAX_CUSTOM_CHATS
    ensures |CustomChatsOf(Apply(env, s, op), user)| > MAX_CUSTOM_CHATS
       <==> op.Dm? && op.user == user && |CustomChatsOf(s, user)| == MAX_CUSTOM_CHATS && NeedsRoom(s, user, op.target)
  {
    var s' := Apply(env, s, op);
    if op.Dm? { DmMakesRoomIff(s, op.user, op.target, op.title, op.now); }
    if s' != s && (op.NewCustom? || op.Dm? || op.NewCommon?) {
      AddedChat(s, s', s'.chats[s.nextChat], user);
    } else if s' != s {
      OthersAddNoChat(env, s, op, user);
      SmallerSet(CustomChatsOf(s', user), CustomChatsOf(s, user));
    }
  }

  /** Making this user an administrator or moderator. */
  predicate Promotes(op: Op, user: int) {
    op.SetUser? && op.id == user && (op.record.role.Admin? || op.record.role.Moderator?)
  }

  lemma StaysOrdinary(env: Env, s: Store, op: Op, user: int)
    requires Ordinary(s, user) && !Promotes(op, user)
    ensures Ordinary(Apply(env, s, op), user)
  {
  }

  /** Over any run in which an ordinary user is not promoted and opens no direct message, they never own
      more custom chats than the limit. */
  lemma {:induction false} LimitHolds(env: Env, s: Store, ops: seq<Op>, user: int)
    requires StoreOk(s) && Ordinary(s, user) && |CustomChatsOf(s, user)| <= MAX_CUSTOM_CHATS
    requires forall i :: 0 <= i < |ops| ==> !(ops[i].Dm? && ops[i].user == user) && !Promotes(ops[i], user)
    ensures Ordinary(Run(env, s, ops), user) && |CustomChatsOf(Run(env, s, ops), user)| <= MAX_CUSTOM_CHATS
  {
    if ops != [] {
      var before, op := Run(env, s, ops[..|ops| - 1]), ops[|ops| - 1];
      LimitHolds(env, s, ops[..|ops| - 1], user);
      RunKeeps(env, s, ops[..|ops| - 1]);
      StaysOrdinary(env, before, op, user);
      LimitExceededIff(env, before, op, user);
    }
  }

  /** A server with two users, the first of them in some role. */
  function TwoUsers(role: Role): Store { NewServer(map[1 := User(role, Active), 2 := User(Member, Active)]) }

  const ROOM := NewCustom(1, "room", false, None, "", 0)

  /** The first user makes this many rooms. */
  function Rooms(count: nat): seq<Op> { seq(count, _ => ROOM) }

  /** What holds while the first user makes rooms. */
  ghost predicate Making(s: Store, role: Role, count: nat) {
    && StoreOk(s) && s.users == TwoUsers(role).users && |CustomChatsOf(s, 1)| == count
    && forall c :: (c, 2) !in s.members
  }

  lemma OneMore(env: Env, s: Store, role: Role, count: nat)
    requires Making(s, role, count) && (role.Moderator? || (role.Member? && count < MAX_CUSTOM_CHATS))
    ensures Making(Apply(env, s, ROOM), role, count + 1)
  {
    var made := ROOM;
    var s' := Apply(env, s, made);
    ApplyKeeps(env, s, made);
    assert Word("room") && CreationRefusal(s, 1).None?;
    AddedChat(s, s', s'.chats[s.nextChat], 1);
  }

  lemma {:induction false} RoomsMade(env: Env, role: Role, count: nat)
    requires role.Moderator? || (role.Member? && count <= MAX_CUSTOM_CHATS)
    ensures Making(Run(env, TwoUsers(role), Rooms(count)), role, count)
  {
    if count == 0 {
      StartsOk(TwoUsers(role).users, map[]);
      assert CustomChatsOf(TwoUsers(role), 1) == {};
    } else {
      RoomsMade(env, role, count - 1);
      OneMore(env, Run(env, TwoUsers(role), Rooms(count - 1)), role, count - 1);
      NextRun(env, TwoUsers(role), Rooms(count - 1), ROOM);
      assert Rooms(count - 1) + [ROOM] == Rooms(count);
    }
  }

  /** Five rooms and then a direct message: an ordinary user of a new server with six custom chats. */
  lemma DmPassesLimit(env: Env)
    ensures |CustomChatsOf(Run(env, TwoUsers(Member), Rooms(5) + [Dm(1, 2, "a & b", 0)]), 1)| == 6
  {
    var s, dm := Run(env, TwoUsers(Member), Rooms(5)), Dm(1, 2, "a & b", 0);
    RoomsMade(env, Member, 5);
    NextRun(env, TwoUsers(Member), Rooms(5), dm);
    assert NeedsRoom(s, 1, 2);
    DmMakesRoomIff(s, 1, 2, "a & b", 0);
    var s' := Apply(env, s, dm);
    AddedChat(s, s', s'.chats[s.nextChat], 1);
  }

  lemma RoleKeepsRooms(env: Env, s: Store, user: int, record: User)
    ensures CustomChatsOf(Apply(env, s, SetUser(user, record)), user) == CustomChatsOf(s, user)
    ensures Apply(env, s, SetUser(user, record)).users == s.users[user := record]
  {
  }

  /** A moderator may own any number of rooms, and keeps them all when made an ordinary user. */
  lemma DemotionKeepsRooms(env: Env, count: nat)
    ensures var s := Run(env, TwoUsers(Moderator), Rooms(count) + [SetUser(1, User(Member, Active))]);
            Ordinary(s, 1) && |CustomChatsOf(s, 1)| == count
  {
    RoomsMade(env, Moderator, count);
    NextRun(env, TwoUsers(Moderator), Rooms(count), SetUser(1, User(Member, Active)));
    RoleKeepsRooms(env, Run(env, TwoUsers(Moderator), Rooms(count)), 1, User(Member, Active));
  }
}
