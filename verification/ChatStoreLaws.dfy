/** What the chat tables keep over whole runs of service calls. */
module ChatStoreLaws {
  import opened Prelude
  import opened Users
  import opened Ordering
  import opened Attachments
  import opened ChatStore

  // ---------------------------------------------------------------- the invariant

  /** A room code implies the private flag, and common chats are never private. */
  ghost predicate FlagsOk(c: Chat) {
    (c.codeHash.Some? ==> c.isPrivate) && (c.kind.Common? ==> !c.isPrivate)
  }

  ghost predicate ChatsOk(s: Store) {
    s.nextChat >= 1 && forall c :: c in s.chats ==> 1 <= c < s.nextChat && FlagsOk(s.chats[c])
  }

  /** Members and messages refer to chats that exist. */
  ghost predicate MembersOk(s: Store) { forall k :: k in s.members ==> k.0 in s.chats }

  ghost predicate MessagesOk(s: Store) {
    forall m :: m in s.messages ==> m < s.nextMessage && s.messages[m].chat in s.chats
  }

  predicate SameClientId(m: Message, n: Message) {
    m.clientId.Some? && m.chat == n.chat && m.clientId == n.clientId
  }

  /** At most one row per chat and client message id. */
  ghost predicate ClientIdsUnique(s: Store) {
    forall m, n :: m in s.messages && n in s.messages && SameClientId(s.messages[m], s.messages[n]) ==> m == n
  }

  ghost predicate LinksOk(s: Store) {
    PrimaryKey(s.links) && forall l :: l in s.links ==> l.message in s.messages && l.attachment in s.media
  }

  ghost predicate StoreOk(s: Store) {
    ChatsOk(s) && MembersOk(s) && MessagesOk(s) && ClientIdsUnique(s) && LinksOk(s)
  }

  /** The send as a function of the tables. */
  ghost function Send(env: Env, s: Store, chat: int, author: int, d: Draft, now: int): (r: Reply<Shown>)
    ensures SendOutcome(env, s, chat, author, d, now, r.store, r.result)
  {
    var refusal, bad := SendRefusal(env, s, chat, author, d),
      FirstBadAttachment(s.media, Distinct(d.attachments), author);
    if refusal.Some? then Reply(s, Err(refusal.value))
    else if exists id :: Taken(s, chat, ClientId(env, d), id) then
      var id :| Taken(s, chat, ClientId(env, d), id);
      Reply(s, Ok(Shown(id, s.messages[id], Read(s.links, s.media, id))))
    else if bad.Some? then Reply(s, Err(bad.value))
    else
      var s' := Posted(env, s, chat, author, d, now);
      Reply(s', Ok(Shown(s.nextMessage, s'.messages[s.nextMessage], Read(s'.links, s'.media, s.nextMessage))))
  }

  datatype Op =
    | SendTo(chat: int, author: int, draft: Draft, now: int)
    | NewCommon(actor: int, title: string, now: int)
    | NewCustom(user: int, title: string, isPrivate: bool, code: Option<string>, salt: string, now: int)
    | Config(chat: int, actor: int, newTitle: Option<string>, code: Option<string>, private: Option<bool>,
             salt: string, now: int)
    | JoinChat(chat: int, user: int, code: Option<string>)
    | AddTo(chat: int, target: int, actor: int)
    | Dm(user: int, target: int, title: string, now: int)
    | RemoveMessage(chat: int, message: int, remover: Option<int>)
    | RemoveChat(chat: int)
    | Clear(chat: int)
    | ClearBetween(chat: int, from: int, to: int)
    | RemoveAllChats
    | ResetAll(held: set<int>)
    // an account is registered, or its role or status is changed, by another service
    | SetUser(id: int, record: User)
    // a file is uploaded, under a new id
    | Upload(attachment: int, uploader: int)

  predicate Deletes(op: Op) {
    op.RemoveMessage? || op.RemoveChat? || op.Clear? || op.ClearBetween? || op.RemoveAllChats? || op.ResetAll?
  }

  ghost function Apply(env: Env, s: Store, op: Op): Store {
    match op
    case SendTo(chat, author, d, now) => Send(env, s, chat, author, d, now).store
    case NewCommon(actor, title, now) => CreateCommon(env, s, actor, title, now).store
    case NewCustom(user, title, isPrivate, code, salt, now) =>
      CreateCustom(env, s, user, title, isPrivate, code, salt, now).store
    case Config(chat, actor, title, code, private, salt, now) =>
      Configure(env, s, chat, actor, title, code, private, salt, now).store
    case JoinChat(chat, user, code) => Join(env, s, chat, user, code).store
    case AddTo(chat, target, actor) => AddMember(s, chat, target, actor).store
    case Dm(user, target, title, now) => DirectMessage(s, user, target, title, now).store
    case RemoveMessage(chat, message, actor) => DeleteMessage(s, chat, message, actor).store
    case RemoveChat(chat) => DeleteChat(s, chat)
    case Clear(chat) => WithoutMessages(s, MessagesOf(s, chat))
    case ClearBetween(chat, from, to) => ClearRange(s, chat, from, to)
    case RemoveAllChats => DeleteAllChats(s)
    case ResetAll(held) => FullReset(s, held).store
    case SetUser(id, record) => s.(users := s.users[id := record])
    case Upload(attachment, uploader) =>
      if attachment in s.media || Inactive(s, uploader).Some? then s
      else s.(media := s.media[attachment := uploader])
  }

  ghost function Run(env: Env, s: Store, ops: seq<Op>): Store {
    if ops == [] then s else Apply(env, Run(env, s, ops[..|ops| - 1]), ops[|ops| - 1])
  }

  lemma {:induction false} NoBadAttachment(media: map<int, int>, ids: seq<int>, actor: int)
    requires FirstBadAttachment(media, ids, actor).None?
    ensures forall i :: 0 <= i < |ids| ==> ids[i] in media && media[ids[i]] == actor
  {
    if ids != [] { NoBadAttachment(media, ids[1..], actor); }
  }

  lemma PostKeeps(env: Env, s: Store, chat: int, author: int, d: Draft, now: int)
    requires StoreOk(s) && chat in s.chats && FirstBadAttachment(s.media, Distinct(d.attachments), author).None?
    requires !exists id :: Taken(s, chat, ClientId(env, d), id)
    ensures var s' := Posted(env, s, chat, author, d, now);
            && StoreOk(s') && Read(s'.links, s'.media, s.nextMessage) == Distinct(d.attachments)
            && forall m :: m != s.nextMessage ==> Read(s'.links, s'.media, m) == Read(s.links, s.media, m)
  {
    var s', ids := Posted(env, s, chat, author, d, now), Distinct(d.attachments);
    DistinctKeepsFirstOccurrences(d.attachments);
    NoBadAttachment(s.media, ids, author);
    LinkedReadsBack(s.links, s.media, s.nextMessage, ids);
    forall m | m in s.messages && s.messages[m].chat == chat && s.messages[m].clientId.Some?
      ensures s.messages[m].clientId != ClientId(env, d)
    {
      assert !Taken(s, chat, ClientId(env, d), m);
    }
    assert ClientIdsUnique(s');
    forall l | l in s'.links ensures l.message in s'.messages && l.attachment in s'.media {
      if l !in s.links { assert l in NewLinks(s.nextMessage, ids); }
    }
  }

  lemma SendKeeps(env: Env, s: Store, chat: int, author: int, d: Draft, now: int)
    requires StoreOk(s)
    ensures StoreOk(Send(env, s, chat, author, d, now).store)
  {
    if SendRefusal(env, s, chat, author, d).None? && FirstBadAttachment(s.media, Distinct(d.attachments), author).None?
       && !exists id :: Taken(s, chat, ClientId(env, d), id) {
      PostKeeps(env, s, chat, author, d, now);
    }
  }

  lemma RemovalKeeps(s: Store, gone: set<int>)
    requires StoreOk(s)
    ensures StoreOk(WithoutMessages(s, gone))
  {
    var s' := WithoutMessages(s, gone);
    FilterMembers(KeptWithout(gone), s.links);
    assert PrimaryKey(s'.links) by {
      assert DistinctKeys((l: Link) => Key(l.message, l.attachment, 0), s.links);
      FilterDistinct((l: Link) => Key(l.message, l.attachment, 0), KeptWithout(gone), s.links);
      forall i, j | 0 <= i < j < |s'.links|
        ensures s'.links[i].message != s'.links[j].message || s'.links[i].attachment != s'.links[j].attachment
      {
        assert ((l: Link) => Key(l.message, l.attachment, 0))(s'.links[i])
          != ((l: Link) => Key(l.message, l.attachment, 0))(s'.links[j]);
      }
    }
  }

  lemma AddedKeeps(s: Store, chat: Chat, members: map<(int, int), MemberRole>)
    requires StoreOk(s) && FlagsOk(chat) && forall k :: k in members ==> k in s.members || k.0 == s.nextChat
    ensures StoreOk(Added(s, chat).(members := members))
  {
  }

  lemma CreationKeeps(env: Env, s: Store, op: Op)
    requires StoreOk(s) && (op.NewCommon? || op.NewCustom? || op.Dm?)
    ensures StoreOk(Apply(env, s, op))
  {
    var s' := Apply(env, s, op);
    if s' != s {
      assert s' == Added(s, s'.chats[s.nextChat]).(members := s'.members);
      AddedKeeps(s, s'.chats[s.nextChat], s'.members);
    }
  }

  lemma MembershipKeeps(env: Env, s: Store, op: Op)
    requires StoreOk(s) && (op.Config? || op.JoinChat? || op.AddTo?)
    ensures StoreOk(Apply(env, s, op))
  {
  }

  lemma WipeKeeps(env: Env, s: Store, op: Op)
    requires StoreOk(s) && (op.RemoveAllChats? || op.ResetAll?)
    ensures StoreOk(Apply(env, s, op))
  {
  }

  lemma DeleteChatKeeps(s: Store, chat: int)
    requires StoreOk(s)
    ensures StoreOk(DeleteChat(s, chat))
  {
    RemovalKeeps(s, MessagesOf(s, chat));
  }

  /** Every service call keeps the whole invariant, whether it succeeds or raises. */
  lemma ApplyKeeps(env: Env, s: Store, op: Op)
    requires StoreOk(s)
    ensures StoreOk(Apply(env, s, op))
  {
    match op
    case SendTo(chat, author, d, now) => SendKeeps(env, s, chat, author, d, now);
    case RemoveMessage(chat, message, actor) => RemovalKeeps(s, {message});
    case RemoveChat(chat) => DeleteChatKeeps(s, chat);
    case Clear(chat) => RemovalKeeps(s, MessagesOf(s, chat));
    case ClearBetween(chat, from, to) => RemovalKeeps(s, InRange(s, chat, from, to));
    case NewCommon(_, _, _) => CreationKeeps(env, s, op);
    case NewCustom(_, _, _, _, _, _) => CreationKeeps(env, s, op);
    case Dm(_, _, _, _) => CreationKeeps(env, s, op);
    case Config(_, _, _, _, _, _, _) => MembershipKeeps(env, s, op);
    case JoinChat(_, _, _) => MembershipKeeps(env, s, op);
    case AddTo(_, _, _) => MembershipKeeps(env, s, op);
    case RemoveAllChats => WipeKeeps(env, s, op);
    case ResetAll(_) => WipeKeeps(env, s, op);
    case SetUser(_, _) =>
    case Upload(_, _) =>
  }

  /** A new database satisfies the invariant, so by the next lemma every reachable one does. */
  lemma StartsOk(users: map<int, User>, media: map<int, int>)
    ensures StoreOk(Store(users, map[], map[], map[], [], media, 1, 1))
  {
  }

  lemma {:induction false} RunKeeps(env: Env, s: Store, ops: seq<Op>)
    requires StoreOk(s)
    ensures StoreOk(Run(env, s, ops))
  {
    if ops != [] {
      RunKeeps(env, s, ops[..|ops| - 1]);
      ApplyKeeps(env, Run(env, s, ops[..|ops| - 1]), ops[|ops| - 1]);
    }
  }

  // ---------------------------------------------------------------- sending

  /** A send that raises leaves every table, and the chat's timestamp, as it was; a repeat does too. */
  lemma FailedSendChangesNothing(env: Env, s: Store, chat: int, author: int, d: Draft, now: int)
    ensures var r := Send(env, s, chat, author, d, now);
            && (r.result.Err? ==> r.store == s)
            && (r.store != s ==> r.result.Ok? && r.result.value.id == s.nextMessage)
            && (r.store != s ==> r.store.nextMessage == s.nextMessage + 1)
  {
  }

  /** After a new message: reading it shows the positive requested ids, each once, in order of first
      occurrence; and every other message reads as before. */
  lemma SendReadsBack(env: Env, s: Store, chat: int, author: int, d: Draft, now: int, m: int)
    requires StoreOk(s) && Send(env, s, chat, author, d, now).store != s
    ensures var r := Send(env, s, chat, author, d, now);
            && r.result.value.attachments == Distinct(d.attachments)
            && Read(r.store.links, r.store.media, m)
              == (if m == s.nextMessage then Distinct(d.attachments) else Read(s.links, s.media, m))
            && (forall x :: x in r.result.value.attachments <==> x in d.attachments && x > 0)
            && |r.result.value.attachments| <= MAX_ATTACHMENTS
  {
    PostKeeps(env, s, chat, author, d, now);
    DistinctKeepsFirstOccurrences(d.attachments);
  }

  /** The ids returned by the successful sends of a run that carry this chat and client id. */
  ghost function SentIds(env: Env, s: Store, ops: seq<Op>, chat: int, clientId: string): seq<int> {
    if ops == [] then [] else
      var s0, op := Run(env, s, ops[..|ops| - 1]), ops[|ops| - 1];
      SentIds(env, s, ops[..|ops| - 1], chat, clientId)
      + if op.SendTo? && op.chat == chat && ClientId(env, op.draft) == Some(clientId)
           && Send(env, s0, chat, op.author, op.draft, op.now).result.Ok?
        then [Send(env, s0, chat, op.author, op.draft, op.now).result.value.id] else []
  }

  /** The messages a call removes. */
  function Targets(s: Store, op: Op): set<int> {
    match op
    case RemoveMessage(chat, message, remover) =>
      if DeleteMessage(s, chat, message, remover).result.Ok? then {message} else {}
    case RemoveChat(chat) => MessagesOf(s, chat)
    case Clear(chat) => MessagesOf(s, chat)
    case ClearBetween(chat, from, to) => InRange(s, chat, from, to)
    case RemoveAllChats => s.messages.Keys
    case ResetAll(held) => if FullReset(s, held).result.Ok? then s.messages.Keys else {}
    case _ => {}
  }

  /** The call does not remove the message sent under this client id, if there is one. */
  ghost predicate Spares(s: Store, op: Op, chat: int, clientId: string) {
    forall id :: id in Targets(s, op) ==> !Taken(s, chat, Some(clientId), id)
  }

  lemma StepKeepsTaken(env: Env, s: Store, op: Op, chat: int, clientId: string, id: int)
    requires StoreOk(s) && Spares(s, op, chat, clientId) && Taken(s, chat, Some(clientId), id)
    ensures Taken(Apply(env, s, op), chat, Some(clientId), id)
  {
    assert id !in Targets(s, op);
    if Deletes(op) { DeletionRemovesTargets(env, s, op); }
  }

  lemma DeletionRemovesTargets(env: Env, s: Store, op: Op)
    requires Deletes(op)
    ensures Apply(env, s, op).messages == s.messages - Targets(s, op)
  {
  }

  lemma SendTakes(env: Env, s: Store, chat: int, author: int, d: Draft, now: int)
    requires StoreOk(s) && ClientId(env, d).Some? && Send(env, s, chat, author, d, now).result.Ok?
    ensures var r := Send(env, s, chat, author, d, now);
            && Taken(r.store, chat, ClientId(env, d), r.result.value.id)
            && forall id :: Taken(s, chat, ClientId(env, d), id) ==> r.result.value.id == id
  {
  }

  /** Retries are safe: in any run in which their message is not removed, whatever else is, all
      successful sends with the same chat and client id return the same message, and the table ends
      with exactly that one row for them. */
  lemma {:induction false} RetriesAreSafe(env: Env, s: Store, ops: seq<Op>, chat: int, clientId: string)
    requires StoreOk(s) && forall i :: 0 <= i < |ops| ==> Spares(Run(env, s, ops[..i]), ops[i], chat, clientId)
    ensures var ids, s' := SentIds(env, s, ops, chat, clientId), Run(env, s, ops);
            && (forall i :: 0 <= i < |ids| ==> ids[i] == ids[0])
            && (ids != [] ==> Taken(s', chat, Some(clientId), ids[0]))
            && (ids != [] ==> forall id :: Taken(s', chat, Some(clientId), id) ==> id == ids[0])
  {
    if ops != [] {
      var init, op := ops[..|ops| - 1], ops[|ops| - 1];
      assert forall i :: 0 <= i < |init| ==> init[..i] == ops[..i] && init[i] == ops[i];
      RetriesAreSafe(env, s, init, chat, clientId);
      RunKeeps(env, s, init);
      RunKeeps(env, s, ops);
      var before, s0 := SentIds(env, s, init, chat, clientId), Run(env, s, init);
      if before != [] {
        StepKeepsTaken(env, s0, op, chat, clientId, before[0]);
      }
      if op.SendTo? && op.chat == chat && ClientId(env, op.draft) == Some(clientId)
         && Send(env, s0, chat, op.author, op.draft, op.now).result.Ok? {
        SendTakes(env, s0, chat, op.author, op.draft, op.now);
      }
      if SentIds(env, s, ops, chat, clientId) != [] {
        OnlyOneTaken(Run(env, s, ops), chat, clientId, SentIds(env, s, ops, chat, clientId)[0]);
      }
    }
  }

  lemma OnlyOneTaken(s: Store, chat: int, clientId: string, id: int)
    requires ClientIdsUnique(s) && Taken(s, chat, Some(clientId), id)
    ensures forall other :: Taken(s, chat, Some(clientId), other) ==> other == id
  {
    forall other | Taken(s, chat, Some(clientId), other) ensures other == id {
      assert SameClientId(s.messages[other], s.messages[id]);
    }
  }

  /** A repeat is answered with the stored message whoever wrote it: the client id is the chat's, not
      the author's. So a successful send answers with a message of its author exactly when no one else
      has sent under that client id there. */
  lemma AnswersOwnMessageIff(env: Env, s: Store, chat: int, author: int, d: Draft, now: int)
    requires StoreOk(s) && Send(env, s, chat, author, d, now).result.Ok?
    ensures Send(env, s, chat, author, d, now).result.value.message.author == author
       <==> forall id :: Taken(s, chat, ClientId(env, d), id) ==> s.messages[id].author == author
  {
  }

  // ---------------------------------------------------------------- owners

  /** The chat has exactly one owner row, the one its own record names. */
  ghost predicate OwnedProperly(s: Store, chat: int) {
    chat in s.chats
    ==> s.chats[chat].kind.Custom? && s.chats[chat].owner.Some?
        && forall u :: IsOwner(s, chat, u) <==> s.chats[chat].owner == Some(u)
  }

  ghost predicate RecordKept(s: Store, s': Store, chat: int) {
    && chat < s'.nextChat
    && (chat in s'.chats ==> chat in s.chats && s'.chats[chat].owner == s.chats[chat].owner)
    && (chat in s'.chats ==> s'.chats[chat].kind == s.chats[chat].kind)
  }

  lemma DeletionKeepsRecord(env: Env, s: Store, op: Op, chat: int)
    requires Deletes(op) && chat < s.nextChat
    ensures RecordKept(s, Apply(env, s, op), chat)
  {
  }

  /** No call changes which kind of chat this is, or whose. */
  lemma RecordStays(env: Env, s: Store, op: Op, chat: int)
    requires StoreOk(s) && chat < s.nextChat
    ensures RecordKept(s, Apply(env, s, op), chat)
  {
    if Deletes(op) { DeletionKeepsRecord(env, s, op, chat); }
  }

  lemma DeletionKeepsOwnerRow(env: Env, s: Store, op: Op, chat: int, user: int)
    requires Deletes(op) && chat in s.chats && s.chats[chat].kind.Custom? && chat in Apply(env, s, op).chats
    ensures IsOwner(Apply(env, s, op), chat, user) <==> IsOwner(s, chat, user)
  {
  }

  lemma OwnerRowStays(env: Env, s: Store, op: Op, chat: int, user: int)
    requires StoreOk(s) && chat < s.nextChat && chat in Apply(env, s, op).chats
    requires chat in s.chats && s.chats[chat].kind.Custom?
    ensures IsOwner(Apply(env, s, op), chat, user) <==> IsOwner(s, chat, user)
  {
    if Deletes(op) { DeletionKeepsOwnerRow(env, s, op, chat, user); }
  }

  lemma StepKeepsOwner(env: Env, s: Store, op: Op, chat: int)
    requires StoreOk(s) && OwnedProperly(s, chat) && chat < s.nextChat
    ensures OwnedProperly(Apply(env, s, op), chat) && chat < Apply(env, s, op).nextChat
  {
    var s' := Apply(env, s, op);
    RecordStays(env, s, op, chat);
    if chat in s'.chats {
      forall u ensures IsOwner(s', chat, u) <==> IsOwner(s, chat, u) { OwnerRowStays(env, s, op, chat, u); }
    }
  }

  /** A chat made by CreateCustom keeps exactly one owner row, matching its owner field, for as long
      as it exists, whatever else is done to the tables. */
  lemma {:induction false} CreatedChatKeepsOwner(env: Env, s: Store, create: Op, ops: seq<Op>)
    requires StoreOk(s) && create.NewCustom?
    requires CreateCustom(env, s, create.user, create.title, create.isPrivate, create.code, create.salt,
                          create.now).result.Ok?
    ensures OwnedProperly(Run(env, Apply(env, s, create), ops), s.nextChat)
         && s.nextChat < Run(env, Apply(env, s, create), ops).nextChat
  {
    var s1 := Apply(env, s, create);
    if ops == [] {
      assert forall u :: (s.nextChat, u) !in s.members;
    } else {
      var init := ops[..|ops| - 1];
      CreatedChatKeepsOwner(env, s, create, init);
      ApplyKeeps(env, s, create);
      RunKeeps(env, s1, init);
      StepKeepsOwner(env, Run(env, s1, init), ops[|ops| - 1], s.nextChat);
    }
  }
}
