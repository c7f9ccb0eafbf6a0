/** Who may change what in the chat tables: for every table, exactly which calls put a row in, change it
    or take it out, told on the tables and the call alone; and, over whole runs, where rows came from. */
module ChatPowers {
  import opened Prelude
  import opened Users
  import opened Ordering
  import opened Attachments
  import opened ChatStore
  import opened ChatStoreLaws

  // ---------------------------------------------------------------- who is who

  predicate Works(s: Store, user: int) { user in s.users && s.users[user].status == Active }

  predicate Rules(s: Store, user: int) { user in s.users && s.users[user].role == Admin }

  predicate Moderates(s: Store, user: int) { user in s.users && s.users[user].role == Moderator }

  predicate Owns(s: Store, chat: int, user: int) { (chat, user) in s.members && s.members[(chat, user)] == Owner }

  /** Who may read and write in a chat: administrators, everybody in a common chat, its owner and its members. */
  predicate Belongs(s: Store, chat: int, user: int) {
    chat in s.chats
    && (Rules(s, user) || s.chats[chat].kind == Common || s.chats[chat].owner == Some(user)
        || (chat, user) in s.members)
  }

  function Trimmed(env: Env, text: Option<string>): Option<string> {
    if text == None || env.strip(text.value) == "" then None else Some(env.strip(text.value))
  }

  predicate FourDigits(env: Env, code: Option<string>) {
    code.Some? && |env.strip(code.value)| == 4 && env.isDigits(env.strip(code.value))
  }

  predicate NoCode(env: Env, code: Option<string>) { code == None || env.strip(code.value) == "" }

  // ---------------------------------------------------------------- messages

  function Asked(d: Draft): set<int> { set x | x in d.attachments && x > 0 }

  /** At most eight attachments, all of them uploaded, and by the author. */
  predicate OwnUploads(s: Store, d: Draft, author: int) {
    forall x :: x in Asked(d) ==> x in s.media && s.media[x] == author
  }

  ghost predicate Used(s: Store, chat: int, clientId: Option<string>) {
    clientId.Some? && exists m :: m in s.messages && s.messages[m].chat == chat && s.messages[m].clientId == clientId
  }

  /** Who may say something in a chat, and what. */
  predicate MaySend(env: Env, s: Store, chat: int, author: int, d: Draft) {
    Works(s, author) && Belongs(s, chat, author)
    && (env.strip(d.body) != "" || d.attachments != []) && |Asked(d)| <= 8
  }

  ghost predicate Posts(env: Env, s: Store, op: Op, message: Message) {
    && op.SendTo? && MaySend(env, s, op.chat, op.author, op.draft) && OwnUploads(s, op.draft, op.author)
    && !Used(s, op.chat, Trimmed(env, op.draft.clientId))
    && message == Message(op.chat, op.author, env.strip(op.draft.body), Trimmed(env, op.draft.clientId), op.now)
  }

  /** The reset goes through: nothing elsewhere holds a user who is no administrator. */
  predicate ResetsAll(s: Store, op: Op) {
    op.ResetAll? && forall u :: u in s.users && s.users[u].role != Admin ==> u !in op.held
  }

  /** The call that takes this message away. */
  predicate Removes(s: Store, op: Op, m: int)
    requires m in s.messages
  {
    var chat, author, at := s.messages[m].chat, s.messages[m].author, s.messages[m].createdAt;
    || (op.RemoveMessage? && op.message == m && op.chat == chat
        && (op.remover == None || op.remover == Some(author) || Rules(s, op.remover.value)
            || Moderates(s, op.remover.value)))
    || (op.RemoveChat? && op.chat == chat)
    || (op.Clear? && op.chat == chat)
    || (op.ClearBetween? && op.chat == chat && op.from <= at <= op.to)
    || op.RemoveAllChats?
    || ResetsAll(s, op)
  }

  lemma AskedOnce(d: Draft)
    ensures (set x | x in Distinct(d.attachments)) == Asked(d) && |Distinct(d.attachments)| == |Asked(d)|
  {
    DistinctKeepsFirstOccurrences(d.attachments);
    DistinctCount(Distinct(d.attachments));
  }

  lemma {:induction false} FirstBadIff(media: map<int, int>, ids: seq<int>, actor: int)
    ensures var bad := FirstBadAttachment(media, ids, actor);
            && (bad.None? <==> forall x :: x in ids ==> x in media && media[x] == actor)
            && (bad == Some(AttachmentNotFound) ==> exists x :: x in ids && x !in media)
            && (bad == Some(ForbiddenAttachment) ==> exists x :: x in ids && x in media && media[x] != actor)
            && (bad.Some? ==> bad.value == AttachmentNotFound || bad.value == ForbiddenAttachment)
  {
    if ids != [] {
      FirstBadIff(media, ids[1..], actor);
      assert ids[0] in ids;
      assert forall x :: x in ids <==> x == ids[0] || x in ids[1..];
    }
  }

  /** A send goes through exactly for those who may send it, with uploads of their own unless it is
      a repeat; otherwise its error says what was wrong. */
  lemma SendSucceedsIff(env: Env, s: Store, chat: int, author: int, d: Draft, now: int)
    ensures var r := Send(env, s, chat, author, d, now).result;
            && (r.Ok? <==> MaySend(env, s, chat, author, d)
                           && (Used(s, chat, Trimmed(env, d.clientId)) || OwnUploads(s, d, author)))
            && (r == Err(InvalidDraft) <==> env.strip(d.body) == "" && d.attachments == [])
            && (r == Err(Forbidden) ==> Works(s, author) && chat in s.chats && !Belongs(s, chat, author))
            && (r == Err(TooManyAttachments) ==> |Asked(d)| > 8)
            && (r == Err(AttachmentNotFound) ==> exists x :: x in Asked(d) && x !in s.media)
            && (r == Err(ForbiddenAttachment) ==> exists x :: x in Asked(d) && x in s.media && s.media[x] != author)
  {
    AskedOnce(d);
    FirstBadIff(s.media, Distinct(d.attachments), author);
    forall x ensures x in Distinct(d.attachments) <==> x in Asked(d) {
      assert x in Asked(d) <==> x in (set y | y in Distinct(d.attachments));
    }
    UsedIsTaken(env, s, chat, d);
  }

  lemma UsedIsTaken(env: Env, s: Store, chat: int, d: Draft)
    ensures Used(s, chat, Trimmed(env, d.clientId)) <==> exists id :: Taken(s, chat, ClientId(env, d), id)
  {
    if Used(s, chat, Trimmed(env, d.clientId)) {
      var m :| m in s.messages && s.messages[m].chat == chat && s.messages[m].clientId == Trimmed(env, d.clientId);
      assert Taken(s, chat, ClientId(env, d), m);
    }
  }

  /** The one new message a call may add. */
  lemma MessagePostedIff(env: Env, s: Store, op: Op, message: Message)
    requires StoreOk(s)
    ensures var s' := Apply(env, s, op);
            && (Posts(env, s, op, message) <==> s.nextMessage in s'.messages && s'.messages[s.nextMessage] == message)
            && (forall m :: m in s'.messages && m != s.nextMessage ==> m in s.messages)
  {
    if op.SendTo? {
      SendSucceedsIff(env, s, op.chat, op.author, op.draft, op.now);
      UsedIsTaken(env, s, op.chat, op.draft);
    }
  }

  /** A message stays as it was sent until a call removes it. */
  lemma MessageRemovedIff(env: Env, s: Store, op: Op, m: int)
    requires StoreOk(s) && m in s.messages
    ensures var s' := Apply(env, s, op);
            && (m !in s'.messages <==> Removes(s, op, m))
            && (m in s'.messages ==> s'.messages[m] == s.messages[m])
  {
    if op.ResetAll? {
      ResetGoesThrough(s, op);
    } else if Deletes(op) {
      DeletionRemovesTargets(env, s, op);
    }
  }

  lemma ResetGoesThrough(s: Store, op: Op)
    requires op.ResetAll?
    ensures ResetsAll(s, op) <==> FullReset(s, op.held).result.Ok?
  {
    var both := Doomed(s) * op.held;
    if u :| u in both {
      assert u in s.users && s.users[u].role != Admin && u in op.held;
    } else {
      forall u | u in s.users && s.users[u].role != Admin ensures u !in op.held {
        assert u in Doomed(s);
        assert u !in both;
      }
    }
  }

  /** Where messages come from: every message in the table at the end of a run that was not there at
      its start was sent, in these words, by a call whose author was active at that moment and belonged
      to the chat. */
  lemma {:induction false} MessagesWereSent(env: Env, s: Store, ops: seq<Op>, m: int)
    requires StoreOk(s) && m !in s.messages && m in Run(env, s, ops).messages
    ensures exists i :: 0 <= i < |ops| && Posts(env, Run(env, s, ops[..i]), ops[i], Run(env, s, ops).messages[m])
  {
    var n := |ops| - 1;
    var t, message := Run(env, s, ops[..n]), Run(env, s, ops).messages[m];
    RunKeeps(env, s, ops[..n]);
    if m in t.messages {
      assert t.messages[m] == message by { MessageRemovedIff(env, t, ops[n], m); }
      MessagesWereSent(env, s, ops[..n], m);
      var i :| 0 <= i < n && Posts(env, Run(env, s, ops[..n][..i]), ops[..n][i], message);
      assert ops[..n][..i] == ops[..i] && ops[..n][i] == ops[i];
      assert Posts(env, Run(env, s, ops[..i]), ops[i], message);
    } else {
      MessagePostedIff(env, t, ops[n], message);
    }
  }

  /** And where they go: a message that is no longer there was removed by a call of the run, by its
      author, by staff, or with its chat. */
  lemma {:induction false} MessagesWereRemoved(env: Env, s: Store, ops: seq<Op>, m: int)
    requires StoreOk(s) && m in s.messages && m !in Run(env, s, ops).messages
    ensures exists i :: 0 <= i < |ops| && m in Run(env, s, ops[..i]).messages
              && Removes(Run(env, s, ops[..i]), ops[i], m)
  {
    var n := |ops| - 1;
    var t := Run(env, s, ops[..n]);
    RunKeeps(env, s, ops[..n]);
    if m in t.messages {
      MessageRemovedIff(env, t, ops[n], m);
    } else {
      MessagesWereRemoved(env, s, ops[..n], m);
      var i :| 0 <= i < n && m in Run(env, s, ops[..n][..i]).messages
               && Removes(Run(env, s, ops[..n][..i]), ops[..n][i], m);
      assert ops[..n][..i] == ops[..i] && ops[..n][i] == ops[i];
    }
  }

  // ---------------------------------------------------------------- links, users and uploads

  /** A message's links stay exactly as long as it does. */
  lemma LinksFollowMessages(env: Env, s: Store, op: Op, l: Link)
    requires StoreOk(s) && l in s.links
    ensures l in Apply(env, s, op).links <==> l.message in Apply(env, s, op).messages
  {
    match op {
      case RemoveMessage(_, message, _) => FilterMembers(KeptWithout({message}), s.links);
      case RemoveChat(chat) => FilterMembers(KeptWithout(MessagesOf(s, chat)), s.links);
      case Clear(chat) => FilterMembers(KeptWithout(MessagesOf(s, chat)), s.links);
      case ClearBetween(chat, from, to) => FilterMembers(KeptWithout(InRange(s, chat, from, to)), s.links);
      case _ =>
    }
  }

  /** Accounts change only by their own service, and go only with a reset, which spares administrators. */
  lemma UsersAfter(env: Env, s: Store, op: Op, u: int)
    ensures var s' := Apply(env, s, op);
            && (u in s'.users <==> (u in s.users && !(ResetsAll(s, op) && s.users[u].role != Admin))
                                   || (op.SetUser? && op.id == u))
            && (u in s'.users ==> s'.users[u] == if op.SetUser? && op.id == u then op.record else s.users[u])
  {
    if op.ResetAll? { ResetGoesThrough(s, op); }
  }

  lemma UploadsAfter(env: Env, s: Store, op: Op, a: int)
    ensures var s' := Apply(env, s, op);
            && (a in s.media ==>
                  (a !in s'.media
                   <==> ResetsAll(s, op) && s.media[a] in s.users && s.users[s.media[a]].role != Admin))
            && (a in s.media && a in s'.media ==> s'.media[a] == s.media[a])
            && (a !in s.media ==> (a in s'.media <==> op.Upload? && op.attachment == a && Works(s, op.uploader)))
            && (a !in s.media && a in s'.media ==> s'.media[a] == op.uploader)
  {
    if op.ResetAll? { ResetGoesThrough(s, op); }
  }

  // ---------------------------------------------------------------- chats

  ghost predicate MayOpen(s: Store, user: int) {
    Works(s, user) && s.users[user].role != Guest
    && (Rules(s, user) || Moderates(s, user)
        || |set c | c in s.chats && s.chats[c].kind == Custom && s.chats[c].owner == Some(user)| < 5)
  }

  /** A private custom room that two users are both members of. */
  ghost predicate ShareRoom(s: Store, a: int, b: int) {
    exists c :: c in s.chats && s.chats[c].kind == Custom && s.chats[c].isPrivate
      && (c, a) in s.members && (c, b) in s.members
  }

  /** The record of the chat that a call opens. */
  ghost predicate Opens(env: Env, s: Store, op: Op, record: Chat) {
    match op
    case NewCommon(actor, title, now) =>
      && Works(s, actor) && Rules(s, actor) && env.strip(title) != ""
      && record == Chat(Common, env.strip(title), Some(actor), false, None, now)
    case NewCustom(user, title, isPrivate, code, salt, now) =>
      && MayOpen(s, user) && env.strip(title) != "" && (NoCode(env, code) || FourDigits(env, code))
      && record == Chat(Custom, env.strip(title), Some(user), isPrivate || !NoCode(env, code),
                        if NoCode(env, code) then None else Some(env.hash(env.strip(code.value), salt)), now)
    case Dm(user, target, title, now) =>
      && user != target && Works(s, user) && Works(s, target) && !ShareRoom(s, user, target)
      && record == Chat(Custom, title, Some(user), true, None, now)
    case _ => false
  }

  predicate Closes(s: Store, op: Op, c: int)
    requires c in s.chats
  {
    || (op.RemoveChat? && op.chat == c)
    || (op.RemoveAllChats? && s.chats[c].kind == Custom)
    || (ResetsAll(s, op) && (s.chats[c].kind == Custom || !s.chats[c].isPrivate))
  }

  lemma NoneShared(s: Store, a: int, b: int)
    requires StoreOk(s)
    ensures ShareRoom(s, a, b) <==> FirstShared(s, a, b, 1).Some?
  {
    NoneSharedFrom(s, a, b, 1);
    if ShareRoom(s, a, b) {
      var c :| c in s.chats && s.chats[c].kind == Custom && s.chats[c].isPrivate
               && (c, a) in s.members && (c, b) in s.members;
      assert 1 <= c < s.nextChat && Shared(s, c, a, b);
    }
  }

  lemma {:induction false} NoneSharedFrom(s: Store, a: int, b: int, from: int)
    ensures FirstShared(s, a, b, from).None? ==> forall c :: from <= c < s.nextChat ==> !Shared(s, c, a, b)
    ensures FirstShared(s, a, b, from).Some? ==> Shared(s, FirstShared(s, a, b, from).value, a, b)
    decreases s.nextChat - from
  {
    if from < s.nextChat && !Shared(s, from, a, b) { NoneSharedFrom(s, a, b, from + 1); }
  }

  lemma OwnChats(s: Store, user: int)
    ensures CustomChatsOf(s, user)
         == set c | c in s.chats && s.chats[c].kind == Custom && s.chats[c].owner == Some(user)
  {
  }

  lemma CustomOpenedIff(env: Env, s: Store, op: Op, record: Chat)
    requires StoreOk(s) && op.NewCustom?
    ensures var s' := Apply(env, s, op);
            && (Opens(env, s, op, record) <==> s.nextChat in s'.chats && s'.chats[s.nextChat] == record)
            && (forall c :: c in s'.chats && c != s.nextChat ==> c in s.chats)
  {
    OwnChats(s, op.user);
  }

  lemma DmOpenedIff(env: Env, s: Store, op: Op, record: Chat)
    requires StoreOk(s) && op.Dm?
    ensures var s' := Apply(env, s, op);
            && (Opens(env, s, op, record) <==> s.nextChat in s'.chats && s'.chats[s.nextChat] == record)
            && (forall c :: c in s'.chats && c != s.nextChat ==> c in s.chats)
  {
    NoneShared(s, op.user, op.target);
  }

  /** Chats come only from those who may open them, with this record, and go only by these calls. */
  lemma ChatOpenedIff(env: Env, s: Store, op: Op, record: Chat)
    requires StoreOk(s)
    ensures var s' := Apply(env, s, op);
            && (Opens(env, s, op, record) <==> s.nextChat in s'.chats && s'.chats[s.nextChat] == record)
            && (forall c :: c in s'.chats && c != s.nextChat ==> c in s.chats)
  {
    match op {
      case NewCustom(_, _, _, _, _, _) => CustomOpenedIff(env, s, op, record);
      case Dm(_, _, _, _) => DmOpenedIff(env, s, op, record);
      case _ =>
    }
  }

  lemma ChatClosedIff(env: Env, s: Store, op: Op, c: int)
    requires StoreOk(s) && c in s.chats
    ensures c !in Apply(env, s, op).chats <==> Closes(s, op, c)
  {
    if op.ResetAll? { ResetGoesThrough(s, op); }
  }

  /** An active administrator, or an active user with the owner's row, may configure a custom chat; a
      code must be empty or four digits. */
  predicate Configures(env: Env, s: Store, op: Op, c: int) {
    && op.Config? && op.chat == c && c in s.chats && s.chats[c].kind == Custom
    && Works(s, op.actor) && (Rules(s, op.actor) || Owns(s, c, op.actor))
    && (op.code.Some? && op.code.value != "" ==> FourDigits(env, op.code))
  }

  /** What configuring leaves: the code is kept, dropped or replaced, and never without the private flag. */
  predicate Configured(env: Env, op: Op, before: Chat, after: Chat)
    requires op.Config?
  {
    && after.kind == before.kind && after.owner == before.owner && after.updatedAt == op.now
    && after.title == (if op.newTitle.Some? then env.strip(op.newTitle.value) else before.title)
    && (op.private == Some(false) ==> !after.isPrivate && after.codeHash == None)
    && (op.private != Some(false) ==>
          && after.codeHash == (if op.code == None then before.codeHash
                                else if op.code == Some("") then None
                                else Some(env.hash(env.strip(op.code.value), op.salt)))
          && (after.isPrivate <==> op.private == Some(true) || before.isPrivate
                                   || (after.codeHash.Some? && after.codeHash.value != "")))
  }

  lemma ChatChangedOnly(env: Env, s: Store, op: Op, c: int)
    requires StoreOk(s) && c in s.chats && c in Apply(env, s, op).chats
    ensures var before, after := s.chats[c], Apply(env, s, op).chats[c];
            if Configures(env, s, op, c) then Configured(env, op, before, after)
            else if op.SendTo? && op.chat == c && s.nextMessage in Apply(env, s, op).messages
            then after == before.(updatedAt := op.now)
            else after == before
  {
  }

  // ---------------------------------------------------------------- members

  /** The call that makes somebody a member of a chat. */
  ghost predicate Enters(env: Env, s: Store, op: Op, chat: int, user: int) {
    match op
    case JoinChat(_, _, code) =>
      && op.chat == chat && op.user == user && chat in s.chats && s.chats[chat].kind == Custom && Works(s, user)
      && (Rules(s, user) || !s.chats[chat].isPrivate || s.chats[chat].codeHash == None
          || s.chats[chat].codeHash.value == ""
          || (FourDigits(env, code) && env.verify(env.strip(code.value), s.chats[chat].codeHash.value)))
    case AddTo(_, target, actor) =>
      && op.chat == chat && target == user && chat in s.chats && s.chats[chat].kind == Custom
      && Works(s, actor) && Works(s, user) && (Rules(s, actor) || Owns(s, chat, actor))
    case NewCustom(_, _, _, _, _, _) =>
      chat == s.nextChat && op.user == user && exists record :: Opens(env, s, op, record)
    case Dm(a, b, _, _) =>
      chat == s.nextChat && (user == a || user == b) && exists record :: Opens(env, s, op, record)
    case _ => false
  }

  /** Nobody becomes a member otherwise; and only who opens a custom chat becomes its owner. */
  lemma MemberEntersIff(env: Env, s: Store, op: Op, chat: int, user: int)
    requires StoreOk(s) && (chat, user) !in s.members
    ensures var s' := Apply(env, s, op);
            && ((chat, user) in s'.members <==> Enters(env, s, op, chat, user))
            && ((chat, user) in s'.members ==> (s'.members[(chat, user)] == Owner <==> op.NewCustom?))
  {
    if op.NewCustom? || op.Dm? { OpeningEnters(env, s, op, chat, user); }
  }

  lemma OpeningEnters(env: Env, s: Store, op: Op, chat: int, user: int)
    requires StoreOk(s) && (chat, user) !in s.members && (op.NewCustom? || op.Dm?)
    ensures (chat, user) in Apply(env, s, op).members <==> Enters(env, s, op, chat, user)
  {
    var s' := Apply(env, s, op);
    if s.nextChat in s'.chats {
      ChatOpenedIff(env, s, op, s'.chats[s.nextChat]);
    } else {
      forall record ensures !Opens(env, s, op, record) { ChatOpenedIff(env, s, op, record); }
    }
  }

  /** Members stay, in their role, until the chat or everything goes. */
  lemma MemberLeavesIff(env: Env, s: Store, op: Op, chat: int, user: int)
    requires StoreOk(s) && (chat, user) in s.members
    ensures var s' := Apply(env, s, op);
            && ((chat, user) !in s'.members
                <==> (op.RemoveChat? && op.chat == chat) || op.RemoveAllChats? || ResetsAll(s, op))
            && ((chat, user) in s'.members ==> s'.members[(chat, user)] == s.members[(chat, user)])
  {
    if op.ResetAll? { ResetGoesThrough(s, op); }
  }

  /** Where chats come from: every chat in the table at the end of a run that was not there at its
      start was opened, under its kind and owner, by somebody who might open it at that moment. */
  lemma {:induction false} ChatsWereOpened(env: Env, s: Store, ops: seq<Op>, c: int)
    requires StoreOk(s) && c !in s.chats && c in Run(env, s, ops).chats
    ensures exists i, record :: 0 <= i < |ops| && Opens(env, Run(env, s, ops[..i]), ops[i], record)
              && record.kind == Run(env, s, ops).chats[c].kind && record.owner == Run(env, s, ops).chats[c].owner
  {
    var n := |ops| - 1;
    var t, chat := Run(env, s, ops[..n]), Run(env, s, ops).chats[c];
    RunKeeps(env, s, ops[..n]);
    if c in t.chats {
      ChatChangedOnly(env, t, ops[n], c);
      ChatsWereOpened(env, s, ops[..n], c);
      var i, record :| 0 <= i < n && Opens(env, Run(env, s, ops[..n][..i]), ops[..n][i], record)
                       && record.kind == t.chats[c].kind && record.owner == t.chats[c].owner;
      assert ops[..n][..i] == ops[..i] && ops[..n][i] == ops[i];
    } else {
      ChatOpenedIff(env, t, ops[n], chat);
    }
  }
}
