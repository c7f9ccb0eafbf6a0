/** The chat tables and the service calls that change them. Every call is one transaction: when it
    raises, the tables are as they were before it. */
module ChatStore {
  import opened Prelude
  import opened Users
  import opened Ordering
  import opened Attachments

  datatype Kind = Common | Custom
  datatype MemberRole = Owner | Plain

  datatype Chat = Chat(kind: Kind, title: string, owner: Option<int>, isPrivate: bool, codeHash: Option<string>,
                       updatedAt: int)

  datatype Message = Message(chat: int, author: int, body: string, clientId: Option<string>, createdAt: int)

  /** The tables; `media` gives the owner of each uploaded attachment. */
  datatype Store = Store(users: map<int, User>, chats: map<int, Chat>, members: map<(int, int), MemberRole>,
                         messages: map<int, Message>, links: seq<Link>, media: map<int, int>,
                         nextChat: int, nextMessage: int)

  datatype Error =
    | UserNotFound | UserInactive | ChatNotFound | InvalidKind | Forbidden | AdminOnly
    | GuestForbidden | LimitReached | InvalidRoomCode | InvalidTarget
    | TooManyAttachments | AttachmentNotFound | ForbiddenAttachment | MessageNotFound
    | IntegrityError | InvalidDraft

  predicate Word(s: string) { s != "" && forall i :: 0 <= i < |s| ==> 'a' <= s[i] <= 'z' }

  /** Text clean-up, which leaves words alone; the digit test; and the salted room-code hash, which is
      never empty and accepts its own code. */
  datatype RawEnv = Env(strip: string -> string, isDigits: string -> bool, hash: (string, string) -> string,
                        verify: (string, string) -> bool)
  ghost predicate ValidEnv(e: RawEnv) {
    && (forall code, salt :: e.hash(code, salt) != "" && e.verify(code, e.hash(code, salt)))
    && (forall s :: Word(s) ==> e.strip(s) == s)
  }
  type Env = e: RawEnv | ValidEnv(e) ghost witness Env(s => s, s => true, (c, s) => "h", (c, h) => true)

  datatype Reply<T> = Reply(store: Store, result: Result<T, Error>)

  const MAX_CUSTOM_CHATS := 5

  function Inactive(s: Store, user: int): Option<Error> {
    if user !in s.users then Some(UserNotFound) else if !s.users[user].status.Active? then Some(UserInactive) else None
  }

  predicate IsAdmin(s: Store, user: int) { user in s.users && s.users[user].role.Admin? }

  predicate IsOwner(s: Store, chat: int, user: int) {
    (chat, user) in s.members && s.members[(chat, user)].Owner?
  }

  predicate CanAccess(s: Store, chat: int, user: int)
    requires chat in s.chats
  {
    IsAdmin(s, user) || s.chats[chat].kind.Common? || s.chats[chat].owner == Some(user) || (chat, user) in s.members
  }

  /** INSERT OR IGNORE. */
  function Joined(members: map<(int, int), MemberRole>, chat: int, user: int, role: MemberRole)
    : map<(int, int), MemberRole>
  {
    if (chat, user) in members then members else members[(chat, user) := role]
  }

  // ---------------------------------------------------------------- sending

  datatype Draft = Draft(body: string, clientId: Option<string>, attachments: seq<int>)

  /** A stored message with its attachments, as the caller sees it. */
  datatype Shown = Shown(id: int, message: Message, attachments: seq<int>)

  function ClientId(env: Env, d: Draft): Option<string> {
    if d.clientId.None? || env.strip(d.clientId.value) == "" then None else Some(env.strip(d.clientId.value))
  }

  /** The row the unique index on (chat_id, client_message_id) would collide with. */
  ghost predicate Taken(s: Store, chat: int, clientId: Option<string>, id: int) {
    id in s.messages && s.messages[id].chat == chat && clientId.Some? && s.messages[id].clientId == clientId
  }

  function FirstBadAttachment(media: map<int, int>, ids: seq<int>, actor: int): Option<Error> {
    if ids == [] then None
    else if ids[0] !in media then Some(AttachmentNotFound)
    else if media[ids[0]] != actor then Some(ForbiddenAttachment)
    else FirstBadAttachment(media, ids[1..], actor)
  }

  /** The draft itself is refused if it has neither text nor attachments. */
  predicate Blank(env: Env, d: Draft) { env.strip(d.body) == "" && d.attachments == [] }

  /** The checks made before the insert, in order. */
  function SendRefusal(env: Env, s: Store, chat: int, author: int, d: Draft): Option<Error> {
    if Blank(env, d) then Some(InvalidDraft)
    else if Inactive(s, author).Some? then Inactive(s, author)
    else if chat !in s.chats then Some(ChatNotFound)
    else if !CanAccess(s, chat, author) then Some(Forbidden)
    else if |Distinct(d.attachments)| > MAX_ATTACHMENTS then Some(TooManyAttachments)
    else None
  }

  function NewMessage(env: Env, chat: int, author: int, d: Draft, now: int): Message {
    Message(chat, author, env.strip(d.body), ClientId(env, d), now)
  }

  /** The tables after a message that is neither refused nor a repeat. */
  function Posted(env: Env, s: Store, chat: int, author: int, d: Draft, now: int): Store
    requires chat in s.chats
  {
    s.(messages := s.messages[s.nextMessage := NewMessage(env, chat, author, d, now)],
       links := s.links + NewLinks(s.nextMessage, Distinct(d.attachments)),
       chats := s.chats[chat := s.chats[chat].(updatedAt := now)],
       nextMessage := s.nextMessage + 1)
  }

  /** What a send may do: refuse, answer a repeat with the stored message, or post. */
  ghost predicate SendOutcome(env: Env, s: Store, chat: int, author: int, d: Draft, now: int, s': Store,
                              r: Result<Shown, Error>) {
    var refusal, bad := SendRefusal(env, s, chat, author, d),
      FirstBadAttachment(s.media, Distinct(d.attachments), author);
    if refusal.Some? then s' == s && r == Err(refusal.value)
    else if exists id :: Taken(s, chat, ClientId(env, d), id) then
      s' == s && r.Ok? && Taken(s, chat, ClientId(env, d), r.value.id)
      && r.value == Shown(r.value.id, s.messages[r.value.id], Read(s.links, s.media, r.value.id))
    else if bad.Some? then s' == s && r == Err(bad.value)
    else s' == Posted(env, s, chat, author, d, now)
         && r == Ok(Shown(s.nextMessage, s'.messages[s.nextMessage], Read(s'.links, s'.media, s.nextMessage)))
  }

  // ---------------------------------------------------------------- chats and members

  /** A room code is absent, or four digits. */
  function NormalizeCode(env: Env, code: Option<string>): Result<Option<string>, Error> {
    if code.None? || env.strip(code.value) == "" then Ok(None)
    else if |env.strip(code.value)| != 4 || !env.isDigits(env.strip(code.value)) then Err(InvalidRoomCode)
    else Ok(Some(env.strip(code.value)))
  }

  function CustomChatsOf(s: Store, user: int): set<int> {
    set c | c in s.chats && s.chats[c].kind.Custom? && s.chats[c].owner == Some(user)
  }

  function CreationRefusal(s: Store, user: int): Option<Error> {
    if Inactive(s, user).Some? then Inactive(s, user)
    else if s.users[user].role.Guest? then Some(GuestForbidden)
    else if s.users[user].role.Admin? || s.users[user].role.Moderator? then None
    else if |CustomChatsOf(s, user)| >= MAX_CUSTOM_CHATS then Some(LimitReached)
    else None
  }

  function Added(s: Store, chat: Chat): Store {
    s.(chats := s.chats[s.nextChat := chat], nextChat := s.nextChat + 1)
  }

  /** A chat's draft is refused if its title is blank, before the service is called. */
  function CreateCommon(env: Env, s: Store, actor: int, title: string, now: int): Reply<int> {
    if env.strip(title) == "" then Reply(s, Err(InvalidDraft))
    else if Inactive(s, actor).Some? then Reply(s, Err(Inactive(s, actor).value))
    else if !IsAdmin(s, actor) then Reply(s, Err(AdminOnly))
    else Reply(Added(s, Chat(Common, env.strip(title), Some(actor), false, None, now)), Ok(s.nextChat))
  }

  function CreateCustom(env: Env, s: Store, user: int, title: string, isPrivate: bool, code: Option<string>,
                        salt: string, now: int): Reply<int> {
    var normalized := NormalizeCode(env, code);
    if env.strip(title) == "" then Reply(s, Err(InvalidDraft))
    else if CreationRefusal(s, user).Some? then Reply(s, Err(CreationRefusal(s, user).value))
    else if normalized.Err? then Reply(s, Err(normalized.error))
    else
      var hash := if normalized.value.Some? then Some(env.hash(normalized.value.value, salt)) else None;
      var s' := Added(s, Chat(Custom, env.strip(title), Some(user), isPrivate || hash.Some?, hash, now));
      Reply(s'.(members := Joined(s.members, s.nextChat, user, Owner)), Ok(s.nextChat))
  }

  function Configure(env: Env, s: Store, chat: int, actor: int, title: Option<string>, code: Option<string>,
                     isPrivate: Option<bool>, salt: string, now: int): Reply<Chat> {
    if Inactive(s, actor).Some? then Reply(s, Err(Inactive(s, actor).value))
    else if chat !in s.chats then Reply(s, Err(ChatNotFound))
    else if s.chats[chat].kind.Common? then Reply(s, Err(InvalidKind))
    else if !IsAdmin(s, actor) && !IsOwner(s, chat, actor) then Reply(s, Err(Forbidden))
    else
      var c, normalized := s.chats[chat], NormalizeCode(env, code);
      if code.Some? && code.value != "" && (normalized.Err? || normalized.value.None?) then
        Reply(s, Err(InvalidRoomCode))
      else
        var hash := if code.None? then c.codeHash
                    else if code.value == "" then None
                    else Some(env.hash(normalized.value.value, salt));
        var private := if isPrivate.Some? then isPrivate.value else c.isPrivate || (hash.Some? && hash.value != "");
        var c' := c.(title := if title.Some? then env.strip(title.value) else c.title,
                     isPrivate := private,
                     codeHash := if isPrivate == Some(false) then None else hash, updatedAt := now);
        Reply(s.(chats := s.chats[chat := c']), Ok(c'))
  }

  function Join(env: Env, s: Store, chat: int, user: int, code: Option<string>): Reply<MemberRole> {
    if Inactive(s, user).Some? then Reply(s, Err(Inactive(s, user).value))
    else if chat !in s.chats then Reply(s, Err(ChatNotFound))
    else if s.chats[chat].kind.Common? then Reply(s, Err(InvalidKind))
    else if (chat, user) in s.members then Reply(s, Ok(s.members[(chat, user)]))
    else
      var c, normalized := s.chats[chat], NormalizeCode(env, code);
      if !IsAdmin(s, user) && c.isPrivate && c.codeHash.Some? && c.codeHash.value != ""
         && (normalized.Err? || normalized.value.None? || !env.verify(normalized.value.value, c.codeHash.value))
      then Reply(s, Err(InvalidRoomCode))
      else Reply(s.(members := Joined(s.members, chat, user, Plain)), Ok(Plain))
  }

  function AddMember(s: Store, chat: int, target: int, actor: int): Reply<MemberRole> {
    if Inactive(s, actor).Some? then Reply(s, Err(Inactive(s, actor).value))
    else if Inactive(s, target).Some? then Reply(s, Err(Inactive(s, target).value))
    else if chat !in s.chats then Reply(s, Err(ChatNotFound))
    else if s.chats[chat].kind.Common? then Reply(s, Err(InvalidKind))
    else if !IsAdmin(s, actor) && !IsOwner(s, chat, actor) then Reply(s, Err(Forbidden))
    else
      var members := Joined(s.members, chat, target, Plain);
      Reply(s.(members := members), Ok(members[(chat, target)]))
  }

  /** A private custom room both users belong to. */
  predicate Shared(s: Store, chat: int, a: int, b: int) {
    chat in s.chats && s.chats[chat].isPrivate && s.chats[chat].kind.Custom? && (chat, a) in s.members
      && (chat, b) in s.members
  }

  /** The first such room, in id order. */
  function FirstShared(s: Store, a: int, b: int, from: int): Option<int>
    decreases s.nextChat - from
  {
    if from >= s.nextChat then None
    else if Shared(s, from, a, b) then Some(from)
    else FirstShared(s, a, b, from + 1)
  }

  function DirectMessage(s: Store, user: int, target: int, title: string, now: int): Reply<int> {
    if user == target then Reply(s, Err(InvalidTarget))
    else if Inactive(s, user).Some? then Reply(s, Err(Inactive(s, user).value))
    else if Inactive(s, target).Some? then Reply(s, Err(Inactive(s, target).value))
    else if FirstShared(s, user, target, 1).Some? then Reply(s, Ok(FirstShared(s, user, target, 1).value))
    else
      var s' := Added(s, Chat(Custom, title, Some(user), true, None, now));
      Reply(s'.(members := s.members[(s.nextChat, user) := Plain][(s.nextChat, target) := Plain]), Ok(s.nextChat))
  }

  // ---------------------------------------------------------------- deleting

  function KeptWithout(gone: set<int>): Link -> bool { (l: Link) => l.message !in gone }

  function WithoutMessages(s: Store, gone: set<int>): Store {
    s.(messages := s.messages - gone, links := Filter(KeptWithout(gone), s.links))
  }

  function MessagesOf(s: Store, chat: int): set<int> { set m | m in s.messages && s.messages[m].chat == chat }

  function DeleteMessage(s: Store, chat: int, message: int, actor: Option<int>): Reply<()> {
    if message !in s.messages || s.messages[message].chat != chat then Reply(s, Err(MessageNotFound))
    else if actor.Some? && s.messages[message].author != actor.value
         && !(actor.value in s.users && (s.users[actor.value].role.Admin? || s.users[actor.value].role.Moderator?))
    then Reply(s, Err(Forbidden))
    else Reply(WithoutMessages(s, {message}), Ok(()))
  }

  function DeleteChat(s: Store, chat: int): Store {
    WithoutMessages(s, MessagesOf(s, chat)).(
      members := map k | k in s.members && k.0 != chat :: s.members[k], chats := s.chats - {chat})
  }

  function InRange(s: Store, chat: int, from: int, to: int): set<int> {
    set m | m in s.messages && s.messages[m].chat == chat && from <= s.messages[m].createdAt <= to
  }

  function ClearRange(s: Store, chat: int, from: int, to: int): Store {
    WithoutMessages(s, InRange(s, chat, from, to))
  }

  function DeleteAllChats(s: Store): Store {
    s.(links := [], messages := map[], members := map[],
       chats := map c | c in s.chats && s.chats[c].kind.Common? :: s.chats[c])
  }

  /** The users the reset deletes. */
  function Doomed(s: Store): set<int> { set u | u in s.users && !s.users[u].role.Admin? }

  /** What the reset leaves when it goes through: the administrators and their uploads. */
  function Wiped(s: Store): Store {
    s.(links := [], messages := map[], members := map[],
       chats := map c | c in s.chats && s.chats[c].isPrivate && s.chats[c].kind.Common? :: s.chats[c],
       users := s.users - Doomed(s), media := map a | a in s.media && s.media[a] !in Doomed(s) :: s.media[a])
  }

  /** `held` are the users that rows of other tables keep from being deleted: an internet grant, a
      paired device, a post, a card. One of them among the doomed undoes the whole reset. */
  function FullReset(s: Store, held: set<int>): Reply<()> {
    if Doomed(s) * held != {} then Reply(s, Err(IntegrityError)) else Reply(Wiped(s), Ok(()))
  }

  class ChatService {
    const env: Env
    var users: map<int, User>
    var chats: map<int, Chat>
    var members: map<(int, int), MemberRole>
    var messages: map<int, Message>
    var links: seq<Link>
    var media: map<int, int>
    var nextChat: int
    var nextMessage: int

    constructor (env: Env, users: map<int, User>, media: map<int, int>)
      ensures this.env == env && View() == Store(users, map[], map[], map[], [], media, 1, 1)
    {
      this.env, this.users, this.media := env, users, media;
      chats, members, messages, links := map[], map[], map[], [];
      nextChat, nextMessage := 1, 1;
    }

    function View(): Store
      reads this
    {
      Store(users, chats, members, messages, links, media, nextChat, nextMessage)
    }

    /** Links the attachments one by one; stops at the first that is missing or someone else's. */
    method AttachMedia(message: int, ids: seq<int>, actor: int) returns (failed: Option<Error>)
      requires forall l :: l in links ==> l.message != message
      requires forall i, j :: 0 <= i < j < |ids| ==> ids[i] != ids[j]
      modifies this`links
      ensures failed == FirstBadAttachment(media, ids, actor)
      ensures failed.None? ==> links == old(links) + NewLinks(message, ids)
    {
      for position := 0 to |ids|
        invariant links == old(links) + NewLinks(message, ids[..position])
        invariant FirstBadAttachment(media, ids, actor) == FirstBadAttachment(media, ids[position..], actor)
      {
        if ids[position] !in media { return Some(AttachmentNotFound); }
        if media[ids[position]] != actor { return Some(ForbiddenAttachment); }
        forall l | l in links ensures !(l.message == message && l.attachment == ids[position]) {
          if l in NewLinks(message, ids[..position]) {
            var k :| 0 <= k < position && NewLinks(message, ids[..position])[k] == l;
          }
        }
        if !exists i :: 0 <= i < |links| && links[i].message == message && links[i].attachment == ids[position] {
          links := links + [Link(message, ids[position], position)];
        }
        assert NewLinks(message, ids[..position + 1])
          == NewLinks(message, ids[..position]) + [Link(message, ids[position], position)];
        assert ids[position..][1..] == ids[position + 1..];
      }
      assert ids[..|ids|] == ids;
      return None;
    }

    /** The row an insert would violate the unique index with. */
    method Colliding(chat: int, clientId: Option<string>) returns (id: Option<int>)
      ensures id.Some? ==> Taken(View(), chat, clientId, id.value)
      ensures id.None? ==> !exists m :: Taken(View(), chat, clientId, m)
    {
      if clientId.Some? {
        if m :| m in messages && messages[m].chat == chat && messages[m].clientId == clientId { return Some(m); }
      }
      assert forall m :: m in messages ==> !Taken(View(), chat, clientId, m);
      return None;
    }

    method SendMessage(chat: int, author: int, draft: Draft, now: int) returns (result: Result<Shown, Error>)
      requires forall l :: l in links ==> l.message < nextMessage
      modifies this
      ensures SendOutcome(env, old(View()), chat, author, draft, now, View(), result)
    {
      ghost var before := View();
      var refusal := SendRefusal(env, View(), chat, author, draft);
      if refusal.Some? { return Err(refusal.value); }
      var clientId, ids := ClientId(env, draft), Distinct(draft.attachments);
      DistinctKeepsFirstOccurrences(draft.attachments);
      var repeated := Colliding(chat, clientId);
      if repeated.Some? {
        return Ok(Shown(repeated.value, messages[repeated.value], Read(links, media, repeated.value)));
      }
      assert View() == before && !exists m :: Taken(before, chat, clientId, m);
      var messagesBefore, linksBefore, nextBefore := messages, links, nextMessage;
      var id := nextMessage;
      messages := messages[id := NewMessage(env, chat, author, draft, now)];
      nextMessage := nextMessage + 1;
      var failed := AttachMedia(id, ids, author);
      if failed.Some? {
        messages, links, nextMessage := messagesBefore, linksBefore, nextBefore;   // the transaction rolls back
        return Err(failed.value);
      }
      chats := chats[chat := chats[chat].(updatedAt := now)];
      return Ok(Shown(id, messages[id], Read(links, media, id)));
    }

    method CreateCommonChat(actor: int, title: string, now: int) returns (result: Result<int, Error>)
      modifies this
      ensures Reply(View(), result) == CreateCommon(env, old(View()), actor, title, now)
    {
      if env.strip(title) == "" { return Err(InvalidDraft); }
      var refusal := Inactive(View(), actor);
      if refusal.Some? { return Err(refusal.value); }
      if !users[actor].role.Admin? { return Err(AdminOnly); }
      var id := nextChat;
      chats, nextChat := chats[id := Chat(Common, env.strip(title), Some(actor), false, None, now)], id + 1;
      return Ok(id);
    }

    method CreateCustomChat(user: int, title: string, isPrivate: bool, code: Option<string>, salt: string, now: int)
      returns (result: Result<int, Error>)
      modifies this
      ensures Reply(View(), result) == CreateCustom(env, old(View()), user, title, isPrivate, code, salt, now)
    {
      if env.strip(title) == "" { return Err(InvalidDraft); }
      var refusal := CreationRefusal(View(), user);
      if refusal.Some? { return Err(refusal.value); }
      var normalized := NormalizeCode(env, code);
      if normalized.Err? { return Err(normalized.error); }
      var hash: Option<string> := None;
      if normalized.value.Some? {
        hash := Some(env.hash(normalized.value.value, salt));
      }
      var id := nextChat;
      var private := isPrivate || normalized.value.Some?;
      chats, nextChat := chats[id := Chat(Custom, env.strip(title), Some(user), private, hash, now)], id + 1;
      members := Joined(members, id, user, Owner);
      return Ok(id);
    }

    method ConfigurePrivateRoom(chat: int, actor: int, title: Option<string>, code: Option<string>,
                                isPrivate: Option<bool>, salt: string, now: int)
      returns (result: Result<Chat, Error>)
      modifies this
      ensures Reply(View(), result) == Configure(env, old(View()), chat, actor, title, code, isPrivate, salt, now)
    {
      var refusal := Inactive(View(), actor);
      if refusal.Some? { return Err(refusal.value); }
      if chat !in chats { return Err(ChatNotFound); }
      if !chats[chat].kind.Custom? { return Err(InvalidKind); }
      if !users[actor].role.Admin? && !IsOwner(View(), chat, actor) { return Err(Forbidden); }
      var nextTitle := if title.Some? then env.strip(title.value) else chats[chat].title;
      var hash := chats[chat].codeHash;
      if code.Some? {
        if code.value == "" {
          hash := None;
        } else {
          var normalized := NormalizeCode(env, code);
          if normalized.Err? || normalized.value.None? { return Err(InvalidRoomCode); }
          hash := Some(env.hash(normalized.value.value, salt));
        }
      }
      var private: bool;
      if isPrivate.None? {
        private := chats[chat].isPrivate || (hash.Some? && hash.value != "");
      } else {
        private := isPrivate.value;
        if !private { hash := None; }
      }
      chats := chats[chat := chats[chat].(title := nextTitle, isPrivate := private, codeHash := hash,
                                          updatedAt := now)];
      return Ok(chats[chat]);
    }

    method JoinPrivateChat(chat: int, user: int, code: Option<string>) returns (result: Result<MemberRole, Error>)
      modifies this
      ensures Reply(View(), result) == Join(env, old(View()), chat, user, code)
    {
      var refusal := Inactive(View(), user);
      if refusal.Some? { return Err(refusal.value); }
      if chat !in chats { return Err(ChatNotFound); }
      if !chats[chat].kind.Custom? { return Err(InvalidKind); }
      if (chat, user) in members { return Ok(members[(chat, user)]); }
      if !users[user].role.Admin? {
        if chats[chat].isPrivate {
          var hash := chats[chat].codeHash;
          if hash.Some? && hash.value != "" {
            var normalized := NormalizeCode(env, code);
            if normalized.Err? || normalized.value.None? || !env.verify(normalized.value.value, hash.value) {
              return Err(InvalidRoomCode);
            }
          }
        }
      }
      members := members[(chat, user) := Plain];
      return Ok(members[(chat, user)]);
    }

    method AddChatMember(chat: int, target: int, actor: int) returns (result: Result<MemberRole, Error>)
      modifies this
      ensures Reply(View(), result) == AddMember(old(View()), chat, target, actor)
    {
      var refusal := Inactive(View(), actor);
      if refusal.Some? { return Err(refusal.value); }
      refusal := Inactive(View(), target);
      if refusal.Some? { return Err(refusal.value); }
      if chat !in chats { return Err(ChatNotFound); }
      if !chats[chat].kind.Custom? { return Err(InvalidKind); }
      if !users[actor].role.Admin? && !IsOwner(View(), chat, actor) { return Err(Forbidden); }
      if (chat, target) !in members {
        members := members[(chat, target) := Plain];
      }
      return Ok(members[(chat, target)]);
    }

    method GetOrCreateDm(user: int, target: int, title: string, now: int) returns (result: Result<int, Error>)
      modifies this
      ensures Reply(View(), result) == DirectMessage(old(View()), user, target, title, now)
    {
      if user == target { return Err(InvalidTarget); }
      var refusal := Inactive(View(), user);
      if refusal.Some? { return Err(refusal.value); }
      refusal := Inactive(View(), target);
      if refusal.Some? { return Err(refusal.value); }
      var existing := FirstShared(View(), user, target, 1);
      if existing.Some? { return Ok(existing.value); }
      var id := nextChat;
      chats, nextChat := chats[id := Chat(Custom, title, Some(user), true, None, now)], id + 1;
      members := members[(id, user) := Plain];
      members := members[(id, target) := Plain];
      return Ok(id);
    }

    method DeleteOneMessage(chat: int, message: int, actor: Option<int>) returns (result: Result<(), Error>)
      modifies this
      ensures Reply(View(), result) == DeleteMessage(old(View()), chat, message, actor)
    {
      if message !in messages || messages[message].chat != chat { return Err(MessageNotFound); }
      if actor.Some? {
        var isAuthor := messages[message].author == actor.value;
        var isAdmin := actor.value in users && (users[actor.value].role.Admin? || users[actor.value].role.Moderator?);
        if !isAuthor && !isAdmin { return Err(Forbidden); }
      }
      messages := messages - {message};
      links := Filter(KeptWithout({message}), links);
      return Ok(());
    }

    method DeleteWholeChat(chat: int)
      modifies this
      ensures View() == DeleteChat(old(View()), chat)
    {
      var gone := MessagesOf(View(), chat);
      links := Filter(KeptWithout(gone), links);
      messages := messages - gone;
      members := map k | k in members && k.0 != chat :: members[k];
      chats := chats - {chat};
    }

    method ClearChatMessages(chat: int) returns (count: nat)
      modifies this
      ensures View() == WithoutMessages(old(View()), MessagesOf(old(View()), chat))
      ensures count == |MessagesOf(old(View()), chat)|
    {
      var gone := MessagesOf(View(), chat);
      links := Filter(KeptWithout(gone), links);
      messages := messages - gone;
      return |gone|;
    }

    method ClearChatMessagesRange(chat: int, from: int, to: int) returns (count: nat)
      modifies this
      ensures View() == ClearRange(old(View()), chat, from, to)
      ensures count == |InRange(old(View()), chat, from, to)|
    {
      var gone := InRange(View(), chat, from, to);
      links := Filter(KeptWithout(gone), links);
      messages := messages - gone;
      return |gone|;
    }

    method DeleteEveryChat() returns (count: nat)
      modifies this
      ensures View() == DeleteAllChats(old(View()))
      ensures count == |set c | c in old(chats) && old(chats)[c].kind.Custom?|
    {
      var gone := set c | c in chats && chats[c].kind.Custom?;
      links, messages, members := [], map[], map[];
      chats := map c | c in chats && !chats[c].kind.Custom? :: chats[c];
      return |gone|;
    }

    method Reset(held: set<int>) returns (result: Result<(), Error>)
      modifies this
      ensures Reply(View(), result) == FullReset(old(View()), held)
    {
      var before := View();
      DeleteContent();
      var doomed := set u | u in users && !users[u].role.Admin?;
      if doomed * held != {} {
        links, messages, members, chats := before.links, before.messages, before.members, before.chats;   // rolls back
        return Err(IntegrityError);
      }
      DeleteUsers(doomed);
      return Ok(());
    }

    method DeleteContent()
      modifies this`links, this`messages, this`members, this`chats
      ensures links == [] && messages == map[] && members == map[]
      ensures chats == map c | c in old(chats) && old(chats)[c].isPrivate && old(chats)[c].kind.Common? :: old(chats)[c]
    {
      links, messages, members := [], map[], map[];
      chats := map c | c in chats && !(!chats[c].isPrivate || chats[c].kind.Custom?) :: chats[c];
    }

    method DeleteUsers(doomed: set<int>)
      modifies this`users, this`media
      ensures users == old(users) - doomed
      ensures media == map a | a in old(media) && old(media)[a] !in doomed :: old(media)[a]
    {
      users := users - doomed;
      media := map a | a in media && media[a] !in doomed :: media[a];
    }
  }
}
