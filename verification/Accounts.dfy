/** Accounts and sessions: logging in and out, checking a session, and the administrators' bans and
    temporary blocks. A temporary block is lifted lazily, by the first login or session check that
    comes after it has run out. Every call is one transaction; a call that raises is rolled back. */
module Accounts {
  import opened Prelude
  import opened Users

  datatype Account = Account(login: string, passwordHash: string, role: Role, status: Status)

  datatype Session = Session(user: int, createdAt: int, expiresAt: int, revokedAt: Option<int>)

  /** `blockedUntil` holds the restriction rows, whose end may be null. */
  datatype Tables = Tables(users: map<int, Account>, blockedUntil: map<int, Option<int>>,
                           sessions: map<string, Session>)

  datatype Error =
    | InvalidCredentials | AccessRestricted | InvalidUserId | UserNotFound | UserBlocked
    | InvalidSession | SessionExpired | IntegrityError
    | AdminNotFound | InactiveAdmin | AdminOnly | SelfAction | InvalidDuration

  datatype Env = Env(strip: string -> string, verify: (string, string) -> bool, sessionTtl: int)

  datatype Reply<T> = Reply(tables: Tables, result: Result<T, Error>)

  const MINUTE_MS := 60_000
  const MAX_BLOCK_MINUTES := 7 * 24 * 60

  // ---------------------------------------------------------------- sessions

  /** A temporary block that has run out. */
  predicate Lapsed(t: Tables, user: int, now: int)
    requires user in t.users
  {
    && t.users[user].status.Blocked?
    && user in t.blockedUntil && t.blockedUntil[user].Some? && t.blockedUntil[user].value <= now
  }

  function WithStatus(t: Tables, user: int, status: Status, until: Option<int>): Tables
    requires user in t.users
  {
    t.(users := t.users[user := t.users[user].(status := status)], blockedUntil := t.blockedUntil[user := until])
  }

  function Refreshed(t: Tables, user: int, now: int): Tables
    requires user in t.users
  {
    if Lapsed(t, user, now) then WithStatus(t, user, Active, None) else t
  }

  /** The account with a login, if there is one; logins are unique. */
  ghost predicate HasLogin(t: Tables, login: string, user: int) {
    user in t.users && t.users[user].login == login
  }

  function Opened(env: Env, t: Tables, user: int, token: string, now: int): Reply<string> {
    if token in t.sessions then Reply(t, Err(IntegrityError))
    else Reply(t.(sessions := t.sessions[token := Session(user, now, now + env.sessionTtl, None)]), Ok(token))
  }

  /** A login that found `user`; anything but success rolls back. */
  function LoginAs(env: Env, t: Tables, user: int, password: string, token: string, now: int): Reply<string>
    requires user in t.users
  {
    if !env.verify(password, t.users[user].passwordHash) then Reply(t, Err(InvalidCredentials))
    else
      var t' := Refreshed(t, user, now);
      if !t'.users[user].status.Active? then Reply(t, Err(AccessRestricted))
      else if Opened(env, t', user, token, now).result.Err? then Reply(t, Opened(env, t', user, token, now).result)
      else Opened(env, t', user, token, now)
  }

  function LoginById(env: Env, t: Tables, user: int, token: string, now: int): Reply<string> {
    if user <= 0 then Reply(t, Err(InvalidUserId))
    else if user !in t.users then Reply(t, Err(UserNotFound))
    else if !t.users[user].status.Active? then Reply(t, Err(UserBlocked))
    else Opened(env, t, user, token, now)
  }

  predicate Live(t: Tables, token: string) {
    token in t.sessions && t.sessions[token].revokedAt.None? && t.sessions[token].user in t.users
  }

  /** The row an expired session gets is rolled back by the error that follows it. */
  function GetSession(env: Env, t: Tables, token: string, now: int): Reply<int> {
    var id := env.strip(token);
    if id == "" || !Live(t, id) then Reply(t, Err(InvalidSession))
    else if t.sessions[id].expiresAt <= now then Reply(t, Err(SessionExpired))
    else
      var t' := Refreshed(t, t.sessions[id].user, now);
      if !t'.users[t.sessions[id].user].status.Active? then Reply(t, Err(AccessRestricted))
      else Reply(t', Ok(t.sessions[id].user))
  }

  function Logout(env: Env, t: Tables, token: string, now: int): Tables {
    var id := env.strip(token);
    if id in t.sessions && id != "" && t.sessions[id].revokedAt.None?
    then t.(sessions := t.sessions[id := t.sessions[id].(revokedAt := Some(now))]) else t
  }

  /** The sessions a mass revocation writes to. */
  function OthersUnrevoked(t: Tables, user: int): set<string> {
    set k | k in t.sessions && t.sessions[k].revokedAt.None? && t.sessions[k].user != user
  }

  function RevokeOthers(t: Tables, user: int, now: int): Tables {
    t.(sessions := map k | k in t.sessions ::
         if t.sessions[k].revokedAt.None? && t.sessions[k].user != user then t.sessions[k].(revokedAt := Some(now))
           else t.sessions[k])
  }

  // ---------------------------------------------------------------- administration

  function ActorRefusal(t: Tables, actor: int): Option<Error> {
    if actor !in t.users then Some(AdminNotFound)
    else if !t.users[actor].status.Active? then Some(InactiveAdmin)
    else if !t.users[actor].role.Admin? && !t.users[actor].role.Moderator? then Some(AdminOnly)
    else None
  }

  /** A status change by an administrator. Sessions are not touched: the revocation the code asks
      for calls a method that does not exist, and the error is swallowed. */
  function Administer(t: Tables, actor: int, target: int, selfAllowed: bool, status: Status,
                      until: Option<int>): Reply<()> {
    if ActorRefusal(t, actor).Some? then Reply(t, Err(ActorRefusal(t, actor).value))
    else if actor == target && !selfAllowed then Reply(t, Err(SelfAction))
    else if target !in t.users then Reply(t, Err(UserNotFound))
    else Reply(WithStatus(t, target, status, until), Ok(()))
  }

  function Ban(t: Tables, actor: int, target: int): Reply<()> { Administer(t, actor, target, false, Banned, None) }

  function Unban(t: Tables, actor: int, target: int): Reply<()> { Administer(t, actor, target, true, Active, None) }

  function Block(t: Tables, actor: int, target: int, minutes: int, now: int): Reply<()> {
    if minutes < 1 || minutes > MAX_BLOCK_MINUTES then Reply(t, Err(InvalidDuration))
    else Administer(t, actor, target, false, Status.Blocked, Some(now + minutes * MINUTE_MS))
  }

  class AccountService {
    const env: Env
    var users: map<int, Account>
    var blockedUntil: map<int, Option<int>>
    var sessions: map<string, Session>

    constructor (env: Env, users: map<int, Account>)
      ensures this.env == env && View() == Tables(users, map[], map[])
    {
      this.env, this.users := env, users;
      blockedUntil, sessions := map[], map[];
    }

    function View(): Tables
      reads this
    {
      Tables(users, blockedUntil, sessions)
    }

    method RefreshTemporaryBlock(user: int, now: int) returns (refreshed: bool)
      requires user in users
      modifies this
      ensures View() == Refreshed(old(View()), user, now)
      ensures refreshed == Lapsed(old(View()), user, now)
    {
      if !users[user].status.Blocked? { return false; }
      if user !in blockedUntil || blockedUntil[user].None? { return false; }
      if blockedUntil[user].value > now { return false; }
      users := users[user := users[user].(status := Active)];
      blockedUntil := blockedUntil[user := None];
      return true;
    }

    method LoginWithPassword(login: string, password: string, token: string, now: int)
        returns (result: Result<string, Error>)
      modifies this
      ensures if env.strip(login) == "" || !exists u :: HasLogin(old(View()), env.strip(login), u)
              then result == Err(InvalidCredentials) && View() == old(View())
              else exists u :: HasLogin(old(View()), env.strip(login), u)
                            && Reply(View(), result) == LoginAs(env, old(View()), u, password, token, now)
    {
      var name := env.strip(login);
      if name == "" { return Err(InvalidCredentials); }
      if user :| user in users && users[user].login == name {
        assert HasLogin(old(View()), name, user);
        if !env.verify(password, users[user].passwordHash) { return Err(InvalidCredentials); }
        var usersBefore, blockedBefore := users, blockedUntil;
        var refreshed := RefreshTemporaryBlock(user, now);
        if !users[user].status.Active? || token in sessions {
          result := Err(if users[user].status.Active? then IntegrityError else AccessRestricted);
          users, blockedUntil := usersBefore, blockedBefore;   // the transaction rolls back
          return;
        }
        sessions := sessions[token := Session(user, now, now + env.sessionTtl, None)];
        return Ok(token);
      }
      assert forall u :: !HasLogin(old(View()), name, u);
      return Err(InvalidCredentials);
    }

    method LoginByUserId(user: int, token: string, now: int) returns (result: Result<string, Error>)
      modifies this
      ensures Reply(View(), result) == LoginById(env, old(View()), user, token, now)
    {
      if user <= 0 { return Err(InvalidUserId); }
      if user !in users { return Err(UserNotFound); }
      if !users[user].status.Active? { return Err(UserBlocked); }
      if token in sessions { return Err(IntegrityError); }
      sessions := sessions[token := Session(user, now, now + env.sessionTtl, None)];
      return Ok(token);
    }

    method LogoutSession(token: string, now: int) returns (updated: bool)
      modifies this
      ensures View() == Logout(env, old(View()), token, now) && updated == (View() != old(View()))
    {
      var id := env.strip(token);
      if id == "" || id !in sessions || sessions[id].revokedAt.Some? { return false; }
      sessions := sessions[id := sessions[id].(revokedAt := Some(now))];
      return true;
    }

    method RevokeAllSessionsExcept(user: int, now: int) returns (count: nat)
      modifies this
      ensures View() == RevokeOthers(old(View()), user, now) && count == |OthersUnrevoked(old(View()), user)|
    {
      count := |OthersUnrevoked(View(), user)|;
      sessions := map k | k in sessions ::
        if sessions[k].revokedAt.None? && sessions[k].user != user then sessions[k].(revokedAt := Some(now))
          else sessions[k];
    }

    method CheckSession(token: string, now: int) returns (result: Result<int, Error>)
      modifies this
      ensures Reply(View(), result) == GetSession(env, old(View()), token, now)
    {
      var id := env.strip(token);
      if id == "" { return Err(InvalidSession); }
      if id !in sessions || sessions[id].revokedAt.Some? || sessions[id].user !in users { return Err(InvalidSession); }
      var user := sessions[id].user;
      if sessions[id].expiresAt <= now {
        var sessionsBefore := sessions;
        sessions := sessions[id := sessions[id].(revokedAt := Some(now))];
        sessions := sessionsBefore;   // the transaction rolls back
        return Err(SessionExpired);
      }
      var refreshed := RefreshTemporaryBlock(user, now);
      if !users[user].status.Active? { return Err(AccessRestricted); }
      return Ok(user);
    }

    method SetStatus(actor: int, target: int, selfAllowed: bool, status: Status, until: Option<int>)
        returns (result: Result<(), Error>)
      modifies this
      ensures Reply(View(), result) == Administer(old(View()), actor, target, selfAllowed, status, until)
    {
      var refusal := ActorRefusal(View(), actor);
      if refusal.Some? { return Err(refusal.value); }
      if actor == target && !selfAllowed { return Err(SelfAction); }
      if target !in users { return Err(UserNotFound); }
      users := users[target := users[target].(status := status)];
      blockedUntil := blockedUntil[target := until];
      return Ok(());
    }

    method BanUser(actor: int, target: int) returns (result: Result<(), Error>)
      modifies this
      ensures Reply(View(), result) == Ban(old(View()), actor, target)
    {
      result := SetStatus(actor, target, false, Banned, None);
    }

    method UnbanUser(actor: int, target: int) returns (result: Result<(), Error>)
      modifies this
      ensures Reply(View(), result) == Unban(old(View()), actor, target)
    {
      result := SetStatus(actor, target, true, Active, None);
    }

    method TemporaryBlockUser(actor: int, target: int, minutes: int, now: int) returns (result: Result<(), Error>)
      modifies this
      ensures Reply(View(), result) == Block(old(View()), actor, target, minutes, now)
    {
      if minutes < 1 || minutes > MAX_BLOCK_MINUTES { return Err(InvalidDuration); }
      result := SetStatus(actor, target, false, Status.Blocked, Some(now + minutes * MINUTE_MS));
    }
  }

  // ---------------------------------------------------------------- whole runs

  /** A call with the clock reading it used; a login is given the account its name belongs to. */
  datatype Op =
    | Login(user: int, password: string, token: string, now: int)
    | LoginId(user: int, token: string, now: int)
    | LogOut(token: string, now: int)
    | RevokeAll(user: int, now: int)
    | Check(token: string, now: int)
    | BanOp(actor: int, target: int, now: int)
    | UnbanOp(actor: int, target: int, now: int)
    | BlockOp(actor: int, target: int, minutes: int, now: int)

  function Apply(env: Env, t: Tables, op: Op): Tables {
    match op
    case Login(user, password, token, now) =>
      if user in t.users then LoginAs(env, t, user, password, token, now).tables else t
    case LoginId(user, token, now) => LoginById(env, t, user, token, now).tables
    case LogOut(token, now) => Logout(env, t, token, now)
    case RevokeAll(user, now) => RevokeOthers(t, user, now)
    case Check(token, now) => GetSession(env, t, token, now).tables
    case BanOp(actor, target, _) => Ban(t, actor, target).tables
    case UnbanOp(actor, target, _) => Unban(t, actor, target).tables
    case BlockOp(actor, target, minutes, now) => Block(t, actor, target, minutes, now).tables
  }

  function Run(env: Env, t: Tables, ops: seq<Op>): Tables {
    if ops == [] then t else Apply(env, Run(env, t, ops[..|ops| - 1]), ops[|ops| - 1])
  }

  /** An account is blocked exactly when its restriction row has an end. */
  ghost predicate Consistent(t: Tables) {
    forall u :: u in t.users ==> (t.users[u].status.Blocked? <==> u in t.blockedUntil && t.blockedUntil[u].Some?)
  }

  lemma StatusKeeps(t: Tables, user: int, status: Status, until: Option<int>)
    requires Consistent(t) && user in t.users && (status.Blocked? <==> until.Some?)
    ensures Consistent(WithStatus(t, user, status, until))
        && WithStatus(t, user, status, until).users.Keys == t.users.Keys
  {
  }

  lemma {:induction false} ApplyConsistent(env: Env, t: Tables, op: Op)
    requires Consistent(t)
    ensures Consistent(Apply(env, t, op)) && Apply(env, t, op).users.Keys == t.users.Keys
  {
    match op
    case Login(user, _, _, _) => if user in t.users { StatusKeeps(t, user, Active, None); }
    case Check(token, _) =>
      if Live(t, env.strip(token)) { StatusKeeps(t, t.sessions[env.strip(token)].user, Active, None); }
    case BanOp(_, target, _) => if target in t.users { StatusKeeps(t, target, Banned, None); }
    case UnbanOp(_, target, _) => if target in t.users { StatusKeeps(t, target, Active, None); }
    case BlockOp(_, target, minutes, now) =>
      if target in t.users { StatusKeeps(t, target, Status.Blocked, Some(now + minutes * MINUTE_MS)); }
    case _ =>
  }

  /** In every reachable state an account is blocked exactly when its restriction has an end. */
  lemma {:induction false} AlwaysConsistent(env: Env, t: Tables, ops: seq<Op>)
    requires Consistent(t)
    ensures Consistent(Run(env, t, ops)) && Run(env, t, ops).users.Keys == t.users.Keys
  {
    if ops != [] {
      AlwaysConsistent(env, t, ops[..|ops| - 1]);
      ApplyConsistent(env, Run(env, t, ops[..|ops| - 1]), ops[|ops| - 1]);
    }
  }

  /** A session is good at `now`: stored, not revoked, not expired, and its account is active or
      only held back by a block that has run out. */
  ghost predicate Good(t: Tables, id: string, now: int) {
    && Live(t, id) && t.sessions[id].expiresAt > now
    && (t.users[t.sessions[id].user].status.Active? || EndsBy(t, t.sessions[id].user, now))
  }

  predicate EndsBy(t: Tables, user: int, now: int) {
    user in t.blockedUntil && t.blockedUntil[user].Some? && t.blockedUntil[user].value <= now
  }

  /** The session check accepts exactly the good sessions, at every point of every run; a refusal
      changes nothing, and an acceptance at most lifts a block that has run out. */
  lemma {:induction false} CheckAcceptsIffGood(env: Env, t: Tables, ops: seq<Op>, token: string, now: int)
    requires Consistent(t) && env.strip(token) != ""
    ensures var t' := Run(env, t, ops);
            var r := GetSession(env, t', token, now);
            && (r.result.Ok? <==> Good(t', env.strip(token), now))
            && (r.result.Err? ==> r.tables == t')
            && (r.result.Ok?
                ==> r.tables == t' || (Lapsed(t', r.result.value, now) && r.tables.sessions == t'.sessions))
  {
    AlwaysConsistent(env, t, ops);
  }

  /** A login is accepted, at every point of every run, exactly with the right password for an
      account that is active or whose block has run out, given a fresh token. A refusal changes nothing. */
  lemma {:induction false} LoginAcceptsIff(env: Env, t: Tables, ops: seq<Op>, user: int, password: string,
                                           token: string, now: int)
    requires Consistent(t) && user in t.users
    ensures var t' := Run(env, t, ops);
            && user in t'.users
            && var r := LoginAs(env, t', user, password, token, now);
            && (r.result.Ok? <==> env.verify(password, t'.users[user].passwordHash) && token !in t'.sessions
                                  && (t'.users[user].status.Active? || EndsBy(t', user, now)))
            && (r.result.Err? ==> r.tables == t')
  {
    AlwaysConsistent(env, t, ops);
  }

  /** What a login gives is good for: its session is accepted until it expires, and only until then. */
  lemma LoginOpensSession(env: Env, t: Tables, user: int, password: string, token: string, now: int, later: int)
    requires user in t.users && LoginAs(env, t, user, password, token, now).result.Ok?
    requires env.strip(token) == token && token != ""
    ensures GetSession(env, LoginAs(env, t, user, password, token, now).tables, token, later).result
         == if later < now + env.sessionTtl then Ok(user) else Err(SessionExpired)
  {
  }

  // ---------------------------------------------------------------- dead sessions stay dead

  /** Revoked, or expired by `now`. */
  predicate Dead(t: Tables, id: string, now: int) {
    id in t.sessions && (t.sessions[id].revokedAt.Some? || t.sessions[id].expiresAt <= now)
  }

  /** A revoked or expired session is never accepted again, whatever is done afterwards. */
  lemma {:induction false} DeadSessionsStayDead(env: Env, t: Tables, ops: seq<Op>, token: string, now: int, later: int)
    requires Dead(t, env.strip(token), now) && now <= later
    ensures Dead(Run(env, t, ops), env.strip(token), now)
    ensures GetSession(env, Run(env, t, ops), token, later).result.Err?
  {
    if ops != [] { DeadSessionsStayDead(env, t, ops[..|ops| - 1], token, now, later); }
  }

  /** A logged-out session is never accepted again, whatever is done afterwards; all others are untouched. */
  lemma {:induction false} LogoutEndsSession(env: Env, t: Tables, ops: seq<Op>, token: string, now: int, later: int)
    requires Live(t, env.strip(token)) && env.strip(token) != "" && now <= later
    ensures GetSession(env, Run(env, Logout(env, t, token, now), ops), token, later).result.Err?
    ensures forall k ::
              k in t.sessions && k != env.strip(token) ==> Logout(env, t, token, now).sessions[k] == t.sessions[k]
  {
    DeadSessionsStayDead(env, Logout(env, t, token, now), ops, token, now, later);
  }

  /** Only this account has sessions that are not revoked. */
  ghost predicate OnlyOpenFor(t: Tables, user: int) {
    forall k :: k in t.sessions && t.sessions[k].revokedAt.None? ==> t.sessions[k].user == user
  }

  /** A login to some other account. */
  predicate LetsInAnother(op: Op, user: int) {
    (op.Login? && op.user != user) || (op.LoginId? && op.user != user)
  }

  lemma StepOnlyOpenFor(env: Env, t: Tables, op: Op, user: int)
    requires OnlyOpenFor(t, user) && !LetsInAnother(op, user)
    ensures OnlyOpenFor(Apply(env, t, op), user)
  {
  }

  lemma {:induction false} StaysOnlyOpenFor(env: Env, t: Tables, ops: seq<Op>, user: int)
    requires OnlyOpenFor(t, user) && forall i :: 0 <= i < |ops| ==> !LetsInAnother(ops[i], user)
    ensures OnlyOpenFor(Run(env, t, ops), user)
  {
    if ops != [] {
      StaysOnlyOpenFor(env, t, ops[..|ops| - 1], user);
      StepOnlyOpenFor(env, Run(env, t, ops[..|ops| - 1]), ops[|ops| - 1], user);
    }
  }

  /** What a mass revocation achieves: until somebody else logs in, no session but that account's is
      accepted, whatever else is done; and that account's sessions are as good as they were. */
  lemma {:induction false} RevocationShutsOthersOut(env: Env, t: Tables, user: int, now: int, ops: seq<Op>,
                                                    token: string, later: int)
    requires forall i :: 0 <= i < |ops| ==> !LetsInAnother(ops[i], user)
    ensures var r := GetSession(env, Run(env, RevokeOthers(t, user, now), ops), token, later).result;
            r.Ok? ==> r.value == user
    ensures var r := GetSession(env, RevokeOthers(t, user, now), token, later).result;
            Live(t, env.strip(token)) && t.sessions[env.strip(token)].user == user
            ==> r == GetSession(env, t, token, later).result
  {
    StaysOnlyOpenFor(env, RevokeOthers(t, user, now), ops, user);
  }

  // ---------------------------------------------------------------- bans

  predicate Overrides(op: Op, user: int) {
    (op.UnbanOp? && op.target == user) || (op.BlockOp? && op.target == user)
  }

  lemma StepKeepsBan(env: Env, t: Tables, op: Op, user: int)
    requires user in t.users && t.users[user].status.Banned? && !Overrides(op, user)
    ensures user in Apply(env, t, op).users && Apply(env, t, op).users[user].status.Banned?
  {
  }

  /** A ban is never lifted by time, even when it was placed over a temporary block: until an
      administrator unbans or blocks the account, it stays banned and none of its sessions is accepted. */
  lemma {:induction false} BanLasts(env: Env, t: Tables, ops: seq<Op>, user: int, token: string, now: int)
    requires user in t.users && t.users[user].status.Banned?
    requires forall i :: 0 <= i < |ops| ==> !Overrides(ops[i], user)
    ensures user in Run(env, t, ops).users && Run(env, t, ops).users[user].status.Banned?
    ensures GetSession(env, Run(env, t, ops), token, now).result != Ok(user)
    ensures forall password: string :: LoginAs(env, Run(env, t, ops), user, password, token, now).result.Err?
  {
    if ops != [] {
      BanLasts(env, t, ops[..|ops| - 1], user, token, now);
      StepKeepsBan(env, Run(env, t, ops[..|ops| - 1]), ops[|ops| - 1], user);
    }
  }

  /** The other way round it does not hold: a temporary block placed over a ban replaces it. Once
      the block has run out, a session the account still had is accepted again. */
  lemma BlockReplacesBan(env: Env, t: Tables, actor: int, user: int, minutes: int, now: int, token: string, later: int)
    requires user in t.users && t.users[user].status.Banned? && Block(t, actor, user, minutes, now).result.Ok?
    requires Live(t, env.strip(token)) && env.strip(token) != "" && t.sessions[env.strip(token)].user == user
    requires later < t.sessions[env.strip(token)].expiresAt
    ensures var t' := Block(t, actor, user, minutes, now).tables;
            GetSession(env, t', token, later).result
            == (if later >= now + minutes * 60_000 then Ok(user) else Err(AccessRestricted))
  {
  }

  /** Banning does not revoke sessions: one that was accepted before the ban is accepted again, if
      it has not expired, as soon as the account is unbanned. */
  lemma UnbanRestoresSessions(env: Env, t: Tables, actor: int, other: int, user: int, token: string, now: int,
                              later: int)
    requires Consistent(t) && GetSession(env, t, token, now).result == Ok(user)
    requires Ban(t, actor, user).result.Ok? && Unban(Ban(t, actor, user).tables, other, user).result.Ok?
    ensures GetSession(env, Ban(t, actor, user).tables, token, later).result.Err?
    ensures GetSession(env, Unban(Ban(t, actor, user).tables, other, user).tables, token, later).result
         == if later < t.sessions[env.strip(token)].expiresAt then Ok(user) else Err(SessionExpired)
  {
  }

  // ---------------------------------------------------------------- who changes what

  predicate Staff(t: Tables, actor: int) {
    && actor in t.users && t.users[actor].status == Active
    && (t.users[actor].role == Admin || t.users[actor].role == Moderator)
  }

  /** The call by which staff gives this account this status and end of block: nobody bans or blocks
      themselves, and a block lasts from one minute to seven days. */
  predicate Sets(t: Tables, op: Op, user: int, status: Status, until: Option<int>) {
    match op
    case BanOp(actor, target, _) =>
      Staff(t, actor) && target == user && actor != user && status == Banned && until == None
    case UnbanOp(actor, target, _) =>
      Staff(t, actor) && target == user && status == Active && until == None
    case BlockOp(actor, target, minutes, now) =>
      && Staff(t, actor) && target == user && actor != user && 1 <= minutes <= 10_080
      && status == Blocked && until == Some(now + minutes * 60_000)
    case _ => false
  }

  /** The login with the right password, or the check of a good session, that lifts a block that has run out. */
  predicate Lifts(env: Env, t: Tables, op: Op, user: int)
    requires user in t.users
  {
    && t.users[user].status == Blocked
    && match op
       case Login(u, password, token, now) =>
         && u == user && EndsBy(t, user, now)
         && env.verify(password, t.users[user].passwordHash) && token !in t.sessions
       case Check(token, now) =>
         var id := env.strip(token);
         && id != "" && id in t.sessions && t.sessions[id].user == user && EndsBy(t, user, now)
         && t.sessions[id].revokedAt == None && now < t.sessions[id].expiresAt
       case _ => false
  }

  predicate Changes(env: Env, t: Tables, op: Op, user: int, status: Status, until: Option<int>)
    requires user in t.users
  {
    Sets(t, op, user, status, until) || (Lifts(env, t, op, user) && status == Active && until == None)
  }

  function Until(t: Tables, user: int): Option<int> {
    if user in t.blockedUntil then t.blockedUntil[user] else None
  }

  predicate Unchanged(t: Tables, t': Tables, user: int)
    requires user in t.users && user in t'.users
  {
    t'.users[user].status == t.users[user].status && Until(t', user) == Until(t, user)
  }

  /** Such a call has that effect. */
  lemma ChangeTakesEffect(env: Env, t: Tables, op: Op, user: int, status: Status, until: Option<int>)
    requires user in t.users && Changes(env, t, op, user, status, until)
    ensures var t' := Apply(env, t, op);
            user in t'.users && t'.users[user].status == status && Until(t', user) == until
  {
  }

  /** No other call touches the account at all, and none touches more of it. */
  lemma StatusAfter(env: Env, t: Tables, op: Op, user: int)
    requires user in t.users
    ensures user in Apply(env, t, op).users
    ensures var t' := Apply(env, t, op);
            && t'.users[user] == t.users[user].(status := t'.users[user].status)
            && (Unchanged(t, t', user) || Changes(env, t, op, user, t'.users[user].status, Until(t', user)))
  {
  }

  /** The administrators' calls succeed exactly when they have something to set. */
  lemma StaffSucceedIff(t: Tables, actor: int, target: int, minutes: int, now: int)
    ensures Ban(t, actor, target).result.Ok?
       <==> target in t.users && Sets(t, BanOp(actor, target, now), target, Banned, None)
    ensures Unban(t, actor, target).result.Ok?
       <==> target in t.users && Sets(t, UnbanOp(actor, target, now), target, Active, None)
    ensures Block(t, actor, target, minutes, now).result.Ok?
       <==> target in t.users && Sets(t, BlockOp(actor, target, minutes, now), target, Status.Blocked,
                                      Some(now + minutes * 60_000))
  {
  }

  /** Where a status comes from: an account whose status or end of block is not what it was at the
      start of a run was given it by active staff, or had a block lifted that had run out. */
  lemma {:induction false} StatusWasGiven(env: Env, t: Tables, ops: seq<Op>, user: int)
    requires user in t.users
    ensures user in Run(env, t, ops).users
    ensures var t' := Run(env, t, ops);
            Unchanged(t, t', user)
            || exists i :: 0 <= i < |ops| && user in Run(env, t, ops[..i]).users
                 && Changes(env, Run(env, t, ops[..i]), ops[i], user, t'.users[user].status, Until(t', user))
  {
    if ops != [] {
      var init, op := ops[..|ops| - 1], ops[|ops| - 1];
      var t0, t' := Run(env, t, init), Run(env, t, ops);
      StatusWasGiven(env, t, init, user);
      StatusAfter(env, t0, op, user);
      if !Changes(env, t0, op, user, t'.users[user].status, Until(t', user))
         && !Unchanged(t, t', user) {
        var i :| 0 <= i < |init| && user in Run(env, t, init[..i]).users
                 && Changes(env, Run(env, t, init[..i]), init[i], user, t'.users[user].status, Until(t', user));
        assert init[..i] == ops[..i] && init[i] == ops[i];
      }
    }
  }

  /** The call that opens this session. */
  predicate Opens(env: Env, t: Tables, op: Op, token: string, session: Session) {
    match op
    case Login(user, password, k, now) =>
      && k == token && user in t.users && env.verify(password, t.users[user].passwordHash)
      && (t.users[user].status == Active || (t.users[user].status == Blocked && EndsBy(t, user, now)))
      && session == Session(user, now, now + env.sessionTtl, None)
    case LoginId(user, k, now) =>
      && k == token && user > 0 && user in t.users && t.users[user].status == Active
      && session == Session(user, now, now + env.sessionTtl, None)
    case _ => false
  }

  /** The call that revokes it: its own logout, or the revocation of all sessions but another account's. */
  predicate Revokes(env: Env, op: Op, token: string, user: int) {
    || (op.LogOut? && env.strip(op.token) == token && token != "")
    || (op.RevokeAll? && op.user != user)
  }

  /** Sessions are opened by logins only, and change only by being revoked. */
  lemma SessionAfter(env: Env, t: Tables, op: Op, token: string, session: Session)
    ensures var t' := Apply(env, t, op);
            && (token !in t.sessions ==>
                  (token in t'.sessions && t'.sessions[token] == session <==> Opens(env, t, op, token, session)))
            && (token in t.sessions ==>
                  && token in t'.sessions
                  && t'.sessions[token]
                     == if t.sessions[token].revokedAt == None && Revokes(env, op, token, t.sessions[token].user)
                        then t.sessions[token].(revokedAt := Some(op.now)) else t.sessions[token])
  {
  }

  /** Where sessions come from: every session in the table at the end of a run that was not there at
      its start was opened for its account by a login that met the conditions at that moment. */
  lemma {:induction false} SessionsWereOpened(env: Env, t: Tables, ops: seq<Op>, token: string)
    requires token !in t.sessions && token in Run(env, t, ops).sessions
    ensures var session := Run(env, t, ops).sessions[token];
            exists i :: 0 <= i < |ops|
              && Opens(env, Run(env, t, ops[..i]), ops[i], token, session.(revokedAt := None))
  {
    var init, op := ops[..|ops| - 1], ops[|ops| - 1];
    var t0, session := Run(env, t, init), Run(env, t, ops).sessions[token];
    SessionAfter(env, t0, op, token, session);
    if token in t0.sessions {
      SessionsWereOpened(env, t, init, token);
      var i :| 0 <= i < |init|
               && Opens(env, Run(env, t, init[..i]), init[i], token, t0.sessions[token].(revokedAt := None));
      assert init[..i] == ops[..i] && init[i] == ops[i];
    }
  }
}
