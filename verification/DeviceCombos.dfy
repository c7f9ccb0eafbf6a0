/** Button combos that unlock a device: setting, resetting and verifying one, with the lockout
    that slows guessing down. One row per (user, device); all rows live in one table. */
module DeviceCombos {
  import opened Prelude
  import opened Users

  datatype Combo = Combo(hash: string, actionsCount: int, failureCount: nat, lockedUntil: Option<int>,
                         createdAt: int, updatedAt: int, verifiedAt: Option<int>, resetAt: Option<int>)

  datatype Error =
    | InvalidDeviceId | ComboEmpty | ComboTooLong | InvalidComboAction
    | UserNotFound | InactiveUser | GuestForbidden
    | ComboNotSet | ComboLocked
    | IntegrityError

  /** Text clean-up and the salted hash, as functions; a fresh hash is non-empty and accepts its own actions. */
  datatype RawEnv = Env(strip: string -> string, clean: string -> string,
                        hash: (seq<string>, string) -> string, matches: (seq<string>, string) -> bool)
  ghost predicate ValidEnv(e: RawEnv) {
    forall a, salt :: e.hash(a, salt) != "" && e.matches(a, e.hash(a, salt))
  }
  type Env = e: RawEnv | ValidEnv(e) ghost witness Env(s => s, s => s, (a, s) => "h", (a, h) => true)

  type Key = (int, string)
  type Rows = map<Key, Combo>

  const LOCK_MS := 300_000
  const MAX_FREE_FAILURES := 5

  function NormalizeDevice(e: Env, device: string): Result<string, Error> {
    var d := e.strip(device);
    if d == "" || |d| > 256 then Err(InvalidDeviceId) else Ok(d)
  }

  function NormalizeActions(e: Env, actions: seq<string>): Result<seq<string>, Error> {
    var cleaned := seq(|actions|, i requires 0 <= i < |actions| => e.clean(actions[i]));
    if |cleaned| < 1 then Err(ComboEmpty)
    else if |cleaned| > 32 then Err(ComboTooLong)
    else if exists i :: 0 <= i < |cleaned| && (cleaned[i] == "" || |cleaned[i]| > 64) then Err(InvalidComboAction)
    else Ok(cleaned)
  }

  function Refusal(users: map<int, User>, id: int): Option<Error> {
    if id !in users then Some(UserNotFound)
    else if !users[id].status.Active? then Some(InactiveUser)
    else if users[id].role.Guest? then Some(GuestForbidden)
    else None
  }

  datatype Verdict = Verdict(verified: bool, row: Combo)

  /** The result of one call and the table it leaves; a call that raises leaves it as it was. */
  datatype Answer = Answer(reply: Result<Option<Verdict>, Error>, rows: Rows)

  /** A call on one user and device, with its clock reading. */
  datatype Call =
    | Set(user: int, device: string, actions: seq<string>, salt: string, now: int)
    | Reset(user: int, device: string, now: int)
    | Verify(user: int, device: string, actions: seq<string>, now: int)

  function SetAnswer(e: Env, users: map<int, User>, rows: Rows, c: Call): Answer
    requires c.Set?
  {
    var device, actions := NormalizeDevice(e, c.device), NormalizeActions(e, c.actions);
    if device.Err? then Answer(Err(device.error), rows)
    else if actions.Err? then Answer(Err(actions.error), rows)
    else if Refusal(users, c.user).Some? then Answer(Err(Refusal(users, c.user).value), rows)
    // the table's CHECK (combo_actions_count >= 3) is stricter than the service
    else if |actions.value| < 3 then Answer(Err(IntegrityError), rows)
    else
      var key := (c.user, device.value);
      var hash := e.hash(actions.value, c.salt);
      var row := if key in rows
                 then rows[key].(hash := hash, actionsCount := |actions.value|, failureCount := 0, lockedUntil := None,
                                 updatedAt := c.now, resetAt := None)
                 else Combo(hash, |actions.value|, 0, None, c.now, c.now, None, None);
      Answer(Ok(Some(Verdict(false, row))), rows[key := row])
  }

  function ResetAnswer(e: Env, users: map<int, User>, rows: Rows, c: Call): Answer
    requires c.Reset?
  {
    var device := NormalizeDevice(e, c.device);
    if device.Err? then Answer(Err(device.error), rows)
    else if Refusal(users, c.user).Some? then Answer(Err(Refusal(users, c.user).value), rows)
    else if (c.user, device.value) !in rows then Answer(Ok(None), rows)
    else
      var key := (c.user, device.value);
      var row := rows[key].(hash := "", actionsCount := 3, failureCount := 0, lockedUntil := None,
                            updatedAt := c.now, resetAt := Some(c.now));
      Answer(Ok(Some(Verdict(false, row))), rows[key := row])
  }

  predicate Locked(row: Combo, now: int) {
    row.lockedUntil.Some? && row.lockedUntil.value > now
  }

  function AfterGuess(row: Combo, verified: bool, now: int): Combo {
    if verified then row.(failureCount := 0, lockedUntil := None, verifiedAt := Some(now), updatedAt := now)
    else row.(failureCount := row.failureCount + 1,
              lockedUntil := if row.failureCount + 1 >= MAX_FREE_FAILURES then Some(now + LOCK_MS) else None,
              updatedAt := now)
  }

  function VerifyAnswer(e: Env, users: map<int, User>, rows: Rows, c: Call): Answer
    requires c.Verify?
  {
    var device, actions := NormalizeDevice(e, c.device), NormalizeActions(e, c.actions);
    if device.Err? then Answer(Err(device.error), rows)
    else if actions.Err? then Answer(Err(actions.error), rows)
    else if Refusal(users, c.user).Some? then Answer(Err(Refusal(users, c.user).value), rows)
    else if (c.user, device.value) !in rows || rows[(c.user, device.value)].hash == "" then
      Answer(Err(ComboNotSet), rows)
    else if Locked(rows[(c.user, device.value)], c.now) then Answer(Err(ComboLocked), rows)
    else
      var key := (c.user, device.value);
      var verified := e.matches(actions.value, rows[key].hash);
      var row := AfterGuess(rows[key], verified, c.now);
      Answer(Ok(Some(Verdict(verified, row))), rows[key := row])
  }

  function AnswerTo(e: Env, users: map<int, User>, rows: Rows, c: Call): Answer {
    match c
    case Set(_, _, _, _, _) => SetAnswer(e, users, rows, c)
    case Reset(_, _, _) => ResetAnswer(e, users, rows, c)
    case Verify(_, _, _, _) => VerifyAnswer(e, users, rows, c)
  }

  class DeviceComboService {
    const env: Env
    var users: map<int, User>
    var rows: Rows

    constructor (env: Env, users: map<int, User>)
      ensures this.env == env && this.users == users && rows == map[]
    {
      this.env, this.users := env, users;
      rows := map[];
    }

    method SetCombo(user: int, device: string, actions: seq<string>, salt: string, now: int)
      returns (reply: Result<Option<Verdict>, Error>)
      modifies this`rows
      ensures Answer(reply, rows) == AnswerTo(env, users, old(rows), Set(user, device, actions, salt, now))
    {
      var device' := NormalizeDevice(env, device);
      if device'.Err? { return Err(device'.error); }
      var actions' := NormalizeActions(env, actions);
      if actions'.Err? { return Err(actions'.error); }
      var refusal := Refusal(users, user);
      if refusal.Some? { return Err(refusal.value); }
      var count := |actions'.value|;
      if count < 3 { return Err(IntegrityError); }
      var key := (user, device'.value);
      var hash := env.hash(actions'.value, salt);
      if key !in rows {
        rows := rows[key := Combo(hash, count, 0, None, now, now, None, None)];
      } else {
        rows := rows[key := rows[key].(hash := hash, actionsCount := count, failureCount := 0, lockedUntil := None)];
        rows := rows[key := rows[key].(updatedAt := now, resetAt := None)];
      }
      return Ok(Some(Verdict(false, rows[key])));
    }

    method ResetCombo(user: int, device: string, now: int) returns (reply: Result<Option<Verdict>, Error>)
      modifies this`rows
      ensures Answer(reply, rows) == AnswerTo(env, users, old(rows), Reset(user, device, now))
    {
      var device' := NormalizeDevice(env, device);
      if device'.Err? { return Err(device'.error); }
      var refusal := Refusal(users, user);
      if refusal.Some? { return Err(refusal.value); }
      var key := (user, device'.value);
      if key !in rows { return Ok(None); }
      rows := rows[key := rows[key].(hash := "", actionsCount := 3, failureCount := 0, lockedUntil := None,
                                     updatedAt := now, resetAt := Some(now))];
      return Ok(Some(Verdict(false, rows[key])));
    }

    method VerifyCombo(user: int, device: string, actions: seq<string>, now: int)
      returns (reply: Result<Option<Verdict>, Error>)
      modifies this`rows
      ensures Answer(reply, rows) == AnswerTo(env, users, old(rows), Verify(user, device, actions, now))
    {
      var device' := NormalizeDevice(env, device);
      if device'.Err? { return Err(device'.error); }
      var actions' := NormalizeActions(env, actions);
      if actions'.Err? { return Err(actions'.error); }
      var refusal := Refusal(users, user);
      if refusal.Some? { return Err(refusal.value); }
      var key := (user, device'.value);
      if key !in rows || rows[key].hash == "" { return Err(ComboNotSet); }
      var lockedUntil := rows[key].lockedUntil;
      if lockedUntil.Some? && lockedUntil.value > now { return Err(ComboLocked); }
      var verified := env.matches(actions'.value, rows[key].hash);
      if verified {
        rows := rows[key := rows[key].(failureCount := 0, lockedUntil := None, verifiedAt := Some(now),
                                       updatedAt := now)];
      } else {
        var nextFailures := rows[key].failureCount + 1;
        var nextLocked := if nextFailures >= MAX_FREE_FAILURES then Some(now + LOCK_MS) else None;
        rows := rows[key := rows[key].(failureCount := nextFailures, lockedUntil := nextLocked, updatedAt := now)];
      }
      return Ok(Some(Verdict(verified, rows[key])));
    }
  }

  // ---------------------------------------------------------------- whole runs

  /** A run: the calls with the user table each of them saw. */
  datatype Event = Event(users: map<int, User>, call: Call)

  function Run(e: Env, events: seq<Event>): Rows {
    if events == [] then map[] else
      var last := events[|events| - 1];
      AnswerTo(e, last.users, Run(e, events[..|events| - 1]), last.call).rows
  }

  predicate Ordered(events: seq<Event>) {
    forall i, j :: 0 <= i < j < |events| ==> events[i].call.now <= events[j].call.now
  }

  /** Whether this is a call on `key`'s user and device. */
  predicate Concerns(e: Env, c: Call, key: Key) { NormalizeDevice(e, c.device) == Ok(key.1) && c.user == key.0 }

  // What the calls alone say happened to one combo: no table, no stored row.
  datatype Effect =
    | Made(at: int, actions: seq<string>, salt: string)
    | Cleared(at: int)
    | Right(at: int)
    | Wrong(at: int)

  function Cleaned(e: Env, actions: seq<string>): (words: seq<string>)
    ensures |words| == |actions| && forall i :: 0 <= i < |actions| ==> words[i] == e.clean(actions[i])
  {
    if actions == [] then [] else Cleaned(e, actions[..|actions| - 1]) + [e.clean(actions[|actions| - 1])]
  }

  predicate SoundDevice(e: Env, device: string) { 1 <= |e.strip(device)| <= 256 }

  predicate SoundActions(e: Env, actions: seq<string>) {
    1 <= |actions| <= 32 && forall i :: 0 <= i < |actions| ==> 1 <= |e.clean(actions[i])| <= 64
  }

  predicate MayUse(users: map<int, User>, id: int) {
    id in users && users[id].status == Active && users[id].role != Guest
  }

  predicate EverMade(h: seq<Effect>) { h != [] && (h[|h| - 1].Made? || EverMade(h[..|h| - 1])) }

  /** The combo that was made last and has not been cleared since. */
  function Standing(h: seq<Effect>): (r: Option<Effect>)
    ensures r.Some? ==> r.value.Made? && EverMade(h)
  {
    if h == [] then None else
      match h[|h| - 1]
      case Made(_, _, _) => Some(h[|h| - 1])
      case Cleared(_) => None
      case _ => Standing(h[..|h| - 1])
  }

  /** The times of the wrong guesses since it was last made, cleared or guessed. */
  function WrongGuesses(h: seq<Effect>): seq<int> {
    if h == [] || !h[|h| - 1].Wrong? then [] else WrongGuesses(h[..|h| - 1]) + [h[|h| - 1].at]
  }

  /** Five wrong guesses in a row shut it until five minutes after the last of them. */
  predicate Shut(h: seq<Effect>, now: int) {
    |WrongGuesses(h)| >= 5 && now < WrongGuesses(h)[|WrongGuesses(h)| - 1] + 300_000
  }

  /** What a call does to the combo `key`, given all that happened to it before. */
  function EffectOf(e: Env, users: map<int, User>, h: seq<Effect>, c: Call, key: Key): seq<Effect> {
    if c.user != key.0 || e.strip(c.device) != key.1 || !SoundDevice(e, c.device) || !MayUse(users, c.user) then []
    else match c
      case Set(_, _, actions, salt, now) =>
        if SoundActions(e, actions) && |actions| >= 3 then [Made(now, Cleaned(e, actions), salt)] else []
      case Reset(_, _, now) =>
        if EverMade(h) then [Cleared(now)] else []
      case Verify(_, _, actions, now) =>
        if !SoundActions(e, actions) || Standing(h).None? || Shut(h, now) then []
        else
          var made := Standing(h).value;
          if e.matches(Cleaned(e, actions), e.hash(made.actions, made.salt)) then [Right(now)] else [Wrong(now)]
  }

  function History(e: Env, events: seq<Event>, key: Key): seq<Effect> {
    if events == [] then [] else
      var init, last := events[..|events| - 1], events[|events| - 1];
      var h := History(e, init, key);
      h + EffectOf(e, last.users, h, last.call, key)
  }

  /** A refused call changes nothing, and no call touches a row other than its own. */
  lemma RefusedCallsChangeNothing(e: Env, users: map<int, User>, rows: Rows, c: Call, key: Key)
    ensures var a := AnswerTo(e, users, rows, c);
            && (a.reply.Err? ==> a.rows == rows)
            && (!Concerns(e, c, key)
                ==> (key in a.rows <==> key in rows) && (key in rows ==> a.rows[key] == rows[key]))
  {
  }

  function LastRight(h: seq<Effect>): Option<int> {
    if h == [] then None else if h[|h| - 1].Right? then Some(h[|h| - 1].at) else LastRight(h[..|h| - 1])
  }

  /** When it was cleared, unless it has been made again. */
  function ClearedSince(h: seq<Effect>): Option<int> {
    if h == [] then None else
      match h[|h| - 1]
      case Made(_, _, _) => None
      case Cleared(at) => Some(at)
      case _ => ClearedSince(h[..|h| - 1])
  }

  /** The row that a history leaves, and no row before the combo was made. */
  ghost predicate Mirrors(e: Env, rows: Rows, key: Key, h: seq<Effect>) {
    && (key in rows <==> EverMade(h))
    && (key in rows ==>
          var row, wrongs := rows[key], WrongGuesses(h);
          && h[0].Made? && row.createdAt == h[0].at && row.updatedAt == h[|h| - 1].at
          && row.hash == (if Standing(h).Some? then e.hash(Standing(h).value.actions, Standing(h).value.salt) else "")
          && row.actionsCount == (if Standing(h).Some? then |Standing(h).value.actions| else 3)
          && row.failureCount == |wrongs|
          && row.lockedUntil == (if |wrongs| >= 5 then Some(wrongs[|wrongs| - 1] + 300_000) else None)
          && row.verifiedAt == LastRight(h)
          && row.resetAt == ClearedSince(h))
    && (!EverMade(h) ==> h == [])
  }

  /** The clean-up of the service, in terms of the cleaned words. */
  lemma CleanUpReads(e: Env, device: string, actions: seq<string>)
    ensures NormalizeDevice(e, device) == if SoundDevice(e, device) then Ok(e.strip(device)) else Err(InvalidDeviceId)
    ensures NormalizeActions(e, actions)
            == if |actions| == 0 then Err(ComboEmpty) else if |actions| > 32 then Err(ComboTooLong)
               else if SoundActions(e, actions) then Ok(Cleaned(e, actions)) else Err(InvalidComboAction)
  {
    var cleaned := seq(|actions|, i requires 0 <= i < |actions| => e.clean(actions[i]));
    assert cleaned == Cleaned(e, actions);
    if 1 <= |actions| <= 32 && !SoundActions(e, actions) {
      var i :| 0 <= i < |actions| && !(1 <= |e.clean(actions[i])| <= 64);
      assert cleaned[i] == "" || |cleaned[i]| > 64;
    }
  }

  /** A history that grows by one effect. */
  lemma Grown(h: seq<Effect>, x: Effect)
    ensures Standing(h + [x]) == (match x case Made(_, _, _) => Some(x) case Cleared(_) => None case _ => Standing(h))
    ensures WrongGuesses(h + [x]) == if x.Wrong? then WrongGuesses(h) + [x.at] else []
    ensures LastRight(h + [x]) == if x.Right? then Some(x.at) else LastRight(h)
    ensures ClearedSince(h + [x])
            == (match x case Made(_, _, _) => None case Cleared(at) => Some(at) case _ => ClearedSince(h))
    ensures EverMade(h + [x]) <==> EverMade(h) || x.Made?
  {
    assert (h + [x])[..|h + [x]| - 1] == h;
  }

  /** What an effect makes of a row. */
  function RowAfter(e: Env, rows: Rows, key: Key, x: Effect): Combo
    requires key in rows || x.Made?
  {
    match x
    case Made(at, actions, salt) =>
      if key !in rows then Combo(e.hash(actions, salt), |actions|, 0, None, at, at, None, None)
      else rows[key].(hash := e.hash(actions, salt), actionsCount := |actions|, failureCount := 0,
                      lockedUntil := None, updatedAt := at, resetAt := None)
    case Cleared(at) =>
      rows[key].(hash := "", actionsCount := 3, failureCount := 0, lockedUntil := None, updatedAt := at,
                 resetAt := Some(at))
    case Right(at) =>
      rows[key].(failureCount := 0, lockedUntil := None, verifiedAt := Some(at), updatedAt := at)
    case Wrong(at) =>
      var n := rows[key].failureCount + 1;
      rows[key].(failureCount := n, lockedUntil := if n >= 5 then Some(at + 300_000) else None, updatedAt := at)
  }

  /** What a call looks at in the row, as the history has it. */
  ghost predicate Agree(rows: Rows, key: Key, h: seq<Effect>, now: int) {
    && (key in rows <==> EverMade(h))
    && (key in rows && rows[key].hash != "" <==> Standing(h).Some?)
    && (key in rows ==> (Locked(rows[key], now) <==> Shut(h, now)))
  }

  lemma MirrorsAgree(e: Env, rows: Rows, key: Key, h: seq<Effect>, now: int)
    requires Mirrors(e, rows, key, h)
    ensures Agree(rows, key, h, now)
  {
  }

  lemma NothingHappens(e: Env, users: map<int, User>, rows: Rows, c: Call, key: Key, h: seq<Effect>)
    requires Agree(rows, key, h, c.now) && EffectOf(e, users, h, c, key) == []
    ensures var rows' := AnswerTo(e, users, rows, c).rows;
            (key in rows' <==> key in rows) && (key in rows ==> rows'[key] == rows[key])
  {
    RefusedCallsChangeNothing(e, users, rows, c, key);
    match c {
      case Set(_, device, actions, _, _) => CleanUpReads(e, device, actions);
      case Reset(_, device, _) => CleanUpReads(e, device, []);
      case Verify(_, device, actions, _) => CleanUpReads(e, device, actions);
    }
  }

  ghost predicate Happens(e: Env, users: map<int, User>, rows: Rows, c: Call, key: Key, x: Effect) {
    var a := AnswerTo(e, users, rows, c);
    && (key in rows || x.Made?) && a.rows == rows[key := RowAfter(e, rows, key, x)]
    && a.reply == Ok(Some(Verdict(x.Right?, a.rows[key])))
  }

  lemma SetHappens(e: Env, users: map<int, User>, rows: Rows, c: Call, key: Key, h: seq<Effect>)
    requires c.Set? && Agree(rows, key, h, c.now) && EffectOf(e, users, h, c, key) != []
    ensures Happens(e, users, rows, c, key, EffectOf(e, users, h, c, key)[0])
  {
    CleanUpReads(e, c.device, c.actions);
  }

  lemma ResetHappens(e: Env, users: map<int, User>, rows: Rows, c: Call, key: Key, h: seq<Effect>)
    requires c.Reset? && Agree(rows, key, h, c.now) && EffectOf(e, users, h, c, key) != []
    ensures Happens(e, users, rows, c, key, EffectOf(e, users, h, c, key)[0])
  {
    CleanUpReads(e, c.device, []);
  }

  lemma VerifyHappens(e: Env, users: map<int, User>, rows: Rows, c: Call, key: Key, h: seq<Effect>)
    requires c.Verify? && Agree(rows, key, h, c.now) && EffectOf(e, users, h, c, key) != []
    requires Standing(h).Some? ==>
               rows[key].hash == e.hash(Standing(h).value.actions, Standing(h).value.salt)
    ensures Happens(e, users, rows, c, key, EffectOf(e, users, h, c, key)[0])
  {
    CleanUpReads(e, c.device, c.actions);
  }

  lemma SomethingHappens(e: Env, users: map<int, User>, rows: Rows, c: Call, key: Key, h: seq<Effect>)
    requires Mirrors(e, rows, key, h) && EffectOf(e, users, h, c, key) != []
    ensures Happens(e, users, rows, c, key, EffectOf(e, users, h, c, key)[0])
  {
    MirrorsAgree(e, rows, key, h, c.now);
    match c {
      case Set(_, _, _, _, _) => SetHappens(e, users, rows, c, key, h);
      case Reset(_, _, _) => ResetHappens(e, users, rows, c, key, h);
      case Verify(_, _, _, _) => VerifyHappens(e, users, rows, c, key, h);
    }
  }

  lemma EffectMirrors(e: Env, rows: Rows, key: Key, h: seq<Effect>, x: Effect)
    requires Mirrors(e, rows, key, h) && (key in rows || x.Made?)
    ensures Mirrors(e, rows[key := RowAfter(e, rows, key, x)], key, h + [x])
  {
    Grown(h, x);
    var h' := h + [x];
    assert h'[|h'| - 1] == x && (h != [] ==> h'[0] == h[0]);
  }

  /** One call moves row and history alike. */
  lemma StepMirrors(e: Env, users: map<int, User>, rows: Rows, c: Call, key: Key, h: seq<Effect>)
    requires Mirrors(e, rows, key, h)
    ensures Mirrors(e, AnswerTo(e, users, rows, c).rows, key, h + EffectOf(e, users, h, c, key))
  {
    var effect := EffectOf(e, users, h, c, key);
    if effect == [] {
      assert h + effect == h;
      MirrorsAgree(e, rows, key, h, c.now);
      NothingHappens(e, users, rows, c, key, h);
    } else {
      assert effect == [effect[0]];
      SomethingHappens(e, users, rows, c, key, h);
      EffectMirrors(e, rows, key, h, effect[0]);
    }
  }

  /** The stored row is the history of the calls, over every run: the last combo made and not
      cleared, its wrong guesses since, the lock five of them bring, and the four moments. */
  lemma {:induction false} RowMirrorsHistory(e: Env, events: seq<Event>, key: Key)
    ensures Mirrors(e, Run(e, events), key, History(e, events, key))
  {
    if events != [] {
      var init, last := events[..|events| - 1], events[|events| - 1];
      RowMirrorsHistory(e, init, key);
      StepMirrors(e, last.users, Run(e, init), last.call, key, History(e, init, key));
    }
  }

  predicate Spaced(wrongs: seq<int>) {
    forall i :: 5 <= i < |wrongs| ==> wrongs[i] >= wrongs[i - 1] + 300_000
  }

  function Streak(e: Env, events: seq<Event>, key: Key): seq<int> { WrongGuesses(History(e, events, key)) }

  lemma WrongOnlyWhenOpen(e: Env, users: map<int, User>, h: seq<Effect>, c: Call, key: Key)
    ensures var effect := EffectOf(e, users, h, c, key);
            && |effect| <= 1
            && (effect != [] ==> effect[0].at == c.now && (effect[0].Wrong? ==> !Shut(h, c.now)))
  {
  }

  /** After the fifth wrong guess in a row the next ones are at least five minutes apart. */
  lemma {:induction false} StreakIsSpaced(e: Env, events: seq<Event>, key: Key)
    ensures Spaced(Streak(e, events, key))
  {
    if events != [] {
      var init, last := events[..|events| - 1], events[|events| - 1];
      StreakIsSpaced(e, init, key);
      var h := History(e, init, key);
      var effect := EffectOf(e, last.users, h, last.call, key);
      WrongOnlyWhenOpen(e, last.users, h, last.call, key);
      if effect == [] { assert h + effect == h; } else { assert effect == [effect[0]]; Grown(h, effect[0]); }
    }
  }

  lemma {:induction false} SpacedAdds(streak: seq<int>, n: nat)
    requires Spaced(streak) && 5 <= n <= |streak|
    ensures streak[n - 1] >= streak[4] + (n - 5) * 300_000
  {
    if n > 5 { SpacedAdds(streak, n - 1); }
  }

  /** The lockout bound, over every run: the n-th wrong guess of a streak (n >= 5) comes at least
      (n - 5) * 300000 ms after the fifth. */
  lemma GuessesAreSpaced(e: Env, events: seq<Event>, key: Key, n: nat)
    requires 5 <= n <= |Streak(e, events, key)|
    ensures var streak := Streak(e, events, key);
            streak[n - 1] >= streak[4] + (n - 5) * 300_000
  {
    StreakIsSpaced(e, events, key);
    SpacedAdds(Streak(e, events, key), n);
  }

  predicate InOrder(s: seq<int>, until: int) {
    forall i :: 0 <= i < |s| ==> s[0] <= s[i] <= until
  }

  lemma {:induction false} StreakInOrder(e: Env, events: seq<Event>, key: Key, until: int)
    requires Ordered(events) && forall i :: 0 <= i < |events| ==> events[i].call.now <= until
    ensures InOrder(Streak(e, events, key), until)
  {
    if events != [] {
      var init, last := events[..|events| - 1], events[|events| - 1];
      StreakInOrder(e, init, key, last.call.now);
      var h := History(e, init, key);
      var effect := EffectOf(e, last.users, h, last.call, key);
      WrongOnlyWhenOpen(e, last.users, h, last.call, key);
      if effect == [] { assert h + effect == h; } else { assert effect == [effect[0]]; Grown(h, effect[0]); }
    }
  }

  /** How many wrong guesses fit in a span of time: a streak from `first` to `last` has at most
      5 + (last - first) / 300000 of them, whatever else happens in the run. */
  lemma GuessBudget(e: Env, events: seq<Event>, key: Key)
    requires Ordered(events) && Streak(e, events, key) != []
    ensures var s := Streak(e, events, key);
            (|s| - 5) * 300_000 <= s[|s| - 1] - s[0]
  {
    StreakInOrder(e, events, key, events[|events| - 1].call.now);
    if |Streak(e, events, key)| >= 5 {
      GuessesAreSpaced(e, events, key, |Streak(e, events, key)|);
    }
  }

  // ---------------------------------------------------------------- replies

  /** What a call is refused for, and in which order, given what happened to its combo before. */
  function Complaint(e: Env, users: map<int, User>, h: seq<Effect>, c: Call): Option<Error> {
    var actions := if c.Reset? then ["up"] else c.actions;
    if e.strip(c.device) == "" || |e.strip(c.device)| > 256 then Some(InvalidDeviceId)
    else if !c.Reset? && |actions| == 0 then Some(ComboEmpty)
    else if !c.Reset? && |actions| > 32 then Some(ComboTooLong)
    else if !c.Reset? && !SoundActions(e, actions) then Some(InvalidComboAction)
    else if c.user !in users then Some(UserNotFound)
    else if users[c.user].status != Active then Some(InactiveUser)
    else if users[c.user].role == Guest then Some(GuestForbidden)
    else if c.Set? && |actions| < 3 then Some(IntegrityError)
    else if c.Verify? && Standing(h).None? then Some(ComboNotSet)
    else if c.Verify? && Shut(h, c.now) then Some(ComboLocked)
    else None
  }

  /** A call is refused for what its history makes wrong with it, and otherwise answered. */
  ghost predicate ReplyFits(e: Env, users: map<int, User>, rows: Rows, c: Call, h: seq<Effect>) {
    var reply := AnswerTo(e, users, rows, c).reply;
    match Complaint(e, users, h, c)
    case Some(error) => reply == Err(error)
    case None => reply.Ok? && (reply.value.None? <==> c.Reset? && !EverMade(h))
  }

  lemma SetFits(e: Env, users: map<int, User>, rows: Rows, c: Call, h: seq<Effect>)
    requires c.Set?
    ensures ReplyFits(e, users, rows, c, h)
  {
    CleanUpReads(e, c.device, c.actions);
  }

  lemma ResetFits(e: Env, users: map<int, User>, rows: Rows, c: Call, h: seq<Effect>)
    requires c.Reset? && Agree(rows, (c.user, e.strip(c.device)), h, c.now)
    ensures ReplyFits(e, users, rows, c, h)
  {
    CleanUpReads(e, c.device, []);
  }

  lemma VerifyFits(e: Env, users: map<int, User>, rows: Rows, c: Call, h: seq<Effect>)
    requires c.Verify? && Agree(rows, (c.user, e.strip(c.device)), h, c.now)
    ensures ReplyFits(e, users, rows, c, h)
  {
    CleanUpReads(e, c.device, c.actions);
  }

  /** Every call of every run is answered from the history of the calls before it. A guess that is
      let through is right exactly when it matches the combo made last. */
  lemma RepliesFollowHistory(e: Env, events: seq<Event>, users: map<int, User>, c: Call)
    ensures var h := History(e, events, (c.user, e.strip(c.device)));
            var reply := AnswerTo(e, users, Run(e, events), c).reply;
            match Complaint(e, users, h, c)
            case Some(error) => reply == Err(error)
            case None =>
              && reply.Ok? && (reply.value.None? <==> c.Reset? && !EverMade(h))
              && (c.Verify? ==>
                    && Standing(h).Some?
                    && var made := Standing(h).value;
                       (reply.value.value.verified
                        <==> e.matches(Cleaned(e, c.actions), e.hash(made.actions, made.salt))))
  {
    var key := (c.user, e.strip(c.device));
    var h := History(e, events, key);
    RowMirrorsHistory(e, events, key);
    MirrorsAgree(e, Run(e, events), key, h, c.now);
    match c {
      case Set(_, _, _, _, _) => SetFits(e, users, Run(e, events), c, h);
      case Reset(_, _, _) => ResetFits(e, users, Run(e, events), c, h);
      case Verify(_, _, _, _) => VerifyFits(e, users, Run(e, events), c, h);
    }
    if c.Verify? && Complaint(e, users, h, c).None? {
      SomethingHappens(e, users, Run(e, events), c, key, h);
    }
  }

  /** The guesses of one user on one device, one after the other. */
  function Guesses(users: map<int, User>, user: int, device: string, guesses: seq<(seq<string>, int)>): (r: seq<Event>)
  {
    if guesses == [] then [] else
      var last := guesses[|guesses| - 1];
      Guesses(users, user, device, guesses[..|guesses| - 1])
      + [Event(users, Verify(user, device, last.0, last.1))]
  }

  /** A combo that was just set is accepted at once by whoever enters the same actions. */
  lemma SetThenVerify(e: Env, users: map<int, User>, rows: Rows, stored: Call, guess: Call)
    requires stored.Set? && guess == Verify(stored.user, stored.device, stored.actions, guess.now)
    requires AnswerTo(e, users, rows, stored).reply.Ok?
    ensures var after := AnswerTo(e, users, AnswerTo(e, users, rows, stored).rows, guess);
            after.reply.Ok? && after.reply.value.Some? && after.reply.value.value.verified
  {
  }

  predicate AllWrong(e: Env, made: Effect, guesses: seq<(seq<string>, int)>)
    requires made.Made?
  {
    forall i :: 0 <= i < |guesses| ==>
      && SoundActions(e, guesses[i].0)
      && !e.matches(Cleaned(e, guesses[i].0), e.hash(made.actions, made.salt))
  }

  /** One guess that does not match is one more wrong guess. */
  lemma WrongGuessCounts(e: Env, users: map<int, User>, events: seq<Event>, c: Call)
    requires c.Verify? && SoundDevice(e, c.device) && MayUse(users, c.user) && SoundActions(e, c.actions)
    requires var h := History(e, events, (c.user, e.strip(c.device)));
             && Standing(h).Some? && |WrongGuesses(h)| < 5
             && !e.matches(Cleaned(e, c.actions), e.hash(Standing(h).value.actions, Standing(h).value.salt))
    ensures var key := (c.user, e.strip(c.device));
            var h, h' := History(e, events, key), History(e, events + [Event(users, c)], key);
            Standing(h') == Standing(h) && WrongGuesses(h') == WrongGuesses(h) + [c.now]
  {
    var all := events + [Event(users, c)];
    assert all[..|all| - 1] == events;
    Grown(History(e, events, (c.user, e.strip(c.device))), Wrong(c.now));
  }

  /** Up to five guesses in turn that do not match are as many wrong guesses. */
  lemma {:induction false} WrongGuessesCount(e: Env, users: map<int, User>, events: seq<Event>, user: int,
                                             device: string, guesses: seq<(seq<string>, int)>)
    requires SoundDevice(e, device) && MayUse(users, user) && |guesses| <= 5
    requires var h := History(e, events, (user, e.strip(device)));
             WrongGuesses(h) == [] && Standing(h).Some? && AllWrong(e, Standing(h).value, guesses)
    ensures var key := (user, e.strip(device));
            var h := History(e, events + Guesses(users, user, device, guesses), key);
            && Standing(h) == Standing(History(e, events, key)) && |WrongGuesses(h)| == |guesses|
            && (guesses != [] ==> WrongGuesses(h)[|guesses| - 1] == guesses[|guesses| - 1].1)
  {
    if guesses == [] {
      assert events + Guesses(users, user, device, guesses) == events;
    } else {
      var init, last := guesses[..|guesses| - 1], guesses[|guesses| - 1];
      WrongGuessesCount(e, users, events, user, device, init);
      var before, guess := events + Guesses(users, user, device, init), Verify(user, device, last.0, last.1);
      assert events + Guesses(users, user, device, guesses) == before + [Event(users, guess)];
      WrongGuessCounts(e, users, before, guess);
    }
  }

  lemma MadeStarts(e: Env, users: map<int, User>, events: seq<Event>, made: Call)
    requires made.Set? && Complaint(e, users, [], made).None?
    ensures var h := History(e, events + [Event(users, made)], (made.user, e.strip(made.device)));
            && WrongGuesses(h) == []
            && Standing(h) == Some(Made(made.now, Cleaned(e, made.actions), made.salt))
  {
    var start := events + [Event(users, made)];
    assert start[..|start| - 1] == events;
    Grown(History(e, events, (made.user, e.strip(made.device))),
          Made(made.now, Cleaned(e, made.actions), made.salt));
  }

  /** A run that shuts the door: a combo is made, five words that do not match are guessed, and until
      five minutes after the fifth even the right words are refused. */
  lemma FiveWrongGuessesLock(e: Env, users: map<int, User>, events: seq<Event>, made: Call,
                             guesses: seq<(seq<string>, int)>, now: int)
    requires made.Set? && Complaint(e, users, [], made).None? && |guesses| == 5
    requires AllWrong(e, Made(made.now, Cleaned(e, made.actions), made.salt), guesses)
    ensures var run := events + [Event(users, made)] + Guesses(users, made.user, made.device, guesses);
            var reply := AnswerTo(e, users, Run(e, run), Verify(made.user, made.device, made.actions, now)).reply;
            if now < guesses[4].1 + 300_000 then reply == Err(ComboLocked)
            else reply.Ok? && reply.value.Some? && reply.value.value.verified
  {
    var start := events + [Event(users, made)];
    MadeStarts(e, users, events, made);
    WrongGuessesCount(e, users, start, made.user, made.device, guesses);
    RepliesFollowHistory(e, start + Guesses(users, made.user, made.device, guesses), users,
                         Verify(made.user, made.device, made.actions, now));
  }
}
