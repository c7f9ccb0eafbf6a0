# Verified model of the local community server

A local server for a community network: accounts, chat, device unlocking, edge nodes and an internet
gateway, kept in SQLite tables and a few in-memory dictionaries. This project models the services in
which time, queues, lifecycles or interleaving make mistakes easy, and proves what they keep over
whole runs.

Each service is a class with the service's own tables and dictionaries as fields. Its methods follow
the code branch by branch, and each is tied to a specification function on the value of the whole
state, so a method can change nothing its specification does not name. The promises are then
lemmas about that function over every run: every sequence of calls, every interleaving of broadcasts,
every starting table where the property holds from any. Clock readings are parameters. A call that
raises is one transaction rolled back, as SQLite's connection context does.

The specification functions are themselves held to something else: for most services the effects and
replies of every call of a run are told a second time from the calls before it, or from the rows alone,
with conditions and numbers written out and without those functions, and the two are proved to
agree (`RepliesFollowHistory`, `GuardIsExact`, `ServedRowByRow`, `MessagesWereSent`, `NatRuleByRule`).

| file | what it models |
|---|---|
| `RateLimiter.dfy` | the per-client sliding-window request limiter |
| `BruteForce.dfy` | the login attempt guard and the login handler that drives it |
| `DeviceCombos.dfy` | device unlock combos and their lockout |
| `Broker.dfy` | realtime chat rooms while broadcasts are under way |
| `SyncQueue.dfy`, `SyncQueueLaws.dfy` | the edge sync queue, its API handlers, and what their runs keep |
| `SyncFates.dfy` | where each sync event comes from, which pull hands it out, and what settles it |
| `Attachments.dfy`, `ChatStore.dfy` | chats, members, messages and attachments |
| `ChatStoreLaws.dfy`, `ChatRoomLaws.dfy` | what runs of chat calls keep; who gets into a room, and how many rooms a user owns |
| `ChatPowers.dfy` | who may change what in the chat tables, and where rows come from |
| `Accounts.dfy` | accounts, sessions, bans and temporary blocks |
| `AutoModerator.dfy` | the batched scan for offensive messages |
| `Firewall.dfy` | the iptables reconciler |
| `EdgeNodes.dfy` | the edge-node allocator |
| `HardwareLog.dfy` | the hardware log's printer, parsers and evaluators |
| `ProxyCache.dfy` | the proxy's internet-access cache |
| `Prelude.dfy`, `Users.dfy`, `Ordering.dfy` | results, user records, and queries with ORDER BY |

## Where the code does not do what it says

The model follows the code. Where a promise fails, a lemma shows how, and where it holds only
sometimes, the exact condition is proved.

- The private flag alone keeps nobody out of a room: a code is asked for only where one is stored
  (server/app/services/chat.py:300-307). A private room keeps strangers out exactly when it has a code
  (`PrivateRoomClosedIff`). A new direct message has none (`StrangerEntersNewDm`), and as it has no
  owner either, only an administrator can give it one (`DmHasNoOwner`).
- A direct message is described as one-on-one, but any private room the two share is taken for
  theirs (`OneOnOneIff`; `GroupRoomTakenForDm`).
- The limit on custom chats is not checked where a direct message creates one (`LimitExceededIff`;
  `DmPassesLimit`), and a demoted moderator keeps every room (`DemotionKeepsRooms`).
- A send is made safe to retry by its client id, but the id is the chat's and not the author's: a member
  who uses an id another has used gets that other message back as a success, and their own is lost
  (`AnswersOwnMessageIff`; `SecondMessageLost`).
- The sync queue describes itself as last write wins (server/app/services/sync_queue.py:4-11). On a table
  with several rows for a key it is (`LastWriteWins`), but the key column is unique, so through the API
  the first write wins and the later payload is discarded (`FirstWriteWins`).
- The bound on recorded failures per window holds exactly for settings whose block lasts at least as
  long as the window (`WindowBudgetIffBlockCoversWindow`; `ShortBlockBreaksBudget`); the settings reader
  does not require that.
- The guard counts failures by login but blocks only addresses, so the login limit holds for each address
  and not over all of them (`LoginBudgetPerAddress`, `LoginBudgetOverAddresses`; `LoginBoundIsMet`).
- Administrators' bans ask for `revoke_user_sessions`, which is not defined, and the error is swallowed.
  Banned users are refused by status; their sessions come back with an unban (`UnbanRestoresSessions`).
  A temporary block placed over a ban replaces it and is later lifted by time (`BlockReplacesBan`).
- A session check that finds an expired session writes a revocation and then raises, so the
  revocation is rolled back (`CheckAcceptsIffGood`: a refusal changes nothing).
- The comment at server/app/services/network_service.py:446 says that the check makes the append
  conditional. Its answer is not used, so each run adds one subnet masquerade while the uplink has
  an address (`RepeatableIffNoAddress`).
- A scan of the auto-moderator that raises has moved its cursor but not committed its reports
  (`AbortMissesIff`; `AbortLosesReport`). Nothing in the server makes an auto-moderator, though: the
  routes at server/app/api/moderation.py:24 and 37 read `app.state.auto_moderator`, which is never set.
  As served, no scan runs.
- The capacity check of the edge-node allocator can refuse a free module, when a module was
  disabled under an active deployment (`RefusesIffStrandedCoverFree`; `FreeModuleRefused`).
- The proxy's cached verdicts may be older than the thirty seconds after which its cache is emptied:
  threads do not wait for each other, and a slow check stores what it looked up before the cache was
  emptied (`ThirtySecondsIffNotEmptied`; `LateStoreOutlives`). This takes a sessions table with an
  `ip_address` column, by which the proxy looks a session up. No migration makes that column; as shipped
  every lookup fails, its answer is always no, and no verdict goes stale.

Two more differences need no proof. The comment at server/app/services/http_proxy.py:96 says 60 seconds
where the code uses 30. The combo service accepts one to 32 actions, but the table refuses fewer than
three (server/migrations/0015_device_combo_hashes.sql:9), which SetCombo models.

## Model

| member | source | states |
|---|---|---|
| RateLimiter.InMemoryRateLimiter.Check | server/app/security/rate_limiter.py:56-92 | one call decides by the client's live window, changes only that client's deque, and says how long a refused client must wait |
| RateLimiter.KeysSeparateClients | server/app/security/rate_limiter.py:57-66 | two calls share a deque exactly when bucket and address agree, whatever text the address is |
| RateLimiter.ClientsDoNotInterfere | server/app/security/rate_limiter.py:56-92 | in the middle of any traffic a client's deque is the one its own calls alone would produce |
| RateLimiter.LiveIsWindow | server/app/security/rate_limiter.py:68-71 | popping the front of the deque leaves exactly the accepted calls newer than the window |
| RateLimiter.DequeIsSlidingWindow | server/app/security/rate_limiter.py:56-92 | after any run the deque is exactly the accepted times inside the window, and never longer than the limit |
| RateLimiter.WindowBudget | server/app/security/rate_limiter.py:56-92 | no half-open interval one window long holds more than the limit of accepted calls |
| RateLimiter.VerdictIsReference | server/app/security/rate_limiter.py:56-92 | the verdict on any call of any run is the one read off the definition of a sliding window, with no deque |
| RateLimiter.RefusedUntilHint | server/app/security/rate_limiter.py:72-84 | while the oldest entry is inside the window, calls to a full deque are refused and leave it unchanged |
| RateLimiter.RetryHintIsExact | server/app/security/rate_limiter.py:72-84 | after a refusal every call before the hinted moment is refused, and the next one is accepted if and only if it comes no earlier |
| RateLimiter.AnswersAreThrough | server/app/security/rate_limiter.py:8-92 | every call of every run is let through exactly when fewer than its limit were let through before it, from its address and on its kind of path, within its window; paths under `/auth/` have the limit and window of their own |
| RateLimiter.CallsWithinBudget | server/app/security/rate_limiter.py:56-92 | of the calls of any run from one address and on one kind of path, no half-open interval one window long holds more than the limit of those let through |
| BruteForce.BruteForceGuard.CheckAllowed | server/app/security/bruteforce.py:35-58 | an address is turned away exactly while its block lasts, and a block that has run out is forgotten |
| BruteForce.BruteForceGuard.RecordAttempt | server/app/security/bruteforce.py:60-129 | an attempt is recorded; a failure that reaches either limit inside the window blocks the address from now |
| BruteForce.Login | server/app/api/auth.py:96-171 | a blocked address is refused before its password is looked at, and only wrong credentials are recorded |
| BruteForce.GuardIsExact | server/app/security/bruteforce.py:35-129 | over every run in order, an address is shut out exactly while a recorded failure of its own, which made the failures of the address or of its login within the window reach a limit, is less than the block's length old; attempts are recorded exactly while it is not; every stored block ends the block's length after such a failure |
| BruteForce.RepliesAreExact | server/app/api/auth.py:96-171 | what every login of every run is answered, from the recorded attempts alone: refused until a block's end while shut out, let in, blocked by this failure exactly if it reaches a limit within the window, or refused |
| BruteForce.RunKeepsBudget | server/app/security/bruteforce.py:35-129 | with a block at least as long as the window, at every moment of every run an interval has at most the limit of failures, and a full one is over or blocked until it is |
| BruteForce.BlockEndNeverMovesEarlier | server/app/security/bruteforce.py:35-129 | over any run of logins a block's end only moves later, or the block has run out |
| BruteForce.ShortBlockBreaksBudget | server/app/security/bruteforce.py:60-129 | for every setting with a shorter block there is a run, with logins of at most five characters, that records one failure more than the limit in one window |
| BruteForce.WindowBudgetIffBlockCoversWindow | server/app/config.py:159-186 | the bound on failures per window holds over all runs if and only if the block lasts at least the window |
| BruteForce.LoginBudgetPerAddress | server/app/security/bruteforce.py:80-108 | with a block at least as long as the window, one login gets at most its limit of recorded failures from one address in any window, over every run |
| BruteForce.LoginBudgetOverAddresses | server/app/security/bruteforce.py:35-129 | from all addresses together one login gets at most its limit less one, and one more for each address |
| BruteForce.LoginBoundIsMet | server/app/security/bruteforce.py:35-129 | for any number of addresses there is a run that meets that bound, where the login limit is not above the address limit |
| DeviceCombos.DeviceComboService.SetCombo | server/app/services/device_combos.py:85-134 | stores a new hash and forgets failures and lock; refusals in the code's order, including the table's own check on the action count |
| DeviceCombos.DeviceComboService.ResetCombo | server/app/services/device_combos.py:136-163 | empties the hash, sets the count to three and clears the lockout, or reports that there was nothing to reset |
| DeviceCombos.DeviceComboService.VerifyCombo | server/app/services/device_combos.py:165-228 | evaluates a guess unless there is no combo or it is locked; updates count and lock by the result |
| DeviceCombos.RefusedCallsChangeNothing | server/app/services/device_combos.py:85-228 | a refused call changes nothing, and no call touches another user's or device's row |
| DeviceCombos.RowMirrorsHistory | server/app/services/device_combos.py:85-228 | after any run the row is what the calls alone say happened: the hash of the combo set last and not reset, the wrong guesses since, the lock from the fifth on, and when it was first set, last changed, opened and reset |
| DeviceCombos.RepliesFollowHistory | server/app/services/device_combos.py:85-228 | every call of every run is refused for what is wrong with it or its history, in the code's order, and a guess that is let through is right if and only if it matches the combo set last and not reset |
| DeviceCombos.FiveWrongGuessesLock | server/app/services/device_combos.py:165-228 | after any run: a combo is set, five guesses that do not match it are made, and even the right one is refused until five minutes after the fifth, and accepted from then on |
| DeviceCombos.GuessesAreSpaced | server/app/services/device_combos.py:165-228 | the n-th wrong guess of a streak comes at least (n - 5) * 300000 ms after the fifth |
| DeviceCombos.GuessBudget | server/app/services/device_combos.py:165-228 | a streak spanning a length of time holds at most five guesses plus one for each five minutes of it |
| DeviceCombos.SetThenVerify | server/app/services/device_combos.py:85-228 | a combo that was just set is accepted at once, whatever state the row was in before |
| Broker.ChatRealtimeBroker.ActiveCount | server/app/realtime/broker.py:16-17 | adds up all room sizes |
| Broker.ChatRealtimeBroker.OnlineUsers | server/app/realtime/broker.py:19-20 | the ids in the user map, each once |
| Broker.ChatRealtimeBroker.Connect | server/app/realtime/broker.py:22-29 | at fifty connections the socket is closed and nothing changes; otherwise it joins the room and the user map |
| Broker.ChatRealtimeBroker.Disconnect | server/app/realtime/broker.py:31-39 | takes one socket out of its room and the user map, and an empty room away |
| Broker.ChatRealtimeBroker.Snapshot | server/app/realtime/broker.py:42-43 | lists the room's sockets, each once |
| Broker.ChatRealtimeBroker.DropDead | server/app/realtime/broker.py:55-63 | takes the dead sockets out of the room, if it still exists, and an empty room away |
| Broker.PublishCall.SendNext | server/app/realtime/broker.py:48-53 | one send counts as delivered or puts its socket among the dead |
| Broker.PublishCall.Finish | server/app/realtime/broker.py:55-65 | cleans up only if some socket died, and returns the delivered count |
| Broker.TotalIsUserCount | server/app/realtime/broker.py:16-17 | the sum of the room sizes is the size of the user map |
| Broker.AlwaysInvariant | server/app/realtime/broker.py:22-65 | every interleaving of connects, disconnects and the steps of any number of broadcasts keeps the rooms and the broadcasts' own records consistent |
| Broker.BrokerPromise | server/app/realtime/broker.py:22-65 | in every reachable state no room is empty, no socket is in two, the user map covers exactly the rooms, and at most fifty connections are open |
| Broker.OnlineIffInSomeRoom | server/app/realtime/broker.py:19-39 | a user is listed as online exactly while one of their sockets is in some room |
| Broker.BroadcastAccounting | server/app/realtime/broker.py:41-65 | delivered plus dead make up the snapshot; exactly the dead leave, all from the broadcast's own room, and other rooms are untouched |
| Broker.LiveSocketsStay | server/app/realtime/broker.py:41-65 | a socket that does not disconnect and to which no send fails stays connected through every interleaving |
| Broker.ConnectedAfter | server/app/realtime/broker.py:22-65 | after any interleaving a connect joins its own room, on record for its user, exactly while fewer than fifty are on record; a disconnect takes exactly its socket away, and the end of a broadcast exactly those its sends failed for |
| Broker.BroadcastAfter | server/app/realtime/broker.py:41-65 | a broadcast begins with its room's sockets; each send counts if it succeeds and sets its socket aside if it fails; no other step touches it |
| SyncQueue.SyncQueueService.EnqueueEvent | server/app/services/sync_queue.py:81-121 | a new key adds one pending row; a known key resolves its duplicates instead |
| SyncQueue.SyncQueueService.ExpireEvents | server/app/services/sync_queue.py:293-314 | every pending or sent row that has run out expires and gets a tombstone; the others stay |
| SyncQueue.SyncQueueService.DequeuePending | server/app/services/sync_queue.py:123-150 | the oldest pending rows for the target, after expiry, at most a clamped limit |
| SyncQueue.SyncQueueService.MarkSent | server/app/services/sync_queue.py:151-163 | only a pending or sent row becomes sent and counts an attempt |
| SyncQueue.SyncQueueService.MarkAcknowledged | server/app/services/sync_queue.py:165-177 | the row becomes acknowledged, or the id is unknown |
| SyncQueue.SyncQueueService.MarkConflict | server/app/services/sync_queue.py:179-202 | the row goes to conflict with a tombstone; an unknown id violates the foreign key and changes nothing |
| SyncQueue.SyncQueueService.ResolveDuplicates | server/app/services/sync_queue.py:210-254 | all rows with a key go to conflict if one is marked, otherwise all but the newest expire |
| SyncQueue.PullPending | server/app/api/sync.py:69-83 | dequeue, mark each row sent, resolve each row's key, and return the refreshed rows |
| SyncQueue.Acknowledge | server/app/api/sync.py:86-100 | a reason reports a conflict, no reason acknowledges |
| SyncQueueLaws.RunWellFormed | server/app/services/sync_queue.py:266-280 | in every reachable state keys are unique, every expired event has a tombstone, and no tombstoned event is pending or sent |
| SyncQueueLaws.RunMovesForward | server/app/services/sync_queue.py:151-202 | between any two points of a run no row is lost or changes identity, none returns to pending, and only a pending or sent one is sent |
| SyncQueueLaws.PullHandsOutFront | server/app/api/sync.py:69-83 | a pull on a reachable table never fails, hands out the front of the waiting line in order, and leaves none of it pending |
| SyncQueueLaws.PullLeavesRest | server/app/api/sync.py:69-83 | the line after a pull is the line behind what it handed out |
| SyncQueueLaws.LineShortens | server/app/services/sync_queue.py:123-150 | time only takes those who have run out from the waiting line; the others keep their order |
| SyncQueueLaws.DrainIsServed | server/app/services/sync_queue.py:123-150 | pulls in a row hand out exactly what a reference definition without a queue serves from the line, whatever runs out meanwhile |
| SyncQueueLaws.DrainServesOrRunsOut | server/app/services/sync_queue.py:123-150 | what a drain hands out is in the order of the line and each once; with enough pulls every waiting event is handed out or had run out by the last pull |
| SyncQueueLaws.DrainEmptiesLine | server/app/services/sync_queue.py:123-150 | the special case in which nothing runs out: k pulls hand out the first k batches of the line, with no gap or repeat |
| SyncQueueLaws.EnoughPullsDrain | server/app/services/sync_queue.py:123-150 | in that case enough pulls hand out exactly the whole line |
| SyncQueueLaws.HandedOutOnce | server/app/api/sync.py:55-100 | over any run of pushes, pulls, acknowledgements and collections no event is handed out twice |
| SyncQueueLaws.AttemptsCountHandOuts | server/app/services/sync_queue.py:151-163 | after any run the attempt count is one on every event handed out and zero on every other |
| SyncQueueLaws.ResolveUnique | server/app/services/sync_queue.py:210-254 | under unique keys resolution is the identity on an unmarked event and sends a marked one to conflict |
| SyncQueueLaws.LastWriteWins | server/app/services/sync_queue.py:210-254 | on any table the newest row by creation time and id is kept and returned, every other row with the key expires with a tombstone, and nothing else changes |
| SyncQueueLaws.ManualMarkerWins | server/app/services/sync_queue.py:210-254 | one marked row sends every row with the key to conflict and buries none |
| SyncQueueLaws.ResolveTwice | server/app/services/sync_queue.py:210-254 | resolving a key again changes no row |
| SyncQueueLaws.EnqueueTwice | server/app/services/sync_queue.py:81-121 | pushing an event again at any later time adds no row, changes the identity, payload and times of none, and answers with the first one's |
| SyncQueueLaws.FirstWriteWins | server/app/services/sync_queue.py:4-11 | through the API a push whose key is stored discards its payload and leaves the stored row, or sends it to conflict if that row is marked |
| SyncFates.ServedRowByRow | server/app/services/sync_queue.py:81-314 | what each request of any run makes of every single event and tombstone: which it expires, hands out, acknowledges, sends to conflict or leaves; only an accepted push under a new key adds an event, its own |
| SyncFates.PullAnswers | server/app/api/sync.py:69-83 | a pull answers with exactly the available events that fewer than its limit (one to five hundred) are older than, as it leaves them, oldest first |
| SyncFates.AckAnswers | server/app/api/sync.py:86-100 | an acknowledgement answers with the event it names, or fails, changing nothing, exactly when there is none |
| SyncFates.PushRows | server/app/api/sync.py:55-66 | a push is refused exactly when its type, source or target is blank, and otherwise answered with the event stored under its key |
| SyncFates.EventsWerePushed | server/app/services/sync_queue.py:81-121 | over any run every event was pushed by some push of the run and carries its type, payload, source, target, key and moments |
| SyncFates.HandedOutWasPushed | server/app/api/sync.py:55-83 | every event a pull for a target hands out was pushed for that target in the run so far, and carries that push's type, payload and source |
| SyncFates.PushedWaits | server/app/services/sync_queue.py:81-150 | an accepted push under a new key puts an event in the line of its own target, and of no other, exactly until the payload's expiry or seven days after its creation |
| Attachments.ListForMessages | server/app/services/media.py:177-192 | one query for many messages, dealt out by message, gives for each message what its own query would |
| Attachments.BatchShare | server/app/services/media.py:306-311 | a message's share of the batched rows is its own ordered listing |
| Attachments.LinkedReadsBack | server/app/services/chat.py:666-719 | links written for a new message read back as the same ids in order, and no other message reads differently |
| Attachments.DistinctKeepsFirstOccurrences | server/app/services/chat.py:689-694 | the normalized ids are the positive requested ones, each once, ordered by first occurrence |
| ChatStore.ChatService.AttachMedia | server/app/services/chat.py:696-719 | links the attachments in order, or reports the first that is missing or someone else's |
| ChatStore.ChatService.SendMessage | server/app/services/chat.py:442-510 | refuses, answers a repeat with the stored message, or posts; a failure after the insert leaves every table as it was |
| ChatStore.ChatService.CreateCommonChat | server/app/services/chat.py:83-118 | only an active administrator adds a common chat, and only under a title that is not blank |
| ChatStore.ChatService.CreateCustomChat | server/app/services/chat.py:120-199 | adds the chat with its owner row, under a title that is not blank, after the role and count limits; a code makes it private |
| ChatStore.ChatService.ConfigurePrivateRoom | server/app/services/chat.py:347-440 | owner or administrator changes title, code and private flag; clearing the flag clears the code |
| ChatStore.ChatService.JoinPrivateChat | server/app/services/chat.py:275-326 | a member keeps their role, and anyone but an administrator needs the code of a private room that has one |
| ChatStore.ChatService.AddChatMember | server/app/services/chat.py:232-273 | owner or administrator adds a plain member; an existing role is kept |
| ChatStore.ChatService.GetOrCreateDm | server/app/services/chat.py:802-838 | the first private custom room both belong to, or a new one with both |
| ChatStore.ChatService.DeleteOneMessage | server/app/services/chat.py:849-860 | the author or staff removes one message with its links |
| ChatStore.ChatService.DeleteWholeChat | server/app/services/chat.py:862-867 | removes the chat, its members, its messages and their links |
| ChatStore.ChatService.ClearChatMessages | server/app/services/chat.py:869-873 | removes exactly the chat's messages and counts them |
| ChatStore.ChatService.ClearChatMessagesRange | server/app/services/chat.py:875-879 | removes exactly the chat's messages of the period and counts them |
| ChatStore.ChatService.DeleteEveryChat | server/app/services/chat.py:903-909 | removes all messages and members and all custom chats, and counts those chats |
| ChatStore.ChatService.Reset | server/app/services/chat.py:881-891 | removes all content and every user who is no administrator, unless a row elsewhere keeps one of them from being deleted: then nothing changes |
| ChatStoreLaws.RunKeeps | server/app/services/chat.py:83-909 | over any run a code implies the private flag, common chats are never private, members, messages and links refer to rows that exist, and client message ids are unique per chat |
| ChatStoreLaws.FailedSendChangesNothing | server/app/services/chat.py:442-510 | a send that raises or repeats leaves every table and the chat's time as they were |
| ChatStoreLaws.SendReadsBack | server/app/services/chat.py:442-510 | a new message reads back the positive requested attachments in first-occurrence order, at most eight, and other messages read as before |
| ChatStoreLaws.RetriesAreSafe | server/app/services/chat.py:477-490 | over any run that does not remove their message, whatever else it removes, all successful sends with one chat and client id return the same id, and exactly that one row is left for them |
| ChatStoreLaws.AnswersOwnMessageIff | server/app/services/chat.py:481-490 | a successful send answers with its author's message if and only if nobody else has sent under that client id in that chat |
| ChatPowers.SendSucceedsIff | server/app/services/chat.py:442-510 | a send succeeds if and only if its author is active and belongs to the chat, it is not blank, it names at most eight attachments, and these are the author's own unless it repeats a client id |
| ChatPowers.MessagesWereSent | server/app/services/chat.py:442-604 | over any run every new message was sent, in these words, by a call whose author was active at that moment and was an administrator, the chat's owner or a member, or the chat was common |
| ChatPowers.MessagesWereRemoved | server/app/services/chat.py:849-909 | over any run a message that is gone was removed by its author, by staff, or with its chat, its period or everything |
| ChatPowers.MessageRemovedIff | server/app/services/chat.py:849-909 | which call removes a message, both ways; until then it stays as it was sent |
| ChatPowers.UsersAfter | server/app/services/chat.py:881-891 | accounts go only with a reset that goes through, and then exactly those who are no administrators |
| ChatPowers.UploadsAfter | server/app/services/chat.py:881-891 | uploads stay until a reset takes their owner away |
| ChatPowers.LinksFollowMessages | server/app/services/chat.py:849-909 | a message's attachment links stay exactly as long as the message |
| ChatPowers.ChatOpenedIff | server/app/services/chat.py:83-199 | which call opens a chat, both ways: a titled common one by an active administrator, a titled custom one within role and limit, or a direct message between active users who share no private room; with this record |
| ChatPowers.ChatClosedIff | server/app/services/chat.py:862-909 | which call removes a chat, both ways |
| ChatPowers.ChatChangedOnly | server/app/services/chat.py:347-440 | a chat's record changes only by an active owner or administrator configuring it, in the way the call says, or by the time of a new message |
| ChatPowers.MemberEntersIff | server/app/services/chat.py:120-326 | which call makes somebody a member, both ways, and in which role |
| ChatPowers.MemberLeavesIff | server/app/services/chat.py:862-909 | members stay in their role until their chat or everything goes |
| ChatPowers.ChatsWereOpened | server/app/services/chat.py:83-199 | over any run every new chat was opened, under its kind and owner, by somebody who might open it at that moment |
| ChatRoomLaws.SecondMessageLost | server/app/services/chat.py:481-490 | on a new server, a second member's send under a client id the first has used succeeds, stores nothing and shows the first's message |
| ChatStoreLaws.CreatedChatKeepsOwner | server/app/services/chat.py:120-199 | a custom chat keeps exactly one owner row, the one its record names, for as long as it exists, whatever else is called |
| ChatRoomLaws.MembersWereAdmitted | server/app/services/chat.py:120-326 | over any run every new member was invited (as an administrator, by the code, by an owner or administrator, or by the room being made with them) or walked in while the room had no code |
| ChatRoomLaws.StrangerEntersIff | server/app/services/chat.py:299-307 | an active user without a role in a custom room enters if and only if it is not private, has no code, or the code verifies |
| ChatRoomLaws.PrivateRoomClosedIff | server/app/services/chat.py:275-326 | at every point of every run a private room keeps strangers without the code out if and only if it has a code |
| ChatRoomLaws.StrangerEntersNewDm | server/app/services/chat.py:828-831 | any active third user enters a new direct message, which is private and has no code |
| ChatRoomLaws.DmHasNoOwner | server/app/services/chat.py:828-834 | over any run a room made for a direct message has no owner, so nobody but an administrator ever configures it or adds a member |
| ChatRoomLaws.CodedRoomInvites | server/app/services/chat.py:120-326 | nobody comes uninvited into a room that has a code whenever it exists |
| ChatRoomLaws.CodeOpensRoom | server/app/services/chat.py:721-767 | the code a room was made with, or was last given, opens it to every active user |
| ChatRoomLaws.LimitExceededIff | server/app/services/chat_limits.py:80-98 | a call takes an ordinary user above the limit of custom chats exactly when, at the limit, they open a direct message to another active user with whom they share no private room |
| ChatRoomLaws.LimitHolds | server/app/services/chat_limits.py:23-108 | over any run without promotions or direct messages of their own, an ordinary user never owns more custom chats than the limit |
| ChatRoomLaws.DmPassesLimit | server/app/services/chat.py:825-831 | on a new server, five titled rooms and a direct message leave an ordinary user with six custom chats |
| ChatRoomLaws.DemotionKeepsRooms | server/app/services/admin_users.py:331-351 | a moderator with any number of rooms keeps them all when made an ordinary user |
| ChatRoomLaws.DmFindsPairRoom | server/app/services/chat.py:802-838 | opening a direct message from either side leads to the same room, and an existing one is returned unchanged |
| ChatRoomLaws.OneRoomPerPair | server/app/services/chat.py:802-838 | opening a direct message again from either side creates nothing, after any calls that leave the first room in place and private; it is the same room exactly when no older one has come to be shared, and none has unless somebody was put into an existing room or one was made private |
| ChatRoomLaws.OneOnOneIff | server/app/services/chat.py:802-838 | the room has the two as its only members exactly when the first private room they share, if any, has no third |
| ChatRoomLaws.GroupRoomTakenForDm | server/app/services/chat.py:802-838 | on a new server, a private room to which two users were added is returned as their direct message, third member included |
| Accounts.AccountService.RefreshTemporaryBlock | server/app/services/auth.py:282-322 | lifts a block exactly when it has run out, and says whether it did |
| Accounts.AccountService.LoginWithPassword | server/app/services/auth.py:84-128 | the password decides before the status; a run-out block is lifted only if the login succeeds |
| Accounts.AccountService.LoginByUserId | server/app/services/auth.py:130-145 | opens a session for an active account and lifts no block |
| Accounts.AccountService.LogoutSession | server/app/services/auth.py:147-161 | revokes an unrevoked session and says whether there was one |
| Accounts.AccountService.RevokeAllSessionsExcept | server/app/services/auth.py:163-173 | revokes every other account's unrevoked sessions, and counts them |
| Accounts.AccountService.CheckSession | server/app/services/auth.py:175-263 | the refusals in order; an expired session's revocation and a refused account's changes are rolled back |
| Accounts.AccountService.BanUser | server/app/services/admin_users.py:112-149 | staff ban another account: status and restriction change together, sessions do not |
| Accounts.AccountService.UnbanUser | server/app/services/admin_users.py:151-178 | staff make an account active and clear its restriction's end |
| Accounts.AccountService.TemporaryBlockUser | server/app/services/admin_users.py:180-229 | staff block another account for one minute to seven days |
| Accounts.AlwaysConsistent | server/app/services/admin_users.py:446-479 | in every reachable state an account is blocked exactly when its restriction has an end |
| Accounts.CheckAcceptsIffGood | server/app/services/auth.py:175-263 | at every point of every run a session is accepted if and only if it is stored, unrevoked and unexpired and its account is active or its block has run out |
| Accounts.LoginAcceptsIff | server/app/services/auth.py:84-128 | at every point of every run a login succeeds if and only if the password is right, the token is fresh, and the account is active or its block has run out; a refusal changes nothing |
| Accounts.LoginOpensSession | server/app/services/auth.py:335-354 | the session of a login is accepted until it expires and refused from then on |
| Accounts.LogoutEndsSession | server/app/services/auth.py:147-161 | a logged-out session is never accepted again, and no other session is touched |
| Accounts.RevocationShutsOthersOut | server/app/services/auth.py:163-173 | after a mass revocation, until somebody else logs in, no session but that account's is accepted, whatever is called; its own are as good as they were |
| Accounts.DeadSessionsStayDead | server/app/services/auth.py:147-263 | a revoked or expired session is never accepted again, whatever is called afterwards |
| Accounts.BanLasts | server/app/services/admin_users.py:112-149 | a ban, even over a temporary block, is lifted by nothing but an unban or a new block |
| Accounts.BlockReplacesBan | server/app/services/admin_users.py:180-229 | a temporary block over a ban lets the account's sessions back in from the moment it has run out |
| Accounts.UnbanRestoresSessions | server/app/services/admin_users.py:112-178 | a session from before a ban is refused during it and, unless expired, accepted again after the unban |
| Accounts.StatusWasGiven | server/app/services/admin_users.py:112-229 | over any run an account whose status or end of block changed was given it by an active administrator or moderator, not by itself unless unbanned, or had a block lifted that had run out |
| Accounts.StaffSucceedIff | server/app/services/admin_users.py:407-443 | a ban, unban or block succeeds if and only if the account exists and an active administrator or moderator asks for it, for another account and for one minute to seven days where the code demands that |
| Accounts.SessionsWereOpened | server/app/services/auth.py:84-145 | over any run every new session was opened for its account by a login with the right password, or by id, that met the conditions at that moment |
| Accounts.SessionAfter | server/app/services/auth.py:84-173 | what each call makes of every session: opened by such a login, revoked by its own logout or another account's mass revocation, and otherwise unchanged |
| AutoModerator.AutoModerator.ScanNew | server/app/services/auto_moderator.py:58-72 | reads the next hundred messages, files a report for each offensive one without one, and moves the cursor past them |
| AutoModerator.NeverReportedTwice | server/app/services/auto_moderator.py:58-72 | over any run of scans, aborted scans, restarts, posts and deletions each message has at most one report |
| AutoModerator.NothingMissedWithoutAborts | server/app/services/auto_moderator.py:58-72 | while scans return normally, every offensive message the cursor has passed has a report |
| AutoModerator.NewReportsQuoteMessages | server/app/services/auto_moderator.py:58-72 | a scan keeps all reports, and each new one names an offensive message beyond the old cursor, its chat and author, and quotes its first 200 characters |
| AutoModerator.AbortMissesIff | server/app/services/auto_moderator.py:58-72 | a scan that raises keeps that promise exactly when no row it passed was offensive and unreported |
| AutoModerator.AbortLosesReport | server/app/services/auto_moderator.py:58-72 | an offensive post read by a scan that raises has no report, however many scans follow |
| AutoModerator.ScansCatchUp | server/app/services/auto_moderator.py:58-72 | ceil(n / 100) scans over n waiting messages leave exactly one report for each offensive one and nothing waiting |
| AutoModerator.ScanReadsHundred | server/app/services/auto_moderator.py:58-72 | a scan reports exactly the offensive ones without a report among the first hundred messages beyond the cursor, and moves it past exactly those hundred |
| Firewall.NetworkService.DeleteNatRule | server/app/services/network_service.py:35-42 | the delete loop ends and removes every occurrence of the rule and nothing else |
| Firewall.NetworkService.EnsureNatRule | server/app/services/network_service.py:44-49 | appends the rule unless it is there |
| Firewall.NetworkService.EnsureUplinkRouting | server/app/services/network_service.py:441-454 | with an address, appends the masquerade and the two forward rules whatever the checks said |
| Firewall.NetworkService.ApplyIptablesRules | server/app/services/network_service.py:502-548 | both tables after one run: the routing appends, the flushes, then the rules of every access point and uplink in order |
| Firewall.EditsNormalForm | server/app/services/network_service.py:35-49 | any sequence of deletes and resets leaves the rules it does not mention, in their old order, then the rules it puts |
| Firewall.NatAfterRuns | server/app/services/network_service.py:502-548 | the nat table after n runs from any table: foreign rules in their old order, n subnet masquerades if there is an address, then the managed rules once each |
| Firewall.ForwardAfterRuns | server/app/services/network_service.py:533-548 | the forward table after any number of runs is as after the first: foreign rules in order, then the managed ones |
| Firewall.ReconciledExactlyOnce | server/app/services/network_service.py:502-548 | after any number of runs from any tables every redirect, masquerade and forward rule occurs exactly once, and no stale portal rule is left |
| Firewall.RepeatableIffNoAddress | server/app/services/network_service.py:441-454 | a further run leaves the nat table unchanged if and only if the uplink has no address; otherwise it grows by one rule |
| Firewall.NatRuleByRule | server/app/services/network_service.py:441-548 | the nat table after n runs, rule by rule and word by word: others' rules in their old order, n subnet masquerades if there is an address, both redirects of every access point, the masquerade of every uplink |
| Firewall.ForwardRuleByRule | server/app/services/network_service.py:533-548 | the forward table likewise: others' rules, then the two rules of every uplink and access point, in turn |
| EdgeNodes.EdgeNodeService.ResolveEdgeModule | server/app/services/edge_nodes.py:230-240 | the first module with that id or slug decides, even if a later one could be deployed to |
| EdgeNodes.EdgeNodeService.DeployNode | server/app/services/edge_nodes.py:59-131 | the refusals in order, or one new active deployment |
| EdgeNodes.EdgeNodeService.StopNode | server/app/services/edge_nodes.py:133-151 | stops the deployment, or reports that there is none |
| EdgeNodes.EdgeNodeService.SetModuleEnabled | server/app/services/module_registry.py:137-186 | sets one module to detected or absent and touches no deployment |
| EdgeNodes.AlwaysSound | server/app/services/edge_nodes.py:76-151 | over any run there are at most four active deployments and never two on one module |
| EdgeNodes.ServerRegistry | server/app/services/module_registry.py:23-97 | on the server's own registry, over any run, seeding it again adds nothing and at most two modules can be deployed to, which is the premise of the next results |
| EdgeNodes.StopUndoesDeploy | server/app/services/edge_nodes.py:76-151 | stopping a new deployment leaves as many active ones, on the same modules, as before it, and the older rows as they were |
| EdgeNodes.RefusesIffStrandedCoverFree | server/app/services/module_registry.py:249-257 | with at most four usable edge modules the capacity check refuses exactly when the busy modules since disabled are at least as many as the free ones |
| EdgeNodes.FreeModuleRefused | server/app/services/edge_nodes.py:76-131 | on a new server with its seeded registry: both edge modules on, the esp32 deployed to and switched off, and the m5stamp, ready and free, is refused for capacity |
| EdgeNodes.FreeModuleHasCapacity | server/app/services/edge_nodes.py:76-131 | as long as no module is disabled under a deployment, a free usable module is never refused for capacity |
| EdgeNodes.DeployGrantedIff | server/app/services/edge_nodes.py:59-131 | a deployment goes through if and only if an active administrator asks, with network and password, for a name whose first module is a detected board without a deployment, while fewer than four and fewer than the boards are standing; then it stands on that module |
| EdgeNodes.MovesOnlyItsOwn | server/app/services/edge_nodes.py:59-151 | a stop stops its own deployment, a switch switches its own module, and nothing else in the tables moves |
| EdgeNodes.DeploymentsWereGranted | server/app/services/edge_nodes.py:59-131 | over any run every new deployment was granted on its module at that moment |
| HardwareLog.BuildMarkdown | docs/tools/new_hardware_log.py:90-135 | the text of a new log |
| HardwareLog.ParseRaw | docs/tools/evaluate_hardware_log.py:79-93 | the raw result cell of each scenario row, the last row winning |
| HardwareLog.ParseOutcomes | docs/tools/evaluate_all_hardware_logs.py:117-133 | the reading of each of those cells, computed as the rows are parsed |
| HardwareLog.CountOutcomes | docs/tools/evaluate_field_ready_gate.py:131-148 | how many scenarios have each outcome |
| HardwareLog.EvaluateOne | docs/tools/evaluate_hardware_log.py:39-64 | parse, count and missing rows of one log, and the decision with missing rows |
| HardwareLog.EvaluateAmongAll | docs/tools/evaluate_all_hardware_logs.py:79-104 | parse and count of one log, and the decision without missing rows |
| HardwareLog.EvaluateFieldReady | docs/tools/evaluate_field_ready_gate.py:34-86 | the counts and the decision from the five gates |
| HardwareLog.LinesOfJoin | docs/tools/new_hardware_log.py:90-135 | joined lines without breaks of their own are split back as they were, up to a final empty one |
| HardwareLog.RowReadsBack | docs/tools/new_hardware_log.py:116-121 | a printed scenario row is parsed as that scenario with an empty result |
| HardwareLog.PrintedLogReadsBack | docs/tools/new_hardware_log.py:90-135 | whatever the date, session, tag and profile texts are, a printed log parses with all twenty scenarios present and without a result |
| HardwareLog.PrintedLogIsPending | docs/tools/evaluate_hardware_log.py:39-93 | every evaluator counts twenty pending scenarios in it, misses none and decides nothing |
| HardwareLog.EvaluatorsAgree | docs/tools/evaluate_all_hardware_logs.py:79-153 | on every text both log evaluators decide alike, on counts that add up to all scenarios |
| HardwareLog.GateDecides | docs/tools/evaluate_field_ready_gate.py:34-148 | NO-GO if and only if some scenario failed; GO if and only if all passed and both documents are in order |
| HardwareLog.FilledLogCounts | docs/tools/evaluate_all_hardware_logs.py:79-133 | whatever stands above, a log whose rows say lower-case words, with ticks or without, is counted by those words, and no row is missing |
| HardwareLog.FilledLogDecides | docs/tools/evaluate_hardware_log.py:39-93 | on the text of such a log both evaluators decide NO-GO if and only if some row says fail, and GO if and only if every row says pass |
| HardwareLog.FilledLogAtGate | docs/tools/evaluate_field_ready_gate.py:34-167 | and so does the gate, for GO only with both documents in order |
| HardwareLog.OpenRowIsIgnored | docs/tools/evaluate_hardware_log.py:79-93 | a row whose result cell is not closed is no row |
| ProxyCache.InternetCheck.CheckInternet | server/app/services/http_proxy.py:116-139 | an uninterrupted check: an old cache is emptied as a whole, a stored verdict is returned, and a looked-up one is stored |
| ProxyCache.VerdictAtMostThirtySecondsOld | server/app/services/http_proxy.py:116-139 | while checks do not overlap, every verdict is one the database would have given within the last thirty seconds |
| ProxyCache.CheckedOnceInThirtySeconds | server/app/services/http_proxy.py:116-139 | until the cache is more than thirty seconds old, an address that was checked gets the same verdict again, whatever the database says by then |
| ProxyCache.CheckCall.AskCache | server/app/services/http_proxy.py:118-123 | the first step of a thread: empties an old cache and reads it |
| ProxyCache.CheckCall.LookUpAddress | server/app/services/http_proxy.py:125-136 | the second step: what the database says at that moment |
| ProxyCache.CheckCall.StoreFound | server/app/services/http_proxy.py:138-139 | the third step: stores and returns it, whatever happened to the cache since |
| ProxyCache.StaleByLookupToStore | server/app/services/http_proxy.py:116-139 | over every interleaving of the threads' steps a cached verdict is older than thirty seconds by no more than its check took from lookup to store |
| ProxyCache.ThirtySecondsIffNotEmptied | server/app/services/http_proxy.py:116-139 | every later reader finds it at most thirty seconds old if and only if the cache was not emptied between its lookup and its store |
| ProxyCache.LateStoreOutlives | server/app/services/http_proxy.py:116-139 | given a database that can be asked by address, for every delay there is a run in which a verdict is handed out thirty seconds and that delay after the database last gave it |

## Left out

- HTTP routes, request models, payload builders and pages, except the three handlers in the table.
- SQL text, connections, schema creation and JSON: tables are maps or sequences, and each SQL statement is the set operation it performs.
- Password and combo hashing, room-code hashing, random tokens, lower-casing, stripping and the offensive-word patterns: functions or predicates the model is given, with only the laws it states for them.
- Clocks: readings are parameters, and the runs that need it take them in order.
- Concurrent requests to one service: each call is one step, except that the broker's broadcasts and the proxy's checks are cut where others can come in between. Two logins that check before either records are therefore not modelled.
- SyncQueue.PullPending: has one clock reading for the whole request, where the code takes one for each service call.
- SyncQueueLaws.DrainEmptiesLine: asks that no pending event runs out between the pulls; DrainServesOrRunsOut does not.
- SyncQueueLaws.EnoughPullsDrain: asks the same.
- ChatStore.ChatService.Reset: is given the users whom rows of other tables keep from being deleted; of what a deleted account takes with it, and of the sessions, pairings and applications the reset also clears, only uploads are modelled.
- ChatStore.ChatService.CreateCustomChat: has the default limit of five custom chats, where the constructor takes it as a parameter, and stores no description and no avatar.
- ChatStore.ChatService.GetOrCreateDm: takes shared rooms in id order, where the query states no order; the new room's title is a parameter.
- ChatStore.ChatService.SendMessage: includes the check of the draft that its callers make first, as do the calls that create chats; lengths limited by the request models are left out.
- ChatStore.ChatService.CreateCommonChat: stores no description and no creation time.
- ChatStore.ChatService.ConfigurePrivateRoom: changes no description and no avatar.
- Chat descriptions, avatars, creation times, listings, search, the default common chat and clearing the global chat.
- Attachments of support tickets, which repeat those of messages.
- The middleware that exempts paths from the request limiter.
- Accounts.AccountService.LoginWithPassword: has no client kind or access mode, which the code passes on but the decision ignores.
- Registration, roles, deletion of accounts, and the device blacklist.
- AutoModerator.AutoModerator.ScanNew: writes no author login, found words or time into a report; the thread that calls it and resolving reports by hand are left out.
- Firewall.NetworkService.ApplyIptablesRules: has no commands that fail or time out, no routing table, no saved rules and no IP forwarding; interfaces have distinct names because they are the primary key of their table.
- Firewall.NetworkService.DeleteNatRule: has no delete command that fails, where the code would stop the loop.
- EdgeNodes.EdgeNodeService.SetModuleEnabled: stores no heartbeat and no feature flags.
- EdgeNodes.EdgeNodeService.DeployNode: stores no network name, password hash or profile, and does not seed the registry before each read, which ServerRegistry shows would add nothing.
- Hardware detection, which sets module states from devices found.
- HardwareLog.FilledLogDecides: is about rows for distinct ids whose result is a word in lower-case letters, which lower-casing leaves alone, above lines that are no table rows, as the printed log has them; so are FilledLogCounts and FilledLogAtGate.
- HardwareLog.EvaluateAmongAll: takes one log at a time; finding, naming and sorting the log files is left out, as is choosing the next session number.
- HardwareLog.EvaluateFieldReady: is given what the two other documents contain as two truth values.
- ProxyCache.InternetCheck.CheckInternet: makes one lookup at one moment of the code's two queries, and a database error counts as an answer of no.
- ProxyCache.CheckCall.AskCache: reads the clock, empties and reads the cache in one step; a switch of threads inside that step is not modelled.
- ProxyCache.VerdictAtMostThirtySecondsOld: is about checks that do not overlap; StaleByLookupToStore is about all.
- Relaying, TLS, banner injection, Wi-Fi control and system services.
- Applications, blog, incidents, shutdown, modes, device catalogue, RFID, activity log and configuration: their calls check a request and write a row, and keep nothing across calls.
