# Model of the drive server's stateful kernels

A Dafny model of the parts of the drive server whose correctness spans many calls, goroutines or crashes: the three
rate limiters, the WebSocket hub, the authorization of live editing sockets, upload confirmation, the audit archive and
its restore, and four small kernels (zip entry names, child restarts, the search cache key, the content security
policy). What one call computes is a function or an in-place method proved against one; what the system promises is a
lemma over every run of those calls.

Times are whole nanoseconds (milliseconds in `Reputation`), tokens are exact reals, clocks are parameters. Libraries
and stores appear by the contract their callers rely on: an atomic script, an atomic insert-if-absent, a bounded
first-in-first-out channel.

## The modules

- `TokenBuckets`: one bucket. Waits are sufficient and tight; the burst bound under every interleaving of requests whose
  clock readings lie in the interval, in any order.
- `RateLimit`: the two-level limiter with its janitor. Eviction changes no answer; burst bounds per user and workspace;
  what every answer's numbers mean, and what each tick drops.
- `ConcurrentLimit`: requests on both levels step by step, interleaved at will, with clock readings of any age. Both
  burst bounds for every run, and exactly when they hold without a term for undecided requests.
- `RedisRateLimit`: the windowed counters and the fallback. Allowed counts are counters cut off at their budget, users'
  counters add up to their workspace's, and an interval bound for both levels.
- `MixedLimit`: runs in which Redis comes and goes. The bound on both limiters together.
- `Reputation`: the cooldown machine, in a map and in a Redis hash. The schedule of cooldowns, exactly when the two
  stores agree, that they always do behind the guard, and how many failures get through.
- `ConcurrentSignIns`: overlapping attempts on one address. How many failures get through then.
- `WebSocketHub`: indices, queues and teardown as interleaved steps. Index agreement, in-order selection, at most one
  copy, closed once, nothing missed by a client that keeps up, and exactly when a removed client stays out.
- `CollabAuth`: read pump and auth pump. The newest token is never lost; by how much a socket can outlive its token, and
  exactly when that is never more than one check interval.
- `UploadConfirm`: concurrent confirms, retries, deletions and crashes. Side effects at most once, exactly when they are
  certain to run exactly once, exactly when a retry can meet the quota, and what each answer is worth.
- `AuditArchive`: archivers that fail and crash, and the restore. No row is lost; a restore is exact.
- `ZipNames`, `Supervisor`, `SearchKey`, `Csp`: distinct entry names with the least free number, the schedule of
  restarts and a tight bound, an injective key, and a policy that reads back as intended.
- `Wrappers`, `Numbers`, `Sequences`, `Strings`, `Decimals`: shared vocabulary.

## What the model shows about the code

- The in-memory burst bound (capacity plus refill) holds from a state on, at either level, if and only if no request of
  that level can beat it (`ConcurrentLimit.PlainBoundExactly`). A request can if it holds a user's token between its two
  buckets, which it may give back to a bucket that is full again; or if it has read the clock, has still to take from
  the bucket, and finds a token there at that reading, which it may take without the refill up to the present being
  counted. With the undecided requests added the bound holds for every interleaving
  (`ConcurrentLimit.ConcurrentBurstBound`).
- The in-memory limiter keeps one bucket per user across workspaces, the Redis limiter one counter per workspace and
  user; the bounds are stated accordingly.
- The two cooldown stores agree on every history if and only if every hash lives exactly as long as the map remembers, to
  the millisecond, or all cooldowns are alike (`Reputation.AgreementExactly`). In whole-second settings that is: no
  cooldown outlasts the retention, or all are alike (`Reputation.AgreementInWholeSeconds`). Behind the sign-in guard they
  agree in all whole-second settings (`Reputation.GuardsAgree`).
- A removed hub client can come back: if its registration is still queued when it is removed from a running hub, the
  event loop adds it afterwards. That is the only case (`WebSocketHub.RemovedStaysOutExactly`).
- Side effects of an upload run at most once. They are certain to run exactly once if and only if the inserting confirm
  has got past the last of them (`UploadConfirm.ExactlyOnceExactly`); once it has ended short of that, nothing makes up
  for it (`UploadConfirm.RetryCannotMakeUp`). The quota exemption of a retry depends on the version row being visible,
  so a soft-deleted file loses it (`UploadConfirm.QuotaRejectionExactly`).
- A socket can outlive an in-band token by more than one check interval: a token that sits in the hand-off slot across a
  tick is not the one that tick checks. The excess is how long before that tick the token had been accepted, and no
  more (`CollabAuth.NoSocketOutlivesItsToken`, met by `CollabAuth.WaitingCounts`). A socket keeps to one interval
  throughout a run if and only if it never receives a token that had expired by the last tick
  (`CollabAuth.OneIntervalExactly`).
- The restart bound implied by the backoff constants is sharper than 6 + T/15: 91 (n - 1) <= 5 T + 300 for n starts
  within T seconds, met with equality by a pattern of crashes and stable lives (`Supervisor.RestartBoundIsTight`).

## Model

| member | source | states |
|---|---|---|
| TokenBuckets.RefillTwice | api/middleware/ratelimit.go:194-200 | refilling in two stages is refilling once, so intermediate looks at a bucket leave no trace |
| TokenBuckets.RefillBounded | api/middleware/ratelimit.go:194-200 | between two instants a level rises by at most rate times elapsed time, cap included |
| TokenBuckets.RestFills | api/middleware/ratelimit.go:174-176 | two seconds of rest fill any bucket, whatever its rate |
| TokenBuckets.WaitIsSufficientAndTight | api/middleware/ratelimit.go:202-207 | a refused caller that waits as told, undisturbed, is served; one that comes more than the added millisecond early is refused again |
| TokenBuckets.ConsumeKeeps | api/middleware/ratelimit.go:191-208 | the level stays between zero and capacity, and a token is granted exactly when one whole token is there after refill |
| TokenBuckets.AdmissionsArePaid | api/middleware/ratelimit.go:191-217 | along any interleaving on one bucket, of readings in the interval but in any order, admissions plus tokens in flight at the end are at most the level at the start, the refill, and tokens in flight at the start |
| TokenBuckets.InterleavedBurstBound | api/middleware/ratelimit.go:191-217 | on one bucket, any interleaving of late refunds and takes whose readings lie in the interval, in any order, admits at most capacity + refill + requests in flight at the start; readings from before the interval are in `ConcurrentLimit` |
| TokenBuckets.BurstBoundExactly | api/middleware/ratelimit.go:191-217 | on one bucket and for takes whose readings lie in the interval: after any history at any rate, no interval admits more than capacity + refill if and only if no token is in flight |
| TokenBuckets.TokenBucket.constructor | api/middleware/ratelimit.go:122-126 | a new bucket is full at its creation time |
| TokenBuckets.TokenBucket.Take | api/middleware/ratelimit.go:191-208 | the in-place consume leaves the specified level and returns the specified wait |
| TokenBuckets.TokenBucket.GiveBack | api/middleware/ratelimit.go:210-217 | the in-place refund adds one token, up to capacity |
| RateLimit.ReserveSees | api/middleware/ratelimit.go:119-153 | a request depends on and changes only what is seen of its own two buckets; a refusal at either level changes nothing seen |
| RateLimit.EvictSees | api/middleware/ratelimit.go:168-177 | a janitor tick leaves what later requests see of every bucket as it was |
| RateLimit.SameReserve | api/middleware/ratelimit.go:119-153 | limiters that look alike answer alike and still look alike afterwards |
| RateLimit.EvictionIsInvisible | api/middleware/ratelimit.go:160-181 | on every run, with janitor ticks anywhere, all answers (wait, remaining, reset) equal those of a limiter that never evicts |
| RateLimit.StepPays | api/middleware/ratelimit.go:141-153 | an admission spends exactly one token of its user and of its workspace; a workspace refusal and an eviction spend none |
| RateLimit.UserPays | api/middleware/ratelimit.go:119-217 | conservation along a run: admissions of a user plus tokens left are at most tokens at the start plus refill |
| RateLimit.WorkspacePays | api/middleware/ratelimit.go:119-217 | the same for all users of one workspace together |
| RateLimit.UserBurstBound | api/middleware/ratelimit.go:119-217 | after any history, one user's admissions in an interval are at most capacity + rate times length |
| RateLimit.WorkspaceBurstBound | api/middleware/ratelimit.go:119-217 | after any history, one workspace's admissions in an interval are at most capacity + rate times length |
| RateLimit.RefusalIsFreeAndHonest | api/middleware/ratelimit.go:141-153 | a refusal costs nobody a token, and the level that refused would grant one after the announced wait |
| RateLimit.RateLimiter.constructor | api/middleware/ratelimit.go:46-56 | non-positive rates are replaced by 100 per user and 1000 per workspace, and the limiter starts empty |
| RateLimit.RateLimiter.Request | api/middleware/ratelimit.go:119-153 | an undisturbed request in place, maps and buckets included, is the specified transition with the specified answer, whose numbers `AnswerMeans` and `ReserveSees` pin down |
| RateLimit.AnswerMeans | api/middleware/ratelimit.go:219-239 | exactly `remaining` further tokens can be had at once; the bucket is full once second `reset` is over, and not before it begins unless it is full already, when `reset` is the next full second; no `reset` is past or more than two seconds ahead |
| RateLimit.RateLimiter.Sweep | api/middleware/ratelimit.go:168-180 | one janitor tick in place is the specified eviction |
| RateLimit.EvictMeans | api/middleware/ratelimit.go:168-180 | a tick drops, from all three maps, exactly the ids not touched within ten minutes, and keeps the rest as it is |
| ConcurrentLimit.StepPays | api/middleware/ratelimit.go:119-217 | no step of any request, at either level, adds to the sum of admissions, undecided requests that still weigh, and what the bucket can grant |
| ConcurrentLimit.ConcurrentBurstBound | api/middleware/ratelimit.go:119-153 | over every interleaving of concurrent requests, in any order of clock readings, an interval admits of one user, and of one workspace, at most capacity + refill + requests undecided at that level when it began |
| ConcurrentLimit.PlainRun | api/middleware/ratelimit.go:119-217 | while no request can beat the bound of a level, admissions, tokens held and what the bucket can grant never add up to more, over every interleaving |
| ConcurrentLimit.PlainBoundExactly | api/middleware/ratelimit.go:119-153 | at either level, in every reachable state: no later interval admits more than capacity + refill if and only if no request of the level holds a token, or has still to take and finds a token at its own clock reading |
| ConcurrentLimit.HeldUpRefundBeatsTheBound | api/middleware/ratelimit.go:145-149 | a run with both buckets, the workspace's own bucket refusing, in which one user exceeds capacity + refill |
| ConcurrentLimit.AloneIsReserve | api/middleware/ratelimit.go:119-153 | a request no other disturbs, step by step, leaves both levels as the one-step limiter does and is let through exactly when that imposes no wait |
| RedisRateLimit.TextInjective | api/middleware/ratelimit_redis.go:229-235 | no two counters share a Redis key, user and workspace counters included |
| RedisRateLimit.ScriptSays | api/middleware/ratelimit_redis.go:39-64 | what each verdict means for both counters; only a workspace refusal takes the user's increment back; a counter is gone two seconds after its last increment, and not before |
| RedisRateLimit.AllowedIsCounterCutOff | api/middleware/ratelimit_redis.go:39-64 | in every reachable state the requests let through in the current window equal min(counter, budget), per user and per workspace |
| RedisRateLimit.UsersSumToWorkspace | api/middleware/ratelimit_redis.go:39-64 | in every reachable state the current counters of a workspace's users, each cut off at the user budget, add up to the workspace's counter cut off at its own |
| RedisRateLimit.WindowsPay | api/middleware/ratelimit_redis.go:39-64 | requests still to be allowed are bounded by what is left of the window's budget plus one budget per later window |
| RedisRateLimit.IntervalBound | api/middleware/ratelimit_redis.go:171-190 | a half-open interval of L nanoseconds lets at most (L rounded up to seconds + 1) times the rate through, for one user and for a whole workspace, since no time to live resets a counter inside its window |
| RedisRateLimit.CounterStore.Incr | api/middleware/ratelimit_redis.go:40-43 | increment and expiry; a counter past its time to live counts from one |
| RedisRateLimit.CounterStore.Decr | api/middleware/ratelimit_redis.go:54-57 | the decrement keeps the time to live |
| RedisRateLimit.CounterStore.Run | api/middleware/ratelimit_redis.go:39-64 | the script run command by command is the specified transition |
| RedisRateLimit.Reserve | api/middleware/ratelimit_redis.go:171-224 | with a reply, a refused caller waits to the end of the window plus a millisecond, or a millisecond when that has passed, `reset` is the next full second, and remaining is never negative; without one the in-memory limiter decides, even if the script ran |
| MixedLimit.SharesAdmit | api/middleware/ratelimit_redis.go:191-208 | in a run that mixes replies and fallback, what is let through was let through by the script or by the local limiter, each run on its own share |
| MixedLimit.RequestMeans | api/middleware/ratelimit_redis.go:171-224 | one request of a mixed run leaves both limiters as the fallback logic does: counted if the script ran, decided locally if no reply came |
| MixedLimit.MixedIntervalBound | api/middleware/ratelimit_redis.go:93-108 | however Redis fails and recovers, an interval lets through at most the two limiters' bounds together, for one user of a workspace and for the workspace |
| Reputation.WithDefaults | api/middleware/ratelimit_reputation.go:53-103 | each setting that is set is kept, each other is 5 failures, 15 minutes, 24 hours, or delays of 1, 5 and 30 seconds |
| Reputation.MemSchedule | api/middleware/ratelimit_reputation.go:405-430 | from a clean record, failures within the retention of each other bring no cooldown below the threshold, then the delays in their order, then the block every time, and the address is held off for that long from the failure |
| Reputation.RedisSchedule | api/middleware/ratelimit_reputation.go:146-179 | the same schedule for the hash, for failures so close together that it keeps its count |
| Reputation.CheckTells | api/middleware/ratelimit_reputation.go:183-211 | after any history a check reports what is left of the cooldown, with the map and with the hash, and changes nothing |
| Reputation.SweepIsInvisible | api/middleware/ratelimit_reputation.go:438-452 | an address whose record the janitor has dropped gets the answers it would have got with the record, on every history |
| Reputation.FailureMatches | api/middleware/ratelimit_reputation.go:405-430 | one failure that both still remember, or both have forgotten, brings the same cooldown and matching records, in millisecond settings |
| Reputation.FairHistoriesAgree | api/middleware/ratelimit_reputation.go:146-263 | on histories whose failures find both stores remembering or both forgetful, script and map report the same cooldowns, sweeps included |
| Reputation.AgreementNeeds | api/middleware/ratelimit_reputation.go:405-412 | if script and map agree on every history although some hash lives shorter or longer than the map remembers, all cooldowns are alike |
| Reputation.AgreementSuffices | api/middleware/ratelimit_reputation.go:146-263 | if every hash lives as long as the map remembers, or all cooldowns are alike, they agree on every history |
| Reputation.AgreementExactly | api/middleware/ratelimit_reputation.go:146-179 | in millisecond settings with positive delays: script and map agree on every history if and only if every hash lives as long as the map remembers, to the millisecond, or all cooldowns are alike |
| Reputation.ShortNeeds | api/middleware/ratelimit_reputation.go:155 | with a retention under a second, whose expiry of zero deletes the hash, they agree only if all cooldowns are alike |
| Reputation.AgreementInWholeSeconds | api/middleware/ratelimit_reputation.go:168-176 | in whole-second settings the condition is that no cooldown outlasts the retention or all are alike |
| Reputation.GuardsAgree | api/middleware/ratelimit_reputation.go:286-316 | behind the guard, one attempt in flight per address, both give the same verdict and cooldown on every attempt, if each hash lives as long as the map remembers or exactly through a longer cooldown |
| Reputation.WholeSecondsFit | api/middleware/ratelimit_reputation.go:168-176 | which is so in all whole-second settings |
| Reputation.FailureBound | api/middleware/ratelimit_reputation.go:286-314 | after any history, an interval within the retention and without success lets at most threshold + delays + length / block failures through, with the map |
| Reputation.RedisFailureBound | api/middleware/ratelimit_reputation.go:146-179 | the same bound with the Redis hash, where the guards agree, so in whole-second settings |
| ConcurrentSignIns.ConcurrentFailureBound | api/middleware/ratelimit_reputation.go:286-314 | with at most k attempts in flight per address, an interval within the retention and without success sees at most threshold + delays - 1 + k (length / block + 1) failures |
| ConcurrentSignIns.AloneIsTheGuard | api/middleware/ratelimit_reputation.go:286-314 | an attempt that overlaps no other leaves the record as the sequential guard does |
| Reputation.MemoryStore.Penalty | api/middleware/ratelimit_reputation.go:392-403 | the remaining cooldown of an address, zero when none runs |
| Reputation.MemoryStore.RecordFailure | api/middleware/ratelimit_reputation.go:405-430 | counts from one if the last failure is older than the retention and goes on counting otherwise; the cooldown is none, a delay or the block by the new count; other addresses keep their entries |
| Reputation.MemoryStore.Reset | api/middleware/ratelimit_reputation.go:432-436 | a success forgets the address and nothing else |
| Reputation.MemoryStore.Sweep | api/middleware/ratelimit_reputation.go:438-452 | a tick keeps exactly the entries still in cooldown or seen within the retention |
| Reputation.MemoryStore.Attempt | api/middleware/ratelimit_reputation.go:286-314 | one guarded attempt: in a cooldown it is told the rest of it and changes nothing; otherwise a success forgets the address, a failure is recorded, anything else changes nothing |
| Reputation.HashStore.Run | api/middleware/ratelimit_reputation.go:146-179 | the script run command by command is the specified transition on one key; the cooldown is none, a delay or the block by the new count, and runs from now |
| WebSocketHub.AddKeeps | api/ws/handler.go:181-197 | adding keeps both indices in agreement and registers exactly that client |
| WebSocketHub.RemoveKeeps | api/ws/handler.go:199-224 | removing keeps agreement, unregisters exactly that client, and shuts it down exactly if its user has a client registered |
| WebSocketHub.WorkspaceIsDisjointUnion | api/ws/handler.go:305-341 | the targets of a workspace broadcast are the disjoint union of its users' targets |
| WebSocketHub.BroadcastScope | api/ws/handler.go:305-341 | a snapshot holds exactly the registered clients in scope |
| WebSocketHub.HubInvariants | api/ws/handler.go:88-122 | in every reachable state under any interleaving: indices agree, no empty set, queues of at most 32, done closed at most once, written plus queued is an in-order selection of what was offered with at most one copy per broadcast, and nobody added is lost without a shutdown |
| WebSocketHub.RegisteredAfter | api/ws/handler.go:167-261 | who is registered after any step: a client goes only by its turn in the unregister channel, with the hub, or inline when it leaves or is slow and that channel holds 64 |
| WebSocketHub.ChannelsAfter | api/ws/handler.go:167-261 | both channels are served in order, and a request goes in once: a registration when asked, an unregistration when a client leaves or is slow and there is room |
| WebSocketHub.StoppedStaysEmpty | api/ws/handler.go:167-242 | a hub that has stopped stays empty on every continuation, whatever is still queued, and whoever was registered is about to be shut down |
| WebSocketHub.OfferMeans | api/ws/handler.go:347-362 | one turn of an interleaved delivery: an open client with room gets the message, a full queue stays as it is, nobody else is touched |
| WebSocketHub.FastClientMissesNothing | api/ws/handler.go:343-362 | over every run, a client that is never offered anything while its queue is full stays registered and open and has been written, or has queued, everything offered to it in order |
| WebSocketHub.NothingAfterTheEnd | api/ws/handler.go:444-460 | once the write pump has seen the end or a write has failed, nothing more is written on any continuation |
| WebSocketHub.RemovedStaysOutExactly | api/ws/handler.go:167-179 | a removed client stays out of the hub on every continuation if and only if its registration is not still queued in a running hub |
| WebSocketHub.Hub.Add | api/ws/handler.go:181-197 | the in-place addition to both maps |
| WebSocketHub.Hub.Drop | api/ws/handler.go:199-224 | the in-place removal; without a set for the key nothing changes and nobody is shut down |
| WebSocketHub.Hub.CloseOnce | api/ws/handler.go:118-122 | done is closed once however often it is asked for |
| WebSocketHub.Hub.CloseAll | api/ws/handler.go:226-242 | empties both indices and shuts down exactly the clients that were in them |
| WebSocketHub.Hub.Leave | api/ws/handler.go:253-261 | an unregistration is queued, or done inline when the channel is full; either way it is not lost |
| WebSocketHub.Hub.Deliver | api/ws/handler.go:347-362 | an open target with room gets exactly one copy, a full queue stays as it is, nobody else is touched; slow targets, each once, are queued for removal or removed, and everybody else is as registered and as open as before |
| CollabAuth.DecisionMeans | api/drive/collab.go:612-669 | each outcome, to the close code and reason, has exactly its cause: an expired token closes whatever the stores answer, then the first objection of revocation list, session and issuer decides, and an outage alone never closes |
| CollabAuth.HandOffStep | api/drive/collab.go:426-445 | every step keeps the newest accepted token pending, in the slot or last applied; after a send the slot holds the newest |
| CollabAuth.NewestIsNeverLost | api/drive/collab.go:426-445 | except between draining and sending, the newest token handed over is in the slot or enforced, and applied tokens are an in-order selection of those handed over |
| CollabAuth.RejectionChangesNothing | api/drive/collab.go:570-588 | a token is found good exactly when non-empty, valid and of the same principal, and is then what is handed over; a rejected one leaves the socket as it was |
| CollabAuth.PrincipalIsFixed | api/drive/collab.go:556-562 | over every run workspace, user, user agent and address never change, and a closed socket stays as it was |
| CollabAuth.OnlyDecisionsClose | api/drive/collab.go:692-708 | a closed socket was closed by a tick with a definite decision, never by an outage |
| CollabAuth.NoSocketOutlivesItsToken | api/drive/collab.go:679-710 | over every run with ticks at most an interval apart and refreshes at any time, an open socket's enforced token expired at most one interval ago, plus how long before the last tick it had been accepted if no tick has checked it yet |
| CollabAuth.ExpiredTickCloses | api/drive/collab.go:613-617 | a tick later than the expiry of the token it finds enforced closes the socket for good, whatever the stores answer |
| CollabAuth.WaitingCounts | api/drive/collab.go:683-692 | that bound is met for every wait in the slot up to an interval |
| CollabAuth.OneIntervalExactly | api/drive/collab.go:679-710 | a run keeps to one interval throughout if and only if no token is received that had expired by the last tick |
| CollabAuth.CollabSocket.Push | api/drive/collab.go:426-445 | drain then send: afterwards the slot holds the accepted token, or is untouched by a rejected one |
| CollabAuth.CollabSocket.Receive | api/drive/collab.go:686-690 | applying a refresh empties the slot and keeps the principal |
| CollabAuth.CollabSocket.Tick | api/drive/collab.go:612-669 | the checks in order, each asked only if the ones before did not object, give the specified decision |
| UploadConfirm.ConfirmMeans | internal/file/repository.go:449-504 | exactly when each outcome of the confirm transaction arises, and the rows before and after |
| UploadConfirm.SideEffectsOnce | api/drive/upload.go:282-322 | under any interleaving each side effect runs at most once per version, and it has run if and only if the inserting confirm got past it; all have if that answered success |
| UploadConfirm.ExactlyOnceExactly | api/drive/upload.go:288-322 | from any reachable state, all side effects of an inserted version are certain to run exactly once if and only if its inserting confirm has got past the last |
| UploadConfirm.RetryCannotMakeUp | api/drive/upload.go:293-303 | once the inserting confirm has ended, however, no continuation runs any side effect of its version |
| UploadConfirm.FirstConfirmCanBeCutShort | api/drive/upload.go:288-292 | every first confirm can fail between commit and side effects, and a retry is then answered with success with none of them run |
| UploadConfirm.QuotaRejectionExactly | api/drive/upload.go:227-261 | a probing request can end over quota if and only if the probe finds no visible version row of its file |
| UploadConfirm.RetryOfCommittedIsNeverOverQuota | api/drive/upload.go:196-261 | a retry of a committed version of the same live file is never quota-rejected, whatever else runs |
| UploadConfirm.RowsStay | internal/file/repository.go:527-578 | committed version rows never change |
| UploadConfirm.RecordsStayRight | internal/file/repository.go:449-504 | over every run of confirms and deletions a file's size is that of its current version, which is its own |
| UploadConfirm.DeletionIsFinal | internal/file/repository.go:287-300 | after a deletion no confirm, under way or new, adds a version to the file or changes it, and new requests find no file |
| UploadConfirm.AnswersAreTrue | api/drive/upload.go:174-326 | in every run, success means the version is recorded under the confirmed key; a missing file, failed probe, quota rejection or conflict that this request inserted nothing |
| UploadConfirm.FailuresEnd | api/drive/upload.go:227-292 | a failed probe, transaction or reload ends the request there; a rollback leaves no trace, a lost answer has committed all the same |
| UploadConfirm.Undisturbed | api/drive/upload.go:174-326 | an undisturbed request of the step machine from any state: a replay skips the quota check, a first confirm is rejected exactly when it says so, an insert runs the four side effects |
| UploadConfirm.Handler.ConfirmUpload | api/drive/upload.go:174-326 | one request from start to end: status, rows and side effects for each case |
| AuditArchive.YearMonthOrder | cmd/audit-restore/main.go:189-190 | comparing year-month strings is comparing year and month, and time order is that and then the offset in the month |
| AuditArchive.DeleteKeeps | internal/audit/archive.go:535-556 | deleting a recorded batch loses no row |
| AuditArchive.PutKeeps | internal/audit/archive.go:477-506 | an upload under a fresh key, answered or not, shelves its rows under their month and overwrites nothing |
| AuditArchive.NoRowLost | cmd/audit-archiver/main.go:12-15 | however archivers interleave, fail and crash, every row written in a run is in the hot table or in the archive |
| AuditArchive.BatchMoves | internal/audit/archive.go:469-556 | a batch that meets no failure leaves the hot table, it alone, and lies in the archive |
| AuditArchive.RetryAfterCrash | internal/audit/archive.go:541-548 | wherever a run crashed, rows it left hot can be archived by starting over |
| AuditArchive.FilterKeepsRange | cmd/audit-restore/main.go:191-206 | the string filter on keys drops no object that holds a row of the range |
| AuditArchive.OverlapsMeans | cmd/audit-restore/main.go:193-206 | a key passes exactly if a seven-character segment within the two months follows the prefix |
| AuditArchive.FilterMeans | cmd/audit-restore/main.go:188-206 | of the objects archivers write exactly those of the months of the range are read |
| AuditArchive.ListOverlapping | cmd/audit-restore/main.go:188-214 | the listed keys that overlap the range, sorted |
| AuditArchive.AddRows | cmd/audit-restore/main.go:243-261 | the rows of one object are added unless out of range or already seen |
| AuditArchive.FetchAndDedupe | cmd/audit-restore/main.go:227-267 | the first row of each id in range over all objects, in time order; an unreadable object fails the whole restore |
| AuditArchive.Restore | cmd/audit-restore/main.go:102-104 | succeeds exactly for a non-empty range whose overlapping objects can all be read |
| AuditArchive.CanonicalMeans | cmd/audit-restore/main.go:251-259 | deduplication keeps each id of the range exactly once |
| AuditArchive.FirstIsKept | cmd/audit-restore/main.go:251-259 | of the rows of the range with one id the one read first is kept |
| AuditArchive.RestoreIsExact | cmd/audit-restore/main.go:216-267 | over every archive that runs can leave, a restore is exactly the archived rows of its range, each id once, in time order |
| AuditArchive.RestorePlusHotIsEverything | cmd/audit-archiver/main.go:12-15 | after any run a row of the range is still hot or the restore returns it |
| ZipNames.ExtensionIsKept | api/drive/bulk.go:466-471 | a numbered name has the extension of the name it stands for |
| ZipNames.ExtMeans | api/drive/bulk.go:466-467 | a name has an extension exactly if a dot follows its last slash; it starts with the name's last dot, and stem and extension make up the name |
| ZipNames.SeenNames.Dedupe | api/drive/bulk.go:461-477 | the loop ends, within as many candidates as names were recorded, on the first free number, and records it |
| ZipNames.NameIsNew | api/drive/bulk.go:461-477 | a name given is new, is recorded, nothing is forgotten, and it is verbatim exactly if it was not in use |
| ZipNames.NamesAreDistinct | api/drive/bulk.go:455-460 | for every list of names the entries are pairwise distinct and keep their extensions |
| ZipNames.VerbatimExactly | api/drive/bulk.go:455-460 | a file keeps its own name exactly when no earlier entry took it |
| ZipNames.NumberIsLeast | api/drive/bulk.go:461-477 | in every archive a file whose name is taken gets stem, a number in parentheses and extension, with the least number from 1 on that no earlier entry has taken |
| ZipNames.PrepareItems | api/drive/bulk.go:374-428 | one entry per file for 1 to 100 files, in order, distinct names, total at most 1 GiB; otherwise the first file that cannot be had or passes the cap decides the error |
| Supervisor.SuperviseChild | cmd/compact/main.go:359-392 | the loop, its three exits on shutdown included, starts the child at the specified times |
| Supervisor.StableLifeResets | cmd/compact/main.go:377-385 | after every uncut life of a minute or more the next start is one second, and the timer's overrun, after its end |
| Supervisor.ShortLivesBackOff | cmd/compact/main.go:379-390 | the k-th shorter life in a row is followed by a start after min(2^(k-1), 30) seconds counted from the first start, and min(2^k, 30) counted from a stable life |
| Supervisor.CutIsLast | cmd/compact/main.go:359-386 | no life is started after one the shutdown cut, and every other but the last is followed by one |
| Supervisor.GapPays | cmd/compact/main.go:379-390 | every gap between starts pays 18.2 seconds, up to a credit that depends on the delay reached |
| Supervisor.RestartBound | cmd/compact/main.go:85-91 | n starts within T seconds satisfy 91 (n - 1) <= 5 T + 300, hence n <= 6 + T/15, over every pattern of lives |
| Supervisor.RestartBoundIsTight | cmd/compact/main.go:85-91 | the bound is met with equality for arbitrarily long windows |
| Supervisor.RestartIsPrompt | cmd/compact/main.go:355-358 | every uncut life is followed by a start after at least 1 and at most 30 seconds, timer overrun aside |
| SearchKey.KeyParses | api/drive/search.go:26-49 | query, language, fuzzy flag, limit and offset are read back from every key |
| SearchKey.KeyInjective | api/drive/search.go:26-36 | different searches have different keys |
| Csp.TrimSpaceMeans | api/middleware/security_headers.go:390-391 | trimming removes the white space at both ends, all of it and nothing else |
| Csp.SanitisedMeans | api/middleware/security_headers.go:372-437 | exactly the entries that, trimmed, are not empty and hold no semicolon, comma, space, control character or delete are kept, in order and as often as they occur |
| Csp.SanitisedUriMeans | api/middleware/security_headers.go:407-437 | a report address is kept, trimmed, under the same condition and dropped otherwise |
| Csp.SanitiseOrigins | api/middleware/security_headers.go:384-405 | the loop computes the sanitised list, which `SanitisedMeans` characterises |
| Csp.BuildCsp | api/middleware/security_headers.go:316-370 | the assembled string is the text of the intended directives around the sentinel |
| Csp.PolicyReads | api/middleware/security_headers.go:369 | any list of well-formed directives, printed and read back by splitting on semicolons and spaces, is itself, and is a single policy |
| Csp.PolicyMeans | api/middleware/security_headers.go:308-315 | for all options the policy reads back as the directives spelled out here, source by source, operator origins in their own directive only |
| Csp.SentinelOnce | api/middleware/security_headers.go:11-16 | the sentinel occurs at exactly one place when nonces are on and nowhere when they are off |
| Csp.CspHeader | api/middleware/security_headers.go:207-245 | the spliced header equals the policy assembled with this response's nonce source: the nonce, an empty one if randomness fails, none if nonces are off |
| Csp.HeaderMeans | api/middleware/security_headers.go:227-245 | every response's header reads back as the intended directives with that nonce source, spelled out |

## Left out

- Floating-point rounding in the buckets: tokens are exact reals; the truncation of a wait to whole nanoseconds and the added millisecond are kept.
- RateLimit.RateLimiter.Request: takes a request as one step; interleaved requests are the subject of `ConcurrentLimit`, which has no janitor, so an eviction that falls between a request's lookup and its use of the buckets is not covered.
- Rates that are not whole numbers of requests per second: configuration gives integers.
- Reputation.GuardsAgree: does not model clocks finer than a millisecond, and excludes events at the very millisecond a hash expires; the wait a Redis caller is told is taken at the script's own time.
- Failing open of the sign-in guard when Redis is unusable: no bound on failures is claimed for that time. The rate limiter falls back to the in-memory limiter instead (`RedisRateLimit.Reserve`, `MixedLimit`).
- MixedLimit.MixedIntervalBound: takes local requests one at a time and one server with one clock; every further server adds its own local bound.
- Reputation.AgreementExactly: takes every delay to be positive, as the built-in ones are and the configuration offers no others.
- UploadConfirm.RecordsStayRight: covers confirms and deletions; two other writers in the repository (internal/file/repository.go:412 and internal/file/repository.go:635) move the current version too and leave the size as it was.
- TokenBuckets.InterleavedBurstBound: covers takes whose readings lie in the interval; earlier readings are covered by `ConcurrentLimit`.
- RedisRateLimit.IntervalBound: assumes one non-decreasing clock for all servers and for Redis.
- The per-address limiter in ratelimit_ip.go: a one-level copy of the same bucket and counter.
- WebSocketHub.Hub.Deliver: delivers to its targets without other goroutines in between and resolves the choice between a free slot and a closed client either way; the interleaved form is the step machine of `HubInvariants`.
- The snapshot pool of the hub: a snapshot is a set taken at one instant; buffer reuse is not modelled.
- Socket reading and writing, pings and deadlines: a write succeeds or ends the write pump.
- CollabAuth.NoSocketOutlivesItsToken: takes ticks to be no more than the ticker's interval apart; a longer delay in running the auth pump adds to the bound and is not modelled. A pushed token is unexpired when validated, as its refresher promises (api/middleware/auth.go:319-320).
- The amounts behind the storage quota: the quota check is an answer of its own at the time it is asked.
- UploadConfirm.SideEffectsOnce: counts side effects started; whether a publisher or ledger accepts one is not modelled.
- Compression and JSON of archive objects: an object is readable as its rows or not at all.
- AuditArchive.RestoreIsExact: lists and reads the archive at one instant; objects added meanwhile are not modelled, and years have four digits.
- AuditArchive.FetchAndDedupe: promises nothing on the order of rows with equal times, because the library sort is not stable; the sort itself is any sort.
- ZipNames.PrepareItems: sums sizes as unbounded integers, without 64-bit wrap-around; permissions, lookups and the bandwidth quota are given answers.
- Process start and termination in the supervisor: a life has a length and an end.
- Csp.TrimSpaceMeans: strings are sequences of Unicode characters; byte strings that are not valid UTF-8 are not modelled.
- The other security headers and the report-only header name: constants.
- Handlers for folders, sharing, tags, administration and webhooks, the error-code tables, the front ends and the sync engine: no property across calls.
