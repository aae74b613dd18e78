# LogMind verification

A Dafny model of the stateful parts of LogMind, with proofs. LogMind collects container logs through
an agent, counts them in Redis, opens incidents when a fingerprint becomes loud, and alerts on them.
What is hard in it is state that several actors change between one another's steps: a batcher that
flushes while lines arrive, counters that expire, workers and operators that race on one row, caches
that outlive what they cache. Each file models one such part, in the order data flows:

| file | models |
|---|---|
| `wrappers.dfy` | the types all parts share |
| `log_lines.dfy` | chunks of a stream become lines, and lines become traceback entries |
| `log_batcher.dfy` | the agent's bounded, drop-oldest batching protocol |
| `fixed_window.dfy` | the reference definition of a fixed window, and what it admits |
| `redis.dfy` | the sliding-window script, the fixed-window script and the claim lock |
| `rate_limit.dfy` | the per-process store, the middleware, and many instances together |
| `incidents.dfy` | detection plans, triggers, and the row under racing workers and operators |
| `incident_reports.dfy` | the timeline events and triggers that follow an upsert, and those that get lost |
| `log_processing.dfy` | the worker: windows to severity to incident, for all fingerprints |
| `racing_workers.dfy` | jobs cut into counting in each window, reading and upserting, in any interleaving |
| `racing_runs.dfy` | runs of such jobs that reach the bounds |
| `alerts.dfy` | throttled delivery of alerts to matching rules |
| `api_keys.dfy` | key validation through a cache against the key table |
| `refresh_tokens.dfy` | rotation chains with replay detection |
| `service_stats.dfy` | buffered per-service counters under overlapping flushes |
| `time_series.dfy` | the dashboard's bucketing |
| `luhn.dfy` | the card number checksum |

`dafny verify dfyconfig.toml` checks the whole project.

## How to read it

Code that changes state step by step is a class whose methods follow the code. Each method is proved
against a function of its old state, and the theorems are about runs of those functions. Where a
method of the original awaits something, it is cut into the parts between its awaits: each part is one
step, and a theorem over all sequences of steps is a theorem over all interleavings; where two parts are
taken as one, "Left out" says so. A theorem that
needs operations not to overlap is stated over serial runs, and its name or comment says so.

Every answer computed from trimmed state (expired keys, pruned sets, swept buckets, cached grants) is
proved equal to a definition over the full history. Those definitions are `FixedWindow.Newest`,
`RedisStore.Recent`, `RedisStore.HeldUntil`, `LogProcessing.Processed` and `ApiKeys.Find`.

A function that gives an answer or a verdict is also tied to what was asked before, in plain terms:
`LogBatching.HandsOverExactly`, `FixedWindow.NewestIsASum`, `RedisStore.RefusedExactlyWhileRunning`,
`LogProcessing.DetectionByHistory`, `Incidents.StatusByHistory`, `AlertDispatching.EndsByHistory`,
`ApiKeys.AcceptedExactlyAsAdded` and `RefreshTokens.OutcomeByHistory`.

Claims the code does not keep are stated as what happens instead: a run that shows it, and exactly when
it happens.

- The plan is documented never to move the window backwards (`apps/worker/src/incident-plan.ts:66`), but it
  compares with what the worker read, not with the row. `Incidents.SeenShrinksExactlyWhenStale` says which
  upserts move `lastSeenAt` back or `firstSeenAt` forward, blind or not;
  `Incidents.SeeingWorkersMoveLastSeenBack` and `Incidents.SeeingWorkersMoveFirstSeenForward` are runs of
  workers that all saw the row. `Incidents.SeenIsMinAndMaxUnlessStale` is what holds otherwise.
- CREATED can be raised more than once, or never: `IncidentReports.RacingWorkersBothCreate`,
  `IncidentReports.CreatedCanBeLost`. Every upsert whose read came before the first upsert raises it, owes
  it, or loses it with its job, `IncidentReports.CreatedIsRaisedPerEarlyReader`. Likewise REOPENED can be
  raised twice for one resolve or not at all, `IncidentReports.ReopenedCanBeRaisedTwice` and
  `IncidentReports.ReopenedCanBeMissed`; `IncidentReports.TriggersAreAccountedFor` counts all three triggers.
- A detection is meant to reopen a resolved incident and to leave another status alone. It goes by what its
  worker read, so an incident can stay resolved after it, and an operator's ACKNOWLEDGED can be overwritten,
  `IncidentReports.AcknowledgedCanBeOverwritten`. `Incidents.UpsertJudgesByItsRead` says exactly when, and
  `Incidents.ResolvedByHistory` when an incident is resolved.
- A fatal incident is meant to open at the third log in five minutes. `RacingRuns.ThresholdIsMissedBackwards`
  is a run of three such logs that opens none, because their second windows are called in another order than
  their first. With the second windows called in order it is open exactly when a threshold was reached,
  `RacingWorkers.FatalExistsIffReachedInOrder`; in any order it is open only then,
  `RacingWorkers.ExistsIffWritten`.
- The lifetime counter can be behind the window count shown beside it. In serial runs this happens exactly
  to fatal fingerprints, by one: `LogProcessing.RecentIsCoveredExactlyForErrors`. Under racing workers it is
  behind by at most the detections on their way or lost, the fatal logs between or lost between their two
  windows, and up to three for a fatal incident created with fewer than four logs,
  `RacingWorkers.CounterCoversRecentUpToUnwritten`. The bound is reached:
  `RacingRuns.RecentIsCoveredExactlyWhenAllWritten`, `RacingRuns.FatalCounterFallsThreeBehind`.
- A revocation is meant to take effect with the delete of the cached grant
  (`apps/api/src/modules/api-keys/api-keys.service.ts:88`). `ApiKeys.RevokedKeyCanStillBeAccepted` and
  `ApiKeys.RevokedKeyIsServedUntilDropped` are runs in which a revoked key is accepted.
  `ApiKeys.RevocationIsFinalExactlyWhenClean` says from which states it is never accepted again, and
  `ApiKeys.RevokedKeyExpires` bounds for how long it can be.
- A login chain is meant to have one usable token. A rotation that ends between its two writes leaves two,
  `RefreshTokens.AbandonedRotationLeavesTwins`, and so do overlapping ones.
  `RefreshTokens.TailsStayTidyExactly` says which runs always leave one, but for rows about to be marked.
- Two overlapping rotations of one refresh token both succeed, `RefreshTokens.RacingRotationsBothSucceed`.
  A token already exchanged can be exchanged again exactly while a rotation of it is under way and its row
  is stored, `RefreshTokens.ExchangedAgainExactlyWhenHeld`.
- A replay is meant to end every session of the user (`apps/api/src/modules/auth/refresh-token.service.ts:59`).
  A rotation under way can issue a fresh token afterwards, `RefreshTokens.ReplayCanBeOutrun`. Revoking
  everything is final exactly when no rotation of the user is between its read and its issue,
  `RefreshTokens.LogoutIsFinalExactlyWhenNobodyIssues`.
- Shutdown is meant to flush whatever is buffered (`apps/agent/src/main.ts:31-35`). A flush in flight when it
  begins keeps it from doing so, `LogBatching.ShutdownBehindAFlushLosesALine`. The loop ends in the state
  `LogBatching.Shutdown` says, as `LogBatching.Batcher.Stop` promises. With no new lines it leaves some exactly
  when a flush was in flight at its last look that found lines, `LogBatching.LastLook`, and no batch was handed
  over after it: `LogBatching.ShutdownLeavesLinesBehindAFlush`.
- A limit of `max` per window admits up to `2 * max` in one window's length, `FixedWindow.BoundIsReached`.

## Assumptions

- A Redis script or command, and a Prisma `upsert`, `update`, `updateMany` or `deleteMany`, is one atomic
  step; a Redis key is gone once its deadline is reached. Requests to them may fail before or after
  taking effect where the original handles that.
- One clock in integer milliseconds, which does not go back. Window lengths are at least one millisecond.
- Random tokens and generated keys are fresh, and digests are injective, so a token or key stands for
  its hash. A fingerprint digest covers the level of its log.
- Queue delivery is at-least-once: the same log id may be processed any number of times.
- `onDrop` does not throw; batch and queue sizes are integers of at least one.
- `$dateTrunc` bins instants from 2000-01-01T00:00Z, as the database documents.

## Model

| member | source | states |
|---|---|---|
| LogLines.SplitIsScan | apps/agent/src/line-buffer.ts:6 | splitting on the pattern is reading one character at a time, where a newline ends a line and takes one carriage return along |
| LogLines.ScanResumes | apps/agent/src/line-buffer.ts:4-9 | reading on from the kept rest is reading the whole text, wherever the cut falls, even between the two characters of a line end |
| LogLines.LineBuffer.Push | apps/agent/src/line-buffer.ts:4-9 | after every push the lines emitted so far are the nonempty terminated lines of all text seen, and the rest is kept |
| LogLines.LineBuffer.Flush | apps/agent/src/line-buffer.ts:11-15 | with the flushed rest, the lines emitted are all nonempty lines of the text |
| LogLines.GatherStep | apps/agent/src/line-buffer.ts:21-35 | one pushed line changes the pending block so that, whatever lines follow, the entries of the whole list stay the same |
| LogLines.GatherAllIsGroup | apps/agent/src/line-buffer.ts:21-41 | pushing lines one by one gives the entries a reader of the whole list would cut: shortest complete tracebacks and single lines |
| LogLines.MultilineBuffer.Push | apps/agent/src/line-buffer.ts:21-35 | the buffer follows the gathering machine and never holds a complete traceback |
| LogLines.MultilineBuffer.Flush | apps/agent/src/line-buffer.ts:37-41 | with the flushed block, the entries emitted are those of all lines fed |
| LogLines.Consume | apps/agent/src/log-streamer.ts:45-60 | the entries enqueued for a stream are a function of its concatenated text, however it was chunked |
| LogLines.BlockIsShort | apps/agent/src/line-buffer.ts:28-31 | a traceback is cut at 100 lines, and every line inside it continues it |
| LogLines.GroupIsLossless | apps/agent/src/line-buffer.ts:18-42 | cutting the entries at newlines gives back the lines, in order |
| LogLines.EntriesAreLossless | apps/agent/src/log-streamer.ts:45-60 | for any text, cutting its entries at newlines gives back its nonempty lines in order; every entry has at most 100 lines, and one of several starts with a traceback header followed by continuing lines |
| LogLines.TracebackIsOneEntry | apps/agent/src/line-buffer.ts:21-53 | a traceback header, the indented lines and chaining phrases after it, and the first other line or the hundredth are one entry, whatever follows; a line that is no header is an entry of its own |
| LogLines.TracebackInAText | apps/agent/src/log-streamer.ts:45-60 | in a text that begins with such a traceback its lines come out as one entry, and what follows as if it stood alone |
| LogBatching.EveryInterleavingKeepsInvariant | apps/agent/src/log-batcher.ts:42-93 | after every interleaving: batches handed over are nonempty, within the batch limit, and in-order segments of the added lines, each after a gap of exactly the reported drops; the buffer is the rest and within the queue limit; one call at most is unsettled; a nonempty buffer has a timer or a flush |
| LogBatching.EveryInterleavingConservesLines | apps/agent/src/log-batcher.ts:42-93 | lines added are lines handed over, drops reported, drops still to report and lines buffered |
| LogBatching.StepKeepsInvariant | apps/agent/src/log-batcher.ts:42-93 | every single step keeps that invariant |
| LogBatching.FullBatchIsFlushedAtOnce | apps/agent/src/log-batcher.ts:49-56 | an added line hands a batch over exactly when nothing is in flight and it fills a batch that the queue can hold, and that batch is full |
| LogBatching.HandsOverExactly | apps/agent/src/log-batcher.ts:42-93 | exactly which events hand a batch over in which states; it is full or empties the buffer, starts a flush and clears the timer; a line that fills no batch arms the timer |
| LogBatching.EveryBatchIsFullOrAll | apps/agent/src/log-batcher.ts:69-80 | after every interleaving each batch handed over is full, or the buffer was empty right after it |
| LogBatching.DropsAreOverflows | apps/agent/src/log-batcher.ts:42-47 | after every interleaving the drops reported or still to report are as many as lines found the buffer full |
| LogBatching.TimersDrain | apps/agent/src/log-batcher.ts:59-93 | settlements and timers alone hand over all that is buffered, in as many rounds as there are full batches in it |
| LogBatching.NothingMovesWhileFlushing | apps/agent/src/log-batcher.ts:69-93 | until the sink settles or a line comes, timers and flush calls change nothing but the timer |
| LogBatching.AwaitExtends | apps/agent/src/log-batcher.ts:101-105 | one turn of the shutdown loop never takes lines back, and shrinks the buffer when it started the flush, no line came and nobody else flushed |
| LogBatching.Batcher.Add | apps/agent/src/log-batcher.ts:42-57 | the add step: oldest line dropped and counted when full, flush when a batch is full, timer otherwise |
| LogBatching.Batcher.Flush | apps/agent/src/log-batcher.ts:69-85 | the flush up to its await, a no-op while one is in flight |
| LogBatching.Batcher.TimerExpires | apps/agent/src/log-batcher.ts:59-67 | an armed timer fires once and flushes |
| LogBatching.Batcher.Settle | apps/agent/src/log-batcher.ts:85-92 | after the sink resolves or rejects, the timer is armed again when lines are left |
| LogBatching.Batcher.Stop | apps/agent/src/log-batcher.ts:95-106 | shutdown ends in the state the loop over its turns gives for what happened during each of them, whatever that was, with nothing taken back; so all that the next four rows say of that state holds of the object |
| LogBatching.ShutdownIsSound | apps/agent/src/log-batcher.ts:95-106 | whatever happens during its awaits, the invariant holds at its end and lines and batches are only added |
| LogBatching.QuietShutdownDrains | apps/agent/src/log-batcher.ts:95-106 | it drains, over any number of turns, when no flush is in flight on entry, no line comes and nobody else flushes between a settlement and the next look |
| LogBatching.ShutdownLeavesLinesBehindAFlush | apps/agent/src/log-batcher.ts:95-106 | without new lines it leaves some exactly when a flush was in flight at the loop's last look that found lines and no batch was handed over after it |
| LogBatching.SilentShutdown | apps/agent/src/log-batcher.ts:95-106 | with nothing happening meanwhile it drains exactly when nothing is buffered or no flush is in flight on entry |
| LogBatching.StuckBehindAFlush | apps/agent/src/log-batcher.ts:101-105 | without new lines a turn of the loop gives up exactly when a flush was in flight and no batch was handed over during it |
| LogBatching.ShutdownBehindAFlushLosesALine | apps/agent/src/log-batcher.ts:69-106 | a run from the start: a full batch is in flight when one more line comes, and a shutdown that begins then leaves it in the buffer with nothing else happening |
| LogBatching.ForeignFlushEndsTheDrain | apps/agent/src/log-batcher.ts:101-105 | why the drain is stated for quiet awaits: in the model, though not in the agent, another flush may start right after a settlement, and it ends the drain |
| FixedWindow.AdmittedIsBounded | packages/shared/src/redis/redis.service.ts:18-24 | calls admitted by a limit in any closed interval one window long cost at most twice the limit |
| FixedWindow.BoundIsReached | packages/shared/src/redis/redis.service.ts:18-24 | that bound is reached |
| FixedWindow.NewestIsASum | packages/shared/src/redis/redis.service.ts:18-24 | the count is the sum of the costs since the call that opened the newest window, and the window ends its length after that call; a call opens a window exactly when the one before is over |
| FixedWindow.ModestIsWithin | packages/shared/src/redis/redis.service.ts:18-24 | with one window length, a caller whose costs in the last window's length are within the limit is told so, whenever windows opened |
| RedisStore.StoredCovers | packages/shared/src/redis/redis.service.ts:10-15 | every call young enough is still stored, with its instant or a later one of the same member, in spite of pruning and expiry |
| RedisStore.CountIsRecent | packages/shared/src/redis/redis.service.ts:10-15 | in every run the answer of a call is the number of distinct members called in the half-open window before it, over the full history |
| RedisStore.CountGrowsSlowly | packages/shared/src/redis/redis.service.ts:10-15 | from call to call a count grows by at most one, and not for a member still in the window |
| RedisStore.SlidingWindows.CountInWindow | packages/shared/src/redis/redis.service.ts:50-64 | the script, command by command, answers that number |
| RedisStore.IncrementFollowsDefinition | packages/shared/src/redis/redis.service.ts:18-24 | because a cost is at least one, the time to live is set exactly when a window opens and never extended |
| RedisStore.FixedWindows.ConsumeFixedWindow | packages/shared/src/redis/redis.service.ts:67-79 | the count and reset are those of the newest window of the full history of the key |
| RedisStore.GrantsAreApart | packages/shared/src/redis/redis.service.ts:105-108 | two granted claims on one key are at least the first one's time to live apart |
| RedisStore.RefusedExactlyWhileRunning | packages/shared/src/redis/redis.service.ts:105-108 | a claim is refused exactly when one granted before on its key still runs |
| RedisStore.Claims.ClaimKey | packages/shared/src/redis/redis.service.ts:105-108 | a claim is granted exactly when no granted claim on its key is still running |
| RateLimiting.SweepingIsInvisible | apps/api/src/common/middleware/rate-limit.middleware.ts:45-50 | deleting expired buckets changes no later answer |
| RateLimiting.CallFollowsDefinition | apps/api/src/common/middleware/rate-limit.middleware.ts:42-59 | a call on swept or unswept buckets is told what the full history says |
| RateLimiting.MemoryRateLimitStore.Cleanup | apps/api/src/common/middleware/rate-limit.middleware.ts:46-48 | the loop deletes exactly the expired buckets |
| RateLimiting.MemoryRateLimitStore.Consume | apps/api/src/common/middleware/rate-limit.middleware.ts:42-59 | the decision is that of a store that never deletes; with one window length every bucket kept has not been over for a whole window |
| RateLimiting.RequestCost | apps/api/src/common/middleware/rate-limit.middleware.ts:91 | a request costs the whole part of its finite cost, and one when that is less or absent |
| RateLimiting.RateLimit.AskShared | apps/api/src/common/middleware/rate-limit.middleware.ts:94-98 | the call on the shared store leaves its hit there unless it was never reached, and tells the count of its history when it answers |
| RateLimiting.RateLimit.AskLocal | apps/api/src/common/middleware/rate-limit.middleware.ts:102 | the call on the local store leaves its hit there and tells the count of its history |
| RateLimiting.ReplyTo | apps/api/src/common/middleware/rate-limit.middleware.ts:106-114 | rejected exactly when the count is over the limit; the limit, what is left of it, and whole seconds to the reset |
| RateLimiting.RejectedExactlyOverTheLimit | apps/api/src/common/middleware/rate-limit.middleware.ts:106-114 | a request is rejected exactly when the costs of its window, its own among them, exceed the limit; it is told what is left of the limit, and in whole seconds when that window ends |
| RateLimiting.RateLimit.Handle | apps/api/src/common/middleware/rate-limit.middleware.ts:86-117 | a skipped request touches no store; for any other, uninterrupted, the shared store decides when it answers and the local one otherwise, never none |
| RateLimiting.TotalIsSumOverStores | apps/api/src/common/middleware/rate-limit.middleware.ts:82-119 | what all instances admit is the sum of what each store admits, over any sequence of calls on the stores |
| RateLimiting.AdmissionIsBounded | apps/api/src/common/middleware/rate-limit.middleware.ts:82-119 | in any interval one window long a subject is admitted at most twice the limit while the shared store answers, and at most twice the limit for each of N + 1 stores when N instances may fall back, with calls of other requests between the two of one request |
| RateLimiting.ModestSubjectIsLetThrough | apps/api/src/common/middleware/rate-limit.middleware.ts:86-117 | a subject whose calls in the last window's length cost no more than the limit is let through, whichever store decides |
| RateLimiting.EveryRequestIsDecidedOnce | apps/api/src/common/middleware/rate-limit.middleware.ts:94-104 | in every interleaving of requests over many instances, each request that began is decided by one call or waits for its second one |
| RateLimiting.FallbackDecides | apps/api/src/common/middleware/rate-limit.middleware.ts:99-104 | a request the shared store did not answer is decided by the store of its own instance at its own cost, whatever other requests did meanwhile |
| RateLimiting.ServeOne | apps/api/src/common/middleware/rate-limit.middleware.ts:94-114 | one step of one request at one of N limiter objects, up to its first await or from there on, makes the calls of the model, is answered as the model answers, and every store has then taken its hits |
| RateLimiting.Serve | apps/api/src/common/middleware/rate-limit.middleware.ts:82-119 | what N limiter objects and their shared store let through of one subject, for requests whose steps interleave in any way, is what the model admits, and obeys the bounds above |
| Incidents.PlanIncidentUpdate | apps/worker/src/incident-plan.ts:55-96 | the conditional assignments give the plan the lemmas below are about |
| Incidents.TriggersAndEvents | apps/worker/src/incident-plan.ts:66-118 | every trigger has a timeline event of its own type, and an event without a trigger is exactly a downgrade of an incident that is not resolved, and UPDATED |
| Incidents.EveryInterleavingIsConsistent | apps/worker/src/log-processing.service.ts:145-180 | under every interleaving of reads, upserts, abandoned jobs and operators: the counter is the creation's count plus later upserts, resolved exactly with a resolution date, first seen not after the creation, and last seen not before it unless a blind write was older |
| Incidents.NoIncrementIsLost | apps/worker/src/log-processing.service.ts:158-180 | the counter is the creation's count plus the number of upserts performed after it, counted over the run |
| Incidents.LastSeenStaysUnlessStaleBlindWrite | apps/worker/src/log-processing.service.ts:172-179 | an upsert takes last seen before the creation exactly when it is blind and carries a timestamp older than the creation |
| Incidents.SeenShrinksExactlyWhenStale | apps/worker/src/incident-plan.ts:66-68 | a step moves last seen back exactly when it is an upsert older than the row by now, but newer than what its worker read or of a worker that read nothing; its twin for first seen |
| Incidents.UpsertJudgesByItsRead | apps/worker/src/incident-plan.ts:66-107 | after any run, an upsert of an existing incident leaves it resolved exactly when it was resolved and its worker's last read did not find it so, and changes its status exactly when it was not OPEN and that read found it resolved |
| Incidents.ResolvedByHistory | apps/worker/src/log-processing.service.ts:153-180 | after any run the incident is resolved exactly when an operator resolved it and since then no operator took it out of RESOLVED and no worker that had read it as resolved has written |
| Incidents.StatusByHistory | apps/api/src/modules/incidents/incidents.service.ts:60-70 | after any run the status is what an operator set, if no operator and no worker that saw the incident resolved has written it since, and OPEN otherwise; a resolved incident is dated by that operator's instant, any other has no date |
| Incidents.RowShowsLastUpsert | apps/worker/src/log-processing.service.ts:158-180 | after any run title, severity, recent count and log of the row are those of the detection written last, whoever read what before |
| Incidents.SeenIsMinAndMaxUnlessStale | apps/worker/src/incident-plan.ts:66-68 | under every interleaving without such an upsert, first and last seen are the least and greatest timestamp of the upserts performed |
| Incidents.SeeingWorkersMoveLastSeenBack | apps/worker/src/incident-plan.ts:66-68 | a run of two workers that both saw the row and move last seen from 30 to 20 |
| Incidents.SeeingWorkersMoveFirstSeenForward | apps/worker/src/incident-plan.ts:66-68 | a run of two workers that both saw the row and move first seen from 1 to 5 |
| IncidentReports.AcknowledgedCanBeOverwritten | apps/worker/src/incident-plan.ts:66-107 | a run in which an operator acknowledges an incident after a worker saw it resolved, and the worker's upsert sets it to OPEN |
| IncidentReports.TriggerIsDecidedByRead | apps/worker/src/incident-plan.ts:102-110 | under every interleaving what a worker will raise follows from the row at its last read, and for CREATED from there having been no upsert by then |
| IncidentReports.TriggersAreAccountedFor | apps/worker/src/log-processing.service.ts:153-218 | in every run, with jobs that may end at any await, each upsert whose read gave reason for a trigger has raised it, still owes it, or lost it with its job |
| IncidentReports.TriggersAreRecordedFirst | apps/worker/src/log-processing.service.ts:183-218 | under every interleaving no trigger is raised more often than its timeline event was inserted |
| IncidentReports.EventsAreInsertedOnce | apps/worker/src/log-processing.service.ts:181-192 | in every run each upsert that had a timeline event to insert has inserted it once, is about to, or its job ended before |
| IncidentReports.CreatedIsRaisedPerEarlyReader | apps/worker/src/log-processing.service.ts:153-218 | CREATED raised, owed and lost add up to the upserts whose read came before the first one; there is an incident exactly when there is such an upsert; once nothing is owed CREATED was raised once exactly when all but one of them lost it |
| IncidentReports.RacingWorkersBothCreate | apps/worker/src/log-processing.service.ts:153-218 | a run of two racing workers that raises CREATED twice and takes last seen before the creation |
| IncidentReports.CreatedCanBeLost | apps/worker/src/log-processing.service.ts:158-192 | a run of a job that ends between its upsert and its event and is delivered again: an incident, and no event or trigger |
| IncidentReports.ReopenedCanBeRaisedTwice | apps/worker/src/incident-plan.ts:107 | a run of one resolve, seen by two workers, that raises REOPENED twice |
| IncidentReports.ReopenedCanBeMissed | apps/worker/src/incident-plan.ts:66-107 | a run in which an operator resolves between a read and its upsert: the detection is counted, nothing is raised, and the incident stays resolved |
| Incidents.SerialRow | apps/worker/src/incident-plan.ts:55-82 | serially the row shows the last detection, and is resolved exactly when the last operation resolved it |
| Incidents.TriggerByHistory | apps/worker/src/incident-plan.ts:102-110 | which trigger a detection raises, from the history of operations alone |
| Incidents.CreatedIsRaisedOnce | apps/worker/src/incident-plan.ts:106 | serially CREATED is raised by the first detection and no other |
| Incidents.ReopenedFollowsResolve | apps/worker/src/incident-plan.ts:107 | serially REOPENED is raised exactly right after an operator resolved an existing incident |
| Incidents.EscalationsAreSeparated | apps/worker/src/incident-plan.ts:108 | between two severity increases, the second to no higher a severity, some detection lowered it |
| Incidents.SeenIsMinAndMax | apps/worker/src/incident-plan.ts:66-68 | serially first and last seen are the least and greatest detection timestamps, in any arrival order |
| LogProcessing.CountsAreProcessed | apps/worker/src/log-processing.service.ts:90-105 | the window counts are the numbers of distinct log ids of the fingerprint processed in the window |
| LogProcessing.CountGrowsByOne | apps/worker/src/log-processing.service.ts:90-105 | from event to event a count grows by at most one, and not by reprocessing a log still in its window |
| LogProcessing.ExistsIffTriggered | packages/shared/src/incident-rules.ts:24-28 | an incident exists exactly when at some step so far five distinct logs were processed in ten minutes, or three fatal ones in five |
| LogProcessing.DetectionByHistory | packages/shared/src/incident-rules.ts:24-28 | a log is detected exactly when it is one of five of its fingerprint in ten minutes or of three fatal ones in five; it is CRITICAL exactly in the latter case, whatever else was reached, and HIGH otherwise, with its own data and the ten-minute count |
| LogProcessing.RowShowsLastDetection | apps/worker/src/log-processing.service.ts:107-180 | the row of a serial run shows the last log that reached a threshold, and is CRITICAL exactly when three fatal logs in five minutes made it so |
| LogProcessing.UnderThresholdUntilOpened | apps/worker/src/log-processing.service.ts:123-124 | until an incident exists both counts stay under their thresholds |
| LogProcessing.RetryOpensNothing | apps/worker/src/log-processing.service.ts:90-136 | reprocessing a log still in its window never opens an incident |
| LogProcessing.CounterCoversRecent | apps/worker/src/log-processing.service.ts:123-180 | for an error fingerprint, and a fatal one created with four logs or more, the lifetime counter is never behind the recent count; otherwise it is at most one behind |
| LogProcessing.FatalCounterCanFallBehind | apps/worker/src/log-processing.service.ts:158-180 | a run of a fatal fingerprint with five recent logs and a lifetime counter of four |
| LogProcessing.RecentIsCoveredExactlyForErrors | apps/worker/src/log-processing.service.ts:123-180 | in every serial run of a fingerprint the lifetime counter covers the recent count, exactly when the fingerprint is not fatal |
| RacingWorkers.EveryDetectionIsAccountedFor | apps/worker/src/log-processing.service.ts:90-180 | under every interleaving of counting in each window, reading, upserting, failing jobs and operators, each detection was written once, is on its way, or was lost; each log with five in ten minutes led to a detection, or its job stands or ended between its two windows |
| RacingWorkers.AnswersAreProcessed | apps/worker/src/log-processing.service.ts:97-105 | in whatever order the calls of a fatal window come, the answer to one is at most the number of logs processed in its five minutes |
| RacingWorkers.ExistsIffWritten | apps/worker/src/log-processing.service.ts:90-180 | under every interleaving an incident exists only if some log reached a threshold by the logs up to it, for an error fingerprint exactly then when no detection is on its way or lost, and is missing exactly when all detections are |
| RacingWorkers.FatalExistsIffReachedInOrder | apps/worker/src/log-processing.service.ts:90-180 | for a fatal fingerprint an incident exists exactly when some log reached a threshold, when every detection was written, every job called its second window and these calls came in the order of their clock readings |
| RacingWorkers.UninterruptedDetectsSerially | apps/worker/src/log-processing.service.ts:90-121 | with the earlier windows called in order, a job that counts without interruption detects what the serial model detects |
| RacingWorkers.CounterCoversRecentUpToUnwritten | apps/worker/src/log-processing.service.ts:90-180 | under every interleaving the recent count is ahead of the lifetime counter by at most the detections on their way or lost, the logs undecided between their windows, and what a fatal incident was created short of four with |
| RacingWorkers.EveryInterleavingIsJudged | packages/shared/src/incident-rules.ts:24-28 | under every interleaving each detection on its way, and the incident, is HIGH for an error fingerprint; for a fatal one it is CRITICAL exactly when its own call found three logs in five minutes, and otherwise HIGH by five logs in ten |
| RacingRuns.ThresholdIsMissedBackwards | apps/worker/src/log-processing.service.ts:90-121 | a run of three fatal logs in five minutes, counted in order in the first window and backwards in the second: no incident |
| RacingRuns.FatalCounterFallsThreeBehind | apps/worker/src/log-processing.service.ts:90-180 | a run of a fatal fingerprint with every detection written and every window called in order, whose lifetime counter is three behind the recent count |
| RacingRuns.SettledRunsCoverExactlyErrors | apps/worker/src/log-processing.service.ts:90-180 | the recent count is covered in every run with every detection written and every window called in order, exactly for fingerprints that are not fatal |
| RacingRuns.RacingCounterFallsBehind | apps/worker/src/log-processing.service.ts:158-180 | for every number of detections on their way a run of an error fingerprint that is that far behind |
| RacingRuns.RecentIsCoveredExactlyWhenAllWritten | apps/worker/src/log-processing.service.ts:123-180 | for an error fingerprint every run with a given number of detections on their way or lost covers the recent count, exactly when that number is zero |
| LogProcessing.RowIsSerial | apps/worker/src/log-processing.service.ts:123-136 | the row of a processed fingerprint is that of the serial incident machine on its detections, all of them high or critical |
| LogProcessing.ProcessedEscalationsAreSeparated | apps/worker/src/incident-plan.ts:108 | between any two severity increases of a processed fingerprint some detection lowered the severity |
| LogProcessing.EscalationIsToCritical | apps/worker/src/incident-plan.ts:102-110 | a processed fingerprint escalates exactly when an incident that is not resolved goes from HIGH to CRITICAL |
| LogProcessing.TimelineTellsEverything | apps/worker/src/log-processing.service.ts:181-218 | in serial runs an incident has one CREATED entry and one such alert; its status changes are those of operators and the reopenings alerted of, its updates the escalations alerted of and the downgrades |
| LogProcessing.LogKeepsAgreement | apps/worker/src/log-processing.service.ts:145-194 | one detection keeps the incident table, the timeline and the triggers those of the history, for every fingerprint |
| LogProcessing.LogProcessor.CountWindows | apps/worker/src/log-processing.service.ts:90-124 | what the worker counts and decides for a log is what the history of all logs says |
| LogProcessing.LogProcessor.UpsertIncident | apps/worker/src/log-processing.service.ts:145-194 | read, plan, upsert, event and trigger leave exactly the table, timeline and triggers of one detection |
| LogProcessing.LogProcessor.Process | apps/worker/src/log-processing.service.ts:90-136 | a job keeps the tables those of the history; a job whose log is missing does nothing |
| LogProcessing.LogProcessor.UpdateStatus | apps/api/src/modules/incidents/incidents.service.ts:60-89 | an operator sets exactly the status given, with the instant of a resolve, and touches nothing else of the row and no other row; table and timeline stay those of the history; an unknown incident is an error and changes nothing |
| AlertDispatching.AttemptsAreApart | apps/worker/src/alerts/alert-dispatcher.service.ts:70-79 | attempts of one rule on one incident are at least its throttle apart, even when claims fail or their answers are lost |
| AlertDispatching.AttemptsAreBounded | apps/worker/src/alerts/alert-dispatcher.service.ts:70-105 | an interval of length L sees at most L / T + 1 attempts of a rule with throttle T on one incident |
| AlertDispatching.EndsByHistory | apps/worker/src/alerts/alert-dispatcher.service.ts:70-105 | a delivery throws exactly when its claim call fails, is throttled exactly while an earlier claim of its rule and incident runs, and is otherwise SENT when its request succeeds and FAILED when not |
| AlertDispatching.AttemptsAreMinutesApart | apps/worker/src/alerts/alert-dispatcher.service.ts:72-74 | attempts of a rule on an incident are its throttle minutes apart, and a rule without any is always attempted |
| AlertDispatching.ThrottledWithinItsMinutes | apps/worker/src/alerts/alert-dispatcher.service.ts:72-79 | a rule is throttled only when it was claimed for the same incident within those minutes before |
| AlertDispatching.FiltersNarrow | packages/shared/src/alerting.ts:28-45 | an enabled rule without filters matches the triggers it asks for, and each filter narrows it by its own condition alone, severities from LOW to CRITICAL |
| AlertDispatching.MatchingConcat | apps/worker/src/alerts/alert-dispatcher.service.ts:41-48 | the matching rules are each one once, in the order of the rules |
| AlertDispatching.SentIsReached | apps/worker/src/alerts/alert-dispatcher.service.ts:51-56 | what is counted as sent is the number of matching rules delivered, unthrottled, by a request that succeeds |
| AlertDispatching.EveryRuleIsRecordedOnce | apps/worker/src/alerts/alert-dispatcher.service.ts:59-124 | when claims answer and rows are written, a dispatch leaves one row for each matching rule, in order, as SENT, FAILED or THROTTLED |
| AlertDispatching.AlertDispatcher.Deliver | apps/worker/src/alerts/alert-dispatcher.service.ts:59-124 | the outcome of one delivery follows from the history of claims, and a row is written for it unless the claim failed or the row is lost |
| AlertDispatching.AlertDispatcher.Dispatch | apps/worker/src/alerts/alert-dispatcher.service.ts:35-57 | each matching rule is delivered once, in order, and leaves the row of its outcome; `sent` is the number of rules that reached their channel; it throws exactly when a claim does |
| ApiKeys.EveryInterleavingIsSound | apps/api/src/modules/api-keys/api-keys.service.ts:71-143 | under every interleaving each cached grant, held lookup and accepted request comes from a lookup before any revocation, written less than a time to live ago |
| ApiKeys.EveryGrantIsTraceable | apps/api/src/modules/api-keys/api-keys.service.ts:109-143 | the lookup each of them comes from was made by a validator that had missed the cache for this very key, and found its unrevoked row with this context |
| ApiKeys.AcceptedKeysWereLookedUpUnrevoked | apps/api/src/modules/api-keys/api-keys.service.ts:109-143 | an accepted context is that of a stored row; after a revocation a key is accepted only by a validator that looked this key up before, or by a cache read of this key through an entry such a validator wrote less than one time to live ago |
| ApiKeys.RevokedKeyExpires | apps/api/src/modules/api-keys/api-keys.service.ts:84-89 | when validators write within some delay of their lookup, no key is accepted later than that delay and one time to live after its revocation |
| ApiKeys.RevocationIsFinalExactlyWhenClean | apps/api/src/modules/api-keys/api-keys.service.ts:84-130 | from a state with a revoked key: it is never accepted again, whatever happens, exactly when no validator holds a lookup that found it and no live cache entry grants it |
| ApiKeys.RevocationInARun | apps/api/src/modules/api-keys/api-keys.service.ts:84-130 | the same for the state after any run |
| ApiKeys.RevokedKeyCanStillBeAccepted | apps/api/src/modules/api-keys/api-keys.service.ts:88-130 | a run from the empty state in which a lookup made before a revocation is accepted after it, and its cache write undoes the delete |
| ApiKeys.RevokedKeyIsServedUntilDropped | apps/api/src/modules/api-keys/api-keys.service.ts:84-89 | a run from the empty state in which the cached grant is used between the two writes of a revocation |
| ApiKeys.RejectionsAreShort | apps/api/src/modules/api-keys/api-keys.service.ts:123-126 | under every interleaving a cached rejection lives for ten seconds from its write |
| ApiKeys.UnrevokedKeyIsAccepted | apps/api/src/modules/api-keys/api-keys.service.ts:109-134 | a stored unrevoked key that no cache entry answers for is accepted with its own context by an uninterrupted validation |
| ApiKeys.SerialIsCoherent | apps/api/src/modules/api-keys/api-keys.service.ts:71-143 | serially every cache entry, positive or negative, says what the key table says now |
| ApiKeys.CacheIsInvisible | apps/api/src/modules/api-keys/api-keys.service.ts:114-130 | serially a validation answers what a lookup in the table alone would |
| ApiKeys.RevokedIsNeverAccepted | apps/api/src/modules/api-keys/api-keys.service.ts:84-89 | serially a revoked key is never accepted again |
| ApiKeys.AcceptedExactlyAsAdded | apps/api/src/modules/api-keys/api-keys.service.ts:109-143 | serially a key is accepted exactly with the context it was added with, and until it is revoked |
| ApiKeys.ApiKeysService.ValidateRawKey | apps/api/src/modules/api-keys/api-keys.service.ts:109-134 | the answer is that of the key table, through a positive or negative cache entry with its own time to live |
| ApiKeys.ApiKeysService.Revoke | apps/api/src/modules/api-keys/api-keys.service.ts:71-100 | revoking dates the row and drops its entry; an unknown key is an error |
| RefreshTokens.EveryRunIsChained | apps/api/src/modules/auth/refresh-token.service.ts:30-100 | in every serial run with one time to live, links lead to later stored rows of the same chain and user, and rows of a chain expire in order |
| RefreshTokens.UnrevokedRowIsTheTail | apps/api/src/modules/auth/refresh-token.service.ts:68-72 | each login chain has at most one unrevoked row, its tail |
| RefreshTokens.LinksLeadForward | apps/api/src/modules/auth/refresh-token.service.ts:68-72 | a path of replacement links never cycles, never dangles and never leaves the user |
| RefreshTokens.PurgeRemovesAPrefix | apps/api/src/modules/auth/refresh-token.service.ts:97-100 | with a purged row goes every earlier row of its chain |
| RefreshTokens.ExchangedAtMostOnce | apps/api/src/modules/auth/refresh-token.service.ts:48-75 | in every serial run each token is exchanged successfully at most once |
| RefreshTokens.RowByHistory | apps/api/src/modules/auth/refresh-token.service.ts:30-100 | in every serial run the row of a minted token is gone exactly when it was purged after its time to live; otherwise it has its owner and expiry, is revoked exactly when an operation spent it, and is dated by the first that did |
| RefreshTokens.OutcomeByHistory | apps/api/src/modules/auth/refresh-token.service.ts:48-75 | what a client is told of a minted token, by the history: invalid when purged, used when spent, expired from its time to live on, and exchanged otherwise |
| RefreshTokens.UnmintedIsInvalid | apps/api/src/modules/auth/refresh-token.service.ts:54-56 | a token that was never minted is invalid |
| RefreshTokens.ExchangedExactlyInTime | apps/api/src/modules/auth/refresh-token.service.ts:48-75 | a token is exchanged exactly when it was minted less than its time to live ago and nothing has spent it |
| RefreshTokens.ReplayRevokesEverything | apps/api/src/modules/auth/refresh-token.service.ts:58-62 | replaying a spent token whose row is stored leaves its user with no unrevoked token and touches no other user |
| RefreshTokens.ReplayEndsTheFamily | apps/api/src/modules/auth/refresh-token.service.ts:58-62 | after such a replay no token stored for its user at that moment is ever exchanged |
| RefreshTokens.UninterruptedIsSerial | apps/api/src/modules/auth/refresh-token.service.ts:48-75 | the read and writes of a rotation, uninterrupted, are the serial rotation |
| RefreshTokens.EveryInterleavingLeadsForward | apps/api/src/modules/auth/refresh-token.service.ts:48-75 | under every interleaving of rotations cut at their awaits with all other operations, links lead forward within one user's chain, from spent rows |
| RefreshTokens.ExchangesOverlap | apps/api/src/modules/auth/refresh-token.service.ts:49-72 | of two exchanges of one token, the later one's read came before the earlier one's last write |
| RefreshTokens.ReadIsUsableExactly | apps/api/src/modules/auth/refresh-token.service.ts:49-66 | a rotation goes on to exchange exactly when it reads a row that is stored, unrevoked, not replaced and not expired |
| RefreshTokens.RaceExchangesInTime | apps/api/src/modules/auth/refresh-token.service.ts:48-75 | under every interleaving a token is exchanged only after a read less than its time to live from when it was minted |
| RefreshTokens.HeldReadExchanges | apps/api/src/modules/auth/refresh-token.service.ts:68-72 | a rotation under way on a stored row completes its exchange, whatever happened to the row meanwhile |
| RefreshTokens.ExchangedAgainExactlyWhenHeld | apps/api/src/modules/auth/refresh-token.service.ts:49-72 | after any run, a token already exchanged or revoked can be exchanged again exactly when a rotation of it is under way and its row is stored |
| RefreshTokens.RacingRotationsBothSucceed | apps/api/src/modules/auth/refresh-token.service.ts:49-72 | a run from the empty state in which two rotations of one token succeed and leave two unrevoked tokens in one chain |
| RefreshTokens.TailsBreakExactly | apps/api/src/modules/auth/refresh-token.service.ts:49-72 | with all unrevoked rows of each chain but its tail about to be marked, a move keeps it so exactly unless it issues a successor beside another row left standing in the chain, or ends the one job that owes such a row its mark |
| RefreshTokens.TailsStayTidyExactly | apps/api/src/modules/auth/refresh-token.service.ts:49-72 | a run of overlapping rotations keeps it so throughout exactly when it makes no such move |
| RefreshTokens.TailIsUniqueInTidyRuns | apps/api/src/modules/auth/refresh-token.service.ts:68-72 | in such a run, of two unrevoked rows of a chain the earlier one is about to be marked |
| RefreshTokens.AbandonedRotationLeavesTwins | apps/api/src/modules/auth/refresh-token.service.ts:68-72 | a run from the empty state of one rotation that ends between its two writes and leaves two unrevoked tokens in one chain, with nothing overlapping |
| RefreshTokens.LogoutIsFinalExactlyWhenNobodyIssues | apps/api/src/modules/auth/refresh-token.service.ts:49-94 | after any run, a user left without an unrevoked token stays so until the next login, whatever happens, exactly when no rotation of the user is between its read and its issue |
| RefreshTokens.ReplayCanBeOutrun | apps/api/src/modules/auth/refresh-token.service.ts:58-68 | a run from the empty state in which a replay revokes every token of the user and a rotation under way then issues a fresh one |
| RefreshTokens.RefreshTokenService.Issue | apps/api/src/modules/auth/refresh-token.service.ts:30-45 | a login starts a chain with a fresh token |
| RefreshTokens.RefreshTokenService.Rotate | apps/api/src/modules/auth/refresh-token.service.ts:48-75 | unknown, used, expired and usable tokens, in that order of checks, with the state each leaves |
| RefreshTokens.RefreshTokenService.Revoke | apps/api/src/modules/auth/refresh-token.service.ts:77-84 | an unrevoked row is dated, and the answer tells whether there was one |
| RefreshTokens.RefreshTokenService.RevokeAllForUser | apps/api/src/modules/auth/refresh-token.service.ts:87-94 | afterwards the user has no unrevoked token, no row is gone, every other row is untouched, and the answer is how many tokens there were |
| RefreshTokens.RefreshTokenService.PurgeExpired | apps/api/src/modules/auth/refresh-token.service.ts:97-100 | what is left is exactly the rows that have not expired, untouched, and the answer is how many are gone |
| ServiceStats.EveryInterleavingConserves | apps/api/src/modules/services/service-stats.buffer.ts:34-80 | under every interleaving of records, overlapping flushes and settling writes, logs and errors recorded for a service are those pending, in flight, written and lost; the pending entry sums up its records since the last swap and holds their greatest timestamp |
| ServiceStats.RecordedIsTheRun | apps/api/src/modules/services/service-stats.buffer.ts:34-49 | the records those sums range over are the records of the run, in order |
| ServiceStats.EveryInterleavingIsOrderly | apps/api/src/modules/services/service-stats.buffer.ts:34-80 | errors never exceed logs in any part |
| ServiceStats.SwapMoves | apps/api/src/modules/services/service-stats.buffer.ts:59-62 | the swap moves what is pending into flight and nothing else |
| ServiceStats.StepSumsUp | apps/api/src/modules/services/service-stats.buffer.ts:34-62 | each step keeps the pending entry the sum and the latest of the records since the last swap |
| ServiceStats.EveryWriteCarriesItsRecords | apps/api/src/modules/services/service-stats.buffer.ts:34-77 | under every interleaving each record is in the batch of one flush or not swapped out yet, and a write on its way sums up the records of its service in its batch, with their greatest timestamp |
| ServiceStats.ServiceStatsBuffer.Record | apps/api/src/modules/services/service-stats.buffer.ts:34-49 | the entry of the service grows by one log, and by one error and to a later timestamp when the log says so |
| ServiceStats.ServiceStatsBuffer.Flush | apps/api/src/modules/services/service-stats.buffer.ts:56-62 | an empty buffer starts nothing; otherwise every entry becomes a write and the buffer is empty |
| ServiceStats.ServiceStatsBuffer.SettleWrite | apps/api/src/modules/services/service-stats.buffer.ts:65-77 | a write increments its row, or is lost when the row is gone or out of reach; each remaining row is its start plus what was written |
| TimeSeries.LayoutsCoincide | apps/api/src/modules/dashboard/dashboard.service.ts:332-370 | the database and the service bin every instant alike exactly when the bucket size divides the minutes from 1970 to 2000 |
| TimeSeries.CountIncidents | apps/api/src/modules/dashboard/dashboard.service.ts:367-371 | the map holds for every bucket the number of incidents of the range in it |
| TimeSeries.Build | apps/api/src/modules/dashboard/dashboard.service.ts:365-388 | the loops build the series defined by counting, bucket by bucket |
| TimeSeries.PointsAreConsecutive | apps/api/src/modules/dashboard/dashboard.service.ts:373-374 | the points are consecutive bucket multiples, from the bucket of the start to the last one that begins before the end |
| TimeSeries.EachInstantInOnePoint | apps/api/src/modules/dashboard/dashboard.service.ts:373-374 | every instant of the range lies in the bucket of exactly one point |
| TimeSeries.PointCountsItsBucket | apps/api/src/modules/dashboard/dashboard.service.ts:374-385 | a point counts what lies both in the range and in its own bucket, for logs, errors and incidents |
| TimeSeries.SeriesSumsToTotals | apps/api/src/modules/dashboard/dashboard.service.ts:320-388 | the points sum up to the totals of the range |
| TimeSeries.CompleteExactlyWhenAligned | apps/api/src/modules/dashboard/dashboard.service.ts:332-387 | the sums are the totals for every input exactly when the bucket size divides the minutes from 1970 to 2000, as each of the five configured sizes does |
| TimeSeries.ConfiguredSeries | apps/api/src/modules/dashboard/dashboard-range.ts:4-31 | every configured range gets a complete series, of as many points as it holds buckets, or one more when it does not start on a bucket |
| TimeSeries.ConfiguredBuckets | apps/api/src/modules/dashboard/dashboard-range.ts:4-18 | the five ranges cover 15 minutes, one hour, six hours, a day and a week, in 15, 12, 24, 24 and 28 buckets |
| TimeSeries.ComparedWithTheRangeBefore | apps/api/src/modules/dashboard/dashboard-range.ts:20-31 | a range ends now, and the one it is compared with is as long and ends where it begins |
| CardNumbers.Luhn | packages/shared/src/redaction.ts:108-125 | the loop accepts 13 to 19 digits, separators aside, whose alternating sum of ISO/IEC 7812-1 Annex B ends in zero |
| CardNumbers.LengthsAreThirteenToNineteen | packages/shared/src/redaction.ts:109-110 | of the numbers whose sum is right, those of 13 to 19 digits are card numbers |
| CardNumbers.SeparatorsDoNotCount | packages/shared/src/redaction.ts:109 | what is no digit makes no difference |
| CardNumbers.OneDigitChangesTheSum | packages/shared/src/redaction.ts:112-124 | for digits of any length, replacing one digit by a different one always changes the sum modulo ten |
| CardNumbers.SwapChangesTheSum | packages/shared/src/redaction.ts:112-124 | exchanging two neighbouring digits keeps the sum modulo ten exactly when they are equal or a 0 and a 9 |
| CardNumbers.MistypedDigitIsDetected | packages/shared/src/redaction.ts:108-125 | no card number with one digit mistyped is a card number |
| CardNumbers.SwappedDigitsAreDetected | packages/shared/src/redaction.ts:108-125 | a card number with two neighbouring digits exchanged is one exactly for equal digits and 0 beside 9 |
| CardNumbers.OneCheckDigit | packages/shared/src/redaction.ts:112-124 | any digits are completed to a valid number by exactly one check digit |

## Left out

- LogLines.Consume: text is characters; decoding a chunk that ends inside a multi-byte character is not modelled, and neither is the payload built for each entry.
- LogBatching.Batcher.Settle: how long a timer or a sink call takes is not modelled, only the order of events; the interval option has no counterpart.
- LogBatching.ForeignFlushEndsTheDrain: a state of the model, not of the agent, where nothing runs between a settlement and the loop's next look.
- LogBatching.Batcher.Stop: what may happen between a settlement and the loop's next look is any sequence of events, more than the runtime can schedule there; the process exit after it, which loses what a concurrent flush left in the buffer, is not modelled.
- RateLimiting.RequestCost: a cost that is not a finite number is not modelled; the one cost function configured returns the length of an array or 1 (`apps/api/src/main.ts:126-129`).
- RateLimiting.RateLimit.Handle: deriving the subject from headers is left out.
- RateLimiting.AdmissionIsBounded: all requests use one limiter with one window length and limit, as each limiter does.
- Incidents.EveryInterleavingIsConsistent: deleting an incident is not modelled.
- LogProcessing.LogProcessor.Process: jobs run one at a time here; jobs cut into steps, which may end after any of them, are in `racing_workers.dfy`, and what becomes of their events and triggers in `incident_reports.dfy`. The parsed-log record and the live feed are left out.
- LogProcessing.LogProcessor.UpdateStatus: membership and role checks and the audit record are left out.
- RacingWorkers.EveryDetectionIsAccountedFor: the first window of a log is counted at its clock reading, so logs come to it in the order of these where `Timely` is asked for; the calls of the second window come in any order, and its key lives for five minutes from the reading passed to the last one.
- AlertDispatching.AlertDispatcher.Dispatch: deliveries of one dispatch, started together in the original, run one after another, each timed at its claim; distinct rules use distinct keys.
- ApiKeys.ApiKeysService.Revoke: membership checks, the audit record and the throttled last-used date are left out; a second revocation overwrites a date nothing reads.
- RefreshTokens.EveryRunIsChained: operations are serial, and what is left under overlapping ones is `RefreshTokens.EveryInterleavingLeadsForward`; the time to live is a constant, as it is while the configuration does not change.
- ServiceStats.ServiceStatsBuffer.SettleWrite: a write that is applied although its answer is lost counts as written; the last-seen date of a row is whatever batch is written last, so it can go back between batches.
- TimeSeries.Build: rates, rounding and average durations of a point are left out, and so is the query language of the database; its grouping is a function.
- CardNumbers.Luhn: how the redactor finds candidate digits in a text is left out.
- Regular expressions for redaction and message normalisation: a fingerprint is an abstract value.
- Controllers, modules, guards, validation, metrics, logging and environment parsing: plumbing with one-branch logic.
- Dashboard pages and components: user interface.
- Docker, HTTP, event streams, analysis and mail delivery: each appears only as a step that succeeds or fails.
- Encryption, password hashing, signing and digests: fresh values and injective names stand for them.
- Label matching, pagination, role ranks, the last-owner check and demo traffic: they would only add easy members.
