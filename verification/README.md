# BatRewind in Dafny

BatRewind records browser sessions with rrweb, streams the batches through a Redis consumer group to
a pool of autoscaled workers, stores them in SQL tables and replays them in a dashboard. This project
models the parts of it that keep state, and proves what they keep over whole runs.

- **Rate limiter** (`RateLimiter`). The two numbers a token bucket keeps are proved to decide exactly
  like a count over the whole call history of the key, for clock readings in any order.
- **Autoscaler** (`Autoscaler`). The pool of stop channels, the evaluation arithmetic, its convergence,
  and the cooldown of the monitor over every sequence of ticks.
- **Recorder** (`RollingBuffer`, `Streaming`, `Recorder`, `SessionHandle`). The incrementally pruned
  segments and the streaming buffer are proved equal to simple functions of the full log of emissions;
  the session store never gives one id two tokens.
- **Ingest pipeline** (`Queue`, `Store`, `Service`, `Worker`, `Pipeline`, `NoSilentLoss`, `Accounting`,
  `StableIdentity`, `Retention`, `Recovery`). `Pipeline` is a step protocol: writer, workers, reader retries, share
  links, erasures and purges interleave one repository or queue call at a time; a call may be refused,
  or take effect and still report an error; a process may crash between any two calls. `Store` gives the
  calls their effect on the tables, `Service`, `Queue` and `Worker` are the code as one caller runs it,
  and `Worker.ProcessIsARun`, `Worker.RetryIsARun` and `StableIdentity.ShareIsARun` tie the two views
  together. `Recovery` shows that every reachable state can still be worked off.
- **End to end** (`Playback`, `Rewind`). The log of a session's recordings, in the always and in the
  buffered mode, is carried through any run of the pipeline to the answer of the event query.
- **Timeline** (`Timeline`, `DocumentOrder`, `Redaction`). The early-exit text walk, the node index by
  positions in the recording, what the items say, and their commutation with the redaction of public
  replays.

`Prelude` and `Rrweb` hold the shared types. `dafny verify dfyconfig.toml` checks everything.

## How the source is modelled

- Floats are `real`, machine integers are `int`, instants are numbers handed in by the caller. Where two
  clock readings differ in the code (the limiter's before its lock, the monitor's check and its stamp,
  the session store's check and its write) the model keeps both.
- Objects that change in place are classes whose methods are proved against functions of their state;
  the lemmas about whole runs are about those functions. A ghost field or `View()` ties the two.
- A repository or queue call succeeds, is refused without effect, or takes effect and still reports an
  error. The choice is nondeterministic, so every contract covers it. The repository and the stream keep a
  ghost log of how their calls ended; what a caller returns is stated as a function of that log.
- Database constraints are part of the calls: share tokens are unique, an event row needs its session
  (`internal/db/migrations`). `InsertEvents` is all or nothing, an `Ingest` is not.
- All worker processes share one consumer name (`cmd/worker/main.go`), so the unacknowledged entries
  are one set and a restart may take up a message another process is still working on.
- `origins`, `inserts`, `erased` in the pipeline's state, and the positions used as ids of messages and
  failed rows, are bookkeeping, not columns.
- A scale factor of zero makes the code convert a non-finite quotient to an integer, which the language
  leaves to the platform: the result is a parameter of the pool's configuration (`nonFinite`). The
  lower-casing of tag names is a parameter of the timeline (`lower`).

Where the code and its comments differ, the model follows the code:

- `CreateShareToken` is documented as idempotent and its token as stable. It reads and then writes, so a
  call caught between the two overwrites the token a batch has stored meanwhile
  (`StableIdentity.StaleShareOverwrites`), and a batch upserted before the call overwrites the token the
  call has returned (`StableIdentity.BatchOverwrites`). `StableIdentity.TokenLostIff` says for every token
  exactly which steps take it away.
- Device metadata is meant to be stored once per session. Each page load sends it again, and the stored
  one is the last written (`StableIdentity.MetaIsLastWritten`, `StableIdentity.SecondLoadOverwrites`).
- `PurgeOlderThan` is documented by when sessions started, but every batch rewrites `started_at`; what
  counts is the latest batch (`Service.PurgeIsExact`). The id query and the delete are two statements, so
  a session brought up to date between them is deleted all the same: `Retention.PurgeRemovesRecentIff`
  says exactly when, and `Retention.PurgeRemovesRecent` is such a run.
- Every batch resets `event_count`, so it is the size of the last batch and not the number of events
  (`Store.SequentialHistory`). After an erasure it can even exceed the stored events, exactly when an
  ingest stood between its insert and its count (`Accounting.ErasureSafeIff`,
  `Accounting.ErasureBreaksCounter`).
- Events are read back by timestamp and insert instant, which leaves the order of equal ones open:
  `Playback.AnswersAgreeIff` says for which tables the replay is determined, and `Playback.TiesHappen` is
  a run to one where it is not.
- The rolling buffer is meant to hold what one pruning at the last checkout would leave. After a clock
  that went back it may hold less: `RollingBuffer.OneShotIff` says exactly when, for every log, and
  `RollingBuffer.ClockMustNotGoBack` is such a log.
- Failed batches are meant to end up in `failed_ingest`. A batch whose save also fails is acknowledged
  all the same: `NoSilentLoss.LossIff` and `NoSilentLoss.LossHappens`.
- A burst below one still lets the first call of a key through (`RateLimiter.ExactIffBurst`).
- The number of attempts is the four delays in the code; `MaxRetries` is not used.

## Model

| member | source | states |
|---|---|---|
| `RateLimiter.Limiter.Allow` | internal/middleware/middleware.go:86-110 | the answer is yes exactly when every window from an earlier call to this one stays within burst plus earned rate; non-positive rates disable it; other keys are untouched |
| `RateLimiter.Limiter.constructor` | internal/middleware/middleware.go:77-83 | a new limiter has seen no call on any key |
| `RateLimiter.Decision` | internal/middleware/middleware.go:95-109 | one call on a bucket that holds the tightest window level answers as the counting specification does and leaves a bucket that holds it again |
| `RateLimiter.RefillDecides` | internal/middleware/middleware.go:102-105 | the refilled bucket reaches one token if and only if the whole history admits a call, for readings in any order |
| `RateLimiter.WindowBound` | internal/middleware/middleware.go:86-110 | calls allowed in a window ending in an allowed call never exceed burst plus rate times its length |
| `RateLimiter.EveryWindowBound` | internal/middleware/middleware.go:86-110 | with readings in order the bound holds for every window |
| `RateLimiter.PacedCallerAlwaysAllowed` | internal/middleware/middleware.go:102-109 | a caller keeping 1/rate between calls is never rejected |
| `RateLimiter.ExactIffBurst` | internal/middleware/middleware.go:95-109 | the limiter agrees with the specification on a whole history if and only if burst is at least one; below, only the first call passes |
| `Autoscaler.NextId` | internal/worker/service.go:251-256 | the next worker id is above every live one, in whatever order the map is walked |
| `Autoscaler.Pool.constructor` | internal/worker/service.go:26-34 | a new pool is empty and stamped with its creation |
| `Autoscaler.Pool.Spawn` | internal/worker/service.go:258-263 | registers a fresh channel under an unused id and keeps count and channels in step |
| `Autoscaler.Pool.Retire` | internal/worker/service.go:278-281 | the removed channel was open and empty, is sent to once and closed; nothing else changes |
| `Autoscaler.Pool.ScaleUp` | internal/worker/service.go:249-266 | reaches the target with fresh channels only, live workers untouched |
| `Autoscaler.Pool.ScaleDown` | internal/worker/service.go:268-285 | stops exactly the surplus, each channel sent to once then closed, whatever the map order |
| `Autoscaler.Pool.ScaleWorkers` | internal/worker/service.go:229-247 | the pool after clamping, growing or shrinking, with its stamp and recorded action |
| `Autoscaler.Pool.Start` | internal/worker/service.go:58-58 | start-up scales the empty pool to its configured size |
| `Autoscaler.Pool.EvaluateScaling` | internal/worker/service.go:287-316 | one evaluation moves the pool to the computed target |
| `Autoscaler.Pool.MonitorTick` | internal/worker/service.go:120-148 | a tick evaluates only after the cooldown or in an emergency below the maximum |
| `Autoscaler.ResizedNearest` | internal/worker/service.go:233-246 | scaling goes to the size within the bounds nearest to the target |
| `Autoscaler.GrowthIsLeast` | internal/worker/service.go:292-307 | growth gives the least larger size reaching the wanted one of its tier, cut at the maximum; beyond five times the threshold the maximum |
| `Autoscaler.ShrinkageIsGreatest` | internal/worker/service.go:309-315 | for every positive factor shrinkage gives the greatest size whose multiple by the factor fits the present one, cut off at the bounds |
| `Autoscaler.OddFactors` | internal/worker/service.go:309-315 | a negative factor empties the pool to its minimum, a zero one goes to the size nearest to what its quotient converts to |
| `Autoscaler.OtherwiseUnchanged` | internal/worker/service.go:287-316 | between the thresholds, or at the bound in the way, the size stays |
| `Autoscaler.CrossedBounds` | internal/worker/service.go:233-246 | with a minimum above the maximum the maximum wins, and a pool at or below the minimum is never shrunk |
| `Autoscaler.ClimbStep` | internal/worker/service.go:292-307 | above the threshold the pool grows strictly, and doubles or fills with a factor of two |
| `Autoscaler.ShrinkStep` | internal/worker/service.go:309-315 | below the threshold it shrinks strictly, and halves or empties to the minimum with a factor of two |
| `Autoscaler.Converges` | internal/worker/service.go:287-316 | repeated evaluation reaches maximum, minimum or stays, in linearly and, with a factor of two, logarithmically many evaluations, from an empty pool too |
| `Autoscaler.DefaultSettles` | internal/worker/config.go:24-36 | the default pool fills within three evaluations above its threshold and is down to its minimum within two below |
| `Autoscaler.ShrinksIff` | internal/worker/service.go:310-314 | below its threshold the pool shrinks if and only if the factor exceeds one or is negative, or is zero and its quotient converts to a smaller size |
| `Autoscaler.MaximumStableIff` | internal/worker/service.go:292-315 | the maximum is stable if and only if the pending count is not below the down threshold |
| `Autoscaler.TickDecides` | internal/worker/service.go:120-148 | a tick fills the pool in an emergency whatever the last stamp, leaves the evaluated size after the cooldown, and otherwise changes nothing; the stamp moves exactly when the size does |
| `Autoscaler.StartsNearInitial` | internal/worker/service.go:58-58 | the pool starts with the size within the bounds nearest to the configured one, stamped if any worker starts |
| `Autoscaler.RunKeepsSpaced` | internal/worker/service.go:115-150 | every run of ticks keeps bounds, chaining of actions and the spacing invariant |
| `Autoscaler.CooldownOverRuns` | internal/worker/service.go:115-150 | from start-up on every action is the start's or a tick's, at its instant; any three consecutive ones span more than a cooldown; a second one within a cooldown is a fill-up, after which nothing scales for a cooldown |
| `RollingBuffer.IncrementalIsOneShot` | packages/browser/src/index.ts:51-62 | with a clock that never goes back, incremental pruning equals one pruning of the whole segmented log at the last opening |
| `RollingBuffer.OneShotIff` | packages/browser/src/index.ts:51-62 | for every log, whatever its clock and timestamps, incremental pruning equals one pruning at the last opening if and only if every opening dropped before that one is due at it too |
| `RollingBuffer.ClockMustNotGoBack` | packages/browser/src/index.ts:51-62 | a log, every event stamped with its own reading, whose clock goes back and for which the two differ |
| `RollingBuffer.BufferIsSuffix` | packages/browser/src/index.ts:158-167 | the buffer is a suffix of the log opened by a checkout or the first event, and its start never moves back |
| `RollingBuffer.NothingRecentIsMissing` | packages/browser/src/index.ts:49-70 | with timestamps in order and no reading later than the upload's, whatever an upload leaves out is at least bufferMs old |
| `RollingBuffer.NothingStaleIsUploaded` | packages/browser/src/index.ts:51-70 | with openings at most C apart no uploaded event is as old as bufferMs plus 2C |
| `Streaming.Conservation` | packages/browser/src/index.ts:178-196 | uploads plus buffer are the emitted log with only the first full snapshot moved ahead of the then-pending events |
| `Streaming.PendingStaysSmall` | packages/browser/src/index.ts:189-190 | after every operation the buffer is empty or encodes below the flush threshold |
| `Streaming.EmissionDecides` | packages/browser/src/index.ts:181-191 | the first full snapshot is uploaded at once, alone; any other event is buffered and the buffer uploaded if and only if it reaches the threshold |
| `Streaming.UploadsHaveReasons` | packages/browser/src/index.ts:39-45 | over every run each upload is a flushed buffer, the first full snapshot alone, or a buffer that has just reached the threshold and had not before |
| `Streaming.StopHandsOverEverything` | packages/browser/src/index.ts:242-250 | a final flush leaves nothing pending; uploads are a permutation of everything emitted |
| `Recorder.Recorder.Init` | packages/browser/src/index.ts:139-149 | starts a recording with its session and metadata, and is ignored while one is on |
| `Recorder.Recorder.Upload` | packages/browser/src/index.ts:74-90 | appends one request to the server, each field from the configuration or its default; session and token are constant over a recording and device metadata is on its first batch only |
| `Recorder.Recorder.SendBuffer` | packages/browser/src/index.ts:43-44 | empties the buffer into one batch with the stream trigger |
| `Recorder.LimitsAre` | packages/browser/src/index.ts:10-13 | the configured buffer time and flush threshold, two minutes and 500 000 bytes by default |
| `Recorder.Recorder.Flush` | packages/browser/src/index.ts:39-45 | hands the whole buffer over as one batch, or nothing when it is empty |
| `Recorder.Recorder.EmitAlways` | packages/browser/src/index.ts:181-191 | sends the first full snapshot at once, buffers any other event and sends the buffer exactly when it reaches the threshold; stays equal to the streaming specification of all its operations |
| `Recorder.Recorder.PruneSegments` | packages/browser/src/index.ts:51-62 | the loop computes the recursive pruning |
| `Recorder.Recorder.EmitBuffered` | packages/browser/src/index.ts:158-167 | an opening adds a segment and prunes, any other event grows the last one; the segments stay equal to the rolling specification of the whole log |
| `Recorder.Recorder.UploadBuffer` | packages/browser/src/index.ts:65-70 | sends the flattened segments as one batch and keeps them |
| `Recorder.Recorder.Report` | packages/browser/src/index.ts:229-237 | sends the rolling buffer of the whole log as one manual batch, nothing if it is empty, or flushes in always mode |
| `Recorder.Recorder.OnError` | packages/browser/src/index.ts:131-133 | sends the rolling buffer with the error trigger, or nothing when capture on error is off or the buffer is empty |
| `Recorder.Recorder.Identify` | packages/browser/src/index.ts:216-219 | changes the identifier of later batches only |
| `Recorder.Recorder.Stop` | packages/browser/src/index.ts:242-259 | in always mode everything emitted since init has been sent, in log order but for the first snapshot; the state is reset |
| `SessionHandle.Store.GetOrCreateSession` | packages/browser/src/session.ts:20-49 | slot and handle are those of the specification under every storage failure |
| `SessionHandle.FetchDecides` | packages/browser/src/session.ts:20-49 | a readable, live session that can be refreshed is kept, with its token or a first one, for another half hour; otherwise id and token are new, and stored unless that fails |
| `SessionHandle.RunConsistent` | packages/browser/src/session.ts:20-49 | over any calls and failures, returned handles agree with each other and with the slot |
| `SessionHandle.OneTokenPerId` | packages/browser/src/session.ts:20-49 | no id is ever returned with two different tokens |
| `SessionHandle.SlidingExpiry` | packages/browser/src/session.ts:26-32 | with working storage a call keeps the previous handle if and only if it comes within the time to live |
| `Queue.Stream.Enqueue` | internal/queue/queue.go:57-66 | the entry is appended unless the command was refused; an error unless it was confirmed |
| `Queue.Stream.Read` | internal/queue/queue.go:70-95 | the answer is the next entry's message, nothing exactly when there is none or it has no payload, or an error; the entry becomes pending even if the answer is lost, and one without payload is acknowledged |
| `Queue.Stream.ReclaimPending` | internal/queue/queue.go:99-126 | the messages of the reclaimable entries; each malformed one is acknowledged, and leaves the pending set exactly if that took effect |
| `Queue.ReclaimsOldest` | internal/queue/queue.go:99-105 | the reclaimable entries are pending, in order, at most a hundred, and one left out is younger than all of a full hundred |
| `Queue.MessagesAre` | internal/queue/queue.go:116-126 | of these exactly the well-formed ones are returned, with their payloads, in order |
| `Queue.Stream.Ack` | internal/queue/queue.go:129-131 | removes the message from the pending set unless the command was refused; an error unless it was confirmed |
| `Store.IngestedSoFar` | internal/session/service.go:41-98 | after any number of calls of an ingest: every column of the row from the batch with its defaults, counter, whole batch or none, other sessions and failed rows untouched |
| `Store.IngestedIdentity` | internal/session/service.go:62-78 | token and device metadata are the batch's once their calls are made, and what they were otherwise |
| `Store.CallOrder` | internal/session/service.go:58-97 | each call of an ingest is made once, the token before the metadata |
| `Store.RefusedIff` | internal/session/repository.go:67-118 | a call is refused if and only if its effect would break the uniqueness of tokens or leave an event row without its session |
| `Store.SequentialHistory` | internal/session/service.go:41-98 | over any sequential history with failures, the counter is the last batch's size or zero, the store holds every batch that reached its insert |
| `Store.FaultlessHistory` | internal/session/service.go:41-98 | with no failure the counter is the size of the last batch while the stored events are the sum of all |
| `Store.RowsForKept` | internal/session/repository.go:121-128 | an erasure removes all rows of the erased sessions and none of the others |
| `Service.Repository.UpsertSession` | internal/session/repository.go:20-29 | rewrites every column but token and device metadata, unless the call is logged as refused; an error unless it is logged as confirmed |
| `Service.Repository.SetShareToken` | internal/session/repository.go:113-118 | sets the token of one row; refused if another session has it |
| `Service.Repository.SetClientMetadata` | internal/session/repository.go:34-51 | sets the device metadata of one row |
| `Service.Repository.InsertEvents` | internal/session/repository.go:67-69 | appends all rows or none, none if a session is missing |
| `Service.Repository.IncrementEventCount` | internal/session/repository.go:53-58 | adds to the counter of one row |
| `Service.Repository.DeleteSessions` | internal/session/repository.go:121-128 | removes sessions with all their events, or nothing |
| `Service.Repository.PurgeOlderThan` | internal/session/repository.go:132-152 | removes exactly the expired sessions with their events and returns their number if every call was confirmed; otherwise none is returned and either all of them are removed or nothing |
| `Service.Repository.SaveFailed` | internal/session/repository.go:215-217 | appends an unresolved row or nothing |
| `Service.Repository.MarkFailedResolved` | internal/session/repository.go:236-242 | resolves one row or nothing |
| `Service.Repository.ListUnresolved` | internal/session/repository.go:219-226 | all the unresolved rows and no others, newest first |
| `Service.SessionService.BuildRows` | internal/session/service.go:80-91 | the loop fills in the batch's rows in order |
| `Service.SessionService.Ingest` | internal/session/service.go:41-98 | the calls go on until one is not confirmed, those that took effect are a prefix, and there is no error if and only if all were made and confirmed |
| `Service.SessionService.RetryFailed` | internal/session/service.go:202-218 | no error if and only if the row exists and every call was confirmed; the tables are those its logged calls lead to, and a resolved row has had its whole batch inserted |
| `Service.SessionService.RetryAllFailed` | internal/session/service.go:220-233 | every unresolved row is tried once, the newest first, whatever becomes of the others, and resolved by its own try or not; the number returned is the drop in unresolved rows less the resolving writes that took effect unconfirmed; with every call confirmed none is left |
| `Service.LeftByItsOwnTry` | internal/session/service.go:220-233 | a row left unresolved had a call in its own try that was not confirmed |
| `Service.SessionService.CreateShareToken` | internal/session/service.go:148-161 | called alone, returns the stored token or stores and returns the fresh one; fails if and only if the session is missing or a call was not confirmed |
| `Service.SessionService.PurgeOlderThan` | internal/session/service.go:136-141 | a non-positive retention purges nothing and makes no call |
| `Service.PurgeIsExact` | internal/session/repository.go:132-152 | a purge removes exactly the sessions whose latest batch precedes the cutoff, with all their events, and nothing else |
| `Service.ResolvingOne` | internal/session/repository.go:236-242 | resolving an unresolved row lowers the unresolved count by one |
| `Worker.Processor.Process` | internal/worker/service.go:190-225 | failing attempts, ended by a confirmed one or by the fourth, as logged; the batch is saved exactly when all four failed; one acknowledgement of the message, errors of both ignored |
| `Worker.TraceDecides` | internal/worker/service.go:190-225 | what the repository logged determines the attempts, whether `process` succeeded and how the saving ended |
| `Worker.DeliveryAddsCopies` | internal/worker/service.go:190-209 | one delivery adds complete copies only, at most four, at least one on success |
| `Worker.ProcessIsARun` | internal/worker/service.go:190-225 | whatever `process` logs and does to tables and queue, the run of the pipeline that advances its job alone with just these outcomes does the same; other jobs and erased sessions are left alone |
| `Worker.RetryIsARun` | internal/session/service.go:202-218 | whatever `RetryFailed` logs and does after fetching its row, the run of the pipeline that starts the retry and advances it alone with just these outcomes does the same |
| `Pipeline.NextKeepsInv` | internal/worker/service.go:152-225 | every step keeps the invariant of queue, jobs, failed rows and inserts |
| `Pipeline.RunKeepsInv` | internal/worker/service.go:152-225 | so does every run, and messages, rows and inserts only grow |
| `Pipeline.CrashEnds` | internal/worker/service.go:190-225 | a crash is possible for any job not over, ends it for good and changes nothing else |
| `Pipeline.SoloIngest` | internal/session/service.go:41-98 | a job running alone changes the tables exactly as the sequential ingest |
| `NoSilentLoss.NoBatchIsLost` | internal/worker/service.go:152-225 | in every run each enqueued batch is undelivered, pending, inserted or awaiting a retry, unless it was acknowledged after an unsaved give-up |
| `NoSilentLoss.LossIff` | internal/worker/service.go:203-205 | a step loses a batch if and only if it acknowledges it after an unsaved give-up and nothing else has inserted or saved it |
| `NoSilentLoss.LossHappens` | internal/worker/service.go:203-222 | a run from the start in which a batch is lost that way |
| `NoSilentLoss.RetriesOverRuns` | internal/session/service.go:202-218 | over every run no failed row disappears or becomes unresolved again, and resolved ones were inserted |
| `NoSilentLoss.ResolvedIff` | internal/session/repository.go:236-242 | a step resolves a failed row if and only if it is the resolving write of a retry of that row and takes effect; payload and retry count never change |
| `NoSilentLoss.ResolvingEndsRetry` | internal/session/service.go:217-217 | the resolving write ends the retry, successfully if confirmed, and changes nothing but its row |
| `NoSilentLoss.SuccessfulRetriesResolve` | internal/session/service.go:202-218 | in every run a retry that ended in success has its row resolved and its batch inserted |
| `Retention.RowIsLastUpsert` | internal/session/service.go:43-60 | in every run each column a session's row takes from a batch is that of the last upsert that took effect |
| `Retention.PurgeRemoves` | internal/session/repository.go:132-152 | whatever happens between its query and its delete, a purge removes of the sessions there are exactly those its query found, with all their events |
| `Retention.PurgeRemovesRecentIff` | internal/session/repository.go:132-152 | it removes a session at or after the cutoff if and only if the query found it too old and its last upsert before the delete is at or after the cutoff |
| `Retention.UndisturbedPurgeIsExact` | internal/session/repository.go:132-152 | with no upsert in between it removes exactly the sessions whose last upsert in the whole run precedes the cutoff |
| `Retention.PurgeRemovesRecent` | internal/session/repository.go:134-147 | a run from the start in which a purge removes a session just brought up to date |
| `Accounting.TableHoldsCompleteCopies` | internal/session/repository.go:67-69 | in every run the rows of a session never erased are one complete batch per insert that took effect |
| `Accounting.BoundedDuplication` | internal/worker/service.go:190-209 | copies of a batch are at most four per delivery and one per retry; a successful job made at least one |
| `Accounting.CounterNeverAhead` | internal/session/service.go:41-98 | in every interleaving with failures, crashes, erasures and purges the counter lies between zero and the stored events, if the session is only erased while no ingest of it is between insert and count |
| `Accounting.CounterIsSum` | internal/session/service.go:41-98 | in every run the counter is exactly the sum of the counts that took effect on the row since its last upsert or erasure |
| `Accounting.NeverErasedIsQuiet` | internal/session/service.go:41-98 | a session never erased meets that condition |
| `Accounting.ErasureSafeIff` | internal/session/repository.go:121-128 | after any erasure or purge of a session the counter holds in everything that can follow if and only if no ingest of it was between insert and count |
| `Accounting.ErasureBreaksCounter` | internal/session/repository.go:121-128 | a run from the start in which the counter exceeds the stored events |
| `StableIdentity.TokenLostIff` | internal/session/service.go:148-161 | whichever token it is, a step takes it away if and only if it erases the session, is the write of a share call that had read none, or is the token write of a batch carrying another |
| `StableIdentity.TokenSurvives` | internal/session/service.go:148-161 | a stored token, generated or from a batch, survives every later batch, attempt, retry, crash and share call while the session is not erased, no batch of it carries another token and no share call was between read and write; later share calls find it |
| `StableIdentity.StaleShareOverwrites` | internal/session/service.go:148-161 | a run in which a stale share call overwrites the batch's token |
| `StableIdentity.BatchOverwrites` | internal/session/service.go:62-67 | a run in which a batch overwrites the token a share call has stored and returned |
| `StableIdentity.ShareIsARun` | internal/session/service.go:148-161 | `CreateShareToken` call by call: it writes exactly when the session is there without a token, stores the generated one and nothing else, and cannot if another session has it |
| `StableIdentity.LinksResolveToOneSession` | internal/session/repository.go:154-161 | in every run two sessions with the same public token are the same session |
| `StableIdentity.ConstraintsHold` | internal/session/repository.go:67-118 | in every run every event row has its session and no two sessions share a token |
| `StableIdentity.MetaSurvives` | internal/session/repository.go:17-51 | device metadata once written is never wiped and keeps its value while the batches agree |
| `StableIdentity.MetaIsLastWritten` | internal/session/repository.go:34-51 | in every run the stored metadata is what was written last to the row since it was last erased |
| `StableIdentity.SecondLoadOverwrites` | internal/session/service.go:69-78 | for any two batches of a session that carry metadata, a run in which the second replaces the first's |
| `StableIdentity.SdkSessionsHaveOneToken` | packages/browser/src/index.ts:143-145 | batches of a session whose ids and tokens come from one tab's session store agree on its token, whatever other sessions the queue holds |
| `StableIdentity.SdkTokenSurvives` | internal/session/service.go:62-67 | the stored token of an SDK session survives every later run that does not erase it, once no share call is between read and write |
| `StableIdentity.SdkTokenIsOwn` | internal/session/service.go:62-67 | in every run from the start without a share call for it, the token an SDK session shows is its own |
| `Playback.AnswerExists` | internal/session/repository.go:163-167 | the event query has an answer on every table |
| `Playback.AnswerOrder` | internal/session/repository.go:163-167 | the rows of an answer are the session's, by timestamp and then by insert instant |
| `Playback.AnswersAgreeIff` | internal/session/repository.go:163-167 | on every table, all answers show the same events in the same order if and only if rows equal in timestamp and insert instant carry equal events |
| `Playback.TiesHappen` | internal/session/repository.go:163-167 | every batch with two different events of one millisecond leads to a table with two answers |
| `Playback.AnswerIsLog` | internal/session/repository.go:163-167 | an ordered answer holding the log's events but some, with any repeats, is the log without those once repeats are removed, if equal timestamps mean equal events |
| `Playback.EndToEnd` | packages/browser/src/index.ts:180-191 | for several recordings of a session with timestamps in order and equal only on equal events: however batches are cut, duplicated, reordered and ingested, the answer without repeats is the emitted sequence without the unsent events |
| `Playback.EndToEndEvents` | packages/browser/src/index.ts:180-191 | whatever the timestamps, the answer is ordered and shows exactly the emitted events that are not unsent |
| `Playback.EndToEndIncreasing` | packages/browser/src/index.ts:180-191 | with increasing timestamps the unsent events are those the buffers hold |
| `Playback.RecordingsConserve` | packages/browser/src/index.ts:178-196 | uploads and buffers of several recordings together are everything emitted, with multiplicities |
| `Playback.EndToEndAfterStop` | packages/browser/src/index.ts:242-250 | after every recording was stopped the replay is the whole emitted sequence |
| `Playback.DrainedSystemReplays` | internal/worker/service.go:152-225 | once everything is delivered and acknowledged, no failed row is unresolved and nothing was given up unsaved, the replay of stopped recordings is the whole emitted sequence, whatever failed on the way |
| `Rewind.RewindEndToEnd` | packages/browser/src/index.ts:65-70 | in the buffered mode the answer without repeats is the part of the log that some report or error found in its rolling buffer, in order |
| `Rewind.OneReportReplays` | packages/browser/src/index.ts:229-237 | a session of one report replays exactly the rolling buffer of that moment, the log up to the report from an opening on, whatever was emitted later |
| `Rewind.RewindIsComplete` | packages/browser/src/index.ts:49-70 | with timestamps in order and no reading later than the report's, every event younger than bufferMs at some report is in the replay |
| `Rewind.DrainedSystemRewinds` | internal/worker/service.go:152-225 | the same for the buffered mode: a drained system replays exactly what the reports found |
| `Recovery.IngestPossibleIff` | internal/session/service.go:41-98 | an ingest can go through if and only if no other session holds the token of its batch |
| `Recovery.CanBeWorkedOff` | internal/worker/service.go:95-113 | from every reachable state in which sessions do not share tokens, some continuation delivers, acknowledges and retries everything, erases nothing, and has inserted every batch that was safe |
| `Recovery.ReplayCanBeCompleted` | internal/worker/service.go:152-225 | whatever has failed or crashed, some continuation makes every answer for a stopped session, none of whose batches was given up unsaved, the whole emitted sequence |
| `Timeline.WalkText` | packages/dashboard/src/lib/timeline.ts:35-42 | the recursive early-exit walk adds the document-order texts until the limit is passed |
| `Timeline.CollectText` | packages/dashboard/src/lib/timeline.ts:35-44 | the label is that text with white space collapsed and trimmed |
| `Timeline.NormalizedIsWords` | packages/dashboard/src/lib/timeline.ts:43-43 | the normalised text is exactly the words separated by single spaces |
| `DocumentOrder.LabelIs` | packages/dashboard/src/lib/timeline.ts:35-44 | an element's label is the words of its text nodes' texts in document order, as many texts as it takes to pass sixty characters |
| `Timeline.TakenIsShortestPrefix` | packages/dashboard/src/lib/timeline.ts:35-44 | the walk keeps exactly the shortest prefix of texts longer than sixty characters, or all |
| `Timeline.Visit` | packages/dashboard/src/lib/timeline.ts:51-71 | one visit writes the tree's indexable nodes in document order |
| `Timeline.IndexNodes` | packages/dashboard/src/lib/timeline.ts:48-81 | the index is the nodes of all snapshots and adds written in order |
| `Timeline.IndexIsLastWriter` | packages/dashboard/src/lib/timeline.ts:48-81 | an id is indexed if and only if a node has it, and maps to the last such node |
| `DocumentOrder.ListedEventsIs` | packages/dashboard/src/lib/timeline.ts:73-80 | the nodes of a recording, listed in recording and document order, are exactly those reached through child nodes from a full snapshot or from what a mutation adds |
| `DocumentOrder.AllNodesAreListed` | packages/dashboard/src/lib/timeline.ts:51-80 | what is written into the index is the element and text nodes with an id, in that order |
| `DocumentOrder.IndexByPosition` | packages/dashboard/src/lib/timeline.ts:48-81 | an id is indexed if and only if such a node of the recording has it, and maps to the last one by position |
| `DocumentOrder.InfoSays` | packages/dashboard/src/lib/timeline.ts:56-70 | which attribute or text goes to which field of a node's entry |
| `Timeline.ItemsAreShownEvents` | packages/dashboard/src/lib/timeline.ts:152-191 | items point at shown events, in recording order, at most one each, with their timestamps |
| `Timeline.ShownEventsHaveItems` | packages/dashboard/src/lib/timeline.ts:152-191 | every shown event has its item |
| `Timeline.ItemsSay` | packages/dashboard/src/lib/timeline.ts:152-191 | each item has the kind and message of its event: level and text of a console call, address of a navigation, verb and target of a click or input |
| `Timeline.TargetIsNamed` | packages/dashboard/src/lib/timeline.ts:84-97 | a target is named by its text, else its label, placeholder or name, else its id, else its first class, else its tag |
| `Timeline.ArgsAre` | packages/dashboard/src/lib/timeline.ts:130-142 | console arguments without their added quotes, joined by spaces and trimmed |
| `Timeline.ContainsIff` | packages/dashboard/src/lib/timeline.ts:156-156 | the plugin test finds the word wherever it occurs |
| `Timeline.BuildTimeline` | packages/dashboard/src/lib/timeline.ts:148-194 | the loop computes the timeline specification, for any lower-casing of tag names |
| `Timeline.CountConsole` | packages/dashboard/src/lib/timeline.ts:197-205 | the numbers of error and of warning items |
| `Redaction.KeepPublic` | internal/session/service.go:184-191 | the in-place compaction leaves the non-plugin events in order at the front |
| `Redaction.PublicKeepsExactly` | internal/session/service.go:175-192 | the filter keeps exactly the non-plugin events with their multiplicities |
| `Redaction.RedactionCommutes` | packages/dashboard/src/lib/timeline.ts:148-194 | the timeline of the public events is the click, navigation and input items of the full one, renumbered |
| `Redaction.RenumberingPointsHome` | internal/session/service.go:175-192 | a renumbered position is that of the same event among the public ones |
| `Redaction.NoConsoleInPublic` | internal/session/service.go:173-192 | no console item survives in a public timeline |

## Left out

- HTTP handlers, CORS, body limit, authentication, health, configuration loading, `cmd/*/main.go`: plumbing over libraries.
- User-agent parsing and the clamping of device metadata: single-branch checks; metadata is taken as already sanitised.
- Redis, SQL, GORM and rrweb internals, and JSON: calls succeed or fail as a whole, decoding undoes encoding, generated identifiers are fresh.
- The endless loops of `runWorker`, `reclaimPending`, `monitor` and `purgeLoop`: each turn is a step or a method; sleeping, tickers and shutdown are not modelled.
- The start-up race of the monitor with the initial scaling: the initial scaling is taken to be over before the first tick.
- The heap identity of token buckets: they are values in the limiter's map, since the code shares none.
- `GetStats`, listing and pagination, `FinalizeSession`: would only add easy members.
- The widget, dashboard components, incident formatting, docs and packaging: user interface.
- Queue.Stream.ReclaimPending: which process reclaims when is not modelled; in `Pipeline` any pending message may be taken up at any time, which covers every restart.
- Timeline.IndexNodes: attribute values are strings.
- RateLimiter.Limiter.Allow: floating-point rounding and the saturation of very long durations are not modelled.
- Autoscaler.Pool.EvaluateScaling: overflow of the thresholds' multiples and of the conversion to an integer is not modelled.
- Service.SessionService.RetryAllFailed: the count is stated for one caller at a time; with others in between, `NoSilentLoss.RetriesOverRuns` says what rows keep.
- Liveness: that the system can always be worked off is `Recovery.CanBeWorkedOff`; that a pending message is eventually taken up or a retry eventually succeeds is not stated.
