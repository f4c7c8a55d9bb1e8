# Distributed API gateway: a verified model

This project models the protocols that the gateway's guarantees rest on and proves what they promise over
every run.

* **Token bucket** (`TokenBucket`, `BucketTheory`, `WindowTheory`, `StaleTheory`, `ClockTheory`, `Doubles`,
  `Limiter`, `Gateway`, `Loadgen`): the Lua script that Redis
  runs atomically, with microtokens, ceilings, caps and expiry; the arguments, bucket name and decoding on the
  gateway's side; the request path from authentication to the upstream. A run is a sequence of script
  calls from any number of gateways, of removals of expired keys, and of idle steps. The main results are an exact
  description of which calls are refused, optimality, exact retry times, and that forgetting a bucket
  is invisible.
* **Usage pipeline** (`Pipeline`, `PipelineProofs`, `PipelineTheorems`, `PipelineHistory`, `PipelineWorker`,
  `PipelineCalls`): any
  number of enqueuing and closing threads and one worker, as interleaved steps with a program counter for every
  lock, channel and counter operation. The store may commit a call and still report failure, and other replicas
  write to the same tables at any time. The worker loop, `Enqueue` and `Close` are also written as sequential
  code; their object invariant says that what they did, with arbitrary interference, is a legal run
  of the step machine.
* **Stores** (`UsageStore`, `Migrations`, `PolicyLookup`, `EndToEnd`, `StaleLookup`): the idempotent event table with
  incrementally maintained hourly aggregates, the lock-guarded migration loop under crashes and lost commit
  acknowledgements, and the key and quota lookup that feeds the limiter.

Conventions. Token amounts are in millionths of a token, bucket times in milliseconds. Integers are
unbounded; `BucketTheory.Headroom` and `Doubles.ScriptCeilingsExact` show that the source's 64-bit and double arithmetic
is exact. One Lua run
and one SQL statement or transaction is one atomic step. Clock readings, network outcomes, timer firings and
statement outcomes are parameters or unconstrained choices.

Four promises do not hold as widely as they might read, and the exact boundary is proved. The load generator's
bound rejects some correct runs at rates above 1001 per second (`Loadgen.CheckSoundExactly`). The quota lookup
uses stored prefixes as LIKE patterns, so its answer can depend on row order when they contain wildcards
(`PolicyLookup.WildcardsAreAmbiguous`, `PolicyLookup.LookupUniqueExactly`). And a Redis clock that steps back and recovers lets the
bucket credit time twice (`ClockTheory.BackwardClockCreditsTwice`, `ClockTheory.PlainLawExactly`). Finally, the lookup of a request and its
script run are two round trips, so a request looked up before a quota change may present the old quota after it. A stored quota
therefore binds windows whose requests were looked up under it (`EndToEnd.StoredQuotaHolds`); a request
that was not can break it (`StaleLookup.StaleLookupBreaksQuota`), and exactly which outdated quotas do no harm is decided by
comparing the numbers (`StaleTheory.HarmlessExactly`).

## Model

| member | source | states |
|---|---|---|
| `TokenBucket.Redis.TokenBucketScript` | internal/ratelimit/redis.go:45-81 | the step-by-step script answers as the level and reply functions say, rewrites only its own bucket and renews its expiry |
| `TokenBucket.TokensInRange` | internal/ratelimit/redis.go:57-70 | stored tokens stay between zero and the last caller's capacity in every run, for any clock and changing quotas |
| `BucketTheory.FeasibleIffWindowsBounded` | internal/ratelimit/redis.go:57-70 | a choice of accepted calls never overdraws a refilling bucket if and only if every window holds at most burst + floor(rate * ms / 1000) of them |
| `BucketTheory.LevelIsIdeal` | internal/ratelimit/redis.go:53-79 | after any interleaving of gateways, other buckets and expiries, the stored bucket equals a never-forgotten abstract bucket driven by the admissions |
| `WindowTheory.WindowBound` | internal/ratelimit/redis.go:45-81 | no window of any run admits more than burst + floor(rate * ms / 1000); only the window itself needs one quota and a forward clock, the bucket may hold what any earlier quota, clock or traffic left |
| `WindowTheory.HarmlessWindowBound` | internal/ratelimit/redis.go:45-81 | the window law of p also holds when calls in the window present other quotas, as long as each does p no harm: no larger burst, a refill that is no faster or a burst that p refills within a millisecond, and a time to live that covers the fill time of p |
| `StaleTheory.HarmlessExactly` | internal/ratelimit/redis.go:53-80 | over all runs, calls that present q never put a bucket ahead of p (tokens held plus admitted against full bucket plus refill) if and only if q does p no harm in that sense |
| `BucketTheory.ExactAdmission` | internal/ratelimit/redis.go:45-81 | a call is denied if and only if admitting it would overfill some window starting at a call on the same bucket |
| `BucketTheory.GreedyOptimal` | internal/ratelimit/redis.go:57-70 | the script keeps every window, and on every prefix no other choice of calls within the same windows accepts more |
| `BucketTheory.TtlCoversFill` | internal/ratelimit/redis.go:102 | the truncated time to live always covers a refill from empty |
| `BucketTheory.ExpiryInvisible` | internal/ratelimit/redis.go:53-80 | with keys vanishing at any moment at or after expiry, all four results equal those of a run that forgets nothing |
| `BucketTheory.ExpiryAcrossPolicies` | internal/ratelimit/redis.go:102 | across a quota change, expiry stays invisible if and only if the old time to live covers the new fill time |
| `WindowTheory.RetryExact` | internal/ratelimit/redis.go:60-75 | after a denial reporting retry r, earlier calls are denied and name the same absolute time, and the first call from then on is admitted; only that stretch needs one quota and a forward clock |
| `WindowTheory.FullExact` | internal/ratelimit/redis.go:76 | in every run, if nobody calls on the bucket after a reply, it is full from the reported time on and not before, forgotten meanwhile or not |
| `WindowTheory.RemainingExact` | internal/ratelimit/redis.go:124 | of the calls that follow at the same instant, exactly the reported remainder is admitted, whatever quota or clock came before |
| `BucketTheory.DenialLeavesNoTrace` | internal/ratelimit/redis.go:66-80 | removing one denied call from a run leaves a run in which every later reply, on every bucket, is unchanged |
| `BucketTheory.DenialsLeaveNoTrace` | internal/ratelimit/redis.go:66-80 | removing any set of denied calls, on any buckets, leaves a run in which every other reply is unchanged |
| `WindowTheory.AnyClockBound` | internal/ratelimit/redis.go:61-63 | under any clock and among any other steps, while the bucket is not forgotten, admissions of a window obey the law in the sum of forward clock advances |
| `ClockTheory.BackwardClockCreditsTwice` | internal/ratelimit/redis.go:61-63 | a concrete run in which a backward step credits the same interval twice, so plain stamp differences do not bound admissions |
| `ClockTheory.PlainLawExactly` | internal/ratelimit/redis.go:61-63 | along a path of clock readings, plain stamp differences bound every window for every quota and every number of calls at the readings if and only if no time is credited twice between two readings in order |
| `BucketTheory.Headroom` | internal/ratelimit/redis.go:61-76 | for every storable quota and elapsed time within the time to live, script amounts stay below 2^53 and the gateway's products and reset duration within int64 |
| `Doubles.CeilingExact` | internal/ratelimit/redis.go:74-76 | for operands up to 2^53, rounding a quotient to a nearest double does not change its ceiling |
| `Doubles.ScriptCeilingsExact` | internal/ratelimit/redis.go:72-76 | the script's retry and full times, computed by ceilings of rounded quotients, are the exact ones for every storable quota |
| `Doubles.LevelSurvivesRounding` | internal/ratelimit/redis.go:61-62 | for every stored amount, elapsed time and later quota, and any rounding that is monotone and exact up to 2^53, the capped level is exact, because whatever rounds is replaced by the capacity |
| `Doubles.RunsSurviveRounding` | internal/ratelimit/redis.go:57-70 | every call of every run with storable quotas, under any clock, is decided on the exact level although differences, products and sums are rounded |
| `Limiter.RedisLimiter.Allow` | internal/ratelimit/redis.go:87-128 | error cases in order; otherwise Redis moves by one step of a run for each try whose reply was lost and the client library repeated, and one for the last, and the decision decodes the reply to the last |
| `Limiter.AllowCases` | internal/ratelimit/redis.go:88-115 | each refused request gets its error, in the order of the checks, and leaves Redis alone; an undelivered call leaves Redis alone; a lost reply runs the script and reports failure |
| `Limiter.DecisionIsReply` | internal/ratelimit/redis.go:116-127 | in every run the decision of a delivered call is the script's: same verdict, the burst as limit, the whole tokens left as remainder, the script's own delays |
| `Limiter.SeparatorInjective` | internal/ratelimit/redis.go:98 | identity and route are recoverable from the NUL-separated encoding |
| `Limiter.BucketKeyInjective` | internal/ratelimit/redis.go:98-99 | two clients or routes share a bucket only if their digests collide |
| `Limiter.PrefixSeparates` | internal/ratelimit/redis.go:99 | deployments with different prefixes never share a bucket |
| `Gateway.RoutesAgree` | internal/gateway/handler.go:142-151 | the router sends a path to an upstream if and only if the limiter counts it under that upstream's route |
| `Gateway.Handler.ServeApi` | internal/gateway/handler.go:177-247 | one request is the lost tries and one more step of a run, with the response that the state of Redis before that step determines; without a limiter or client it fails closed unless the limiter exists and fail-open is set |
| `Gateway.ChargedTo` | internal/gateway/handler.go:215-220 | over all traffic, a request is charged to the bucket of its key and of the route that its path names, with the paths written out |
| `Gateway.AnsweredExactly` | internal/gateway/handler.go:142-151 | over all traffic, a delivered request reaches the users or the orders upstream exactly when it is admitted and its path is or begins with that one's; every other admitted one gets 404, every refused one 429 |
| `Gateway.HeadersExactly` | internal/gateway/handler.go:231-234 | those answers carry the burst as limit, the whole tokens left as remainder, the time to full and the quota presented |
| `Gateway.RemainingHeaderExact` | internal/gateway/handler.go:232 | of the calls on the bucket that follow at the same instant, exactly as many are admitted as the header says remain |
| `Gateway.ResetHeaderExact` | internal/gateway/handler.go:233 | a bucket left alone is full from the time the header names on and not before |
| `Gateway.FailedExactly` | internal/gateway/handler.go:177-230 | without a usable script reply the answer is 401 for an invalid key, 503 for an unanswered lookup or a failed call, and with fail-open on the routing by path, without headers |
| `Gateway.ForwardedWasAdmitted` | internal/gateway/handler.go:203-247 | with fail-open off, whatever reaches an upstream was admitted by the bucket of its key and route |
| `Gateway.EndToEndQuota` | internal/gateway/handler.go:203-247 | requests of one key forwarded to one upstream in any window obey every quota that the quotas presented for it in the window do no harm, for any paths, replicas, other traffic, lost replies and repeated tries, whatever the bucket held before |
| `Gateway.RetryAfterLongEnough` | internal/gateway/handler.go:235-241 | the delay-seconds of section 10.2.3 of RFC 9110 are never shorter than the true delay |
| `Gateway.RetryAfterIsOne` | internal/gateway/handler.go:235-243 | every 429 that the handler sends, whatever the traffic, clock and quotas, carries a Retry-After of exactly one second, and the script's delay is never longer |
| `EndToEnd.StoredQuotaHolds` | internal/store/postgres.go:107-144 | with requests, administration and expiry interleaved and a lookup that may precede its script run, if a key's quota does not change from step w on, every window whose requests were looked up since w obeys it, whatever came before |
| `EndToEnd.PresentedQuotaHolds` | internal/gateway/handler.go:184-220 | without any condition on when requests were looked up, a window obeys every quota that the answers of their lookups do no harm |
| `StaleLookup.StaleLookupBreaksQuota` | internal/gateway/handler.go:184-220 | a concrete history in which a quota has stopped changing and yet two requests pass where it allows one, because one was looked up before the change |
| `EndToEnd.QuotaStands` | internal/store/postgres.go:146-233 | an unambiguous quota does not change as long as no statement sets an override of its client or redefines its plan; keys may be created, revoked and ensured |
| `EndToEnd.ApiGateway.Authenticate` | internal/auth/auth.go:50-59 | a blank key is invalid without a lookup, a missing store or failing database makes authentication unavailable, otherwise the key is authenticated exactly when the stored rows make it usable and invalid otherwise |
| `EndToEnd.ApiGateway.ServeHttp` | internal/gateway/handler.go:177-247 | one request from key to response: the tables at its lookup decide who calls; then, after anything others do to tables and Redis, the script runs and the response follows from what it finds |
| `Loadgen.NowMs` | internal/ratelimit/redis.go:46-47 | the script's clock is the floor of the Redis time to milliseconds |
| `Loadgen.PassesAtModestRates` | cmd/loadgen/main.go:213-216 | up to 1001 per second the check passes on every run whose Redis readings lie in the measured duration, although both stamps are floored |
| `Loadgen.TwoBurstsAdmitted` | cmd/loadgen/main.go:130-149 | a correct run in which two full bursts are admitted within 999.001 ms |
| `Loadgen.CheckSoundExactly` | cmd/loadgen/main.go:213-216 | for every rate, the check accepts every correct run at every burst if and only if the rate is at most 1001 per second |
| `UsageStore.Postgres.ValidateAll` | internal/store/usage.go:23-26 | the loop reports exactly whether every event of the batch is valid |
| `UsageStore.Postgres.InsertRows` | internal/store/usage.go:45-57 | the conflict-guarded insert and the rows it returns, duplicates inside the batch included |
| `UsageStore.Postgres.GroupRows` | internal/store/usage.go:62-66 | the group-by over the returned rows |
| `UsageStore.Postgres.UpsertGroups` | internal/store/usage.go:58-72 | adds each group to the stored aggregate of its key, in any order |
| `UsageStore.Postgres.PersistUsage` | internal/store/usage.go:15-78 | the whole new tables and the reported result, for empty, invalid, failed, hidden-commit and confirmed calls |
| `UsageStore.Postgres.PersistUsageDeadLetters` | internal/store/usage.go:80-109 | the whole new tables and the reported result of the dead-letter upsert |
| `UsageStore.PersistTakesEffect` | internal/store/usage.go:15-78 | a batch is stored exactly when every event is valid and the statement commits, the first of equal ids winning and stored rows untouched; success is reported exactly when it is stored and confirmed, or empty |
| `UsageStore.DeadLettersTakeEffect` | internal/store/usage.go:80-109 | the same for dead letters: each event gets its letter exactly when ids are distinct and the statement commits, and nothing else changes |
| `UsageStore.ValidExactly` | internal/usage/event.go:27-50 | validation accepts exactly the events that meet the table's CHECK constraints, have an occurrence time, and keep an id, key, client and verb after trimming white space |
| `UsageStore.BlankIsTrimmedAway` | internal/usage/event.go:29-37 | a field counts as missing exactly when nothing is left of it after trimming white space at both ends |
| `UsageStore.SpacesExactly` | internal/usage/event.go:29-37 | white space is exactly the listed code points |
| `UsageStore.RecomputeInsert` | internal/store/usage.go:62-72 | one new row changes the recomputed aggregates in exactly one group, by exactly its own figures |
| `UsageStore.UpsertGroupsIsBumpAll` | internal/store/usage.go:58-72 | grouping first and adding the groups equals adding the rows one by one |
| `UsageStore.ApplyKeepsConsistent` | internal/store/usage.go:40-73 | each store call, whatever its fate, keeps the hourly table equal to the group-by over the event table |
| `UsageStore.ViewEqualsRecomputation` | internal/store/usage.go:40-73 | the hourly table equals recomputation after every sequence of calls, with overlaps, repeats, retries and hidden commits |
| `UsageStore.HourlyMeans` | internal/store/usage.go:58-66 | after every sequence of calls there is a row for an hour, client, route and status exactly when a stored event falls into it, and its figures are the number of those events, the sum of their durations, the sum of their bytes, and how many have status 429 |
| `UsageStore.RowsAreApplied` | internal/store/usage.go:45-57 | an id has a row if and only if a committed call carried it, and the row is one of the carried events |
| `UsageStore.EventsTableIsApplied` | internal/store/usage.go:45-57 | if equal ids carry equal events, the table holds exactly the applied events |
| `UsageStore.Convergence` | internal/store/usage.go:45-72 | both tables depend only on the set of events applied, not on batching, order, repetition or writer |
| `UsageStore.DeadRowsExact` | internal/store/usage.go:96-104 | each event of a batch gets one dead letter with its payload, error and attempt count, and no other row changes |
| `PipelineProofs.StepInv` | internal/usage/pipeline.go:91-207 | every step of every thread keeps the invariant of locks, sizes, order, counters, store calls and tables |
| `PipelineTheorems.ShutdownSafe` | internal/usage/pipeline.go:98-134 | in every reachable state no send or close has hit the closed channel, cancellation comes after closing, the drop count is exact, queue and batch are within bounds |
| `PipelineTheorems.NothingAdmittedAfterClose` | internal/usage/pipeline.go:98-103 | once the closed flag is up, no continuation admits anything |
| `PipelineTheorems.GaugeStaysZero` | internal/usage/pipeline.go:126-133 | once any Close has returned, the worker has ended and the depth gauge is zero in every continuation |
| `PipelineTheorems.Conservation` | internal/usage/pipeline.go:91-207 | in every reachable state each admitted event is pending, persisted, dead-lettered or dropped, each offer is admitted, refused or undecided, and the counters say how many |
| `PipelineTheorems.OrderPreserved` | internal/usage/pipeline.go:140-177 | settled batches, the current batch and the queue, end to end, are the admission sequence, and every attempt at a flush carries the same 1 to BatchSize events |
| `PipelineTheorems.CountedIsStored` | internal/usage/pipeline.go:180-207 | in every reachable state, counted-persisted events have rows, counted-dead-lettered events have dead letters, and no row is aggregated twice |
| `PipelineTheorems.EveryEventAccounted` | internal/usage/pipeline.go:180-207 | when the worker has ended, each admitted event is stored and counted persisted, dead-lettered and counted so, or counted dropped, and the counters match |
| `PipelineTheorems.BoundedShutdown` | internal/usage/pipeline.go:152-207 | after closing with n events pending, q of them queued, every continuation completes at most q + 1 receives and n * (MaxAttempts + 1) store calls |
| `PipelineHistory.SendExactly` | internal/usage/pipeline.go:104-112 | in every reachable state a send is admitted exactly when the queue has room and refused and counted exactly when it is full |
| `PipelineHistory.EnqueueExactly` | internal/usage/pipeline.go:91-113 | from every reachable state an undisturbed Enqueue admits the event exactly when it is valid, the pipeline open and the queue not full, counts it, publishes the true length, and touches nothing else |
| `PipelineHistory.TimeoutExactly` | internal/usage/pipeline.go:126-133 | in every run a returned Close reports a timeout exactly when its deadline passed, and a passed deadline has cancelled the worker |
| `PipelineHistory.CancelledBecause` | internal/usage/pipeline.go:126-138 | the worker is cancelled only by a deadline that passed, or by itself when it ends |
| `PipelineHistory.OutcomesExplained` | internal/usage/pipeline.go:180-207 | in every run each outcome follows its calls: failed attempts and one confirmed one; or exactly MaxAttempts failed ones and one dead-letter call with that count; or fewer, all failed, when dropped on cancellation |
| `PipelineHistory.CountsExactly` | internal/usage/pipeline.go:184-192 | in every run retries are the failed attempts but the last of an exhausted batch, and batches the persisted ones |
| `PipelineHistory.HealthyStoreLosesNothing` | internal/usage/pipeline.go:136-207 | if the store confirms every batch and no deadline passes, nothing admitted is dropped or dead-lettered, and when the worker has ended every admitted event is persisted once and has its row |
| `PipelineWorker.RetryDelay` | internal/usage/pipeline.go:209-222 | the loop equals min(30 s, base * 2^(k-1)) for every base and attempt |
| `PipelineWorker.PipelineWorker.Append` | internal/usage/pipeline.go:167-169 | writing the next slot of the reused buffer appends the event and publishes the length read; only a full buffer starts a flush |
| `PipelineWorker.PipelineWorker.CallPersist` | internal/usage/pipeline.go:183-192 | one store call with the buffer's contents, whose outcome decides between settling, waiting and dead letters |
| `PipelineWorker.PipelineWorker.Wait` | internal/usage/pipeline.go:224-233 | after min(30 s, base * 2^(k-1)), resumes with the next attempt; drops the batch only if cancelled |
| `PipelineWorker.PipelineWorker.Attempts` | internal/usage/pipeline.go:182-197 | at most MaxAttempts store calls, all with the same events, ending in an outcome or in the dead letters |
| `PipelineWorker.PipelineWorker.Persist` | internal/usage/pipeline.go:180-207 | settles exactly the events it was given, once, with at most MaxAttempts + 1 store calls that all carry them |
| `PipelineWorker.PipelineWorker.CountDropped` | internal/usage/pipeline.go:154-158 | the count taken at cancellation still equals batch plus queue when it is published |
| `PipelineWorker.PipelineWorker.End` | internal/usage/pipeline.go:159-160 | after the last step the gauge is zero, the context cancelled and the end signalled |
| `PipelineWorker.PipelineWorker.RunLoop` | internal/usage/pipeline.go:136-178 | any number of turns of the loop, under any interference, is a legal run; on return every admitted event is settled, in order |
| `PipelineCalls.PipelineHandle.NewPipeline` | internal/usage/pipeline.go:53-86 | a pipeline is returned if and only if there is a store and the configuration is valid, and it starts empty |
| `PipelineCalls.PipelineHandle.Enqueue` | internal/usage/pipeline.go:91-113 | accepted events join the admission sequence; a refused one is counted, and was invalid, or met the closed flag, or some state of the call had a full queue; a caller waits only while a writer holds the lock or is queued for it |
| `PipelineCalls.PipelineHandle.SendAndLeave` | internal/usage/pipeline.go:104-112 | accepts exactly when the queue has room at the send, never on a closed channel, and otherwise counts a drop |
| `PipelineCalls.PipelineHandle.Close` | internal/usage/pipeline.go:118-134 | a Close that returns reports a timeout exactly when its deadline is in the trace, with admission closed, the worker ended and the gauge zero; otherwise it is genuinely blocked |
| `PipelineCalls.PipelineHandle.StopAdmission` | internal/usage/pipeline.go:119-124 | the one-time part, with other threads acting between its steps, leaves the flag up and the channel closed |
| `Migrations.VersionOfPath` | internal/store/postgres.go:78 | trimming directory and suffix recovers the version from the path |
| `Migrations.SortSorts` | internal/store/postgres.go:55 | sorting the file list keeps exactly its files and puts them in byte-wise order |
| `Migrations.StepInv` | internal/store/postgres.go:73-105 | every statement, commit, rollback or crash of any runner keeps the prefix invariant and the contents of the open transaction |
| `Migrations.AppliedIsPrefix` | internal/store/postgres.go:50-105 | under any interleaving, the scripts whose effects are committed are a prefix of the file list, each once, in order; the recorded versions are exactly theirs; all are applied once a runner finishes |
| `Migrations.AppliedInOrder` | internal/store/postgres.go:50-71 | whatever order the files were found in, committed scripts ascend by path, every committed one precedes every missing one, and a finished runner leaves exactly the embedded files committed |
| `Migrations.OnlyGrows` | internal/store/postgres.go:88-94 | nothing applied is undone, and once all is applied no continuation changes the schema |
| `Migrations.CanFinish` | internal/store/postgres.go:65-105 | whatever happened before, once the lock is free a runner that starts and is left alone applies every missing file, skips the others and finishes |
| `Migrations.Migrator.ApplyMigration` | internal/store/postgres.go:73-105 | one file in one transaction, whose script and version row are published together or not at all; succeeds only when both are committed |
| `Migrations.Migrator.Migrate` | internal/store/postgres.go:50-71 | success means every file is applied, whatever other runners did, and a rerun changes nothing |
| `PolicyLookup.LikeIsPrefix` | internal/store/postgres.go:122 | for wildcard-free prefixes the LIKE test is the prefix test |
| `PolicyLookup.LikeIsFits` | internal/store/postgres.go:122 | for prefixes without % and backslash the LIKE test is the position-by-position test up to _ |
| `PolicyLookup.LikePercent` | internal/store/postgres.go:122 | a percent sign in a stored prefix matches any stretch of the route |
| `PolicyLookup.LikeEscape` | internal/store/postgres.go:122 | a backslash in a stored prefix makes the next character stand for itself |
| `PolicyLookup.LongestUnique` | internal/store/postgres.go:119-125 | the longest matching override is unique for wildcard-free prefixes |
| `PolicyLookup.LookupDeterministic` | internal/store/postgres.go:107-144 | for wildcard-free prefixes the answer does not depend on row order |
| `PolicyLookup.LookupTotal` | internal/store/postgres.go:107-144 | the query always has an answer, with rate and burst from one row |
| `PolicyLookup.WildcardsAreAmbiguous` | internal/store/postgres.go:122 | a concrete administration history after which the query may answer either of two quotas on /api/users |
| `PolicyLookup.LookupUniqueExactly` | internal/store/postgres.go:119-125 | for a client whose prefixes hold no % and no backslash, the answer is unique on every route if and only if no two overrides of one length that agree up to _ grant different quotas |
| `PolicyLookup.LookupUniqueByLength` | internal/store/postgres.go:119-125 | with any patterns, the answer is unique if overrides of one length grant one quota |
| `PolicyLookup.PolicyStore.LookupActiveKey` | internal/store/postgres.go:107-144 | scanning the rows in any order yields an answer of the query |
| `PolicyLookup.HistorySound` | internal/store/migrations/001_api_keys.sql:1-42 | after every history of administration references resolve, quotas are positive and storable, and prefixes and ids name one key |
| `PolicyLookup.AnsweredPolicyUsable` | internal/ratelimit/redis.go:94-96 | every quota the lookup answers is positive, so the limiter's check never fails on it, and within the range of exact arithmetic |
| `PolicyLookup.RevokedStaysRejected` | internal/store/postgres.go:224-233 | a revoked key is rejected after every continuation that does not ensure its digest again |
| `PolicyLookup.EnsureReinstates` | internal/store/postgres.go:201-210 | after ensuring a revoked digest, whoever is named as owner, the next lookup answers the same key of its old owner if that client is active, and no other key is answered differently |
| `PolicyLookup.PolicyStore.EnsureAPIKey` | internal/store/postgres.go:201-210 | the new key table and the id of the row |
| `PolicyLookup.PolicyStore.SetQuota` | internal/store/postgres.go:212-222 | refuses exactly the rows that would break the table constraints; once accepted, every usable key of the client is granted exactly this quota wherever the override is the longest |
| `PolicyLookup.QuotaTakesEffect` | internal/store/postgres.go:212-222 | after any history, the next lookup grants exactly the new rate and burst on routes that extend the prefix and no longer override; routes it does not match and other clients are answered as before; forbidden rows change nothing |
| `PolicyLookup.PlanTakesEffect` | internal/store/postgres.go:146-159 | after any history, the next lookup of a key on the plan answers exactly the new rate and burst on routes without override; overridden routes and other plans are answered as before; forbidden plans change nothing |
| `PolicyLookup.KeyTakesEffect` | internal/store/postgres.go:191-210 | the next lookup answers a new key as that key of its client, with the client's name and plan, if the client is active; other keys are answered as before; forbidden rows change nothing |
| `PolicyLookup.ClientTakesEffect` | internal/store/postgres.go:161-172 | the first key of a new client is answered with that client's name and the plan it was created on |
| `PolicyLookup.ClientRefused` | internal/store/postgres.go:168-170 | a client on a plan that does not exist is not created |
| `PolicyLookup.RevokeLeavesOthers` | internal/store/postgres.go:224-228 | revoking changes the answer for no key with another prefix |
| `PolicyLookup.PolicyStore.Revoke` | internal/store/postgres.go:224-233 | marks the at most one active key with the prefix and reports how many |

## Left out

- HMAC and SHA-256: digests are parameters. `Gateway.EndToEndQuota` assumes that no other client and route in the traffic collides with the one it speaks about.
- StaleTheory.HarmlessExactly: exact for tokens held plus admitted; for admissions alone a faster refill can stay invisible when it is lost to a small capacity, so there the condition is sufficient only.
- PolicyLookup.LookupUniqueByLength: one direction only; two patterns with % can match a common route on which a longer override always wins, which the condition does not see.
- Event id generation: `PipelineTheorems.EveryEventAccounted` assumes that an id stands for one event; `PipelineTheorems.CountedIsStored` does not.
- Redis data loss, eviction before expiry and manual flushes: a bucket disappears only at or after its expiry.
- Quota changes inside one bucket's lifetime: the exact admission, optimality and expiry laws and the removal of denied calls hold the quota of a bucket fixed over the whole run; the window law, the retry and full times, the remainder, the range of tokens and the Retry-After value do not.
- WindowTheory.AnyClockBound: covers windows in which the bucket is not forgotten, because a clock that steps back leaves expiry without a fixed meaning.
- Limiter.RedisLimiter.Allow: gives the reset as a duration; the absolute time adds the gateway's own clock. A script reply that does not have four elements cannot occur in the model.
- Gateway.Handler.ServeApi: takes the result of authentication as part of the request, which `EndToEnd.ApiGateway.ServeHttp` supplies from the stored rows; header text, request ids, panics, instrumentation and the proxies themselves are not modelled.
- Loadgen.CheckSoundExactly: exact over all bursts of a rate, not burst by burst; exact rationals instead of floating point; the other checks of `verify` and the job channel of `run` only collect and count.
- UsageStore.Postgres.PersistUsage: the SQL text and placeholder numbering are not modelled, `date_trunc` is one fixed UTC truncation, BIGINT overflow of sums and malformed UUIDs count as failed calls.
- PipelineWorker.PipelineWorker.RunLoop: covers every finite number of turns; timers and the choice among ready cases are unconstrained, so no fairness and no real time.
- PipelineWorker.PipelineWorker.Persist: the store is the table value that the store module's methods are proved to compute, not a call into that object; the error text handed to the dead letters is unconstrained.
- PipelineCalls.PipelineHandle.NewPipeline: a nil observer or logger, which the source replaces by a default, is not modelled.
- PipelineCalls.PipelineHandle.Enqueue: arbitrarily long waits are covered by the interference before the lock; a thread that would wait forever returns as still waiting.
- PipelineCalls.PipelineHandle.Close: arbitrarily long waits are covered in the same way; a caller that would block forever returns as still waiting.
- Migrations.Migrator.ApplyMigration: waiting for a lock that is still held ends as a failed attempt, which the source's context deadline also produces; the migration's SQL is one atomic effect, and all runners embed the same files.
- Plans, clients and plain key creation are steps of the administration history only; `EnsureClient`, client deactivation and deletion are not modelled.
- Metrics text, benchmark reports, configuration, command-line tools, mock services and deployment files.
