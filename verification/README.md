# Skill Bridge: a Dafny model of the platform's protocols

Skill Bridge is a set of services (users, skills, jobs, auth, notifications, an API gateway and a
web frontend) tied together by Kafka topics, a RabbitMQ queue, a Redis cache and Postgres tables.
This project models the parts whose correctness depends on several of them at once and proves what
they promise, over every run. `dafny verify dfyconfig.toml` checks the whole project.

How the model is built:

- A protocol is a state machine: a `State` datatype, an `Action` per atomic step (one database
  statement or transaction, one cache or broker command, one passing of time) and a total function
  `Step`; a step that is not enabled changes nothing. A run is any sequence of actions, so a theorem
  about `Run(actions)` holds for every interleaving, crash, loss and failure the actions can express.
  Plain history fields (what was read when, which answers were given) are only ever recorded.
- Code that updates state in place is also a class with the same fields, whose methods are proved
  against functions and predicates. Where a machine has the same operation in steps, a lemma or the
  method's own contract ties one uninterrupted call to those steps (Pipeline, PipelineJobs,
  PipelineCreates, CacheCalls, EmailQueue, RateLimitKeys, JwksClient) or both use the same functions of the tables (Accounts and
  AuthServer). JobsServer is proved directly against its table and its cache.
- Clocks, random ids, the network and failures are parameters; JSON is a tree of values.

The modules, by component:

| files | component |
|---|---|
| `Prelude`, `Text`, `Order`, `Json` | shared vocabulary; trimming and `dedupeNonEmpty`; ORDER BY over ids; JSON documents as trees |
| `UserSkills`, `Snapshot`, `Matcher` | users-service's skills, jobs-service's projection of them, the matching worker |
| `Pipeline`, `PipelineJobs`, `PipelineMessages`, `PipelineCreates`, `PipelineOrder`, `PipelineReads`, `PipelineEndToEnd` | all of these together with both topics: what every match is worth, what a finished job leaves and whom it has told, both read against the CreateJob request, when the projection is current, and two runs from a claim to its messages |
| `JobStore`, `JobCodec`, `TtlCache`, `JobsServer`, `CacheAside`, `CacheAnswers`, `CacheCalls` | job tables and their two-query listings, cache documents, the cache, the jobs server, readers interleaving with writers, and each whole call |
| `RateLimit`, `RateLimitRequests`, `RateLimitKeys` | the gateway's fixed-window limiter: one key, what becomes of each request, all keys |
| `EmailNotification`, `EmailQueue` | the notifications.email queue, its consumer, dead letters and log |
| `Accounts`, `AccountRoles`, `AuthServer` | password registration and Google sign-in; the role a sign-in answers |
| `JwkCodec`, `JwksClient`, `JwksRotation` | the integers of RFC 7518; the key cache; how long a rotated-out key is answered |
| `Loader`, `RecentList` | batched resolution against the scan; the capped lists of the frontend |

## Where the code falls short of its comments

Each comes with the run that breaks the promise and with the exact condition under which it holds.

- `CreateSkill` says that no stale taxonomy is served after it returns (backend/internal/skills/server.go:97-101),
  and `CreateJob` says the like of job lists. A list call that reads before the insert and fills the cache after the
  delete breaks it: `CacheAnswers.StaleAfterCreateReturned`. `CacheAnswers.StaleExactlyWhenAFillOverlaps` says exactly when.
- jobs-service takes each skills event for the user's current list (backend/internal/users/server.go:146-150).
  `AddUserSkill` re-reads and publishes in two steps, so two overlapping calls can leave the older list last:
  `PipelineOrder.OverlappingCallsLoseASkill`. `PipelineReads.DrainedSnapshotIsTheTableExactly` reads the exact
  condition off the schedule: no write at or after the re-read behind the user's last event changes the table.
- Redelivery is taken to be safe because handlers are idempotent (backend/internal/platform/kafka/consumer.go:98-100).
  That holds for one consumer (`Snapshot.RedeliveryIsHarmless`). A member of the group that still handles a batch after
  a rebalance puts an older list back: `Snapshot.OverlappingMemberPutsOlderListBack`.
  `Snapshot.CurrentExactlyIfLastAppliedSaysTheLastEvent` and `PipelineReads.SnapshotIsTheTableExactly` give the exact
  conditions with overlapping members and failed replaces included.
- A rate-limit counter is meant to last one window (backend/internal/platform/cache/cache.go:229-232). It lasts one
  window and its EXPIRE's delay, for ever if that fails: `RateLimit.CounterLastsWindowAndDelay`. So it lasts one window
  exactly when the EXPIRE is applied at the instant of creation. `RateLimit.LateExpireOutlivesTheWindow` rejects a
  request any time after the creation; after `RateLimit.LostExpireBlocksTheKey` the key is rejected for ever.
- A Google sign-in is to carry the caller's real role (backend/internal/auth/oauth.go:266-269). For a known subject the
  role is looked up by the email Google reports now: a promoted account whose email changed signs in as a plain user
  (`AccountRoles.PromotedSignsInAsUser`), or with another account's role if that account has the new email
  (`AccountRoles.SignsInWithAnothersRole`). `AccountRoles.RoleIsTheAccountsExactlyWhileEmailIs` says exactly when.
- A rotated key is to be picked up once the refresh interval has elapsed
  (backend/internal/platform/jwks/client.go:15-19). The interval alone does not bound it, because a document counts as
  young from its installation: the time its fetch took comes on top. `JwksRotation.RotatedKeyIsAnsweredExactly` and
  `JwksRotation.LateAnswersNeedASlowFetch` say exactly when a rotated-out key is still answered;
  `JwksRotation.RotationTakesEffectWithinIntervalAndFetch` bounds it by the interval and the slowest fetch, and
  `JwksRotation.IntervalAndFetchIsReached` is the run, for every interval and fetch time, in which that bound is met.
- The notification history is to lose nothing that arrives around it (frontend/src/features/notifications/useNotifications.ts:36-44).
  It replaces the list, so a push from before it is gone if the history was read without it:
  `RecentList.PushBeforeHistoryIsLost`, and exactly when, `RecentList.ShownExactlyIfInHistoryOrPushedSince`.

## Model

| member | source | states |
|---|---|---|
| Text.DedupeNonEmpty | backend/internal/jobs/server.go:357-372 | the loop over the request with its `seen` set yields each non-blank trimmed id at its first occurrence |
| Text.DedupedKeepsEachOnce | backend/internal/jobs/server.go:355-372 | no repeats, no blanks, and exactly the non-blank trimmed ids of the request |
| Text.DedupedIsKept | backend/internal/jobs/server.go:355-372 | said of the request alone: its non-blank trimmed ids, each once, in the order in which it first names them |
| Text.DedupedFixesCleanLists | backend/internal/skills/server.go:233-248 | the lists left unchanged, order included, are exactly those without repeats, blanks and outer white space |
| Text.TrimSpaceCuts | backend/internal/jobs/server.go:361 | trimming is one slice: white space before and after it, none at its ends |
| UserSkills.UsersServer.AddUserSkill | backend/internal/users/server.go:155-186 | which requests are refused; the one row written; the one event appended carries the user's whole list after the write; a failed re-read or publish does not fail the call |
| UserSkills.UsersServer.QueryUserSkillRows | backend/internal/users/server.go:58-67 | the list holds an entry exactly if the user has that row, each once, in the order of their skills |
| Order.Ordered | backend/internal/users/server.go:63 | ORDER BY skill_id: the ids of a set, each once, ascending |
| Order.AscendingIsUnique | backend/internal/jobs/server.go:338 | an ordered list is determined by its elements |
| Order.LessIsLexicographic | backend/internal/jobs/server.go:338 | that order is by the first character that differs, a proper beginning before what it begins |
| UserSkills.UpsertedTouchesOnePair | backend/internal/users/server.go:69-77 | the upsert changes one user's one skill, on the (user_id, skill_id) key |
| Snapshot.SnapshotStore.ReplaceUserSkills | backend/internal/jobs/snapshot.go:58-68 | all or nothing: the user's rows become exactly the event's list, or, on a fault or a repeated skill, nothing changes |
| Snapshot.StagedIsReplaced | backend/internal/jobs/snapshot.go:58-68 | delete, then insert row by row under the primary key, commits exactly the replacement when no skill repeats, and otherwise clashes |
| Snapshot.SnapshotStore.HandleUserSkillsUpdated | backend/internal/jobs/snapshot.go:76-100 | undecodable or userless events are skipped; another leaves its user exactly its list, unless it fails or repeats a skill, and every other user what they had; an error is reported exactly if the replace failed |
| Snapshot.ReplacedIsWholeList | backend/internal/jobs/snapshot.go:58-68 | after a replace the user's rows are the event's list as a map, and no other user's change |
| Snapshot.Consumer.EachRecord | backend/internal/platform/kafka/consumer.go:113-138 | records are dispatched in order, and a failing handler does not stop the next record |
| Snapshot.ExactlyOnceIsLastEvent | backend/internal/jobs/snapshot.go:70-100 | reading each record once leaves every user the rows of the user's last event |
| Snapshot.RedeliveryIsHarmless | backend/internal/platform/kafka/consumer.go:96-138 | however often the consumer is set back, with no failing replace and no overlapping member, once at its high-water mark the projection is the exactly-once fold of the log |
| Snapshot.SetBackShowsOlderListForAWhile | backend/internal/platform/kafka/consumer.go:96-138 | the run in which a consumer set back shows an older list until it has caught up again |
| Snapshot.NeverAMix | backend/internal/jobs/snapshot.go:58-68 | in every run, behind, after failed replaces or with overlapping members, each user's rows are one whole event of that user or none |
| Snapshot.RowsAreTheLastApplied | backend/internal/platform/kafka/consumer.go:113-138 | in every run a user's rows are those of the user's record whose replace succeeded last |
| Snapshot.CurrentExactlyIfLastAppliedSaysTheLastEvent | backend/internal/platform/kafka/consumer.go:96-138 | in every run a user's rows are what the whole log says if and only if the record applied last says what the user's last event does |
| Snapshot.OverlappingMemberPutsOlderListBack | backend/internal/platform/kafka/consumer.go:113-138 | the run in which a member that still holds a batch puts an older list back, every replace succeeding |
| Matcher.MatchStore.CandidatesForSkills | backend/internal/jobs/matcher.go:68-92 | the grouped count is, per user, the number of required skills in the snapshot, for exactly the users with any |
| Matcher.CandidatesAreTheOverlapping | backend/internal/jobs/matcher.go:68-92 | a user is a candidate exactly if the overlap is not empty; the threshold never drops one |
| Matcher.SharedIsIntersection | backend/internal/jobs/matcher.go:62-67 | the count is the size of (user's snapshot skills) intersected with (required skills) |
| Matcher.ScoreMeansCover | backend/internal/jobs/matcher.go:146-153 | every score lies in (0,1] and is 1 exactly when the snapshot covers all required skills and the list repeats none |
| Matcher.HandledByRow | backend/internal/jobs/matcher.go:124-199 | after a job.posted event each overlapping user's row is overlap / length and every other row is as before |
| Matcher.MatchStore.UpsertMatch | backend/internal/jobs/matcher.go:94-100 | one row per (job, user), overwritten by later scores |
| Matcher.MatchStore.HandleJobPosted | backend/internal/jobs/matcher.go:124-199 | in any candidate order and with any upserts failing: the final rows, whom it notifies (once each), and that every message carries a stored row's score; nothing at all for a record that does not decode, names no job or requires nothing |
| Matcher.RedeliveryIsIdempotent | backend/internal/jobs/matcher.go:94-100 | handling a record any number of times against an unchanged snapshot leaves what handling it once does |
| Matcher.MessagesCarryStoredScores | backend/internal/jobs/matcher.go:154-193 | the messages sent are one per notified user, with the scores then in the table |
| Matcher.AnnouncedEach | backend/internal/jobs/matcher.go:154-193 | such messages are one per notified user, in order, each naming the user's row of that job and saying its score |
| Pipeline.EveryMatchIsEarned | backend/internal/jobs/matcher.go:124-193 | in every run of the whole pipeline each match row has a committed job, a positive score, and score times the number of the job's skills is at most those of them the user has claimed in users-service (PipelineCreates says which skills a job has); every message sent, of either kind, names a row, also when the worker stopped between upsert and messages |
| Pipeline.StepKeepsEarned | backend/internal/users/server.go:155-186 | each atomic step of the four components keeps the invariant behind it |
| PipelineJobs.PolledJobMatchesExactly | backend/internal/jobs/matcher.go:124-193 | a polled job makes a candidate of exactly the overlapping users; each is stored and told exactly overlap / length, the messages after the row |
| PipelineJobs.FinishedJobIsHandled | backend/internal/jobs/matcher.go:124-199 | over every run, a job taken up and finished leaves the rows the handler specifies for the snapshot of the moment of its poll, whatever happens meanwhile; the users left out are those whose upsert failed |
| PipelineJobs.FinishedJobMatchesExactly | backend/internal/jobs/matcher.go:124-199 | so every user overlapping at the poll whose upsert did not fail has a row with exactly overlap / length, and others keep theirs |
| PipelineJobs.MessagesSayWhatTheRowSays | backend/internal/jobs/matcher.go:154-193 | in every run a message of either kind is sent after its row's upsert and says the score that row then has |
| PipelineMessages.FinishedJobTellsItsMatches | backend/internal/jobs/matcher.go:144-193 | over every run, between the poll and the end of a finished job none of whose publishes is lost, each user it matched is told exactly once by each kind of message, with its overlap / length, and nobody else is told anything |
| PipelineMessages.WhoIsTold | backend/internal/jobs/matcher.go:68-92 | those are exactly the users with a required skill in the snapshot at the poll, less those whose upsert failed |
| PipelineCreates.UninterruptedCreate | backend/internal/jobs/server.go:174-200 | a create commits its request's list, appends exactly one job.posted record with it, and changes nothing else |
| PipelineCreates.UnpostedCreate | backend/internal/jobs/server.go:176-200 | the same with its publish lost, and nothing at all for a taken id |
| PipelineCreates.EveryJobIsAsRequested | backend/internal/jobs/server.go:174-191 | in every run a committed job was inserted by exactly one step and holds that step's request: trimmed, blanks and repeats out, in order of first occurrence |
| PipelineCreates.EveryCreateIsKept | backend/internal/jobs/server.go:130-147 | and every create that finds its id free is committed so, for good |
| PipelineCreates.EveryPostIsAsRequested | backend/internal/jobs/server.go:188-200 | every job.posted record is its job's only one and carries what that job's request comes to |
| PipelineCreates.EveryJobIsAccountedFor | backend/internal/jobs/server.go:176-200 | in every run a committed job is posted, still to be posted, or its publish was lost |
| PipelineCreates.EveryMatchIsEarnedOnItsRequest | backend/internal/jobs/matcher.go:124-193 | each match row belongs to a create of the run, and its score times the number of skills that request wants is at most those of them the user has claimed |
| PipelineCreates.FinishedJobMatchesItsRequest | backend/internal/jobs/matcher.go:124-199 | a finished job was created by a step of the run before its poll, and every user without a failed upsert has exactly (overlap with what that request wants) / (what it wants), or keeps the old row |
| PipelineCreates.EveryRecordIsTakenUp | backend/internal/platform/kafka/consumer.go:113-138 | in every run each record before the worker's position was taken up by a step of the run: none is skipped |
| PipelineCreates.EveryPostedJobIsMatched | backend/internal/jobs/matcher.go:124-199 | once the worker is idle past a well-formed record it has taken it up and finished it, so that every user without a failed upsert is matched on what the job's request wants |
| PipelineEndToEnd.ClaimedSkillIsMatchedAndTold | backend/internal/jobs/matcher.go:146-193 | for any user, skill and job, the run from the claim over its event and the job to a match of 1 and one message of each kind |
| PipelineEndToEnd.LostMessagesAreNotSentAgain | backend/internal/jobs/matcher.go:158-193 | the run in which the row stays and both its messages are lost for good |
| PipelineEndToEnd.SetBackWorkerTells | backend/internal/platform/kafka/consumer.go:96-100 | a worker that stopped between the row and its messages and reads the record again sends them |
| Pipeline.UninterruptedCall | backend/internal/users/server.go:165-186 | an AddUserSkill call's three steps add up to the write and one event carrying the resulting list |
| Pipeline.CallWithoutEvent | backend/internal/users/server.go:165-200 | a call given up after its write leaves the write and no event |
| Pipeline.ListedCallWithoutEvent | backend/internal/users/server.go:165-200 | so does one given up after its re-read, or whose publish is lost |
| Pipeline.GarbageIsSkipped | backend/internal/jobs/matcher.go:126-130 | a record of either topic that does not decode is passed over and changes no row |
| PipelineOrder.DrainedSnapshotIsTheTable | backend/internal/users/server.go:165-209 | if a user's calls do not overlap, none is lost and no replace of theirs fails, the drained snapshot equals the user's table as a map skill to proficiency, whatever other users do |
| PipelineOrder.OverlappingCallsLoseASkill | backend/internal/users/server.go:166-182 | for any user and two skills, a run without any failure whose drained snapshot lacks a claimed skill |
| PipelineReads.EventsAreRereads | backend/internal/users/server.go:165-209 | in every run each event carries exactly the user's table at the position of a re-read of that user's call |
| PipelineReads.DrainedSnapshotIsTheLastRead | backend/internal/jobs/snapshot.go:58-100 | with overlaps and losses allowed, the drained snapshot is the user's table, as a map, as of the re-read behind the user's last event |
| PipelineReads.LastReadExists | backend/internal/users/server.go:165-186 | that re-read is a step of the run, for every run and user |
| PipelineReads.DrainedSnapshotIsTheTableExactly | backend/internal/users/server.go:166-182 | the drained snapshot equals the table as a map skill to proficiency if and only if no write at or after that re-read leaves a skill other than the re-read found it |
| PipelineReads.DrainedSnapshotHasEverySkillExactly | backend/internal/users/server.go:166-182 | no claimed skill is missing if and only if no write at or after that re-read claims a new one |
| PipelineReads.SnapshotIsTheAppliedRead | backend/internal/jobs/snapshot.go:58-100 | in every run, drained or not, with failed replaces and overlapping members, the snapshot is the user's table as of the re-read behind the record applied last |
| PipelineReads.AppliedReadExists | backend/internal/users/server.go:165-186 | that re-read is a step of the run |
| PipelineReads.SnapshotIsTheTableExactly | backend/internal/users/server.go:166-182 | in every run the snapshot equals the table as a map if and only if no write at or after that re-read changes what it found |
| JobStore.InsertsKeepOldJobs | backend/internal/jobs/server.go:130-147 | no sequence of CreateJob transactions changes an existing job or its required skills |
| JobStore.InsertedStoresTheJob | backend/internal/jobs/server.go:134-146 | a transaction whose id is free and whose skills do not repeat adds its job with exactly its skills and changes no other; any other changes nothing |
| JobStore.CommittedJobsStay | backend/internal/jobs/server.go:134-146 | among any transactions, one that takes effect leaves its job with exactly its own skills, whatever comes later |
| JobStore.NewJobsAreCommitted | backend/internal/jobs/server.go:134-146 | and every job that was not there before is one such transaction's |
| JobStore.CreatedJobsAreListed | backend/internal/jobs/server.go:93-147 | so a listing after any creates shows each created job with exactly the skills it was created with, in order |
| JobStore.RequiredSkillsByJobID | backend/internal/jobs/server.go:331-345 | the grouping loop collects each job's skills in row order |
| JobStore.QueryAllJobs | backend/internal/jobs/server.go:93-110 | the two-query listing is one atomic read at the first query, whatever commits before the second |
| JobStore.QueryJob | backend/internal/jobs/server.go:112-128 | the same of the two-query read of one job |
| JobStore.AtomicListingIsUnique | backend/internal/jobs/server.go:337-343 | for a given first query there is only one such listing, the order of each job's skills included |
| JobStore.LaterRowsAreTheJobs | backend/internal/jobs/server.go:331-345 | rows read after any further inserts, grouped by job, are the required skills of the first query's instant |
| JobCodec.CachedJobsReadBack | backend/internal/jobs/server.go:401-438 | single jobs and lists read back unchanged, a nil skill list included, and neither kind decodes as the other |
| JobCodec.CachedSkillsReadBack | backend/internal/skills/server.go:260-279 | the cached taxonomy reads back unchanged |
| TtlCache.Client.Get | backend/internal/platform/cache/cache.go:186-199 | a value is found exactly while it is stored and not expired; a fault or a disabled client is a miss |
| TtlCache.Client.Set | backend/internal/platform/cache/cache.go:205-212 | stores one key with its expiry, or on a fault changes nothing |
| TtlCache.Client.Del | backend/internal/platform/cache/cache.go:219-226 | removes exactly the given keys, or on a fault nothing |
| TtlCache.LivesUntilDeadline | backend/internal/platform/cache/cache.go:201-226 | a stored value answers until its deadline or deletion, not after, and touches no other key |
| JobsServer.JobKeyIsInjective | backend/internal/jobs/server.go:29-34 | the only clash among the server's cache keys is the id "all" with the list |
| JobsServer.Server.CreateJob | backend/internal/jobs/server.go:161-203 | the row inserted, which reads with its skills in order, the error cases, the event published or lost, and that a successful delete leaves no stale list behind |
| JobsServer.Server.GetJob | backend/internal/jobs/server.go:289-327 | whatever the cache holds, a found job is the table's and "not found" is said only of an id the table lacks; a hit answers the entry's own value; exactly when the cache is filled, with what and for how long |
| JobsServer.Server.ListJobs | backend/internal/jobs/server.go:247-283 | the list is an initial part of the table, all of it unless a delete failed; a hit answers the entry's own value; exactly when the cache is filled, with what and for how long |
| JobsServer.Server.HandleSkillUpdated | backend/internal/jobs/cache_invalidation.go:29-43 | evicts the list and nothing else, unless the event does not decode |
| CacheAnswers.ListingsAreExact | backend/internal/jobs/server.go:247-283 | under every interleaving with Set and Del failing, a list is exactly the database at an instant inside the call that produced it; from the cache, its SET is less than the TTL old |
| CacheAnswers.StaleExactlyWhenAFillOverlaps | backend/internal/jobs/server.go:184-186 | a call started after a commit misses the row exactly if it answers from an entry read before the commit; after a successful delete, exactly if that fill spanned the whole write |
| CacheAnswers.CurrentUnlessSpanned | backend/internal/skills/server.go:133-135 | if no call that went to the database spanned the write, every list call started after the create returned has the row |
| CacheAnswers.AnswersAreCurrentWithoutOverlap | backend/internal/skills/server.go:154-190 | if that holds of all earlier creates, the answer holds the whole table as it was when the call started |
| CacheAnswers.StaleAfterCreateReturned | backend/internal/skills/server.go:97-135 | the run in which a list is served without a row whose create had returned, its delete successful |
| CacheAnswers.JobAnswersAreExact | backend/internal/jobs/server.go:289-327 | GetJob answers exactly what the database says of the id at an instant inside the producing call; a hit is also what it says now; absence is never cached; the shared key of the id "all" does no harm |
| CacheAnswers.CommittedJobsAreFound | backend/internal/jobs/server.go:289-327 | a call started after the commit always finds the job, unchanged |
| CacheAnswers.SeenIsDatabaseAt | backend/internal/jobs/server.go:130-147 | the rows a read recorded are the table at that place of the run |
| CacheAnswers.RunIsTimed | backend/internal/platform/cache/cache.go:201-212 | every entry carries the time of its SET and every hit the time of its GET |
| CacheAside.StepKeepsSound | backend/internal/jobs/server.go:247-327 | each step of readers, writers, evictions and the clock keeps the cache truthful |
| CacheCalls.CachedCall | backend/internal/jobs/server.go:247-265 | a call that finds an unexpired value of its kind answers it and changes nothing |
| CacheCalls.FillingCall | backend/internal/jobs/server.go:247-327 | a call that misses, or whose GET fails, answers what the table holds and leaves it as its key's entry, dated now, unless the SET fails; it changes nothing else |
| CacheCalls.AbsentCall | backend/internal/jobs/server.go:289-327 | GetJob of an id the table lacks answers "not found" and caches nothing |
| CacheCalls.FailedCall | backend/internal/jobs/server.go:260-267 | a call whose database read fails is over without an answer and leaves no trace |
| CacheCalls.EntryLivesForTtl | backend/internal/platform/cache/cache.go:201-212 | an entry filled now can be hit exactly until the TTL has passed |
| CacheCalls.NothingOutOfTurn | backend/internal/jobs/server.go:176-186 | a call looks up, reads and stores once each, in this order, and a create deletes once |
| CacheCalls.CreateCall | backend/internal/jobs/server.go:176-186 | a create adds its row at the end and takes away the list's entry, and only that, unless the delete fails |
| CacheCalls.OtherWrites | backend/internal/jobs/cache_invalidation.go:29-43 | an insert of a taken id does nothing; skill.updated takes away the list's entry |
| RateLimit.Effective | backend/internal/gateway/ratelimit/ratelimit.go:42-62 | the limit and window in force: the configured ones when positive, else 100 and a minute |
| RateLimit.AtMostLimitPerCounter | backend/internal/gateway/ratelimit/ratelimit.go:66-86 | whatever the replicas' commands interleave to, a counter lifetime admits at most Limit |
| RateLimit.FirstLimitAreAdmitted | backend/internal/gateway/ratelimit/ratelimit.go:66-86 | a counter admits exactly its first Limit requests, apart from those that failed open (RateLimitRequests says which) |
| RateLimitRequests.EveryRequestIsDecided | backend/internal/gateway/ratelimit/ratelimit.go:66-86 | each request of a run whose INCR took effect is decided once, at its own instant, on the counter it finds: it fails open if and only if its reply was lost, and is rejected if and only if its reply arrived and Limit requests had drawn from that counter before |
| RateLimitRequests.EveryDecisionIsARequests | backend/internal/gateway/ratelimit/ratelimit.go:66-86 | and every decision of a run is that of one of its requests |
| RateLimitRequests.EveryCounterIsOfTheRun | backend/internal/platform/cache/cache.go:235-251 | every counter was created by a request at its own instant; its EXPIRE is the first the run sends for it, and is lost exactly if that fails or the creator's reply was lost |
| RateLimit.AtMostTwiceLimitPerWindow | backend/internal/platform/cache/cache.go:235-251 | any half-open interval of one window's length admits at most 2 * Limit - 1 counted requests |
| RateLimit.TwiceLimitLessOneIsReached | backend/internal/platform/cache/cache.go:235-251 | for every limit and window a run admits that many |
| RateLimit.DeadlineIsFinal | backend/internal/platform/cache/cache.go:244-249 | a counter's deadline is set at most once, after its creation, and never moved |
| RateLimit.CounterIsGoneAfterWindow | backend/internal/platform/cache/cache.go:229-251 | a counter whose EXPIRE was applied at x serves no request from x + Window on; a request that finds no live counter is admitted |
| RateLimit.RejectionsEndWithinWindow | backend/internal/gateway/ratelimit/ratelimit.go:73-86 | a request rejected at t, its counter's EXPIRE applied by then, is followed from t + Window on only by requests that draw from a newer counter |
| RateLimit.CounterLastsWindowAndDelay | backend/internal/platform/cache/cache.go:235-251 | the next request draws from the last counter exactly until one window and its EXPIRE's delay after its creation, for ever while that EXPIRE has not been applied |
| RateLimit.LateExpireOutlivesTheWindow | backend/internal/platform/cache/cache.go:244-249 | for every limit, window and delay the run in which a request so long after the creation is rejected and the counter lasts a window more |
| RateLimit.ExhaustedKeysRecoverUnlessExpireIsLost | backend/internal/platform/cache/cache.go:244-249 | an exhausted key admits again in some continuation exactly if its counter's EXPIRE was not lost |
| RateLimit.LostExpireBlocksTheKey | backend/internal/platform/cache/cache.go:244-249 | for every limit and window, the run of one failed EXPIRE in which Limit requests are admitted and none ever again |
| RateLimit.ExpireKeepsSound | backend/internal/platform/cache/cache.go:244-249 | a late EXPIRE still lands on the counter of the request that sent it |
| RateLimitKeys.KeysNeverCoincide | backend/internal/gateway/ratelimit/ratelimit.go:99-104 | two callers share a key exactly if they are the same user or the same address |
| RateLimitKeys.KeysAreIndependent | backend/internal/gateway/ratelimit/ratelimit.go:63-86 | a run over all keys, seen from one key, is the run of that key's own requests |
| RateLimitKeys.UninterruptedRequestIsARun | backend/internal/platform/cache/cache.go:235-251 | INCR followed by its EXPIRE is two steps of such a run |
| RateLimitKeys.Limiter.Incr | backend/internal/platform/cache/cache.go:235-251 | the count is one more than the live counter's, or one; whether it is known; the key's new state; no other key changes |
| RateLimitKeys.Limiter.Allow | backend/internal/gateway/ratelimit/ratelimit.go:63-86 | a request goes through exactly if its counter had served fewer than Limit, or is not live, or the limiter could not be asked; asked, it records one decision and goes through exactly if that is not a rejection |
| EmailNotification.WellFormedExactly | backend/notification-service/src/rabbitmq/email-notification.ts:44-69 | a body is accepted exactly if it is a JSON object whose five fields are strings that are not blank |
| EmailNotification.FirstBadMeans | backend/notification-service/src/rabbitmq/email-notification.ts:58-66 | the field an error names is the first, in order, that fails |
| EmailNotification.ParseReports | backend/notification-service/src/rabbitmq/email-notification.ts:44-66 | for any body which error it is refused with: not JSON, not an object, or the first field in order that is absent, no string or blank |
| EmailNotification.ParseYieldsTheFields | backend/notification-service/src/rabbitmq/email-notification.ts:44-69 | an accepted body yields its five fields' own texts, whatever else it holds |
| EmailNotification.ProducedMessagesReadBack | backend/notification-service/src/rabbitmq/email-notification.ts:44-69 | a produced message is accepted exactly if none of its texts is blank, and reads back untrimmed |
| EmailQueue.NothingIsLost | backend/notification-service/src/rabbitmq/rabbitmq.consumer.ts:121-161 | over any deliveries, crashes, requeues and handlers that outlive their channel each published message is in exactly one of queue, flight, acknowledged and dead letters |
| EmailQueue.EveryRunSortsMessages | backend/notification-service/src/rabbitmq/rabbitmq.consumer.ts:128-160 | dead letters are malformed; acknowledged messages are well-formed and were handled; the log has one row per message_id, each a published message; once an id reached the table no later handling inserts it |
| EmailQueue.DrainedQueueIsSorted | backend/notification-service/src/rabbitmq/rabbitmq.consumer.ts:128-160 | once drained, each well-formed message was acknowledged exactly once and each malformed one dead-lettered exactly once |
| EmailQueue.MissingExactlyWhenRefused | backend/notification-service/src/notifications/notifications.service.ts:41-102 | what acknowledging without a row comes to: once drained, a well-formed message's id is missing from the log exactly if the database refused every handling of it |
| EmailQueue.DrainedLogIsComplete | backend/notification-service/src/notifications/notifications.service.ts:68-90 | if no insert is refused, the drained log holds exactly the well-formed ids |
| EmailQueue.EveryOutcomeIsARecords | backend/notification-service/src/notifications/notifications.service.ts:68-100 | in every run each outcome is that of one recording step, and is an insert or a duplicate according to whether that step grew the log |
| EmailQueue.UninterruptedDelivery | backend/notification-service/src/rabbitmq/rabbitmq.consumer.ts:121-161 | in every reachable state the head of the queue, delivered and handled without interruption, is settled by its form, and nothing else moves |
| EmailQueue.RedeliveryLogsOnce | backend/notification-service/src/notifications/notifications.service.ts:68-90 | a message delivered again because its consumer died before the ack is found a duplicate, logged once and acknowledged once |
| EmailQueue.Consumer.RecordWelcomeEmail | backend/notification-service/src/notifications/notifications.service.ts:51-102 | the row is appended exactly if the database can be asked and has none of that message_id; "inserted" is answered exactly if the reply arrived and the log grew, "duplicate" exactly if it arrived and the log did not, else the database is unavailable |
| EmailQueue.Consumer.HandleMessage | backend/notification-service/src/rabbitmq/rabbitmq.consumer.ts:121-161 | acked whatever the database said, dead-lettered when malformed, left alone without a channel: the machine's own steps |
| Accounts.TablesAreConsistent | backend/internal/auth/oauth.go:270-326 | in every interleaving with any store call failing: one account per email, one identity per subject, each linked to the account of the email it was linked with |
| Accounts.SubjectsResolveToOneUser | backend/internal/auth/oauth.go:270-301 | a subject once resolved always resolves to the same, existing account, whatever its email becomes |
| Accounts.AnswersLandOnTheLinkedEmailsAccountExactly | backend/internal/auth/oauth.go:270-326 | in every run, sign-ins with any emails in between, an answer is the account an email had at any earlier time if and only if its subject was linked with that email |
| Accounts.RetriesLandOnTheSameAccount | backend/internal/auth/oauth.go:285-326 | so if a subject's sign-ins carry one email, a retry after a failed sign-in lands on the account that email had |
| AccountRoles.RolesAreReadByEmail | backend/internal/auth/oauth.go:270-326 | in every run a sign-in answers the role its email's account has, or "user" if there is none, at a position since it began |
| AccountRoles.KnownAnswersAreGivenAtFindRole | backend/internal/auth/oauth.go:274-283 | for a known subject that position is its role lookup, the step that answers |
| AccountRoles.RoleIsTheAccountsExactlyWhileEmailIs | backend/internal/auth/oauth.go:270-301 | the role is that of the answered account if and only if the email is the one the subject was linked with; else it is "user" or the other account's whose email it is |
| AccountRoles.PromotedSignsInAsUser | backend/internal/auth/oauth.go:274-283 | the run in which a promoted account signs in with a changed email and is answered "user" |
| AccountRoles.SignsInWithAnothersRole | backend/internal/auth/oauth.go:274-283 | the run in which the new email is another account's and the answer pairs one account's id with the other's role |
| AccountRoles.RoleFollowsAccountExactlyWhileEmailDoes | backend/internal/auth/oauth.go:274-283 | the looked-up role follows every change of the account's role exactly while the email is that account's |
| AccountRoles.KnownSignIn | backend/internal/auth/oauth.go:271-283 | an uninterrupted sign-in of a known subject answers the linked account, with the role found by email, and changes no table |
| AccountRoles.NewSignIn | backend/internal/auth/oauth.go:285-326 | an uninterrupted first sign-in links the email's account and answers its role, or makes a new plain account |
| Accounts.StepKeepsSound | backend/internal/auth/oauth.go:156-187 | each store call keeps the tables consistent and takes back no account and no link |
| AuthServer.Server.Register | backend/internal/auth/server.go:88-120 | it succeeds exactly for a valid request whose password has 8 to 72 characters, whose email and id are new and whose insert is acknowledged; the one row added, of role "user"; no change on failure unless only the reply was lost |
| AuthServer.Server.FindOrCreateCredentialForEmail | backend/internal/auth/oauth.go:308-326 | the email's account, existing with its role or new as a plain user, for each failure of the store |
| AuthServer.Server.LinkOrCreateGoogleUser | backend/internal/auth/oauth.go:270-301 | known subjects change nothing; new ones are linked to the email's account; the role answered in each case; what a failure can leave behind |
| Accounts.CreatesAreKeyed | backend/internal/auth/oauth.go:156-187 | a credential is stored exactly if neither its id nor its email is taken, a link exactly if its subject is not and its account exists; a lost reply loses only the reply |
| JwkCodec.BigEndianBytes | backend/internal/platform/jwks/server.go:51-61 | the loop yields the number's base-256 digits, one zero byte for zero, nothing for a negative number |
| JwkCodec.ValueIsBigEndian | backend/internal/platform/jwks/client.go:90-93 | the first byte is the most significant: it counts 256 to the number of bytes behind it |
| JwkCodec.DecodeExponent | backend/internal/platform/jwks/client.go:90-93 | shift-or on a 64-bit int with wrap-around is the bytes' value wrapped once |
| JwkCodec.ExponentRoundTrip | backend/internal/platform/jwks/server.go:51-61 | of all 64-bit ints exactly the non-negative ones survive the round trip, without overflow on the way |
| JwkCodec.EncodingIsMinimal | backend/internal/platform/jwks/server.go:48-61 | the bytes spell the number with no leading zero, and no spelling is shorter (RFC 7518 section 2) |
| JwkCodec.ReencodingKeepsExactlyMinimal | backend/internal/platform/jwks/client.go:90-93 | reading and writing back reproduces exactly the minimal spellings |
| JwksClient.ReadDocument | backend/internal/platform/jwks/client.go:79-95 | the loop yields the map of readable keys |
| JwksClient.KeysOfMeans | backend/internal/platform/jwks/client.go:79-95 | a kid maps to a key exactly if the document's last readable entry of that kid is that key |
| JwksClient.ServedKeyIsRead | backend/internal/platform/jwks/server.go:27-46 | the client reads back exactly the key pair's modulus and exponent that the handler serves |
| JwksClient.KeysWerePublished | backend/internal/platform/jwks/client.go:108-133 | over all interleavings of GetKey and Refresh a returned key was published under that kid in some served document |
| JwksClient.KeysAreFresh | backend/internal/platform/jwks/client.go:108-133 | without a failed refresh, the key's document was installed no earlier than the refresh interval before the check (JwksRotation dates it by its fetch) |
| JwksRotation.OlderDocumentReturnsExactlyOnOverlap | backend/internal/platform/jwks/client.go:59-102 | install order: a document follows one fetched later exactly if that one's fetch and install, both steps of the run, lie between its own |
| JwksRotation.RotatedKeyIsServedAgain | backend/internal/platform/jwks/client.go:108-133 | the run in which a key that a later fetched and already installed document lacks is served again |
| JwksRotation.DelaysAreOfTheRun | backend/internal/platform/jwks/client.go:59-102 | a document's delay is the time between its own Fetch and Install steps of the run |
| JwksRotation.KeysAreFetchedRecently | backend/internal/platform/jwks/client.go:108-133 | without a failed refresh, an answered key's document was fetched no earlier than the interval and that document's delay before the check |
| JwksRotation.KeysAreNoOlderThanIntervalAndFetch | backend/internal/platform/jwks/client.go:108-133 | so with fetches of at most d it was fetched no earlier than the interval and d before the check |
| JwksRotation.RotatedKeyIsAnsweredExactly | backend/internal/platform/jwks/client.go:15-19 | of a key rotated out at a time: a call without a failed refresh answers it if and only if the document it read was fetched before; that document was installed no earlier than the interval before the check |
| JwksRotation.LateAnswersNeedASlowFetch | backend/internal/platform/jwks/client.go:15-19 | later than the interval after the rotation: if and only if that document was between its fetch and its installation at the rotation, and then for longer than the check is late |
| JwksRotation.RotationTakesEffectWithinIntervalAndFetch | backend/internal/platform/jwks/client.go:15-19 | with fetches of at most d no call checking the interval and d after the rotation answers the key |
| JwksRotation.IntervalAndFetchIsReached | backend/internal/platform/jwks/client.go:108-133 | for every interval and d, the run whose key comes from a document fetched exactly the interval and d before the check |
| JwksClient.FailedRefreshServesTheCachedKey | backend/internal/platform/jwks/client.go:114-132 | a call fails for want of a fetch exactly if the cache lacked the key at its check; a cached key is served on; "no such key" only after a document without it came in during the call |
| JwksClient.Client.Refresh | backend/internal/platform/jwks/client.go:59-102 | the cache becomes the fetched document's keys, or stays |
| JwksClient.Client.GetKey | backend/internal/platform/jwks/client.go:108-133 | one uninterrupted call: the cached key while recent, else exactly what the fetched document publishes, else the old key if any; a failed fetch and an unknown kid are told apart |
| JwksClient.FreshGetKeyIsARun | backend/internal/platform/jwks/client.go:109-114 | the machine's steps of such a call, with a recent key |
| JwksClient.FailedGetKeyIsARun | backend/internal/platform/jwks/client.go:114-123 | the same with a failing fetch |
| JwksClient.RefreshingGetKeyIsARun | backend/internal/platform/jwks/client.go:114-132 | the same with a fetched document |
| JwksClient.RefreshIsARun | backend/internal/platform/jwks/client.go:59-102 | a plain Refresh back to back: the fetched document is in the cache, or nothing has changed |
| Loader.GetByIds | backend/internal/skills/server.go:205-227 | exactly the rows whose id is among the trimmed, non-blank ids |
| Loader.RowsInAreTheTables | backend/internal/skills/server.go:205-227 | each such row as often as the table has it, and no other |
| Loader.BatchGetById | backend/internal/gateway/dataloader/dataloader.go:122-144 | position by position the row of each id, none for dangling, blank and untrimmed ids |
| Loader.Load | backend/internal/gateway/dataloader/dataloader.go:97-105 | after any batches in any order, each loaded id has its one answer, and fails exactly if a batch that asked for it failed |
| Loader.ResolveSkills | backend/internal/gateway/graph/helpers.go:33-52 | of what ListSkills answers, the found rows in the order of the ids, repeats kept, dangling ids omitted; an error if ListSkills fails |
| Loader.ResolvedIdById | backend/internal/gateway/graph/helpers.go:45-50 | that list is put together id by id: the id's row, or nothing |
| Loader.ResolveSkillsViaLoader | backend/internal/gateway/graph/helpers.go:71-96 | for any batching plan the scan's answer for the clean ids; fails if and only if a batch with one of the ids failed |
| Loader.CleanIdsIdById | backend/internal/gateway/graph/helpers.go:80-95 | the clean ids are, in their order, those that trimming leaves as they are and that are not blank |
| Loader.LoaderAgreesExactlyOnListedSkills | backend/internal/gateway/graph/helpers.go:33-96 | with the tables' UUID keys both ways give the same list exactly if the answer of ListSkills, which may be an earlier state of the table, has every requested skill |
| Loader.LoaderAgreesExactlyOnCleanHits | backend/internal/gateway/graph/helpers.go:33-96 | on the same rows, for any ids: the same list exactly if every requested id the table holds is trimmed and not blank |
| Loader.IndexIsTheTable | backend/internal/gateway/graph/helpers.go:41-44 | with the primary key the id map holds exactly the table's rows |
| Loader.ResolveDisplayNames | backend/internal/gateway/graph/helpers.go:138-156 | position by position, over the table's rows and the ids alone: the name of the id's profile if there is one and it has a name, else the id; an error exactly if the lookup fails |
| Loader.ResolveDisplayNamesViaLoader | backend/internal/gateway/graph/helpers.go:106-133 | the same names for any batching plan; fails if and only if a batch with one of the ids failed |
| Loader.NamesAreTheProfiles | backend/internal/gateway/graph/helpers.go:126-130 | with the primary key: any row of a clean id with a name gives that name, and without one the id stands in |
| Loader.NamesAreDetermined | backend/internal/gateway/graph/helpers.go:98-105 | so the two ways answer the same names for the same table and ids |
| RecentList.CuttingOnceIsEnough | frontend/src/lib/storage/recentlyViewedJobs.ts:27-36 | cutting at every step equals cutting the unbounded list once, from any start list without repeats and for any cap |
| RecentList.RecentIsMostRecentFirst | frontend/src/lib/storage/recentlyViewedJobs.ts:27-30 | the unbounded list is exactly the pushed ids, each once with its latest data, by decreasing last push |
| RecentList.PushesComeFirst | frontend/src/features/notifications/useNotifications.ts:71-77 | the unbounded list is the pushes, most recent first, and behind them, in order, what it began with and nobody has pushed again |
| RecentList.RecentlyViewed.RecordJobView | frontend/src/lib/storage/recentlyViewedJobs.ts:14-36 | always the first five of the unbounded list of all views; a failing write changes nothing, a failing read alone starts the list anew |
| RecentList.ShownIsHistoryAndLaterPushes | frontend/src/features/notifications/useNotifications.ts:55-79 | after the history the list is the history, or once something is pushed the first twenty of the later pushes in front of it, whatever was shown before |
| RecentList.ShownExactlyIfInHistoryOrPushedSince | frontend/src/features/notifications/useNotifications.ts:55-79 | exactly which notifications are shown then, those pushed before the history included |
| RecentList.PushBeforeHistoryIsLost | frontend/src/features/notifications/useNotifications.ts:55-59 | the events after which a pushed notification is gone |
| RecentList.Notifications.Push | frontend/src/features/notifications/useNotifications.ts:71-77 | the list stays the first twenty of the pushes since the last history, latest first, in front of it |
| RecentList.Notifications.Backfill | frontend/src/features/notifications/useNotifications.ts:55-59 | the history replaces the list and starts the count of pushes anew, unless the effect was cancelled |

## Left out

- Snapshot.RedeliveryIsHarmless: assumes that no replace fails and no other member overlaps, since a failed record is skipped and not retried (backend/internal/platform/kafka/consumer.go:131-135); Snapshot.CurrentExactlyIfLastAppliedSaysTheLastEvent holds without either.
- PipelineCreates.EveryPostedJobIsMatched: assumes that the candidate query for the record does not fail (the code logs it and goes on to the next record) and that a worker restarted in the middle of the record reads it again, as at-least-once delivery has it; a user whose upsert fails has no claim, and the code does not retry it.
- PipelineReads.DrainedSnapshotIsTheTableExactly: assumes that no replace of the user's own events fails or comes from an overlapping member; PipelineReads.SnapshotIsTheTableExactly holds without either.
- CacheAnswers.CurrentUnlessSpanned: says nothing of creates whose delete failed; CacheAnswers.StaleExactlyWhenAFillOverlaps says exactly when those rows are missed, and CacheAnswers.ListingsAreExact for how long.
- CacheAnswers.ListingsAreExact: lists rows in commit order; ORDER BY created_at and ORDER BY name are not modelled, because a row's position is a function of its content and the rows listed are what can go stale.
- JobsServer.Server.ListJobs: lists jobs in the order of their insertion instead of by created_at, newest first, because the column and its clock are not part of the model; each job's skills are in order.
- JobsServer.Server.GetJob: a failed query and a disconnected database are parameters; their messages are not modelled.
- JwksClient.KeysAreFresh: dates a document by its installation; JwksRotation.KeysAreFetchedRecently dates it by its fetch. Answers whose own refresh failed have no bound, as the code intends.
- AuthServer.Server.Register: takes the email already trimmed and lower-cased, and counts the password's characters where the code and bcrypt count bytes.
- Loader.ResolveSkills: what ListSkills answers is a parameter; that it is the table at an earlier instant is CacheAnswers.ListingsAreExact.
- One partition per topic: the model keeps one order per topic, where the code gets one order per key. Interleavings between users are free in the model, so no result depends on it beyond that.
- Matching workers of one group that overlap in a rebalance: the pipeline has one worker at a time, with restarts; overlapping members are modelled for the snapshot consumer.
- Ids that Postgres stores as UUID: text normalisation of a UUID (case, braces) and the error for a text that is not one are not modelled; an id is its text.
- The score's floating-point rounding: scores are exact quotients of type real.
- Foreign keys of jobs.job_matches and the ordering of ListJobMatches: no result needs them.
- The sequential code of skills-service's CreateSkill and ListSkills: the same shape as the jobs server; its interleavings and its codec are in CacheAside and JobCodec.
- Case-insensitive field names of Go's JSON decoder, and JSON text itself: documents are trees with exact names.
- Retries inside the Redis and Kafka clients, Redis eviction and failover: a command takes effect once or not at all, and its reply may be lost where the code can tell.
- Deriving the client's address from headers: an address is an opaque text.
- Channel prefetch, consumer tags and connection recovery: any number of deliveries may be open, and any message may be requeued at any time.
- The published events that no modelled component consumes (skill.updated beyond its eviction, the welcome notification's producer): best-effort sends.
- Cryptography, token signing, login, bcrypt, base64 and RSA: library calls.
- Profiles, GraphQL pass-through resolvers, health, logging, tracing, telemetry, Redis streams and pub/sub, WebSocket transport, and the React components: plumbing without a property of its own.
