# Verification of the Customer 360 protocols

A Dafny project that models the stateful protocols of the Customer 360 repository and proves what
they keep over whole runs. `dafny verify dfyconfig.toml` checks all of it.

Each component has a specification, as functions on values: a machine whose runs interleave any
number of actors and whose steps may be cut short between any two commands, or the statements of
a transaction as functions on tables. Where the source works in place or in loops, a class or a
method with the same fields and loops is proved to do exactly what the specification says, and the
properties are proved of the specification.

| file | component |
|---|---|
| StreamQueue.dfy, StreamRoom.dfy, StreamWorker.dfy | durable handoff of tracking batches through Redis Streams; when a bounded stream can take new ones; its publisher and worker |
| BufferedQueue.dfy | the in-memory tracking queue with its worker thread and shutdown |
| LeoAds.dfy | the LEO Ads audience snapshot transaction |
| AudienceMembers.dfy, AudienceLedger.dfy, AudienceSyncJob.dfy | who is uploaded; the run ledger under concurrent and failing jobs; one job |
| RedisLease.dfy | timed ownership tokens |
| RecommendationRuns.dfy, RecommendationRunner.dfy, ContentEmbeddings.dfy | the recommendation executor, its ledger, batches and re-execution; the embedding cache |
| ProductImport.dfy | product and content upserts with permanent links |
| TokenCache.dfy | the cache of token introspections |
| RateLimiter.dfy | the fixed-window limiter |
| EventSchemas.dfy, EventService.dfy | event validation, enrichment and session aggregation |
| SeedTraffic.dfy, WebJourney.dfy | the traffic generators |
| Common.dfy, Text.dfy | shared vocabulary |

What is outside the code is a parameter: SHA-256 is a function, injective where a property needs
it; uuid4 yields ids nothing uses yet; uuid5 and UUID parsing are functions with the laws stated;
random choices, provider answers, failures and the clock are given by oracles, actions or
arguments. Redis and PostgreSQL do not lose committed data.

Properties that turned out false of the code, with the exact condition under which they hold:

- A put that passed the closed test before `close` and lands after the drain's last look is
  accepted and never stored (`BufferedQueue.LatePutIsLost`). A shutdown whose writes succeed loses
  nothing, however it runs, exactly when no producer stands between its closed test and its put
  at the moment of `close` (`BufferedQueue.CloseLosesNothingExactly`).
- A crash between acknowledgement and deletion leaves an entry nobody will delete
  (`StreamRoom.CrashLeavesOneStuck`). A bounded stream can have room again exactly when fewer such
  entries are in it than it may hold (`StreamRoom.RoomCanReturnExactly`); otherwise it refuses
  every new name for ever.
- The advisory lock of a sync job is not determined by its idempotency key: an audience name that
  ends in an execution id collides with that execution (`AudienceLedger.KeysCanCollide`). The
  unique constraint still keeps one row per key; a recorded external audience can be replaced
  exactly when two such jobs are asked for (`AudienceLedger.AudiencesAreKeptExactly`).
- A request can rest on an introspection older than the token lifetime; it never does exactly when
  the answer's own `exp` or `iat` ends it by then (`TokenCache.AgeIsBoundedExactly`). Through the
  cache the excess is the time between answer and write (`TokenCache.LatePass`).
- A product with a link can carry the `generate_content_item` marker too
  (`ProductImport.LinkedCanBeMarked`); over any imports a product carries it exactly when the last
  import that wrote it had no content or its own record brought the marker
  (`ProductImport.MarkedExactly`).
- Normalising a phone number is not idempotent (`AudienceMembers.ZerosDoNotStay`): the number is
  kept exactly when eight digits remain once a country code has replaced the leading zeros
  (`AudienceMembers.PhoneTwice`). The code hashes the result and does not normalise it again.

## Model

| member | source | states |
|---|---|---|
| StreamQueue.FirstIds | customer360-event-api/core/redis_queue.py:226-252 | what COUNT n selects: at most n ids of the set, ascending, and nothing smaller is passed over |
| StreamQueue.KeyIsInjective | customer360-event-api/core/redis_queue.py:300-302 | two (bucket, object_key) names share an idempotency key only if they are the same name |
| StreamQueue.StepKeepsInv | customer360-event-api/core/redis_queue.py:23-36 | every single command of any publisher, worker or clock keeps the queue invariant, and what was logged, acknowledged, stored or promised stays so |
| StreamQueue.RunKeepsInv | customer360-event-api/core/redis_queue.py:212-272 | the same over every interleaving of commands, crashes between any two included |
| StreamQueue.NoAcceptedBatchIsLost | customer360-event-api/core/redis_queue.py:200-272 | in every reachable state each (name, id) a publisher was told, also one answered from the key, is stored, or its entry is in the stream and undelivered or pending |
| StreamQueue.StreamSplits | customer360-event-api/core/redis_queue.py:225-272 | every entry is undelivered, pending, or acknowledged and then stored, and no two of these; every pending id is in the stream; an entry that is gone was acknowledged |
| StreamQueue.AckedNeverPendingAgain | customer360-event-api/core/redis_queue.py:267-268 | an acknowledged id is never pending again, whoever still holds the message |
| StreamQueue.StoredObjectsWerePublished | customer360-event-api/core/redis_queue.py:255-268 | each stored object is, byte for byte, a batch appended under that name |
| StreamQueue.StreamIsBoundedAndNeverTrimmed | customer360-event-api/core/redis_queue.py:28-34 | the stream never exceeds max_stream_length, and an entry leaves it only once acknowledged and stored |
| StreamQueue.PublishIsIdempotent | customer360-event-api/core/redis_queue.py:24-27 | while a key lives, whatever runs, no second entry of the name is appended and every publish answers the same id, also when the stream is full |
| StreamQueue.FirstPublishOpensTheKey | customer360-event-api/core/redis_queue.py:28-35 | the publish that finds no key and room appends exactly one entry and opens its key for the whole time to live |
| StreamQueue.EverythingIsRecoverable | customer360-event-api/core/redis_queue.py:212-272 | from any state some schedule of restarts with a working store acknowledges and stores everything ever appended |
| StreamQueue.EveryAcceptedBatchCanBeStored | customer360-event-api/core/redis_queue.py:43-48 | from any reachable state every batch a publisher was told about can still reach the store |
| StreamRoom.StuckStays | customer360-event-api/core/redis_queue.py:267-268 | an entry acknowledged, not deleted and in nobody's hand stays in the stream for ever |
| StreamRoom.OnlyStuckRemain | customer360-event-api/core/redis_queue.py:212-272 | from any state some schedule leaves nothing in the stream but such entries |
| StreamRoom.RoomCanReturnExactly | customer360-event-api/core/redis_queue.py:28-34 | a stream can have room again exactly if fewer such entries are in it than it may hold |
| StreamRoom.FullForEver | customer360-event-api/core/redis_queue.py:28-30 | otherwise every publish of a name without a living key is refused, from then on |
| StreamRoom.CrashLeavesOneStuck | customer360-event-api/core/redis_queue.py:267-268 | a crash between acknowledgement and deletion leaves one |
| StreamWorker.RedisStreamTrackingStorage.StoreTrackingLogs | customer360-event-api/core/redis_queue.py:93-151 | the publish step of the machine: a name without a living key is appended under the new id, or refused exactly if the stream has reached max_stream_length; one with a living key changes nothing; a full stream, a lost reply and a dead link are told apart |
| StreamWorker.RedisStreamTrackingStorage.IssuePut | customer360-event-api/core/redis_queue.py:257-266 | the store command for the message in hand; after a failure the worker drops what it holds |
| StreamWorker.RedisStreamTrackingStorage.IssueAck | customer360-event-api/core/redis_queue.py:267 | the acknowledgement is the machine's, and follows the store |
| StreamWorker.RedisStreamTrackingStorage.IssueDelete | customer360-event-api/core/redis_queue.py:268 | the deletion leaves the id acknowledged and its entry gone |
| StreamWorker.RedisStreamTrackingStorage.ProcessOne | customer360-event-api/core/redis_queue.py:256-271 | one message with others interfering: handled means stored, acknowledged and deleted; a raise keeps what was handled before |
| StreamWorker.RedisStreamTrackingStorage.ProcessMessages | customer360-event-api/core/redis_queue.py:255-272 | true exactly when no store failed, and then every message is handled; the run of commands is the machine's for every interference |
| StreamWorker.RedisStreamTrackingStorage.IssueRead | customer360-event-api/core/redis_queue.py:225-253 | one delivery command after what others did: the worker holds exactly the messages the server returned |
| StreamWorker.RedisStreamTrackingStorage.ReadPending | customer360-event-api/core/redis_queue.py:225-243 | the first flush_batch_size entries pending for this consumer or, if it has none, the first of those idle for claim_idle_ms |
| StreamWorker.RedisStreamTrackingStorage.RunOnce | customer360-event-api/core/redis_queue.py:213-252 | one turn of the worker with others between its commands: if this consumer has entries pending, exactly the first of those, ascending; otherwise, if any entry is idle long enough, exactly the first of those; otherwise the first ones nobody was given; then it processes them |
| StreamWorker.ReadTakesOverdueOnly | customer360-event-api/core/redis_queue.py:225-252 | what a read delivers is this consumer's from then on, all else pending stays as it was, and nothing is taken from another consumer before it is idle for claim_idle_ms |
| StreamWorker.RedisStreamTrackingStorage.EnsureConsumerGroup | customer360-event-api/core/redis_queue.py:200-210 | the group exists afterwards, starting before the first entry if it is new |
| StreamWorker.HandledStays | customer360-event-api/core/redis_queue.py:255-272 | a message that was stored, acknowledged and deleted stays so under everything others do |
| BufferedQueue.WriteTakesTheOldest | customer360-event-api/core/buffered_storage.py:177-195 | the one step that writes takes the oldest batch not yet written |
| BufferedQueue.MovesKeepOrder | customer360-event-api/core/buffered_storage.py:144-161 | every other step of the worker only moves batches, in order |
| BufferedQueue.Conservation | customer360-event-api/core/buffered_storage.py:91-107 | in every reachable state accepted == stored ++ pending ++ in hand ++ queue, so what is stored is a prefix in acceptance order whatever writes fail |
| BufferedQueue.PendingCountIsExact | customer360-event-api/core/buffered_storage.py:121-123 | pending_count is the number of accepted batches not yet written, but for the one in the worker's hand and one already written and not yet removed |
| BufferedQueue.ShutdownWritesAllButLate | customer360-event-api/core/buffered_storage.py:157-170 | once the worker has ended, accepted is stored ++ pending ++ the puts that came after the drain's last look, and nothing is pending unless the last flush failed |
| BufferedQueue.ShutdownLosesNothingExactly | customer360-event-api/core/buffered_storage.py:91-135 | from a closed queue every way the shutdown can end without a failed write stores everything accepted exactly if no producer stands between its closed test and its put and none has put too late |
| BufferedQueue.CloseLosesNothingExactly | customer360-event-api/core/buffered_storage.py:125-135 | at the moment of close: exactly if no producer stands between its closed test and its put |
| BufferedQueue.LatePutIsLost | customer360-event-api/core/buffered_storage.py:91-96 | a run in which a producer passed the closed test before close and its accepted batch is never stored |
| BufferedQueue.StopStepsCountDown | customer360-event-api/core/buffered_storage.py:139-170 | after the stop is set each step of the worker lowers its remaining count |
| BufferedQueue.ShutdownTerminates | customer360-event-api/core/buffered_storage.py:157-170 | the drain and the final flush end within a bound on the worker's steps, whatever producers still do |
| BufferedQueue.WorkerCanMove | customer360-event-api/core/buffered_storage.py:137-170 | before it ends the worker always has a step that changes its state, but for waiting on an empty queue |
| BufferedQueue.WorkerCanEnd | customer360-event-api/core/buffered_storage.py:157-170 | stopped and closed, the worker comes to its end by its own steps |
| BufferedQueue.BufferedTrackingStorage.StoreTrackingLogs | customer360-event-api/core/buffered_storage.py:64-107 | accepts exactly when open and not full, and then appends one batch; a refusal changes nothing |
| BufferedQueue.BufferedTrackingStorage.FlushPendingOnce | customer360-event-api/core/buffered_storage.py:172-196 | writes the pending list oldest first up to the first failure and keeps the rest; the same as that run of the machine |
| BufferedQueue.BufferedTrackingStorage.TakeTurn | customer360-event-api/core/buffered_storage.py:139-155 | one turn of the worker's loop is the run of the machine it returns: the arrivals that fit are queued, one is taken, a full batch is written up to its first failing write, and what is pending is written only if the interval has passed since the last flush |
| BufferedQueue.WrittenWhenDue | customer360-event-api/core/buffered_storage.py:147-155 | a turn without a full batch and before the interval has passed writes nothing and keeps the item; one that is due and fails no write leaves nothing pending |
| BufferedQueue.BufferedTrackingStorage.RunWorker | customer360-event-api/core/buffered_storage.py:137-170 | every turn is done in order, then close, drain and a last flush up to its first failing write; all of it is the run of the machine it returns, and all is stored exactly if the last flush did not stop early |
| BufferedQueue.FlushIsARun | customer360-event-api/core/buffered_storage.py:172-196 | the flush loop and its steps in the machine reach the same state |
| LeoAds.FindAudience | customer360-backend/data_synch/audience_sync.py:518-537 | finds the row of the tenant and key if there is one |
| LeoAds.UpsertAudienceKeepsKeys | customer360-backend/data_synch/audience_sync.py:499-539 | the audience upsert of an active source tenant keeps every constraint and yields the row of this key |
| LeoAds.UpsertKeysKeepsKeys | customer360-backend/data_synch/audience_sync.py:549-558 | the serving-key upsert keeps every constraint |
| LeoAds.DeleteMembersKeepsKeys | customer360-backend/data_synch/audience_sync.py:560-571 | the member deletion keeps every constraint |
| LeoAds.InsertMembersKeepsKeys | customer360-backend/data_synch/audience_sync.py:572-579 | the member insertion, if its foreign key allows it, keeps every constraint |
| LeoAds.CollectKeysKeepsKeys | customer360-backend/data_synch/audience_sync.py:580-591 | the key collection never takes a key some member still needs |
| LeoAds.SetEstimateKeepsKeys | customer360-backend/data_synch/audience_sync.py:592-595 | the estimate update keeps every constraint |
| LeoAds.SnapshotReplaces | customer360-backend/data_synch/audience_sync.py:549-591 | the set statements together replace the members of one audience by the staged ones and collect exactly the dropped keys; they fail exactly if a staged hash is another tenant's key |
| LeoAds.HashIsInjective | customer360-backend/data_synch/audience_sync.py:541-544 | two (source tenant, profile) pairs share a serving hash only if they are the same pair |
| LeoAds.SyncSucceedsExactly | customer360-backend/data_synch/audience_sync.py:498-596 | the sync succeeds exactly when the tenant is mapped and active, its audience key is not another source's and no profile comes twice |
| LeoAds.NoForeignKeyIsEverTaken | customer360-backend/data_synch/audience_sync.py:549-558 | no hash of one tenant is ever another tenant's serving key |
| LeoAds.SyncReplacesTheAudience | customer360-backend/data_synch/audience_sync.py:494-596 | afterwards the audience has exactly the hashes of the profiles, also when there are none; its row has the request's name and source, their number and the next version; each profile has its serving key; every other audience is unchanged; a key is deleted exactly when its member left and no other audience of the tenant has it |
| LeoAds.AudiencesAreByCampaignAndSegment | customer360-backend/data_synch/audience_sync.py:495-539 | over any syncs by any tenants an audience keeps its row and members until its own source tenant, campaign and segment are synced again; another sync reaches the same audience exactly if all three are the same |
| LeoAds.SyncLeavesNoOrphans | customer360-backend/data_synch/audience_sync.py:580-591 | if every serving key was referenced before, every one is afterwards |
| LeoAds.AllSyncsKeepTheConstraints | customer360-promotions/sql-scripts/db-schema-init.sql:457-503 | over any sequence of syncs by any tenants every foreign key, uniqueness and ownership rule holds, and no orphan key appears |
| LeoAds.TraceEndsTheSync | customer360-backend/data_synch/audience_sync.py:498-596 | a sync succeeds exactly if all six of its statements are executed, and its tables are those after the last |
| LeoAds.StatementsKeepTheConstraints | customer360-backend/data_synch/audience_sync.py:498-596 | every constraint holds after each statement of a sync, also of one that fails later |
| LeoAds.EveryStatementKeepsTheConstraints | customer360-promotions/sql-scripts/db-schema-init.sql:457-503 | over any sequence of syncs every constraint holds after every single statement |
| LeoAds.RerunReachesTheSameMembership | customer360-backend/data_synch/audience_sync.py:486-596 | running the same request again succeeds and reaches the same members and keys, as after a crash between the two commits |
| LeoAds.StagedInBatches | customer360-backend/data_synch/audience_sync.py:546-548 | filling the member table batch by batch gives the table of all profiles |
| LeoAds.LeoAdsDatabase.SyncLeoAds | customer360-backend/data_synch/audience_sync.py:486-596 | statement by statement the transaction has the tables the specification says, returns what it says for every batch size and rolls back on every error |
| LeoAds.LeoAdsDatabase.StageMembers | customer360-backend/data_synch/audience_sync.py:541-548 | the batch loop fails exactly if a profile comes twice, in one batch or in two, and else stages them all |
| AudienceMembers.EmailTwice | customer360-backend/data_synch/audience_sync.py:398-400 | normalising a normalised address changes nothing |
| AudienceMembers.LocalAndInternationalAgree | customer360-backend/data_synch/audience_sync.py:403-414 | a local number with its trunk zero and the same number written internationally normalise alike, however punctuated |
| AudienceMembers.PhoneTwice | customer360-backend/data_synch/audience_sync.py:403-414 | before hashing, a normalised number normalises to itself exactly if eight digits remain of the number it was made from, and to nothing otherwise |
| AudienceMembers.ZerosDoNotStay | customer360-backend/data_synch/audience_sync.py:403-414 | a number of which none remain: eight zeros written locally |
| AudienceMembers.MembersAreTheEligible | customer360-backend/data_synch/audience_sync.py:828-866 | a member is uploaded exactly if it comes from a matched, unsuppressed profile with its own literal consent to this platform and a usable identifier; members never outnumber matches |
| AudienceMembers.EligibleIsCheckedTwice | customer360-backend/data_synch/audience_sync.py:94-103 | the query and the loop together test eligibility |
| AudienceMembers.CollectMembers | customer360-backend/data_synch/audience_sync.py:858-865 | the loop over the query's rows collects exactly the eligible members, in order |
| AudienceMembers.MembersKeepOrder | customer360-backend/data_synch/audience_sync.py:828-866 | the members are the eligible profiles, each once and in table order |
| AudienceMembers.MembersCarryHashes | customer360-backend/data_synch/audience_sync.py:398-414 | for LEO Ads only the profile id is uploaded; for the others the hash of the trimmed lower-case address, exactly if it is one, and of a plus sign and digits, exactly if there are eight and a country code |
| AudienceMembers.EmailsAreAddresses | customer360-backend/data_synch/audience_sync.py:55 | an address is three words without white space, joined by an at sign and a dot |
| AudienceMembers.EmailHashesAgreeExactly | customer360-backend/data_synch/audience_sync.py:394-400 | two profiles share an address hash exactly if their addresses differ at most in case and surrounding white space |
| AudienceLedger.KeyDeterminesParts | customer360-backend/data_synch/audience_sync.py:662-664 | two jobs with the same idempotency key agree on campaign, segment, platform and on name plus execution |
| AudienceLedger.KeyDeterminesLockExactly | customer360-backend/data_synch/audience_sync.py:662-669 | jobs of one tenant with the same idempotency key take the same lock exactly when the platform is LEO Ads or both or neither name an execution |
| AudienceLedger.KeysCanCollide | customer360-backend/data_synch/audience_sync.py:662-669 | an audience name that ends in an execution id collides with that execution and takes another lock |
| AudienceLedger.Find | customer360-backend/data_synch/audience_sync.py:670-679 | finds the run row of the tenant and key if there is one |
| AudienceLedger.StepKeepsInv | customer360-backend/data_synch/audience_sync.py:662-952 | every commit, failure and lost connection of any job keeps the ledger invariant and every row's identity |
| AudienceLedger.OneRowPerKey | customer360-database/database-schema.sql:3856 | over any concurrent jobs there is at most one row per tenant and idempotency key, and each summary has uploaded <= eligible <= matched |
| AudienceLedger.LocksExclude | customer360-backend/data_synch/audience_sync.py:665-669 | jobs that take the same lock never work at the same time |
| AudienceLedger.LockDeterminesParts | customer360-backend/data_synch/audience_sync.py:665-669 | two jobs take the same lock exactly if they are of one tenant and both for LEO Ads, or both for the same campaign, platform and name in any case |
| AudienceLedger.WaitingJobsGetTheirLock | customer360-backend/data_synch/audience_sync.py:665-669 | a lock is held only by a job under way; a waiting job gets it exactly when nobody else is at work on it, whatever finished, failed or was lost before |
| AudienceLedger.LatestIsDetermined | customer360-backend/data_synch/audience_sync.py:716-737 | the audience a new execution takes over is the one of the row written last among those of the same tenant, campaign, platform and name, in any case |
| AudienceLedger.AttemptsAreOpens | customer360-backend/data_synch/audience_sync.py:680-717 | a row's attempt count is the number of times a job came to hold it: the insertion and one for each retry |
| AudienceLedger.ClashNamesAnExecution | customer360-backend/data_synch/audience_sync.py:662-669 | two writers share a row without sharing the lock only if one's audience name ends in the other's execution id |
| AudienceLedger.AudiencesStay | customer360-backend/data_synch/audience_sync.py:913-926 | without such a clash no run replaces or forgets an audience recorded for an external platform |
| AudienceLedger.ClashReplaces | customer360-backend/data_synch/audience_sync.py:913-926 | any such clash has a run in which the second job replaces the audience the first recorded |
| AudienceLedger.AudiencesAreKeptExactly | customer360-backend/data_synch/audience_sync.py:662-926 | recorded audiences of external platforms are never replaced exactly when no two jobs clash |
| AudienceSyncJob.CallersCannotWidenTheAudience | customer360-backend/data_synch/audience_sync.py:619-661 | a request is accepted exactly if the tenant has that approved campaign, with this active tagged segment and a usable name; the job is for the campaign's own segment, with the platform, execution, dry run and stripped name asked for |
| AudienceSyncJob.AudienceSync.OpenRow | customer360-backend/data_synch/audience_sync.py:665-739 | with other sessions between its commits it waits for the lock, possibly for ever, and takes the one row of the key with one more attempt and its recorded audience, or the latest one for a new execution; it raises exactly where another session has inserted the row meanwhile |
| AudienceSyncJob.AudienceSync.RunDataSynchJob | customer360-backend/data_synch/audience_sync.py:599-952 | with other sessions between its commits the job is a run of the ledger; refused requests change nothing; a dry run asks no destination and uploads nothing; its last commit touches its own row only and records the counts it took, what it sent and to which audience; a failed destination marks the row and keeps its audience |
| RedisLease.StepKeepsInv | customer360-backend/shared/redis_lock.py:12-61 | every acquire, refresh, release and tick keeps the spans of the tokens apart |
| RedisLease.LeasesNeverOverlap | customer360-backend/shared/redis_lock.py:55-61 | the validity spans of two tokens on one key never overlap |
| RedisLease.LostIsLostForever | customer360-backend/shared/redis_lock.py:35-45 | a lease that expired or was released is never owned again and every later refresh fails |
| RedisLease.ReleaseIsHarmless | customer360-backend/shared/redis_lock.py:47-52 | a stale release changes nothing, whoever owns the key; one in time removes only its own key |
| RedisLease.WithoutRefreshItEnds | customer360-backend/shared/redis_lock.py:17-23 | only its owner's refresh makes a lease last longer |
| RedisLease.AbandonedKeysAreFreed | customer360-backend/shared/redis_lock.py:47-61 | after its time to live without a refresh a lease's key is free or somebody else's, and if free anyone can take it |
| RedisLease.RefreshRenews | customer360-backend/shared/redis_lock.py:35-43 | a refresh in time makes the lease last its whole time to live from now, and no longer |
| RedisLease.AcquireRedisLease | customer360-backend/shared/redis_lock.py:55-61 | returns a lease exactly when nobody holds the key, without blocking and with a time to live of at least one second |
| RedisLease.Lease.Refresh | customer360-backend/shared/redis_lock.py:35-45 | raises exactly when the lease is not owned any more, changing nothing; otherwise renews it |
| RedisLease.Lease.Release | customer360-backend/shared/redis_lock.py:47-52 | never raises and never takes another owner's key |
| RecommendationRuns.PagesAreUpserts | customer360-backend/ai_agents_runners/runner.py:1124-1130 | the paged insert writes what the rows one by one would, and raises exactly if a page repeats a key |
| RecommendationRuns.RowsAreThoseWritten | customer360-backend/ai_agents_runners/runner.py:211-227 | a run has as many rows as were written exactly when no key was written twice, and never more |
| RecommendationRuns.BatchedRefinesSimple | customer360-backend/ai_agents_runners/runner.py:485-664 | a pass in which nothing raises has the rows and counters of the simple per-profile pass for every profile count, and ranks each (step, profile) pair exactly once, in step order |
| RecommendationRuns.AllKeysDistinct | customer360-backend/ai_agents_runners/runner.py:1097-1116 | with distinct profiles, one step per agent and distinct items per ranking no key is ever written twice |
| RecommendationRuns.SegmentTouchesItself | customer360-backend/ai_agents_runners/runner.py:431-731 | a segment's run changes only its own rows and ledger row, and nothing if it raises before its start |
| RecommendationRuns.SegmentIsClean | customer360-backend/ai_agents_runners/runner.py:664-731 | after a started segment FAILED means no rows, SUCCEEDED means the rows of the simple pass and their count; RUNNING remains only if marking or finishing failed |
| RecommendationRuns.SucceededHasTheWrittenRows | customer360-backend/ai_agents_runners/runner.py:664-731 | with distinct profiles, agents and items a SUCCEEDED segment has exactly recommendations_written rows |
| RecommendationRuns.SucceededHasTheRankings | customer360-backend/ai_agents_runners/runner.py:628-664 | each item the pipeline ranked for a step and profile has its row in a SUCCEEDED run, each row is such an item with its values, and recommendations_written is their number |
| RecommendationRuns.SegmentSucceedsExactly | customer360-backend/ai_agents_runners/runner.py:495-731 | in good form a started run SUCCEEDS exactly if nothing in its steps raises and its end could be recorded, and is FAILED exactly if something raises and that could be |
| RecommendationRuns.FailedCountsTheDone | customer360-backend/ai_agents_runners/runner.py:690-712 | a FAILED run counts the first so many (step, profile) pairs, those ranked before something raised, and their items |
| RecommendationRuns.GroupsHoldTheSteps | customer360-backend/ai_agents_runners/runner.py:408-430 | the segments' groups together hold exactly the plan's ranking steps, as a multiset |
| RecommendationRuns.GroupsKeepOrder | customer360-backend/ai_agents_runners/runner.py:408-430 | each group has every step of its segment, in plan order |
| RecommendationRuns.GroupingIsAPartition | customer360-backend/ai_agents_runners/runner.py:408-430 | the steps in groups, the eligibility steps and the unsupported ones add up to the plan |
| RecommendationRuns.SummaryCounts | customer360-backend/ai_agents_runners/runner.py:732-754 | executed plus unsupported steps equal the plan's length, profile runs are the sum over segments of profiles times steps, recommendations the items ranked in all of them, and updates those of the eligibility steps |
| RecommendationRuns.ExecutionSucceedsExactly | customer360-backend/ai_agents_runners/runner.py:401-754 | in good form an execution reports exactly if no eligibility step raises and every segment completes |
| RecommendationRuns.FinishedSegmentsKeepResults | customer360-backend/ai_agents_runners/runner.py:431-735 | segments finished before one raises keep their results, later ones are as they were, and no other run's rows change |
| RecommendationRuns.RetriedSegmentIsFresh | customer360-backend/ai_agents_runners/runner.py:177-197 | whatever an earlier run of the segment answered and wherever it failed, running it again leaves what a first run would have left |
| RecommendationRuns.RetryIsAFreshExecution | customer360-backend/ai_agents_runners/runner.py:401-754 | executing a run id again with other answers and other failures reports what a first execution would have, and if it succeeds leaves exactly those tables |
| RecommendationRuns.ExecutingAgainChangesNothing | customer360-backend/ai_agents_runners/runner.py:401-754 | with the same answers it changes nothing at all and reports the same, whether it succeeded or raised |
| RecommendationRunner.AgentWorkflowMasterTask.InsertProfileRecommendationsBatch | customer360-backend/ai_agents_runners/runner.py:1087-1130 | page by page in one transaction: all the rows, or none if a page repeats a key |
| RecommendationRunner.AgentWorkflowMasterTask.RunRankingStep | customer360-backend/ai_agents_runners/runner.py:485-664 | the batch loop of one step does what the batched pass says |
| RecommendationRunner.AgentWorkflowMasterTask.RunRankingSteps | customer360-backend/ai_agents_runners/runner.py:484-664 | the step loop stops at the first step that raises |
| RecommendationRunner.AgentWorkflowMasterTask.RunRankingSegment | customer360-backend/ai_agents_runners/runner.py:432-731 | validate, load, start, run and finish or mark, as the specification of one segment |
| RecommendationRunner.AgentWorkflowMasterTask.GroupPlan | customer360-backend/ai_agents_runners/runner.py:408-430 | the grouping loop keeps segments in first-seen order and steps in plan order |
| RecommendationRunner.AgentWorkflowMasterTask.Run | customer360-backend/ai_agents_runners/runner.py:401-754 | eligibility first, then the segments until one raises; tables and report are those of the specification |
| ContentEmbeddings.FoundAllExactly | customer360-backend/ai_agents_runners/runner.py:903-914 | all candidates are found exactly if none is listed twice and each is an active item of the tenant |
| ContentEmbeddings.EnsureSucceedsExactly | customer360-backend/ai_agents_runners/runner.py:903-950 | the step succeeds exactly if every candidate is there, once, active and of the tenant, the size is 384 or 768, and the provider returns one vector for each item that is not up to date |
| ContentEmbeddings.EnsureBringsUpToDate | customer360-backend/ai_agents_runners/runner.py:920-965 | afterwards every selected item has an embedding of its present text by this model, if the provider's vectors have the right size; items that had one and all others are as before |
| ContentEmbeddings.EnsureTwice | customer360-backend/ai_agents_runners/runner.py:932-940 | a second run asks the provider nothing and changes nothing |
| ProductImport.PagesAreUpserts | customer360-backend/data_synch/product_import.py:364-374 | the paged product upsert is the row-by-row one, and raises if a page repeats an identity |
| ProductImport.ProductsImported | customer360-backend/data_synch/product_import.py:32-54 | every named product has its old link or, if it had none, the proposed one; no other product changes |
| ProductImport.LastRecordWins | customer360-backend/data_synch/product_import.py:32-54 | a product named more than once ends with the columns and attributes of its last record |
| ProductImport.KeyDeterminesSource | customer360-backend/data_synch/product_import.py:170-176 | product keys tell apart any two identities without the separator character |
| ProductImport.PersistKeepsInv | customer360-database/database-schema.sql:2869-2882 | an import keeps links unique, each backed by a content row of its tenant, and unlinked products marked |
| ProductImport.ImportKeepsLinks | customer360-backend/data_synch/product_import.py:37-41 | an import, successful or not, removes no product and changes no link that was set |
| ProductImport.LinksAreStable | customer360-backend/data_synch/product_import.py:32-72 | from empty tables, over any imports with and without content: links are unique, backed and permanent, and products without one carry the marker |
| ProductImport.PersistSucceedsExactly | customer360-backend/data_synch/product_import.py:328-430 | an import succeeds exactly if it has rows, content for just those, active domains, no identity twice in a page and no two new products whose keys collide |
| ProductImport.StagedFilesNeverCollide | customer360-backend/data_synch/product_import.py:170-176 | a staged file with distinct product keys has distinct identities and no collision |
| ProductImport.ContentIsTheRecords | customer360-backend/data_synch/product_import.py:393-423 | each product's content row has the text generated for its own key |
| ProductImport.ImportedAsGenerated | customer360-backend/data_synch/product_import.py:344-430 | with content each product of a staged file is linked to a row with its own text and columns and keeps its own attributes; without, each also has the marker, linked or not; no other product changes |
| ProductImport.MarkedExactly | customer360-backend/data_synch/product_import.py:344-374 | over any imports a product, linked or not, carries the marker exactly if the last import that wrote it had no content or its own record brought the marker |
| ProductImport.LinkedCanBeMarked | customer360-backend/data_synch/product_import.py:344-366 | an import with content and one without leave a product that is linked and marked |
| ProductImport.GeneratedForAll | customer360-backend/data_synch/product_import.py:256-274 | what is generated covers exactly the records |
| ProductImport.GenerationSucceedsExactly | customer360-backend/data_synch/product_import.py:256-274 | generation succeeds exactly if every batch of twenty is answered for just its own keys |
| ProductImport.TextsAreTheAnswers | customer360-backend/data_synch/product_import.py:256-274 | and each record then has the text its batch was answered with |
| ProductImport.ProductCatalog.GenerateContentForRecords | customer360-backend/data_synch/product_import.py:256-274 | the batch loop fails at the first batch whose keys are not those asked for |
| ProductImport.ProductCatalog.UpsertProductPages | customer360-backend/data_synch/product_import.py:364-374 | the page loop in place is the paged upsert |
| ProductImport.ProductCatalog.PersistProductRecords | customer360-backend/data_synch/product_import.py:277-430 | the transaction does what the specification says or leaves the tables alone |
| ProductImport.ProductCatalog.ImportProductFile | customer360-backend/data_synch/product_import.py:433-486 | an import of a staged file fails only for an empty file, an inactive domain or a failed generation, and then writes nothing |
| TokenCache.StepKeepsInv | customer360-api/core/auth.py:105-176 | every step of any request, the clock and evictions keep what is known of cached answers |
| TokenCache.PassesAreFresh | customer360-api/core/auth.py:105-176 | every request let through rests on an answer that was active when given; at the check the token is before exp and within its lifetime plus leeway; the answer spent less than the lifetime in the cache, if any time |
| TokenCache.EntriesDoNotOutlive | customer360-api/core/auth.py:123-144 | a cached answer was active when given and leaves the cache within the lifetime and, up to rounding and its time in flight, by exp |
| TokenCache.AgeIsBoundedExactly | customer360-api/core/auth.py:105-144 | no request ever rests on a given answer longer than the token lifetime exactly if the answer's own exp or iat ends it by then: the cache's time to live starts only at the write |
| TokenCache.FlightTimeIsTheExcess | customer360-api/core/auth.py:123-144 | whatever the claims, the excess is the time an answer spends outside the cache, before its write and after its read: none exactly if that is at most a millisecond |
| TokenCache.LatePass | customer360-api/core/auth.py:131-142 | a run in which an answer is d - 1 milliseconds older than the lifetime, for every d |
| TokenCache.SsoMiddleware.LoadCachedToken | customer360-api/core/auth.py:147-176 | with other requests between its steps: a hit exactly if the cache holds an answer that is not over and still good when checked; it lets the request through, otherwise the provider is asked |
| TokenCache.SsoMiddleware.IntrospectToken | customer360-api/core/auth.py:362-367 | lets through exactly an active answer that is good when checked |
| TokenCache.SsoMiddleware.CacheToken | customer360-api/core/auth.py:123-144 | the entry has the answer and the lesser of the lifetime and what exp leaves at that second; nothing left or a cache that is down writes nothing |
| TokenCache.CacheServes | customer360-api/core/auth.py:147-160 | what is cached is found until it is over, unless it is evicted or something is written |
| TokenCache.SsoMiddleware.Authenticate | customer360-api/core/auth.py:362-368 | the SSO path, with other requests between its steps, is a run of the machine; the request is let through, once, exactly if the cache had a good answer for its token or else the provider's answer is active and good |
| RateLimiter.CountKeepsInv | customer360-event-api/core/redis_cache.py:17-23 | the script keeps every counter's expiry, count and window apart from others |
| RateLimiter.WindowAdmitsTheFirstN | customer360-event-api/core/redis_cache.py:186-193 | a request is admitted exactly if fewer than N came before it in its window |
| RateLimiter.SlidingIntervalsAdmitTwiceN | customer360-event-api/core/redis_cache.py:159-193 | every interval of one window's length, wherever it begins, admits at most 2 N requests of a key |
| RateLimiter.RefusingCounterGoes | customer360-event-api/core/redis_cache.py:188-193 | retry_after_seconds after a refusal the counter that refused is gone, however often the client sends meanwhile: what counts then began later |
| RateLimiter.RefusedMayRetry | customer360-event-api/core/redis_cache.py:188-193 | and if the client has not sent meanwhile its next request is admitted, if any is |
| RateLimiter.CountersExpire | customer360-event-api/core/redis_cache.py:17-23 | every counter has an expiry, at most one window ahead |
| RateLimiter.NoWindowNoLimit | customer360-event-api/core/redis_cache.py:17-23 | a window of zero seconds limits nothing |
| RateLimiter.TrackingRequestProtection.AllowRequest | customer360-event-api/core/redis_cache.py:153-193 | whitelisted clients are not counted, an unreachable server is answered as configured, otherwise one request is counted, also with a window of zero |
| EventSchemas.IdentifierTwice | customer360-event-api/core/schemas.py:27-43 | an accepted identifier is trimmed, short and not blank, and is accepted unchanged when it comes again |
| EventSchemas.FieldsBecomeNormal | customer360-event-api/core/schemas.py:97-101 | the loop puts every listed field an event has into normal form and touches no other |
| EventSchemas.AcceptedExactly | customer360-event-api/core/schemas.py:73-118 | an event is accepted exactly if it does not claim to be a consent callback, its identifiers are texts within the limits, and its attribution ids are UUIDs that agree with their aliases; it then has the trimmed identifiers and the canonical ids, and everything else as it was |
| EventSchemas.AcceptedIsNormal | customer360-event-api/core/schemas.py:73-118 | what validation accepts is in normal form and keeps every key it does not know |
| EventSchemas.ValidationTwice | customer360-event-api/core/schemas.py:73-118 | validation is idempotent, leaves no alias keys and changes nothing but identifiers, aliases and attribution ids |
| EventSchemas.AliasGivesTheId | customer360-event-api/core/schemas.py:102-113 | an accepted event ends with the attribution id its alias gave |
| EventSchemas.FirstErrorWins | customer360-event-api/core/schemas.py:75-118 | the first event that is refused decides the batch |
| EventSchemas.ValidateEventIdentifiers | customer360-event-api/core/schemas.py:73-118 | the nested loops compute the validation of all events, or the first error |
| EventSchemas.ValidateOne | customer360-event-api/core/schemas.py:77-117 | one event's pops and assignments are the validation of that event |
| EventService.EnrichmentExactly | customer360-event-api/core/service.py:102-152 | field by field: a batch with nothing to add leaves its events alone; otherwise its identities and metadata stand in for missing ones, its device type replaces the event's, an event without an id gets one made from its dedup key or its hash, and nothing else changes |
| EventService.EnrichmentKeeps | customer360-event-api/core/service.py:124-141 | enrichment never overwrites what an event has, but for the device type and a blank event id, and fills in every identity the batch has |
| EventService.EnrichmentTwice | customer360-event-api/core/service.py:102-142 | enriching enriched events changes nothing |
| EventService.GeneratedIdsDiffer | customer360-event-api/core/service.py:134-140 | events of a batch with neither id nor dedup key get different ids |
| EventService.DedupKeysDecideIds | customer360-event-api/core/service.py:145-152 | events without an id that bring the same dedup key get the same id |
| EventService.EnrichEvents | customer360-event-api/core/service.py:102-142 | the loop enriches every event |
| EventService.CountsAreExact | customer360-event-api/core/service.py:92-98 | a session's count is the number of events with that session id, trimmed, or without one in a batch that has it |
| EventService.SessionsAreThose | customer360-event-api/core/service.py:92-98 | there is a session for exactly the ids that some event has |
| EventService.SessionCountsAddUp | customer360-event-api/core/service.py:84-99 | the session counts sum to the number of events with an effective session id |
| EventService.UserIsTheLast | customer360-event-api/core/service.py:96-98 | each session's user is the last non-empty one among its events |
| EventService.CollectSessions | customer360-event-api/core/service.py:84-99 | the loop collects exactly the sessions, in first-seen order, with those counts and users |
| SeedTraffic.TrafficIsCounted | customer360-seeding/seed_api_data.py:158-192 | n events in sessions of k are ceil(n/k) sessions with exactly n events and min(profiles, sessions) distinct users |
| SeedTraffic.SessionAt | customer360-seeding/seed_api_data.py:164-191 | every session but the last is full, and its user is the next profile |
| SeedTraffic.NumbersNeverCollide | customer360-seeding/seed_api_data.py:214-217 | the numbers of seeded event ids never collide |
| SeedTraffic.MinProfilesIsMet | customer360-seeding/seed_api_data.py:433-441 | --min-profiles m raises the profiles to m if there are fewer and the events to what those need if there are fewer, and yields exactly that many distinct users |
| SeedTraffic.RequestsPartitionTheEvents | customer360-seeding/seed_api_data.py:335-342 | the requests hold every event exactly once and none is above the limit or empty |
| SeedTraffic.RequestsAreOneBrowsers | customer360-seeding/seed_api_data.py:335-342 | each request is for one browser: a full slice of its events, or its last one |
| SeedTraffic.EventsAreTheBrowsers | customer360-seeding/seed_api_data.py:335-337 | a browser's events are those of exactly its sessions |
| SeedTraffic.IterSessions | customer360-seeding/seed_api_data.py:158-192 | the loop yields those sessions |
| SeedTraffic.GroupByAgent | customer360-seeding/seed_api_data.py:335-337 | the grouping loop keeps each browser's events in session order |
| SeedTraffic.BuildRequests | customer360-seeding/seed_api_data.py:335-342 | the slicing loops build those requests |
| WebJourney.PlanLengthIsExact | customer360-seeding/uat_tracking_traffic_simulator.py:584-624 | a plan has the requested length exactly if it is a browser's or at least eight long |
| WebJourney.BuyersBuyInOrder | customer360-seeding/uat_tracking_traffic_simulator.py:591-616 | a buyer's last four actions are login, cart, checkout and purchase, each exactly once |
| WebJourney.BrowsersDoNotBuy | customer360-seeding/uat_tracking_traffic_simulator.py:617-624 | others never buy, and log in at most once, as their sixth action |
| WebJourney.BuyersLookAround | customer360-seeding/uat_tracking_traffic_simulator.py:591-616 | a buyer begins with three fixed actions and then scrolls, clicks and views courses as the dice say |
| WebJourney.BrowsersLookAround | customer360-seeding/uat_tracking_traffic_simulator.py:617-624 | others begin with the same five actions and go on as the dice say |
| WebJourney.StartRangeIsNonEmpty | customer360-seeding/uat_tracking_traffic_simulator.py:445-450 | the start range is non-empty for every allowed number of events exactly when the settings are valid |
| WebJourney.SessionsLieInTheWindow | customer360-seeding/uat_tracking_traffic_simulator.py:492-551 | the events are the plan's actions, two to 45 seconds apart, inside the lookback window and at least 30 seconds before the clock, from a start the dice choose in the whole range; the visitor is identified in exactly those from the first login on |
| WebJourney.BuyersAreIdentified | customer360-seeding/uat_tracking_traffic_simulator.py:521-551 | a buyer is identified in exactly the last four events |
| WebJourney.JourneyPlan | customer360-seeding/uat_tracking_traffic_simulator.py:584-624 | the loops build that plan |
| WebJourney.GenerateSession | customer360-seeding/uat_tracking_traffic_simulator.py:480-557 | the loop gives every event its time and identity |

## Left out

- FastAPI and Dagster wiring, settings, health and metrics endpoints: no logic of their own.
- `core/storage.py`: storing an object is a put keyed by bucket and object key that succeeds or raises; it is not part of this model.
- Provider HTTP adapters (Meta, Google, TikTok), S3, Keycloak, LLM calls: only their answer or failure, and that each adapter keeps an audience id it is given, enter the models.
- JSON, base64, SQL text and HMAC: library behaviour; a message that cannot be decoded is a store that raises.
- Trimming, lower case and digits are those of ASCII.
- Redis stream ids are counters and the time in `XADD *` ids is not modelled; an expired key is gone from its expiry instant on.
- Statements of different tenants' LEO Ads transactions do not interleave in the model; within one tenant the advisory lock excludes it in the code.
- The LEO Ads sync and the ledger row are separate models: the ledger sees the audience id and the number of members the sync returned.
- `retry_seconds`, block times and poll timeouts change only when a step happens, never which; they are not modelled.
- `oldest_pending_age_seconds`, `queue_capacity` and other gauges: they only read.
- Within one execution the recommendation oracle answers a (step, profile) pair the same way every time; ranking scores and embeddings are not computed.
- `AgentWorkflowMasterTask.run`: selecting the plan by cron expression is library behaviour plus a filter.
- `touch_sessions`, `is_bot` and the whitelist's address parsing: easy members of the same file as the limiter.
- Identity resolution and the failed-authentication limiter after the token check in `auth_middleware`.
- Event timestamps of the seeding generator and the page, query and payload contents of the simulator.
- AudienceLedger.OneRowPerKey: bounds the counts of returned summaries, not of rows, because a reused row keeps an old uploaded count after a dry run.
- AudienceSyncJob.AudienceSync.RunDataSynchJob: its own failures are a refused destination and a violated unique constraint; a failed or lost connection at any other commit is a step of the machine in AudienceLedger.
- ContentEmbeddings.EnsureBringsUpToDate: needs vectors of the expected size, which the code does not check before it stores them.
- ProductImport.ProductCatalog.PersistProductRecords: requires that uuid4 yields unused ids, which the code cannot check; so do LeoAds.LeoAdsDatabase.SyncLeoAds for the audience sequence and RedisLease.AcquireRedisLease for tokens.
- The batches in which adapters upload members (`_chunks`): part of the adapters.
- A negative limit or window of the rate limiter acts as zero does and is not modelled apart.
