# jotify, modelled and proved

jotify accepts notifications for sending, charges them to quotas, spreads them over sharded MySQL
tables, and lets competing processes pick the tables up and send in batches; its clients balance
their calls over the service's nodes. This project models the seven parts of it that carry real
algorithms or protocols. `dafny verify dfyconfig.toml` checks everything.

| files | part |
|---|---|
| `smooth_weighted`, `uint32_picker`, `rw_weight_balancer`, `weight_balancer` | smooth weighted round robin: over the integers, over uint32, on node objects, and under interleaved picks and completions |
| `resource`, `sharding_loop_job`, `table_worker` | the table job: many processes, permits, a lease lock per table, a clock; and the same job with the send loop as its work |
| `snowflake`, `snowflake_callers`, `hash_sharding`, `sharded_store`, `notification_dao` | ids that carry hash bits, routing, and the sharded store as one flat table |
| `hash_ring`, `consistent_hash` | the consistent-hash ring |
| `quota`, `quota_protocol`, `notification_repo` | redis quota counters, the three Lua scripts, clients interleaved between redis and the database, and the repository over counters and sharded store |
| `windows`, `bitring`, `ringbuffer`, `adjuster`, `scheduler` | the adaptive send loop |
| `biz_conf_cache` | the two-tier configuration cache |
| `words`, `sums`, `bits`, `decimals` | machine integers, sums, bit operations on naturals, decimal numerals |

Objects the source updates in place are classes, whose methods are proved against functions of the
old state; protocols between processes are state machines in which a run is any sequence of enabled
events, and the main results hold for every run. Integers are unbounded, so each wrap-around is
written out (`words.dfy`).

## What the proofs found

- The uint32 picker serves what the integer algorithm serves, for ever, exactly when no node is raised
  to less than zero within the first period, a condition computed from the weights alone
  (`PicksAgreeIff`; twice the total must fit 32 bits). Two weighted nodes always meet it, four or more
  never do, and among triples [1, 1, 1] does, although it wraps on the first pick (`TwoPickAlike`,
  `FourPartWays`, `ThreeOnesAgree`). With four nodes of weight 1 the first is picked a billion times in
  a row (`Uint32Starves`).
- The plain picker's nodes are built without an efficient weight, so until a first pick completes
  without an error all picks go to one node (`NoRotationBeforeSuccess`).
- The table job is safe exactly when a `bizFunc` run with its refresh ends inside the lease
  (`SafetyIffInsideLease`). Lease and `bizTimeout` are both one minute, which leaves no margin
  (`ConfiguredTimeoutUnsafe`). The work is the send loop, which never looks at its context: while no
  send fails no call returns, and a table's lock can be taken exactly when the contexts of all calls
  for it are over (`HealthyCallsOutliveLeases`). So in every such run a process waiting at the table of
  any call is let in after one lease and works beside it (`HealthyClash`), however many successful
  sends the call makes in its minute (`BusyClash`).
- After its context has ended a call makes at most consecutiveThreshold more sends if no other loop of
  its process succeeds meanwhile (`ExpiredCallEnds`). In a given deployment anything bounds them
  exactly when no process can have two loops, or the rate threshold is negative; with two loops the
  successes of the one keep the other going (`CallsEndIff`, `ExpiredCallGoesOn`).
- Ids of concurrent callers are distinct when no two equal clock readings lie 4096 or more counter
  steps apart, for instance when the steps of one millisecond and those that may overtake a caller
  number at most 4095 together (`SteadyIdsDistinct`). A caller overtaken 4096 times gets another's id,
  even when only two callers read that millisecond (`OvertakenCollide`).
- A row can be found from its id exactly when the number of tables divides 1024
  (`IdRoutesLikeKeyIff`). The configured 2 x 4 does.
- The single decrement treats the drifting redis counter as an exact quota only for an amount of 1,
  the amount the repository uses (`DecrExactIffUnit`); the batch script does exactly when no key is
  named twice (`BatchExactIffDistinct`), which `buildQuotaParams` provides.
- The quota books of a key balance exactly when no kept notification of it was refunded twice, none
  that was never kept was refunded, and no failed create left a row behind (`BalancesIff`). Nothing in
  the code prevents any of the three (a failed batch over two databases leaves rows), and each has its
  run (`DoubleMarkOverpays`, `StrayMarkOverpays`, `LeftRowOversells`).
- Routing is independent of the order nodes were added exactly when no two addresses share a ring
  hash, and exactly then does every addition move hashes only to the new address
  (`RoutingDeterminedIff`, `AdditionsAreMinimalIff`). `removeNode` on an empty ring asks for a slice of negative capacity
  and panics; the model's `RemoveNode` answers false there.
- The batch size stays within its bounds in every run exactly for the settings `StepFits` names; for
  any other it can leave them by wrapping (`StaysInBoundsIff`). With a window of one response it never
  changes at all (`WindowOfOneIsStill`).
- A configuration can be served for two expiries after it was overwritten: for calls of at most d
  milliseconds the bound is 2 * (expiry + d), and it is reached for every d (`StalenessBound`,
  `BoundIsReached`).
- Both batch creates of the repository report success when the insert failed and the quota was
  given back. `NotificationRepo.DefaultNotifRepo.BatchCreate` reports the same.

## Assumptions

- The lock service: `TryLock` succeeds when the lock is free or expired, `Refresh` extends the lease
  when the caller is still the owner, `Unlock` frees it when the caller is the owner. Refreshing,
  unlocking and locking may also fail at any time.
- xxhash is any function from strings to 64-bit values. Redis scripts and commands are atomic. The
  batch insert into one database is all-or-nothing.
- Of the SQL schema, which is not in the repository, only this is assumed: `id` is the primary key,
  and the columns the statements name exist (among them `update_at`, although the entity's own
  naming would give `updated_at`).
- `sort.Slice` gives some ordered permutation; it need not be stable. `sort.Search` is binary search.
- Both caches serve an entry up to and including the millisecond it expires in.
- A statement the database answers with an error has had no effect.
- A send under a context that is over fails: the database and the sender heed the context they are given.
- Floats are reals. Clocks are integers.

## Model

| member | source | states |
|---|---|---|
| SmoothWeighted.RunIdentity | internal/pkg/client/balancer/rw_weight_balancer.go:109-145 | after t picks since build each current weight is w_i + t*w_i - W*picks_i, and the picks sum to t |
| SmoothWeighted.RunSum | internal/pkg/client/balancer/rw_weight_balancer.go:109-145 | the current weights always sum to the total weight |
| SmoothWeighted.RunFloor | internal/pkg/client/balancer/rw_weight_balancer.go:109-145 | no current weight ever reaches -W or lower |
| SmoothWeighted.NeverAhead | internal/pkg/client/balancer/rw_weight_balancer.go:109-145 | picks_i(t) never exceeds ceil((t+1)*w_i/W), for every node at every moment |
| SmoothWeighted.ExactFairness | internal/pkg/client/balancer/rw_weight_balancer.go:109-145 | after m*W-1 picks every node has been picked exactly m*w_i times, except exactly one that is one short |
| SmoothWeighted.Periodic | internal/pkg/client/balancer/rw_weight_balancer.go:109-145 | after m*W picks all current weights are back at their start values and node i has had m*w_i picks |
| SmoothWeighted.PicksRepeat | internal/pkg/client/balancer/rw_weight_balancer.go:109-145 | the picker is periodic: t picks after any number of whole periods it is in the same weights as t picks after build |
| Uint32Picker.Run32Congruence | internal/pkg/client/balancer/rw_weight_balancer.go:115-145 | for any number of nodes the uint32 weights stay congruent modulo 2^32 to w_i + t*w_i - W*picks_i |
| Uint32Picker.PicksAgreeIff | internal/pkg/client/balancer/rw_weight_balancer.go:115-145 | where twice the total fits uint32, the uint32 picker makes the integer algorithm's picks for ever exactly when no node is raised below zero in the first W picks |
| Uint32Picker.TwoPickAlike | internal/pkg/client/balancer/rw_weight_balancer.go:115-145 | at most two positive weights always meet that condition |
| Uint32Picker.FourPartWays | internal/pkg/client/balancer/rw_weight_balancer.go:115-145 | with four or more positive weights the two pickers part at some pick |
| Uint32Picker.ThreeOnesAgree | internal/pkg/client/balancer/rw_weight_balancer.go:115-145 | three nodes of weight 1 meet the condition although the first pick wraps |
| Uint32Picker.NeverWrapsIff | internal/pkg/client/balancer/rw_weight_balancer.go:115-145 | the uint32 weights themselves are the integer ones for ever, so that nothing wraps, exactly when at most two weights are positive |
| Uint32Picker.IntegerServesEach | internal/pkg/client/balancer/rw_weight_balancer.go:109-145 | over the integers four nodes of weight 1 are each served once in every four picks |
| Uint32Picker.Uint32Starves | internal/pkg/client/balancer/rw_weight_balancer.go:115-145 | over uint32 the first of four nodes of weight 1 takes every one of the first billion picks |
| RwWeightBalancer.ServiceNode.constructor | internal/pkg/client/balancer/rw_weight_balancer.go:202-213 | both current and both efficient weights start at the configured weights |
| RwWeightBalancer.Balancer.FindCandidates | internal/pkg/client/balancer/rw_weight_balancer.go:94-103 | exactly the entries of the caller's group, in list order and each as often as it is listed; none when no group is named; without repetition when the list has none |
| RwWeightBalancer.Balancer.Pick | internal/pkg/client/balancer/rw_weight_balancer.go:89-145 | the loop's choice and the candidates' new weights for any node list, a node listed twice being visited twice; without repetition exactly one step of the uint32 algorithm; a write request moves write weights only, any other read weights only, and the other nodes are untouched |
| RwWeightBalancer.DistinctIsOneStep | internal/pkg/client/balancer/rw_weight_balancer.go:115-145 | visiting nodes one by one and lowering the selected one is one uint32 step of the rule when no node is listed twice |
| RwWeightBalancer.Balancer.PickTimes | internal/pkg/client/balancer/rw_weight_balancer.go:89-145 | t picks on freshly built nodes leave the weights of the uint32 run after t picks and serve each node as often as it says |
| WeightBalancer.RangesHold | internal/pkg/client/balancer/weight_balancer.go:41-87 | the index ranges in the guards hold back no event of a reachable state: a pick in progress can always go on, a chosen node can always complete |
| WeightBalancer.WeightConservation | internal/pkg/client/balancer/weight_balancer.go:46-87 | for every interleaving of picks and completions at lock granularity, current weights sum to the configured weights plus the partial totals in flight, modulo 2^32 |
| WeightBalancer.QuiescentConservation | internal/pkg/client/balancer/weight_balancer.go:46-87 | with no pick half done the current weights sum to the configured weights modulo 2^32 |
| WeightBalancer.SoloPick | internal/pkg/client/balancer/weight_balancer.go:46-66 | the steps of an uninterrupted pick make the choice and the weights of one uint32 pick |
| WeightBalancer.SoloRun | internal/pkg/client/balancer/weight_balancer.go:41-66 | from any state a pick can begin and run through, with the uint32 choice and weights; other picks stay as they were |
| WeightBalancer.SuccessesRaise | internal/pkg/client/balancer/weight_balancer.go:73-78 | m successes in a row leave the greater of the old efficient weight plus m and twice the weight plus m - 1 |
| WeightBalancer.ErrorsLower | internal/pkg/client/balancer/weight_balancer.go:80-84 | m timeouts lower an efficient weight by m, never below one and never from zero; other errors leave it |
| WeightBalancer.DoneReports | internal/pkg/client/balancer/weight_balancer.go:68-87 | a completion changes the efficient weight of its own node and nothing else |
| WeightBalancer.NoRotationBeforeSuccess | internal/pkg/client/balancer/weight_balancer.go:20-66 | nodes are built without an efficient weight: until a pick completes without an error every pick goes to the first node of greatest weight and no node changes |
| Resource.MaxCntResourceSemaphore.constructor | internal/pkg/job/resource.go:49-54 | no permit is out under the given limit |
| Resource.MaxCntResourceSemaphore.Acquire | internal/pkg/job/resource.go:25-34 | one permit more exactly when the count is below the limit, else no change |
| Resource.MaxCntResourceSemaphore.Release | internal/pkg/job/resource.go:36-41 | one permit fewer |
| Resource.MaxCntResourceSemaphore.UpdateMaxCnt | internal/pkg/job/resource.go:43-47 | the limit alone changes |
| ShardingLoopJob.RangesHold | internal/pkg/job/sharding_loop_job.go:28-107 | the index ranges in the state machine's guards hold back no event of a reachable state: every process is at a table and can go on, every loop can take its phase's step, and a new limit can come at any time |
| ShardingLoopJob.RoundRobin | internal/pkg/job/sharding_loop_job.go:28-71 | in every interleaving Run goes through the tables in order and round again: after v of them, refused or granted, it is v further |
| ShardingLoopJob.SpawnsInTurn | internal/pkg/job/sharding_loop_job.go:28-71 | the loop a process spawns after v tables works table v modulo their number |
| ShardingLoopJob.ClashNeedsOverrun | internal/pkg/job/sharding_loop_job.go:28-132 | with no timing assumption: of two loops inside bizFunc for one table, one has outlived its lease |
| ShardingLoopJob.SafetyIffInsideLease | internal/pkg/job/sharding_loop_job.go:109-147 | at most one process is inside bizFunc for a table in every run exactly when bizFunc with its refresh ends inside the lease |
| ShardingLoopJob.ConfiguredTimeoutUnsafe | internal/pkg/job/sharding_loop_job.go:109-147 | a bound equal to the configured one-minute timeout does not exclude two workers under the one-minute lease; 59,999 ms would |
| ShardingLoopJob.FailedRefreshIsFinal | internal/pkg/job/sharding_loop_job.go:82-130 | a loop whose refresh failed is never inside bizFunc again |
| ShardingLoopJob.CancelledIsFinal | internal/pkg/job/sharding_loop_job.go:115-121 | a loop whose own context had ended when bizFunc returned is never inside bizFunc again |
| ShardingLoopJob.OverdueRefreshFails | internal/pkg/job/sharding_loop_job.go:120-128 | in every reachable state a refresh after the lease has run out can only fail |
| ShardingLoopJob.UnlockLetsIn | internal/pkg/job/sharding_loop_job.go:86-92 | an owner's unlock lets a waiting process in at once; a former owner's leaves the lock to its owner |
| ShardingLoopJob.WindsDown | internal/pkg/job/sharding_loop_job.go:74-107 | a loop that is through unlocks, rests and gives its permit back; its table is free again if the unlock reached while it owned the lock |
| ShardingLoopJob.PermitConservation | internal/pkg/job/sharding_loop_job.go:28-107 | in every reachable state a process's permit count is its live table loops plus one while Run holds one, never negative, never above the largest limit set |
| ShardingLoopJob.LimitIsLast | internal/pkg/job/resource.go:25-47 | a process between tables can take a permit exactly when it holds fewer than the limit last given |
| ShardingLoopJob.NoGrowthAboveLimit | internal/pkg/job/sharding_loop_job.go:31-37 | at or above a lowered limit the count never grows while the limit stands |
| TableWorker.IsJobRun | internal/pkg/job/sharding_loop_job.go:109-132 | every run with the send loop as work is a run of the job, so the results above hold of it |
| TableWorker.HealthyCallsOutliveLeases | internal/service/schedule/sharding/sharding_scheduler.go:45-72 | while no send fails no call ever returns, and a table's lock can be taken exactly when the contexts of all calls made for it are over |
| TableWorker.HealthyClash | internal/pkg/job/sharding_loop_job.go:109-147 | in every run without a failed send, any process waiting at the table of any call is let in exactly when all contexts there are over, at the latest after one lease, and then works beside that call |
| TableWorker.BusyClash | internal/service/schedule/sharding/sharding_scheduler.go:45-72 | a full such run for every number of successful, tested sends that fill the minute evenly |
| TableWorker.ExpiredCallEnds | internal/service/schedule/sharding/sharding_scheduler.go:45-72 | a call makes at most consecutiveThreshold sends past its context while no other loop of its process succeeds, then returns at its next test |
| TableWorker.ExpiredCallGoesOn | internal/service/schedule/sharding/sharding_scheduler.go:45-72 | in a deployment where some process can have two loops, with a rate threshold of 0 or more, there is for every n a run in which a call makes n sends past its context |
| TableWorker.CallsEndIff | internal/service/schedule/sharding/sharding_scheduler.go:45-72 | over the runs of a deployment whose limits stand, the sends a call makes past its context are bounded exactly when no process can have two loops or the rate threshold is negative; then by consecutiveThreshold |
| Snowflake.HashKeyInjective | internal/pkg/snowflake/id_generator.go:60-62 | different business keys give different strings to hash |
| Snowflake.HashKeyParts | internal/pkg/snowflake/id_generator.go:60-62 | the string hashed reads number, ":" and key |
| Snowflake.PackFields | internal/pkg/snowflake/id_generator.go:51-58 | the id is positional in timestamp, hash and counter and stays below 2^63 |
| Snowflake.ExtractPacked | internal/pkg/snowflake/id_generator.go:51-75 | the three extractors give back the three packed fields |
| Snowflake.ExtractTimestampExact | internal/pkg/snowflake/id_generator.go:64-67 | within the 41-bit era the extracted time is the very millisecond |
| Snowflake.IdLayout | internal/pkg/snowflake/id_generator.go:51-58 | within the era an id is milliseconds since 2025-01-01T00:00Z times 2^22, ten hash bits times 2^12, twelve counter bits |
| Snowflake.LaterIsGreater | internal/pkg/snowflake/id_generator.go:51-58 | a later millisecond gives a greater id whatever hash and counter |
| Snowflake.Generator.NextId | internal/pkg/snowflake/id_generator.go:51-58 | the id packs the clock, the hash and the old counter; the counter steps by one modulo 2^64 |
| Snowflake.SameIdIff | internal/pkg/snowflake/id_generator.go:51-58 | two calls of a generator return one id exactly when their times, hashes and positions agree modulo the three field sizes |
| Snowflake.CloseIdsDistinct | internal/pkg/snowflake/id_generator.go:51-58 | ids are pairwise distinct when no two equal readings lie 4096 or more counter steps apart, in whatever order the readings come |
| Snowflake.IdsDistinct | internal/pkg/snowflake/id_generator.go:51-58 | ids are pairwise distinct for serial callers, whose readings come in counter order, with at most 4096 calls per millisecond |
| SnowflakeCallers.ConcurrentIdsDistinct | internal/pkg/snowflake/id_generator.go:51-58 | however concurrent callers interleave between clock and counter, their ids are distinct when equal readings stay less than 4096 steps apart |
| SnowflakeCallers.SteadyIdsDistinct | internal/pkg/snowflake/id_generator.go:51-58 | ... and they do when the steps of one millisecond and those that may overtake a caller number at most 4095 together |
| SnowflakeCallers.SerialReadings | internal/pkg/snowflake/id_generator.go:51-58 | callers nobody overtakes read the clock in counter order |
| SnowflakeCallers.OvertakenCollide | internal/pkg/snowflake/id_generator.go:51-58 | two callers alone in a millisecond get one id when the slower is overtaken 4096 times |
| HashSharding.SameRouteIff | internal/pkg/sharding/hash_sharding.go:23-46 | two hashes have one destination exactly when they agree modulo the number of tables |
| HashSharding.RoutesTo | internal/pkg/sharding/hash_sharding.go:23-46 | the two suffixes are the hash modulo the number of tables, the database running fastest, and the names are prefix, "_" and suffix; of an id the ten bits above the counter are routed |
| HashSharding.IdRoutesLikeKeyIff | internal/pkg/sharding/hash_sharding.go:23-46 | Shard of a key equals ShardWithId of every id made for it exactly when dbSharding*tableSharding divides 1024 |
| HashSharding.ConfiguredCounts | internal/ioc/db.go:78-88 | the configured two databases of four tables meet that condition |
| HashSharding.HashStrategy.BroadCast | internal/pkg/sharding/hash_sharding.go:49-63 | the listing of all tables, database by database |
| HashSharding.BroadcastOrder | internal/pkg/sharding/hash_sharding.go:49-63 | entry i*t + j of the listing is table j of database i, by number and by name |
| HashSharding.BroadcastCovers | internal/pkg/sharding/hash_sharding.go:23-63 | every destination Shard can return is in the broadcast exactly once |
| HashSharding.LockKeysDistinct | internal/pkg/job/sharding_loop_job.go:134-136 | different broadcast entries have different lock keys, whatever the prefixes |
| HashSharding.LockKeyParts | internal/pkg/job/sharding_loop_job.go:134-136 | a lock key reads base, database and table with ":" between them |
| ShardedStore.MintedIsAddressed | internal/repository/dao/notification.go:84-96 | an id minted for a key names, by its bits alone, the notification table of the key's hash under the notification strategy and the callback table of that hash under the callback strategy |
| ShardedStore.CallbackSharesDatabase | internal/repository/dao/notification.go:82-111 | with shared database prefix and count the callback strategy names the notification's database |
| ShardedStore.PutRowRepresents | internal/repository/dao/notification.go:93-97 | writing a row at its home keeps the databases equal to one flat table, updated at that id |
| ShardedStore.PutCbRepresents | internal/repository/dao/notification.go:103-112 | writing a callback row of a stored notification keeps the representation |
| ShardedStore.WhereRowsSit | internal/repository/dao/notification.go:82-111 | every notification is in the database and table the notification strategy names for its key, every callback row in that strategy's database and the callback strategy's table for its id |
| ShardedStore.FoundByIdIff | internal/repository/dao/notification.go:343-359 | the table an id names holds it exactly when the flat table does, with the same row |
| ShardedStore.FoundByKeyIff | internal/repository/dao/notification.go:361-376 | the one table a key names holds every row of the key |
| ShardedStore.VersionGrows | internal/repository/dao/notification.go:424-494 | over any history a row keeps its key and content and its version never falls, and rises at each update |
| ShardedStore.StatusIsLast | internal/repository/dao/notification.go:424-494 | a row carries the status and time of the last operation that put it in or changed it |
| ShardedStore.VersionUsedOnce | internal/repository/dao/notification.go:472-484 | each version of a row is consumed by at most one effective compare-and-swap |
| ShardedStore.SwapIffUntouched | internal/repository/dao/notification.go:472-484 | a compare-and-swap with a version read earlier takes effect exactly when nothing updated the row in between |
| NotificationDao.NotifShardingDAO.Create | internal/repository/dao/notification.go:71-120 | the flat table gains exactly the new row under its new id, stamped with both times and version 1 and otherwise as given, with a fresh "init" callback row if wanted; or nothing changes, for exactly the stated reason |
| NotificationDao.RefusalIff | internal/repository/dao/notification.go:71-120 | which reason a create fails for: database not loaded, else table missing, else id taken, else no table for a wanted callback |
| NotificationDao.NotifShardingDAO.GetById | internal/repository/dao/notification.go:343-359 | the flat table's row of the id, or which of the three reasons there is none |
| NotificationDao.NotifShardingDAO.GetByKey | internal/repository/dao/notification.go:361-376 | the row of least id with that key in the whole flat table; an error only when there is none |
| NotificationDao.NotifShardingDAO.GetMapByIds | internal/repository/dao/notification.go:378-422 | the flat table restricted to the ids, with an error exactly when some id names an unreachable table |
| NotificationDao.NotifShardingDAO.MarkSuccess | internal/repository/dao/notification.go:424-452 | an existing row gets the status, the time and the next version, keeping all other columns, and its callback row becomes "pending" in the same transaction; other rows stay; or nothing changes |
| NotificationDao.NotifShardingDAO.MarkFailure | internal/repository/dao/notification.go:454-470 | an existing row gets the status, the time and the next version, keeping all other columns; other rows stay; an unknown id changes nothing |
| NotificationDao.NotifShardingDAO.CompareAndSwapStatus | internal/repository/dao/notification.go:472-494 | exactly when id and version match the row gets the status, the time and the next version, keeping all other columns; other rows stay |
| NotificationDao.BatchIsInserts | internal/repository/dao/notification.go:144-193 | a batch insert is a history of single inserts of the flat table, so the version results cover batches |
| NotificationDao.NotifShardingDAO.AssignIds | internal/repository/dao/notification.go:208-211 | the rows of one database get addressed ids and nothing else changes |
| NotificationDao.NotifShardingDAO.Exec | internal/repository/dao/notification.go:170-182 | all rows of one database are added under distinct unused ids, or the store is unchanged |
| NotificationDao.NotifShardingDAO.InsertGroup | internal/repository/dao/notification.go:167-183 | retried with new ids until none is taken; a failure leaves the store as it was |
| NotificationDao.NotifShardingDAO.GroupByDb | internal/repository/dao/notification.go:147-157 | every row is in the group of its database, once, in order |
| NotificationDao.NotifShardingDAO.TryBatchInsert | internal/repository/dao/notification.go:144-193 | the store grows by exactly the kept rows; each database's share is kept whole or not at all; without an error all are kept; the error is a missing database exactly when some row's database is not loaded |
| NotificationDao.NotifShardingDAO.BatchCreate | internal/repository/dao/notification.go:122-142 | without an error every notification is stored, stamped column by column, under a new id of its own, with a fresh callback row if wanted; with one, whole databases' shares may be missing; the rows come back, or none exactly when some database is not loaded |
| HashRing.OwnerIsNearest | internal/pkg/client/balancer/consistent_hash_balancer.go:176-185 | the owner on a sorted ring is the virtual node at least clockwise distance modulo 2^32 |
| HashRing.RemoveDisruptsOnlyOwn | internal/pkg/client/balancer/consistent_hash_balancer.go:120-137 | removing an address changes the owner only of hashes it owned, even with hash collisions |
| HashRing.AddMovesOnlyToNew | internal/pkg/client/balancer/consistent_hash_balancer.go:69-95 | adding an address moves hashes only to it when the ring had no two addresses on one hash |
| HashRing.AdditionsAreMinimalIff | internal/pkg/client/balancer/consistent_hash_balancer.go:69-118 | no addition of any address can move a hash between old addresses exactly when no two of them share a ring hash |
| HashRing.RoutingDeterminedIff | internal/pkg/client/balancer/consistent_hash_balancer.go:45-47 | every sorted arrangement of the virtual nodes routes alike exactly when no two addresses share a hash |
| HashRing.ExpectedPermuted | internal/pkg/client/balancer/consistent_hash_balancer.go:45-47 | the multiset of virtual nodes does not depend on insertion order |
| ConsistentHash.SortIndices | internal/pkg/client/balancer/consistent_hash_balancer.go:98-107 | some permutation of the indices that orders the keys, no more |
| ConsistentHash.CHBalancer.AddNode | internal/pkg/client/balancer/consistent_hash_balancer.go:69-95 | the parallel arrays are again sorted and hold exactly the virtual nodes of the live addresses, now with this one |
| ConsistentHash.CHBalancer.SortRing | internal/pkg/client/balancer/consistent_hash_balancer.go:97-118 | ring and nodes are rearranged together into ring order, same virtual nodes |
| ConsistentHash.RingHasPlace | internal/pkg/client/balancer/consistent_hash_balancer.go:84-93 | for every live address and i below the count the arrays hold the hash of address, "#" and i beside that address |
| ConsistentHash.RingEntryIs | internal/pkg/client/balancer/consistent_hash_balancer.go:69-118 | every entry of the arrays is such a virtual node of a live address, and there are count times as many as live addresses |
| ConsistentHash.RingSpread | internal/pkg/client/balancer/consistent_hash_balancer.go:69-118 | when live addresses are different and their virtual nodes hash differently, no two entries share a ring place |
| ConsistentHash.CHBalancer.RemoveNode | internal/pkg/client/balancer/consistent_hash_balancer.go:120-137 | all entries of the address go, the rest keep their order, and the arrays hold exactly the other live addresses; fails exactly on an empty ring |
| ConsistentHash.CHBalancer.GetNodeAddr | internal/pkg/client/balancer/consistent_hash_balancer.go:168-186 | binary search with wrap finds the clockwise owner of a linear scan, "" on an empty ring |
| ConsistentHash.CHBalancer.Pick | internal/pkg/client/balancer/consistent_hash_balancer.go:139-166 | the connection of the owner of the key's hash, or the first applicable error |
| ConsistentHash.Build | internal/pkg/client/balancer/consistent_hash_balancer.go:26-50 | a picker whose ring holds the ready addresses and whose connections are those they came with, or none when nothing is ready or no virtual nodes are configured |
| ConsistentHash.OwnersAreLive | internal/pkg/client/balancer/consistent_hash_balancer.go:152-160 | the owner of any hash is a live address |
| ConsistentHash.HistoryIndependent | internal/pkg/client/balancer/consistent_hash_balancer.go:69-137 | two histories of adds and removes that leave the same addresses leave the same arrays when hashes do not collide |
| ConsistentHash.AddMinimal | internal/pkg/client/balancer/consistent_hash_balancer.go:69-95 | on the balancer's own arrays, adding an address moves hashes only to it |
| ConsistentHash.AddThenRemoveRestores | internal/pkg/client/balancer/consistent_hash_balancer.go:69-137 | removing a freshly added address gives back the very same arrays |
| Quota.Redis.DecrBy | internal/repository/cache/redis/quota.go:47-58 | the raw counter is lowered even below zero and its new value returned |
| Quota.Redis.QuotaIncr | internal/repository/cache/redis/lua/quota_incr.lua:1-16 | a negative counter restarts at the amount, any other is raised by it |
| Quota.Redis.QuotaBatchIncr | internal/repository/cache/redis/lua/quota_bach_incr.lua:1-14 | each key in turn is refunded likewise |
| Quota.Redis.QuotaBatchDecr | internal/repository/cache/redis/lua/quota_bach_decr.lua:1-19 | all keys are lowered when each passes its check; otherwise nothing changes and the first short key is named |
| Quota.RefundGives | internal/repository/cache/redis/lua/quota_bach_incr.lua:1-14 | a refund adds exactly what it says to what is available, whatever the raw counters had drifted to, even with repeated keys |
| Quota.BatchExactIffDistinct | internal/repository/cache/redis/lua/quota_bach_decr.lua:1-19 | for positive amounts the script is an exact all-or-nothing take of an ideal counter on every store exactly when no key repeats |
| Quota.DecrExactIffUnit | internal/repository/cache/redis/quota.go:47-58 | the single decrement is an exact take of an ideal counter on every store exactly when the amount is 1 |
| Quota.RedisKeyInjective | internal/repository/cache/redis/quota.go:82-84 | the business and channel are recovered from the key |
| Quota.RedisKeyParts | internal/repository/cache/redis/quota.go:82-84 | the key reads "quota:", the business number, ":" and the channel |
| Quota.QuotaRedisCache.RedisKeysAndArgs | internal/repository/cache/redis/quota.go:86-94 | keys and amounts of the parameters, position by position |
| Quota.QuotaRedisCache.Incr | internal/repository/cache/redis/quota.go:31-36 | the owner's counter is refunded the amount |
| Quota.QuotaRedisCache.BatchIncr | internal/repository/cache/redis/quota.go:38-45 | all parameters are refunded; none for an empty list |
| Quota.QuotaRedisCache.Decr | internal/repository/cache/redis/quota.go:47-58 | refused exactly when the lowered counter is negative, and lowered all the same |
| Quota.QuotaRedisCache.BatchDecr | internal/repository/cache/redis/quota.go:60-80 | taken in full exactly when every key passes its check; otherwise unchanged, naming the first short key |
| Quota.BuildQuotaParams | internal/repository/notification.go:173-188 | one parameter per owner named, carrying its number of notifications as an int32 |
| Quota.TalliesCharge | internal/repository/notification.go:173-188 | below 2^31 notifications these parameters have distinct keys and positive amounts that together ask one unit per notification |
| NotificationRepo.ChargeKeyIff | internal/repository/notification.go:47-204 | notifications are charged to one counter exactly when business and channel are the same |
| NotificationRepo.DefaultNotifRepo.Create | internal/repository/notification.go:47-100 | one unit of the owner is used exactly when the row is stored; refused exactly when none is available; the raw counter of the notification's business and channel falls by one unless the insert failed, and no other counter moves |
| NotificationRepo.DefaultNotifRepo.BatchCreate | internal/repository/notification.go:103-153 | the units of a batch are used exactly when all its rows are kept: then every raw counter falls by the number of notifications of its business and channel, otherwise none moves though some databases kept their rows; the error tells only of quota, and the notifications returned are the stored rows, or none when a database is not loaded |
| NotificationRepo.KeptAmongCharged | internal/repository/notification.go:103-124 | the rows a failed batch leaves behind are strictly fewer than were charged |
| NotificationRepo.DefaultNotifRepo.MarkFailure | internal/repository/notification.go:194-204 | exactly one unit comes back to the counter of the notification's business and channel, and to no other, whenever the store reports no error, also when there was no such row |
| QuotaProtocol.Conservation | internal/repository/notification.go:47-204 | for every key and interleaving of clients, available + in flight + kept, less the refunds of marks and the rows kept by failed creates, never changes |
| QuotaProtocol.SoloCreate | internal/repository/notification.go:47-100 | a create nobody interrupts is a run of the protocol that leaves the counters `NotificationRepo.DefaultNotifRepo.Create` leaves and keeps one notification or none |
| QuotaProtocol.SoloBatch | internal/repository/notification.go:103-153 | likewise a batch create, with the counters of `NotificationRepo.DefaultNotifRepo.BatchCreate`, whatever rows it leaves behind |
| QuotaProtocol.SoloMark | internal/repository/notification.go:194-204 | likewise a mark with its refund, of a kept notification or of one that never was |
| QuotaProtocol.BalancesIff | internal/repository/notification.go:47-204 | available + in flight + kept and not refunded is what was granted exactly when no notification of the key was refunded twice, none never kept was refunded, and no failed create left a row of it; otherwise it is more |
| QuotaProtocol.NeverOversold | internal/repository/notification.go:47-204 | when marks are proper and failed creates leave nothing, the books of a key balance and it is not oversold |
| QuotaProtocol.DoubleMarkOverpays | internal/repository/notification.go:194-204 | one notification marked twice makes more available than was granted |
| QuotaProtocol.StrayMarkOverpays | internal/repository/notification.go:194-204 | marking failed a notification that was refused for want of quota makes a unit out of nothing |
| QuotaProtocol.LeftRowOversells | internal/repository/notification.go:114-120 | in a failed batch of two over two databases the row that stays is kept without using a unit |
| BitRing.BitRing.constructor | internal/pkg/bitring/bitring.go:112-135 | out-of-range settings fall back; the history starts empty |
| BitRing.BitRing.BitAt | internal/pkg/bitring/bitring.go:54-58 | the stored bit at a position |
| BitRing.BitRing.SetBit | internal/pkg/bitring/bitring.go:60-72 | that bit and no other is set or cleared |
| BitRing.BitRing.Add | internal/pkg/bitring/bitring.go:32-52 | bits, position, fullness and count stand for the history extended by the event |
| BitRing.BitRing.ThresholdTriggering | internal/pkg/bitring/bitring.go:75-103 | true exactly when the last consecutiveThreshold events are all true or the window's share of true events exceeds the rate |
| BitRing.TriggersIff | internal/pkg/bitring/bitring.go:75-103 | for a rate of p/q: the last consecutiveThreshold events are all true, or q times the true events of the window exceed p times its length |
| BitRing.WindowCount | internal/pkg/bitring/bitring.go:36-44 | the count of the sliding window changes by the event that enters less the one that leaves |
| BitRing.FullRateNeedsTail | internal/pkg/bitring/bitring.go:99-102 | a rate threshold of 1 never fires by itself |
| RingBuffer.TimeDurationRingBuffer.constructor | internal/pkg/ringbuffer/ringbuffer.go:75-84 | no samples yet |
| RingBuffer.TimeDurationRingBuffer.Add | internal/pkg/ringbuffer/ringbuffer.go:26-39 | buffer and wrapping sum stand for the samples extended by one |
| RingBuffer.TimeDurationRingBuffer.Avg | internal/pkg/ringbuffer/ringbuffer.go:41-49 | the int64 average of the last min(n, size) samples, truncated towards zero, 0 when there are none |
| RingBuffer.TimeDurationRingBuffer.Reset | internal/pkg/ringbuffer/ringbuffer.go:51-61 | forgets every sample |
| RingBuffer.NewTimeDurationRingBuffer | internal/pkg/ringbuffer/ringbuffer.go:75-84 | a ring exactly for a positive size |
| RingBuffer.SumExactWhenFits | internal/pkg/ringbuffer/ringbuffer.go:30-37 | the ring's sum field is the window's sum exactly when that fits int64, however many earlier sums overflowed |
| RingBuffer.AverageIsQuotient | internal/pkg/ringbuffer/ringbuffer.go:41-49 | average times number of samples falls short of the last samples' sum by less than that number, towards zero |
| RingBuffer.AverageBetween | internal/pkg/ringbuffer/ringbuffer.go:41-49 | for non-negative samples that fit, the average lies within any bounds of the window's samples |
| Adjuster.Adjuster.constructor | internal/pkg/batch/slidewindow/slide_window_adjuster.go:65-89 | the initial size is brought within the bounds |
| Adjuster.Adjuster.Adjust | internal/pkg/batch/slidewindow/slide_window_adjuster.go:30-63 | the sample enters the window and the controller moves as its decision function says |
| Adjuster.KeepsBoundsIff | internal/pkg/batch/slidewindow/slide_window_adjuster.go:45-60 | no adjustment can leave the bounds exactly when the step fits under them, uint64 wraps included |
| Adjuster.MovesAgainstDelay | internal/pkg/batch/slidewindow/slide_window_adjuster.go:36-62 | with a full window and an interval passed since the last adjustment the batch grows exactly on a response faster than the window's average and shrinks exactly on a slower one, while there is room, by the step or to the bound, and the adjustment is stamped |
| Adjuster.AlwaysInBounds | internal/pkg/batch/slidewindow/slide_window_adjuster.go:30-63 | the size stays within its bounds in every run of such a configuration |
| Adjuster.StaysInBoundsIff | internal/pkg/batch/slidewindow/slide_window_adjuster.go:30-89 | for a window of at least two, every run of a controller built within its bounds stays there exactly when the step fits |
| Adjuster.WindowOfOneIsStill | internal/pkg/batch/slidewindow/slide_window_adjuster.go:34-62 | with a window of one response nothing is ever adjusted |
| Adjuster.NoEarlyAdjustment | internal/pkg/batch/slidewindow/slide_window_adjuster.go:34-36 | nothing is adjusted before the window has filled |
| Adjuster.DriftBound | internal/pkg/batch/slidewindow/slide_window_adjuster.go:38-62 | over a period T with an orderly clock the size moves by at most adjustStep*(1 + T/minAdjustInterval) |
| Scheduler.NotifShardingScheduler.Iterate | internal/service/schedule/sharding/sharding_scheduler.go:45-72 | one pass records the outcome, returns exactly when the ring triggers, and otherwise takes the controller's size |
| Scheduler.EveryLoopReturns | internal/service/schedule/sharding/sharding_scheduler.go:45-72 | once every send fails, no call of loop makes more than consecutiveThreshold further iterations, whatever the history, the interleaving and the calls the table job begins anew |
| Scheduler.BoundIsTight | internal/service/schedule/sharding/sharding_scheduler.go:45-72 | with a rate threshold of 1 a call begun anew makes all of its consecutiveThreshold iterations |
| Scheduler.LaterCallsAreSingle | internal/service/schedule/sharding/sharding_scheduler.go:45-72 | after consecutiveThreshold failures in a row, with all later sends failing, every test ends its call |
| Scheduler.RunsAreShort | internal/service/schedule/sharding/sharding_scheduler.go:45-72 | n calls of loop in progress have all returned within n*(2*consecutiveThreshold + 1) sends and tests |
| BizConfCache.CacheKeyInjective | internal/repository/cache/biz_conf.go:26-28 | different businesses have different cache keys |
| BizConfCache.CacheKeyParts | internal/repository/cache/biz_conf.go:26-28 | the key reads "biz_conf:" and the number |
| BizConfCache.BizConfLocalCache.Set | internal/repository/cache/local/biz_conf.go:21-24 | the entry is stored to expire 15 minutes on |
| BizConfCache.BizConfLocalCache.Get | internal/repository/cache/local/biz_conf.go:26-37 | the stored entry up to and including its expiry |
| BizConfCache.BizConfRedisCache.Set | internal/repository/cache/redis/biz_conf.go:22-31 | likewise, or an error and no change when redis is down |
| BizConfCache.BizConfRedisCache.Get | internal/repository/cache/redis/biz_conf.go:33-49 | the stored entry up to and including its expiry, nothing when redis is down |
| BizConfCache.DefaultBizConfRepo.GetById | internal/repository/biz_conf.go:25-59 | answer and both caches are those of the lookup chain, with each tier's own clock reading and failures |
| BizConfCache.AnswersRepeat | internal/repository/biz_conf.go:25-59 | what a call loads or refills is answered again by its instance for 15 minutes whatever the database says, and what it loads into redis by every instance that finds redis up |
| BizConfCache.SoloCall | internal/repository/biz_conf.go:25-59 | the steps of an uninterrupted call do exactly what GetById does, with a clock reading of its own at each cache access and redis up or down at each |
| BizConfCache.StalenessBound | internal/repository/biz_conf.go:25-59 | with any number of instances and any interleaving of their calls, updates, evictions and failures, an answer was the database's within the last 2*(expiry + longest call) |
| BizConfCache.ThirtyMinutes | internal/repository/cache/biz_conf.go:13 | with atomic calls, within the last 30 minutes |
| BizConfCache.AbsenceIsCurrent | internal/repository/biz_conf.go:41-44 | a not-found answer was true of the database during the call itself |
| BizConfCache.BoundIsReached | internal/repository/biz_conf.go:33-40 | for every longest call d a run whose answer was last current exactly 2*(expiry + d) before, so no smaller bound holds |

## Left out

- RwWeightBalancer.Balancer.Pick: its `Done` feedback, which overwrites the current weight, and the builder's node cache.
- WeightBalancer.SoloPick: nodes are values and each locked section is one event; the objects themselves are modelled for the read/write picker.
- `dynamic_weight_balancer.go`: the same algorithm again, writing under a read lock.
- Resource.MaxCntResourceSemaphore.Acquire: the mutex is not modelled; in the job protocol each call is one step.
- ShardingLoopJob.SafetyIffInsideLease: the job is a state machine over values, since its goroutines and lock service are concurrent; context cancellation appears as a bizFunc loop that ends, sleeps as idle time.
- NotificationDao.NotifShardingDAO.InsertGroup: the source retries a taken id without end; here for a given number of attempts, so every run of the source that ends is covered by enough of them.
- NotificationDao.NotifShardingDAO.TryBatchInsert: the database groups, concurrent in the source, are inserted one after another in any order, so their ids do not interleave; when a missing database returns early, the groups already started are taken to have finished.
- NotificationDao.NotifShardingDAO.BatchCreate: the same two points.
- NotificationDao.NotifShardingDAO.Create: SQL errors other than a missing database, table or a taken primary key; callback rows are keyed by their notification, of which they are proved to exist once; column widths, so `version` does not overflow.
- NotificationDao.NotifShardingDAO.CompareAndSwapStatus: the error result, whose test on the affected row count can never hold.
- `BatchUpdateStatus`, `batchMark` and `FindReady`: the first two update other rows than they are given, the last is not implemented.
- ConsistentHash.Build: the balancer map is walked in the order given; xxhash itself and the recursive read lock of `Pick` are not modelled.
- Quota.Redis.DecrBy: redis integers and Lua numbers are unbounded here, and redis calls do not fail.
- NotificationRepo.DefaultNotifRepo.BatchCreate: the conversions between entity and domain; calls are made one at a time.
- QuotaProtocol.Conservation: redis failures, and the refunds of `BatchUpdateStatus`, which for each listed notification act like a mark with its refund.
- BitRing.BitRing.ThresholdTriggering: the rate is an exact real, not a float64.
- TableWorker.CallsEndIff: runs are counted in sends, not in time, what the sends do is left open, and the limits stand.
- Scheduler.NotifShardingScheduler.Iterate: sending itself, sleeping, and errors of the controller, which it never returns; `EveryLoopReturns` starts when every send fails.
- BizConfCache.StalenessBound: JSON encoding, and the sharing of sub-configurations by pointer from the local cache.
- gRPC, etcd registry, configuration, JWT, SMS client, providers, callback retry, time-window strategies, the fixed-step adjuster, round-robin and random balancers: wiring, or members that would only be easy.
