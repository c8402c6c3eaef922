# DePIN uptime monitor: a verified model of the job-to-payout pipeline

The backend of the uptime monitor schedules checks of web sites, hands them to miners, verifies and settles the results,
and pays the miners on chain. This project models that pipeline in Dafny and proves what it keeps: over every interleaving
of its commands, over whole runs, and for every input.

## What is modelled

**Scheduler.** `Registry` is the pool of online nodes with its eviction loop; `RoundRobin` is `MatchBatch`, an imperative
loop proved against a closed form. `SchedulerModel` is the sorted set `scheduler:due`, the monitor rows, the owners'
credits, the tick, the re-sync and the monitor API as a state machine whose steps are single Redis or SQL commands, so a
trace is any interleaving of them. `DispatchSpacing`, `DispatchRates`, `Coverage` and `BoundedFetch` are about all its
traces; `Lookups` says whom its two database queries let through; `SchedulerWitnesses` and `LateArming` are runs in which the harm they allow happens. `SchedulerTick` is the program's
own loops over those commands; its ghost trace is a trace of the machine, and `Dispatching` says what a tick computes.

**Settlement.** `Ledger` is the settlement transaction and the payout procedure on values, `Packets` the packet loop and
all histories of deliveries, `Settlement` the imperative transaction with its rollback, the packet loop and the queue
consumer. `PayoutModel` joins the ledger with the payout worker, command by command and with every way a command or a
submission can fail; `PayoutTheorems` are about all its runs, `PayoutWorker` is the worker's loop, `PayoutWitnesses` a
family of runs that pays again. `Amount` is the way of an amount through two floating-point roundings and truncation,
`AmountExactness` says which amounts survive it, `PayoutAmounts` applies both to the ledger's payouts, and `InstructionData`
is the instruction's bytes. Amounts are whole numbers of 1/10000 token, the scale of the balance columns; the threshold is the
least whole number of those units that is not below the configured one, and is positive.

**Guards and calendar.** `AntiCheat` has the single-use nonce, the fixed-window rate limiter and the latency counter, as
imperative Redis keys and as statements about all traces of calls. `Calendar` and `PartitionCron` are the weekly
partitions: ISO weeks (section 2.2.10 of ISO 8601:2004), names, the create-if-absent loop and the run times.

**Sessions.** `SessionModel` interleaves miner streams, their channels and the dispatcher of `job_queue`;
`SessionTheorems` are about all its runs, `SessionWitnesses` is a run with overlapping sessions, and `SessionServer` is the
program's form of it.

**The whole.** `Pipeline` composes scheduler, nonces, guards, result queue and ledger into one machine, whose scheduler
steps are those of `SchedulerModel`; `PipelineTheorems` carries the bound on dispatches through to settlements.

Classes record every command in a ghost trace or history and their `Valid()` says that the fields are what the trace makes
them, so the theorems about traces hold of every sequence of calls. Faults, replies of Redis, PostgreSQL, RabbitMQ and the
chain, clock readings, and the verdict of a signature check are parameters.

## Findings

- The comment at services/registry.go:97 says that a node can receive several monitors per tick. The result is a map keyed
  by node, so a later pick replaces an earlier one and a node gets the last monitor picked for it
  (`RoundRobin.SmartScheduler.MatchBatch`). The replaced monitors are put off by five seconds with the rest.
- Create writes its row and its score 0 separately. If a re-sync schedules the monitor in between and it is dispatched, the
  late score makes it due again at once. A dispatch is early exactly when it follows such a write
  (`DispatchSpacing.EarlyIff`), which happens at most once in a monitor's lifetime, and every such write can be followed by
  one (`LateArming.LateArmCanBeEarly`).
- A tick removes what its lookup did not find even if a re-sync has added it meanwhile. After a finished re-sync an eligible
  monitor that nothing enabled since is unscheduled exactly when such a removal came last (`Coverage.MissingIff`).
- The update behind Pause and Resume matches the monitor's id alone, that behind Delete the id and the owner.
- The per-check cap of 0.50 token can never bind: the multiplier is capped at 5 first (`Ledger.RewardIsWhole`).
- services/ping_log_service.go:51 calls the processing of a packet atomic. Settlements commit one by one before the logs
  are inserted, so a packet whose insert fails is put back and charges its owners again (`Packets.RedeliveryChargesAgain`).
- A payout is submitted with success at most once, but it reaches the chain more than once exactly when it was put back after
  a submission that had landed although its call reported an error, and landed again (`PayoutTheorems.LandsAgainIff`).
- The amount sent is exact or one raw unit short. Which it is can be told from the amount alone
  (`AmountExactness.SentExactlyIff`): at the default threshold of 10 tokens nothing is ever lost
  (`PayoutAmounts.DefaultThresholdIsExact`), while a payout of 0.0157 token, which a stake of 27 earns at a threshold no
  higher, is sent as 15699999 (`PayoutAmounts.PayoutCanLoseOne`).
- A stream that ends deletes its owner's session entry even when a newer session has replaced it
  (`SessionWitnesses.OverlapHappens`); `SessionTheorems.EntryIff` says exactly when a session keeps its entry.

## Model

| member | source | states |
|---|---|---|
| `Registry.EvictionIsInvisible` | services/registry.go:46-84 | whatever sweeps ran, a node is listed exactly when its last heartbeat in the full history is at most five minutes old, and what is listed is that heartbeat |
| `Registry.MemoryRegistry.TrackHeartbeat` | services/registry.go:46-56 | adds a heartbeat to the history that the pool is proved to be a function of |
| `Registry.MemoryRegistry.Evict` | services/registry.go:72-84 | one sweep, visiting entries in any order, adds an eviction to that history |
| `Registry.MemoryRegistry.GetOnlineNodes` | services/registry.go:58-70 | lists each node once, and exactly those whose last heartbeat ever is fresh |
| `RoundRobin.SmartScheduler.MatchBatch` | services/registry.go:105-141 | picks follow the closed form of first five per domain, j places after the old cursor; each node keeps the last monitor picked for it; all cursors end in closed form; no nodes means no change |
| `RoundRobin.AssignmentStep` | services/registry.go:129-137 | one more pick takes its node from whoever held it and nobody else |
| `RoundRobin.MovedStep` | services/registry.go:129-134 | the pick is where the cursor stood, and the cursor moves one place past it |
| `RoundRobinTheorems.PickOfEach` | services/registry.go:119-137 | the j-th monitor of a domain goes to node (cursor + j) mod n if j is below five, and to none otherwise |
| `RoundRobinTheorems.PicksAreConsecutive` | services/registry.go:119-137 | a batch serves a domain with one run of consecutive places from its cursor |
| `RoundRobinTheorems.BatchesAreConsecutive` | services/registry.go:105-141 | over any sequence of calls of MatchBatch a domain is served by one unbroken run of places, and its cursor stands where the run stopped |
| `RoundRobinTheorems.HitsShare` | services/registry.go:129-134 | a run of places visits each node its share of times, rounded down or up |
| `RoundRobinTheorems.PicksFollowCursor` | services/registry.go:129-134 | only the domain's own cursor matters for its picks |
| `RoundRobinTheorems.Fairness` | services/registry.go:105-141 | over any sequence of calls with listings of one size, a domain's picks of any two places differ by at most one |
| `RoundRobinTheorems.CallsAreFair` | services/registry.go:105-141 | over any stretch of a scheduler's own calls with one listing, a domain's picks of any two nodes differ by at most one |
| `RoundRobinTheorems.NodesHoldDistinctMonitors` | services/registry.go:136 | distinct nodes hold distinct monitors of the batch |
| `RoundRobinTheorems.AssignmentUpperBound` | services/registry.go:119-140 | no more assignments than nodes, nor than monitors the caps let through |
| `RoundRobinTheorems.AcceptedIsTotalTaken` | services/registry.go:122-125 | the monitors let through number the sum over domains of min(5, count) |
| `RoundRobinTheorems.AssignmentLowerBound` | services/registry.go:119-140 | at least min(5, count, nodes) assignments, for every domain |
| `RoundRobinTheorems.SomeoneIsAssigned` | services/registry.go:105-141 | with a node online and a monitor in the batch, someone is assigned |
| `SchedulerModel.SoundRun` | workers/schedular.go:118-223 | in every reachable state all scheduled, armed and fetched ids are those of monitors, intervals keep their floor and a tick began in the past |
| `SchedulerModel.RowsPersist` | db/repositories/monitor.go:81-94 | rows are never dropped, intervals never change and the clock never goes back |
| `SchedulerModel.CreditsBalance` | db/repositories/storage.go:50-64 | over every interleaving an owner has what it began with and bought, less one credit for every check settled, and never spends more than that |
| `SchedulerModel.ArmFollowsInsert` | services/monitor_service.go:49-62 | every arming write belongs to a Create that stored its row before, wrote no score since and was not cut off by a restart |
| `Lookups.WritesFollowLookup` | db/repositories/monitor.go:45-67 | over every interleaving, a tick dispatches or puts off a monitor only if its own lookup saw the row active, undeleted and its owner with credits, and removes one only if it did not |
| `Lookups.FinishedTick` | workers/schedular.go:136-221 | a finished tick removed exactly the fetched members for which one of the three failed at its lookup, and dispatched or put off exactly the others |
| `Lookups.AddsFollowRead` | db/repositories/monitor.go:38-43 | a re-sync adds a monitor only if all three held at its read, and a finished one has offered exactly those |
| `DispatchSpacing.EarlyIff` | services/monitor_service.go:49-62 | a dispatch is early exactly when it is the first after an arming write that came after a dispatch and before the monitor was due, in a tick that began before it was due |
| `DispatchSpacing.Spacing` | workers/schedular.go:128-223 | any two dispatches of a monitor that no Create armed late are at least its interval apart, through pauses, ghost removal, re-syncs and restarts |
| `DispatchSpacing.AtomicIsNotLate` | services/monitor_service.go:49-62 | an arming write directly after its row is never late |
| `DispatchSpacing.EarlyAtMostOnce` | services/monitor_service.go:49-62 | with Create split into its two writes a monitor is dispatched early at most once in its lifetime |
| `DispatchRates.DispatchRate` | workers/schedular.go:170-178 | over every interleaving a span of length L holds at most L div interval + 1 dispatches of one monitor, and one more only if a Create armed it late |
| `DispatchRates.EarlyCountBound` | services/monitor_service.go:49-62 | only a monitor armed late has an early dispatch, and only one |
| `DispatchRates.TotalDispatchRate` | workers/schedular.go:170-178 | over all monitors the same bound, with one more for each monitor armed late |
| `LateArming.LateArmCanBeEarly` | services/monitor_service.go:54-62 | after every late arming write, if the monitor is not deleted and no more are due than a tick fetches, some continuation dispatches it early |
| `SchedulerWitnesses.EarlyDispatchHappens` | services/monitor_service.go:49-62 | a concrete run with an early dispatch |
| `Coverage.MissingIff` | services/schedular_sync.go:12-27 | after a finished re-sync an eligible monitor, not being created and not enabled since, is unscheduled exactly when the last command that removed, added or armed it since removed it |
| `Coverage.RemovedOnlyIfDisturbed` | workers/schedular.go:149-159 | such a removal was decided before the re-sync read |
| `Coverage.MissingOnlyIfEnabledSince` | services/schedular_sync.go:12-27 | so after an undisturbed one an active funded monitor is unscheduled only if its Create is under way or, since the read, lost its arming write, or it was resumed or its owner's empty account topped up |
| `Coverage.SyncKeepsScores` | services/schedular_sync.go:18-24 | a re-sync never moves a score and adds only what it writes |
| `SchedulerWitnesses.ResyncCanMissAResumedMonitor` | workers/schedular.go:143-159 | a concrete run in which a disturbed re-sync leaves a resumed monitor out |
| `BoundedFetch.FetchedInTime` | workers/schedular.go:128-134 | an overdue monitor is fetched before r div 100 + 1 ticks have ended, where r counts the members at or below its score and those an older re-sync under way may still add there, unless a Create arms a monitor |
| `BoundedFetch.RankWithoutSync` | services/schedular_sync.go:12-27 | with no re-sync under way, or one that read the clock after the monitor was due, r counts only the members at or below its score |
| `BoundedFetch.RankFalls` | workers/schedular.go:128-134 | every finished tick that passes it over lowers that count by a whole batch |
| `Dispatching.EffectIsTrichotomy` | workers/schedular.go:149-221 | each fetched member is dispatched, put off or removed, only one of these; none stays due; nothing else moves |
| `Dispatching.DispatchOrderIsIrrelevant` | workers/schedular.go:170-178 | the sorted set after the dispatch loop is the same for every order of visiting the map |
| `Dispatching.TickSettles` | workers/schedular.go:149-221 | removal, dispatch in any order and backoff together give the settled set |
| `Dispatching.EveryDispatchIssuesANonce` | workers/schedular.go:181-189 | each dispatch issues one nonce of its own, living 900 seconds or two intervals, whichever is longer |
| `Dispatching.JobsCarryTheirNonces` | workers/schedular.go:191-207 | exactly the jobs the broker took are queued, each with its monitor, node and nonce, issued now and expiring two intervals later |
| `SchedulerTick.Scheduler.ScheduleTick` | workers/schedular.go:118-223 | a whole tick: its errors, who was matched, the exact new sorted set, nonces and jobs, and the trichotomy of the fetched members; a fetched member stays scheduled exactly if its row is active, undeleted and its owner has credits, and only such are handed out; nothing changes when there is nothing due or a lookup fails |
| `SchedulerTick.Scheduler.RemoveGhosts` | workers/schedular.go:149-159 | removes exactly the fetched members the database did not return |
| `SchedulerTick.Scheduler.DispatchOne` | workers/schedular.go:170-207 | one assignment's effect: the next score, a nonce that expires after 900 seconds or two intervals, whichever is later, and the job if the broker takes it |
| `SchedulerTick.Scheduler.DispatchAll` | workers/schedular.go:168-208 | sends each assignment once, in some order |
| `SchedulerTick.Scheduler.BackOffRest` | workers/schedular.go:210-221 | puts off by five seconds exactly the found monitors without a node |
| `SchedulerTick.Scheduler.Create` | services/monitor_service.go:39-71 | the interval floor, the errors, the row and the arming write, and that a failed arming is no error |
| `SchedulerTick.Scheduler.Pause` | services/monitor_service.go:113-119 | the monitor is no longer eligible, others keep their rows |
| `SchedulerTick.Scheduler.Resume` | services/monitor_service.go:121-127 | a funded, undeleted monitor is eligible again, others keep their rows |
| `SchedulerTick.Scheduler.UpdateActive` | db/repositories/monitor.go:81-84 | flips the flag of an undeleted row, whoever owns it |
| `SchedulerTick.Scheduler.Delete` | db/repositories/monitor.go:91-94 | soft deletion by the owner only; anyone else's call changes nothing |
| `SchedulerTick.Scheduler.SyncSchedulerState` | services/schedular_sync.go:12-27 | adds at the current time only absent monitors that are active, undeleted and funded, moves no score, and leaves every such monitor scheduled if its pipeline ran to the end |
| `SchedulerTick.Scheduler.CallsKeepSpacing` | workers/schedular.go:118-223 | after any calls no two dispatches of a monitor lie within its interval |
| `Ledger.RewardIsWhole` | solana.sql:60-67 | the reward is a whole number of units in [100, 500], so storing it loses nothing and the 0.50 cap never binds |
| `Ledger.RewardMonotone` | solana.sql:60-67 | more stake never earns less |
| `Ledger.SettleKeepsBooks` | solana.sql:60-84 | a settlement keeps, for every runner, earned = balance + payouts, 0 <= balance < threshold and payouts in [threshold, threshold + 500) |
| `Ledger.PayoutClosedForm` | solana.sql:60-84 | from balance zero n equal rewards r make n div c payouts of c r and leave r (n mod c), with c the least number of rewards reaching the threshold |
| `Ledger.ChecksPerPayoutIsLeast` | solana.sql:75-79 | c rewards reach the threshold and c - 1 do not |
| `Packets.EveryChargeIsAccounted` | services/ping_log_service.go:60-83 | whatever fails, every owner, monitor and runner account moves by exactly the results charged, only results of known, named monitors are charged, only charged ones logged, and no credits fall below zero |
| `Packets.FirstComeFirstServed` | services/ping_log_service.go:60-112 | without errors exactly the first min(credits, results) results of every owner are charged and logged, in order |
| `Packets.ClaimsOfServed` | db/repositories/storage.go:50-64 | an owner is charged min(credits, claims) times |
| `Packets.ChargedAreLogged` | services/ping_log_service.go:71-111 | unless a commit's reply is lost, exactly the charged results are logged |
| `Packets.LogsNeverExceedCharges` | workers/result_processor.go:94-103 | over all deliveries logs written are at most credits charged, and equal exactly when no insert failed for a packet that charged anything |
| `Packets.CreditsConserved` | db/repositories/storage.go:50-64 | over all deliveries the credits charged are exactly those all owners lost |
| `Packets.HistoryKeepsBooks` | solana.sql:48-88 | the runners' books balance after any history of deliveries |
| `Packets.RedeliveryChargesAgain` | workers/result_processor.go:94-100 | n failed inserts of one packet charge min(credits, n times results) and write no log |
| `Settlement.Storage.CreatePayoutEventIfThreshold` | solana.sql:48-88 | the new runner row and event, the reported values, and the row of NULLs for an unknown runner |
| `Settlement.Storage.ProcessJobSettlement` | db/repositories/storage.go:37-95 | all or nothing: settled as a whole, or no trace; an unknown monitor or runner and missing credits are errors |
| `Settlement.Storage.ProcessPacket` | services/ping_log_service.go:52-121 | ledger and error are those of the packet's outcome; each log row carries its result's monitor, timing, status and success, the packet's runner and the result's time if it has one; blank monitors are skipped |
| `Settlement.ResultProcessor.Handle` | workers/result_processor.go:70-104 | exactly one verdict per delivery: dropped if malformed, put back if its logs were not inserted, else acknowledged |
| `Settlement.ResultProcessor.StoreIsConsistent` | workers/result_processor.go:64-105 | after any deliveries log rows are at most the credits lost, and the books balance |
| `PayoutTheorems.Conservation` | workers/solana_sync.go:46-76 | in every reachable state earned = balance + pending + processing + done, 0 <= balance < threshold, payouts are bounded, and successful submissions are at most processing + done |
| `PayoutTheorems.AtMostOnce` | workers/solana_sync.go:46-76 | after a successful submission a payout is never fetched, marked, submitted or put back again |
| `PayoutTheorems.SendFollowsMark` | workers/solana_sync.go:46-57 | every submission follows the reported mark of its own event, with no other command of the worker and no crash in between |
| `PayoutTheorems.DoneIsTerminal` | db/repositories/solana.go:105-114 | a done payout was sent and never changes |
| `PayoutTheorems.RetriesCountReturns` | db/repositories/solana.go:116-126 | the retry counter is the number of effective returns to pending |
| `PayoutTheorems.LandingsExact` | workers/solana_sync.go:55-66 | a payout reached the chain once for every put-back after a silent landing, and once more if it landed since |
| `PayoutTheorems.LandsAgainIff` | workers/solana_sync.go:55-66 | it reaches the chain more than once exactly when it was put back after a silent landing and landed again afterwards |
| `PayoutTheorems.BooksStep` | solana.sql:48-88 | every step of ledger and worker keeps the books of every runner |
| `PayoutTheorems.EventsPersist` | db/repositories/solana.go:96-126 | amounts and payees never change, done events never change, sent events stay sent |
| `PayoutTheorems.WorkerStep` | workers/solana_sync.go:33-76 | what every step keeps: only pending payouts lie ahead of the worker, the one in hand is processing, done implies sent |
| `PayoutWitnesses.RetriesCanPayAgain` | workers/solana_sync.go:55-66 | a run for every n in which one payout lands n times |
| `PayoutWorker.Worker.ProcessBatch` | workers/solana_sync.go:46-76 | every event of the batch ends as its commands' outcomes say, no other event is touched |
| `PayoutWorker.Worker.ProcessEvent` | workers/solana_sync.go:46-76 | mark, submit, and mark done or pending again, with each failure's effect |
| `PayoutWorker.Worker.MarkProcessing` | db/repositories/solana.go:96-103 | the status write and the worker's next position, also when the reply is lost |
| `PayoutWorker.Worker.ExecuteRewardTx` | workers/solana_sync.go:147-160 | a signature is returned exactly when the submission succeeded, and the event is then remembered as sent |
| `PayoutWorker.Worker.MarkDone` | db/repositories/solana.go:105-114 | status and signature are written unless the command failed, and the worker goes on either way |
| `PayoutWorker.Worker.MarkPendingAgain` | db/repositories/solana.go:116-126 | status and retry counter are written unless the command failed, and the worker goes on either way |
| `PayoutWorker.Worker.FetchPending` | db/repositories/solana.go:67-95 | the worker takes up the oldest pending events in order, at most ten |
| `Amount.ConversionLosesAtMostOne` | workers/solana_sync.go:113-114 | below 2^51 raw units the amount sent is exact or one short |
| `AmountExactness.SentExactlyIff` | workers/solana_sync.go:113-114 | the amount sent is one raw unit short exactly when, in whole numbers computed from the amount alone, the product's exponent is 29 above the amount's and rounding the amount to a double cut off more than 2684 and at most 5000 of 10000 parts of its last place; it is exact otherwise |
| `AmountExactness.ScaleExists` | workers/solana_sync.go:113-114 | every amount in range has the scale the guard speaks of |
| `AmountExactness.ScaleIsUnique` | workers/solana_sync.go:113-114 | and only one |
| `Amount.ConversionCanLoseOne` | workers/solana_sync.go:113-114 | 0.0157 token is sent one raw unit short |
| `Amount.ConversionIsDefined` | workers/solana_sync.go:113-114 | every amount in range is converted |
| `PayoutAmounts.PayoutsConvert` | workers/solana_sync.go:113-114 | for thresholds up to 2251799.7636 tokens every payout of every run is sent exactly if its amount survives, and one raw unit short otherwise |
| `PayoutAmounts.DefaultThresholdIsExact` | config/env/env.go:53 | at the default threshold every payout of every run is sent exactly |
| `PayoutAmounts.PayoutCanLoseOne` | workers/solana_sync.go:113-114 | a run of the ledger pays 0.0157 token, and it is sent one raw unit short |
| `InstructionData.PackData` | workers/solana_sync.go:116-119 | the 16 bytes are the discriminator and the amount, lowest byte first |
| `InstructionData.ByteAt` | workers/solana_sync.go:119 | byte i of the packed amount is its i-th digit to the base 256 |
| `InstructionData.DecodeOfEncode` | solana/solana_client.go:119 | reading packed bytes gives the number modulo 256^n |
| `InstructionData.EncodeOfDecode` | solana/solana_client.go:119 | packing what was read gives the same bytes |
| `InstructionData.PackedAmountValidates` | solana/solana_client.go:103-125 | the integrity check accepts a packed instruction exactly for its amount |
| `InstructionData.ValidIff` | solana/solana_client.go:103-125 | over all instruction lists, the check accepts exactly those whose first instruction has 16 bytes and the amount in bytes 8 to 15, lowest first |
| `AntiCheat.ConsumedAtMostIssued` | anticheat/validator.go:15-20 | no more nonces are consumed than were issued |
| `AntiCheat.ConsumesIff` | anticheat/validator.go:15-20 | a presentation is accepted exactly if the nonce was issued before with an expiry still to come, and neither presented nor reissued in between |
| `AntiCheat.SingleUse` | anticheat/validator.go:37-54 | a nonce issued once is consumed only by its first presentation after its issue |
| `AntiCheat.StoredSince` | anticheat/validator.go:15-20 | a nonce is stored exactly when it was issued and neither presented nor reissued since |
| `AntiCheat.RateAcceptsIff` | anticheat/validator.go:102-111 | a call passes exactly when fewer than max calls came before it since its one-minute window was opened |
| `AntiCheat.RateBound` | anticheat/validator.go:102-111 | any j minutes, ends included, see at most (j + 1) max accepted calls |
| `AntiCheat.WindowsAreFull` | anticheat/validator.go:102-111 | every window lets at most max calls through and windows do not overlap |
| `AntiCheat.LatencyAcceptsIff` | anticheat/validator.go:113-119 | a submission passes exactly when it is among the first ten of its value or a break of five minutes is among the last ten |
| `AntiCheat.ManyNeedABreak` | anticheat/validator.go:113-119 | more than ten acceptances of one value imply a break of five minutes between two submissions of it |
| `AntiCheat.Validator.ValidateTaskNonce` | anticheat/validator.go:37-54 | accepts exactly a nonce issued with an expiry still to come and untouched since, and deletes it; a blank one is refused unread |
| `AntiCheat.Validator.CheckRateLimit` | anticheat/validator.go:102-111 | accepts exactly when fewer than max calls of the node came before in its window |
| `AntiCheat.Validator.DetectFakeLatency` | anticheat/validator.go:113-119 | accepts exactly when ten or fewer submissions of the value came since the last break of five minutes |
| `AntiCheat.Validator.IssueNonce` | workers/schedular.go:184-189 | stores a nonce with its time to live |
| `Calendar.IsoWeekInjective` | workers/partition_cron.go:52-53 | distinct Mondays have distinct ISO weeks, over all dates |
| `Calendar.WeekOneHasJanuaryFourth` | workers/partition_cron.go:52 | week 1 of a year is the week of its fourth of January |
| `Calendar.NameInjective` | workers/partition_cron.go:52-53 | distinct Mondays have distinct partition names |
| `Calendar.NextWeek` | workers/partition_cron.go:49-52 | weeks count up and begin again at 1 after week 52 or 53 |
| `Calendar.SchemaNamesAgree` | schema.sql:76-79 | the four partitions created by the schema carry the names the cron gives those weeks |
| `PartitionCron.PartitionTable.EnsurePartitions` | workers/partition_cron.go:40-82 | fails only where the database does; tables stay aligned and disjoint; exactly the weeks created are added, four in a completed run, those before a failed create, and one more if only its index failed |
| `PartitionCron.PartitionTable.CreateIfAbsent` | workers/partition_cron.go:55-66 | a taken name is skipped, an overlap refused |
| `PartitionCron.NameTellsWeek` | workers/partition_cron.go:55-66 | create-if-absent never meets an overlap and never skips a week that is not there |
| `PartitionCron.AlignedIsDisjoint` | workers/partition_cron.go:49-62 | partitions named after their Mondays never overlap |
| `PartitionCron.WithWeeksCovers` | workers/partition_cron.go:48-80 | after creating n weeks exactly the old days and those weeks have partitions |
| `PartitionCron.MondayOfIs` | workers/partition_cron.go:42-46 | the program's arithmetic finds the Monday of the current week |
| `PartitionCron.NextRunIs` | workers/partition_cron.go:85-97 | the next run is at 00:05 of the Monday after the current week |
| `PartitionCron.RunWeek` | workers/partition_cron.go:15-37 | run i works in the i-th week after the first |
| `PartitionCron.CoveredIff` | workers/partition_cron.go:15-82 | an instant has a partition exactly when it had one before the first run or some run due by then created its week |
| `PartitionCron.SchemaIsAligned` | schema.sql:76-79 | the partitions the schema creates fit the scheme, so runs may start from them |
| `PartitionCron.CoveredThroughTwoFailures` | workers/partition_cron.go:15-82 | if the first run completes and never three runs in a row fail, every instant is covered |
| `PartitionCron.MondayMorningIff` | workers/partition_cron.go:95 | the first five minutes of a week are covered exactly when they were before the first run or one of the last three runs got far enough, and its own run ends a gap |
| `SessionTheorems.SessionsSound` | grpc/server.go:131-236 | every map entry belongs to an authenticated session of its key that has not left the map; channels, order and verdicts are sound |
| `SessionTheorems.DispatchStep` | grpc/server.go:420-482 | every step keeps jobs in queue order, exclusive to one session, and acknowledged exactly when pushed |
| `SessionTheorems.MapClosedForm` | grpc/server.go:182-198 | an owner's entry is its last registration unless any of its sessions left afterwards |
| `SessionTheorems.MapIsLiveSessions` | grpc/server.go:182-198 | without overlapping sessions the map is exactly the sessions that registered and have not left |
| `SessionTheorems.EntryIff` | grpc/server.go:182-198 | a session in the map is its owner's entry exactly when no other session of the owner entered or left the map since it registered |
| `SessionTheorems.OlderExitRemovesNewer` | grpc/server.go:194-198 | with an overlap the older session's exit removes the newer one |
| `SessionWitnesses.OverlapHappens` | grpc/server.go:182-198 | a concrete run that ends with a live session whose owner has no entry |
| `SessionTheorems.SettledExactlyOnce` | grpc/server.go:420-482 | a handled job was acknowledged exactly when one session of its owner got it, and only that one |
| `SessionTheorems.SentInOrder` | grpc/server.go:206-218 | what a session is sent is a beginning of what its channel took, which are its owner's jobs in queue order; channels hold at most 64 |
| `SessionServer.MonitorServiceServer.Open` | grpc/server.go:131-191 | the handshake's outcomes, and the map entry of an established session |
| `SessionServer.MonitorServiceServer.Close` | grpc/server.go:193-203 | deletes the owner's entry, whichever session it points to |
| `SessionServer.MonitorServiceServer.Bridge` | grpc/server.go:206-218 | sends the oldest message or stops; nothing is reordered or invented |
| `SessionServer.MonitorServiceServer.DispatchNext` | grpc/server.go:420-482 | one verdict per delivery, and exactly when it acknowledges a job the channel takes it |
| `Pipeline.Gate.HandleProbeResult` | grpc/server.go:274-376 | a result is published exactly if it is signed and taken, its nonce is live, at most 600 calls are in the node's window and its latency is not too uniform; without a signature nothing is published or counted; the packet names the owner and carries the job's monitor and the result's own fields |
| `Pipeline.PresentIs` | grpc/server.go:283-309 | every refusal's exact condition, and that each check leaves its trace only when those before it passed |
| `Pipeline.MonitorOfJob` | grpc/server.go:321-325 | the monitor of a job id is recovered from it |
| `Pipeline.MonitorOfIs` | grpc/server.go:321-325 | the monitor of any job id is its beginning up to the first colon |
| `PipelineTheorems.Chain` | grpc/server.go:282-375 | settled <= accepted + put back, accepted <= nonces consumed <= nonces issued = dispatches |
| `PipelineTheorems.EndToEnd` | workers/schedular.go:170-208 | over every run, checks settled are at most the sum over monitors of length div interval + 1, plus one for each monitor armed late and one for each packet put back |
| `PipelineTheorems.SchedulerWithin` | workers/schedular.go:118-223 | the scheduler inside the pipeline runs like the scheduler alone, settlements being charges |
| `PipelineTheorems.NonceLetsOneThrough` | anticheat/validator.go:15-20 | no nonce lets two results through |
| `PipelineTheorems.NonceLasts` | workers/schedular.go:184-189 | over every run, the first presentation of a dispatch's nonce gets past the nonce check exactly if it comes within 900 seconds or two intervals of the dispatch |
| `PipelineTheorems.ConsumeIs` | workers/result_processor.go:94-104 | a packet stays at the head of the queue exactly when its check was settled, its log prepared and not inserted; the ledger settles the check or is unchanged |

## Left out

- HTTP controllers, router, JWT, users and the REST submission path: request handling without state of its own.
- Ed25519, SHA-256, program addresses and Solana RPC: a signature check is a boolean, a submission an outcome.
- JSON, protobuf, AMQP reconnection, keepalives and logging: messages are datatypes, queues are sequences.
- `cleanDomain`: a row carries the cleaned domain of its URL, which is opaque.
- Several scheduler or payout worker instances: one of each, as the program starts them.
- Redis writes of a tick fail silently in the source; here they succeed, except the arming write of a Create, the re-sync's
  pipeline and the fetch.
- The latency counter ignores a failing INCR and would then accept; Redis calls of the guards succeed here.
- Several runner rows with one owner_pubkey, and overflow of NUMERIC(12,4).
- Redelivery by the broker on its own, after a lost connection, for `processing_queue` and `job_queue`; a packet put back by
  the consumer is modelled.
- PipelineTheorems.EndToEnd: counts over the whole run and all monitors together, because a nonce is not tied to its job in
  the source and so no single job bounds a result.
- Settlement.ResultProcessor.Handle: a message put back returns to the head of the queue; with several prefetched messages
  the broker may place it elsewhere, which no property proved here depends on.
- The index creation of a partition appears only as a way a run can fail; dates are day numbers, not their printed form.
- `UptimePercentage`, `AvgLatencyUs`, `accumulate_runner_reward`, the Telegram credits, `FinalizeSync`, `RecordSync`,
  `PushJobBatch` and the heartbeat inside a stream: aggregates, legacy, or not on this path.
