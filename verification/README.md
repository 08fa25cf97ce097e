# QuantLab verification

A Dafny model of QuantLab, a genetic-algorithm backtest engine with a live
trading control plane, and proofs of the properties the system depends on.
`dafny verify dfyconfig.toml` checks all of it.

| file | what it models |
|---|---|
| `ResultPkg.dfy` | window results, the in-sample validator as a grammar acceptor, aggregation |
| `Ranking.dfy`, `Convergence.dfy`, `Breeding.dfy`, `Engine.dfy` | the comparison, the stagnation state machine, tournaments and breeding, and the epoch: reused arrays, worker pool, elite carry-over |
| `Wire.dfy`, `Idempotency.dfy`, `SubmitOnce.dfy`, `Client.dfy` | the agent: frames, the dedupe table, order intake as a step system, and the handlers that refine it |
| `FillLedger.dfy`, `FillStore.dfy` | both fill channels as a step system, and the server's handlers over the execution table |
| `KillLatch.dfy`, `FrozenAgent.dfy`, `AutoFreeze.dfy`, `FreezeRace.dfy` | the durable kill latch over audit rows, handshakes and pushes, order intake on top of it, the drift debounce that writes it, and that debounce under reports handled at once |
| `Bootstrap.dfy`, `GhostDca.dfy`, `BarSim.dfy` | the bootstrap stress test, the passive baselines with friction, the research simulator |
| `Crucible.dfy`, `Ingest.dfy` | window slicing and the plan, pagination, import and gap detection |
| `Moments.dfy`, `Cscv.dfy` | fused against separate moments over arbitrary float operations, block statistics against direct ones |
| `EpochLaws.dfy`, `ScoreLaws.dfy`, `BootstrapLaws.dfy`, `DcaLaws.dfy`, `SimLaws.dfy`, `MomentsLaws.dfy`, `ImportLaws.dfy` | what the results of those components mean, stated without the functions they are computed with |
| `Common.dfy`, `Reals.dfy` | options and fault sequences; products and quotients of reals |

Protocols are step systems: a step carries every choice of the environment
(which handler runs, what fails, what is lost or duplicated), a run is a
sequence of steps, and the state after it is a function of the sequence. The
handlers of the agent are methods whose contracts say which steps they are;
the handler loop of the server is proved to be one schedule of its steps.
Loops and objects that the program updates in place are methods and classes
proved against functions, and the theorems are lemmas about those functions.

Strategies, exchanges, random draws and failures are arbitrary, but fixed in
advance: an object carries the outcome of its k-th statement, send, draw, clock
reading or context poll as a function, and logs what it issues. What a method
returns and leaves behind is therefore determined by its inputs.
Tables are maps or sequences under the unique keys of the schema; a failed
statement changes nothing. Amounts, prices and scores are reals, except in
`Moments.dfy`, where a float is its bits and its operations are arbitrary
functions constrained only by the named laws. Times are unbounded integers.

## Where the program and its comments differ

The model follows the program.

- `internal/agent/tradecommand.go:37-40` says the frozen latch clears only on a process restart. A resume push and `auth_ok` clear it too, and a restart clears it only until the next handshake.
- `internal/agent/handshake.go:138-142` says every `auth_fail` code is fatal; `environment_mismatch` is not in the list of `isFatalAuthCode` and is retried.
- `cmd/saas/agentmsg.go:459-462` says fill recovery leaves the order status untouched; a pending order is moved to partially filled.
- `internal/repository/trade.go:147` checks a fill without a trade id against rows of either kind, while the unique index for the millisecond key covers only rows without one. A row with a trade id can therefore mask a fill without one; `FillLedger.UnmixedDecides` states exactly when that cannot happen.
- `internal/engine/convergence.go:101-110` says an improvement is at least the delta; the comparison is strictly more than the delta.
- `internal/data/binance_api.go:92` describes a half-open range, while pagination passes the month's last millisecond as an inclusive bound. `Ingest.Honest` reads it as inclusive; no bar opens on that millisecond.
- `internal/fitness/ghost_dca.go:166` says the drawdown is always in [0, 1]. It exceeds 1 exactly when the path falls below zero after it was above, which means a negative close after the first injection: `GhostDca.DrawdownInRange`, `GhostDca.DrawdownWithinOne`, and an input in `GhostDca.DrawdownLeavesRange`.

## Model

| member | source | states |
|---|---|---|
| `Engine.Engine.EvaluatePopulation` | internal/engine/engine.go:459-514 | under every interleaving of the workers: the genes handed to Evaluate are slots from nSkip on, none twice, and on success all of them, each slot then holding its own gene's score and raw result; the slots below nSkip are untouched, and it fails exactly on a cancellation or reset failure met or an evaluated gene that is not evaluable |
| `Engine.Engine.WriteStep` | internal/engine/engine.go:500-504 | the two array writes of a worker keep the pool invariant although other workers run between them |
| `Engine.Engine.EvaluateStep` | internal/engine/engine.go:483-499 | a worker evaluates its gene exactly when the context is not cancelled and the reset works, and fails exactly on a cancelled context, a failed reset, or a gene that does not evaluate to a valid cascade |
| `Engine.Engine.RankGeneration` | internal/engine/engine.go:304-321 | the reused fingerprint and order arrays end up as this generation's fingerprints and the stable best-first order |
| `Engine.Engine.SaveElites` | internal/engine/engine.go:341-347 | the scratch buffers hold the elites' own results before anything is overwritten |
| `Engine.Engine.RestoreElites` | internal/engine/engine.go:352-358 | after the copy back, each elite slot of the new population holds its own gene's result |
| `Engine.Engine.NextGeneration` | internal/engine/engine.go:341-363 | the new generation is the elites and the children of the next draws; carried-over and fresh results together agree with evaluating every gene of it, and the genes handed to Evaluate are exactly those behind the elites |
| `Engine.Engine.LeaderBeatsHistory` | internal/engine/engine.go:303-366 | the leader of a generation is no worse than every gene of every earlier generation |
| `Engine.Engine.Evolve` | internal/engine/engine.go:297-366 | the generation loop keeps cache, lineage, the list of evaluated genes, its length and the Fatal count exact, breeds every generation from the one stream of draws, and ends only by MaxGenerations or stagnation |
| `Engine.Engine.RunEpoch` | internal/engine/engine.go:205-401 | the returned gene is no worse than every gene handed to Evaluate, those are the first generation and then everything behind the elites, each slot once, EvaluationsTotal is their number, PopSize and k more for every later generation, where k is the least count no less than PopSize times 1 - EliteRatio (`BredCount`); one more call re-evaluates the winner; score, fingerprint, raw result, Generations and the Fatal count are its own; it fails exactly on bad arguments, a fault met or a bad evaluation |
| `Engine.Engine.ResultsAgree` | internal/engine/engine.go:455-458 | two epochs that finish on the same draws return the same result from the same evaluations, whatever the workers' schedules and however many of them there are |
| `EpochLaws.EvaluationsMean` | internal/engine/engine.go:205-401 | the evaluations of a finished epoch are exactly the sampled generation and the last k slots of every later one, and FatalEvaluations is how many of them came back Fatal |
| `EpochLaws.SlotsMean` | internal/engine/engine.go:523-546 | every later slot is an elite in rank order or a mutated crossover of two winners of TournamentSize draws each, from draws at a stated place of the one stream, under the mutation knobs the bests so far call for |
| `EpochLaws.FirstIsSampled` | internal/engine/engine.go:241-244 | the first generation is what the strategy samples from the first PopSize draws |
| `EpochLaws.WeightsRise` | internal/engine/engine.go:124-131 | the window weights are 1 to 4 tenths in order of length and 1 in all |
| `Breeding.TournamentSelect` | internal/engine/engine.go:550-563 | uses exactly TournamentSize draws (at least one) and returns the index the fold over those draws leaves standing, the first best of them |
| `Breeding.WinnerWins` | internal/engine/engine.go:550-563 | that index is the candidate of one of the draws, no worse than every other candidate and strictly better than every earlier one |
| `Breeding.ProduceNextGeneration` | internal/engine/engine.go:523-546 | the new population is the elites in rank order, then one mutated crossover of two tournament winners per slot, over consecutive draws |
| `Breeding.CalcEliteCount` | internal/engine/engine.go:146-156 | one elite when n times the ratio is below one, n when it is n or more, otherwise the whole part of it |
| `Convergence.ConvergenceState.Observe` | internal/engine/convergence.go:67-99 | observing a generation is the specified state change, and asks to stop exactly when the patience is used up |
| `Convergence.CounterMeasuresStagnation` | internal/engine/convergence.go:67-119 | after any history the counter is the distance to the generation that set the best, and nothing since beats it by more than the delta |
| `Convergence.StopMeansStagnation` | internal/engine/convergence.go:94-97 | a first stop after generation t means at most delta gained over generation t minus patience, or no value so far |
| `Convergence.RampLawExact` | internal/engine/convergence.go:84-93 | the live mutation knobs are min(base times factor to the count, cap) on every history if and only if the bases are within their caps |
| `Convergence.KnobsMean` | internal/engine/convergence.go:67-99 | under every configuration each live knob is its base where no ramp is configured or the last generation improved, and otherwise the smaller of base times factor to the count and the cap |
| `Ranking.TotalPreorder` | internal/engine/engine.go:565-580 | the comparison with its fingerprint tie-break is total, antisymmetric in sign and transitive |
| `Ranking.FitnessPreorder` | internal/quant/compare.go:18-36 | CompareFitness alone is a total preorder on comparable totals |
| `Ranking.StableOrderSorts` | internal/engine/engine.go:311-319 | the order is a permutation of the indices, sorted, ties in index order |
| `ScoreLaws.BetterMeans` | internal/engine/engine.go:565-580 | a value ranks before a Fatal score, the higher of two values first, and of two Fatal scores the fingerprint that comes first character by character |
| `ResultPkg.ValidateForIS` | internal/resultpkg/validate_raw.go:22-97 | accepts exactly the cascade sequences: valid windows, strictly increasing, all normal or normal up to one Fatal and then skipped by it |
| `ResultPkg.ThreeStates` | internal/resultpkg/validate.go:23-52 | a window result passes exactly when it is in one of the three states normal, skipped, Fatal and its enumerations are known |
| `ResultPkg.AcceptedLength` | internal/resultpkg/validate_raw.go:22-97 | an accepted sequence has one to four windows |
| `ResultPkg.AggregateScoreTotal` | internal/fitness/aggregate.go:34-69 | the loops compute the penalised weighted total of the scored windows, or Fatal |
| `ResultPkg.AcceptedTotal` | internal/fitness/aggregate.go:34-69 | on accepted input the total is Fatal exactly when a Fatal window exists and otherwise has a value, so comparing never reads a missing one |
| `ScoreLaws.AggregateMeans` | internal/fitness/aggregate.go:34-69 | without a Fatal window the total is the weighted sum of the scores not skipped, less lambda times the root of their population variance once there are two, with the variance given by count, sum and squares |
| `SubmitOnce.StepKeepsInv` | internal/agent/tradecommand.go:23-211 | every atomic step, crash, restart and purge keeps: each order ever taken in still has its row or is past every deadline its replays may carry |
| `SubmitOnce.NoDoubleSubmit` | internal/agent/tradecommand.go:23-128 | over every run no order id reaches the exchange twice when replays carry a deadline within the retention of first intake |
| `SubmitOnce.DeadlineDecides` | internal/agent/tradecommand.go:55-69 | for a command the gate lets through, no run of replays can double it if and only if its deadline is set and within the retention |
| `SubmitOnce.UncoveredDeadlineDoubles` | cmd/agent/main.go:64-72 | with any other deadline: submit, crash, wait out the retention, purge, replay, submit again |
| `Client.StartupPurge` | cmd/agent/main.go:64-72 | process start removes exactly what the restart step of the model removes, or nothing when the purge fails |
| `Client.Client.Intake` | internal/agent/tradecommand.go:23-103 | dedupe, freeze, expiry and decimal checks in this order; what does not pass is answered with its verdict and nothing else changes |
| `Client.Client.HandleTradeCommand` | internal/agent/tradecommand.go:16-212 | one command is a run of the atomic steps starting with its delivery; it is submitted once exactly when the gate passes and its pre-record was stored, and what is sent, buffered and written is the function of the exchange's answer to that submission and of the last statement's outcome; case by case it says which command is answered with what, a deadline is checked against both clocks before anything is submitted, and the table row after it is settled by the answer; buffer and frames together are one observation of the fill ledger, buffered errors stay |
| `Client.GateMeans` | internal/agent/tradecommand.go:23-103 | stated without the gate: a known order is answered by its row, a frozen agent rejects, an expired answer comes exactly when a deadline is set and the agent's or the server's clock is past it, then bad quantities and limit prices are rejected, and only what is left is submitted |
| `Client.AnswerMeans` | internal/agent/tradecommand.go:119-212 | a failed submit is a rejected ack alone; an accepted one is an ack, and with fills an order update that is filled exactly when they reach the ordered quantity and carries each fill with its own data and the slippage against the reference price |
| `Client.SettlesIs` | internal/agent/tradecommand.go:105-212 | afterwards the row is rejected, filled exactly when the fills reach the quantity, or accepted, with the exchange's id and the limit or market reference; no other row changes |
| `Client.Client.FinishSubmitted` | internal/agent/tradecommand.go:119-212 | everything after the submit is one final table write of the model and one observation of the fill ledger |
| `Client.Client.ForwardAccepted` | internal/agent/tradecommand.go:142-208 | the ack, the order update with cumulative quantity and status, the buffered fills and the record are exactly determined by the exchange's answer |
| `Client.Client.OnOrderEvent` | internal/agent/client.go:574-671 | a fill of a known order, or of one whose row could not be read, is always buffered under its order's name, the order update carries it and the event's quantity, together one observation of the fill ledger; the table write is the one the event calls for |
| `Client.EventMeans` | internal/agent/client.go:574-671 | what an event buffers and sends, field by field: names and reference from the known row, the event's own cumulative quantity or the sum of its fills |
| `Client.StatusMovesIs` | internal/agent/client.go:640-688 | a filled, cancelled or rejected event moves the row to that status, a partial fill leaves it, and the exchange id is taken over when known |
| `Client.Client.SendDeltaReport` | internal/agent/client.go:356-386 | everything buffered is sent, or stays buffered in order ahead of what arrived meanwhile; the same as a drain, an observation and a send, or a failed send, in the fill ledger |
| `Client.Client.HandleKillSwitch` | internal/agent/client.go:515-537 | the resume symbol clears the latch and anything else sets it |
| `Client.Client.DoHandshake` | internal/agent/handshake.go:18-87 | each frame goes out only after the step before it; the latch changes exactly when auth_ok is read, even if the handshake fails later; only listed auth_fail codes are fatal |
| `Client.DeltaBuffer.Requeue` | internal/agent/client.go:128-133 | drained items go back in front of newer ones |
| `Idempotency.SqliteStore.Put` | internal/agent/idempotency_sqlite.go:96-127 | an upsert of the whole row, or no change on failure |
| `Idempotency.SqliteStore.UpdateStatus` | internal/agent/idempotency_sqlite.go:132-158 | changes status and time of an existing row, keeps a known exchange id, ignores a missing row |
| `Idempotency.SqliteStore.Purge` | internal/agent/idempotency_sqlite.go:163-172 | removes exactly the rows older than the cutoff and counts them |
| `Idempotency.MemoryStore.UpdateStatus` | internal/agent/idempotency.go:79-93 | the in-process store does what the durable one does |
| `Idempotency.TableMeans` | internal/agent/idempotency_sqlite.go:96-172 | an upsert sets its own row and no other, a status change keeps every other field of it, and a purge keeps exactly the rows not older than the cutoff |
| `FillLedger.AtMostOneRowPerFill` | cmd/saas/agentmsg.go:297-319 | on every run of both channels, with any interleaving of checks and inserts, no fill key has two rows and every row was observed |
| `FillLedger.NothingVanishes` | internal/agent/client.go:97-133 | every observed fill that names an order is stored, buffered, in a drained report, inside the first copy of a sent one, or was dropped with a crash or an abandoned report |
| `FillLedger.MissingIsExplained` | cmd/saas/agentmsg.go:463-490 | once everything sent is handled, a fill without a row was dropped or masked by a stored fill of its millisecond |
| `FillLedger.ExactlyOnce` | cmd/saas/agentmsg.go:172-188 | with nothing dropped and no mixed millisecond the stored keys are exactly the observed ones |
| `FillLedger.UnmixedDecides` | internal/repository/trade.go:147-158 | over fills drawn from a set, every quiet run without loss stores exactly the observed keys if and only if no order mixes fills with and without trade id in one millisecond |
| `FillLedger.QuantityIsRight` | internal/repository/trade.go:84-158 | after such a run the stored quantity of each order is the sum over its distinct observed fills |
| `FillLedger.SameKeyMeans` | internal/repository/trade.go:84-158 | two fills share a key exactly when they are of one order and agree in the trade id, or have none and agree in the millisecond |
| `FillStore.TradeRepo.InsertFillIfNew` | cmd/saas/agentmsg.go:297-319 | stores the fill exactly when the check finds no equivalent row, and says so; it fails only on a failed statement or a new fill that names no order |
| `FillStore.TradeRepo.HandleOrderUpdate` | cmd/saas/agentmsg.go:172-203 | fills first, each named by the enclosing order, then the status: a known order that is not closed becomes filled, partially filled, cancelled or rejected exactly on that status; it stops at the first failed statement or new fill of an unnamed order, leaving the fills before it and the status untouched |
| `FillStore.TradeRepo.RecoverFills` | cmd/saas/agentmsg.go:463-490 | fills that name an order are absorbed and an order that gained a row leaves pending; it stops exactly at the first failed statement, after a stated prefix |
| `FillStore.TradeRepo.InsertSpotExecution` | internal/repository/trade.go:107-119 | a unique violation reads as success and adds nothing |
| `FillStore.TradeRepo.UpdateTradeStatus` | internal/repository/trade.go:53-61 | a terminal or unknown order is left alone |
| `FillStore.RecoverForward` | internal/repository/trade.go:219-226 | recovery never takes an order out of a terminal status nor back to pending |
| `FillStore.TradeRepo.HandleAck` | cmd/saas/agentmsg.go:151-170 | an order that is not closed becomes rejected exactly on a rejected ack and cancelled exactly on an expired one, and every other ack leaves it alone |
| `FillStore.AckForward` | cmd/saas/agentmsg.go:211-229 | no ack takes an order out of a terminal status |
| `FillStore.UpdateForward` | internal/repository/trade.go:53-61 | an order update never takes an order out of a terminal status |
| `FillStore.UpdateMeans` | cmd/saas/agentmsg.go:211-249 | each status of an update takes an order that is not closed to its own trade status, and no other order moves |
| `FillStore.AbsorbMeans` | cmd/saas/agentmsg.go:297-319 | absorbing a list appends only its own fills, each without an equivalent before it, and leaves an equivalent of every one of them |
| `FillStore.RecoverMeans` | cmd/saas/agentmsg.go:463-490 | recovery absorbs exactly the named fills, and an order leaves pending for partially filled exactly when it gained a row |
| `FillStore.ReplayAddsNothing` | cmd/saas/agentmsg.go:285-296 | any part of what was handled, redelivered on any channel in any order, adds no row |
| `FillStore.LoopIsASchedule` | cmd/saas/agentmsg.go:297-319 | the handler's loop is one schedule of the step system's checks and inserts |
| `KillLatch.RunKeepsInv` | internal/saas/wshub/connection.go:424-456 | on every run each connection whose lookup worked carries exactly the latch of the rows that lookup saw, one whose lookup failed carries frozen, each is pushed later prefixes in order, and the agent's flag reflects what it has read |
| `KillLatch.NoOrderAfterLookup` | internal/agent/handshake.go:59-67 | a command that passes on a connection whose lookup saw a kill row does so after a later resume is reflected |
| `KillLatch.NoOrderAfterKill` | internal/agent/client.go:515-537 | once a kill row is reflected, by handshake or push, every later passed command, over reconnects and restarts, follows a later resume |
| `KillLatch.SettledFlag` | internal/repository/audit.go:57-63 | in a settled session the flag is up to date exactly when the latest row was looked up or its push queued; then it is set exactly when that row is a kill, or nothing was read and the lookup had failed |
| `KillLatch.SettledPass` | internal/agent/handshake.go:59-67 | in a settled session with the latest row a command passes exactly when that row is no kill and a frame was read or the lookup worked |
| `KillLatch.ResumeGetsThrough` | internal/saas/wshub/connection.go:424-456 | after a resume, and before another row, a session whose lookup worked and saw it lets every command pass once its frames are read, and it can get there |
| `KillLatch.PushDecides` | internal/saas/wshub/hub.go:323-342 | a row just written gets through to a session, whatever follows short of another row, exactly when the push reaches its connection: its lookup saw the row or is still to come, or it is the registered ready connection and the frame is sent |
| `KillLatch.MissedKillDecides` | internal/saas/wshub/connection.go:424-456 | after a kill, and before another row, a session that has read all its frames lets an order pass if and only if the push missed its connection and the frames before it leave the flag clear |
| `KillLatch.MissedPushLetsOrderPass` | internal/saas/wshub/connection.go:424-456 | a kill between lookup and ready is pushed to nobody and an order still passes in that session |
| `KillLatch.AuditRepo.LatestKillOrResume` | internal/repository/audit.go:31-46 | the latest kill or resume row of the account, or none |
| `KillLatch.AuditRepo.IsAccountFrozen` | internal/repository/audit.go:57-63 | frozen exactly when the account's latest row is a kill |
| `KillLatch.InstanceKiller.Kill` | cmd/saas/kill.go:31-69 | succeeds exactly when the instance is known and the insert works; then it is one Write and Push of the step system: the row is there when the push goes out, other accounts are unaffected; otherwise nothing is written or pushed |
| `KillLatch.InstanceKiller.Resume` | cmd/saas/kill.go:94-133 | succeeds likewise, with the inverse row, then the streak cleared, then the push; otherwise nothing changes |
| `KillLatch.AuditRepo.Insert` | cmd/saas/killaudit.go:57-87 | the latch write appends one row or fails without a trace |
| `KillLatch.FrozenForAuthOk` | internal/saas/wshub/connection.go:424-437 | the latch of the account's rows when the lookup works and frozen when it fails, which is what the lookup step of the model puts on the connection |
| `FrozenAgent.RunProjects` | internal/agent/client.go:392-480 | every joint run of order intake and kill latch is a run of both systems, so what each promises holds of it |
| `FrozenAgent.NoSubmitAfterKill` | internal/agent/tradecommand.go:16-128 | once a kill row is reflected in the flag, every later call of Exchange.Submit is for a command that passed after a later resume row, over reconnects, crashes and restarts |
| `AutoFreeze.StreakMeaning` | cmd/saas/agentmsg.go:703-711 | after any history the counter is the length of the current over-line run, or the sentinel once the run latched |
| `AutoFreeze.AttemptsIff` | cmd/saas/agentmsg.go:719-762 | the latch is attempted at a report exactly when a sender is wired and the unbroken over-line run is long enough and holds no earlier successful latch |
| `AutoFreeze.FreezesAreSeparated` | cmd/saas/agentmsg.go:719-774 | between two successful freezes lies a report below the line or a resume |
| `AutoFreeze.FreezesOnceAtN` | cmd/saas/agentmsg.go:719-762 | when no latch write fails a run freezes exactly at its report number N |
| `AutoFreeze.DefaultsFreezeAtSecond` | cmd/saas/agentmsg.go:72-93 | with nothing configured a report freezes exactly when it and the one before reach 200 basis points and the one before those does not |
| `AutoFreeze.FreezesAtConfigured` | cmd/saas/agentmsg.go:72-93 | where they are set, the freeze line and the number of reports are the configured ones |
| `AutoFreeze.DriftMonitor.MaybeAutoFreeze` | cmd/saas/agentmsg.go:719-762 | keeps every account's counter in step with its history; an insert is tried exactly when the history attempts one, the row is there exactly when it works, and only then, after row and sentinel, comes the push: one Write and Push of the step system |
| `AutoFreeze.DriftMonitor.ClearDriftStreak` | cmd/saas/agentmsg.go:770-774 | a resume restarts the account's history |
| `FreezeRace.RepeatsOverlap` | cmd/saas/agentmsg.go:719-762 | with streak update, insert and sentinel as separate steps of interleaved handlers: two freezes without a report below the line or a resume between them come from two handlers in flight at once, on every run |
| `FreezeRace.SerialDecides` | cmd/saas/agentmsg.go:719-762 | freezes are separated on every run with at most k handlers in flight if and only if k is at most 1 |
| `FreezeRace.SerialIsHistory` | cmd/saas/agentmsg.go:703-774 | handled one after another the steps keep the counter and write the latches of the history |
| `AutoFreeze.LargestBounds` | cmd/saas/agentmsg.go:686-697 | the freeze input is an upper bound of the flagged managed drifts, attained unless it is 0 |
| `AutoFreeze.MaxFlaggedDriftBps` | cmd/saas/agentmsg.go:686-697 | the loop computes that maximum |
| `Bootstrap.RunMonteCarlo` | internal/verification/sbb.go:196-258 | the nested sampling loops compute the summary of nIter paths, each of exactly n resampled returns; degenerate input gives zeros |
| `Bootstrap.RunPath` | internal/verification/sbb.go:219-248 | one path's running state is the final equity, drawdown and ruin of its equity curve |
| `Bootstrap.DrawdownMeaning` | internal/verification/sbb.go:231-236 | the running peak is the highest equity including the start and the drawdown the deepest fall below the peak of its time |
| `Bootstrap.RuinIsDrawdown` | internal/verification/sbb.go:220-239 | a ruined path has a drawdown of at least fatalMDD |
| `Bootstrap.ReportIsConsistent` | internal/verification/sbb.go:250-257 | P5, P50, P95 are ordered, and once nIter minus floor(0.99 (nIter-1)) paths are ruined WorstMDD1Pct reaches fatalMDD |
| `Bootstrap.WorstDrawdownInRange` | internal/verification/sbb.go:256-257 | WorstMDD1Pct lies in [0, 1) |
| `Bootstrap.PercentileMonotone` | internal/verification/sbb.go:274-291 | interpolated quantiles of an ascending slice grow with p |
| `Bootstrap.CountPlaces` | internal/verification/sbb.go:250-251 | in a sorted slice the entry at k reaches x exactly when all but at most k entries do |
| `Bootstrap.GuardNeverBinds` | internal/verification/sbb.go:263-272 | the sampled block length is at least one even without its guard |
| `BootstrapLaws.UniformMeans` | internal/verification/sbb.go:306-312 | a uniform draw is the top 53 bits of a word over 2 to the 53 |
| `BootstrapLaws.BlockLenMeans` | internal/verification/sbb.go:263-272 | a block runs past its k-th row exactly when log(1-u) is at most k times log(1-1/mean), the tail of the geometric law |
| `BootstrapLaws.OutcomeMeans` | internal/verification/sbb.go:215-246 | a path is made of consecutive blocks, each from its own word's row around the circle; its outcome is the exponential of the summed returns, ruin is reaching the floor at some row, and its drawdown bounds every fall from the start or an earlier row and is one of them |
| `BootstrapLaws.SummaryMeans` | internal/verification/sbb.go:248-258 | the report shows the share of ruined paths and the exact 5, 50, 95 and 99 percent points of the sorted equities and drawdowns |
| `BootstrapLaws.PathsMean` | internal/verification/sbb.go:213-246 | each path draws from where the one before it stopped |
| `Cscv.Blocks` | research/cpcv_pbo/cscv.py:57-60 | the blocks partition the rows in order, none is empty, and the first t mod s are one longer |
| `Cscv.BlockSharpeIsDirect` | research/cpcv_pbo/cscv.py:68-72 | for every mask the Sharpe from block sums is the Sharpe of the concatenated rows with the same variance floor |
| `Cscv.CombosExact` | research/cpcv_pbo/cscv.py:62-66 | the combinations are exactly the masks with half the blocks |
| `Cscv.CombosDistinct` | research/cpcv_pbo/cscv.py:62 | no combination is listed twice |
| `Cscv.CombosCount` | research/cpcv_pbo/cscv.py:62-63 | their number is the binomial coefficient the program asserts |
| `Cscv.ComplementReverses` | research/cpcv_pbo/cscv.py:62-75 | the complement of the i-th combination is the i-th from the end |
| `Cscv.OosIsReversedIs` | research/cpcv_pbo/cscv.py:74-75 | the out-of-sample matrix is the in-sample matrix upside down |
| `Cscv.PoolsArePermutations` | research/cpcv_pbo/cscv.py:86-88 | the pooled in-sample and out-of-sample values are permutations of each other |
| `Cscv.SlopeInRange` | research/cpcv_pbo/cscv.py:86-88 | the degradation slope lies in [-1, 1] whenever the pooled values differ |
| `Cscv.SlopeIsBestFit` | research/cpcv_pbo/cscv.py:88 | no line has a smaller squared error than the slope and intercept |
| `Cscv.LogitDefined` | research/cpcv_pbo/cscv.py:82-84 | every relative rank lies strictly between 0 and 1, and its logit is at most 0 exactly when the champion lands in the lower half |
| `Cscv.ReportMeaning` | research/cpcv_pbo/cscv.py:90-99 | PBO is the share of combinations whose champion falls to the lower half; both probabilities lie in [0, 1] |
| `Cscv.PathMeans` | research/cpcv_pbo/cscv.py:74-84 | path by path, with b the first best candidate in sample and k the number of candidates no better than b out of sample: the reported ratios are b's, the logit is log(k/(N+1-k)), and it is at most 0 exactly when 2k is at most N+1 |
| `Cscv.SharesMean` | research/cpcv_pbo/cscv.py:90-96 | PBO is the share of paths whose champion is no better than half of the candidates out of sample, and p_oos_neg the share whose champion has a negative ratio there |
| `Cscv.RowsMean` | research/cpcv_pbo/cscv.py:57-75 | a candidate's in-sample ratio is the Sharpe ratio of its rows in the blocks taken, its out-of-sample ratio that of its rows in the others |
| `Cscv.SharpeMeans` | research/cpcv_pbo/cscv.py:68-72 | the Sharpe ratio times the root of the population variance, floored at 1e-30, is the mean |
| `Cscv.RejectsExactly` | research/cpcv_pbo/cscv.py:46-55 | a trial is rejected exactly for an odd number of blocks or too few rows, in that order |
| `GhostDca.SimulateDca` | internal/fitness/ghost_dca.go:105-164 | the one-pass kernel returns the value, injections, drawdown and return of the specified holdings |
| `GhostDca.TwrTelescopes` | internal/fitness/ghost_dca.go:255-274 | where buys deliver the chain-linked return is last close over first injection's close minus one |
| `GhostDca.TwrIgnoresFriction` | internal/fitness/ghost_dca.go:255-274 | any two frictions under which buys deliver give the same chain-linked return |
| `GhostDca.DeliversIff` | internal/quant/friction.go:20-36 | with slippage above -100% a buy delivers exactly when the fee is below 100% |
| `GhostDca.TwrAtFullFee` | internal/fitness/ghost_dca.go:255-274 | where they do not, as with a fee of 100% or more, it reads 0 |
| `GhostDca.DrawdownIgnoresFriction` | internal/fitness/ghost_dca.go:105-186 | any two frictions under which buys deliver give the same drawdown |
| `GhostDca.QtyScales` | internal/quant/friction.go:20-36 | friction scales every holding by the one factor (1-fee)/(1+slip) |
| `GhostDca.BuyScales` | internal/quant/friction.go:20-36 | a buy yields the frictionless quantity times that factor, whatever the price |
| `GhostDca.RoundTripNeverGains` | internal/quant/friction.go:20-60 | buying and selling back at one price gains nothing if and only if buys do not deliver or (1-fee)^2 (1-slip) / (1+slip) is at most 1, as it is for all rates between 0 and 100%; price and notional do not matter |
| `DcaLaws.BuyMeans` | internal/quant/friction.go:20-36 | the quantity at the slipped price is the notional less its fee, and fee and slippage are their shares of it |
| `DcaLaws.SellMeans` | internal/quant/friction.go:46-60 | proceeds, fee and slippage are together the value sold |
| `GhostDca.MaxDrawdown` | internal/fitness/ghost_dca.go:168-186 | the scan computes the deepest fall below the running peak |
| `GhostDca.PeakIsHighest` | internal/fitness/ghost_dca.go:172-177 | the running peak is the highest value so far |
| `GhostDca.DrawdownInRange` | internal/fitness/ghost_dca.go:166-186 | the drawdown is never negative, and at most 1 if and only if the path is never negative after it was positive |
| `GhostDca.DrawdownWithinOne` | internal/fitness/ghost_dca.go:105-186 | where buys deliver the reported drawdown is at most 1 if and only if no bar after the first injection has a negative close |
| `GhostDca.DrawdownLeavesRange` | internal/fitness/ghost_dca.go:166-186 | closes of 1 and -1, a capital of 1 and no friction give a drawdown of 2 |
| `GhostDca.ModifiedDietz` | internal/fitness/ghost_dca.go:214-245 | the loop computes the time-weighted Dietz return, with its degenerate branches |
| `GhostDca.ComputeRoi` | internal/fitness/ghost_dca.go:191-206 | TWR is used exactly when some later injection exceeds a tenth of the value before it |
| `GhostDca.Twr` | internal/fitness/ghost_dca.go:255-274 | the chain-linking loop computes the product over the sub-periods |
| `GhostDca.InjectionsChained` | internal/fitness/ghost_dca.go:116-152 | each recorded cash flow carries its bar's holdings, and nothing is bought between two of them |
| `GhostDca.WeeklyInjectsOncePerWeek` | internal/fitness/ghost_dca.go:71-86 | over bars at most a week apart the total is the seed plus one tranche per whole week since the first bar |
| `DcaLaws.AmountMeans` | internal/fitness/ghost_dca.go:105-152 | a bar injects the seed or what the trigger asks, never into a price that is not positive |
| `DcaLaws.TotalsMean` | internal/fitness/ghost_dca.go:105-164 | the final value is every injection over its own close, times the share friction keeps, at the last close; the total is the sum of the injections |
| `DcaLaws.WeeklyTotal` | internal/fitness/ghost_dca.go:51-86 | over bars at most a week apart the weekly baseline puts in its capital and the monthly amount over 4.33 for every seven days passed |
| `DcaLaws.MonthlyInjectsPerMonth` | internal/fitness/ghost_dca.go:57-67 | the monthly total is the seed plus one amount per change of month |
| `DcaLaws.DietzMeans` | internal/fitness/ghost_dca.go:214-245 | the Dietz return times the contributions' invested time is the gain times the span, with plain returns or none where there is no span or no invested time |
| `DcaLaws.RoiMeans` | internal/fitness/ghost_dca.go:191-206 | the chain-linked return is reported exactly when a later injection is more than a tenth of the value it meets |
| `Crucible.BuildCrucibleWindows` | internal/data/crucible.go:75-181 | accepts exactly the well-formed requests, names the first check that fails otherwise, and returns the specified windows |
| `Crucible.Search` | internal/data/crucible.go:102-104 | the binary search finds the first bar at or after a time |
| `Crucible.WindowList` | internal/data/crucible.go:146-178 | the windows are [], [10y], [6m,10y], [6m,2y,10y] or [6m,2y,5y,10y], decided by the span left after warmup |
| `Crucible.WindowShape` | internal/data/crucible.go:154-177 | each window is a suffix cut at its warmup, evaluation starts at Bars[WarmupLen], and the full warmup is there |
| `Crucible.OosShape` | internal/data/crucible.go:95-136 | there is an out-of-sample window exactly when the history reaches back over its warmup; its bars are exactly those from the warmup cut on and its evaluation bars those from the request's cut on |
| `Crucible.EvaluationsNest` | internal/data/crucible.go:146-178 | each window and its evaluation part lie within every later one |
| `Crucible.NoLeak` | internal/data/crucible.go:95-136 | in-sample bars and out-of-sample evaluation bars partition the series, and every in-sample window ends before the latter start |
| `Crucible.ScanMeetsSearch` | internal/data/plan.go:102-110 | the plan's linear scan cuts at the index of the binary search |
| `Crucible.BuildEvaluablePlan` | internal/data/plan.go:63-149 | a request that cannot be sliced fails with its first slicing fault, one without windows with that, which means a span within the warmup, one with a short window with the first of them; any other gets the windows, the out-of-sample window and both baselines over exactly the in-sample bars |
| `Ingest.FetchMonthViaApi` | internal/data/orchestrator.go:189-216 | pagination stops whatever the client returns, fails only on a failed page, and with an honest client returns exactly the month's rows |
| `Ingest.Store.BulkInsert` | internal/data/orchestrator.go:220-249 | conflicts are ignored, and the count is the table's growth |
| `Ingest.Store.ImportSymbol` | internal/data/orchestrator.go:90-153 | however it ends, the table holds the months completed, RowsInserted is its growth, only a completed import rescans the gaps, and every ending has its cause among the inputs |
| `Ingest.CompleteImport` | internal/data/orchestrator.go:107-145 | a completed import wants exactly the market's rows of the range |
| `Ingest.InterruptionsLeaveNoTrace` | internal/data/orchestrator.go:107-153 | any sequence of imports of a range that ends with a completed one leaves the bars and the gap rows that one uninterrupted import leaves, in the range and outside it |
| `ImportLaws.ImportMeans` | internal/data/orchestrator.go:90-153 | after a completed import the bars are those of before, unchanged, and the market's of the range; a moment lies in a gap row of the range exactly when it lies between two stored bars of the range and in the slot of none; other gap rows are those of before |
| `Ingest.ImportAgainAddsNothing` | internal/data/orchestrator.go:218-249 | importing the same rows again adds none |
| `Ingest.GapsAreTheUncovered` | internal/data/orchestrator.go:295-311 | every moment of the span lies in a bar's slot or in a gap, never both |
| `Ingest.GapsLieBetween` | internal/data/orchestrator.go:295-311 | gaps are ordered, disjoint, non-empty and bounded by bars |
| `Ingest.TilesIffSpaced` | internal/data/orchestrator.go:295-311 | slots are disjoint exactly when bars are at least one interval apart |
| `Ingest.ComputeGaps` | internal/data/orchestrator.go:295-311 | the loop computes those gaps |
| `Ingest.RescanIsExact` | internal/data/orchestrator.go:260-291 | after a rescan the range's gap rows are exactly the shown ones, others are untouched, and rescanning changes nothing |
| `Ingest.GapRowSurvives` | internal/data/orchestrator.go:279-284 | a gap row disappears exactly when it lies within the range and is no longer shown |
| `Ingest.GapsForgetHistory` | internal/data/orchestrator.go:277-290 | with the same bars a rescan ends with the same rows in the range whatever rows there were |
| `Ingest.Store.DetectAndPersistGaps` | internal/data/orchestrator.go:260-291 | the rescan when its statements work, otherwise the old rows with or without those of the range, decided by which statement failed |
| `Ingest.FilterByOpenTime` | internal/data/orchestrator.go:370-378 | keeps exactly the rows of the range, in order |
| `Ingest.IntervalMs` | internal/data/orchestrator.go:316-350 | known intervals only, each at least a second |
| `ImportLaws.IntervalMeans` | internal/data/orchestrator.go:316-350 | exactly fifteen names are known, and each is its number times its unit |
| `Moments.ComputeSharpeStats` | internal/quant/sharpe.go:32-95 | the fused loop computes the three compensated sums the separate functions take over arrays |
| `Moments.FusedAgreesIff` | internal/quant/sharpe.go:64-87 | std, skew and excess kurtosis are bit-identical to the separate ones if and only if the compensated sum of squared deviations is non-negative |
| `Moments.ShortSeriesAgree` | internal/quant/sharpe.go:33-36 | below two returns both sides give zeros |
| `Moments.ConstantSeries` | internal/quant/sharpe.go:22-25 | a series without deviations yields zero statistics on both sides |
| `MomentsLaws.StatsMean` | internal/quant/sharpe.go:32-95 | under operations that happen to be exact the mean times the count is the sum, std is the root of the squared deviations over n-1, Sharpe times std is the mean, skew squared times d2 cubed is n times d3 squared with the sign of d3, and kurtosis plus 3 times d2 squared is n times d4 |
| `Moments.KahanSum` | internal/quant/math.go:227-236 | the loop is the compensated fold |
| `Moments.StdDev` | internal/quant/math.go:36-49 | the array-building standard deviation |
| `Moments.Skewness` | internal/quant/math.go:177-197 | the array-building skewness |
| `Moments.ExcessKurtosis` | internal/quant/math.go:202-222 | the array-building excess kurtosis |
| `BarSim.SimCore` | research/mra_ab/mra_ab.py:359-398 | the bar loop computes the value path and drawdown of the specified holdings |
| `BarSim.ClampsNeverBind` | research/mra_ab/mra_ab.py:379-390 | a buy never needs all the cash nor a sale all the coins, because the target weight is strictly between 0 and 1 |
| `BarSim.RunIsSound` | research/mra_ab/mra_ab.py:366-390 | over every price path, signal and gap mask holdings stay non-negative |
| `BarSim.TradesNeverGain` | research/mra_ab/mra_ab.py:380-391 | no trade raises the equity at its price |
| `BarSim.DrawdownInRange` | research/mra_ab/mra_ab.py:391-398 | the reported drawdown lies in [0, 1) and dominates every bar's |
| `BarSim.FrictionlessHitsTarget` | research/mra_ab/mra_ab.py:377-390 | without friction a trade lands exactly on its target weight |
| `SimLaws.TargetMeans` | research/mra_ab/mra_ab.py:371-377 | one over the target weight is one plus exp of the exponent, which is signal and inventory kept within 50 of zero |
| `SimLaws.TargetFalls` | research/mra_ab/mra_ab.py:371-377 | a higher signal never raises the target when beta is not negative |
| `SimLaws.WeightIs` | research/mra_ab/mra_ab.py:369-370 | the weight is the coins' share of the equity |
| `SimLaws.BarMeans` | research/mra_ab/mra_ab.py:369-390 | a bar moves a sound portfolio exactly when there is no gap, a difference to the target, and both thresholds are met; then it trades the whole difference at the slipped price less the fee |
| `SimLaws.RunMeans` | research/mra_ab/mra_ab.py:359-391 | a run starts in cash, and every value is coins at the bar's price and cash |
| `SimLaws.FallMeans` | research/mra_ab/mra_ab.py:394 | a fall is relative to the peak, and none before there is one |
| `SimLaws.PeakMeans` | research/mra_ab/mra_ab.py:392-393 | the peak is the highest value so far, and attained |
| `SimLaws.DrawdownMeans` | research/mra_ab/mra_ab.py:394-396 | the drawdown is the deepest fall of any bar below the peak of its time, and attained |
| `BarSim.DcaNav` | research/mra_ab/mra_ab.py:267-279 | the final value is that of the coins bought in exactly n_buys equal purchases, one per period, with no cash left |
| `SimLaws.CoinsMean` | research/mra_ab/mra_ab.py:267-279 | the baseline's coins are n equal tranches less the fee, each at its own close and the slipped price |

## Left out

- Rounding: amounts and scores are reals, so sums that only rounding can disturb are exact here. `Moments.dfy` is the exception.
- 64-bit overflow: day counts times milliseconds, cursors and clocks are unbounded integers; a request of more than about 10^11 days would wrap in the program.
- GhostDca.SimulateDca: slippage of exactly -100% is left out, where the execution price is zero and the program computes with infinities.
- Crucible.BuildEvaluablePlan: the same slippage, through the baselines.
- BarSim.SimCore: slippage of exactly -100% and a bar price of exactly 0, where a trade would divide by zero.
- BarSim.DcaNav: the same two.
- Cscv.SlopeInRange: given only where the pooled values differ; what the linear-algebra routine returns otherwise is not part of this model.
- Gene aliasing: genes are values, so the deep copy of elites and of the returned gene is not visible. The aliasing of score and raw slots during elite carry-over is modelled.
- Fatal-audit sampling, progress hooks and adapter closing in the engine: observers that do not feed back into the loop. The sampler's seed is one draw.
- Random draws: what Sample, Crossover and Mutate consume is one draw each, handed to them as an argument; how many words of the generator that takes is not represented.
- Engine.Engine.RunEpoch: the returned error is the fact of failure and its causes, not which worker's error arrived first. A nil plan is not represented.
- SubmitOnce.NoDoubleSubmit: assumes a monotone clock and a durable table between restarts; with the in-process store a restart forgets every order.
- Client.Client.HandleTradeCommand: between its last two table accesses an order event may run in the program; the step system interleaves it, the method does not. The idempotency status may therefore be overwritten by the final write, and only the row's existence is relied on.
- FillLedger.ExactlyOnce: envelope-level replay protection is not modelled, so frames may be duplicated more often than the hub allows. A status update lost after an insert can leave an order pending although it has executions.
- Unparsable decimals in fills: covered only as an arbitrary failure of the insert.
- KillLatch.NoOrderAfterKill: kill and resume calls for one account do not overlap, and a later audit row is taken to have a later timestamp. Overlapping calls may push in another order than they write.
- AutoFreeze.DriftMonitor.MaybeAutoFreeze: one report at a time; `FreezeRace` has the same steps interleaved.
- Listing and inserting trade rows, the orphan sweep and the ledger watermark queries of `internal/repository/trade.go`: single statements.
- Drift computation, instance funding and discrepancy rows of a delta report: arithmetic per asset with no state carried over.
- Bootstrap: the generator is an arbitrary stream of words and the Politis-White block length estimate is left out; the block length mean is a parameter.
- GhostDca.SimulateGhostDcaMonthly: the UTC calendar is a parameter.
- Ingest.Store.ImportSymbol: the calendar months are a parameter that must cover the range; a month's rows are inserted in one transaction, as the database layer does by default. Archive download, checksum and CSV parsing are one reply. Rows of other symbols and intervals are not represented.
- BarSim: the ridge variant of the simulator differs only in joining its two trade thresholds with or; it would repeat the same lemmas.
- Cscv: a combination is its mask, and the text-book log, square root and line fit are functions with the few facts used.
- Plan and bar hashes, wire encoding, sockets, HTTP handlers, the console, the deflated Sharpe ratio and the optimiser scripts: plumbing or numerics without a contract that would say more than their code.
