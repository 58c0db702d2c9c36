# Fleet-operations server: a verified model of its core logic

The server keeps vehicles, trips and messages in SQL tables. Most of its code moves rows; the parts
modelled here are the ones that decide something. Every SQL statement the modelled code issues is one
atomic guarded update of explicit state; clocks, answers of the transport and distances are parameters.

| part | files | main results |
|---|---|---|
| placeholder rewriter | `Rebind`, `RebindMeaning` | the output re-lexes to the input's tokens with exactly the promised numbers; error cases; idempotence; when the documented freshness rule holds |
| outbox worker | `Outbox`, `OutboxProtocol`, `OutboxTick`, `OutboxTiming`, `OutboxRetry`, `OutboxExhaustion` | safety of every interleaving of any number of workers with crashes, failing statements, reaps and push-backs, and a run that reaches the bound on claims; a whole tick is one of those runs; what timeliness adds; when a row comes up again after a failure or a lost claim; when a row can stay undeliverable for ever, and when rows do end |
| data migration | `MergeMap`, `Utf8`, `Quarantine`, `QuarantineRerun`, `LoadLoop`, `LoadTheorems`, `LoopStops`, `Turns`, `Landing`, `QuarantineTruth`, `LoadRerun`, `ReferenceMeaning` | references keep their meaning through merge, refresh and load; the pass in which each row lands, and from it when the loop stops and when it has loaded everything; when the quarantine is the final truth, from an empty table and over what an earlier run left; which source texts can lose a row |
| deviation tracker | `Deviation` | rejected fixes are invisible; which fixes are kept and which raise an alert, first or repeated; state is a function of the current excursion; alert rate |
| fuel engine | `Smoothing`, `FuelEngine`, `FuelStream`, `FuelLedger`, `FuelLeak` | lower median and its resistance to outliers; gaps, trip ends, level and stop read off the readings, and from them when each kind of event is raised; the baseline as a ledger over whole streams; what a parked stretch can hide and what it forgets; a slow leak no reading reveals |
| arrival times | `Geohash`, `Segments`, `EtaGuard` | the cell code is faithful; segments are exactly the qualifying runs; the guard is the least admissible sequence |
| memory cache | `MemoryCache` | hits and counts read off the history alone; when sweeps are unobservable |
| shared | `Common` | decimal numerals, powers of two, multiples, options |

Code that changes state step by step is written as methods on classes or as loops. Each one's contract
equates the new state with a specification function of the old state (`Rebound`, `ReapRows`, `MergeAll`,
`Passes`, `StepOf`, `PipelineOf`, `GeohashOf`, ...), and the results are proved about those functions.

## Where the code and its comments differ

The model follows the code. For each point there is a concrete input and, where it makes sense, the
exact condition under which the comment holds.

- The comment of `Rebind` (`internal/database/rebind.go:16-19`) says a bare `?` skips every number already
  present, written `?N` or `$N`. Only `$N` is collected beforehand: `? ?1` becomes `$1 $1`
  (`BareThenExplicitClash`). `SkipsEveryWrittenExactly` gives the guard on each `?N` under which the
  comment is right.
- Backoff "capped 24h" (`internal/comm/outbox.go:555`): the first retry uses the base uncapped (`BackoffCappedExactly`).
- Rows whose attempts are used up do not always end `sent` or `dead`: they can stay `failed` where no poll
  selects them (`StuckWithoutLossExactly`, `StuckWithLossAlways`). `TriedRowsEndExactly` says for which
  numbers of workers and attempts every such row does end.
- "Passes repeat while any table still makes progress" (`internal/datamigrate/migrate.go:147`): progress means
  more rows than in the previous pass, so the loop can stop while rows are still landing
  (`StopsWhileRowsLand`). `LoopCompleteExactly` and `LoadedExactly` give the condition on the data.
- "Nothing is lost" in a merge (`internal/datamigrate/merge.go:9-11`): a source row with a new key whose id is
  taken at the destination is absorbed, and references to it name another row (`ClashNamesAnotherRow`;
  `ResolveNamesSameRow` says exactly when references survive).
- "Never silently drop" (`internal/datamigrate/migrate.go:274-276`) fails in two ways. The quarantine identifies
  rows by the JSON of cells cut at 300 bytes: keys that differ only after the cut are the same to it
  (`LongKeysConfused`), and so are keys cut inside different characters, as `€` and `℃` at the cut
  (`CutKeysConfused`), so a good row can clear the record of a failed one (`ConfusedRowsLoseEvidence`). And a row
  with a new primary key but a taken unique value, such as a user's email, is absorbed without a trace
  (`TakenAddressLosesRow`). `EveryRowAccountedExactly` says for which texts no row is lost.
- "Keeps quarantine = final truth" (`internal/datamigrate/migrate.go:538-539`): entries left by an earlier run
  are not listed in memory and so not cleared (`LeftoverStays`); only from an empty table is the comment right
  for every run (`AlwaysTrueExactly`). For a table that holds entries, `RerunTruthExactly` gives all the runs for
  which it is right, and `LoadTruthExactly` all the data.
- `clampFuel` "bounds a raw fuel_level to [0, tankCapacity]" (`internal/fuel/engine.go:945`): the level is
  still in percent when it is clamped by litres (`PercentOverflows`, `LitresFitExactly`, `ClampKeepsExactly`).
- "Stationary drops accumulate toward their thresholds" (`internal/fuel/engine.go:737-739`): a reading below
  the noise floor moves the baseline, so a slow leak on a parked vehicle is never reported, however long it
  lasts (`SlowLeakIsNeverReported`, `TankRunsDownUnseen`). `NothingForgottenExactly` says when drops do accumulate.
- An abnormal drain can be reported without any drop when the odometer is missing or went back
  (`MissingOdometerReportsNothing`, `AbnormalDrainIsLossExactly`).
- A sweep of the cache that reads the clock after an increment has read it, but takes the lock before it,
  resets a count that was still open (`LateLockResetsCount`; `JanitorUnobservableExactly`).

## Model

| member | source | states |
|---|---|---|
| Rebind.PreClaim | internal/database/rebind.go:25-54 | the first scan collects exactly the positive numbers of the `$N` tokens outside literals |
| Rebind.Rebind | internal/database/rebind.go:55-108 | the second scan, byte by byte, produces exactly the specified rewriting of the query's tokens, and None exactly for the error |
| RebindMeaning.TokensExactly | internal/database/rebind.go:26-54 | the tokens are the query cut into pieces: a `?` or `$` after an even number of quotes is a marker with all digits that follow it, a byte after an odd number stands in a literal, and every other byte is copied |
| RebindMeaning.RebindExact | internal/database/rebind.go:9-24 | a text is the output if and only if its tokens are the query's tokens, literals and other bytes unchanged, `?N` turned into `$N`, and each bare `?` given the least positive number that is not a `$N` of the query and not given to a marker on its left |
| RebindMeaning.RebindFailsExactly | internal/database/rebind.go:93-95 | the error occurs exactly when some explicit marker outside literals has number zero |
| RebindMeaning.RebindIdempotent | internal/database/rebind.go:21-23 | an output has no `?` marker left outside literals and is its own rebinding |
| RebindMeaning.BareMarkersAreSequential | internal/database/rebind.go:16-19 | without `?N`, and with exactly `$1..$m` written, the k-th bare marker binds argument m + k |
| RebindMeaning.SkipsEveryWrittenExactly | internal/database/rebind.go:16-18 | bare markers avoid every written number if and only if each `?N` is written `$N` somewhere, repeated from its left, or has more free numbers up to N than bare markers on its left |
| RebindMeaning.BareThenExplicitClash | internal/database/rebind.go:43-54 | `? ?1` becomes `$1 $1` |
| Outbox.BackoffDelay | internal/comm/outbox.go:556-563 | the doubling loop with its early exit computes base times a power of two, capped at a day from the second attempt on |
| Outbox.BackoffCappedExactly | internal/comm/outbox.go:555-563 | the delay is at most a day if and only if it is not a first retry with a base above a day |
| Outbox.BackoffMonotoneExactly | internal/comm/outbox.go:555-563 | delays do not shrink from one attempt to the next if and only if the base is not negative and, on the first retry, at most a day |
| Outbox.Table.ReapStale | internal/comm/outbox.go:478-493 | exactly the rows in `sending` with a mark older than staleAfter become `failed`; nothing else changes |
| Outbox.Table.Claim | internal/comm/outbox.go:502-512 | the compare-and-set wins exactly on pending or failed rows, counts the attempt and stamps the time |
| Outbox.Table.MarkSent | internal/comm/outbox.go:525-530 | the successful settlement changes only a row still in `sending` |
| Outbox.Table.MarkFailed | internal/comm/outbox.go:555-577 | the failed settlement decides dead or failed from the count read before the claim and touches only a row still in `sending` |
| Outbox.Table.Deliver | internal/comm/outbox.go:495-577 | one delivery: an error for a row that does not exist, no effect on a row claimed by someone else, otherwise exactly claim, send and settle |
| Outbox.DeliveredOutcome | internal/comm/outbox.go:555-576 | an undisturbed delivery ends sent exactly on success, dead exactly when the last attempt failed, else failed with attempts left; a failed row is due after the base, doubled with every attempt from the second on and then cut at 24 hours, and any other keeps the time of its claim |
| OutboxTick.Process | internal/comm/outbox.go:400-450 | one tick: the rows are the reaped ones with the polled deliveries applied in order at their own times |
| OutboxTick.TickSettlesEveryRow | internal/comm/outbox.go:400-577 | a tick settles every polled row once, by its answer and remaining attempts, dates the failed ones by that backoff from the end of their own delivery, and changes no other row |
| OutboxTick.TickIsRun | internal/comm/outbox.go:400-577 | the loop of a tick is one of the runs of the protocol, from the same state to the same rows |
| OutboxProtocol.InvStep | internal/comm/outbox.go:400-577 | every step of every worker keeps the protocol invariant: attempts so far plus workers still holding the row from a poll stay within maxAttempts - 1 + W, sends never exceed claims, settled rows have their reason |
| OutboxProtocol.ClaimsBounded | internal/comm/outbox.go:404-439 | in every run of W workers a row is claimed, hence sent, at most maxAttempts + W - 1 times |
| OutboxExhaustion.ClaimsBoundReached | internal/comm/outbox.go:404-512 | for every W and maxAttempts some run makes exactly that many claims |
| OutboxProtocol.FinalStatusMeans | internal/comm/outbox.go:525-577 | in every run `sent` implies a successful send and `dead` implies a spent budget |
| OutboxProtocol.FinalStatusAbsorbs | internal/comm/outbox.go:478-577 | no run changes anything in a row that is `sent` or `dead` |
| OutboxProtocol.UndisturbedDelivery | internal/comm/outbox.go:495-577 | the protocol steps of a worker left alone change the row as one Deliver call does |
| OutboxTiming.OneSenderAtATime | internal/comm/outbox.go:31-35 | when live workers settle within staleAfter, at most one of them is between claim and settlement of a row |
| OutboxTiming.DeliveriesBoundedByLosses | internal/comm/outbox.go:478-577 | then successful sends of a row never exceed one plus the claims lost on it |
| OutboxTiming.ReaperSound | internal/comm/outbox.go:477-493 | then the reaper frees only rows that no live worker holds and whose claim was lost |
| OutboxRetry.PollExactly | internal/comm/outbox.go:404-410 | a poll may take any 100 or fewer different rows that are pending or failed, due and with attempts left, and nothing else |
| OutboxRetry.NewRowIsDue | internal/comm/outbox.go:103-114 | a new row can be polled at once |
| OutboxRetry.RetryWaits | internal/comm/outbox.go:555-573 | in every run that does not push the row back: after its n-th attempt failed at t it is due at t plus base for n = 1, else t plus the least of base times 2^(n-1) and 24 hours; until it is claimed again it stays so and no poll takes it before, and no worker claims it before that did not have it in hand already |
| OutboxRetry.LostClaimReturnsExactly | internal/comm/outbox.go:477-493 | a reap opens a row left in `sending` if and only if its mark is older than staleAfter, and a poll can take it then if and only if it has attempts left and the mark is not ahead of the clock |
| OutboxExhaustion.StuckForever | internal/comm/outbox.go:404-410 | in every run a failed row without attempts left that no worker holds keeps its status and attempts; only a push-back may move its next attempt |
| OutboxExhaustion.StuckWithoutLossExactly | internal/comm/outbox.go:495-512 | in timely runs without lost claims such a row can arise if and only if there are at least two workers and at least two attempts |
| OutboxExhaustion.StuckUntimelyExactly | internal/comm/outbox.go:477-512 | with no bound on delays, and still no lost claims, if and only if there are at least two workers |
| OutboxExhaustion.StuckWithLossAlways | internal/comm/outbox.go:477-493 | with one lost claim it can arise in every configuration |
| OutboxExhaustion.TriedRowsEndExactly | internal/comm/outbox.go:400-577 | in timely runs, every row whose attempts are used up, of which no claim was lost and which no worker holds, is sent or dead if and only if there is at most one worker or at most one attempt |
| OutboxExhaustion.TriedRowsEndUntimelyExactly | internal/comm/outbox.go:400-577 | with no bound on delays, such a row is always sent or dead if and only if there is at most one worker |
| MergeMap.IDMap.MergeRow | internal/datamigrate/merge.go:73-84 | the map after one row, and whether the row is to be inserted |
| MergeMap.IDMap.ResolveRef | internal/datamigrate/merge.go:86-97 | remapped id first, then plain 64-bit integers, then natural keys |
| MergeMap.NumeralParsesExactly | internal/datamigrate/merge.go:92-94 | an optionally signed run of digits is a plain id if and only if its number lies between -9223372036854775808 and 9223372036854775807 |
| MergeMap.OnlyNumeralsParse | internal/datamigrate/merge.go:92-94 | no other text is |
| MergeMap.DecimalParsesExactly | internal/datamigrate/merge.go:92-94 | in particular the decimal text of n is if and only if n fits |
| MergeMap.IDMap.Refresh | internal/datamigrate/migrate.go:131-144 | keys found at the destination are added, recorded ones stay, the remap stays |
| MergeMap.CopyMergeTable | internal/datamigrate/migrate.go:210-258 | map and destination after the whole table, and the number of rows added |
| MergeMap.RecordedAll | internal/datamigrate/merge.go:73-84 | after any clean table the map and the destination contain exactly the keys, remaps and rows read off row by row from the original destination |
| MergeMap.ResolveNamesSameRow | internal/datamigrate/merge.go:86-97 | a source id, or a key stored as text, resolves to the destination row of the same natural key if and only if the row's key was present or its id was free |
| MergeMap.ResolveExactly | internal/datamigrate/merge.go:86-97 | for every text, a reference of some row or not: after merge and refresh it resolves to the destination id of the moved source row it is the id of, else to itself if it is a plain id, else to the id of the destination row or of the source row it is the key of, else to nothing |
| MergeMap.NumberedReferencesKept | internal/datamigrate/merge.go:86-97 | the same for every source table whose ids are decimal texts of numbers up to 9223372036854775807 and whose keys are no numerals |
| MergeMap.SeedsSurvive | internal/datamigrate/migrate.go:131-144 | destination rows keep their id through merge and refresh, and a key that does not read as an id resolves to it |
| MergeMap.ClashNamesAnotherRow | internal/datamigrate/migrate.go:228-239 | a new key with a taken id is absorbed and its references name the other row |
| Utf8.CharLenExactly | internal/datamigrate/migrate.go:491-494 | a text is read as starting with a character if and only if it starts with the UTF-8 encoding of a scalar value, and by the length of that encoding |
| Utf8.BlankExactly | internal/datamigrate/migrate.go:491-494 | two texts of bytes are written the same if and only if their characters are the same, bytes that belong to none being all alike |
| Quarantine.RecordConfusesExactly | internal/datamigrate/migrate.go:479-494 | what is recorded of two cells is the same if and only if both have at most 300 bytes or both more, and the bytes kept, at most 300, agree up to bytes that are not part of a whole character |
| Quarantine.SameCharactersExactly | internal/datamigrate/migrate.go:479-494 | the same in terms of the characters kept |
| Quarantine.QuarantineTable.Record | internal/datamigrate/quarantine.go:39-58 | an identical entry is stored once and the answer tells whether it was new |
| Quarantine.Summary.NoteQuarantined | internal/datamigrate/migrate.go:529-536 | appends unless the key is listed; list and index stay inverse |
| Quarantine.Summary.Quar | internal/datamigrate/migrate.go:496-527 | list and table after recording a row, including a failing statement |
| Quarantine.Summary.Unquar | internal/datamigrate/migrate.go:538-575 | swap-remove takes exactly that entry out of list, index and table; a failing statement changes nothing |
| Quarantine.SwapRemoveInverse | internal/datamigrate/migrate.go:567-574 | removing by moving the last entry keeps list and index exact inverses and removes exactly that key |
| Quarantine.InverseSameSize | internal/datamigrate/migrate.go:529-536 | inverse list and index have equal sizes and no key twice |
| QuarantineRerun.LeftoverStays | internal/datamigrate/migrate.go:538-575 | a concrete run: a leftover whose row is copied at the first attempt stays in the table |
| QuarantineRerun.AlwaysTrueExactly | internal/datamigrate/migrate.go:538-540 | a starting table is followed by the final truth in every run if and only if it is empty |
| QuarantineRerun.RerunTruthExactly | internal/datamigrate/migrate.go:496-575 | over a given starting table, the runs that end with exactly the rows whose latest attempt failed are those in which each row held at the start is failing or has failed for a reason not recorded before |
| LoadLoop.Target.ExecInsert | internal/datamigrate/migrate.go:334-369 | an insert fails, is absorbed when its primary key or another of its unique values is taken, or takes exactly its keys |
| LoadLoop.NeedsExactly | internal/datamigrate/migrate.go:290-315 | remapping fails if and only if some column that is not empty does not resolve; otherwise the row needs its other references and exactly the rows its non-empty columns resolve to |
| LoadLoop.CopyTable | internal/datamigrate/migrate.go:260-332 | destination, quarantine and counters after one sweep over a table |
| LoadLoop.LoadTables | internal/datamigrate/migrate.go:146-182 | over all tables and any quarantine table, merge tables done already and their rows counted, the loop executes exactly the passes up to the first that meets the break condition, or the budget, and leaves list, table, counter and destination as those passes do |
| LoadTheorems.RankLoaded | internal/datamigrate/migrate.go:146-182 | after k executed passes every row sharing no unique key and reachable through at most k levels of references is present, whatever the order of tables and rows |
| LoadTheorems.OnlyReachableLoaded | internal/datamigrate/migrate.go:260-332 | the destination stays inside every set that contains the keys of all rows whose references it contains |
| LoadTheorems.IdlePassExactly | internal/datamigrate/migrate.go:146-182 | a pass adds nothing if and only if nothing loadable is missing |
| LoadTheorems.ShallowDataLoads | internal/datamigrate/migrate.go:146-182 | when two levels of references reach everything the loop loads everything, in any order |
| LoadTheorems.StopsWhileRowsLand | internal/datamigrate/migrate.go:173-181 | a three-level chain, children first, is left without its last row |
| LoopStops.LoopGoesOnExactly | internal/datamigrate/migrate.go:166-181 | the loop goes on after a pass if and only if some table is unfinished and the pass finished a table or landed more rows of an unfinished table than the pass before |
| Turns.PresentExactly | internal/datamigrate/migrate.go:146-182 | after k passes exactly the keys are held that were there or belong to a row whose turn to be added, read off the data, comes within k passes; skipping finished tables makes no difference |
| Turns.LoopCompleteExactly | internal/datamigrate/migrate.go:146-182 | for all data: the loop ends with nothing left to add if and only if, in those turns, every pass before an idle one within the budget finishes a table or adds more of its rows than the pass before |
| Landing.PresentInLandingPass | internal/datamigrate/migrate.go:146-182 | when rows share no unique key, a row is present after k passes if and only if its landing pass is at most k |
| Landing.LandingIsMaximum | internal/datamigrate/migrate.go:146-182 | the landing pass is one, or the latest at which a reference is due: its landing pass, plus one when it stands later in the order |
| Landing.LoadedExactly | internal/datamigrate/migrate.go:146-182 | then the loop loads everything if and only if the counts of rows per table and landing pass grow, or a table ends, in every pass before the last landing |
| QuarantineTruth.QuarantineIsLatestFailure | internal/datamigrate/migrate.go:538-540 | after any number of passes a key is quarantined if and only if the latest attempt under it failed |
| QuarantineTruth.RowsCopiedIsGrowth | internal/datamigrate/migrate.go:323-326 | RowsCopied is the number of merge rows copied before plus the number of rows newly present |
| QuarantineTruth.EveryRowAccountedExactly | internal/datamigrate/migrate.go:274-276 | for given texts, whatever is valid, refers to what or is there already: every row is present, absorbed by a row holding one of its unique keys, or quarantined if and only if the last row under each quarantine key has no unique key that another row under it lacks; counting its own row only, if and only if it has in addition no unique key but their common primary key |
| QuarantineTruth.SameKeyExactly | internal/datamigrate/migrate.go:479-494 | two rows are one to the quarantine if and only if their tables are and every cell, the primary key included, is recorded the same |
| QuarantineTruth.ShortKeysAccounted | internal/datamigrate/migrate.go:274-276 | distinct primary keys of at most 300 bytes, made of whole characters, are enough for the first form |
| QuarantineTruth.LongKeysConfused | internal/datamigrate/migrate.go:479-489 | two concrete keys that differ after the 300th byte are recorded as the same |
| QuarantineTruth.CutKeysConfused | internal/datamigrate/migrate.go:479-494 | two concrete keys cut inside `€` and `℃` differ in the bytes kept and are recorded as the same |
| QuarantineTruth.ConfusedRowsLoseEvidence | internal/datamigrate/migrate.go:479-494 | for every two different keys recorded as the same: of a failing row and a good one after it, one is present and the other ends neither present nor quarantined |
| QuarantineTruth.TakenAddressLosesRow | internal/datamigrate/migrate.go:290-328 | a concrete user whose email is taken ends neither present nor quarantined |
| LoadRerun.ListTableAndTruthAgree | internal/datamigrate/migrate.go:496-575 | from an empty table, after any number of passes, the list in memory and the table hold the same rows: those whose latest attempt failed |
| LoadRerun.LatestOnData | internal/datamigrate/migrate.go:260-332 | after k passes the latest attempt under a key failed if and only if, read off the data, the last row under that key fails at its turn in pass k |
| LoadRerun.LoadTruthExactly | internal/datamigrate/migrate.go:538-540 | over any starting table, after k passes the table holds exactly the rows whose latest attempt failed if and only if each row held at the start, read off the data, fails in pass k or fails in the first pass for a reason not left over |
| LoadRerun.EntriesSayWhy | internal/datamigrate/migrate.go:272-328 | every entry that is not a leftover stems from a failed attempt under its key and names the reason: no such table, an unresolvable column, or the insert |
| ReferenceMeaning.CopiedReferenceNamesSameRow | internal/datamigrate/migrate.go:110-182 | through both phases, a column that named a merge row by id or by key points to the present destination row with that row's natural key |
| Deviation.TripDeviationTracker.Step | internal/deviation/state.go:46-131 | state, distance and alert after one fix, rejected fixes included |
| Deviation.RejectedFixesAreInvisible | internal/deviation/state.go:49-69 | a stream and its accepted fixes alone give the same tracker and the same alerts |
| Deviation.AcceptedExactly | internal/deviation/state.go:49-69 | a fix is kept if and only if a corridor is known, its accuracy is unknown, unlimited or within the limit, and the distance from the last fix kept is within the speed limit, zero coordinates, zero times and fixes not later being no evidence |
| Deviation.AlertsAreSpaced | internal/deviation/state.go:93-128 | in an ascending stream consecutive alerts are at least min(cooldown, sustained time) apart and lie within the stream's span |
| Deviation.AlertRateBounded | internal/deviation/state.go:93-128 | hence (alerts - 1) such gaps fit into the span of the stream |
| Deviation.TrackerFollowsExcursion | internal/deviation/state.go:81-128 | state, start, streak and maximum are those of the current excursion, computed from the accepted fixes alone |
| Deviation.ExcursionIsBlock | internal/deviation/state.go:83-95 | an excursion is an unbroken block at the end of the stream, its first fix beyond the outer distance and the others beyond the return distance |
| Deviation.MaxDistIsMaximum | internal/deviation/state.go:101-103 | the recorded maximum bounds every fix of the excursion and is attained |
| Deviation.FirstAlertExactly | internal/deviation/state.go:93-110 | a fix raises the first alert if and only if its block has at least two and MinStreak fixes and spans the sustained time |
| Deviation.AlertsExactly | internal/deviation/state.go:93-128 | a fix that is kept raises an alert if and only if it goes on an excursion and makes it ripe, or goes on a ripe one at least a positive cooldown after the last alert |
| Deviation.TrackerRecallsLatest | internal/deviation/state.go:96-119 | between excursions the state is `ReturnedToRoute` exactly right after an alerted one, and the maximum stays that of the latest one |
| Smoothing.MedianRank | internal/fuel/engine.go:956-967 | the value returned is the lower median: its place among the readings, both ways |
| Smoothing.MedianWithstandsOutliers | internal/fuel/engine.go:956-967 | at most (n-1)/2 outliers cannot push it outside the range of the rest |
| Smoothing.OneOutlierMoreMovesIt | internal/fuel/engine.go:956-967 | that number is sharp from below |
| FuelEngine.VehicleFuelState.Detect | internal/fuel/engine.go:671-745 | events, baseline and stop tracking after one smoothed level |
| FuelEngine.VehicleFuelState.OdoRollback | internal/fuel/engine.go:757-799 | rollback detection and the advance of the odometer, which a failing write prevents |
| FuelEngine.VehicleFuelState.Pipeline | internal/fuel/engine.go:531-668 | the whole state and the events after one snapshot, replayed or live, also when the rollback event or the other events cannot be written |
| FuelStream.GapExactly | internal/fuel/engine.go:552-562 | a live reading resets the window exactly when it comes later than every dated reading before it by more than the tolerance |
| FuelStream.TripEndsExactly | internal/fuel/engine.go:535-547 | a trip ends exactly when the reading before was on it in one of the five active states and this one is on it in another |
| FuelStream.RollbackExactly | internal/fuel/engine.go:757-799 | a rollback is seen exactly when the odometer falls behind its last value by more than the tolerance, and stops the reading exactly when it cannot be written |
| FuelStream.LevelIsTapeMedian | internal/fuel/engine.go:571-614 | for every stream of a new vehicle: the window holds the newest readings since the last gap, the level is their median as of the last reading looked at, and a reading is held back exactly when none is and it lies off that median by more than the spike percentage |
| FuelStream.StopIsBlock | internal/fuel/engine.go:677-686 | the stop began with the first dated standing reading since which there is neither a gap nor a moving reading that was looked at |
| FuelStream.BaseExactly | internal/fuel/engine.go:538-559 | the fall is counted from the baseline or, right after a gap or a trip end, from the last level |
| FuelStream.KindsExactly | internal/fuel/engine.go:688-744 | over every stream, with the fall counted from the baseline: siphon is raised exactly when the trip is active, the stop read off the readings has lasted siphonStop and the fall reaches siphonL; theft exactly when standing on an active trip the fall reaches theftL and siphon is not due; abnormal drain exactly when moving in transit the fall reaches what the kilometres explain; refill exactly when the rise reaches refillL and nothing else is due; each with the levels before and after and their difference; and the baseline follows the level exactly on an event, when moving, or below the noise floor |
| FuelStream.OthersRaiseNothing | internal/fuel/engine.go:568-608 | the first reading, a held one, and one that is not measured raise nothing; the first sets the baseline and the others leave it to the gates |
| FuelStream.AccumulatorIsRefilled | internal/fuel/engine.go:539-543 | the accumulator is the sum of the refills since the last trip end |
| FuelLedger.StaysSound | internal/fuel/engine.go:582-614 | the window never exceeds its size, and level and baseline are established together |
| FuelLedger.LevelIsMedian | internal/fuel/engine.go:595-620 | the level is the lower median of the window after a detection and unchanged otherwise |
| FuelLedger.LevelWithstandsOutliers | internal/fuel/engine.go:595-620 | a minority of arbitrary readings cannot move the level outside the range of the others |
| FuelLedger.HeldReadingWaits | internal/fuel/engine.go:598-608 | a held spike changes neither window nor events, and never follows another held spike |
| FuelLedger.LedgerBalances | internal/fuel/engine.go:533-745 | over any stream, change of baseline = refills detected - losses detected + drift, drift arising only at trip ends, gaps and explained movements |
| FuelLedger.WrittenExactly | internal/fuel/engine.go:619-656 | the state and the events detected do not depend on whether the write succeeds |
| FuelLedger.WrittenBalances | internal/fuel/engine.go:619-656 | with the events actually written, the difference is exactly the events whose write failed after the state had moved on |
| FuelLedger.RemainderStaysSmall | internal/fuel/engine.go:688-743 | in every parked stretch, gaps and small movements included, what is unreported stays strictly between the refill and the theft threshold |
| FuelLedger.LevelsIgnoreBaseline | internal/fuel/engine.go:533-745 | the smoothed levels of a stream, which gaps and held spikes decide, are the same whatever the baseline was |
| FuelLedger.NothingForgottenExactly | internal/fuel/engine.go:736-743 | in a parked stretch the baseline moves by events alone, reading by reading, if and only if no gap and no reading below the noise floor comes while a reference that moves only where a level crosses a threshold is away from the level; the baseline is then that reference |
| FuelLedger.QuietForgetsNothing | internal/fuel/engine.go:736-743 | in particular without gaps and with movements that reach the noise floor |
| FuelLeak.SlowLeakIsNeverReported | internal/fuel/engine.go:736-743 | for every n, every window size and every interval up to the gap tolerance: n readings of a new parked vehicle at that interval, each falling by less than the noise floor, leave no gap, take the level down by the fall per reading once the window is full, and raise no event |
| FuelLeak.TankRunsDownUnseen | internal/fuel/engine.go:736-743 | a concrete 200-litre tank of a new vehicle, read once a minute, loses a litre a minute down to 42 litres that way |
| FuelLedger.LitresFitExactly | internal/fuel/engine.go:938-954 | a converted level fits the tank if and only if litres are read, or level or capacity is at most 100 |
| FuelLedger.ClampKeepsExactly | internal/fuel/engine.go:945-954 | the clamp leaves a reading alone if and only if it lies between 0 and the capacity, whatever its unit |
| FuelLedger.PercentOverflows | internal/fuel/engine.go:576 | 150 percent of a 200-litre tank are taken as 300 litres |
| FuelLedger.AbnormalDrainIsLossExactly | internal/fuel/engine.go:714-722 | abnormal drains always report a loss if and only if the expected burn is positive |
| FuelLedger.MissingOdometerReportsNothing | internal/fuel/engine.go:747-755 | without an odometer an unchanged level is reported as an abnormal drain of zero litres |
| Geohash.Geohash6 | internal/eta/segments.go:137-174 | the halving loop returns the text of the two cell indices |
| Geohash.DecodeNamesCell | internal/eta/segments.go:137-174 | for every text length, six in the code: decoding gives a cell if and only if the point lies in it |
| Geohash.SameTextSameCell | internal/eta/segments.go:137-174 | for every text length: two points get the same text if and only if they share a cell |
| Geohash.CellContainsPoint | internal/eta/segments.go:137-174 | for points in range the decoded cell, 360/2^15 by 180/2^15 degrees, contains the point |
| Geohash.AlphabetExactly | internal/eta/segments.go:139 | the characters are the digits and small letters without a, i, l and o, counted in the order of their codes |
| Geohash.JutlandIsU4pruy | internal/eta/segments.go:137-174 | the well-known point 57.64911, 10.40744 is `u4pruy` |
| Segments.ExtractSegments | internal/eta/segments.go:39-119 | one segment, in order, for every maximal run above 5 km/h lasting two minutes, and no other |
| Segments.UsableExactly | internal/eta/segments.go:58-83 | the points are the rows with both coordinates and a time, in order, each with its own values; a missing speed is standing |
| Segments.SegmentsReportDrives | internal/eta/segments.go:84-118 | every segment reports a maximal stretch above 5 km/h that takes at least 120 seconds to its closing point: its texts decode to the cells of its first and of its closing point and to no others, its number is the whole minutes between them; and every such stretch is reported |
| Segments.SegmentsDisjoint | internal/eta/segments.go:39-41 | for an ascending stream segments follow each other in time and last at least two minutes |
| Segments.TotalWithinSpan | internal/eta/segments.go:53-118 | all segments together never last longer than the observed span of the trip |
| Segments.SegmentationUnique | internal/eta/segments.go:53-118 | the list of runs is determined by the points |
| EtaGuard.Guard.Apply | internal/eta/service.go:326-349 | the guarded arrival and the memory after one call |
| EtaGuard.GuardIsEnvelope | internal/eta/service.go:326-349 | a trip's guarded arrival depends on its own raw arrivals only, whatever calls for other trips come between |
| EtaGuard.EnvelopeIsMaximum | internal/eta/service.go:336-349 | it is the maximum of raw arrival k less the allowance for every call since |
| EtaGuard.GuardIsLeastAdmissible | internal/eta/service.go:336-349 | the guarded sequence never drops by more than the allowance, never undercuts the raw one, and is the least such sequence |
| MemoryCache.Cache.Get | internal/cache/cache.go:151-162 | a hit exactly for a live entry, in a copy no one else holds |
| MemoryCache.Cache.Set | internal/cache/cache.go:164-178 | stores the bytes as they are at the call, with the default lifetime for none |
| MemoryCache.Cache.Increment | internal/cache/cache.go:206-222 | opens a window or counts on in the open one |
| MemoryCache.Cache.Sweep | internal/cache/cache.go:224-248 | exactly the expired entries and counters go |
| MemoryCache.ScribblingIsHarmless | internal/cache/cache.go:158-168 | callers overwriting the slice they stored or got back do not change the cached bytes |
| MemoryCache.GetHitsExactly | internal/cache/cache.go:151-192 | after any history, clocks read in any order, a read that looks at the clock after all earlier sweeps hits if and only if the last write to the key was a Set whose lifetime has not passed |
| MemoryCache.WindowCounts | internal/cache/cache.go:206-222 | the counter of a window is the number of increments since the one that opened it, and its expiry was fixed then |
| MemoryCache.IncrementCounts | internal/cache/cache.go:206-222 | unless a sweep with a later clock came first, an increment returns n as the n-th of its window, and opens a new one if and only if none is open or it has expired |
| MemoryCache.JanitorUnobservableExactly | internal/cache/cache.go:206-248 | every reply of a history is the one it has when all sweeps are removed if and only if no operation comes to a record, still alive by its own clock, after a sweep with a later clock has removed it |
| MemoryCache.OrderedClocksHideTheJanitor | internal/cache/cache.go:224-248 | so sweeps are unobservable whenever clocks are read in the order of the lock |
| MemoryCache.LateLockResetsCount | internal/cache/cache.go:210-217 | a concrete history in which a sweep resets an open count |

## Left out

- SQL text, drivers, JSON, HTTP, logging, templates and mobile code: input and output only.
- Integer and floating-point widths: placeholder numbers, times and counters are unbounded integers, levels and coordinates exact reals, so 64-bit overflow and rounding are not captured.
- Rebind.Rebind: a query is a sequence of bytes written as characters; the placeholder numbers do not wrap at 64 bits.
- OutboxTick.Process: the poll's result and the answers are parameters; that the poll takes the oldest rows first, and the jitter pauses between WhatsApp messages, are not modelled. In the protocol push-backs may hit any set of pending and failed rows.
- LoadLoop.LoadTables: statements of the quarantine are taken not to fail; `Summary.Quar` and `Summary.Unquar` cover failing ones on their own.
- LoadLoop.CopyTable: reads of the source are taken not to fail and to give the same rows in every pass; in the code a failing read returns with nothing skipped, which marks the table done as if it were empty.
- LoadLoop.CopyRow: a coerced cell either fits its column or makes the row invalid; `CoerceValue` is left out. Of the JSON encoding of rows, what makes two texts equal is modelled, the replacement of bytes that are no part of a whole character; its escapes are not. A row's other unique values are given with it, as they are after the rewriting of references.
- LoadRerun.LoadTruthExactly: a row has one reason to fail, without the column or text it names: a missing table, a name that does not resolve or a failing insert; the error texts of inserts, which may change from pass to pass as references land, are not told apart.
- LoadTheorems.RankLoaded: speaks of rows that share no unique key; which of two rows with a common key is added depends on the order, as `Turns.PresentExactly` describes.
- MergeMap.CopyMergeTable: inserts of merge rows are taken to succeed or be absorbed; a failing one would be quarantined.
- MergeMap.ResolveNamesSameRow: assumes numeric unique ids and non-numeric unique keys, as the merge tables declare them.
- Dry-run savepoints, sequence resets, count reports and prechecks of the migration.
- Deviation: the distance to the corridor is part of a fix and the distance between fixes is an arbitrary function; trigonometry is not modelled. `StateSustained` is kept although nothing enters it.
- FuelEngine.VehicleFuelState.Pipeline: driver attribution, the writing of events and the hooks after it are left out. What the hooks do with an event is not modelled.
- Segments.ExtractSegments: parsing of device times is a missing-or-present column, and a failing read is not modelled.
- MemoryCache: Redis, the no-op cache and the timer that starts the sweeps are left out.
- `odometerRemaining`, `timePropRemaining` and the fallback texts of the arrival service: single expressions.
- Agent approvals, e-way bills, FASTag, fuel cards, authentication, authorisation and the feature services: row plumbing or wrappers over external systems.
