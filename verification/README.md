# Verified model of osquery's stateful core

A Dafny model of the parts of osquery whose correctness depends on state that outlives a call: the
buffered event store behind every `*_events` table, the differential result store of scheduled queries,
the crash blacklist, splay and drift of the schedule, the interrupt handshake of service threads, database
upgrades, the distributed work queue, the example writable table and the shell's C-style quoting.
`dafny verify dfyconfig.toml` checks the whole project.

## How it is organised

| file | what it holds |
|---|---|
| `Text.dfy` | decimal numbers, `osquery::split`, joined lists, and their round trips |
| `EventKeys.dfy` | zero-padded event ids as store keys |
| `EventModel.dfy` | the state of one subscriber and what each operation does to it |
| `EventInvariant.dfy`, `EventEviction.dfy` | what every operation keeps; when expiry is exact; overflow |
| `EventReads.dfy` | time-window reads against a plain scan; the window of `genTable` |
| `EventDisorder.dfy`, `EventRuns.dfy` | events dated in any order: what is kept, what reads return, whole runs |
| `EventDelivery.dfy` | whole runs of the daemon: delivery and expiry |
| `EventIds.dfy` | event ids over crashes and restarts |
| `EventSubscriber.dfy` | the subscriber object, method by method, proved to do what `EventModel` says |
| `QueryResults.dfy` | `diff`, `addNewResults`, replay, crashes, the counter |
| `Blacklist.dfy` | the blacklist text, and its protocol across process lifetimes |
| `Scheduler.dfy`, `SchedulePace.dfy` | splay, ticks, drift; why the schedule keeps the pace expiry needs |
| `InterruptHandshake.dfy` | `interrupt` and `pause` as interleaved steps |
| `DatabaseMigration.dfy` | the audit key rename under crashes, and the version loop |
| `DistributedQueue.dfy` | accepted work, results and written documents |
| `WritableTable.dfy` | the two-map table |
| `ShellQuoting.dfy` | quoting, tokenizing and in-place dequoting |

Code that changes fields step by step is a class whose methods carry loops and invariants; each such method
is tied to a function on values, and the promises are lemmas about that function. Protocols are state machines,
and their main results range over every run.

## What the environment is taken to do

- Database operations succeed and each write of a key, or of one batch, is atomic. Range deletion includes both ends.
- Clocks, random draws, SQL answers, plugin verdicts and crash points are parameters.
- One subscriber namespace; each public call is one step. Event times are at least one, the clock does not go back and is
  never smaller than the expiry, and event ids stay below ten to the tenth.
- For the delivery theorems an event is dated at most one second before the latest read of its table and not before the
  event ahead of it (`EventDelivery.Enabled`). Without that, `EventDisorder.RunReturns` says which rows a watermark read returns, and
  `EventRuns` follows rows dated too early or too late through whole runs.
- The pace of the schedule (`EventDelivery.Fair`) is derived in `SchedulePace` for a tick loop that was running at the configuration
  update and keeps up with the clock as far as `SchedulePace.KeepsUp` says; each query reads at some time during its tick.
- Reads without a query name, as by distributed queries, are steps of the runs like reads by scheduled queries; both follow a
  configuration update.
- The listed texts are lists of values in the event model; the number and separator encodings are proved in `Text.dfy` and used where
  a theorem depends on them (padded keys, blacklist, splay cache, database version).

## Where the code does not do what one would expect

Each is a lemma with a concrete input, next to the exact condition under which the expectation holds.

- A query is counted as executed before it reads. On its first run after a configuration update it can therefore delete
  an older event it has never received (`EventDelivery.FirstRunMayLoseOldEvent`). `EventDelivery.NoEventExpiresUnseen` says exactly when
  a run loses an event for a query, and `EventDelivery.OnlyFirstRunDropsUnseen` that nothing but such a first run does, so that events
  dated after the update never are (`EventDelivery.RecentEventIsSeen`).
- A query that crashed the daemon is forgotten when the next start dies after clearing the executing key and before saving the
  blacklist (`Blacklist.DeathDuringStart`); it stays out for a day exactly when the start gets past the save
  (`Blacklist.CrashedQueryStaysOut`).
- A row dated before the watermark time of a query is never returned to it, and a row dated in the future is returned by every read
  until the clock reaches it (`EventRuns.LateRowIsMissed`, `EventRuns.FutureRowRepeats`; for all runs
  `EventRuns.LateRowIsNeverReturned`, `EventRuns.FutureRowIsReturned`; for one read, exactly, `EventDisorder.RunReturns`).
- The watermark is the last id of the latest minute read, not the largest id (`EventDisorder.RunMarks`). With events out of time order a query
  can receive a row twice that is neither late nor dated in the future (`EventRuns.OlderMinuteRepeats`); exactly when in
  `EventRuns.NextReadReturns`.
- A negative lower bound on `time` becomes an enormous unsigned one and hides every row (`EventReads.NegativeBoundLosesRow`,
  `EventReads.WindowKeepsMatches`). Upper bounds never narrow the window at all.
- With events out of time order, expiring a minute by key range can take a live row of another minute with it
  (`EventDisorder.OutOfOrderExpiryTakesLiveRow`); it is exact if and only if no other row has an id inside the range
  (`EventInvariant.RangeExactIff`, for a whole index query `EventInvariant.ExpiryExactIff`). Overflow eviction can in the same way delete a row
  above its threshold (`EventRuns.EvictionTakesNewRow`, exactly when in `EventDisorder.EvictionAnyOrder`).
- The limit on stored events is checked only when a batch ends at a multiple of 256 (exactly, `EventDisorder.AddBatchRows`). Events added one at a time
  stay within the limit and 257 rows (`EventRuns.SingleEventsBounded`); a single event followed by batches of two is never checked and
  the store grows without bound (`EventRuns.PairsAreNeverEvicted`).
- The documentation says that counter zero marks results that include all records. An altered query restarts its counter although it
  reports only a difference (`QueryResults.ZeroCounterWithPartialResults`, exactly when in `QueryResults.AddedIsEverything`), and a query
  whose text and epoch change together restarts its counter twice (`QueryResults.SecondRunCountsUp`).
- A run that dies after storing its rows takes its difference with it: the stored rows recover, a reader of the log does not
  (`QueryResults.CrashLosesDifference`, exactly when in `QueryResults.ReaderCatchesUpIff`).
- If no discovery query of a distributed request returns a row, all of its queries run
  (`DistributedQueue.EmptyDiscoveryAcceptsAll`, exactly when a query is held back in `DistributedQueue.HeldBackIff`).
- A blacklist comes back whole exactly when every name is trimmed, non-empty and free of colons (`Blacklist.ListSurvives`). One name with a
  colon between clean parts, or the empty name, loses all entries (`Blacklist.ColonLosesBlacklist`, `Blacklist.EvenNameLosesAll`); two
  such names are misread and an entry appears for a query that was never listed (`Blacklist.TwoColonsAreMisread`).
- A key that holds ".audit." twice, overlapping or not, is renamed again by a second run (`DatabaseMigration.RenamedAgain`), and a second run
  has nothing to do in every scan order exactly when no key does (`DatabaseMigration.SettledIff`,
  `DatabaseMigration.RerunHasNothingToDoIff`). Two keys can
  migrate to one name (`DatabaseMigration.SourcesMayCollide`, exactly when in `DatabaseMigration.KeysKeptIffDistinct`).
- A token of a shell command that ends in a lone backslash swallows its own terminator: the next argument is overwritten and lost
  (`ShellQuoting.DanglingBackslashLosesArgument`). Resolving stays inside the token exactly when no backslash dangles
  (`ShellQuoting.ResolveStaysInsideIff`).
- Two rows of the writable table with different columns can have one primary key (`WritableTable.PrimaryKeysCollide`; not if one of the
  two columns agrees, `WritableTable.PrimaryKeyKeepsParts`).
- Inserting or updating a table row under a row id that is in use breaks the table (`WritableTable.UsedRowIdBreaksTable`;
  `WritableTable.Table.Insert` and `Update` state the exact condition).

## Model

| member | source | states |
|---|---|---|
| EventKeys.PaddingPreservesOrder | osquery/events/events.cpp:58-64 | below ten digits, byte order of padded ids is numeric order, both directions |
| EventKeys.PaddedText | osquery/events/events.cpp:58-64 | id 7 as a key |
| EventInvariant.NoPartialBin | osquery/events/events.cpp:197-206 | an expiry time that is a multiple of sixty never cuts through a minute |
| EventInvariant.PartialBranchNeverRuns | osquery/events/events.cpp:197-206 | in such states the partial-bin branch changes nothing, whatever the index lists |
| EventInvariant.PartialExpiryExact | osquery/events/events.cpp:250-269 | if that branch does run it removes exactly the bin's rows up to the expiry time and their records, in any arrival order |
| EventInvariant.BinExpiryExact | osquery/events/events.cpp:232-269 | with events in time order, deleting the key range from a bin's first to last id removes all of that bin's rows and no other row |
| EventInvariant.RangeExactIff | osquery/events/events.cpp:232-269 | in any order, it does so if and only if no row of another bin has an id inside the range |
| EventInvariant.ExpirySweeps | osquery/events/events.cpp:186-294 | in any order, an index query takes exactly the key ranges of the expired bins and keeps the store sound |
| EventInvariant.ExpiryExactIff | osquery/events/events.cpp:186-294 | an index query removes exactly the expired bins' rows if and only if the gate is closed or no live row is caught in their ranges |
| EventDisorder.OutOfOrderExpiryTakesLiveRow | osquery/events/events.cpp:246-249 | three batches and two reads, in which the second read deletes a row that has not expired |
| EventInvariant.ExpiryExact | osquery/events/events.cpp:186-294 | an index query drops exactly the expired bins from rows, records and index, once all queries have executed, and keeps the invariant |
| EventInvariant.PurgedRows | osquery/events/events.cpp:197-215 | a row goes if and only if the gate is open and its time lies before the expiry time |
| EventDisorder.ReadMovesExpiry | osquery/events/events.cpp:550-562 | a read puts the expiry time at the last full minute before the clock minus the longer expiration, and leaves it with expiry off |
| EventDisorder.OldRowGoes | osquery/events/events.cpp:186-294 | a row older than its expiration and a minute at one read is gone after the next one that finds all queries executed |
| EventDisorder.RestartForgetsExpiry | osquery/events/events.cpp:197-215 | the first read after a restart removes nothing |
| EventInvariant.ConfigureIs | osquery/events/events.cpp:731-752 | the minimum expiration is the first full minute beyond three times the largest interval |
| EventInvariant.IssueEidsIs | osquery/events/events.cpp:486-509 | ids are consecutive and never pass the persisted block end |
| EventInvariant.RecordEventsIndexed | osquery/events/events.cpp:428-476 | a batch of any time adds exactly its records and keeps rows, records and index in agreement |
| EventEviction.ThresholdDoesNotUnderflow | osquery/events/events.cpp:303-323 | in any order of dates, when the buffer overflows the persisted id exceeds the limit, so the subtraction cannot wrap |
| EventDisorder.EvictionAnyOrder | osquery/events/events.cpp:296-379 | in any order of dates: no row below the threshold stays, at most max + 1 rows remain, and a row from the threshold on stays if and only if the index expiry that follows does not take it with the key range of an older minute |
| EventEviction.EvictionSafeAndBounded | osquery/events/events.cpp:296-379 | with events in time order every row from the threshold on survives, index expiry included; every row below it goes; at most max + 1 rows remain |
| EventRuns.EvictionTakesNewRow | osquery/events/events.cpp:360-378 | out of time order it need not: a run in which row 9 is deleted at threshold 2 |
| EventEviction.AddBatchInv | osquery/events/events.cpp:578-639 | a batch in time order keeps the invariant and adds exactly its rows |
| EventDisorder.AddBatchRows | osquery/events/events.cpp:578-639 | for any dates, row by row: a batch adds its own rows and keeps the earlier ones, unless its last id is a multiple of 256 and the buffer was over the limit; then those below the threshold, and those the index expiry takes, go |
| EventDisorder.AddBatchCount | osquery/events/events.cpp:622-626 | a batch that ends at a multiple of 256 leaves at most the limit, one more and its own rows |
| EventRuns.StoredRowsBounded | osquery/events/events.cpp:622-626 | over every run, at most the limit, one more and the rows added since the last check are stored |
| EventRuns.SingleEventsBounded | osquery/events/events.cpp:569-576 | over every run of events added one at a time, at most the limit and 257 rows |
| EventRuns.PairsAreNeverEvicted | osquery/events/events.cpp:622-626 | batches of two after a single event are all stored, whatever the limit |
| EventReads.ReadAgrees | osquery/events/events.cpp:511-548 | a read emits exactly the unexpired rows of its window, each once |
| EventReads.WindowAgreesWithScan | osquery/events/events.cpp:180-230 | under the time-order invariant the minute index agrees with a scan of the unexpired rows |
| EventDisorder.WindowAgrees | osquery/events/events.cpp:180-230 | in any order it agrees with a scan of the rows that expiry left |
| EventDisorder.AddBatchSound | osquery/events/events.cpp:578-639 | a batch dated anyhow keeps the store sound, takes new ids and changes no older row |
| EventDisorder.GetSound | osquery/events/events.cpp:511-567 | so does a read of any window in any mode |
| EventRuns.WindowReadsAgree | osquery/events/events.cpp:428-567 | over every run of batches, reads, updates and restarts: each window read returns the rows its expiry left, each once, however events are dated; if they are dated in order, exactly the unexpired rows |
| EventReads.OutOfOrderWindow | osquery/events/events.cpp:511-548 | so it does for out-of-order times while nothing expires |
| EventReads.AnyBatchesAnyWindow | osquery/events/events.cpp:428-548 | after any batches with any times every window read returns exactly its rows |
| EventReads.WindowKeepsMatches | osquery/events/events.cpp:105-124 | a row matching all time constraints is in the window iff some constraint is an equality or no lower bound is negative |
| EventReads.WindowIs | osquery/events/events.cpp:105-124 | which times lie in the window, matching or not: an equality's own operand, or all if that is zero; else those that satisfy every lower bound, and none if one is negative |
| EventReads.NegativeBoundLosesRow | osquery/events/events.cpp:113-116 | "time > -5" hides a row of time 7 |
| EventDisorder.RunReturns | osquery/events/events.cpp:386-426 | which rows a watermark read returns, for every row and any dates: above the watermark iff not dated before the last read, at or below it iff also dated in the future |
| EventRuns.LateRowIsNeverReturned | osquery/events/events.cpp:526-532 | over every continuation of every run, a row dated before the watermark time of a query is never returned to it until a window read by that query sets the watermark back |
| EventRuns.StepKeepsLate | osquery/events/events.cpp:101-140 | a step ends that state if and only if it is such a window read, after a watermark read no later than the row |
| EventRuns.FutureRowIsReturned | osquery/events/events.cpp:415-420 | in every run, a row dated after the clock is returned by every read |
| EventRuns.LateRowIsMissed | osquery/events/events.cpp:125-140 | a concrete run: an event dated 50 after a read at 100, missed in all continuations |
| EventRuns.FutureRowRepeats | osquery/events/events.cpp:125-140 | a concrete run: an event dated 1000 returned at 10 and at 11 |
| EventDelivery.RunDelivers | osquery/events/events.cpp:125-140 | a watermark read returns, in id order, exactly the unexpired rows above the query's watermark |
| EventDisorder.RunMarks | osquery/events/events.cpp:526-532 | in any order of dates, the new watermark is the last id of the latest minute the read gathered, or unchanged if it gathered nothing |
| EventRuns.NextReadReturns | osquery/events/events.cpp:386-426 | over every run: what a query's next read returns, and so when it receives a row again: the row is still stored and dated after that read, or dated at the earlier read minus one or later with an id above the mark that read left |
| EventRuns.OlderMinuteRepeats | osquery/events/events.cpp:526-532 | a run in which a row dated in the past and not late is returned twice |
| EventDelivery.RunMark | osquery/events/events.cpp:526-532 | with events in time order, the watermark covers every stored record after a read and never moves back |
| EventDelivery.RunShape | osquery/events/events.cpp:550-567 | what a read leaves behind: purged rows, new watermark, rounded expiry time |
| EventDelivery.StepKeeps | osquery/events/events.cpp:66-639 | adding, reading with and without a query name, reconfiguring and restarting keep the invariant of the run |
| EventDelivery.ExactlyOnce | osquery/events/events.cpp:66-140 | over every run with events in time order: a query receives ids in increasing order, only added ids, after its run every row left; if nothing was lost, exactly the events added so far |
| EventDelivery.NoEventExpiresUnseen | osquery/events/events.cpp:381-384 | over every stretch of every run, fair and without overflow: an event ends up gone and never received by a query if and only if the query itself read when all others had executed, the event before the expiry time and above its watermark |
| EventDelivery.OnlyFirstRunDropsUnseen | osquery/events/events.cpp:731-752 | that happens only on the query's first run since the configuration update, to an event dated two seconds before it or earlier |
| EventDelivery.RecentEventIsSeen | osquery/events/events.cpp:180-294 | in such a stretch without configuration updates, an event dated later than that stays until every scheduled query has received it |
| EventDelivery.FirstRunMayLoseOldEvent | osquery/events/events.cpp:133-139 | and it does happen: a concrete fair run that loses an event for one query |
| EventIds.IdsNeverRepeat | osquery/events/events.cpp:486-509 | over calls, crashes after the write and restarts, ids strictly increase |
| EventSubscriber.Subscriber.GetEventID | osquery/events/events.cpp:486-509 | the object issues the next id and persists block ends |
| EventSubscriber.Subscriber.GetRecords | osquery/events/events.cpp:386-426 | the nested loops compute the records of the bins that the watermark does not cover |
| EventSubscriber.Subscriber.ExpireRecords | osquery/events/events.cpp:232-269 | range or per-record deletion and the rewritten list are what the model says |
| EventSubscriber.Subscriber.ExpireIndexes | osquery/events/events.cpp:271-294 | every expired bin is removed from store and index list |
| EventSubscriber.Subscriber.GetIndexes | osquery/events/events.cpp:180-230 | the selected bins come back sorted and expired ones are gone |
| EventSubscriber.Subscriber.KeyBounds | osquery/events/events.cpp:327-350 | the scan with zero as sentinel finds the smallest and the largest key below the threshold |
| EventSubscriber.Subscriber.EvictBelow | osquery/events/events.cpp:352-358 | one key or one key range deletion removes exactly the rows below the threshold |
| EventSubscriber.Subscriber.ExpireCheck | osquery/events/events.cpp:296-379 | eviction, then index expiry at the threshold row's time |
| EventSubscriber.Subscriber.RecordEvents | osquery/events/events.cpp:428-476 | the records are appended and a new bin is listed once |
| EventSubscriber.Subscriber.AddBatch | osquery/events/events.cpp:578-639 | ids, checkpoint eviction, rows and records in that order, at the custom time or the clock; an empty batch fails and changes nothing |
| EventSubscriber.Subscriber.Get | osquery/events/events.cpp:511-567 | rows, watermark and expiry time of a read |
| EventSubscriber.Subscriber.BuildWindow | osquery/events/events.cpp:106-124 | the constraint loop with its early exit computes the window |
| EventSubscriber.Subscriber.GenTable | osquery/events/events.cpp:105-140 | which of the three read modes is taken and what each returns |
| EventSubscriber.Subscriber.ConfigUpdate | osquery/events/events.cpp:731-752 | minimum expiration from the largest interval, query count, cleared set; untouched without queries |
| QueryResults.StorageRoundTrip | osquery/core/query.cpp:202-214 | results survive storage iff no column name is empty |
| QueryResults.NamedColumnsStay | osquery/core/query.cpp:202-214 | storing keeps every column that has a name |
| QueryResults.AddedIsDifference | osquery/core/query.cpp:340-357 | added rows are the multiset difference current minus earlier |
| QueryResults.Diff | osquery/core/query.cpp:340-357 | the loops report the two multiset differences |
| QueryResults.Query.AddNewResults | osquery/core/query.cpp:87-168 | stored keys, counter and differences of a run, with or without a differential |
| QueryResults.RunIs | osquery/core/query.cpp:95-168 | what a completed run leaves under each key |
| QueryResults.RunStoresCurrent | osquery/core/query.cpp:140-167 | from any database content, stored rows equal current rows under the current epoch, also when nothing is written |
| QueryResults.ReplayIsTruth | osquery/core/query.cpp:95-168 | within an epoch, folding all differences from a fresh run on gives the latest results and the stored rows |
| QueryResults.FreshRunReports | osquery/core/query.cpp:99-142 | a first run, a run under another epoch and one without a differential report all rows as added and none as removed |
| QueryResults.DifferentialRunReports | osquery/core/query.cpp:123-137 | every other run reports the two multiset differences |
| QueryResults.RunWrites | osquery/core/query.cpp:95-168 | which keys a run writes and with what, from the stored fields and the result alone; a differential run that finds nothing new writes only counter and text |
| QueryResults.CrashRecovery | osquery/core/query.cpp:146-167 | after any runs and crashes between writes, the next completed run restores agreement |
| QueryResults.ReaderCatchesUpIff | osquery/core/query.cpp:123-142 | a reader of the log, whatever it holds, holds the current rows after a differential run if and only if, row by row, it held what was stored, or at most that of a row now gone |
| QueryResults.CrashLosesDifference | osquery/core/query.cpp:146-167 | a run that dies with its rows stored and not reported leaves a reader behind for good |
| QueryResults.CrashKeepsEpochBehind | osquery/core/query.cpp:154-165 | a crash never leaves rows under the epoch of a later run |
| QueryResults.CounterCountsRuns | osquery/core/query.cpp:38-50 | the counter is the number of runs since the last fresh or altered run |
| QueryResults.AddedIsEverything | osquery/core/query.cpp:123-142 | the added set is the whole result iff the run was fresh or shares no row with the stored ones |
| QueryResults.ZeroCounterWithPartialResults | osquery/core/query.cpp:112-117 | an altered query reports counter zero with a mere difference |
| QueryResults.SecondRunCountsUp | osquery/core/query.cpp:103-117 | a repeated run counts up iff the earlier one did not follow a new epoch together with a new text |
| Blacklist.RestoreSaved | osquery/config/config.cpp:276-305 | restoring a saved blacklist gives exactly its unexpired part, for good names in any order |
| Blacklist.ListSurvives | osquery/config/config.cpp:276-305 | any rendering of entries in force is restored whole if and only if every name is trimmed, non-empty and free of colons |
| Blacklist.EvenNameLosesAll | osquery/config/config.cpp:279-283 | one name that splits into an even number of pieces loses the whole list, good names included |
| Blacklist.ColonLosesBlacklist | osquery/config/config.cpp:279-283 | so does any single name with one colon between clean parts, in every list of otherwise good names |
| Blacklist.TwoColonsAreMisread | osquery/config/config.cpp:285-293 | two such names restore an entry for a query that was never listed |
| Blacklist.StepKeeps | osquery/config/config.cpp:307-324 | both writes of a start, lookups, finishes and deaths keep what is on disk readable, and the process informed of it |
| Blacklist.BlockedStays | osquery/config/config.cpp:404-453 | a blocked query stays blocked through every step and is not launched |
| Blacklist.CrashedQueryStaysOut | osquery/config/config.cpp:307-324 | over every run: when a process starts with q in the executing key, q is not launched for a day, in this or any later lifetime and unless it opts out, if and only if the start gets past saving the blacklist |
| Blacklist.KilledQueryStaysOut | osquery/config/config.cpp:307-324 | a query that is launched, takes the process down and is saved by the next start stays out for a day |
| Blacklist.LookUpIs | osquery/config/config.cpp:404-449 | a look-up launches a due query if and only if it has no entry, its entry has run out or it opts out; the entry is gone then, from list and disk, and all others stay |
| Blacklist.ReleasedAfterADay | osquery/config/config.cpp:404-417 | in the lifetime that saved a query, any due look-up more than a day later launches it |
| Blacklist.FinishedIsNotListed | osquery/config/config.cpp:950-959 | a start after a query has finished adds no entry |
| Blacklist.DeathDuringStart | osquery/config/config.cpp:316-323 | a concrete run: a start that dies between its two writes, and the next one launches q |
| Blacklist.Schedule.Start | osquery/config/config.cpp:307-324 | executing key cleared first; then the restored list plus the crashed query, saved, unless the process dies in between |
| Blacklist.Schedule.RestoreScheduleBlacklist | osquery/config/config.cpp:276-294 | the parsing loop restores what the model says |
| Blacklist.Schedule.SaveScheduleBlacklist | osquery/config/config.cpp:296-305 | the text is a rendering of the map |
| Blacklist.Schedule.Consider | osquery/config/config.cpp:429-449 | an expired or opted-out entry is erased and saved, another one blocks |
| Text.SplitJoin | osquery/core/conversions.cpp:314-326 | splitting joined clean pieces gives the pieces back |
| Text.SplitPieces | osquery/core/conversions.cpp:314-326 | every piece is trimmed and free of the delimiter |
| Text.SplitKeepsBlanks | osquery/core/conversions.cpp:314-326 | pieces are trimmed after empty ones were dropped, so that one of blanks stays as an empty piece |
| Text.TrimTakesBlanks | osquery/core/conversions.cpp:322-324 | trimming takes nothing but blanks, at the ends only |
| Text.BlanksAre | osquery/core/conversions.cpp:322-324 | the six blanks that are trimmed |
| Text.NumberRoundTrip | osquery/core/conversions.h:242-262 | numbers survive being written and parsed |
| Text.NumberTexts | osquery/core/conversions.h:242-262 | blanks, signs and trailing text that are let pass, and texts without a number that are not |
| Text.HugeNumberIsRefused | osquery/core/conversions.h:242-262 | a number beyond the range is refused |
| Scheduler.SplayValue | osquery/config/packs.cpp:45-65 | whatever the random engine delivers, the value lies in [1, 2 * interval] and within the percentage, up to the float error |
| Scheduler.EveryValueIsDrawn | osquery/config/packs.cpp:58-65 | every value of the range can be drawn |
| Scheduler.SplayCache.RestoreSplayedValue | osquery/config/packs.cpp:89-114 | a readable entry for the interval is returned, otherwise the new value is stored |
| Scheduler.SplayIsBounded | osquery/config/packs.cpp:89-114 | after any requests the splay, cached or newly drawn, lies in [1, 2 * interval] |
| Scheduler.SplayIsSticky | osquery/config/packs.cpp:89-114 | the same value comes back whatever is drawn, until the name is asked for with another interval |
| Scheduler.PairIsUsedIff | osquery/config/packs.cpp:89-107 | a cached pair is used if and only if it holds the interval asked for and a positive number |
| Scheduler.SinglePieceIsIgnored | osquery/config/packs.cpp:94-96 | a cached text that is no pair is not used |
| Scheduler.GapIsSplay | osquery/dispatcher/scheduler.cpp:181-185 | a query fires with gaps of exactly its splayed interval |
| Scheduler.FiresAtMultiples | osquery/dispatcher/scheduler.cpp:184-185 | a query fires at the multiples of its splayed interval, and never without one |
| Scheduler.FiresInEveryWindow | osquery/dispatcher/scheduler.cpp:181-185 | it fires in every stretch of three intervals |
| Scheduler.RunTicks | osquery/dispatcher/scheduler.cpp:178-228 | elapsed time is ticks times interval plus drift plus abandoned drift; nothing is abandoned if and only if no stretch of ticks overruns by more than the bound, and then the drift is the greatest overrun of a stretch that ends now |
| Scheduler.GivingUpLeavesNothing | osquery/dispatcher/scheduler.cpp:219-222 | when a tick makes a stretch overrun the bound, all of the greatest overrun is abandoned |
| Scheduler.GoesOnAfresh | osquery/dispatcher/scheduler.cpp:212-223 | a loop without drift goes on like one that has just started |
| SchedulePace.SplayedScheduleIsFair | osquery/dispatcher/scheduler.cpp:178-228 | a splayed schedule run by a tick loop with drift, each query reading at any time during its tick, meets the pace that event expiry relies on, if the loop falls behind by at most m seconds in 2 * m ticks, m the largest interval |
| SchedulePace.NoneAbandonedKeepsUp | osquery/dispatcher/scheduler.cpp:214-223 | a loop that never abandons drift does not fall behind further, if its drift bound and the work of a tick stay within m seconds together |
| InterruptHandshake.StepKeeps | osquery/dispatcher/dispatcher.cpp:24-45 | every step of either side keeps the handshake invariant |
| InterruptHandshake.NoLostWakeup | osquery/dispatcher/dispatcher.cpp:24-45 | in every interleaving stop runs at most once, and after the winning call returns the thread neither waits nor is about to |
| InterruptHandshake.InterruptTakesEffect | osquery/dispatcher/dispatcher.cpp:24-34 | in every run, once a call has reached its exchange the runnable is interrupted |
| InterruptHandshake.AllCallsOver | osquery/dispatcher/dispatcher.cpp:24-34 | when all calls are over, stop ran exactly once and the thread neither waits nor is about to |
| InterruptHandshake.NoCallIsStuck | osquery/dispatcher/dispatcher.cpp:24-34 | from every state of every run, every call can be brought to its end |
| InterruptHandshake.PauseIs | osquery/dispatcher/dispatcher.cpp:40-45 | a pause waits, without the lock, if and only if the runnable is not interrupted, and leaves at once otherwise |
| InterruptHandshake.PauseReturns | osquery/dispatcher/dispatcher.cpp:40-45 | after a timeout or a notification it returns |
| InterruptHandshake.NoLaterPauseWaits | osquery/dispatcher/dispatcher.cpp:40-45 | after that, or for a pause begun after the flag was set, no continuation waits |
| InterruptHandshake.WakeupIsComing | osquery/dispatcher/dispatcher.cpp:24-34 | a thread waiting in an interrupted runnable always has the notifying call ahead, and it can move |
| DatabaseMigration.SettledIff | osquery/database/database.cpp:528-533 | a renamed key is free of the old text, and a second renaming leaves it alone, if and only if the text occurred at most once, overlaps counted |
| DatabaseMigration.RerunHasNothingToDoIff | osquery/database/database.cpp:518-560 | on any map, a completed migration leaves nothing for a second run whatever the scan order, if and only if every key held the text at most once |
| DatabaseMigration.SettledInEachOrderIff | osquery/database/database.cpp:518-560 | if no unrelated key stands at a target name, the same holds of each single scan order |
| DatabaseMigration.RenamedAgain | osquery/database/database.cpp:528-533 | two concrete keys, with and without overlap, that a second run renames again |
| DatabaseMigration.RenamedKey | osquery/database/database.cpp:531-533 | a key before and after |
| DatabaseMigration.KeysKeptIffDistinct | osquery/database/database.cpp:528-557 | no key is lost iff all target names are distinct |
| DatabaseMigration.SourcesMayCollide | osquery/database/database.cpp:531-533 | a family of distinct keys, one occurrence each, with one target name |
| DatabaseMigration.Database.MigrateKey | osquery/database/database.cpp:528-556 | copy then delete, wherever the process dies in between |
| DatabaseMigration.Database.MigrateV1V2 | osquery/database/database.cpp:518-560 | on any map, a completed run renames the keys in scan order; with one occurrence per key the map is midway at every crash point and holds exactly the targets in the end |
| DatabaseMigration.Database.MigrateThroughCrashes | osquery/database/database.cpp:518-560 | any crashed runs and a complete one give the map of one uninterrupted run, no value lost |
| DatabaseMigration.Database.UpgradeDatabase | osquery/database/database.cpp:562-626 | on any map, terminates for every stored version and succeeds exactly from the versions it knows; which version is stored in the end, failures included; the migrated map is reached |
| DatabaseMigration.OtherVersions | osquery/database/database.cpp:565-582 | a missing version is zero, a text without a number or with one too large is refused |
| DistributedQueue.Queue.Discover | osquery/distributed/distributed.cpp:171-196 | which names the discovery queries select, and when they fail |
| DistributedQueue.EnqueuedAre | osquery/distributed/distributed.cpp:199-218 | an id is enqueued if and only if an entry of its name comes before the first malformed one and is selected, or nothing is selected; the last such entry's text counts |
| DistributedQueue.WellFormedIff | osquery/distributed/distributed.cpp:204-212 | an entry counts if and only if it has a name and a query and neither is empty |
| DistributedQueue.HeldBackIff | osquery/distributed/distributed.cpp:214-216 | a well-formed query is held back if and only if discovery selected something and not it |
| DistributedQueue.EmptyDiscoveryAcceptsAll | osquery/distributed/distributed.cpp:188-216 | a query whose only discovery query returns no row is accepted all the same |
| DistributedQueue.Queue.Enqueue | osquery/distributed/distributed.cpp:199-218 | entries before a malformed one stay accepted; an empty selection selects all |
| DistributedQueue.Queue.AcceptWork | osquery/distributed/distributed.cpp:164-218 | success if and only if discovery succeeds and every entry is well-formed; nothing is enqueued after a failed discovery, else exactly the selected entries; accepted ids are conserved |
| DistributedQueue.Queue.PopRequest | osquery/distributed/distributed.cpp:237-249 | one pending request is returned and removed |
| DistributedQueue.Queue.RunQueries | osquery/distributed/distributed.cpp:116-136 | the pending set is drained, each request answered; ids stay pending, unflushed or written |
| DistributedQueue.Queue.SerializeResults | osquery/distributed/distributed.cpp:93-110 | the document maps exactly the result ids to their last rows and status |
| DistributedQueue.Queue.FlushCompleted | osquery/distributed/distributed.cpp:138-162 | results are dropped exactly when the plugin took the document |
| WritableTable.SaveConsistent | osquery/examples/example_writable_table.cpp:71-87 | saving keeps the two maps inverse iff the row id was unused |
| WritableTable.UsedRowIdBreaksTable | osquery/examples/example_writable_table.cpp:71-87 | two concrete rows with one row id |
| WritableTable.PrimaryKeysCollide | osquery/examples/example_writable_table.cpp:40-43 | two rows with different columns and one primary key |
| WritableTable.PrimaryKeyKeepsParts | osquery/examples/example_writable_table.cpp:40-43 | under one text, or one number, primary keys differ as the other column does |
| WritableTable.Table.IsPrimaryKeyUnique | osquery/examples/example_writable_table.cpp:47-62 | unique iff no other row of the table has the key |
| WritableTable.Table.Insert | osquery/examples/example_writable_table.cpp:131-189 | status, unchanged table on failure, and on success the simple map with the row added |
| WritableTable.Table.Delete | osquery/examples/example_writable_table.cpp:192-217 | the simple map without the row |
| WritableTable.Table.Update | osquery/examples/example_writable_table.cpp:220-284 | the row replaced under its old or new id, consistent iff the new id was free |
| ShellQuoting.OutputCString | osquery/devtools/shell.cpp:416-442 | the loop writes the quoted text |
| ShellQuoting.WrittenAs | osquery/devtools/shell.cpp:416-442 | which bytes are written as they are, with two characters, and in octal |
| ShellQuoting.NamedEscapes | osquery/devtools/shell.cpp:416-442 | the letters are those of C |
| ShellQuoting.PlainIsUnchanged | osquery/devtools/shell.cpp:416-442 | a text is written unchanged if and only if it is printable without quotes and backslashes |
| ShellQuoting.ResolveQuoted | osquery/devtools/shell.cpp:950-979 | dequoting undoes quoting for NUL-free strings |
| ShellQuoting.EscapesRead | osquery/devtools/shell.cpp:953-966 | what the resolver makes of C's letters and of other characters |
| ShellQuoting.OctalsRead | osquery/devtools/shell.cpp:966-975 | and of one to three octal digits, values beyond a byte included |
| ShellQuoting.NothingToResolve | osquery/devtools/shell.cpp:953-975 | a text without a backslash is left as it is |
| ShellQuoting.ResolveBackslashes | osquery/devtools/shell.cpp:950-979 | the loop on any buffer it stays inside of, a dangling backslash included |
| ShellQuoting.ResolvedInPlace | osquery/devtools/shell.cpp:950-979 | without a dangling backslash the text is dequoted where it stands, write index never ahead of read index, bytes outside untouched |
| ShellQuoting.ResolveStaysInsideIff | osquery/devtools/shell.cpp:953-956 | the loop stays inside text and terminator if and only if no backslash dangles |
| ShellQuoting.TakeToken | osquery/devtools/shell.cpp:1267-1291 | one token is cut out, terminated and dequoted, on any such buffer |
| ShellQuoting.CutHolds | osquery/devtools/shell.cpp:1267-1291 | the argument stands where the token stood and nothing behind it is touched |
| ShellQuoting.Tokenize | osquery/devtools/shell.cpp:1258-1292 | the token loop on any line on which it stays inside the buffer |
| ShellQuoting.TokenizerFinds | osquery/devtools/shell.cpp:1258-1292 | on every line without a dangling backslash it stays inside the line and every argument stands at its offset, at most fifty of them |
| ShellQuoting.WordsAreArguments | osquery/devtools/shell.cpp:1261-1291 | words without quotes and backslashes, separated by any of the six blanks, are the arguments |
| ShellQuoting.ApostrophesKeepText | osquery/devtools/shell.cpp:1267-1282 | between apostrophes everything is taken as it stands |
| ShellQuoting.DanglingBackslashLosesArgument | osquery/devtools/shell.cpp:1283-1291 | on `.x a\ b` the argument "b" is overwritten and lost |
| ShellQuoting.QuotingRoundTrip | osquery/devtools/shell.cpp:1258-1292 | for every list of NUL-free strings, one token per string and the strings come back |
| ShellQuoting.QuotedLineIsAccepted | osquery/devtools/shell.cpp:416-442 | no backslash dangles in quoted lines |
| ShellQuoting.QuotedLineReadBack | osquery/devtools/shell.cpp:1258-1292 | up to fifty NUL-free strings, quoted on one line and read back by the token loop, stand at the offsets it returns, whatever lies behind the line |

## Left out

- EventSubscriber.Subscriber.GenTable: a time-constrained read with event optimization on uses whatever watermark was loaded last; the contract says so, and no delivery theorem covers mixing the two modes for one query.
- EventSubscriber.Subscriber.AddBatch: rows are taken to serialize, and forwarding to loggers is not modelled.
- DistributedQueue.Queue.PopRequest: which pending request comes first is left open; the code takes the first key of the store's scan.
- WritableTable.Table.Update: the branch for a row id without a row cannot be reached in a consistent table and is left out, in Delete too.
- ShellQuoting.Tokenize: a line whose last token ends in a lone backslash makes the C code read behind the line, and behind the buffer if that ends there; only the latter is excluded.
- Queries that read two subscribers, or one subscriber twice in a run: their watermarks share one key.
- Threads inside the event store, and races between adding and stopping services.
- Scheduler.SplayValue: float arithmetic is bounded, not computed: any difference within fifteen hundredths of the exact percentage is allowed.
- The version 0 migration of stored query results, which converts foreign JSON text; its outcome is a parameter.
- JSON text, RocksDB, SQLite, Thrift, compression, and the registry, extension, carver, hashing, killswitch and platform code.
- Purging of stale query results by age.
