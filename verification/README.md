# Derived state in rusty-pingus

rusty-pingus probes hosts, stores every result in SQLite and answers charts,
uptime figures and timelines from tables that are derived from those results.
This project models the parts that keep such derived state in step with its
source of truth, and proves that they do, over every input and every run.

* **Rollups** (`Samples`, `RowCounts`, `Rollups`, `RollupRuns`, `RunRecords`,
  `RollupLoop`). The per-minute table is a materialised view of the raw rows.
  `RollupRuns` is a step system in which one step is one SQL statement or one
  decision of the loop, so inserts, failed chunks, crashes, restarts, prunes and
  deletions may fall anywhere.
  `RollupLoop.Worker` is the loop itself; its tick is proved to be a run of that
  system and, taken as a whole, one roll of its range.
* **Charts and uptime** (`Slots`, `Series`, `SeriesMeaning`, `SeriesCounts`,
  `SeriesExact`, `Uptime`, `UptimeRuns`, `Retention`). What a bucket and a figure
  say of the rows, when the rollup may answer in place of the raw rows, and
  exactly what it counts when it does; `Retention.ChartsOnEveryRun` joins this to
  the step system end to end.
* **Monitor store and scheduler** (`MonitorStore`, `Scheduler`, `MonitorIds`). Database
  rows, snapshot and published snapshot, and the tasks that run. Cancellation tokens
  are heap objects; `Scheduler.Drive` interleaves mutations and wake-ups freely,
  so several mutations may be seen as one.
* **Traceroute storage** (`TraceStore`, `TraceQueries`, `LineMeaning`,
  `TraceRecency`). Interned tables against a plain list of runs (`Abs`), what a
  line of the detail table says, and which run it shows.
* **Timelines** (`Text`, `BorderDetail`, `Timeline`, `DownBands`). The segment
  folds as step functions, the border detail printer against its parsers, and
  the page's down bands.
* **Gateway detection** (`Gateways`), **ICMP codec** (`Icmp`; section 1 of RFC
  1071, section 3.1 of RFC 791, and the "Echo or Echo Reply Message" and "Time
  Exceeded Message" sections of RFC 792) and the **traceroute walk**
  (`TraceWalk`, `WalkMeaning`).

Conventions: stamps are milliseconds since 1970 and minutes are seconds, both
non-negative; averages and ratios are reals; each SQL statement or transaction
is atomic; the clock, the network, statement failures and what a gateway walk
finds are parameters or arbitrary choices. `World.high` is the highest
`next_from` ever reached and `World.cut` the highest prune cutoff ever used for
a monitor. A row's insertion delay and whether start-up reads may fail are
fixed per run and otherwise free.

## Where the code and its descriptions part, and where a property needs a condition

The conditions named here are exact: they are proved in both directions.

* A row that takes more than 60 s from its stamp to its insertion, or a start-up
  whose watermark read fails, leaves minutes wrong for good on some run; without
  both, no run does (`RollupRuns.NeedsAreExact`, `LateRowRun`, `BlindRun`).
* The rollup-backed series includes the minute that starts at `to`, so rolled
  rows stamped inside it after `to` are counted, while the raw series leaves them
  out (`Series.RollupServesTheRawSeries`, `Retention.OverhangRun`).
* The series query promises correct results while the rollup is still being
  filled. It falls back to raw rows only when no minute of the range has been
  rolled; a range that is partly rolled misses its unrolled rows
  (`SeriesExact.PartlyRolledServes`, `HalfRolled`), unless like rows from after the
  range stand in for them in the last slot (`SeriesExact.StandIn`).
* The rollup-backed uptime window is cut in whole seconds: when it opens inside
  the first second of a minute it takes in that second's earlier rows
  (`Uptime.WindowEdges`, `Uptime.FringeRow`).
* A row that comes after its minute was rolled is not counted until the minute is
  rolled again. With late rows the table is sure to be right only more than a
  minute below the highest `next_from`, and the latest rolled minute can lack a
  row; without late rows it is right all the way (`RollupRuns.MarginIsExact`,
  `MissedRowRun`, `UptimeRuns.FullExactly`).
* The bulk 24 h figure falls back to raw rows only when no monitor at all has
  rollup rows; a single monitor's figure falls back by itself
  (`Uptime.BulkAgrees`, `Uptime.BulkDiffers`). So a prune or a deletion of one
  monitor can change the bulk figure of another (`Retention.BulkUnderRetention`,
  `Retention.DeletionShows`).
* The schema comments say that the minute's minimum and maximum are over 'up'
  rows; the statement takes every row with a response time. The model follows
  the statement (`Samples.ExtremesOfUpRows`, `Samples.DownRowSetsMinimum`); the
  probe results are built with response times exactly on 'up' rows
  (`src/probe/mod.rs:46-70`).
* A comment in the scheduler says that a renamed monitor keeps its running task;
  the compared config includes the name, so a rename restarts the task
  (`src/scheduler/mod.rs:62-65` against 99-103). The model compares the config
  (`Scheduler.RenameRestarts`).
* The one-time import of legacy monitors can stop part way: a repeated name ends it,
  the table is then no longer empty, and no later start resumes it
  (`MonitorStore.ImportNotResumed`, `RepeatedName`, `StartAgain`).
* The traceroute detail query promises the address of the most recent run, and
  the most recent address seen at the hop. It takes the run with the largest id:
  the one stored last, whatever its stamp, and whether or not it saw an address
  (`TraceRecency.ShownIsMostRecent`, `EveryWindowMostRecent`,
  `ShownIsLastAnswer`, `SwappedRuns`, `SilentNewest`).
* The traceroute walk promises to stop when the destination replies. A later
  Destination Unreachable at the same hop takes the reply back: the walk goes on,
  with the destination already timed (`TraceWalk.StopsExactly`,
  `ReplyThenUnreachable`).
* The two ICMP parsers differ exactly on error messages whose embedded header is
  shorter than section 3.1 of RFC 791 allows (`Icmp.ParsersDifferOnStubs`,
  `Icmp.StubMessage`).
* The page counts its red bands as losses. Two outages are counted once exactly
  when every sample of the recovery between them has the stamp of the next
  outage (`DownBands.LossCountIsOutages`, `DownBands.GluedOutages`).

## Model

| member | source | states |
|---|---|---|
| Samples.AggregateUnion | src/db/mod.rs:492-512 | COUNT, SUM, MIN and MAX over two disjoint groups join to those over their union, with NULL minima and maxima |
| Samples.AggregateFilter | src/db/mod.rs:515-532 | deleting rows changes no aggregate over rows that were kept |
| Samples.AggregateBounds | src/db/mod.rs:492-512 | MIN and MAX are there exactly when a row of the group has a response time; they are attained and bound every one |
| Samples.ExtremesOfUpRows | migrations/007_monitors.sql:29-36 | a group's MIN and MAX are those over its 'up' rows if and only if each response time of another row lies between two of 'up' rows; so they are when response times exist exactly on 'up' rows |
| Samples.DownRowSetsMinimum | src/db/mod.rs:492-512 | a group where they are not |
| RowCounts.FilterKeeps | src/db/mod.rs:515-522 | a filter keeps exactly the rows that pass, as often and in the order as they were |
| RowCounts.AggregateCounts | src/db/mod.rs:492-512 | COUNT is the number of rows in the group, the 'up' number that of its 'up' rows, and SUM adds up the response times of those |
| Rollups.RollRangeAt | src/db/mod.rs:492-512 | rolling an aligned range makes each of its minutes with rows the aggregate of all of that minute's rows, and leaves every other entry as it was |
| RollupRuns.StepKeepsCoherent | src/scheduler/mod.rs:195-287 | no insert, chunk, prune or deletion spoils a minute that closed at least a minute ago and is right |
| RollupRuns.ChunkSettles | src/scheduler/mod.rs:265-276 | a finished chunk leaves every closed minute below its end right, unless a prune reached it |
| RollupRuns.TickStartSettled | src/scheduler/mod.rs:259-268 | stepping back one minute is enough: everything below the start of a tick that has closed by now is right already |
| RollupRuns.EmptyStartSettled | src/scheduler/mod.rs:248-251 | starting an empty table at the earliest raw minute skips nothing |
| RollupRuns.StepKeepsInv | src/scheduler/mod.rs:195-287 | every step keeps the invariant, whatever the loop was doing: restart from the watermark and retry from the failed chunk included |
| RollupRuns.RunKeepsInv | src/scheduler/mod.rs:195-287 | so does every run |
| RollupRuns.RollupMatchesRaw | src/scheduler/mod.rs:243-287 | on every run, each minute more than 60 s below the highest `next_from` and not below its monitor's cutoff has a table row exactly when it has raw rows, and that row is their aggregate |
| RollupRuns.NeedsAreExact | src/scheduler/mod.rs:246-272 | that holds on all runs if and only if rows arrive within 60 s of their stamp and start-up reads succeed |
| RollupRuns.LateRowRun | src/scheduler/mod.rs:259-268 | a run whose one late row is never rolled, for every delay above 60 s |
| RollupRuns.BlindRun | src/scheduler/mod.rs:252-255 | a run whose history is never rolled because the watermark could not be read |
| RollupRuns.MarginIsExact | src/scheduler/mod.rs:259-268 | with rows at most 60 s late, all runs are right about every unpruned minute more than `slack` below the highest `next_from` if and only if `slack` is at least a minute or no row is late |
| RollupRuns.MissedRowRun | src/scheduler/mod.rs:259-268 | a run whose latest rolled minute lacks a row, for every positive delay |
| RollupLoop.SplitRollExact | src/db/mod.rs:492-512 | rolling [a, b) then [b, c) equals one roll of [a, c) if and only if no minute of a monitor has rows on both sides of b |
| RollupLoop.AlignedSplitRoll | src/scheduler/mod.rs:268-276 | at a whole-minute boundary it always does: chunking never replaces a minute with part of it |
| RollupLoop.RerollIsIdle | src/db/mod.rs:490-512 | rolling unchanged rows again changes nothing, also with other rolls in between |
| RollupLoop.OneMoreChunk | src/scheduler/mod.rs:269-274 | a chunk is a step of the system, ends a day later or at the current minute, on a whole minute, and extends the one roll from the start of the tick |
| RollupLoop.Worker.RollupWatermark | src/db/mod.rs:472-477 | the largest bucket of the table, none when it is empty |
| RollupLoop.Worker.Start | src/scheduler/mod.rs:246-256 | start-up with successful reads is a run of the step system and ends waiting at the latest rolled minute, or the earliest raw one, or the current one |
| RollupLoop.Worker.RollUpRange | src/db/mod.rs:492-512 | the statement rolls the range or, failing, changes nothing |
| RollupLoop.Worker.Tick | src/scheduler/mod.rs:262-282 | a tick terminates, is a run of the step system, and has the effect of one roll from the overlap to the new `next_from`: the current minute, or where a chunk failed |
| RollupLoop.Worker.PruneMonitorResults | src/db/mod.rs:515-522 | a row stays if and only if it is not one of the monitor's from before the cutoff, as often and in the order as before; or the statement fails and nothing goes |
| RollupLoop.Worker.PruneMonitorRollups | src/db/mod.rs:525-532 | an entry stays if and only if it is not one of the monitor's from before the cutoff's second, with its value; or the statement fails and nothing goes |
| RunRecords.DeletingSteps | src/db/mod.rs:515-707 | what a prune of either table and a deletion take and leave, row by row |
| RunRecords.CutIsHighest | src/scheduler/mod.rs:208-218 | the cutoff recorded for a monitor is the highest that any prune of it has used on the run |
| RunRecords.HighIsHighest | src/scheduler/mod.rs:246-282 | the recorded mark is the highest `next_from` at which the loop has waited on the run |
| Slots.RollupSlotNearRawSlot | src/db/mod.rs:353-453 | when the rollup may answer, a row's rollup slot is its raw slot or the one just before, both among the n slots |
| Slots.SlotsFollowTime | src/db/mod.rs:362-453 | raw and rollup slots are monotone in time |
| Slots.StampsIncrease | src/db/mod.rs:448-456 | the stamps of successive slots strictly increase |
| Slots.AlignedSlots | src/db/mod.rs:362-453 | over whole minutes with slots of whole minutes a row's rollup slot is its raw slot |
| Slots.OverhangSlot | src/db/mod.rs:424-453 | the minute that starts at the end of the range falls into the last slot |
| Series.Regroup | src/db/mod.rs:424-453 | SUM, MIN and MAX over selected minute rows give the aggregate of the raw rows behind them, and no row comes back exactly when there are none |
| Series.GetSeries | src/db/mod.rs:344-412 | takes 1 to 5000 buckets as asked, answers from the rollup when it may and has rows, else from the raw rows |
| Series.GetSeriesRollup | src/db/mod.rs:417-467 | one bucket per slot that has table rows, in order |
| SeriesMeaning.AnswerIs | src/db/mod.rs:353-367 | the rollup answers if and only if each slot is a minute or longer and the table has a row of the monitor in the range |
| SeriesMeaning.RawSeriesSays | src/db/mod.rs:369-412 | one bucket for each slot with rows, in order and stamped by its place; it counts the rows of the slot, its minimum and maximum are attained by and bound their response times, its average times their number is their sum, and its ratio times the count is the number of 'up' rows |
| SeriesMeaning.RollupSeriesSays | src/db/mod.rs:417-467 | the same over the rolled rows whose minute lies in the slot, averaged over the 'up' rows |
| SeriesMeaning.AnswerSays | src/db/mod.rs:344-467 | the same of whichever of the two is answered |
| Series.SameSlot | src/db/mod.rs:362-453 | a raw row stands behind the table rows of a slot or is an unrolled row of it, if and only if the raw query puts it there, or it is a rolled row that overhangs the range and the slot is the last; never both |
| Series.SlotSum | src/db/mod.rs:362-453 | also while the rollup is behind: the table rows of a slot and its unrolled rows together are its raw rows and, in the last slot, the rolled overhang, in all five figures |
| Series.SlotAgrees | src/db/mod.rs:424-453 | over a rolled range each slot's table rows add up to its raw rows, and to more exactly in the last slot when rolled rows overhang |
| Series.RolledRangeServes | src/db/mod.rs:353-467 | over a rolled range the answer equals the raw series if and only if no rolled row overhangs it |
| Series.RollupServesTheRawSeries | src/db/mod.rs:344-467 | where the table is right about every minute touched, the answer equals the raw series bucket for bucket if and only if no row is stamped inside the minute that starts at `to`, after `to` |
| SeriesCounts.SeriesCountsEveryRow | src/db/mod.rs:362-412 | the raw series counts every row of the range in exactly one bucket |
| SeriesCounts.PartlyRolledCounts | src/db/mod.rs:355-467 | while the rollup is behind, its series counts the raw rows of the range, less the unrolled ones, plus the rolled overhang |
| SeriesCounts.RollupCountsEveryRolledRow | src/db/mod.rs:417-467 | over any range of whole seconds the rollup-backed series counts each rolled row whose minute starts in the range in exactly one bucket, and no other row |
| SeriesCounts.PrefixesInterleave | src/db/mod.rs:353-467 | over any such range that passes the gate, the count of its first k buckets lies between those of the raw series' first k and k + 1, but for missed rows and rows beyond the range |
| SeriesExact.SameSeriesExactly | src/db/mod.rs:344-467 | the rollup-backed series is the raw series if and only if the table rows of every slot add up to its raw rows |
| SeriesExact.PartlyRolledServes | src/db/mod.rs:355-467 | the answer is the raw series if and only if no minute of the range has been rolled, or every row outside the last slot has been and the last slot's table rows add up to its raw rows |
| SeriesExact.WithoutOverhang | src/db/mod.rs:355-467 | without rolled overhang that is: every row of the range has been rolled, or no minute has |
| SeriesExact.HalfRolled | src/db/mod.rs:355-361 | for every number of slots from two on, a range where the answer is not the raw series |
| SeriesExact.StandIn | src/db/mod.rs:424-453 | with rolled overhang an unrolled row can go unnoticed: a like row after the range stands in for it |
| Uptime.UptimeIsShare | src/db/mod.rs:236-280 | the figure times the number of rows is a hundred times the number of 'up' rows among them, and it is missing exactly when there are none: rows stamped in the window when that is below a day or nothing of it has been rolled, else rows whose minute starts in the window and has been rolled |
| Uptime.BulkIsShare | src/db/mod.rs:285-328 | the same of the bulk figure, over rolled rows as soon as any monitor has some |
| Uptime.UptimeCountsRolledRows | src/db/mod.rs:236-262 | for a day or more, once the rollup has data and its rows are their minutes' aggregates, the figure is that of the rows whose minute starts in the window and has been rolled |
| Uptime.CountedAgainstWindow | src/db/mod.rs:243-279 | counted rows, leading partial minute and unrolled tail make up the raw window and the opening second's earlier rows, in number and in 'up' rows |
| Uptime.WindowEdges | src/db/mod.rs:243-251 | which rows are leading, and which earlier rows are counted: exactly the rolled ones of the second in which the window opens, when that is the first of its minute |
| Uptime.FringeRow | src/db/mod.rs:243-251 | a window that counts a row from before it opens |
| Uptime.BulkAgrees | src/db/mod.rs:285-328 | the bulk 24 h figure is the single one if and only if the monitor has rollup rows in the window, or no monitor has, or it has no raw rows there |
| Uptime.BulkDiffers | src/db/mod.rs:285-328 | a monitor with a figure on its own page and none in the list |
| UptimeRuns.EntriesCountPrefixes | src/scheduler/mod.rs:195-287 | on every run, however late rows come and whatever fails, a table row not reached by a prune is the aggregate of the first rows inserted for its minute, at least one |
| UptimeRuns.UptimeOnEveryRun | src/db/mod.rs:243-262 | on every run, an uptime window above the prunes counts each row of its settled minutes exactly once, and of each later rolled minute the first rows inserted for it; without late rows every minute below the highest `next_from` is settled |
| UptimeRuns.FigureOnEveryRun | src/db/mod.rs:236-262 | on every run, the percentage returned is the share of 'up' rows among the settled rows and the counted part of the latest minutes |
| UptimeRuns.FullExactly | src/db/mod.rs:243-262 | on every run the table counts all rows below the highest `next_from` if and only if no row is late; else the latest minute can lack one |
| Retention.QueriesSeeTheirWindow | src/db/mod.rs:198-467 | history rows, series and uptime over a range depend only on the raw and table rows from its start on |
| Retention.RetentionInvisible | src/db/mod.rs:515-707 | a prune or a deletion changes no history rows, series or single uptime figure of another monitor, and a prune none of its own over ranges that open at or after the cutoff |
| Retention.BulkUnderRetention | src/db/mod.rs:285-328 | the bulk 24 h figure of a spared monitor stays the same if and only if it has rollup rows in the window, or no monitor had any, or some monitor still has one, or it has no raw rows there |
| Retention.DeletionShows | src/db/mod.rs:285-328 | deleting one monitor gives another a bulk figure that it did not have |
| Retention.ChartsOnEveryRun | src/scheduler/mod.rs:195-287 | on every run, a chart over minutes the loop has left behind and no prune has reached shows exactly the raw rows, under the same overhang condition |
| Retention.OverhangRun | src/db/mod.rs:424-453 | for every number of slots, a run that meets every hypothesis of the row above, and whose chart shows a row from after its range |
| MonitorStore.MonitorTable.Insert | src/db/mod.rs:15-24 | appends a row under an id never used before; refuses exactly when the name is taken or the statement fails by itself |
| MonitorStore.MonitorTable.Update | src/db/mod.rs:27-36 | replaces the row's name and config, or refuses another row's name |
| MonitorStore.MonitorTable.Delete | src/db/mod.rs:39-45 | removes the row and leaves the id counter |
| MonitorStore.LoadedWithout | src/monitors/mod.rs:653-663 | deleting the row and filtering the snapshot give the same list |
| MonitorStore.RemovalIsExact | src/db/mod.rs:39-45 | a deletion by id takes exactly that row, and exactly that monitor from the list |
| MonitorStore.RowsOkWithout | src/db/mod.rs:39-61 | a deletion keeps id order and unique names |
| MonitorStore.Store.Load | src/monitors/mod.rs:590-593 | from any sound table, rows, snapshot and published snapshot are one id-ordered list with unique names |
| MonitorStore.ImportLegacy | src/monitors/mod.rs:673-697 | imports monitors in file order under fresh ids: those before the first repeated name, or fewer when a statement fails by itself |
| MonitorStore.AcceptedIsLongest | src/monitors/mod.rs:688-690 | the part of a file that is accepted is its longest start without a repeated name, and all of it if and only if no name repeats |
| MonitorStore.ImportNotResumed | src/monitors/mod.rs:578-580 | a second start leaves what the first imported, which is the whole file if and only if no name repeats |
| MonitorStore.RepeatedName | src/monitors/mod.rs:578-580 | a file whose second monitor is never imported |
| MonitorStore.History.BackfillMonitorId | src/db/mod.rs:71-77 | tags exactly the untagged rows of that name in both tables; a failure leaves the second table, or both, as they were |
| MonitorStore.History.Backfill | src/monitors/mod.rs:588-590 | tags both tables by the whole list, or by a part of it |
| MonitorStore.TagMeans | src/db/mod.rs:67-77 | with unique names, an untagged row gets an id exactly when that monitor has its name |
| MonitorStore.TagOfRow | src/db/mod.rs:69-77 | tagging leaves tagged rows and all names alone |
| MonitorStore.TaggingResumes | src/monitors/mod.rs:586-590 | tagging is idempotent, and a later start completes one that stopped part way |
| MonitorStore.LoadOrImport | src/monitors/mod.rs:569-594 | a table that is not empty is never imported into; an empty one takes the file; the store comes up tagged, sound and in step with the table, or not at all, and when no statement fails by itself exactly if the table was not empty or no name repeats |
| MonitorStore.StartAgain | src/monitors/mod.rs:569-594 | two starts on an empty table, when no statement fails by itself: the first comes up if and only if no name repeats, otherwise the second does, with the monitors before the repeated name only |
| MonitorStore.Store.Add | src/monitors/mod.rs:606-617 | refuses exactly the names in use; otherwise appends under an id never given out before and publishes, or fails and changes nothing a reader can see |
| MonitorStore.Store.SetEnabled | src/monitors/mod.rs:621-635 | false for an unknown id; no write and no notice when the flag is already so; else exactly that flag changes, or nothing on failure |
| MonitorStore.Store.Update | src/monitors/mod.rs:639-650 | false exactly for an unknown id; replaces the config in place, or changes nothing on failure, such as a name another monitor has |
| MonitorStore.Store.Remove | src/monitors/mod.rs:653-663 | false exactly for an unknown id; removes exactly that monitor, or changes nothing on failure |
| MonitorIds.AddUnseen | src/monitors/mod.rs:606-617 | while every row's monitor was once given its id, a new monitor's id has no rows |
| MonitorIds.Live | src/monitors/mod.rs:606-663 | over any interleaving of mutations and writes, however late, every id given out is new and no row stored at that moment carries it |
| Scheduler.WantedIsEnabled | src/scheduler/mod.rs:29-37 | the wanted tasks are exactly the enabled monitors with their current configs |
| Scheduler.RenameRestarts | src/scheduler/mod.rs:62-103 | a running task is kept across a rename only when the name stays the same |
| Scheduler.Scheduler.Start | src/scheduler/mod.rs:29-37 | start-up runs exactly the wanted tasks |
| Scheduler.Scheduler.StopUnwanted | src/scheduler/mod.rs:66-79 | cancels the tasks of removed and disabled monitors and keeps the others as they are |
| Scheduler.Scheduler.StartWanted | src/scheduler/mod.rs:81-96 | then exactly the wanted tasks run; unchanged ones keep their token, replaced ones are cancelled |
| Scheduler.Scheduler.DiffAndReload | src/scheduler/mod.rs:55-97 | from any state the running tasks become exactly the wanted ones, whatever ran before; an unchanged monitor keeps its very token, and every dropped or replaced token is cancelled |
| Scheduler.Scheduler.Shutdown | src/scheduler/mod.rs:41-48 | shutdown cancels every token ever handed out |
| Scheduler.Boot | src/scheduler/mod.rs:14-37 | the list of a freshly loaded store, once scheduled, puts store and scheduler in step |
| Scheduler.Deliver | src/scheduler/mod.rs:49-52 | a wake-up takes the latest published snapshot and nothing in between: tasks that match it keep their token, the others are cancelled; without news nothing changes |
| Scheduler.Drive | src/scheduler/mod.rs:14-53 | any interleaving of mutations and wake-ups keeps store and scheduler in step, and a task is the very same afterwards exactly when every snapshot woken up to matched it; otherwise its token is cancelled |
| Scheduler.Undisturbed | src/scheduler/mod.rs:55-97 | over any sequence, the task of a monitor that no mutation names is the very same task afterwards |
| Scheduler.Coalesced | src/scheduler/mod.rs:49-97 | mutations delivered together count by their outcome: a config changed and changed back keeps its task, any other change cancels it |
| Scheduler.LiveTasksAreEnabledMonitors | src/scheduler/mod.rs:14-97 | once the latest snapshot is handled, the uncancelled tasks are exactly one per enabled monitor, with its current config |
| TraceStore.Intern | src/db/mod.rs:757-779 | the cached id is the one the table would give |
| TraceStore.InsertRefines | src/db/mod.rs:735-798 | committing a run appends it to the plain list hop for hop, and changes no stored run |
| TraceStore.InsertValid | src/db/mod.rs:735-798 | no dangling hop, no unresolved or doubled address, no unreferenced address, right hop counts |
| TraceStore.DeleteRunsRefines | src/db/mod.rs:923-983 | the three DELETEs are a filter of the plain list |
| TraceStore.DeleteRunsValid | src/db/mod.rs:923-983 | and keep the tables sound: exactly the unreferenced addresses go |
| TraceStore.Store.InsertTraceroute | src/db/mod.rs:735-798 | appends exactly the inputs under a fresh id, or fails and changes nothing; it fails when two hops share a number |
| TraceStore.Store.PruneTraceroute | src/db/mod.rs:923-958 | the plain list without the monitor's runs below the cutoff, and how many went; or, rolled back, the same tables |
| TraceStore.Store.DeleteTraceroute | src/db/mod.rs:962-983 | the plain list without the monitor's runs; or, rolled back, the same tables |
| TraceQueries.AddrsByHop | src/db/mod.rs:861-877 | the address map gives each hop number the address that the run's joined rows give it |
| TraceQueries.GetTracerouteHops | src/db/mod.rs:817-895 | exactly the hop numbers with rows in the window, ascending, each with its own figures and address, each of the three statements reading a state of its own |
| LineMeaning.DetailSays | src/db/mod.rs:826-894 | a line counts the stored hops of its number in the window's runs, adds up their losses, its minimum and maximum are attained by and bound theirs, and its average is the mean of their means; in milliseconds |
| TraceQueries.AcrossIsOneState | src/db/mod.rs:817-895 | while the runs of the window stay the same in between, that is the answer of one state |
| TraceQueries.QueryRefines | src/db/mod.rs:817-895 | the detail query answers over the interned tables what it would over the plain list, the address taken from the run stored last |
| TraceRecency.ShownIsMostRecent | src/db/mod.rs:813-855 | the addresses come from the run stored last, which is a most recent one of the window if and only if no run stored earlier carries a later stamp |
| TraceRecency.EveryWindowMostRecent | src/db/mod.rs:813-855 | over every window of a monitor they come from a most recent run if and only if, whenever a run is stored after one with a later stamp, a run stored later still repeats that stamp |
| TraceRecency.ShownIsLastAnswer | src/db/mod.rs:801-810 | a line is reachable exactly when a run of the window answered at its hop; it shows the last answer, and lacks an address only when never answered, if and only if the run stored last answered there or none did |
| TraceRecency.SwappedRuns | src/db/mod.rs:813-855 | two runs stored in the other order: the address of the older one is shown |
| TraceRecency.SilentNewest | src/db/mod.rs:801-810 | the newer run silent at a hop: reachable, without an address |
| TraceQueries.TraceRetentionInvisible | src/db/mod.rs:817-983 | a prune or deletion changes no answer of another monitor, and a prune none over a window at or after the cutoff, address included |
| TraceQueries.AggregatesStayOrdered | src/db/mod.rs:826-894 | over any set of runs, min, avg and max are there together and min <= avg <= max |
| BorderDetail.ParseBorderHopStates | src/db/mod.rs:626-643 | the loop over the parts fills the array with what the server's parser means |
| BorderDetail.StatesReadBack | src/db/mod.rs:626-643 | whatever leads the detail, both parsers read exactly the printed hop states |
| BorderDetail.RttsReadBack | assets/monitor.js:1139-1146 | and the RTT parser recovers the printed number of each hop |
| BorderDetail.DetailRoundTrip | src/probe/border.rs:228-278 | for all reachabilities and RTTs, the server's and the page's parser give back exactly (local, isp or unmeasured, upstream), and the page's RTT parser the exact numbers |
| BorderDetail.FaultClassLeads | src/probe/border.rs:228-278 | the first word of the detail is 'ok' or the failure reason, and names the first stretch beyond the outermost hop that answered; an 'up' verdict carries the upstream's time, zero when that is missing |
| Timeline.SegmentsDenoteStates | src/db/mod.rs:584-608 | the segments of sorted rows abut, differ from their neighbours, span [first row, to), and every instant carries the state of the last row at or before it, ties included |
| Timeline.GetStateSegments | src/db/mod.rs:565-609 | the streaming loop computes those segments of the rows' leading tokens |
| Timeline.TokenIsFirstWord | src/db/mod.rs:588-592 | the state of a row is the first word of its detail, and missing exactly when there is none |
| Timeline.GetBorderHopSegments | src/db/mod.rs:648-691 | folding three hops side by side is the single fold on each hop's projection |
| Timeline.ParsersAgree | assets/monitor.js:1150-1160 | on every detail a border probe stores, server and page read the same hop states |
| Timeline.TailsMatchSignature | assets/monitor.js:1165-1168 | the key built from the three tail states is the signature of the newest row's detail |
| DownBands.ComputeDownIntervals | assets/monitor.js:1187-1203 | the loop computes the bands of all samples |
| DownBands.BandsPaintDownTime | assets/monitor.js:1187-1203 | the bands paint exactly the instants over which a down sample lasts, and no two touch |
| DownBands.LossCountIsOutages | assets/monitor.js:349-350 | there are never more bands than outages, and as many if and only if no recovery lasts no time |
| DownBands.GluedOutages | assets/monitor.js:1187-1203 | two outages in one band |
| Gateways.SelectGateways | src/probe/border.rs:307-334 | the local gateway is the last hop that answered before the walk's end, and private; the ISP gateway is the first public hop, unless that is the target; nothing is found exactly when nothing answered before |
| Gateways.PrivateNetworks | src/probe/border.rs:574-581 | an address is private exactly when it lies in 10.0.0.0/8, 172.16.0.0/12, 192.168.0.0/16, 169.254.0.0/16 or 100.64.0.0/10 |
| Gateways.Detector.ResolveGateways | src/probe/border.rs:155-203 | explicit configuration wins, then the cache, then the routing table; a call walks exactly when not both gateways are known and nothing was tried in the last 300 s, and then what the walk found is known, or what was known before when it found nothing |
| Gateways.Detector.ResolvedPath | src/probe/border.rs:209-224 | shows the same pair and never walks |
| Gateways.KnowledgeGrows | src/probe/border.rs:172-190 | over every run of calls a known gateway stays known and a complete pair stays the same pair |
| Gateways.WalksAreSpaced | src/probe/border.rs:163-190 | two walks are at least the retry interval apart, and no walk happens once both gateways are known |
| Gateways.CompletePairIsFinal | src/probe/border.rs:163-190 | after the pair is complete the cache never changes and no call walks |
| Gateways.KnownIsOneWalk | src/probe/border.rs:172-190 | what is known is verbatim what the last successful walk found, never a mix of two |
| Icmp.OnesSumIsCanon | src/probe/traceroute.rs:227-241 | the one's-complement sum is the ordinary sum with its carries folded |
| Icmp.Checksum | src/probe/traceroute.rs:227-241 | up to 65,535 bytes, odd lengths included, no addition overflows 32 bits, the folding terminates, and the result is the checksum of section 1 of RFC 1071 |
| Icmp.SignedDataChecks | src/probe/border.rs:595-609 | any data that carries its own checksum in a word that was zero checks to zero |
| Icmp.BuildEcho | src/probe/traceroute.rs:213-224 | the buffer is the echo request with its checksum in place |
| Icmp.EchoBytes | src/probe/traceroute.rs:213-224 | type 8, code 0, the identifier and the sequence number big-endian, eight zero bytes of payload |
| Icmp.EchoChecks | src/probe/border.rs:584-593 | every echo packet checks to zero |
| Icmp.ParsersDifferOnStubs | src/probe/border.rs:614-646 | on every buffer the two parsers agree unless it is an error message complete only by an embedded header shorter than 20 bytes, and then they differ |
| Icmp.StubMessage | src/probe/border.rs:614-646 | a message from which one parser reads an echo and the other none |
| Icmp.ParseReplyOfEcho | src/probe/traceroute.rs:246-279 | both recover identifier and sequence from an echo reply under any legal IP header |
| Icmp.ParseErrorOfEcho | src/probe/traceroute.rs:246-279 | and from an error message that embeds the echo, cut to eight bytes or more, under any legal outer and inner header |
| Icmp.SeqIdentifiesHop | src/probe/traceroute.rs:136-136 | two sequence numbers are equal exactly when TTL and query number modulo 256 are |
| TraceWalk.ProbeHop | src/probe/traceroute.rs:130-179 | the queries of one hop find what the accounts below say of them |
| WalkMeaning.AnswerIs | src/probe/traceroute.rs:134-176 | a query is answered by the first packet heard that replies to its echo, and unanswered when none does or it was not sent |
| WalkMeaning.RttsAreTheAnswers | src/probe/traceroute.rs:158-160 | a hop has one time for each answered query, in order, that of its answer |
| WalkMeaning.HopAddress | src/probe/traceroute.rs:158-158 | its address is that of the last answer that carries one, and missing exactly when none does |
| WalkMeaning.WalkSays | src/probe/traceroute.rs:125-199 | every stored hop of a walk has its number, that address, the number of unanswered queries as its loss, and the least, the mean rounded down and the greatest of its times |
| TraceWalk.ReachedMeans | src/probe/traceroute.rs:161-171 | a hop is marked reached exactly when the destination replied to a query of it and no later query was answered by Destination Unreachable |
| TraceWalk.HopDestAddr | src/probe/traceroute.rs:163-168 | the destination's address is that of the hop's last reply that carries one |
| TraceWalk.DestMeans | src/probe/traceroute.rs:163-168 | a destination RTT is there exactly when the destination replied at some hop, and is that of the first reply at the first such hop |
| TraceWalk.StopsExactly | src/probe/traceroute.rs:100-199 | the walk stops when the destination replies if and only if no reply is overridden at its own hop; the destination is timed exactly when the walk is marked reached, unless the walk is not and some reply was overridden |
| TraceWalk.ReplyThenUnreachable | src/probe/traceroute.rs:161-171 | a reply that is overridden |
| TraceWalk.TraceIpv4 | src/probe/traceroute.rs:102-199 | for any reply stream hops are numbered 1..k with k at most the limit, each with its own account, and the walk ends at the first hop marked reached, at a TTL that cannot be set, or at the limit |
| TraceWalk.HopAccounting | src/probe/traceroute.rs:181-210 | received and lost add up to the queries, min <= avg <= max, and they are there exactly when something was received |
| TraceWalk.WalkIsStorable | src/probe/traceroute.rs:102-210 | no two hops of a walk share a number, and their figures are in order: what storage demands |
| TraceWalk.RttsAreTheHopsOwn | src/probe/traceroute.rs:136-176 | every RTT that a hop counts answers an echo of that hop's TTL and of no other |

## Left out

- Deleting a monitor's results: the raw and rollup deletions are one step; a roll that falls between them is not modelled.
- The retention loop's walk over the monitor list: each of its statements is a step by itself, for any monitor and any cutoff.
- The two clock reads of one uptime call are one.
- Prune cutoffs: the claim is about the highest cutoff ever used, because raw rows below it are gone even when the retention is lengthened later.
- Decoding the legacy monitors file and filling in its defaults: the import takes the configs as they come.
- Queries of several statements: the series and uptime queries take the raw and the table rows as two arguments, which may be of two moments; the results that compare the two take them from one.
- A minute whose 'up' rows all lack a response time would make SUM null and the statement fail; the model sums to zero. No probe stores such a row.
- Widths and rounding of 64-bit floats and integers outside the checksum and the sequence number: percentages, averages and bucket products are exact, and the page's numbers have no 2^53 limit.
- Stamps before 1970, where SQL division is not floor division.
- The watch channel without a receiver after shutdown, and cancellation of a store call between its database write and the snapshot swap.
- The serialised config as change detector: configs are compared themselves, which takes serialisation to be injective.
- Sockets, deadlines and error queues: a query is a failed send or the list of packets read before its deadline; the UDP and datagram walks only differ in how they fill such a list.
- SeqIdentifiesHop: query numbers 256 apart at one TTL share a sequence number, as in the code, which sets no upper bound on the queries per hop (default 3); replies are told apart by TTL for any number.
- `get_probe_extent`, `get_traceroute_extent` and the LIMIT of the history query: single SQL clauses with nothing to relate.
- Tickers, jitter, logging and the alerts, routes and event streams above the modelled functions.
- SQLite itself: tables are sequences and maps.
- Chart drawing, brushes and colours in the page.
