# Report portal: scheduling, exports, retention, backup, app access

The report portal is a server that runs batches of paid remote jobs, lists and exports its records,
purges old ones, backs its database up and restores it, and opens installed apps to the users of some
organisational units. This project models the decisions behind those features and proves what they keep.

- **Run queue** (`Queue`, `Scheduler`, `SchedulerSafety`, `SchedulerDrain`, `SchedulerServer`). Jobs and
  rows move by guarded writes. `Scheduler.Step` lists every move, including a crash at any point and the
  recovery after it; `SchedulerServer.Server` holds the mutable tables, and each of its methods is proved
  to make the listed move. Over every run: running rows stay within the budget and within each job's
  window, a row with evidence of having started is only ever started again by an explicit retry, no tick
  strands a job, finalization conserves the row counts, and without new work the queue drains.
- **One dispatch** (`DifyProvider`). The streaming client, the provider that reconciles a started run
  instead of repeating it, and the retry loop.
- **Export filters** (`LikePattern`, `SqlLogic`, `ExportFilter`, `ExportCompile`, `ExportWire`, `ExportPlan`,
  `ExportLatest`). A tree of conditions becomes a WHERE text with positional arguments, flag columns and a
  per-row check. `ExportWire.WireSays` is what the filter says as it arrives, by its words alone. Rows with missing columns make conditions unknown; the query and the check together
  still select exactly what the tree accepts.
- **Export scans** (`ExportScan`, `ExportScanExact`, `ExportScanMoving`, `ExportRows`, `ExportForecasts`).
  Keyset batches with a size cap, over a table that stands still and over one that changes between batches;
  and both halves together: the rows an export shows are those its filter accepts, newest first.
- **Reader quota** (`ReaderQuota`, `ExportJobs`). The job table, its conditional updates and the daily
  charge.
- **Retention** (`PredictionPurge`, `ReportRetention`). Whole-month purges of the prediction ledger and
  chunked deletion of reports under concurrent ingests.
- **Backup** (`Decimal`, `Base64`, `Backup`, `BackupLevels`, `RestoreRules`). The dump, the streaming
  restore, the dumps of earlier releases a build can load, and the settings a restore may not simply
  replace.
- **Apps** (`AppAccess`, `AppTokens`). Access along the chain of units, the fast check against the full
  one, the order of apps, and the tokens minted under an answer.
- **Cadence** (`Civil`, `Cadence`) and **amounts** (`Percent`).

A table of the database is a map or a sequence of records; a guarded UPDATE or DELETE is a method with
the same guard. Where other actors may act between two statements, the method takes the table they leave
behind as a parameter and the contract holds whatever it is. Calls to the network, clocks and randomness
are parameters as well.

## What does not hold, and exactly when

- A started run can be started twice: a stream that opened and then broke with a read error before any id
  or closing event is reported as a plain read error (internal/dify/stream.go:160-161), not as an ended
  stream, so the provider's rule for accepted runs does not apply and the retry loop opens another stream.
  `DifyProvider.ErrorExactly` and `SecondStartExactly` show that this is the only case, although the
  comments at internal/app/dify_provider.go:186-194 state the rule for every accepted run.
- A retry is safe for a row exactly when no goroutine of this process still holds it
  (`SchedulerSafety.RetrySafeIffUnowned`): the store's requeue accepts any status and does not look.
  `RetryOfARunningRow` is a run that ends with one row dispatched and waiting at once.
- A job that expired can still become finished, by finalization (`SchedulerDrain.ExpiredMayFinish`; the
  run of `ExpiredFinishes` does it).
- A yes/no condition that excludes both answers selects the rows that answer no, not the empty set
  (`ExportFilter.YesNoExactly`).
- A keyset scan loses rows without a first key beyond the first batch, and may repeat rows after one
  (`ExportScanExact.ScanExactly` gives the exact condition; audit_log.at may be missing). `MissingKeyLost`
  loses a row and `ExportScanMoving.MissingKeyRepeats` repeats one.
- The count shown for a filter, and its preview pages, agree with the rows exported whenever the scan is
  lossless (`ExportScanMoving.Count`, `ExportScanMoving.Page`). A plain filter is counted by one COUNT, which
  also counts the rows a lossy scan loses (`PlainCountDiffers`: 2 counted, 1 exported).
- The daily quota is protected exactly when a submit reads both its clock values on one civil day
  (`ReaderQuota.SafeExactly`): created_at is read before the day that is checked.
- A month that was purged and filled again takes the whole purge pass back, because its marker is unique
  (`PredictionPurge.Store.DeletePredictionsBefore` states it as an if-and-only-if;
  `RefilledMonthClashes` is such a ledger).
- The one-app check says open where the full resolver says closed for an active user with a broken chain
  asking for an app without overrides, and only there (`AppAccess.FastAgrees`; the user of
  `TornChainDisagrees` sits in a unit whose parent is gone).
- The next run shown for a cadence does not fire exactly when the rule already ran today and today's time
  is still ahead (`Cadence.DueAtNext`, `ShownButNotDue`).
- The percentage change is the nearest hundredth exactly when nothing leaves 64 bits
  (`Percent.PctExactly`, and for its text `PctTextExactly`; it fails in `WrappedChange`), and an amount
  reads back unless it is the smallest 64-bit integer (`Percent.YuanReadsBack`).

## Model

| member | source | states |
|---|---|---|
| Queue.ByScore | internal/queue/scheduler.go:21-33 | the waiting runs in admission order: a permutation, a higher score first and on equal scores the lower id |
| Queue.Admit | internal/queue/scheduler.go:35-87 | exactly as many runs as there are free slots or waiting runs; of each class the first in order; fewer urgent runs than reserved slots only where no more wait or fit |
| Queue.NoOvertaking | internal/queue/scheduler.go:35-41 | an admitted run has a higher score than any left out of its own class, or the same and no higher id |
| SchedulerSafety.AdmittedRunning | internal/app/batch_run.go:511-529 | an admission round moves exactly the chosen rows into running, for the whole queue and for each job |
| SchedulerSafety.RecoverKeeps | internal/app/batch_run.go:771-803 | recovery's three-way split of rows left running keeps every invariant |
| SchedulerSafety.RecoverySplits | internal/app/batch_store.go:224-282 | recovery's three selections split the rows left running without overlap or rest: followed and still running, given up as lost, or waiting again, and no other row changes |
| SchedulerSafety.RetrySafeIffUnowned | internal/app/batch_store.go:681-715 | a retry keeps the bookkeeping of running rows exactly when no selected row is still held by a goroutine |
| SchedulerSafety.RetryOfARunningRow | internal/app/batch_store.go:681-715 | a run after which a retry leaves one row dispatched and waiting at once, free to be started again |
| SchedulerSafety.StepKeeps | internal/app/batch_run.go:439-767 | every step, crashes included, keeps the invariant: window, budget bookkeeping, accounting of starts, quiet finished jobs |
| SchedulerSafety.RunsFollowed | internal/app/batch_run.go:656-710 | what following a recovered run writes: its outcome and its id to its row alone; a crash writes nothing |
| SchedulerSafety.MayHappen | internal/app/batch_run.go:439-803 | what the protocol leaves open at any time: crash and restart, every end of a dispatch, finalizing, cancelling, expiring, retrying |
| SchedulerSafety.RunKeepsInv | internal/app/batch_run.go:439-803 | the invariant holds in every reachable state |
| SchedulerSafety.OnlyRetryRequeues | internal/app/batch_store.go:224-282 | a row with persisted evidence of having started returns to queued only by an explicit retry |
| SchedulerSafety.HandlesKept | internal/app/batch_store.go:156-167 | over every run a captured handle of a row stays there until an explicit retry of the row drops all of them |
| SchedulerSafety.StartsBounded | internal/app/batch_store.go:491-498 | over every run, dispatches of a row are at most one more than its requeues, and persisted starts at most one more than its explicit retries |
| SchedulerSafety.BudgetAndWindow | internal/app/batch_run.go:511-572 | a step that raises the number of running rows ends within the budget, and no job ever runs more rows than its concurrency, or than one |
| SchedulerDrain.Partition | internal/app/batch_store.go:934-960 | the rows of a job split by status without loss |
| SchedulerDrain.ClosedConserves | internal/app/batch_store.go:180-212 | a closing job is cancelled exactly when it was being cancelled and finished otherwise; its stored totals count its rows by how they ended and account for every one, and a finished job has no live row |
| SchedulerDrain.ExpiredMayFinish | internal/app/batch_run.go:736-758 | among terminal jobs only an expired one without live rows is changed by finalization, and it becomes finished |
| SchedulerDrain.ExpiredFinishes | internal/app/batch_run.go:736-758 | a run in which a job expires with its only row cancelled and is then finished |
| SchedulerDrain.TickStrandsNobody | internal/app/batch_run.go:439-466 | after a tick from any state no waiting or running job is without live rows and no cancelling job without a running one |
| SchedulerDrain.TickRows | internal/app/batch_run.go:511-529 | a tick sets exactly the admitted rows running, each with one more dispatch on record |
| SchedulerDrain.TickJob | internal/app/batch_run.go:439-466 | what a tick does to one job: started by its first admitted row, finished without live rows, cancelled when cancelling without running ones, and otherwise left as it is |
| SchedulerDrain.ReportsPerCycle | internal/app/batch_run.go:736-758 | over every run each step reports a job exactly when it closes it, in a tick's sweep as in a finalization, and at most once per retry cycle |
| SchedulerDrain.QuietStepLoad | internal/app/batch_run.go:439-572 | without new work no step adds load, and every scheduling step that changes anything lowers it |
| SchedulerDrain.DrainBound | internal/app/batch_run.go:439-572 | a run without new work makes at most as many changes as the starting load |
| SchedulerDrain.StuckMeansDone | internal/app/batch_run.go:439-572 | where nothing runs and a tick over due jobs changes nothing, every job is terminal |
| SchedulerServer.Server.QueuedItems | internal/app/batch_store.go:126-146 | the waiting rows of a job by row index, each once |
| SchedulerServer.Server.SchedulableJobs | internal/app/batch_store.go:506-528 | exactly the queued and running jobs, in order |
| SchedulerServer.Server.CancellingJobIDs | internal/app/batch_store.go:317-330 | exactly the cancelling jobs, in order |
| SchedulerServer.Server.MarkItemRunning | internal/app/batch_store.go:491-498 | a row is dispatched exactly when it is still queued: running, not yet started, one more dispatch on record |
| SchedulerServer.Server.MarkJobRunning | internal/app/batch_store.go:478-485 | a job starts running exactly when it is still queued |
| SchedulerServer.Server.ItemCandidates | internal/app/batch_run.go:536-572 | every due job offers its lowest waiting rows, as many as fill its window of at least one row or all that wait, with its own score and urgency, and nothing else is offered |
| SchedulerServer.Server.AdmitLocked | internal/app/batch_run.go:511-529 | the admitted rows are the fair choice of the queue among the candidates: waiting rows of due jobs, within budget and windows, leaving no slot unused that a due job could fill |
| SchedulerServer.Server.FinalizeLocked | internal/app/batch_run.go:736-758 | closes a job exactly when nothing of it runs and nothing waits unless it is cancelling: cancelled if it was cancelling, else finished, with the rows counted in all and by how they ended |
| SchedulerServer.Server.ScheduleTick | internal/app/batch_run.go:439-466 | one tick is an enabled step of the protocol and reports exactly the jobs it closed, each once |
| SchedulerServer.Server.CreateBatchJob | internal/app/batch_store.go:337-396 | a submit of 1 to 5000 rows adds a queued job with those rows, numbered in order, waiting and blank; any other changes nothing |
| SchedulerServer.Server.MarkItemDifyStarted | internal/app/batch_store.go:174-178 | stamps the row as started and counts the start once per dispatch |
| SchedulerServer.Server.SaveItemDifyRef | internal/app/batch_store.go:160-167 | each id that is not empty replaces the stored one and no other does |
| SchedulerServer.Server.FinishItem | internal/app/batch_store.go:148-154 | the outcome is written whatever the row's status: ok as succeeded, partly as partial, lost as untracked, failure as failed; an empty run id keeps the stored one |
| SchedulerServer.Server.EndDispatch | internal/app/batch_run.go:656-710 | a dispatch ends as a finish, or as a cancel when its run was aborted, and lets the row go |
| SchedulerServer.Server.CancelQueuedItem | internal/app/batch_store.go:965-972 | a row is cancelled exactly when it is still queued |
| SchedulerServer.Server.CancelBatchJob | internal/app/batch_store.go:649-676 | a queued job is cancelled, a running one starts cancelling, any other is untouched |
| SchedulerServer.Server.RequeueItems | internal/app/batch_store.go:681-715 | the selected rows and only they wait again without ids, failed ones when nothing is selected; they are counted and the job waits again |
| SchedulerServer.Server.ExpireJob | internal/app/batch_store.go:574-577 | a job expires exactly when it is still queued |
| SchedulerServer.Server.ResumableInFlightItems | internal/app/batch_store.go:242-258 | exactly the rows left running with a run or conversation id, which are those still running once recovery is over |
| SchedulerServer.Server.StartedUnreconcilableItems | internal/app/batch_store.go:265-282 | the rows left running that were stamped or have a task id but neither run nor conversation id |
| SchedulerServer.Server.ResetInFlightItems | internal/app/batch_store.go:224-229 | the rows left running with no id and no stamp, and only they, wait again with one more reset on record |
| SchedulerServer.Server.Recover | internal/app/batch_run.go:771-803 | the three selections together make the recovery step |
| SchedulerServer.Server.ResumeBatchJobs | internal/app/batch_run.go:771-803 | a restart is the recovery step followed by one tick, and keeps the invariant |
| DifyProvider.RunStream | internal/dify/stream.go:74-164 | the result, ids and error of a stream as a function of its frames and its end, and what is persisted while it runs: the opening first, then ids, the last note holding them all |
| DifyProvider.FramesTold | internal/dify/stream.go:97-160 | reading on, the client holds the last non-empty id of each kind, and the end of the last finished workflow, or without one of the first error or end of message |
| DifyProvider.FramesStopped | internal/dify/stream.go:129-133 | in poll mode it lets go at the first run id, and without one reads on like any other |
| DifyProvider.StoppedStays | internal/dify/stream.go:129-133 | frames after the run id are irrelevant in poll mode |
| DifyProvider.ReconcileLoop | internal/app/dify_provider.go:243-269 | the first conclusive answer decides; a permanent error or the deadline leaves the outcome unknown |
| DifyProvider.AnswerFrom | internal/app/dify_provider.go:239-269 | a started run's outcome becomes known exactly when a poll answers with an end before any permanent error, and it is the first such answer |
| DifyProvider.Run | internal/app/dify_provider.go:99-196 | every event sequence leads to the specified result, and an opening is persisted first exactly when the request was accepted |
| DifyProvider.ErrorExactly | internal/app/dify_provider.go:150-196 | an error is returned exactly when nothing opened, when the run was cancelled unfinished, or when a started run was dropped blind; it is permanent only when the request was refused for good |
| DifyProvider.StartedEnds | internal/app/dify_provider.go:161-193 | a started run not dropped blind ends with the run id captured and the outcome of its end, else of the first answer polled, else untracked; only one cancelled while unfinished ends in an error, and that is never retried |
| DifyProvider.RunItem | internal/batch/engine.go:28-48 | only transient errors of an uncancelled context are retried, at most the given number of times |
| DifyProvider.EndsOnce | internal/batch/engine.go:28-48 | what the loop promises fixes its result and the number of its attempts |
| DifyProvider.SecondStartExactly | internal/batch/engine.go:28-48 | a dispatch opens a stream after a started run exactly when an earlier attempt was dropped blind |
| DifyProvider.BlindDropStartsTwice | internal/dify/stream.go:160-163 | with one retry allowed, an accepted run that breaks at once is followed by a second start |
| DifyProvider.BlindDropIsRetried | internal/batch/engine.go:28-48 | a run dropped blind in the first attempt is always attempted again while retries are left |
| LikePattern.ContainsExactly | internal/app/export_filter.go:331-335 | the pattern built from escaped user text matches exactly the texts in which it stands letter by letter, the case of ASCII letters aside |
| ExportFilter.YesNoExactly | internal/app/export_forecasts.go:277-310 | a yes/no condition means its literal reading exactly when it admits some answer |
| ExportFilter.TextLeaf | internal/app/export_filter.go:349-365 | a compiled text condition is true exactly when the text, missing as empty, satisfies it |
| ExportFilter.DateLeaf | internal/app/export_filter.go:376-396 | a compiled date condition: before excludes missing dates, after and between include their days |
| ExportFilter.NumberLeaf | internal/app/export_filter.go:398-420 | a compiled number condition, missing as zero |
| ExportFilter.FlagLeaf | internal/app/export_sources.go:617-638 | a compiled true/false condition: the flag, missing as false, is among the values or is not |
| ExportFilter.InstantLeaf | internal/app/export_filter.go:425-470 | a compiled instant condition: bare days cover the whole day, a missing instant satisfies nothing |
| ExportFilter.SearchLeaf | internal/app/export_sources.go:126-136 | the search is true exactly when some column contains the text |
| ExportFilter.VersionSuperset | internal/app/export_sources.go:366-381 | the version prefilter keeps every row the exact test accepts |
| ExportFilter.LeafExact | internal/app/export_filter.go:222-251 | every compiled condition, derived ones included, answers what the condition means, and its SQL part loses no row |
| ExportFilter.FittingCompiles | internal/app/export_filter.go:317-325 | a whitelisted condition fails to compile only as a yes/no or true/false condition with another word |
| ExportCompile.Validate | internal/app/export_filter.go:98-146 | a filter is accepted exactly when it is well shaped, whitelisted and within the limits on depth, nodes and conditions |
| ExportWire.AdmittedExactly | internal/app/export_filter.go:15-189 | admitted exactly as a group of at most 50 parts, 20 of them conditions, nested three deep, every part an and/or group or a condition with a word its field allows and as many values as the word takes |
| ExportWire.Utf8Counts | internal/app/export_filter.go:169-172 | the length of a value counts its UTF-8 bytes, one to four per character |
| ExportCompile.ShapedFits | internal/app/export_filter.go:98-189 | whatever validation accepts meets the compiler's requirements |
| ExportCompile.CompilesExactly | internal/app/export_filter.go:253-327 | a filter that fits its source compiles exactly when its yes/no and true/false conditions name those words |
| ExportCompile.Compiler.Walk | internal/app/export_filter.go:291-327 | the walk that appends leaves yields the WHERE text, the arguments in textual order, the leaves and the numbered tree of the compiled filter |
| ExportCompile.ConsFaithful | internal/app/export_filter.go:294-316 | joining faithful parts with AND or OR is faithful |
| ExportCompile.CompileFaithful | internal/app/export_filter.go:253-327 | for every tree and row the WHERE selects a superset, exactly the answer without derived conditions, and the evaluation tree accepts exactly what the filter means |
| ExportWire.CondKept | internal/app/export_filter.go:23-33 | each condition of the tree means what its operator word says of the stored value: is, is_not, in, not_in, contains, before, after, between |
| ExportWire.WireKept | internal/app/export_filter.go:291-316 | the tree means what the filter says as it arrives: and is every item, or is some item, an empty group everything |
| ExportPlan.CompiledSays | internal/app/export_filter.go:253-327 | so what a filter compiles to, in either form, is faithful to what it says as it arrives |
| ExportPlan.BuildFlags | internal/app/export_engine.go:89-97 | one flag column per plain leaf, its arguments in the same order, and where each stands |
| ExportPlan.FlagAligned | internal/app/export_engine.go:89-115 | the flag column of a leaf holds that leaf's own answer |
| ExportPlan.AnswersRead | internal/app/export_forecasts.go:82-125 | reading price and id back from the row's text: below entry exactly when the first entry price is positive and the symbol's price strictly lower, latest exactly when the row is the set held for its symbol |
| ExportPlan.NewPlan | internal/app/export_engine.go:52-119 | against the source as it can be served now, a plan is made exactly for the filters whose normal form is admissible and whose yes/no and true/false conditions name those words; its text and evaluation tree answer for every row what the filter says as it arrives, and it holds the candidate form exactly when the newest set is asked for |
| ExportPlan.PlannableExactly | internal/app/export_engine.go:52-62 | those are exactly the filters that pass validation and compile |
| ExportPlan.QuotesOffAskNoPrice | internal/app/export_forecasts.go:40-66 | with quotes off no plan asks for a price |
| ExportPlan.AbsentKeepsAll | internal/app/export_filter.go:88-94 | an absent filter is accepted and keeps every row |
| ExportPlan.Plan.Restrict | internal/app/export_engine.go:121-131 | a further condition narrows the plan by exactly that condition |
| ExportPlan.Plan.WithReaderLimits | internal/app/export_engine.go:133-145 | a reader's plan keeps exactly the rows in scope, of public types and not newer than the submit |
| ExportPlan.SelectsExactly | internal/app/export_engine.go:52-119 | what the query with its flags returns and the per-row check keeps is exactly what the filter says as it arrives, for every filter and row; the forecast columns are needed only by filters that ask about prices or the newest set |
| ExportPlan.PriceFreeSelectsExactly | internal/app/export_engine.go:69-118 | the same for reports, checked again row by row for the generator version, and every other source without prices, whatever columns they select |
| ExportPlan.CursorMeaning | internal/app/export_engine.go:176-204 | the resuming condition keeps strictly smaller keys and drops rows without a first key |
| ExportLatest.LoadNewest | internal/app/export_forecasts.go:88-110 | the fold holds per listed symbol a listed set, and no listed set of the symbol was made later, or at the same instant with a higher id |
| TextOrder.LessExactly | internal/app/export_forecasts.go:105-105 | one text is less than another exactly when it is a beginning of it or smaller at the first difference |
| ExportLatest.OrderIndependent | internal/app/export_forecasts.go:99-108 | the fold does not depend on the order of the grouped rows |
| ExportLatest.GroupingLosesNothing | internal/app/export_forecasts.go:82-110 | the grouped query loses nothing: its fold marks what a fold over all candidates would mark |
| ExportLatest.OnePerSymbol | internal/app/export_forecasts.go:82-110 | every symbol with a candidate has exactly one marked candidate, its newest |
| ExportLatest.CandidateText | internal/app/export_engine.go:64-76 | the neutral text selects exactly the rows accepted with the derived conditions taken as true |
| ExportLatest.LatestExactly | internal/app/export_forecasts.go:297-310 | a row is marked latest exactly when it matches the rest of the filter and no matching row of its symbol was made later, or at the same instant with a higher id, in any tree |
| ExportScan.ReadBatch | internal/app/export_engine.go:261-301 | stops at the row that reaches the size cap: all rows but the last stay below it together, a cut batch has reached it, an uncut one is the whole answer |
| ExportScan.NextBatch | internal/app/export_engine.go:311-340 | a batch is a beginning of what remains, no longer than asked for; another follows a full batch or one that reached the size cap, and none when everything was read |
| ExportScan.RemainingShrinks | internal/app/export_engine.go:341-347 | every batch that reads a row leaves fewer to read |
| ExportScan.Scan | internal/app/export_engine.go:303-357 | visits the accepted rows batch by batch in order, whatever the table becomes between batches: all of them, or exactly as many as the cap |
| ExportScan.Visit | internal/app/export_worker.go:242-253 | a reader's job visits the accepted rows of a batch in order and never more than its cap, and stops only at the cap with a row left |
| ExportScanExact.ScanExactly | internal/app/export_engine.go:176-357 | for every table, batch size and size cap the scan equals the sorted accepted rows exactly when it is lossless |
| ExportScanExact.KeyedIsLossless | internal/app/export_engine.go:182-192 | a table whose rows all have a first key is always scanned without loss |
| ExportScanExact.MissingKeyLost | internal/app/export_sources.go:472-472 | two rows without a first key and batches of one lose a row |
| ExportScanMoving.MovingScan | internal/app/export_engine.go:303-357 | under any inserts, deletes and edits between batches the visited keys strictly descend and every visited row existed and matched, unless the scan resumes from a row without a first key |
| ExportScanMoving.MovingAnyKeys | internal/app/export_engine.go:303-357 | whatever keys are missing, the scan is its first batch and a rest, each strictly descending and of rows that existed and matched; rows without a first key come in the first batch or not at all |
| ExportScanMoving.MissingKeyRepeats | internal/app/export_engine.go:182-192 | a scan that resumes from a row without a first key visits a row twice |
| ExportScanMoving.PresentIsVisited | internal/app/export_engine.go:303-357 | a row with a first key whose key matches in every table the scan finds is visited, and exactly once unless the scan resumes from a row without one |
| ExportScanMoving.Count | internal/app/export_engine.go:214-228 | the count shown is that of the scan for a derived filter and of the listing for a plain one; both are the number of rows the scan visits when it is lossless |
| ExportScanMoving.PlainCountDiffers | internal/app/export_engine.go:214-228 | a plain filter that counts two rows where the scan visits one |
| ExportScanMoving.Page | internal/app/export_engine.go:230-259 | a preview page is a slice of the scan for a derived filter and of the listing for a plain one, the same sequence when the scan is lossless |
| ExportRows.ResumedQuery | internal/app/export_engine.go:176-204 | the WHERE of a resumed batch, key arguments last, keeps exactly the rows the scan still has ahead |
| ExportRows.ExportsExactly | internal/app/export_engine.go:52-357 | for every source, filter and stored table the rows shown are the accepted ones, each once, newest first, exactly when the scan is lossless |
| ExportRows.KeyedExportsExactly | internal/app/export_engine.go:182-192 | which it is for a source with one key column and for tables where no row lacks the first key |
| ExportForecasts.ForecastsExactly | internal/app/export_forecasts.go:82-110 | a forecasts export whose marks were loaded from the table it lists shows exactly the rows its filter accepts, latest meaning that no matching set of the symbol was made later or at the same instant with a higher id, exactly when the scan is lossless |
| ReaderQuota.ChargeNeverRises | internal/app/export_reader.go:63-70 | no step raises what a job is charged |
| ReaderQuota.MayHappen | internal/app/export_worker.go:50-125 | what the steps leave open: recovery at any time, and every way a job can go on or end |
| ReaderQuota.StepKeeps | internal/app/export_reader.go:254-286 | every step keeps every requester within the quota on every day |
| ReaderQuota.QuotaHolds | internal/app/export_reader.go:254-286 | over every run neither the charges nor the rows delivered of a day's jobs exceed the quota |
| ReaderQuota.SafeExactly | internal/app/export_reader.go:228-232 | a submit is safe from every state within quota exactly when both clock readings fall on one day |
| ReaderQuota.FullDay | internal/app/export_reader.go:260-281 | a full day and a submit straddling midnight exceed the quota |
| ReaderQuota.InDay | internal/app/export_reader.go:56-61 | the day bounds hold exactly the instants of that civil day, which is 24 hours long and starts at local midnight |
| ReaderQuota.UsageSums | internal/app/export_reader.go:63-70 | the charge of a window is a sum with one addend per job of the requester made in it: the estimate while it waits or runs, then the rows it wrote |
| ExportJobs.Table.UsageOf | internal/app/export_reader.go:63-70 | sums the charge of the requester's jobs created in the window |
| ExportJobs.Table.Submit | internal/app/export_reader.go:254-286 | inserts nothing for an account that is gone; refuses exactly when the day's charges and the new count exceed the quota; otherwise appends one queued job charged and capped at the count |
| ExportJobs.Table.ClaimNext | internal/app/export_jobs.go:181-201 | claims a job still queued when updated; none queued was made earlier, or at the same instant with a lower id; those cancelled meanwhile are skipped |
| ExportJobs.Table.Cancel | internal/app/export_api.go:374-433 | whatever happened since the read, only the named active job is cancelled or its worker asked; ended jobs are never changed; not found exactly when there is no such job or an active one is gone meanwhile |
| ExportJobs.Table.Serve | internal/app/export_api.go:449-502 | a file is served exactly from a done, unexpired job whose file is there; a job turns expired only from done |
| ExportJobs.Lifetimes | internal/app/export_worker.go:112-113 | a finished file can be fetched for seven days, and a job that ended is swept once it is older than ninety |
| ExportJobs.AheadCounts | internal/app/export_jobs.go:241-250 | the place shown is exact: claims of others leave it, an end lowers it by one, zero means next |
| PredictionPurge.SettledMeans | internal/app/cleanup_store.go:246-259 | taking the date of the latest resolution is older than the cutoff exactly when every resolution is |
| PredictionPurge.Aggregate | internal/app/cleanup_store.go:264-274 | the counts of all, report-less and live sets of a month and the latest day one of them was settled |
| PredictionPurge.MonthIsPurgeable | internal/app/cleanup_store.go:291-319 | true exactly when the month has sets and every one may go |
| PredictionPurge.EligibleMeans | internal/app/cleanup_store.go:239-289 | a month may go exactly when it has sets and each has no report, only resolved or finally refused marks, and only resolution days, or without one a day of making, before the cutoff |
| PredictionPurge.PurgeMonths | internal/app/cleanup_store.go:226-291 | nominates each month once, exactly those the check in the transaction accepts on the same ledger |
| PredictionPurge.CountBefore | internal/app/cleanup_store.go:321-338 | the dry run counts the sets a pass over the same ledger removes |
| PredictionPurge.EligibleElsewhere | internal/app/cleanup_store.go:370-378 | purging some months does not change whether another may go |
| PredictionPurge.MonthsWhole | internal/app/cleanup_store.go:226-238 | a month stays as it was with all its claims and marks, or is gone with all of them |
| PredictionPurge.NoOrphansLeft | internal/app/cleanup_store.go:383-391 | no claim or mark is left pointing at a removed set |
| PredictionPurge.Store.DeletePredictionsBefore | internal/app/cleanup_store.go:340-409 | removes exactly the months nominated before and still eligible now, with a marker each, or is taken back exactly when one of them has a marker already |
| PredictionPurge.PurgeLeaves | internal/app/cleanup_store.go:370-409 | what purging some months leaves: the other sets in place, no claim or mark of a purged set, one marker per month with its number of sets |
| PredictionPurge.RefilledMonthClashes | internal/app/cleanup_store.go:340-409 | a month purged, filled again and nominated again meets its own marker |
| ReportRetention.IngestedBefore | internal/app/cleanup_store.go:167-192 | every report whose text parses to an instant before the cutoff, once, with that text, and no other |
| ReportRetention.Store.DeleteChunk | internal/app/cleanup_store.go:437-488 | removes exactly the listed reports that still carry the scanned text, with their dependents, and counts them |
| ReportRetention.ChunkLeaves | internal/app/cleanup_store.go:451-488 | table by table: exactly the listed reports that carry the scanned text are gone with their dependents and counted, links to them are nulled, all else is as it was |
| ReportRetention.Store.DeleteIngestedBefore | internal/app/cleanup_store.go:200-224 | runs every chunk on the tables it finds and returns the exact number removed |
| ReportRetention.TotalCounts | internal/app/cleanup_store.go:200-224 | the number returned is that of the reports its chunks took away, each from the tables the chunk found |
| ReportRetention.OneChunk | internal/app/cleanup_store.go:212-217 | every key is handled by exactly one chunk, of at most 500 keys |
| ReportRetention.ChunkIsSafe | internal/app/cleanup_store.go:437-449 | whatever happened since the scan, only reports old by the text they carry now go, dependents go exactly with them, and prediction sets stay with the link nulled |
| ReportRetention.FreshIsKept | internal/app/cleanup_store.go:457-465 | a report ingested again before its chunk is kept |
| Decimal.PrintParse | internal/app/backup.go:271-282 | every 64-bit integer survives print and parse |
| Decimal.NatTextDigits | internal/app/backup.go:271-282 | a number is printed digit by digit, units last |
| Base64.RoundTrip | internal/app/backup.go:255-292 | bytes survive base64 (section 4 of RFC 4648) |
| Base64.Alphabet | internal/app/backup.go:261-261 | the standard alphabet: capitals, small letters, digits, plus and slash |
| Base64.GroupDigits | internal/app/backup.go:261-261 | three bytes are four digits of that alphabet, the most significant first |
| Base64.ShortGroups | internal/app/backup.go:261-261 | one or two bytes are padded with zero bits and then with equals signs |
| Backup.ValueRoundTrip | internal/app/backup.go:250-292 | every storable value survives the file, bytes under the $b64 tag |
| Backup.RestoresExactly | internal/app/backup.go:271-292 | every element restores but a number that is neither a 64-bit integer nor finite, and an object that is not bytes under the tag |
| Backup.DumpTo | internal/app/backup.go:140-177 | one section and its rows per table, in order, and the number of rows |
| Backup.DumpOrder | internal/app/backup.go:140-177 | a table's section stands right after the tables before it, and its rows follow it one by one |
| Backup.RunExactly | internal/app/backup.go:697-812 | the stream is read to its end exactly when its body is well formed |
| Backup.SectionExactly | internal/app/backup.go:697-760 | a row belongs to the nearest line above it that names a table |
| Backup.Target.RestoreStream | internal/app/backup.go:694-819 | accepts exactly the well-formed streams with every declared table, with the same counts per table and in all forced or dry, and writes only when forced: every known table emptied, then what was loaded |
| Backup.DumpRestores | internal/app/backup.go:140-248 | restoring a dump whose sections fit reproduces every table row for row, each value under its column's present name |
| Backup.DumpAccepted | internal/app/backup.go:694-819 | such a dump is accepted with every declared table present |
| Backup.OwnDumpRestores | internal/app/backup.go:140-248 | the build that wrote a dump accepts it and gets every table back as it was |
| Backup.OwnValues | internal/app/backup.go:140-248 | value by value: each restored row has one cell per column, holding what the dump's row has there |
| BackupLevels.CheckDumpMigrations | internal/app/migrate_steps.go:722-756 | a level is accepted exactly when it names the first steps of this build in order and every later step lets older dumps in |
| BackupLevels.ColumnsMean | internal/app/migrate_steps.go:162-183 | a column is there after some steps exactly when the baseline or one of them gives it and none renames it away |
| BackupLevels.OptionalColumns | internal/app/migrate_steps.go:758-780 | a dump may lack exactly the columns that the steps after its level add |
| BackupLevels.RenamesNotCarried | internal/app/migrate_steps.go:162-183 | the renames to apply are exactly those of the steps after the dump's level |
| BackupLevels.LevelFits | internal/app/backup.go:719-781 | a section fits exactly when it has every column of the dump's level and beyond them only columns later steps add |
| BackupLevels.OlderDumpRestores | internal/app/backup.go:384-417 | every dump of an earlier release is accepted when the steps since allow it, and restored row for row |
| BackupLevels.ValueKept | internal/app/backup.go:726-743 | each of its values stands under its column's present name, across renames |
| BackupLevels.Restore | internal/app/backup.go:334-432 | accepts a file exactly when its header names this format and generation and a loadable level and its body is well formed for it, with the same answer forced or dry, and replaces the tables only when forced |
| RestoreRules.Database.SaveStart | internal/app/forecast_population.go:177-188 | the start is written only where no row exists |
| RestoreRules.Database.Restore | internal/app/backup.go:515-568 | refused exactly when both starts are set and differ as text and as instant, and then nothing changes; otherwise start, mode and stage are settled by the rules |
| RestoreRules.Database.ApplyEvaluator | internal/app/backup.go:570-606 | the mode text ends as it was, or as "off" where the live mode is off, or as "dry" where it was on |
| RestoreRules.Database.ApplyStage | internal/app/backup.go:608-661 | the stage text ends as it was unless the live stage is lower, and then as that |
| RestoreRules.NeverRaises | internal/app/backup.go:570-661 | the mode ends dry exactly when neither side was off and is never on; the stage ends full exactly when both were, and at least card exactly when both were |
| Texts.TrimExactly | internal/app/forecast_ops.go:66-75 | a mode is read without the white space around it, and only that |
| RestoreRules.StartNeverMoves | internal/app/backup.go:522-543 | over any history a start once set stays set, to the same text or one of the same instant |
| AppAccess.NewGraph | internal/app/ou_graph.go:32-52 | the default unit is known exactly when there is one and nothing lies above it |
| AppAccess.FindChain | internal/app/ou_graph.go:54-76 | the loop climbs as specified |
| AppAccess.ChainExactly | internal/app/ou_graph.go:54-76 | a chain is found exactly when one ends within 64 units, and it is the only one |
| AppAccess.ResolveAccess | internal/app/apps_layout.go:194-203 | the nearest override decides, open without one |
| AppAccess.NearestDecides | internal/app/ou_graph.go:124-140 | closed exactly when the first unit with an override on the chain closes |
| AppAccess.FastAgrees | internal/app/apps_layout.go:244-285 | the fast check equals the full resolver except for a broken chain and an app without overrides |
| AppAccess.TornChainDisagrees | internal/app/apps_layout.go:244-285 | a unit whose parent is gone, where the two answers differ |
| AppAccess.OpenExactly | internal/app/ou_policy.go:139-142 | on a sound graph the app is open exactly for managers and for active users whose path leaves it open: the default unit alone without a unit, otherwise the unit's chain, then the default unit where the chain ends elsewhere |
| AppAccess.UnitsDecide | internal/app/ou_graph.go:78-87 | the two cases spelled out: the default unit's override, or the nearest one along the chain and the default unit |
| AppAccess.ClosesAtExactly | internal/app/ou_graph.go:78-87 | a unit goes from open to closed exactly when its path is left open before and closed after |
| AppAccess.ClosesSomewhere | internal/app/apps_layout.go:348-361 | true exactly when some unit goes from open to closed |
| AppAccess.OrderAppKeys | internal/app/apps_layout.go:40-54 | ranked keys sorted, then the others |
| AppAccess.OrderIsStable | internal/app/apps_layout.go:40-54 | a permutation; ranked by position, ties and unranked keys in the order given |
| AppTokens.NobodyCloses | internal/app/apps_layout.go:348-361 | a change that closes no unit leaves the app open for everyone it was open for |
| AppTokens.ClosingStrands | internal/app/apps_layout.go:348-361 | any change that closes a unit shuts out a user of that unit |
| AppTokens.ChangeKeeps | internal/app/apps_layout.go:546-594 | an override change and its revocation leave only tokens whose holder is open |
| AppTokens.Portal.MintForApp | internal/app/apps_api.go:159-185 | the handler and the table together: mints, after pruning, exactly when the user is a manager or active with no closing override nearest on the path from the unit, or for a user without one from the default unit |
| AppTokens.Portal.CheckToken | internal/app/apps_token.go:106-121 | valid exactly up to expiry and for a held scope, and the holder of a valid token is open |
| AppTokens.Portal.Prune | internal/app/apps_token.go:123-129 | drops exactly the expired tokens |
| AppTokens.Portal.SetAccess | internal/app/apps_layout.go:518-594 | writes the one override and revokes the app's tokens exactly when it closes the path of some unit |
| Civil.OrdOrders | internal/app/cadence.go:43-47 | day numbers order the calendar and name each day once |
| Civil.AddDaysAdds | internal/app/cadence.go:66-81 | adding days adds them, across months and leap years |
| Civil.WeekdaysRun | internal/app/cadence.go:24-27 | the weekdays follow each other through every month and year, and 1 January 1970 was a Thursday |
| Civil.DateTextExactly | internal/app/export_filter.go:169-172 | a date text is valid exactly when its month has its day, leap years included |
| Cadence.ClockReads | internal/app/run_preset.go:41-53 | two digits, a colon and two digits read as hours and minutes into the day, up to 23:59 |
| Cadence.DueMeans | internal/app/cadence.go:10-52 | due exactly at or after its time on a day not yet run: any day, its weekday, or its day of the month, the last day standing for a day the month lacks |
| Cadence.OneDayAMonth | internal/app/cadence.go:28-39 | every month has exactly one eligible monthly day: the rule's day, or the last day of a month without it |
| Cadence.OneDayAWeek | internal/app/cadence.go:24-27 | every seven days hold exactly one eligible weekly day |
| Cadence.OncePerDay | internal/app/cadence.go:5-8 | under a clock that never runs backwards the rule fires at most once on any civil day |
| Cadence.NextIsFirst | internal/app/cadence.go:54-93 | next is the first time of the first eligible day, strictly after now |
| Cadence.NotDueUntilNext | internal/app/cadence.go:54-57 | a rule that is not due stays so until next |
| Cadence.DueAtNext | internal/app/cadence.go:54-57 | and fires at next, except when it already ran today before its time |
| Cadence.ShownButNotDue | internal/app/cadence.go:54-57 | a noon rule that ran in the morning shows a noon at which it does not fire |
| Percent.RoundedIsNearest | internal/app/export_forecasts.go:367-379 | the rounding is off by at most half, and by a half only away from zero |
| Percent.PctExactly | internal/app/export_forecasts.go:367-379 | in 64 bits the shown change is that nearest hundredth exactly when nothing leaves the range |
| Percent.WrappedChange | internal/app/export_forecasts.go:367-379 | the largest price against an entry of one fen shows a wrong change |
| Percent.YuanUnsigned | internal/app/export_forecasts.go:346-354 | an amount is written as its sign, the whole yuan, a point and two digits of fen |
| Percent.YuanReadsBack | internal/app/export_forecasts.go:346-354 | an amount is read back from its text exactly when it is not the smallest 64-bit integer |
| Percent.PctTextExactly | internal/app/export_forecasts.go:346-379 | the text of the change reads back as the nearest hundredth exactly when nothing leaves the range |

## Left out

- SchedulerServer.Server.Recover: recovery is one atomic step; reconciling goroutines that end before the reset can already admit rows.
- SchedulerServer.Server.RequeueItems: the protocol's retry step is proved only for rows no goroutine of this process holds, the exact condition under which it is safe; the method itself has no such guard, as in the source.
- SchedulerServer.Server.FinalizeLocked: sections under the scheduler lock and single store calls are atomic; a retry landing inside one, and writes that fail, are not modelled.
- SchedulerServer.Server.ItemCandidates: scores are given numbers; the floating-point priority factors and usage decay are not computed, and preset windows enter as the set of due jobs.
- DifyProvider.Run: file inputs, stop requests and failure texts; malformed frames count as absent.
- ExportFilter.InstantLeaf: instants are integers in the unit the column stores; their text encodings are not spelled out.
- ExportFilter.VersionSuperset: parsing a version from source or title is not modelled, only that it occurs there; letter case is folded for ASCII, as SQLite does.
- ExportPlan.SelectsExactly: the symbol cap and the chunked price fetch; prices are a given map.
- ExportScan.Scan: missing keys sort last as in SQLite; Postgres sorts them first.
- ReaderQuota.QuotaHolds: the quota and the zone offset are fixed, and administrators' exports, which carry no charge limit, are not in the table.
- ExportJobs.Table.Cancel: the handler's wait for the worker ends with the worker being asked to stop, so its last read finds the table it wrote to.
- PredictionPurge.Store.DeletePredictionsBefore: purge evidence for own-scoped readers and failing statements other than the unique marker.
- ReportRetention.Store.DeleteIngestedBefore: statements that fail in the middle of a chunk; the parsing of sent_at is a given function.
- Backup.Target.RestoreStream: insert failures, identity columns, and floating-point columns, whose integral values come back as integers; whether a number's floating-point value is finite is given with it.
- BackupLevels.Restore: the check of the schema a restore leaves behind and the record of its steps; the live database is taken to have every step of its build.
- BackupLevels.LevelFits: the list of steps is taken to use each column name once per table, to rename only columns of the baseline, each once, and to create a table once, as its own rules ask.
- Backup.DumpRestores: what finishing a restore changes afterwards besides the settings of RestoreRules (paused dispatch, uncertain deliveries, reset connections).
- RestoreRules.Database.Restore: the unrecorded floor, the default scopes, the reset of gates and the audit rows.
- AppTokens.Portal.MintForApp: one step, although the source locks twice; units and roles are fixed while tokens live, and unit ids are positive.
- AppAccess.OrderAppKeys: positions are unbounded integers, so the comparator's subtraction does not overflow.
- Cadence.NextIsFirst: a zone of fixed offset; days of 23 or 25 hours are not modelled.
- Handlers' wire formats, sessions, mail, charts, archives, market data and the web client.
- Prompt deletion of jobs, preset window arithmetic, dashboards and notification delivery.
