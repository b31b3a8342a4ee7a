# A model of the CLI server's stateful core

This project models the parts of the server whose guarantees span many calls, and proves those guarantees. Each
`.dfy` file is one module; code that changes state is a class whose methods are proved against functions on
values, and the theorems are about those functions over all inputs and all histories.

| files | what they model |
|---|---|
| `JobScheduler`, `CronSchedule` | the run slots of a job, the queue of one, overlap policies, retries, and when a cron timer fires |
| `JobStorage`, `Columns`, `JobStats` | the job history with its per-job lists, bulk delete over pages, statistics in columns |
| `FilePaths`, `FileMap`, `FileLayout`, `InMemoryFiles`, `JsonFiles` | paths, the flat map a virtual file system is, and the two trees of nodes changed in place that refine it |
| `ProcessTree` | which processes a shell started, in any parent table |
| `ShellWords`, `McpCommands` | quoting and splitting command lines, and the command an MCP tool sends |
| `CommandTree` | the executor's lookup, the auth gate's permissions and the MCP tools, over one tree of processors |
| `Permissions`, `UserDirectory`, `DirectoryLaws`, `DirectoryService` | wildcard permissions, and users and groups with their delegation rules and stores |
| `Lockout`, `RateLimiter`, `HashSlots` | failed logins, the sliding window, and the slots for password hashing |
| `LogBuffer` | the ring of log entries and its histogram |
| `Text`, `Counting` | strings as JavaScript handles them, counting over histories |

How to read it: a history is a sequence of states and events in which each state is the step of the one before. The
code between two awaits of the scheduler, the lockout and the hashing slots is one step; directory operations
happen one after another. In `InMemoryFiles` and `JsonFiles` a ghost layout says which node lies at which path; the
methods keep it true of the heap, and `Contents()` is the flat map it stands for.

Seven results are about where the code does not do what one might expect, each with its exact condition:

- `Permissions.CoversComposes`, `Permissions.TightIffChainsAddNothing` and `Permissions.ScopeWidens`: covering is not
  transitive, so a permission that ends in two wildcards lets its holder, or a scoped token of its holder, come to
  more than it answers itself (`UserDirectory.TwoTrailingWildcardsGrow`). Group and token validation accepts such
  permissions.
- `CommandTree.GateGuardsWhatRuns`: the executor iterates whatever it is sent as chain, and the gate reads lists only,
  so a chain sent as a string runs a sub-command without the permissions the sub-command requires.
- `CronSchedule.FiredOnceUnlessRestartedEarly`: a timer started again forgets what it fired, so a restart while the
  clock is behind the last occurrence fires it again.
- `FileMap.MoveRelocates`: a move between overlapping paths is a copy and a removal, and loses the source, or fails
  after it has overwritten the destination.
- `FileMap.WriteIsReadBack`: a write to `/` puts a file with an empty name in the root, which no path names.
- `FileMap.RemoveIsExact`: a recursive removal of `/` succeeds and takes away only the entry with the empty name.
- `JobStorage.SaveKeepsIndex`: a run saved again under another job stays in the list of the first.

## Model

| member | source | states |
|---|---|---|
| JobScheduler.JobRegistration.TryStart | plugins/jobs/cli-job-scheduler.ts:698-710 | A due run starts when a slot is free; otherwise the overlap policy skips it, queues it, or cancels the oldest run not cancelled yet and queues it; the answer says which |
| JobScheduler.JobRegistration.StartRun | plugins/jobs/cli-job-scheduler.ts:713-722 | A new run takes a slot, after all others, and its first attempt begins |
| JobScheduler.JobRegistration.DrainQueue | plugins/jobs/cli-job-scheduler.ts:729-734 | A queued run starts exactly when a slot is free, and is then queued no more |
| JobScheduler.JobRegistration.EndRun | plugins/jobs/cli-job-scheduler.ts:718-726 | The end of a run frees its own slot and lets a queued run have it |
| JobScheduler.JobRegistration.Sync | plugins/jobs/cli-job-scheduler.ts:737-742 | The current execution is that of the newest run with an execution, or none |
| JobScheduler.JobRegistration.CancelAll | plugins/jobs/cli-job-scheduler.ts:745-748 | Every run is told to abort and the queued one is dropped; no slot is freed |
| JobScheduler.JobRegistration.Trigger | plugins/jobs/cli-job-scheduler.ts:436-448 | A trigger fails as already running exactly when the job is full and skips; otherwise it reports whether it was queued |
| JobScheduler.JobRegistration.TimerFires | plugins/jobs/cli-job-scheduler.ts:635-689 | A timer of an active job asks for a run; any other does nothing |
| JobScheduler.JobRegistration.SettleAttempt | plugins/jobs/cli-job-scheduler.ts:826-846 | What an attempt ends as: timed out, cancelled, failed or completed, in that order |
| JobScheduler.JobRegistration.SaveAttempt | plugins/jobs/cli-job-scheduler.ts:853-857 | A saved attempt leaves its run in its slot, without an execution |
| JobScheduler.JobRegistration.Decide | plugins/jobs/cli-job-scheduler.ts:751-771 | A run goes on to wait for a retry exactly when its attempt failed, it was not aborted and retries are left |
| JobScheduler.JobRegistration.NextAttempt | plugins/jobs/cli-job-scheduler.ts:775-788 | The next attempt runs in the slot the run already has, under a new execution |
| JobScheduler.JobRegistration.CancelCurrent | plugins/jobs/cli-job-scheduler.ts:488-494 | Refused exactly when nothing runs and nothing is queued |
| JobScheduler.JobRegistration.StopJob | plugins/jobs/cli-job-scheduler.ts:475-485 | Stopping cancels every run and drops the queued one |
| JobScheduler.JobRegistration.Pause | plugins/jobs/cli-job-scheduler.ts:451-460 | Pausing twice is refused; runs and queue stay |
| JobScheduler.JobRegistration.Resume | plugins/jobs/cli-job-scheduler.ts:463-472 | Resuming is refused unless paused |
| JobScheduler.JobRegistration.UpdateOptions | plugins/jobs/cli-job-scheduler.ts:529-595 | A limit below one is refused and changes nothing; a raised limit starts a queued run at once |
| JobScheduler.StepKeepsInv | plugins/jobs/cli-job-scheduler.ts:698-748 | Each step keeps: a run is queued only while every slot is taken (no wake-up is lost), runs are distinct, a run has an execution exactly while an attempt is under way, and the current execution is the newest |
| JobScheduler.InvHolds | plugins/jobs/cli-job-scheduler.ts:698-748 | Those invariants in every state of every history of triggers, timer fires, attempt ends, delays, failures, cancels, stops and option changes |
| JobScheduler.StepSlots | plugins/jobs/cli-job-scheduler.ts:698-773 | Which runs hold slots after a step: those before, less the one whose own run ended, plus the one that started; a step that starts a run ends within the limit then in force |
| JobScheduler.NeverAbovePeak | plugins/jobs/cli-job-scheduler.ts:698-734 | A job never has more runs than the highest limit it ever had |
| JobScheduler.LimitHolds | plugins/jobs/cli-job-scheduler.ts:698-734 | With a limit that is never lowered, the limit holds at every moment |
| JobScheduler.StepQueue | plugins/jobs/cli-job-scheduler.ts:698-748 | Exactly when a step queues a run, starts the queued one, or drops it |
| JobScheduler.RequestAborts | plugins/jobs/cli-job-scheduler.ts:699-707 | A request aborts at most one run, the oldest alive, and only when it begins a queued episode under the cancel policy |
| JobScheduler.RequestsAreConserved | plugins/jobs/cli-job-scheduler.ts:691-748 | Every request, by the answer it gets, starts, is refused as skipped (even while one is queued), joins the queued one or becomes it; every queued one is started once, dropped, or still queued; every started run has ended or holds its slot; the policy aborts at most one run per queued episode |
| JobScheduler.QueuedWaitIsBounded | plugins/jobs/cli-job-scheduler.ts:713-734 | While a run stays queued under an unchanged limit, no more runs end than exceed the limit: it waits for no further one |
| JobScheduler.OwnStep | plugins/jobs/cli-job-scheduler.ts:751-857 | What each step of a run does to it, field by field: how an attempt settles, that saving leaves no execution, when a run waits for a retry or ends, and that a retry is a new execution in the same slot |
| JobScheduler.OtherRuns | plugins/jobs/cli-job-scheduler.ts:691-748 | A step of anything else leaves a run as it is, but for an abort by a cancel, a stop or a request; what is new is a new run |
| JobScheduler.NewRuns | plugins/jobs/cli-job-scheduler.ts:713-718 | A run that takes a slot executes, is not aborted, and has ids nobody had before |
| JobScheduler.AttemptsAreRetries | plugins/jobs/cli-job-scheduler.ts:752-773 | In every history a run counts exactly the retries made of it |
| JobScheduler.RetriesAreBounded | plugins/jobs/cli-job-scheduler.ts:751-773 | In every history no run begins more retries than the highest number ever allowed, counted in events |
| JobScheduler.RetriesAreMade | plugins/jobs/cli-job-scheduler.ts:753-757 | A decision leaves the run waiting in its slot if and only if its attempt failed, it is not aborted and fewer retries of it have begun than allowed now; otherwise the run ends |
| JobScheduler.CancelReachesAll | plugins/jobs/cli-job-scheduler.ts:744-748 | A cancel or a stop tells every run to abort, drops the queued one, and changes nothing else of any run |
| JobScheduler.CancelIsFinal | plugins/jobs/cli-job-scheduler.ts:475-494 | In every history, once a cancel or a stop has come, each run that held a slot then settles only as cancelled or timed out, begins no further attempt, and ends at its next decision |
| JobScheduler.RunsInOrder | plugins/jobs/cli-job-scheduler.ts:713-722 | Slots are held in the order in which runs came |
| JobScheduler.CurrentIsNewest | plugins/jobs/cli-job-scheduler.ts:736-742 | At every moment the current execution is that of the run started last among those that execute, or none |
| JobScheduler.StepStatus | plugins/jobs/cli-job-scheduler.ts:451-485 | Which step makes a job active, paused or stopped |
| JobScheduler.StepOptions | plugins/jobs/cli-job-scheduler.ts:529-595 | An accepted update changes each option it gives and no other; a refused one none |
| CronSchedule.NextIsLeast | plugins/jobs/cli-job-scheduler.ts:105-111 | The next fire is the least occurrence after both the fired one and the clock |
| CronSchedule.CronTimer.Fire | plugins/jobs/cli-job-scheduler.ts:641-650 | The timer fires what it waits for, early or late, and waits for the next occurrence after it, found at that moment |
| CronSchedule.TickIs | plugins/jobs/cli-job-scheduler.ts:635-657 | A firing is one, of the occurrence waited for, and the least one after it and the clock is next; a restart fires nothing and waits for the least one after the clock |
| CronSchedule.CronTimer.Restart | plugins/jobs/cli-job-scheduler.ts:588-592 | Resumed, or given other options, it waits for the next occurrence after the clock and knows of nothing it fired |
| CronSchedule.NothingMissed | plugins/jobs/cli-job-scheduler.ts:100-111 | For every clock and restarts at any moment, only occurrences fire, and between two that fire one is passed over only when the clock was past it |
| CronSchedule.FiredOnceUnlessRestartedEarly | plugins/jobs/cli-job-scheduler.ts:635-657 | What fires is strictly increasing, so no occurrence fires twice, if and only if at every restart that leads to a firing the clock was not behind what had fired last |
| CronSchedule.FiredInOrder | plugins/jobs/cli-job-scheduler.ts:100-111 | A timer that is never restarted fires strictly increasing occurrences, early ticks and jumps of the clock included |
| JobStorage.InMemoryJobStorageProvider.SaveExecution | plugins/jobs/in-memory-job-storage-provider.ts:17-28 | Saving replaces a run of that id in place or appends it, and lists it under its job; the per-job lists stay equal to the runs of each job, in order, if and only if no stored run changes its job |
| JobStorage.SavedInPlace | plugins/jobs/in-memory-job-storage-provider.ts:17-18 | A run saved again takes its old place, every other one keeps its own, and a new one comes last |
| JobStorage.InMemoryJobStorageProvider.GetExecutions | plugins/jobs/in-memory-job-storage-provider.ts:30-50 | A page of a job's runs, newest first, filtered by status, with the number of all of them, as if the whole history were read |
| JobStorage.ListedNewestFirst | plugins/jobs/in-memory-job-storage-provider.ts:34-38 | What is listed is the history read at strictly falling positions: the newest first |
| JobStorage.PageIs | plugins/jobs/in-memory-job-storage-provider.ts:44-49 | A page holds what comes from its offset on, up to its limit and the end |
| JobStorage.InMemoryJobStorageProvider.Remove | plugins/jobs/in-memory-job-storage-provider.ts:92-100 | Removes exactly the run of that id from the history and from its job's list; true exactly when it was there |
| JobStorage.InMemoryJobStorageProvider.Prune | plugins/jobs/in-memory-job-storage-provider.ts:62-70 | Removes exactly the runs started before the date and returns how many |
| JobStorage.PruneLeaves | plugins/jobs/in-memory-job-storage-provider.ts:62-70 | A run is left if and only if it did not start before the date |
| JobStorage.SaveKeepsIndex | plugins/jobs/in-memory-job-storage-provider.ts:17-28 | Saving keeps the per-job lists right if and only if no stored run changes its job |
| JobStorage.RemoveKeepsIndex | plugins/jobs/in-memory-job-storage-provider.ts:92-100 | Removing keeps the per-job lists right |
| JobStorage.IndexFindsAll | plugins/jobs/in-memory-job-storage-provider.ts:30-43 | Looking runs up through a job's list finds what filtering the whole history finds |
| JobStorage.JobHistory.DeleteExecution | plugins/jobs/cli-job-scheduler.ts:497-513 | Deletes a run exactly when its job is registered, it is of that job, finished, and no run executes it; not found exactly when the job has no such run, and refused as running otherwise |
| JobStorage.DeleteNeeds | plugins/jobs/cli-job-scheduler.ts:503-509 | One delete needs a finished run of the job that nothing executes |
| JobStorage.JobHistory.FinishedRuns | plugins/jobs/cli-job-scheduler.ts:177-188 | Paging terminates and gathers each finished run of the job once |
| JobStorage.JobHistory.DeleteExecutions | plugins/jobs/cli-job-scheduler.ts:177-199 | Bulk delete removes exactly the finished matching runs not refused as running, and returns their number |
| JobStorage.BulkDeleteLeaves | plugins/jobs/cli-job-scheduler.ts:177-199 | A run is left if and only if it is of another job or of a status not asked for, is running, or is executed now |
| Columns.BucketIndex | plugins/jobs/cli-jobs-stats.ts:81-84 | A time has no column exactly outside the range |
| Columns.WidestThatFit | plugins/jobs/cli-jobs-stats.ts:69 | Columns are as wide as so many of them fit into the range, and a millisecond at least |
| Columns.ColumnCovers | plugins/jobs/cli-jobs-stats.ts:81-84 | Column i covers its slice of the range; only the last one takes the remainder as well |
| Columns.ColumnsConserve | plugins/jobs/cli-jobs-stats.ts:148-164 | The columns together count everything in the range once, kind by kind |
| JobStats.ClampBuckets | plugins/jobs/cli-jobs-stats.ts:74-78 | 24 columns by default, else of the numbers from 1 to 200 the one nearest to what was asked for |
| JobStats.ResolveStatsRange | plugins/jobs/cli-jobs-stats.ts:64-71 | A range is refused exactly when it is empty; otherwise its columns are at least a millisecond wide |
| JobStats.CollectRuns | plugins/jobs/cli-jobs-stats.ts:130-145 | Each stored run in the range once, by its first listing, with the outcome its status counts as, for every page size the storage allows; terminates |
| JobStats.NothingRepeated | plugins/jobs/cli-jobs-stats.ts:130-145 | With distinct ids nothing listed is left out |
| JobStats.Summarize | plugins/jobs/cli-jobs-stats.ts:197-223 | The number of runs, the count of each outcome and the latest failure |
| JobStats.LastFailure | plugins/jobs/cli-jobs-stats.ts:197-213 | The start of a failed run that no failed run started after |
| JobStats.CountsAreComplete | plugins/jobs/cli-jobs-stats.ts:197-203 | Each run counts once, under one outcome |
| JobStats.BuildJobStats | plugins/jobs/cli-jobs-stats.ts:148-189 | Each column counts the runs that fall in it; each job has its runs in order; the totals count all |
| JobStats.StatsAgree | plugins/jobs/cli-jobs-stats.ts:148-189 | Columns, jobs and totals agree on every outcome if and only if all runs are in the range |
| JobStats.JobStatistics | plugins/jobs/cli-jobs-controller.ts:68-85 | The statistics of what the storage lists, read page by page |
| JobStats.HistoryIsCounted | plugins/jobs/cli-jobs-stats.ts:19-35 | The totals and the columns count, outcome by outcome, exactly the stored executions in the range whose status counts as that outcome |
| JobStats.AttemptsCountAs | plugins/jobs/cli-jobs-stats.ts:19-35 | A status as the scheduler writes it, in any case, counts as what the attempt ended as, out of time as failed |
| JobStats.OtherStatusesCountAs | plugins/jobs/cli-jobs-stats.ts:19-35 | The other words for a status count as what they mean, and an unknown one as cancelled |
| LogBuffer.LogRingBuffer.Push | plugins/admin/services/log-ring-buffer.ts:123-137 | The ring with one more entry |
| LogBuffer.LogRingBuffer.GetAll | plugins/admin/services/log-ring-buffer.ts:207-216 | The ring holds the last entries pushed, in order, up to its capacity |
| LogBuffer.LastOnesStay | plugins/admin/services/log-ring-buffer.ts:207-216 | The last entries are as many as there may be, in their order |
| LogBuffer.LogRingBuffer.Histogram | plugins/admin/services/log-ring-buffer.ts:181-202 | The chart of the entries kept, built entry by entry |
| LogBuffer.ChartCountsEntries | plugins/admin/services/log-ring-buffer.ts:181-202 | Each column counts of each level exactly the entries that pass the filter and fall in it |
| LogBuffer.ChartedTallies | plugins/admin/services/log-ring-buffer.ts:181-202 | Columns and totals tally the same entries, those of the columns and those of the range |
| LogBuffer.HistogramConserves | plugins/admin/services/log-ring-buffer.ts:181-202 | Level by level, the columns add up to the totals |
| FilePaths.NormalizedIsCanonical | plugins/filesystem/providers/in-memory-provider.ts:59-69 | Normalizing leaves the components of a path, in the one form they have |
| FilePaths.NormalizeDecides | plugins/filesystem/providers/in-memory-provider.ts:59-69 | Two paths normalize alike if and only if they have the same components |
| FilePaths.ParentAndNameSplit | plugins/filesystem/providers/in-memory-provider.ts:71-80 | The parent path and the name an operation works on, the root's included |
| FileMap.MkdirAllMakesPath | plugins/filesystem/providers/in-memory-provider.ts:216-236 | A recursive mkdir succeeds exactly when no prefix is a file, then makes every prefix a directory and nothing else, and a second one changes nothing; else it names the first file on the way and changes nothing |
| FileMap.CopyIsExact | plugins/filesystem/providers/in-memory-provider.ts:276-299 | A copy makes the destination what the source was before the call, even inside the source, and changes nothing else |
| FileMap.MoveRelocates | plugins/filesystem/providers/in-memory-provider.ts:301-304 | A move relocates the subtree and leaves all else as it was if and only if it can copy and neither path lies in the other, a destination that is the root included |
| FileMap.CopiesStayApart | plugins/filesystem/providers/in-memory-provider.ts:276-299 | After a copy, a write or removal in the copy never shows in the original, nor one in the original in the copy, when neither lies in the other |
| FileLayout.Layout.NoNodeIsShared | plugins/filesystem/providers/in-memory-provider.ts:105-125 | In either tree, after any operations, no node is at two paths: a copy shares none with its original |
| FileMap.WriteIsReadBack | plugins/filesystem/providers/in-memory-provider.ts:155-196 | What was written is read back, if and only if the path is not the root |
| FileMap.WriteIsExact | plugins/filesystem/providers/in-memory-provider.ts:170-196 | A write succeeds exactly in a directory and not over one, then sets its path and nothing else; each failure has its own error and changes nothing |
| FileMap.MkdirIsExact | plugins/filesystem/providers/in-memory-provider.ts:237-254 | A mkdir succeeds exactly in a directory where the name is free, then makes its path a directory and nothing else; each failure has its own error and changes nothing |
| FileMap.RemoveIsExact | plugins/filesystem/providers/in-memory-provider.ts:257-274 | A removal succeeds exactly when something is at the path, a directory only if recursive; then exactly what is at and below the path is gone, of the root only what has the empty name; otherwise nothing changes and the error says which |
| FileMap.CopyAndMoveAnswers | plugins/filesystem/providers/in-memory-provider.ts:276-304 | When a copy succeeds and which error it fails with; a move answers as its copy, unless the copy left nothing at the source |
| FileMap.ReadIsExact | plugins/filesystem/providers/in-memory-provider.ts:155-168 | What a read answers, by what is at the path |
| FileMap.ListingIsExact | plugins/filesystem/providers/in-memory-provider.ts:127-153 | A listing has exactly the names one step below, told apart as directories and files |
| FileMap.WriteKeepsClosed | plugins/filesystem/providers/in-memory-provider.ts:170-196 | A write keeps every entry below a directory |
| FileMap.MkdirKeepsClosed | plugins/filesystem/providers/in-memory-provider.ts:237-254 | So does a mkdir |
| FileMap.MkdirAllKeepsClosed | plugins/filesystem/providers/in-memory-provider.ts:219-236 | So does a recursive mkdir |
| FileMap.RemoveKeepsClosed | plugins/filesystem/providers/in-memory-provider.ts:257-274 | So does a removal |
| FileMap.CopyKeepsClosed | plugins/filesystem/providers/in-memory-provider.ts:276-299 | So does a copy |
| FileMap.MoveKeepsClosed | plugins/filesystem/providers/in-memory-provider.ts:301-304 | So does a move |
| FileLayout.RelinkedIsValid | plugins/filesystem/providers/in-memory-provider.ts:276-299 | Linking a separate tree under a name leaves a tree: every node once, under one path |
| FileLayout.UnlinkedIsValid | plugins/filesystem/providers/in-memory-provider.ts:257-274 | Unlinking a name leaves a tree |
| FileLayout.CloneIsSubtree | plugins/filesystem/providers/in-memory-provider.ts:105-125 | Copies of a node and of all its children hold the subtree |
| InMemoryFiles.CloneNode | plugins/filesystem/providers/in-memory-provider.ts:105-125 | A clone is made of new nodes only and holds the subtree of its original |
| InMemoryFiles.InMemoryFileStorage.Resolve | plugins/filesystem/providers/in-memory-provider.ts:82-103 | The node a path names, exactly when the flat map has the path |
| InMemoryFiles.InMemoryFileStorage.ReadFile | plugins/filesystem/providers/in-memory-provider.ts:155-168 | Reads what the flat map has at the path, with its errors |
| InMemoryFiles.InMemoryFileStorage.List | plugins/filesystem/providers/in-memory-provider.ts:127-153 | The names one step below a directory, and which are directories, with the errors for a missing path and a file |
| InMemoryFiles.InMemoryFileStorage.WriteFile | plugins/filesystem/providers/in-memory-provider.ts:170-196 | Succeeds or fails as the flat map says and changes only the named path; nothing when it fails |
| InMemoryFiles.InMemoryFileStorage.Mkdir | plugins/filesystem/providers/in-memory-provider.ts:237-254 | A mkdir, on the flat map |
| InMemoryFiles.InMemoryFileStorage.MkdirAll | plugins/filesystem/providers/in-memory-provider.ts:216-236 | A recursive mkdir, on the flat map; a failing one leaves the tree unchanged |
| InMemoryFiles.InMemoryFileStorage.Remove | plugins/filesystem/providers/in-memory-provider.ts:257-274 | A removal, on the flat map |
| InMemoryFiles.InMemoryFileStorage.Copy | plugins/filesystem/providers/in-memory-provider.ts:276-299 | A copy, on the flat map, with no node shared |
| InMemoryFiles.InMemoryFileStorage.Move | plugins/filesystem/providers/in-memory-provider.ts:301-304 | A move, on the flat map |
| InMemoryFiles.InMemoryFileStorage.Exists | plugins/filesystem/providers/in-memory-provider.ts:306-309 | True exactly when the flat map has the path |
| JsonFiles.SiblingNamesDiffer | plugins/filesystem-json/json-file-provider.ts:148-158 | No two entries of a child list share a name |
| JsonFiles.CloneNode | plugins/filesystem-json/json-file-provider.ts:160-177 | A clone is made of new nodes only and holds the subtree of its original |
| JsonFiles.JsonFileStorage.FindChild | plugins/filesystem-json/json-file-provider.ts:120-123 | The child of that name, exactly when the flat map has it |
| JsonFiles.JsonFileStorage.Resolve | plugins/filesystem-json/json-file-provider.ts:125-146 | The node a path names, exactly when the flat map has the path |
| JsonFiles.JsonFileStorage.ReadFile | plugins/filesystem-json/json-file-provider.ts:207-220 | The tree with child lists reads the same flat map |
| JsonFiles.JsonFileStorage.List | plugins/filesystem-json/json-file-provider.ts:179-205 | It lists the same names |
| JsonFiles.JsonFileStorage.WriteFile | plugins/filesystem-json/json-file-provider.ts:222-250 | It writes as the flat map says |
| JsonFiles.JsonFileStorage.Mkdir | plugins/filesystem-json/json-file-provider.ts:292-311 | It makes a directory as the flat map says |
| JsonFiles.JsonFileStorage.MkdirAll | plugins/filesystem-json/json-file-provider.ts:270-291 | It makes the way to a path as the flat map says |
| JsonFiles.JsonFileStorage.Remove | plugins/filesystem-json/json-file-provider.ts:313-332 | It removes as the flat map says |
| JsonFiles.JsonFileStorage.Copy | plugins/filesystem-json/json-file-provider.ts:334-362 | It copies as the flat map says, with no node shared, replacing the child that has the name |
| JsonFiles.JsonFileStorage.Move | plugins/filesystem-json/json-file-provider.ts:364-367 | It moves as the flat map says |
| JsonFiles.JsonFileStorage.Exists | plugins/filesystem-json/json-file-provider.ts:369-372 | True exactly when the flat map has the path |
| ProcessTree.Descendants | src/services/process-tree.ts:133-156 | Terminates on every table, cycles included, and finds exactly the pids reached from the seeds without passing the root, less the root, the server and its process group |
| ProcessTree.AvoidingRootLosesNothing | src/services/process-tree.ts:133-164 | When the root is a seed, ways that avoid it reach all that any way reaches |
| ProcessTree.RootMustBeSeed | src/services/process-tree.ts:133-164 | When it is not, a child of the root may be missed |
| ProcessTree.TreeSeeds | src/services/process-tree.ts:158-164 | The root, its process group and its session |
| ProcessTree.CollectProcessTree | src/services/process-tree.ts:175-181 | Exactly what the shell started, by descent from its root, group, session, marked processes and live extra seeds, less the root, the server and its group |
| ProcessTree.PsLineHasShellId | src/services/process-tree.ts:41-51 | True exactly when the marker stands in the line as a whole token |
| ShellWords.ClosingQuote | packages/abstractions/src/shell-words.ts:4-17 | The index of the quote that closes the one at the start, escapes skipped in double quotes |
| ShellWords.SplitShellWords | packages/abstractions/src/shell-words.ts:23-51 | The words of a text, by the recursive reading of escapes, quotes and blanks |
| ShellWords.QuotedWord | packages/abstractions/src/shell-words.ts:83-88 | A quoted word reads back as itself, whatever precedes and follows it |
| ShellWords.SplitUndoesQuoting | packages/abstractions/src/shell-words.ts:76-88 | Splitting the space-joined quoted words of any list gives that list back |
| ShellWords.QuotingIsInjective | packages/abstractions/src/shell-words.ts:83-88 | No two words are written alike |
| ShellWords.LoneQuotesAreText | packages/abstractions/src/shell-words.ts:19-51 | A quote without a closing one is text |
| ShellWords.BackslashTakesAny | packages/abstractions/src/shell-words.ts:29-33 | Outside quotes a backslash makes the next character part of the word, whatever it is |
| ShellWords.LoneBackslashIsText | packages/abstractions/src/shell-words.ts:29-33 | At the end of the text it is text itself |
| ShellWords.BlanksSeparate | packages/abstractions/src/shell-words.ts:40-44 | Any number of blanks of any kind separates words, and those in front make none |
| ShellWords.DoubleQuotesKeep | packages/abstractions/src/shell-words.ts:34-39 | In double quotes a backslash before an ordinary character stands for itself |
| ShellWords.QuotedOnlyWhenNeeded | packages/abstractions/src/shell-words.ts:76-88 | A word is left as it is if and only if it is not empty, begins with no hyphen and holds nothing a shell reads otherwise |
| McpCommands.BuildCliCommand | src/mcp/providers/commands-provider.ts:65-92 | The path, the positional input, the remaining arguments and the raw command of a tool call |
| McpCommands.InputAndOptions | src/mcp/providers/commands-provider.ts:67-75 | The argument named value becomes the input if and only if the command takes one and it is text; every other argument that is not null, and no other, stays an option |
| McpCommands.OptionsAreNamed | src/mcp/providers/commands-provider.ts:78-84 | What an option means, by the type of its value |
| McpCommands.RawCommandSplitsBack | src/mcp/providers/commands-provider.ts:60-92 | The raw command splits back into its path, its input and its options when path parts and keys hold ordinary characters, whatever the values hold |
| McpCommands.BlankInNameSplits | src/mcp/providers/commands-provider.ts:77-92 | A path part with a blank does not come back as one word |
| CommandTree.CliCommandRegistry.Register | src/services/cli-command-registry.ts:29-32 | A command registered again, in any case, replaces the old one; every other name finds what it found |
| CommandTree.RegisteredInPlace | src/services/cli-command-registry.ts:25-32 | It takes the place of the old one, and every other keeps its own; a new one comes last |
| CommandTree.CliCommandRegistry.FindProcessor | src/services/cli-command-registry.ts:34-61 | The processor a chain leads to, whatever is sent as chain: a string is walked character by character, and one that allows unlisted commands takes the rest |
| CommandTree.ProcessorPermissions | src/auth/cli-server-auth-gate.ts:49-71 | The permissions of the processors a list passes, as far as it names any; of anything else than a list, those of the root alone |
| CommandTree.RequiredServerPermissions | src/auth/cli-server-auth-gate.ts:73-79 | Executing asks for commands:execute and for those |
| CommandTree.ResolvesAlongWay | src/services/cli-command-registry.ts:45-61 | What the executor resolves is the end of a way down the tree from a root, each step named by the request, and takes what is left of the chain only if it allows unlisted commands |
| CommandTree.AlongIsFirst | src/services/cli-command-registry.ts:50-57 | The way goes to the first child of each name, as far as there is one |
| CommandTree.ResolvesExactly | src/services/cli-command-registry.ts:45-61 | A chain gives the end of its way when the way uses it up or the end takes unlisted commands; it is unknown or fails otherwise, and exactly when which |
| CommandTree.GateGuardsWhatRuns | src/auth/cli-server-auth-gate.ts:49-79 | Whenever the executor resolves a request, the gate asks for exactly commands:execute and what the processors from the root to the resolved one require, if and only if the chain is no string or the processors below the root on its characters require nothing |
| CommandTree.StringChainIsNotGuarded | src/auth/cli-server-auth-gate.ts:58-70 | A string sent as chain reaches a child whose permission is not asked for, whatever it is, while the same chain as a list has it asked for |
| CommandTree.CommandsMcpToolProvider.GetTools | src/mcp/providers/commands-provider.ts:108-125 | The tools, in the order of the walk |
| CommandTree.ToolName | src/mcp/providers/commands-provider.ts:15-21 | The lower-case path joined by underscores, character by character, a hyphen in the place of what is no letter, digit, underscore or hyphen, cut at 64 |
| CommandTree.ToolsMatchGateAndExecutor | src/mcp/providers/commands-provider.ts:108-138 | With sibling names that differ, a tool's call runs the processor it was listed for, and the tool requires exactly what the gate would, commands:execute included |
| CommandTree.EveryCommandHasTool | src/mcp/providers/commands-provider.ts:95-124 | Every command that runs by itself, under names that are not empty, has its tool |
| CommandTree.OnlySuchTools | src/mcp/providers/commands-provider.ts:108-124 | No other command has one, and each tool is named by its path |
| CommandTree.ReachableSibling | src/services/cli-command-registry.ts:51-57 | A sibling is reached by its name if and only if no earlier one has that name in some case |
| Permissions.PermissionMatches | plugins/users/permissions.ts:8-16 | Whether a granted permission covers a required one, segment by segment |
| Permissions.GrantsInAnyCase | plugins/users/permissions.ts:8-16 | Case and surrounding blanks make no difference, on either side |
| Permissions.CoversReflexive | plugins/users/permissions.ts:8-16 | Every permission covers itself |
| Permissions.CoversComposes | plugins/users/permissions.ts:8-16 | Covering composes if and only if the outer pattern is at most one segment longer than the final request; so always when that has as many segments as the middle one |
| Permissions.ChainDominates | plugins/users/permissions.ts:8-16 | What a chain of coverings reaches is what the pattern without its trailing wildcards begins |
| Permissions.DominatesChain | plugins/users/permissions.ts:8-16 | And everything that begins so is reached by a chain |
| Permissions.TightIffChainsAddNothing | plugins/users/permissions.ts:1-16 | Chains add nothing to a permission if and only if it does not end in two wildcards after a third segment |
| Permissions.MergePermissions | plugins/users/permissions.ts:23-36 | The trimmed non-blank permissions of all lists, each key where it is first seen |
| Permissions.MergeKeepsPermissions | plugins/users/permissions.ts:18-36 | A merged list grants every non-blank request exactly when the lists did |
| Permissions.ScopeWidens | plugins/users/services/auth-service.ts:577-580 | A scoped token may do what its owner may not if and only if the owner holds everything below it |
| Permissions.TightOwnerIsNeverExceeded | plugins/users/services/auth-service.ts:577-580 | An owner without such permissions is never exceeded by a token |
| Permissions.Uncovered | plugins/users/security.ts:78-80 | Exactly the permissions no permission of the caller covers; empty exactly when all are covered |
| DirectoryService.InMemoryUserStore.GetUser | plugins/users/stores/in-memory-user-store.ts:14-26 | By id first, else by name in any case |
| DirectoryService.InMemoryUserStore.AssertUnique | plugins/users/stores/in-memory-user-store.ts:28-38 | The store's own check, names among names and emails among emails |
| DirectoryService.StoreRefuses | plugins/users/stores/in-memory-user-store.ts:28-38 | It refuses exactly a name or an address another user has, in any case |
| DirectoryService.InMemoryUserStore.CreateUser | plugins/users/stores/in-memory-user-store.ts:40-59 | Stores the user unless the check refuses |
| DirectoryService.InMemoryUserStore.UpdateUser | plugins/users/stores/in-memory-user-store.ts:61-83 | Changes the given fields of one user, unless missing or refused |
| DirectoryService.InMemoryGroupStore.CreateGroup | plugins/users/stores/in-memory-group-store.ts:20-39 | Stores the group under its lower-case name unless taken |
| DirectoryService.InMemoryGroupStore.UpdateGroup | plugins/users/stores/in-memory-group-store.ts:41-55 | Changes the permissions of one group |
| DirectoryService.UniqueInStore | plugins/users/services/directory-service.ts:141-152 | The service's check leaves nothing for the store's to refuse |
| DirectoryService.DirectoryService.ResolveGroups | plugins/users/services/directory-service.ts:130-138 | The stored groups of the names, each once, or the refusal of an unknown one |
| DirectoryService.DirectoryService.AssertUniqueUser | plugins/users/services/directory-service.ts:141-152 | Whether name and email are free in their one namespace, in any case |
| DirectoryService.DirectoryService.GetEffectivePermissions | plugins/users/services/auth-service.ts:448-460 | The merged permissions of the user's groups that exist |
| DirectoryService.DirectoryService.AssertCanActOn | plugins/users/services/directory-service.ts:177-183 | Self, or one whose permissions the caller covers |
| DirectoryService.DirectoryService.CreateUser | plugins/users/services/directory-service.ts:197-236 | Refused or done as the checks say, in their order; the stores' own checks never refuse |
| DirectoryService.DirectoryService.UpdateUser | plugins/users/services/directory-service.ts:238-278 | As the checks say, in their order |
| DirectoryService.DirectoryService.DeleteUser | plugins/users/services/directory-service.ts:303-311 | As the checks say, in their order |
| DirectoryService.DirectoryService.CreateGroup | plugins/users/services/directory-service.ts:337-350 | As the checks say, in their order |
| DirectoryService.DirectoryService.UpdateGroup | plugins/users/services/directory-service.ts:352-367 | As the checks say, in their order |
| DirectoryService.DirectoryService.DeleteGroup | plugins/users/services/directory-service.ts:369-386 | A built-in group is refused; any other goes with its memberships, unless the host keeps the users |
| DirectoryService.DirectoryService.AddMember | plugins/users/services/directory-service.ts:393-402 | As the checks say, in their order |
| DirectoryService.DirectoryService.RemoveMember | plugins/users/services/directory-service.ts:404-413 | As the checks say, in their order |
| UserDirectory.ResolvedGroups | plugins/users/services/directory-service.ts:130-138 | Resolving gives the stored groups of exactly the names asked for |
| UserDirectory.ResolvedOnce | plugins/users/services/directory-service.ts:130-138 | Each of them once |
| UserDirectory.EffectiveGrants | plugins/users/services/auth-service.ts:448-460 | A member may do exactly what some permission listed by one of the groups grants |
| UserDirectory.StepKeepsInv | plugins/users/services/directory-service.ts:141-152 | Every operation keeps names and emails of distinct users apart in one case-insensitive namespace |
| UserDirectory.StepKeepsAdmin | plugins/users/services/directory-service.ts:155-159 | No operation takes the last enabled admin away |
| UserDirectory.StepKeepsGroups | plugins/users/services/directory-service.ts:197-413 | Every operation keeps memberships naming existing groups, unless the host keeps the users |
| UserDirectory.ReadOnlyUsersKeepMemberships | plugins/users/services/directory-service.ts:374-380 | With users the host keeps, a deleted group leaves its memberships behind |
| UserDirectory.DirectoryStaysSound | plugins/users/services/directory-service.ts:130-413 | All three, over every history of operations |
| DirectoryLaws.CreateUserAnswers | plugins/users/services/directory-service.ts:197-219 | When an account is made, and which refusal it meets otherwise |
| DirectoryLaws.CreateUserTakesEffect | plugins/users/services/directory-service.ts:220-230 | The account has exactly the fields asked for and the groups the names stand for, the default one if none; everybody else and every group is as before |
| DirectoryLaws.UpdateUserAnswers | plugins/users/services/directory-service.ts:238-267 | When a change is accepted: valid, known groups, a caller who covers the user and what is added, a free name and address, an admin left; and which refusal it meets otherwise |
| DirectoryLaws.UpdateUserTakesEffect | plugins/users/services/directory-service.ts:269-277 | Each field given has the value asked for, each other one is as before, and so is everybody else |
| DirectoryLaws.DeleteUserAnswers | plugins/users/services/directory-service.ts:303-311 | When a user is deleted, and which refusal the request meets otherwise |
| DirectoryLaws.DeleteUserTakesEffect | plugins/users/services/directory-service.ts:303-311 | The user is gone and nobody else |
| DirectoryLaws.CreateGroupAnswers | plugins/users/services/directory-service.ts:337-345 | When a group is made, and which refusal the request meets otherwise |
| DirectoryLaws.CreateGroupTakesEffect | plugins/users/services/directory-service.ts:346-350 | The group has the name and the permissions asked for; every other group and every user is as before |
| DirectoryLaws.UpdateGroupAnswers | plugins/users/services/directory-service.ts:352-362 | When the permissions of a group change, and which refusal the request meets otherwise |
| DirectoryLaws.UpdateGroupTakesEffect | plugins/users/services/directory-service.ts:363-367 | The group has the permissions asked for; its name, every other group and every user is as before |
| DirectoryLaws.DeleteGroupTakesEffect | plugins/users/services/directory-service.ts:369-386 | A group that is not built in is gone with its memberships, and no other membership or group |
| DirectoryLaws.AddMemberAnswers | plugins/users/services/directory-service.ts:393-400 | When somebody joins a group, and which refusal the request meets otherwise |
| DirectoryLaws.AddMemberTakesEffect | plugins/users/services/directory-service.ts:393-402 | One membership more, unless there already, and nothing else |
| DirectoryLaws.RemoveMemberAnswers | plugins/users/services/directory-service.ts:404-410 | When somebody leaves a group, and which refusal the request meets otherwise |
| DirectoryLaws.RemoveMemberTakesEffect | plugins/users/services/directory-service.ts:404-413 | Exactly that membership is gone, and nothing else |
| DirectoryLaws.UsersAreFound | plugins/users/stores/in-memory-user-store.ts:14-26 | A user is found by id, and by name in any case, and nobody else is |
| DirectoryLaws.ApartInAnyCase | plugins/users/services/directory-service.ts:141-152 | Names and addresses of different users differ whatever their case |
| UserDirectory.NobodyActsAbove | plugins/users/services/directory-service.ts:177-183 | Whoever an operation removes, renames, regroups, enables or disables, other than by the end of a group, is the caller or holds nothing the caller does not cover |
| UserDirectory.OnlyAddressesAndGroupsAbove | plugins/users/services/directory-service.ts:252-258 | Somebody above the caller is changed by a step if and only if it gives them a new valid free email address and nothing else, or ends a group they are in |
| UserDirectory.NoStepAmplifies | plugins/users/services/directory-service.ts:164-175 | No operation gives anyone a permission they did not hold, unless the caller covers it or it comes with the default group of a new account |
| UserDirectory.NoHistoryAmplifies | plugins/users/services/directory-service.ts:164-413 | When callers act with permissions of their own, whatever a user ever holds follows, by covering, from a permission held at the start by the same user, by a caller whose request changed something since, or by the default group |
| UserDirectory.NobodyEverExceedsTheStart | plugins/users/services/directory-service.ts:164-413 | With no permission among theirs that ends in two wildcards, whatever a user may ever do, the user, a caller who changed something, or the default group could from the start |
| UserDirectory.TwoTrailingWildcardsGrow | plugins/users/services/directory-service.ts:352-362 | Below every permission there is one ending in two wildcards that grows: its holder, who also holds the permission the route asks for, comes to hold the permission in front by one accepted update |
| Lockout.AuthLockouts.ReserveAttempt | plugins/users/services/auth-service.ts:356-373 | Whether an attempt is let through, with the entry it is counted on, after dropping an expired one |
| Lockout.AuthLockouts.AttemptFailed | plugins/users/services/auth-service.ts:375-383 | A failure renews the entry and locks it once its attempts are used up |
| Lockout.AuthLockouts.AttemptSucceeded | plugins/users/services/auth-service.ts:385-387 | A success drops the entry |
| Lockout.AuthLockouts.IsKeyLocked | plugins/users/services/auth-service.ts:319-327 | Locked exactly while a lock is set and not over; an expired entry is dropped |
| Lockout.AuthLockouts.SweepLockouts | plugins/users/services/auth-service.ts:339-344 | Drops exactly the expired entries |
| Lockout.AuthLockouts.ClearLockout | plugins/users/services/auth-service.ts:347-349 | Drops the entry of the key |
| Lockout.AttemptsAreLimited | plugins/users/services/auth-service.ts:351-373 | Whatever interleaves, a stretch shorter than the lockout without a success or a clear lets at most maxLoginAttempts attempts through, in-flight ones included |
| Lockout.GrantsAreCounted | plugins/users/services/auth-service.ts:356-387 | Attempts granted since the entry was last dropped are at most its failures, and those at most maxLoginAttempts |
| Lockout.LockHolds | plugins/users/services/auth-service.ts:356-373 | No attempt is let through before lockedUntil, unless a success or a clear lifts the lock |
| Lockout.FailureLocksOut | plugins/users/services/auth-service.ts:375-383 | A failure that uses up the attempts keeps every attempt out and the key locked for the whole lockout, whatever comes in between but a success or a clear |
| Lockout.RefusalsAreRecent | plugins/users/services/auth-service.ts:329-336 | A refusal means the key was tried within the lockout: no key blocks for longer after its last attempt |
| Lockout.RefusalsAreEarned | plugins/users/services/auth-service.ts:368-372 | An attempt is refused only after maxLoginAttempts were counted, let through or failed without an entry, with no success and no clear in between: with fewer the next one is let through |
| Lockout.LocksAreEarned | plugins/users/services/auth-service.ts:375-383 | A lock comes from a failure with maxLoginAttempts counted, and ends the lockout after it |
| Lockout.CrowdIsSwept | plugins/users/services/auth-service.ts:364-367 | A new entry beside a thousand others leaves none of them that has expired, and all that have not |
| Lockout.SweepKeepsAnswers | plugins/users/services/auth-service.ts:338-344 | A sweep changes no answer to a reservation |
| Lockout.SweepAndFailure | plugins/users/services/auth-service.ts:375-383 | It changes what a failure does exactly when that failure comes after its entry expired and the entry counts otherwise |
| RateLimiting.RateLimiter.TryAcquire | plugins/users/security.ts:89-99 | Passes exactly when fewer than max recent attempts are kept, and then keeps this one |
| RateLimiting.RateLimiter.Sweep | plugins/users/security.ts:102-109 | Keeps exactly what is recent |
| RateLimiting.AnswersAsTheLog | plugins/users/security.ts:83-110 | The limiter answers as one that keeps every grant forever and never sweeps |
| RateLimiting.OnlyOwnAttemptsCount | plugins/users/security.ts:83-110 | Two histories in which a key was tried at the same times answer its next attempt alike: no sweep and no other key ever changes an answer |
| RateLimiting.AtMostMaxPerWindow | plugins/users/security.ts:83-99 | Any stretch shorter than the window lets at most max attempts of a key through |
| HashSlots.HashSlots.Arrive | plugins/users/services/password-hasher.ts:12-16 | A call takes a free slot or waits behind everyone who waits |
| HashSlots.HashSlots.End | plugins/users/services/password-hasher.ts:19-26 | A slot goes to the call that waited longest, or is free |
| HashSlots.SlotsAreFair | plugins/users/services/password-hasher.ts:6-27 | In every history active is the number of holders and at most 4, calls wait only while all slots are held, and calls start in the order in which they came |
| HashSlots.StartedHoldUntilEnded | plugins/users/services/password-hasher.ts:6-27 | A slot is held by each call that has started and not ended, and by no other |

## Left out

- JobScheduler.JobRegistration.UpdateOptions: only the limit, the overlap policy and the number of retries are options here; schedule, interval, timeout and retry delays only decide when events come.
- JobScheduler.JobRegistration.TimerFires: a timer is an event that may come at any time; that it fires only while the job is active is what the model keeps of setting and clearing it.
- JobScheduler.JobRegistration.SettleAttempt: whether the job threw, whether its time ran out and when it settles are inputs.
- DirectoryService.DirectoryService.CreateUser: home directory, free-form data and password only add checks that answer 400 and are left out; so are descriptions of groups, audit entries, events and sessions.
- DirectoryService.DirectoryService.UpdateUser: works on the user as stored; operations that interleave at their awaits are not modelled, and a refusal is known by its status, not its text.
- DirectoryService.InMemoryUserStore.GetUser: the order of the map is not modelled; under the invariant at most one user has the name.
- JobStats.Summarize: success rate, average, 95th percentile and maximum of durations are left out, being single formulas over floating point.
- JobStats.JobStatistics: the filter by job ids and by start is part of what the storage lists.
- JobStats.BuildJobStats: jobs are not put in the order of their ids, and the twelve latest runs of each are left out.
- JobStats.CollectRuns: what the storage lists is an input, fixed while it is read.
- LogBuffer.LogRingBuffer.Histogram: the filter by level, text and service is any predicate; redaction of secrets and timestamps that are no dates are left out.
- LogBuffer.LogRingBuffer.Push: the capacity is at least one; entries come with their level in upper case and their secrets redacted, which the source does on the way in.
- InMemoryFiles.InMemoryFileStorage.List: the order of the names, sizes, times and permissions of nodes are left out, here and in the JSON provider.
- JsonFiles.JsonFileStorage.WriteFile: loading the tree from a file and saving it are left out; the tree starts empty, so its nodes are as the provider makes them.
- McpCommands.BuildCliCommand: the entries of the argument object are given in their order; what String() gives for other values is an input.
- CommandTree.CommandsMcpToolProvider.GetTools: descriptions and input schemas of tools are left out, and that two paths may share a tool name.
- ProcessTree.CollectProcessTree: reading /proc or ps is left out; the table and the marked processes are inputs, and the signals sent afterwards are left out.
- CronSchedule.CronTimer.Fire: what a cron expression means is a set of occurrences without end; parsing it is left out, and a timer keeps its expression when it is started again.
- Lower-casing is that of ASCII letters; strings are sequences of characters, not of UTF-16 code units.
- Random identifiers are given, and new; clocks are given, and do not run back where a theorem says so.
- Sessions, tickets, API token storage, password hashing itself and the audit log: maps with an expiry, or cryptography.
- The SQLite file provider and the file, S3 and AWS providers: they rest on the semantics of other systems.
- Express routers, WebSockets, terminals, the data explorer and the dashboard: input and output around the parts modelled.
