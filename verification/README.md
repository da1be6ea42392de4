# Verification of the Mission Control core

This project models the self-contained state machines and text algorithms of `src/lib` and of the provisioner
daemon in Dafny and proves what they keep over all inputs, runs and interleavings. `dafny verify dfyconfig.toml`
checks everything. Nothing here executes the dashboard: HTTP, the database engine, the clock, randomness, the
process environment and child processes are parameters of the operations or choices of a step.

Objects that the program updates in place are classes whose methods are proved against functions on values, loops
over local variables are methods with invariants, and everything the program writes as an expression is a function.
Protocols are runs: a `Step` datatype, the predicate `Possible`, the function `Next`, and `Exec` over an arbitrary
sequence of steps; a step that cannot happen is skipped, so a lemma about `Exec` speaks about every interleaving.

## The models

**Webhooks** (`Webhooks.dfy`). Every stretch between two `await`s is one step: firing an event, a test, a manual
retry, the start of a retry run (pick the due rows, clear their schedule), the end of one HTTP delivery (log it,
count failures, schedule a retry or switch the webhook off, prune to 200 rows), and the administrator's create,
update, reset and delete. Any number of deliveries and retry runs are under way at once. `Database` performs the two
database blocks statement by statement. The ghost log keeps what
pruning removes, with the time of every delivery.

**Scheduler** (`Scheduler.dfy`). `TaskTable` has the two halves of the loop body of `tick`; the system is any number of
ticks, each with its own `now` and its own place in the map. Nothing is assumed about the
clock.

**Provisioning** (`PosixPath.dfy`, `ProvisionPlans.dfy`, `ProvisionEffects.dfy`, `ProvisionRunner.dfy`,
`ProvisionJobs.dfy`). The allowlist is characterized by the commands and argument forms that it lets through, and the
plan builders are compared with it over all slugs, user names, options and environments; the answer is an exact
condition on the environment. One finding: an owner argument may carry anything after a second colon. With the usual
meaning of the commands the plans are also compared with what they are for: what a bootstrap leaves on the machine,
what a decommission takes back, and that no other tenant is touched. Jobs are a status machine that callers drive
concurrently, with execution split at every awaited command; each execution remembers what its steps met.

**Rate limiter** (`RateLimit.dfy`). `RateLimiter` has `Check` and `Sweep`; runs are requests and sweeps at
non-decreasing times. The bound for one closed interval of the window's length is `2 * maxRequests - 1`, and it is
reached; and a request is turned away only after a full allowance within the window's length before it. A limit below 1 still lets the first request of a window through, which is why the bound uses `PerWindow`.

**Relaxed JSON** (`JsonRelaxed.dfy`). Both character scanners, a tokenizer for strict JSON, and texts built from tokens,
white space and comments. The scanners look only at the character before a quote, so a string that ends in an
escaped backslash is left too late; `StringDomainIsExact` shows that this is the only string shape that fails.

**CSV and base64url** (`CsvExport.dfy`, `Base64Url.dfy`). Printer and parser of section 2 of RFC 4180, encoder and decoder
of sections 4 and 5 of RFC 4648. A table with a last row of one empty cell prints like a table without that row, so
the general round trip has an exact condition, which the nine-column export always meets.

**Cron** (`Calendar.dfy`, `CronSyntax.dfy`, `CronNotation.dfy`, `Cron.dfy`). The parser for any `Number()`, the expansion
loop on a clock with a fixed offset, and crontabs as structured values that are printed, parsed and given a meaning.
Days of the week are stated by Sakamoto's formula over the date, days by the closed day number of the calendar.
Ranges that lie beyond a limit are moved onto it (hour `24-30` reads as 23), so `ElementReadsExactly` has a
condition. The code requires the month in every case; the crontab page of POSIX.1-2017 (section INPUT FILES) does
not when a month and a day of the week are both given, and `PosixDayRule` says exactly when the two agree.

**Nested search, agent configuration, task costs, Conductor** (`NestedSearch.dfy`, `AgentConfig.dfy`, `TaskCosts.dfy`,
`ConductorSync.dfy`). Breadth-first search against a definition by paths; deep merge against a definition by paths; the
cost report against the list of its records, entry by entry and in its sums; the upsert loop under repetition and row
by row against the listed tasks.

`Wrappers.dfy` and `Text.dfy` hold `Option`, `Result` and the string operations that several models share.

## Model

| member | source | states |
|---|---|---|
| Webhooks.Database.LogDelivery | src/lib/webhooks.ts:230-293 | Ending a delivery inserts its row, resets or increments the failure counter, schedules a retry or trips the breaker, and prunes that webhook's rows, as the function `Logged` says of the whole database; if the webhook was deleted meanwhile nothing changes. `FinishKeepsNewest`, `CounterIsFailureRun`, `NoRetryLostUnlessPruned` and `TripsExactlyAfterRun` say what this means |
| Webhooks.FinishKeepsNewest | src/lib/webhooks.ts:284-290 | After a delivery rows of other webhooks are untouched; of its own webhook a row survives if and only if the query returned it, none is older than a removed one, there are 200 at most, and below 200 nothing disappears |
| Webhooks.OnlyOutnumberedRowsAreGone | src/lib/webhooks.ts:284-290 | In every run a webhook has at most 200 rows, and a recorded delivery of a webhook that was never deleted is missing only while 200 rows no older than it are there |
| Webhooks.RetriesComeUnlessOutnumbered | src/lib/webhooks.ts:268-290 | In every run a failed delivery with an attempt to spare waits for its retry, has it recorded or under way, or was displaced by 200 rows no older than it |
| Webhooks.Database.PickRetries | src/lib/webhooks.ts:308-332 | Exactly the picked rows lose their schedule, all other rows stay, and each picked row becomes a delivery with the next attempt number and the row as its parent |
| Webhooks.RetryRunTakesWhatIsDue | src/lib/webhooks.ts:308-362 | A retry run takes scheduled rows of enabled webhooks whose time has come, 50 at most, and leaves one behind only after 50; only their schedule changes, and each becomes the next attempt |
| Webhooks.NewestExists | src/lib/webhooks.ts:284-290 | The pruning query always has an answer: at most 200 rows of the webhook, none older than a deleted one, fewer only if there are no more |
| Webhooks.NextRetryDelay | src/lib/webhooks.ts:51-55 | The delay stays within 20 percent of the scheduled delay, up to rounding |
| Webhooks.JitterFollowsRandom | src/lib/webhooks.ts:32-55 | The delay grows with the random number, from four fifths of 30, 300, 1800, 7200 or 28800 seconds at 0 through that delay at one half |
| Webhooks.BackoffGrows | src/lib/webhooks.ts:32-55 | Whatever the jitter, a later attempt waits strictly longer until the schedule is used up |
| Webhooks.RetriesWaitForBackoff | src/lib/webhooks.ts:268-332 | In every run a retry run picks a delivery no earlier than its backoff, less the jitter, after the delivery |
| Webhooks.RetriesFormChains | src/lib/webhooks.ts:259-282 | In every interleaving each recorded delivery has at most one automatic retry, made after its failure, for the same webhook, with the next attempt below MAX_RETRIES; first deliveries have attempt 0 |
| Webhooks.RetriesAreBounded | src/lib/webhooks.ts:302-362 | Automatic deliveries are at most MAX_RETRIES times the first deliveries |
| Webhooks.RetryBoundIsReached | src/lib/webhooks.ts:259-362 | For every MAX_RETRIES some run has one first delivery, MAX_RETRIES deliveries in all, and the webhook switched off at the end |
| Webhooks.NoRetryLostUnlessPruned | src/lib/webhooks.ts:268-272 | A row that still exists has a scheduled retry exactly when it failed with an attempt to spare and no retry of it is recorded or under way |
| Webhooks.CounterIsFailureRun | src/lib/webhooks.ts:259-266 | In every run `consecutive_failures` is the length of the webhook's current run of failed retryable deliveries since the last success or reset |
| Webhooks.TripsExactlyAfterRun | src/lib/webhooks.ts:273-279 | Ending a delivery leaves an enabled webhook disabled if and only if it was that webhook's retryable delivery, failed, on its last attempt, with a failure run of at least MAX_RETRIES |
| Webhooks.ExhaustedChainSwitchesOff | src/lib/webhooks.ts:264-281 | A chain that fails on every attempt with no success or reset since its first attempt leaves the webhook disabled |
| Webhooks.ManualDeliveriesDoNotCount | src/lib/webhooks.ts:165-171 | Test deliveries and manual retries are recorded, with attempt 0 or the next one, but schedule nothing and change no counter and no switch |
| Webhooks.ResetStartsAnew | src/app/api/webhooks/route.ts:128-132 | A new webhook and one whose circuit was reset are on and have no failures behind them |
| Scheduler.TaskTable.Walk | src/lib/scheduler.ts:311-324 | From one await to the next a tick changes nothing but the first task that is due and enabled, which becomes running |
| Scheduler.TaskTable.FinishRun | src/lib/scheduler.ts:332-339 | The end of a run, good or thrown, sets result, last run and next due time of that task only |
| Scheduler.OneTickPerTask | src/lib/scheduler.ts:308-341 | Over all interleavings of overlapping ticks a task is marked running exactly while one tick awaits it, and no two ticks await the same task |
| Scheduler.RunsAreSpaced | src/lib/scheduler.ts:308-341 | The `now` stamps of any two runs of a task lie at least its interval apart, stale ticks included |
| Scheduler.NextRunIncreases | src/lib/scheduler.ts:335-339 | `nextRun` changes only when a run of the task ends, and then grows by at least the interval |
| Scheduler.StatusIsOfLastRun | src/lib/scheduler.ts:331-339 | The shown result is outcome, message and stamp of the latest finished run, which also fixed the next due time; without a finished run there is none |
| Scheduler.RunRateIsBounded | src/lib/scheduler.ts:308-341 | `n` runs of a task take at least `n - 1` of its intervals, in any stretch of time |
| Scheduler.WalkBeginsFirstDue | src/lib/scheduler.ts:311-324 | A tick begins the first task in front of it that is not running, due and enabled, changes no other, and is done only if there is none |
| PosixPath.NormalizeAppend | src/lib/super-admin.ts:48-51 | Joining a plain component to a path of any spelling adds that component, with the root and the working directory as the special cases |
| PosixPath.ResolveUp | src/lib/super-admin.ts:48-51 | Going into a component and up again leads back, and there is nothing above the root |
| ProvisionPlans.HomePaths | src/lib/super-admin.ts:391-394 | Where a user's home and the directories in it are, for every spelling of the home root |
| ProvisionPlans.HomeTargetMatches | ops/mc-provisioner-daemon.js:41-151 | Below an ordinary home root a path in a user's home matches the allowlist pattern built from the root |
| ProvisionPlans.HomeTargetFails | ops/mc-provisioner-daemon.js:41-151 | With "/" or "." as the home root no such path matches |
| ProvisionPlans.AllowlistIsExact | ops/mc-provisioner-daemon.js:41-151 | For every environment, command and arguments: the daemon lets the command through if and only if its last path component is one of the eight commands and the arguments are one of the listed forms, for some safe user and slug-like name |
| ProvisionPlans.NamePatterns | ops/mc-provisioner-daemon.js:27-29 | The patterns for users and slugs, by their lengths and the characters that they list |
| ProvisionPlans.BootstrapStepAgreement | src/lib/super-admin.ts:80-166 | For each single step of a bootstrap plan the exact condition under which the daemon accepts it |
| ProvisionPlans.BootstrapAgreement | src/lib/super-admin.ts:80-166 | The daemon accepts every step of the bootstrap plan of an accepted tenant if and only if the home root names a directory below "/" or the working directory and the configuration template is neither of the two gateway files |
| ProvisionPlans.DecommissionAgreement | src/lib/super-admin.ts:168-227 | The daemon accepts every step of a decommission plan, for all options, if and only if the home root is such a directory whenever state directories are removed without the user |
| ProvisionEffects.BootstrapBuilds | src/lib/super-admin.ts:80-166 | Running a bootstrap plan leaves the account, the enabled unit, the two directories of mode 0750 that the user owns, the environment file, and a configuration and unit file unless they were there before; nothing else changes but ownership below the home |
| ProvisionEffects.DecommissionWithdraws | src/lib/super-admin.ts:168-227 | A decommission after a bootstrap takes back unit and environment file, and as asked the account or the two directories with their contents; files elsewhere are those from before, but for the shared unit file |
| ProvisionEffects.TenantsAreIsolated | src/lib/super-admin.ts:80-227 | Neither plan touches another tenant's account, unit, environment file or home, unless the tenant's own home is the directory of the environment files |
| ProvisionPlans.DefaultUserFits | src/lib/super-admin.ts:365-378 | The default user name passes the user pattern exactly for slugs of at most 28 characters, although slugs may have 32 |
| ProvisionRunner.RunWithRetry | ops/mc-provisioner-daemon.js:189-210 | The result is that of the attempt that counts: the sixth for `useradd` and the first for every other command, unless an earlier one succeeded or failed without finding the password file locked |
| ProvisionRunner.StepsSucceedExactly | src/lib/command.ts:52-65 | A step succeeds if and only if it has a command and, as root through the daemon, is connected, allowlisted and a dry run or ended with code 0 in time, or else is a dry run or ended with code 0; then its code is 0, and it is skipped exactly in a dry run |
| ProvisionRunner.StopIsUnique | ops/mc-provisioner-daemon.js:189-210 | Only one attempt is the one that counts |
| ProvisionJobs.JobTable.TransitionProvisionJobStatus | src/lib/super-admin.ts:553-651 | A permitted action changes exactly that job; a forbidden one reports its error and changes nothing |
| ProvisionJobs.PermittedActions | src/lib/super-admin.ts:566-624 | An action is permitted if and only if the job is not running, completed or cancelled and the action changes its status |
| ProvisionJobs.JobTable.StartExecution | src/lib/super-admin.ts:695-741 | A start either reports the first failing check and changes nothing, or makes exactly that job running |
| ProvisionJobs.StartsExactly | src/lib/super-admin.ts:701-735 | A start passes the checks if and only if the job is approved, plan, mode and artifacts are in order, and a live job has an approver who is neither requester nor runner |
| ProvisionJobs.JobTable.FinishExecution | src/lib/super-admin.ts:807-859 | The end of an execution stores outcome and step results in exactly that job |
| ProvisionJobs.RunPlan | src/lib/super-admin.ts:759-805 | The results list the plan's steps in order up to the first that does not succeed, and the whole plan if there is none |
| ProvisionJobs.TwoPersonRule | src/lib/super-admin.ts:701-741 | In every run each start is preceded by a latest approval of that job which, for a live job, is by somebody other than requester and runner |
| ProvisionJobs.StartsNeedFreshApproval | src/lib/super-admin.ts:701-741 | Between two starts of a job lies the approval of the second |
| ProvisionJobs.OneExecutionPerJob | src/lib/super-admin.ts:695-741 | A job is running exactly while one execution of it is in progress, and there are never two |
| ProvisionJobs.RunningEndsByItself | src/lib/super-admin.ts:807-859 | A running job changes only by the last step of its own execution, to completed or failed |
| ProvisionJobs.CompletedAndCancelledAreFinal | src/lib/super-admin.ts:566-568 | A completed or cancelled job never changes again |
| ProvisionJobs.ResultsListThePlan | src/lib/super-admin.ts:759-859 | A completed job lists its whole plan in order, all ok; a failed one a strict prefix, all ok |
| ProvisionJobs.ListedStepsSucceeded | src/lib/super-admin.ts:761-859 | In every run the results of a completed or failed job are those of one of its executions, and each listed step succeeded in what it met; in a live job that was a process that ended with exit code 0 |
| ProvisionJobs.StepDecides | src/lib/super-admin.ts:774-859 | A step that succeeds adds its result and completes the job if it was the last; one that does not fails the job with the results so far |
| RateLimit.RateLimiter.Check | src/lib/rate-limit.ts:54-75 | One request changes the client's own entry only, and is admitted as the fixed window says; a disabled limiter that is not critical changes nothing |
| RateLimit.RateLimiter.Sweep | src/lib/rate-limit.ts:45-50 | Removes exactly the entries whose window has passed |
| RateLimit.SweepIsInvisible | src/lib/rate-limit.ts:41-75 | Sweeps at any times change no decision |
| RateLimit.ClientsAreIndependent | src/lib/rate-limit.ts:54-75 | The decisions about a client are those of a run with that client's requests alone |
| RateLimit.AdmissionsAreBounded | src/lib/rate-limit.ts:54-75 | In any closed interval of length windowMs at most 2 * maxRequests - 1 requests of a client are admitted |
| RateLimit.RejectedOnlyWhenUsedUp | src/lib/rate-limit.ts:54-75 | In every run a request is rejected only if maxRequests requests of its client, or 1 if the limit is lower, were admitted within windowMs before it |
| RateLimit.BoundIsReached | src/lib/rate-limit.ts:54-75 | For every limit and window some run reaches that number |
| JsonRelaxed.StripJsonComments | src/lib/json-relaxed.ts:15-74 | The flag-driven loop outputs what the comment scanner, as a function of mode and previous character, outputs |
| JsonRelaxed.RemoveTrailingCommas | src/lib/json-relaxed.ts:76-112 | The same for the comma scanner |
| JsonRelaxed.ScanForCloser | src/lib/json-relaxed.ts:101-105 | The look-ahead finds out whether the next character that is not white space is a closing bracket |
| JsonRelaxed.StripRemovesComments | src/lib/json-relaxed.ts:15-74 | On text in the scanners' domain exactly the comments disappear; a line comment keeps its line break |
| JsonRelaxed.NormalizeRemovesCommentsAndCommas | src/lib/json-relaxed.ts:9-10 | Both scanners together remove exactly the comments and the commas before closing brackets |
| JsonRelaxed.NormalizeYieldsTokens | src/lib/json-relaxed.ts:1-13 | Any token sequence decorated with white space, comments and at most one trailing comma before each closing bracket yields, when tokenized strictly after both scanners, exactly the undecorated tokens |
| JsonRelaxed.StringDomainIsExact | src/lib/json-relaxed.ts:43-49 | A string is handled correctly in front of every continuation if and only if it does not end in an escaped backslash |
| JsonRelaxed.LexReadsTokens | src/lib/json-relaxed.ts:5-13 | The strict tokenizer reads the tokens of a text without comments and refuses every text with one |
| JsonRelaxed.NormalizeKeepsStrictText | src/lib/json-relaxed.ts:15-112 | Text without comments and trailing commas is not changed |
| JsonRelaxed.ParseIgnoresDecoration | src/lib/json-relaxed.ts:5-13 | For every strict grammar without trailing commas, parsing decorated text gives what the grammar gives for the undecorated tokens |
| CsvExport.FieldRoundTrip | src/lib/data-room.ts:597-602 | A printed cell reads back as its text and leaves the rest of the input untouched |
| CsvExport.OnlySpecialCellsAreQuoted | src/lib/data-room.ts:598-601 | A cell is printed as it is if and only if it has no comma, quote or line break |
| CsvExport.RecordRoundTrip | src/lib/data-room.ts:596-603 | So does a printed row |
| CsvExport.TableRoundTrip | src/lib/data-room.ts:596-603 | A printed table of any width reads back as itself if and only if it does not end in a row of one empty cell |
| CsvExport.ExportRoundTrip | src/lib/data-room.ts:590-603 | The export reads back as the headers and the cells of all events, for arbitrary cell texts |
| CsvExport.ExportColumns | src/lib/data-room.ts:590-594 | In the table that is read back the column under each of the nine headers holds that property of every event, in order |
| Base64Url.ToBase64Url | src/lib/device-identity.ts:31-38 | The helper computes the url-safe encoding without padding |
| Base64Url.FromBase64Url | src/lib/device-identity.ts:40-49 | The helper fills a new array with the decoded bytes of the padded text, and fails exactly when that is no encoding |
| Base64Url.GroupIsBigEndian | src/lib/device-identity.ts:37-37 | The characters of a group are the sextets of its 24 bits, as section 4 of RFC 4648 defines them |
| Base64Url.AlphabetIsTable1 | src/lib/device-identity.ts:37-37 | The characters of the encoding are those of table 1 of RFC 4648 in its order |
| Base64Url.DecodeEncode | src/lib/device-identity.ts:31-49 | Decoding an encoding gives back the bytes |
| Base64Url.PaddedEncodeUrl | src/lib/device-identity.ts:40-43 | Restoring alphabet and padding of the url-safe text gives back the plain encoding |
| Base64Url.UrlRoundTrip | src/lib/device-identity.ts:31-49 | Every byte sequence survives both helpers; the text has only characters of the url-safe alphabet and the least possible length |
| Base64Url.RoundTrip | src/lib/device-identity.ts:31-49 | Calling the two helpers one after the other returns the same bytes |
| NestedSearch.FindNestedString | src/lib/provider-subscriptions.ts:49-71 | The queue loop terminates on every tree and returns what a search level by level returns |
| NestedSearch.ScanFields | src/lib/provider-subscriptions.ts:61-67 | One object is scanned to its first match, or all its nested containers are appended to the queue in order |
| NestedSearch.FindsShallowestHit | src/lib/provider-subscriptions.ts:49-71 | Nothing is found if and only if no path through arrays and objects leads to an object with a match; otherwise the value is that of an object of minimal depth |
| NestedSearch.FieldHitIsFirstOffer | src/lib/provider-subscriptions.ts:61-65 | An object has a match if and only if a field with a wanted lowered name has a string that is not blank, and then it is the trimmed string of the first such field |
| AgentConfig.DeepMerge | src/lib/agent-sync.ts:367-384 | The loop over the keys of the source computes the merge |
| AgentConfig.MergeIsLastWriteWins | src/lib/agent-sync.ts:366-384 | A leaf, or an object, is at a path of the result if and only if the source has it there, or the target has it and the source overrides nothing on the way |
| AgentConfig.PathsDetermineObject | src/lib/agent-sync.ts:366-384 | Leaves and objects at paths determine an object, so the previous row determines the merge |
| AgentConfig.MergeIsIdempotent | src/lib/agent-sync.ts:367-384 | Merging the same source again changes nothing |
| AgentConfig.AgentList.WriteAgent | src/lib/agent-sync.ts:354-361 | The first entry with the agent's id is merged in place, or the agent is appended |
| AgentConfig.WriteKeepsOthers | src/lib/agent-sync.ts:354-361 | At most one entry changes, none moves or disappears, and the agent is appended exactly when no entry has the id |
| AgentConfig.WriteIsIdempotent | src/lib/agent-sync.ts:354-361 | Writing the same agent twice equals writing it once if and only if its id is equal to itself under `===`, that is, no object or array |
| TaskCosts.CalculateStats | src/lib/task-costs.ts:68-90 | Totals and number of the records; the average cost times the number is the cost, the average tokens are the nearest integer |
| TaskCosts.TotalIsAdditive | src/lib/task-costs.ts:79-81 | The totals of two lists put together add up |
| TaskCosts.GroupBy | src/lib/task-costs.ts:92-97 | Each group is the subsequence of the records with its key, in order, and there is a group exactly for each key that occurs |
| TaskCosts.GroupByModel | src/lib/task-costs.ts:92-104 | One entry per model that occurs, with the statistics of its records |
| TaskCosts.BuildTimeline | src/lib/task-costs.ts:106-121 | Strictly increasing days, one for each day that occurs, each with the sums of its records |
| TaskCosts.AgentTaskIds | src/lib/task-costs.ts:171-179 | The ids collected for an agent are exactly the tasks with a record of that agent |
| TaskCosts.BuildTaskCostReport | src/lib/task-costs.ts:128-221 | The report as a whole: tasks by falling cost and then by id, agents and projects with their statistics and sorted distinct task ids, summary and unattributed records |
| TaskCosts.TasksAreOfTheirRecords | src/lib/task-costs.ts:132-160 | Statistics, models and days of a task are those of the records that name it, of these with the model, and of these on the day, and every record is on a listed day |
| TaskCosts.TasksListed | src/lib/task-costs.ts:132-140 | There is an entry exactly for each task with metadata and a record |
| TaskCosts.TasksSorted | src/lib/task-costs.ts:140-161 | Tasks are listed by falling cost and, where costs are equal, by their ids |
| TaskCosts.EntriesAreOfTheirRecords | src/lib/task-costs.ts:163-212 | An agent's entry is that of its records of known tasks, a project's that of the records of its tasks, with id 0 and none as unscoped, and their task ids are exactly those in these records |
| TaskCosts.SummaryIsOfKnownRecords | src/lib/task-costs.ts:214-220 | The summary is that of the records of known tasks, the unattributed part that of the records without a task |
| TaskCosts.TasksConserve | src/lib/task-costs.ts:140-161 | The tasks add up to the summary in tokens, cost and requests |
| TaskCosts.AgentsConserve | src/lib/task-costs.ts:163-189 | The agents, in any order, add up to the summary |
| TaskCosts.ProjectsConserve | src/lib/task-costs.ts:191-212 | The projects, in any order, add up to the summary |
| TaskCosts.BreakdownsConserve | src/lib/task-costs.ts:156-158 | The models and the days of a task each add up to the task's own totals |
| TaskCosts.RecordsSplit | src/lib/task-costs.ts:128-138 | As multisets, the records are those reported under a task, those without a task and those of unknown tasks |
| TaskCosts.EveryRecordAccounted | src/lib/task-costs.ts:214-220 | Summary, unattributed statistics and the records of unknown tasks add up to all records |
| ConductorSync.TaskTable.SyncTasks | src/lib/conductor-sync.ts:243-341 | The loop leaves the table that one upsert after the other leaves, and returns the matching counts |
| ConductorSync.RunFrame | src/lib/conductor-sync.ts:243-341 | A row whose id is not listed keeps its place and its contents |
| ConductorSync.RunResult | src/lib/conductor-sync.ts:286-332 | Every listed task has its row afterwards: the old row updated in place, or a new row that lacks outcome and completion time |
| ConductorSync.RunTellsTasks | src/lib/conductor-sync.ts:245-332 | After one run the row of every listed task tells its status, priority, session, tags, time and metadata, by the two maps of the source; a new row has the project of its company and no outcome, an old one keeps its project and has the outcome |
| ConductorSync.RunKeepsOneRowPerId | src/lib/conductor-sync.ts:286-332 | A table with at most one row per id keeps that |
| ConductorSync.RunCounts | src/lib/conductor-sync.ts:286-332 | Created and updated add up to the list length, and the table grows by the created rows |
| ConductorSync.RunCreatesTheMissing | src/lib/conductor-sync.ts:286-332 | For distinct ids exactly the missing tasks are created |
| ConductorSync.SecondRunReportsNothing | src/lib/conductor-sync.ts:286-310 | The second identical run creates nothing and reports no status change |
| ConductorSync.SecondRunChangesNothing | src/lib/conductor-sync.ts:226-241 | The second run changes no row if and only if the first inserted no merged or cancelled task |
| ConductorSync.SecondRunCompletesOutcomes | src/lib/conductor-sync.ts:245-298 | After the second run the row of every listed task also tells its outcome, success for merged and abandoned for cancelled, and its completion time |
| ConductorSync.ThirdRunChangesNothing | src/lib/conductor-sync.ts:226-241 | From the third run on no row changes |
| CronSyntax.ParseToken | src/lib/cron-occurrences.ts:25-71 | The values of a field are exactly those that one of its parts contributes, and a field counts as unrestricted exactly if it is an asterisk |
| CronSyntax.AddPart | src/lib/cron-occurrences.ts:33-59 | One part adds the members of its clamped progression, its single value, or nothing if it is blank, has no positive step or is no number |
| CronSyntax.AnyToken | src/lib/cron-occurrences.ts:28-31 | The special case for an asterisk has the values that the general case would give |
| CronSyntax.ZoneIsDropped | src/lib/cron-occurrences.ts:19-23 | Of an expression that ends in blanks and a parenthesized zone the longest body in one line before such an end remains, and otherwise the whole, without blanks around it |
| CronNotation.ElementReadsExactly | src/lib/cron-occurrences.ts:46-55 | An element is read as what it means in a crontab if and only if its range does not lie beyond a limit and keeps step with the lower limit |
| CronNotation.FieldReadsAsMeant | src/lib/cron-occurrences.ts:33-60 | A written list of fitting elements has exactly the values that they mean |
| CronNotation.EmptyPieces | src/lib/cron-occurrences.ts:33-39 | An empty part contributes nothing, and an empty step counts as 1 |
| CronNotation.ScheduleWords | src/lib/cron-occurrences.ts:19-23 | A written schedule splits into its five fields, with or without a time zone in parentheses behind it |
| Cron.ParseCron | src/lib/cron-occurrences.ts:73-85 | There is a result exactly for five fields, each with the values of its own range |
| Cron.MatchesDay | src/lib/cron-occurrences.ts:87-95 | The decision from the parsed sets is the day rule over the written fields |
| Cron.GetCronOccurrences | src/lib/cron-occurrences.ts:104-139 | The result is the strictly increasing list of the first `max` due minutes of [start, end), none missing and none else, with their local dates; malformed schedules, empty ranges and a maximum below 1 give the empty list |
| Cron.ListsAreUnique | src/lib/cron-occurrences.ts:104-139 | Only one list meets that description |
| Cron.SmallerMaximum | src/lib/cron-occurrences.ts:123-123 | A smaller maximum gives a prefix of the list |
| Cron.RangesConcatenate | src/lib/cron-occurrences.ts:104-139 | Cutting a range in two and appending the lists gives the list of the whole range, up to the maximum |
| Calendar.DayNumberOfCivil | src/lib/cron-occurrences.ts:97-102 | The local date of a day, counted day by day, agrees with the closed formula of the Gregorian calendar |
| Calendar.WeekdayOfCivil | src/lib/cron-occurrences.ts:89-89 | The day of the week of every day is the one that Sakamoto's formula gives for its date |
| Calendar.DateOfDayNumber | src/lib/cron-occurrences.ts:97-102 | Every date is the date of the day with its number |
| Cron.DayKeyReads | src/lib/cron-occurrences.ts:97-102 | Every day key reads back as its date |
| Cron.DayKeysDetermineDays | src/lib/cron-occurrences.ts:97-102 | Two occurrences have the same day key only if they are on the same local day |
| Cron.PosixDayRule | src/lib/cron-occurrences.ts:87-95 | The dates are those of the POSIX.1-2017 rule if and only if month or day of the week is unrestricted, or they restrict nothing or leave nothing over |
| Cron.WrittenCrontabIsDue | src/lib/cron-occurrences.ts:73-131 | For every date, hour, minute and millisecond of local time: a written crontab whose ranges fit is due at that instant if and only if it is a full minute that the crontab means, with the day of the week by formula; the day key is that of the date |

## Left out

- User interface, stores, panels, browser events and web sockets: mostly one-line state updates.
- SQL text, migrations, transactions and file access: tables are maps and sequences, and database calls succeed, except that logging a delivery of a deleted webhook fails as its foreign key demands.
- HTTP, signatures and other cryptography: a delivery succeeds or fails by choice of the step.
- Strings are sequences of characters and not of UTF-16 code units; lone surrogates are not distinguished.
- Keys such as `__proto__` that JavaScript objects treat specially, and the order of keys in objects where no result depends on it.
- Floating point: costs, averages, jitter and cron steps are exact.
- Webhooks.Database.LogDelivery: does not model workspace ids, `last_fired_at`, `last_status`, response bodies and the row ids of the database; a row is numbered by its place in the log.
- Webhooks.NoRetryLostUnlessPruned: speaks of rows that still exist; `RetriesComeUnlessOutnumbered` adds those that pruning to 200 deleted together with their scheduled retry.
- Scheduler: `triggerTask`, which bypasses the `running` flag, stopping and initializing again, and the tasks' own work.
- Scheduler.TaskTable.Walk: the settings are a set of enabled task ids that may differ at every step.
- ProvisionPlans.BootstrapAgreement: assumes that both processes read the same roots, template path and data directory, and leaves out titles, time-outs and the ports of a tenant.
- ProvisionPlans.DecommissionAgreement: assumes that the workspace directory name is a single plain path component.
- ProvisionEffects.BootstrapBuilds: commands have their usual meaning and succeed; the home that `useradd` and `userdel` themselves make and remove is left out.
- ProvisionEffects.TenantsAreIsolated: assumes that the tenant's home is not "/etc/openclaw-tenants" itself, where a workspace directory could be named like an environment file.
- ProvisionJobs.JobTable.TransitionProvisionJobStatus: error texts are shortened, and events and the audit log are left out.
- ProvisionJobs.JobTable.FinishExecution: the tenant's status is left out; with several jobs of one tenant at once it has no useful invariant.
- ProvisionRunner.RunWithRetry: output texts are reduced to whether they report a locked password file.
- RateLimit.RateLimiter.Check: `extractClientIp` is left out, and the client is a parameter.
- JsonRelaxed.ParseIgnoresDecoration: the grammar of JSON beyond its tokens is a parameter; numbers and names are not checked.
- Trailing commas in text with several commas in a row: `[1,,]` becomes `[1,]`, so removal is not idempotent there.
- CsvExport.ExportRoundTrip: numbers are given by their text; the query and its order are left out.
- Base64Url.FromBase64Url: the white space that `atob` skips is refused.
- NestedSearch.FindNestedString: `toLowerCase` is a parameter, so the result holds for every lowering function; the detection around the search is left out.
- AgentConfig.AgentList.WriteAgent: reading and writing the configuration file, and creating the missing `agents.list`, are left out.
- AgentConfig.DeepMerge: the order of keys in the merged object.
- TaskCosts.BuildTaskCostReport: task ids are integers, whose ascending order is the order of ties for ids that are not negative; `formatTicketRef` and the metadata fields that are only copied are left out, and a date is its day number.
- ConductorSync.TaskTable.SyncTasks: the title is given, JSON columns are compared by the values in them, and the activity log and broadcasts are left out.
- The other parts of the Conductor synchronization: companies, agents, completed tasks and the cache of file times.
- CronSyntax.ParseToken: `Number()` is a parameter; in floating point a step that is too small would not advance at all.
- Cron.GetCronOccurrences: the clock has a fixed offset, so daylight saving and historical zones are left out, as are range bounds that are not whole milliseconds.
- Calendar.Civil: the calendar belongs to JavaScript's Date; the bounds of what Date can represent are not modelled.
- Normalizers, subscription detection, agent enrichment and the remaining functions of the cited files: they would add easy members only.
