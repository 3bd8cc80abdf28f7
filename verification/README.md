# A verified model of LocalOps

LocalOps keeps small mutable records (task rows, watcher rows, a set of alerted tasks, the counters of
a shell loop) beside append-only event logs, and decides from the records when to alert. This project
models those records, the calls that change them and the steps between which calls can interleave, and
proves how the records relate to the whole history of a run.

`dafny verify dfyconfig.toml` checks everything.

| file | part of LocalOps |
|---|---|
| `Text.dfy`, `Timestamps.dfy`, `Durations.dfy` | decimal text, the byte order of text columns, RFC3339Nano times (section 5.6 of RFC 3339), 64-bit durations |
| `Tasks.dfy`, `TaskRuns.dfy` | the task store; its runs, with the read and the write of Update as separate steps |
| `Monitor.dfy`, `MonitorRuns.dfy` | the stuck-task sweep; its runs next to store calls and the clock |
| `Handle.dfy` | the SDK handle over a lossy network; its runs next to other traffic |
| `Watchers.dfy`, `WatcherRuns.dfy`, `WatcherAlerts.dfy`, `WatcherSerial.dfy` | watcher store and service; interleaved runs; the alerts of such runs; runs served one call at a time |
| `Scheduler.dfy` | schedules, due by text comparison; their runs |
| `PingWatch.dfy` | the debounce loop of `ping-watch.sh` |
| `EnvFile.dfy`, `JsonEscape.dfy` | the `.env` loader and the shell's JSON escaping |

How to read it. Tables are maps and sequences, and each transaction is one atomic step. What the code
takes from outside is a parameter: the clock, new ids, whether a transaction commits, whether a request
or its answer is lost, the order in which a query returns its rows. Each store, monitor, handle, service
and runner is a class that is updated in place; the contract of each method equates the new state with a
function of the old one (`CreateEffect`, `CheckInEffect`, `NewAlerts` and so on), and the run modules are
built from the same functions, so the lemmas about runs are about the methods. Instants of tasks, sweeps
and handles are integers of nanoseconds; `TextRoundTrip` is why their text columns may be left out there.
Instants of watchers and schedules are calendar fields, because there the text itself matters.

Where the code does less than its documentation says, the model follows the code:

- Finished tasks can change again (`internal/tasks/model.go:39-48` says otherwise): `TerminalStatusLeft`
  says exactly when, and `LostFinish` shows a finish that a concurrent update undoes.
- A remote cancel or stop is never delivered to a worker's context (`README.md:123`, `docs/DESIGN.md:304`):
  `RemoteCancelNotDelivered`.
- A heartbeat does not by itself reset the stuck alert (`internal/health/monitor.go:83`):
  `ShortRecoveryGoesUnnoticed`; the alerts are the rising edges over sweeps, `AlertsAreRisingEdges`.
- A heartbeat threshold or a schedule's interval beyond 9223372036 seconds wraps around: the bounds are exact,
  `OverflowedThreshold` and `PacedExactly`.
- A new schedule is never run (`internal/scheduler/scheduler.go:66-67`): `NothingEverRuns`.
- Overlapping down reports can miss an alert or send it twice (`internal/watchers/service.go:26-28` promises
  one; `OverlappedDecision` says exactly when), and a degraded report hides a recovery (`OkAnnouncesExactly`).
- Text order is time order only to the second; `TextOrder` says exactly where the two differ.

## Model

| member | source | states |
|---|---|---|
| Tasks.Store.Create | internal/tasks/store.go:58-101 | a new row and its CREATED and STARTED events appear together, or on failure nothing changes |
| Tasks.Store.Get | internal/tasks/store.go:155-165 | the row of the id, or not found |
| Tasks.Store.BeginUpdate | internal/tasks/store.go:212-229 | Update's read: a copy of the row with the given fields replaced, no change to the tables |
| Tasks.Store.CommitUpdate | internal/tasks/store.go:236-254 | Update's write: five columns of the copy replace those of the row as it is now, with a PROGRESS event |
| Tasks.Store.Heartbeat | internal/tasks/store.go:258-265 | only the heartbeat and update times change, and nothing is logged |
| Tasks.Store.Finish | internal/tasks/store.go:270-305 | terminal status, error, completed_at and cleared control with the matching event, or one of three errors and no change; then the row is read back, which can fail after the change took effect |
| Tasks.Store.RequestControl | internal/tasks/store.go:311-337 | control action and, for pause and resume, the status, with its event, and the row read back; an unknown id is rejected by the foreign key |
| Tasks.EventNameRoundTrip | internal/tasks/store.go:292-297 | the texts of the event column tell all events apart, control events included |
| Tasks.EventNames | internal/tasks/store.go:292-331 | the event of a finish is its status in capitals, that of a control request names its action |
| Tasks.ProgressRoundTrip | internal/tasks/store.go:248 | percentage and description are read back from every PROGRESS message, whatever the description contains, which follows the percent sign and a space |
| TaskRuns.RowIsReplayOfLog | internal/tasks/store.go:58-337 | under every interleaving progress, description, error, control_action and presence of completed_at equal a replay of the task's log text |
| TaskRuns.StatusIsReplayOfLog | internal/tasks/store.go:212-337 | status equals the replay too, if no update of the task carries a status and no status write of it falls between the read and the write of such an update |
| TaskRuns.CopiesStayCurrent | internal/tasks/store.go:213-245 | in such runs every pending update of the task with a quiet gap holds its current status |
| TaskRuns.StatusReplayKept | internal/tasks/store.go:242-254 | after an update status and replay are equal exactly if the copy fits the replay, after a finish, pause or resume always, after any other step as before |
| TaskRuns.StatusAgreesExactly | internal/tasks/store.go:58-337 | in every run status and replay are equal if and only if the latest write of the status was a create, finish, pause or resume, or an update whose copy fitted the replay |
| TaskRuns.LostFinish | internal/tasks/store.go:212-255 | from every state, an update that reads before a finish and writes after it restores the old status while log and completed_at say finished |
| TaskRuns.TerminalStatusLeft | internal/tasks/store.go:311-332 | a terminal status is left exactly by a committed pause, resume or update whose copy is not terminal |
| TaskRuns.LogShape | internal/tasks/store.go:90-95 | CREATED and STARTED open the log of every task and occur nowhere else in it |
| TaskRuns.LogTexts | internal/tasks/store.go:90-95 | the same of the text column: CREATED and STARTED, then never again |
| TaskRuns.LogLength | internal/tasks/store.go:74-99 | conservation: two events for each successful create, one for each successful update, finish and control request, no others |
| TaskRuns.RunSound | migrations/0001_init.sql:28-34 | in every run each event names an existing task |
| TaskRuns.LogOnlyGrows | internal/tasks/store.go:103-111 | an earlier log is a prefix of every later one and rows never disappear |
| TaskRuns.StableColumns | internal/tasks/store.go:242-261 | creation and start times and the heartbeat interval never change, and only a heartbeat changes the heartbeat time |
| TaskRuns.UpdateLands | internal/tasks/store.go:212-254 | whatever happens between its read and its write, an update leaves the requested progress, status, description and details, where none is requested those it read, and all other columns as they are at the write |
| TaskRuns.CreateLands | internal/tasks/store.go:58-101 | every column of a new row, from the request and the clock, with a minute for an interval that is not positive |
| TaskRuns.DetailsWritten | internal/tasks/store.go:236-337 | no call writes server, type and pid of an existing task, and only an update its details |
| TaskRuns.TimesWritten | internal/tasks/store.go:236-337 | only a finish writes completed_at, and every call that writes the row sets updated_at to its own time, for an update that of its read |
| TaskRuns.CallAnswers | internal/tasks/store.go:58-337 | exactly which calls work, and which error tells why one does not |
| TaskRuns.FinishAnswer | internal/tasks/store.go:270-305 | Finish answers with the finished row exactly if it works and the row is read back, and with which error otherwise |
| TaskRuns.RequestControlAnswer | internal/tasks/store.go:311-337 | RequestControl answers with the row under the new control action exactly if it works and the row is read back |
| TaskRuns.ControlAnswerMeans | internal/server/handlers_tasks.go:168-184 | the polled answer names the pending action, else the status of a finished task, else nothing |
| TaskRuns.RemoteCancelNotDelivered | internal/server/handlers_tasks.go:140-184 | while the task's control actions are those of the handlers, the polled answer is never one on which the SDK cancels |
| Health.StuckMeansSilent | internal/tasks/model.go:87-100 | stuck if and only if running and silent for longer than n intervals, while n intervals fit 64 bits of nanoseconds |
| Health.OverflowedThreshold | internal/tasks/model.go:98-99 | that bound is exact: the equivalence holds for all instants if and only if n intervals fit; right beyond it a task seen this instant counts as stuck |
| Health.Monitor.Sweep | internal/health/monitor.go:61-106 | the alerted map becomes exactly the stuck ids, the new alerts are those not alerted before, and a failed listing changes nothing |
| Health.Monitor.RaiseAll | internal/health/monitor.go:69-95 | the loop over the rows collects the stuck ids and alerts once on each that was not alerted |
| Health.Monitor.ClearRecovered | internal/health/monitor.go:99-105 | the loop over the alerted map leaves exactly the ids that are still stuck |
| MonitorRuns.AlertsAreRisingEdges | internal/health/monitor.go:69-105 | in every run the alerted set is the stuck set of the last successful sweep and each task's alerts are the rising edges over sweeps |
| MonitorRuns.OneAlertPerSilence | internal/health/monitor.go:61-106 | between two alerts on a task a heartbeat of it was recorded or it was not running |
| MonitorRuns.SignsOfLife | internal/tasks/model.go:91-97 | a task was last seen at its latest recorded heartbeat, and before the first one at its start; no other call counts |
| MonitorRuns.StuckSinceStart | internal/tasks/model.go:87-100 | from its creation until a heartbeat is recorded a task is stuck exactly while running and longer than n intervals old, an unset interval being a minute |
| MonitorRuns.SilenceKeepsLooks | internal/tasks/store.go:258-265 | while a task runs without heartbeat, the row and every listing made show the same last sign of life |
| MonitorRuns.DetectionLatency | internal/health/monitor.go:68-94 | a silent task is alerted on exactly once, by the first sweep past n intervals, so at most one sweep gap too late; not at all if there is none, or if that sweep opens the silence and the task was alerted on before |
| MonitorRuns.LatencyOfRegularSweeps | internal/health/monitor.go:48-59 | exactly one alert at most one gap too late when the last sweep before the silence and the later ones are at most a gap apart that is no longer than n intervals |
| MonitorRuns.ShortRecoveryGoesUnnoticed | internal/health/monitor.go:82-105 | a heartbeat and a new silence between two sweeps give no second alert |
| Sdk.Handle.Start | client/tracker.go:98-118 | the handle works only if the create request arrived, succeeded and was answered |
| Sdk.Handle.Update | client/tracker.go:134-139 | sent only by an active handle with a live context; otherwise no effect |
| Sdk.Handle.UpdateDetails | client/tracker.go:142-147 | served as an update request that replaces the details, if any are given, and no other reported column, with its PROGRESS event, if sent |
| Sdk.Handle.Heartbeat | client/tracker.go:152-157 | records a heartbeat, if sent |
| Sdk.Handle.Complete | client/tracker.go:161-168 | finishes the task if sent, and in any case cancels the handle's context |
| Sdk.Handle.Fail | client/tracker.go:172-183 | fails the task with the error's message if sent, and in any case cancels the handle's context |
| HandleRuns.StartExactly | client/tracker.go:98-118 | the handle is live if and only if its context is live and the create request was served and answered; the task exists once it was served |
| HandleRuns.Delivered | client/tracker.go:134-183 | what each served call makes of the row: progress and text, details, heartbeat time, completion, failure with its message |
| HandleRuns.HandleAfterCall | client/tracker.go:161-189 | only Complete and Fail change a handle, and they cancel its context even if it is inactive |
| HandleRuns.LiveExactly | client/tracker.go:122-189 | over any run a handle is live exactly until its context is cancelled or it is completed or failed |
| HandleRuns.LogIsGrammatical | client/tracker.go:98-189 | whatever is called and lost, the task's log is empty or CREATED STARTED PROGRESS* with at most one COMPLETED or FAILED, last |
| HandleRuns.FirstCloseDecides | client/tracker.go:161-189 | the first Complete or Fail decides status and last event if it arrives, and nothing later changes row or log |
| HandleRuns.DeadHandleDeliversNothing | client/tracker.go:185-189 | a cancelled or inactive handle never again changes the row or the log of its task |
| HandleRuns.OtherLeavesAlone | internal/tasks/store.go:236-251 | traffic on other tasks touches neither the row nor the log of this one |
| Watchers.Store.Register | internal/watchers/store.go:80-102 | a new row in state unknown, or kind, interval and threshold of the old one replaced, and the row read back |
| Watchers.Store.FindOrInsert | internal/watchers/store.go:167-197 | the row a check-in starts from and the state before it |
| Watchers.Store.CheckIn | internal/watchers/store.go:157-253 | the whole new row, the event, the previous state, and the error paths before and after the commit |
| Watchers.Service.CheckIn | internal/watchers/service.go:36-55 | the check-in and the alert it leads to, if any |
| WatcherRuns.RowSummarizesLog | internal/watchers/store.go:157-253 | under every interleaving failures, state, message and times of a row are the summary of its event log |
| WatcherRuns.CheckedInSummarizes | internal/watchers/store.go:199-233 | one check-in moves the summary along, the time of the last ok surviving being parsed and printed again |
| WatcherRuns.SettingsAreLastSet | internal/watchers/store.go:80-233 | under every interleaving kind, interval, threshold, details and the times of creation and update are what the calls so far set last, with the defaults of a watcher that was never registered |
| WatcherRuns.RecoveriesAnnounced | internal/watchers/service.go:36-55 | under every interleaving the recovery alerts sent, pending, and lost to a failed reading of the row are as many as the adjacent (down, ok) pairs of the log |
| WatcherRuns.OverlappingReports | internal/watchers/store.go:244-252 | two overlapping down reports, whatever they say and ask for, alert twice or not at all, because both decide on the later count and threshold |
| WatcherRuns.UndisturbedDecision | internal/watchers/store.go:248-252 | if nothing touches the watcher before the decision, it is that of a check-in served alone |
| WatcherAlerts.OverlappedDecision | internal/watchers/store.go:244-252 | with no ok in between, a down report alerts exactly if its own count plus the check-ins committed before it decides is the threshold, and exactly when that differs from what its own count says |
| WatcherAlerts.DownAlertExactly | internal/watchers/service.go:43-50 | from the history alone: a down report sends its alert if and only if the failures at the end of the log are as many as the threshold the watcher was last given, or the server's where that is not positive |
| WatcherAlerts.OneAlertPerLongOutage | internal/watchers/service.go:43-50 | with the watcher's own check-ins one at a time, others overlapping freely, and a fixed threshold k, the down alerts sent, pending and lost to a failed reading of the row are as many as the maximal non-ok runs of length at least k whose k-th entry is down |
| WatcherAlerts.LongOutagesAppend | internal/watchers/store.go:199-204 | a check-in completes such a run exactly if it is a down and the k-th failure in a row |
| WatcherAlerts.SecondAlertNeedsHigherThreshold | internal/watchers/service.go:43-50 | with the watcher's own check-ins one at a time, a second down alert with no ok in between needs a strictly higher effective threshold |
| WatcherAlerts.SecondAlertThreshold | internal/watchers/service.go:43-50 | under every interleaving the threshold of a second down alert with no ok in between is higher by exactly the number of check-ins committed in between |
| WatcherAlerts.FirstOkAnnouncesRecovery | internal/watchers/service.go:48-53 | under every interleaving, the first ok that commits after a down alert will announce the recovery if and only if the check-in right before it is a down |
| WatcherAlerts.OkAnnouncesExactly | internal/watchers/service.go:51-53 | under every interleaving an ok will announce a recovery if and only if the check-in that committed last before it is a down |
| WatcherAlerts.RecoveryIsSent | internal/watchers/service.go:51-53 | a decision sends a recovery alert if and only if its check-in was to announce one and the row can be read again, whatever happened in between |
| WatcherAlerts.RecoveryBetweenDownAlerts | internal/watchers/service.go:48-53 | with the watcher's own check-ins one at a time and no higher threshold, an ok is decided between any two down alerts, and the first sends a recovery alert if and only if the check-in right before it is a down and the row can be read again |
| WatcherSerial.SerialIsInterleaving | internal/watchers/service.go:36-55 | runs of the service served one call at a time are interleavings, so what holds of those holds of these |
| WatcherSerial.SerialIsOneAtATime | internal/watchers/service.go:36-55 | and they serve every watcher's check-ins one at a time, as the claims on down alerts ask |
| WatcherSerial.ThresholdSetDecides | internal/watchers/service.go:43-50 | once a registration or a check-in gives a watcher the threshold h, the downs that follow send exactly one alert, when the failures reach h, or the server's threshold if h is not positive |
| WatcherSerial.DegradedHidesRecovery | internal/watchers/service.go:48-53 | down, degraded, ok announces no recovery; down, ok always does |
| Timestamps.TextRoundTrip | internal/tasks/store.go:113-124 | a time is read back from its text to the nanosecond if and only if its year has at most four digits |
| Timestamps.TextOrder | internal/watchers/store.go:44-55 | text order is time order except within one second, reversed exactly if the earlier fraction is a prefix of the later |
| Timestamps.TextAtMostExactly | internal/scheduler/scheduler.go:107-108 | exactly when one time's text is at most another's |
| Timestamps.WholeSecondSortsLast | internal/tasks/store.go:113 | a whole second sorts after every later instant of that second |
| Timestamps.FieldOrderIsTimeOrder | internal/tasks/store.go:113 | calendar order of the fields is order on the time line |
| Timestamps.DayNumberIsGregorian | internal/tasks/store.go:113 | the day number is that of the Gregorian calendar, in closed form |
| Timestamps.FmtTimeIs | internal/tasks/store.go:113 | the text is year-month-day, T, hour:minute:second, the fraction if there is one, and Z |
| Timestamps.AddSeconds | internal/scheduler/scheduler.go:181 | the instant exactly that many seconds later, with the same fraction |
| Timestamps.AddNanos | internal/scheduler/scheduler.go:70 | the instant exactly that many nanoseconds later, or earlier |
| Timestamps.ListingNewestFirstToTheSecond | internal/tasks/store.go:190 | a listing ordered by text is newest first to the second, and exactly which pairs within a second stand the wrong way round |
| Scheduler.Store.Create | internal/scheduler/scheduler.go:68-79 | a never-run row due one interval from now, as far as that fits a duration, or nothing if the name is taken; reported as an error in both cases, since the new row cannot be read back |
| Scheduler.Store.Get | internal/scheduler/scheduler.go:81-88 | the schedule of the name exactly if it exists and has run before |
| Scheduler.Store.ListDue | internal/scheduler/scheduler.go:107-122 | exactly the due schedules, each once, or an error if and only if one of them has never run |
| Scheduler.Runner.Tick | internal/scheduler/scheduler.go:164-186 | a task for exactly the due schedules whose creation works, and new times for exactly those also marked |
| SchedulerRuns.Pacing | internal/scheduler/scheduler.go:164-186 | after a marked run the next task of a schedule is made more than interval - 1 seconds later, for every interval that fits a duration |
| SchedulerRuns.NextDue | internal/scheduler/scheduler.go:124-128 | after a marked run the row is never due again before its interval has passed, to the second, for every interval that fits a duration |
| SchedulerRuns.CreatedRow | internal/scheduler/scheduler.go:68-79 | a Create adds one enabled schedule, never run and next due after its interval, and changes no other |
| SchedulerRuns.FirstDue | internal/scheduler/scheduler.go:68-75 | a new schedule is due one interval after its creation and not before, to the second |
| SchedulerRuns.LastRunShown | internal/scheduler/scheduler.go:124-128 | until the next marked run a row shows the latest one and the due time it set, and keeps name, interval and enabled |
| SchedulerRuns.PacedExactly | internal/scheduler/scheduler.go:107-128 | a marked row is due only more than interval - 1 seconds later if and only if the interval is at most 9223372036 seconds |
| SchedulerRuns.OverlongIntervalRunsAgain | internal/scheduler/scheduler.go:164-186 | an interval that wraps to a negative duration, as one second beyond that bound does, is run by every later tick |
| Scheduler.IntervalKept | internal/scheduler/scheduler.go:70 | the first run is due exactly one interval from now if and only if the interval fits a duration |
| SchedulerRuns.OverdueIsServed | internal/scheduler/scheduler.go:107-128 | a tick without errors serves a schedule due in an earlier second exactly if it is enabled, and none due in a later second |
| SchedulerRuns.UnmarkedRunsAgain | internal/scheduler/scheduler.go:182-184 | a run that could not be marked is repeated exactly by ticks that find the old due time passed |
| SchedulerRuns.NeverRunBlocksAll | internal/scheduler/scheduler.go:51-58 | one due schedule that has never run keeps a tick from serving any |
| SchedulerRuns.NothingEverRuns | internal/scheduler/scheduler.go:66-79 | from an empty table no run ever makes a task |
| PingWatch.Run | scripts/ping-watch.sh:50-81 | the loop's latched status, down_since, updates and notifications after any number of rounds |
| PingWatch.CountersAndStatus | scripts/ping-watch.sh:51-81 | the counters are the trailing runs and the status is the kind of the latest run that reached its threshold |
| PingWatch.FlipBound | scripts/ping-watch.sh:55-80 | flips up times their threshold plus flips down times theirs are at most the number of pings |
| PingWatch.NotesAlternate | scripts/ping-watch.sh:60-79 | flips alternate, the first is silent, and every report of unreachability tells of exactly the threshold's failures |
| PingWatch.DownSince | scripts/ping-watch.sh:66-71 | down_since is the time of the first failed ping since the latest flip up or the start |
| PingWatch.DownFlipCause | scripts/ping-watch.sh:69-79 | a flip down ends a run of failed pings as long as the threshold, all since the latest flip up |
| PingWatch.ReportedDowntime | scripts/ping-watch.sh:56-66 | the reported downtime is never shorter than the outage; it counts from the ping that began the outage if and only if no earlier ping failed since the flip up |
| EnvFile.Process.LoadEnvFile | client/config.go:117-141 | set variables stay and every other key gets its first valid assignment; of a file of assignments all take effect |
| EnvFile.LoadIsIdempotent | client/config.go:83-86 | loading a file twice equals loading it once |
| EnvFile.FileSetsAll | client/config.go:117-141 | a file of assignments sets every unset key to the value of its first line, keeps the set ones, and sets nothing else |
| EnvFile.FirstLine | client/config.go:117-118 | a line break ends a line, and a carriage return before it is dropped |
| EnvFile.LinesOfFile | client/config.go:117-118 | a file of lines, each with its line break, is read as exactly those lines |
| EnvFile.TrimSpaceMeans | client/config.go:119-130 | trimming takes away white space at both ends, and all of it |
| EnvFile.PlainValueIsExact | client/config.go:125-151 | a line KEY=value assigns exactly a value without white space around it and not in a pair of quotes |
| EnvFile.QuotedValueIsExact | client/config.go:119-151 | a line KEY="v", or with single quotes, assigns exactly v for every well-formed key and every v |
| EnvFile.UnquotedLine | client/config.go:125-131 | a line KEY=value assigns the value without the white space around it, whatever the value |
| EnvFile.ExportIsIgnored | client/config.go:123 | an export in front of an assignment makes no difference |
| EnvFile.CommentIsIgnored | client/config.go:119-122 | a comment assigns nothing, whatever it says |
| EnvFile.QuotedLineSetsValue | client/config.go:117-139 | a file of that line sets the unset key to v, for v without line breaks and NUL |
| JsonEscape.Run | scripts/notify.sh:22-28 | the three ordered replacements compute the one-pass escape |
| JsonEscape.ThreePassesAreOne | scripts/notify.sh:24-26 | in this order no replacement disturbs another's result |
| JsonEscape.DecodeEscape | scripts/notify.sh:22-28 | decoding as a JSON string body (section 7 of RFC 8259) gives the message back if and only if newline is its only control character |

## Left out

- SQLite, database/sql, HTTP routing, JSON bodies, Slack delivery, Socket Mode, signature checks, system metrics and the CLI: outside systems and display; alerts are recorded as logs of what is sent.
- TaskRuns.RowIsReplayOfLog: takes new tasks at progress 0, as the API and the scheduler ask for them, because the log does not record a first progress.
- MonitorRuns.DetectionLatency: thresholds that fit 64 bits, as in StuckMeansSilent.
- HandleRuns.LogIsGrammatical: one handle used by one caller at a time, its task not written by others; a request that arrives is served before the call returns.
- WatcherAlerts.OneAlertPerLongOutage: for a watcher whose own check-ins do not overlap; OverlappingReports shows why.
- SchedulerRuns.Pacing: instants from 1970 to year 9999.
- Timestamps of task events: no property here depends on them.
- Tasks.Store.Finish, Tasks.Store.RequestControl: the row is read back before any other call; in runs a reader is left out, because it changes nothing.
- Requests that the handlers reject before they reach a store: missing fields, unknown statuses and unknown watcher states.
- The filters of List, the description text and the minutes in a stuck alert, and the tasks' details as JSON (details are opaque text).
- Parsing of time texts that the program never writes: zones other than Z and the lax forms that Go accepts beyond RFC 3339.
- Lines of a .env file beyond the scanner's 64 KB limit, the choice of the file's path, and the \u escapes of JSON, which the escaper never writes.
- The SDK's polling goroutine beyond the answer it acts on; cancelling the context at any time stands for it.
- ping-watch.sh's own task traffic, tunnel-watch.sh, task-wrap.sh, task-lib.sh and Watcher.Overdue: curl plumbing, a plain edge detector, and a function nothing calls.
