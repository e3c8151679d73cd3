# gosu: supervision, parsing and proxying, verified

gosu is a process supervisor. A job runs a tree of tasks; pipes join the results of
their subtasks, workers restart what fails within a rate, jobs are started and
stopped over a lock, log lines are stamped and hooked, named events wake callbacks,
commands are read from a hand-written argument syntax, and a load balancer spreads
requests with sticky sessions. This project models those parts and proves what they
keep.

The concurrent parts are state machines: every atomic operation, channel operation
and context call is one step, a *schedule* is any list of steps, and `Run` gives the
state after it. The theorems hold for every schedule of any length and any number of
goroutines. What the program does to its own fields step by step is also written as
classes whose methods are proved against the same functions.

| file | contents |
|---|---|
| `Errors.dfy` | error chains, the ok sentinel of contexts, classification by status |
| `Pipe.dfy`, `PipeOutcome.dfy` | the pipe and the cluster as processes; invariant, outcomes of the four modes, progress |
| `Controller.dfy` | the object a finishing subtask reports to; linearization; cluster against parallel |
| `Options.dfy` | rates, ticks, and the defaults of worker options |
| `RetryState.dfy`, `Retry.dfy` | the packed word with its compare-and-swap loops; the retry protocol, its rate and its waits |
| `Must.dfy` | the one-attempt worker in time |
| `Job.dfy`, `JobProgress.dfy` | Start, Stop, Restart and Kill over whole retry workers; no call is ever stuck |
| `TaskTree.dfy` | workers over pipes over workers, each with a run of its protocol: how a failure climbs |
| `LoadBalancer.dfy` | one request through selection, attempts and retries, on the objects |
| `StickySession.dfy`, `Proxy.dfy` | concurrent `Next` calls on one session; concurrent requests and the connection counters |
| `ArgGrammar.dfy`, `ArgReader.dfy` | what is read, as functions of the remaining text; the cursor methods that read it |
| `ArgRoundTrip.dfy` | printing and reading back |
| `CommandLine.dfy`, `CommandLineExact.dfy` | the client's quoting and reading back; exactly which values, keys and arguments are lost |
| `LineWriter.dfy`, `LineInterleaving.dfy` | the log writer against the log as a text; the pieces of concurrent writes |
| `BufferedEvents.dfy` | buffered event subscriptions |

Several claims one would expect are false of the code. For each there is a lemma with
the failing input or run, and what does hold instead:

- `Rescale` keeps count times period and not the rate (`Options.RescaleDoesNotKeepRate`, `Options.RescaleKeepsProduct`); it keeps the rate if and only if the count is zero or the period stays the same to the nanosecond (`Options.RescaleKeepsRate`).
- An `any` pipe ends with nil even when every subtask fails (`PipeOutcome.AnyHidesFailures`, for any errors); a run of it hides failure so if and only if all subtasks fail (`PipeOutcome.AnyHidesExactly`).
- After `Stop` a retry worker may create one more attempt, never two (`Retry.AttemptAfterStop`, `Retry.AtMostOneMore`): it can if and only if Run is past its last look at the word (`Retry.MoreAfterStop`).
- `Kill` on a job can leave two attempts live at once (`Job.KillBreaksExclusivity`). A Kill makes that possible if and only if the worker it lets go of still has a live attempt or is about to create one (`Job.KillBreaksExactly`); with no such Kill, and without retries always, at most one attempt is live (`Job.AtMostOneLive`).
- An object key needs a space before its colon (`ArgRoundTrip.ColonNeedsSpace`): with it, every printed object is read back (`ArgRoundTrip.RoundTrip`).
- An option the client writes is not always read back: `--path=/usr` loses the whole command line (`CommandLineExact.PathExample`, `CommandLineExact.PathsAreErrors`). A value is read back if and only if it is an identifier, a number, or has a space and no backslash (`CommandLineExact.ReadBackExactly`, `CommandLineExact.OptionReadsExactly`).
- An option with a space and no sign before it is quoted as a whole, and reading stops there in silence, with all that follows unread (`CommandLineExact.StopsAtQuotedWhole`).
- A key without a sign is an error and not a flag, as `--verbose` is (`CommandLineExact.KeyNeedsSign`, `CommandLineExact.VerboseExample`). A key becomes a flag if and only if the end of input is met in the value after its sign (`CommandLineExact.FlagExactly`), as it is, without an error, in a quote left open or an object with a bad key (`CommandLineExact.OpenQuoteIsFlag`, `CommandLineExact.BadKeyIsFlag`).
- Concurrent writes to a log can share a line: they never do if and only if no write leaves its last line open while another has a line (`LineInterleaving.LinesStayWhole`).
- A Stop can miss an attempt: one not stored yet, or one still to be created (`Retry.StopMissesExactly`).
- `Remove` during a drain makes the drainer run on (`BufferedEvents.RemoveDuringDrainRunsOn`, `BufferedEvents.RemoveRunsOn`); it silences the subscription if and only if nothing is outstanding (`BufferedEvents.RemoveSilencesExactly`).
- `RemoveUpstream` compares a session with an upstream, so it purges no session (`LoadBalancer.LoadBalancer.RemoveUpstream`).

## Model

| member | source | states |
|---|---|---|
| Errors.StatusFromErr | pkg/task/status.go:92-102 | Although the map of statuses is searched in no fixed order, the answer is the one status at the end of the error chain, `Errored` if there is none, `Complete` for nil. |
| Errors.IsLooksAtRoot | pkg/task/status.go:96-100 | Against an unwrapped target, `errors.Is` holds if and only if the target is the end of the chain. |
| Errors.NonRetriableTells | pkg/task/work_retry.go:18-20 | An error made non-retriable is one to `errors.Is`, is no status any more, and prints as `non-retriable error: ` and the original's text. |
| Errors.CauseGivesBack | pkg/util/ok.go:10-46 | What a context is cancelled with, nil included, is what its cause gives back; only the sentinel reads as nil. |
| Pipe.StepKeepsInv | pkg/task/task_pipe.go:42-68 | Every step of the launcher, a subtask goroutine or the parent keeps: wait group = goroutines between spawn and exit; `left` + counted-off deliveries = n; results past `end` = goroutines past `end`; the cause is what the deliveries so far decide. |
| Pipe.RunKeepsInv | pkg/task/task_pipe.go:42-76 | Those facts hold after every schedule from the start of every pipe with n > 0. |
| Pipe.MoveConserves | pkg/task/task_pipe.go:53-65 | Conservation for one goroutine's move, whichever it is; exactly the goroutine that takes `left` to zero goes on to the nil cancel. |
| Pipe.AllDelivered | pkg/task/task_pipe.go:61-63 | `left` at zero means every subtask's result has been through `end`. |
| Pipe.DecidesStable | pkg/util/ok.go:28-33 | A decision made by the first k deliveries is unchanged by any later one. |
| PipeOutcome.FirstCancelIsFinal | pkg/util/ok.go:28-46 | After the first cancel, by a subtask or the parent, the cause never changes, and it is what the launcher returns. |
| PipeOutcome.FailFastOutcome | pkg/task/task_pipe_mode.go:15-39 | Ordered, parallel and cluster runs end with nil if all n subtasks delivered nil, and otherwise with the first error in delivery order, made non-retriable by parallel and cluster only; the ok sentinel delivered as an error counts as that error and reads as nil. |
| PipeOutcome.RaceOutcome | pkg/task/task_pipe_mode.go:42-50 | A race ends with the first result delivered. |
| PipeOutcome.AnyOutcome | pkg/task/task_pipe_mode.go:53-63 | An `any` pipe never ends with an error; it is done only if some subtask succeeded or all delivered, and as soon as one has. |
| PipeOutcome.AnyHidesFailures | pkg/task/task_pipe.go:61-63 | For every non-empty list of errors, an `any` pipe has a run in which all of them are delivered and it ends with nil. |
| PipeOutcome.AnyHidesExactly | pkg/task/task_pipe.go:61-63 | Some run of an `any` pipe ends with nil and no success delivered if and only if all its subtasks fail. |
| PipeOutcome.OrderedOneInFlight | pkg/task/task_pipe.go:45-66 | In ordered mode, under every schedule: a spawned subtask has only exited, successful ones before it, and two goroutines are never in flight together. |
| PipeOutcome.OrderedIsSequential | pkg/task/task_pipe_mode.go:28-39 | Ordered mode refines sequential execution: deliveries are a beginning of the list in order, only the last an error, and the result is that of running one after another up to the first error. |
| PipeOutcome.SomeoneLive | pkg/task/task_pipe.go:54-68 | While the launcher waits for a context that is not done, some goroutine is between spawn and exit. |
| PipeOutcome.Progress | pkg/task/task_pipe.go:43-68 | Until the launcher has returned and every goroutine has left, the launcher or a goroutine has an enabled step. |
| PipeOutcome.StepFalls | pkg/task/task_pipe.go:43-68 | A measure falls on every step. |
| PipeOutcome.ScheduleBound | pkg/task/task_pipe.go:43-68 | No schedule is longer than 10 n + 3 steps. |
| PipeOutcome.PipeEnds | pkg/task/task_pipe.go:42-76 | A run that can go no further has its cause set, its launcher returned and no goroutine left behind. |
| PipeOutcome.RunsToEnd | pkg/task/task_pipe.go:42-76 | From every reached state, in every mode, the pipe can be run to the launcher's return with nobody cancelling. |
| PipeOutcome.NoSpawnAfterCancel | pkg/task/task_pipe.go:45-66 | Once the context is done no subtask is spawned under any schedule, but for one that a cluster's launcher was already past its look for. |
| PipeOutcome.ClusterCountsSuccesses | pkg/task/task_run.go:207-210 | Only successes are counted off a cluster's counter. |
| PipeOutcome.CancelEndsTheRest | pkg/task/task_pipe.go:54-68 | From every state in which the context is done, the launcher and every goroutine can end although no subtask ever delivers again. |
| Controller.PipeController.End | pkg/task/task_pipe_mode.go:22-63 | Each mode's `end` cancels exactly for the results the mode promises, and the first cancel wins. |
| Controller.PipeController.DeliverToPipe | pkg/task/task_pipe.go:59-63 | New counter and cause after one delivery to a pipe. |
| Controller.PipeController.DeliverToCluster | pkg/task/task_run.go:207-210 | New counter and cause after one delivery to a cluster: an error does not touch the counter. |
| Controller.PipeController.DeliverAll | pkg/task/task_pipe.go:45-67 | Any list of deliveries leaves the state the specification function gives. |
| Controller.ControllerDecides | pkg/task/task_pipe.go:59-63 | In every mode the controller's cause is what the deliveries decide, defined independently by the first cancelling result. |
| Controller.DecidesUnique | pkg/task/task_pipe.go:59-63 | What a list of deliveries decides is unique. |
| Controller.PipeLinearizes | pkg/task/task_pipe.go:54-65 | The concurrent pipe behaves as if each delivery were handled in one piece: under every schedule its cause is the controller's on the same deliveries, save for a last nil cancel still to come. |
| Controller.ClusterSimulatesParallel | pkg/task/task_run.go:193-218 | After the same deliveries the cluster and parallel mode have the same cause, although one counts down on successes only and the other on every delivery. |
| Controller.ClusterRunAgrees | pkg/task/task_run.go:214-218 | A cluster run and a parallel run with the same deliveries return the same error, non-retriable in both. |
| Options.RescaleKeepsProduct | pkg/util/rate.go:65-71 | Rescaling keeps count times period, up to the truncation of the count. |
| Options.RescaleCount | pkg/util/rate.go:65-71 | To a longer period the count never rises, to a shorter one it never falls. |
| Options.RescaleKeepsRate | pkg/util/rate.go:65-71 | The rate, count over period to the nanosecond, is kept if and only if the count is zero or the period is the same. |
| Options.RescaleDoesNotKeepRate | pkg/util/rate.go:65-71 | 10 in 30 s rescaled to 60 s gives 5, not 20. |
| Options.ClampLimit | pkg/util/rate.go:72-79 | For a clamped period, the upper clamp gives the count back exactly when count times milliseconds is at most 300000, and never more than that or than 10. |
| Options.Options.WithDefaults | pkg/task/options.go:22-43 | The field-by-field assignments compute `Defaulted` of the old options. |
| Options.DefaultsAreInRange | pkg/task/options.go:22-43 | Any options end in range (period in [30 s, 1 h], count at most 10, count times period at most 300 s, positive scale, backoff and stop timeout in their ranges); and options are in range if and only if defaulting leaves them alone, so it is idempotent. |
| Options.DefaultsOf | pkg/task/options.go:22-43 | Each field: unset, the stated default; set, the nearest bound, and for the count the largest that ten in thirty seconds allows in the period; the other fields stay. |
| Options.SameOptionsAtEveryDepth | pkg/task/work.go:32-47 | Defaulted again at every level, a worker at any depth has the root's options. |
| Options.TickContains | pkg/util/rate.go:86-88 | The tick is the number of the period that contains the instant. |
| Options.TicksFit | pkg/util/rate.go:86-91 | For every non-negative int64 time and a defaulted period the 32-bit conversion loses nothing and is never the dead sentinel. |
| RetryState.PackUnpack | pkg/task/work_retry.go:64-69 | Pack and unpack are mutual inverses between pairs of 32-bit halves and 64-bit words, so a compare-and-swap on the word compares both halves. |
| RetryState.RetryState.CompareAndSwap | pkg/task/work_retry.go:78-81 | Swaps and reports it if and only if the word was as expected. |
| RetryState.BumpedCounts | pkg/task/work_retry.go:115-121 | The first retry of a tick counts as one, each other as one more. |
| RetryState.RetryState.DisableRetries | pkg/task/work_retry.go:70-83 | Whatever rivals write between load and swap, the loop ends with the word dead; the channel is closed once more exactly if this caller killed a live word, whose counter stays; a dead word is left alone. |
| RetryState.RetryState.Acquire | pkg/task/work_retry.go:108-128 | Whatever rivals write: a dead word is left alone and refused; a live one gets the tick of the clock, with counter one or one more than the word's in the same tick, and is granted if and only if that is within the limit. |
| Retry.DefaultsAreValid | pkg/task/options.go:22-29 | What the retry protocol needs of its options is what defaulting ensures. |
| Retry.WordKept | pkg/task/work_retry.go:70-128 | The word always fits and what Run has loaded is current unless dead; no step changes a dead word, and Run never kills a live one. |
| Retry.KillKept | pkg/task/work_retry.go:70-83 | The word is dead if and only if one caller killed it; that caller alone is about to close the channel or has closed it. |
| Retry.AttemptKept | pkg/task/work_retry.go:173-195 | Only the latest attempt can be live, and only while Run waits for it or the parent context is done. |
| Retry.StopSafety | pkg/task/work_retry.go:45-56 | Under any interleaving with any number of Stop and Kill callers, `retryCancel` is closed at most once, only with the word dead; at most the latest attempt is live; none after Run has finished with the parent live. |
| Retry.CreatedAfterDone | pkg/task/work_retry.go:173-195 | An attempt is created only when the contexts of all before it are done. |
| Retry.AtMostOneMore | pkg/task/work_retry.go:98-151 | From the moment the word is dead it never changes, and Run creates at most one attempt more: none unless it was already past its last look at the word. |
| Retry.MoreAfterStop | pkg/task/work_retry.go:138-150 | In every reached state with the word dead, some continuation creates another attempt if and only if Run is at `Create` or asleep before a retry. |
| Retry.AttemptAfterStop | pkg/task/work_retry.go:138-150 | A run in which Stop has killed the word and closed the channel and the timer still wakes Run for one more attempt. |
| Retry.RetriedOnlyRetriable | pkg/task/work_retry.go:84-97 | In every reached state each attempt that another followed had as result an error whose chain does not end in `ErrNonRetriable`, or nil with `RetrySuccess`; and a finished Run returns the last result it got. |
| Retry.RetriesExactly | pkg/task/work_retry.go:98-150 | When Run has just got a result, in any reached state, some continuation without a stopper and with the clock standing creates another attempt if and only if the context is live, the word is not dead, the clock's tick has a retry left, and the result is such an error or such a nil. |
| Retry.SwapTakes | pkg/task/work_retry.go:116-127 | An undisturbed swap grants a retry exactly when the tick has one left, as the tick's first or one after the word's, and gives up exactly when it has none. |
| Retry.KillEndsStored | pkg/task/work_retry.go:51-56 | A Kill at its call leaves no attempt live but one not stored yet; a Stop ends none. |
| Retry.ParentEndsRun | pkg/task/work_retry.go:181-184 | The end of the parent's context reaches the worker, which can then finish from its wait or its sleep, with no attempt more. |
| Retry.ClosedWakesSleeper | pkg/task/work_retry.go:144-146 | Once the channel is closed a sleeping worker can finish at once, with no attempt more. |
| Retry.StopInvKept | pkg/task/work_retry.go:70-83 | A Stop or Kill caller past its loop has left the word dead. |
| Retry.StopMissesExactly | pkg/task/work_retry.go:45-56 | When a Stop or Kill is about to call the stored attempt, in any reached state, some continuation has a live attempt that no stopper has reached if and only if the latest attempt is live and not stored yet, or Run is still about to create one under a live parent. |
| Retry.MustKept | pkg/task/work_retry.go:176-177 | The attempt stored is the latest, but for one just created, which nobody has reached. |
| Retry.SwapFailsOnlyDead | pkg/task/work_retry.go:109-128 | A swap of Run fails only because the word is dead; the loop goes round at most once more and ends. |
| Retry.GrantNext | pkg/task/work_retry.go:110-126 | Each grant lies in its own tick, within the limit; the first of a tick has counter one, and each other follows the one before by one. |
| Retry.RateBound | pkg/task/work_retry.go:106-128 | Retries granted in any interval of length L are at most count * (L / period + 2). |
| Retry.WaitRises | pkg/task/work_retry.go:131-135 | The wait rises with the counter, from 0.5 to 1.5 times backoff * scale. |
| Retry.WaitIs | pkg/task/work_retry.go:131-134 | Twice the wait is backoff * scale * (1 + 2 f * f), where f is the part of the allowance used before, stated without division. |
| Retry.WaitBounds | pkg/task/work_retry.go:130-149 | For every granted retry the division by the count is defined, the wait is between those bounds, and it does not fall within a tick. |
| Must.StopTakesEffect | pkg/task/work_must.go:75-100 | Under any interleaving of Stop, Kill, parent, timeouts, memory guard and exit, the stop channel is closed at most once, and later than the stop timeout after that the context is done, whatever the task does. |
| Must.CauseIsFixed | pkg/task/work_must.go:27-41 | The first cancel fixes the cause and who gave it. |
| Must.CauseTellsWhy | pkg/task/work_must.go:33-186 | For every cause, who gave it first and when: a stop, start or execution timeout its own status, only if set and no sooner than due, a stop timeout only after the channel was closed; a Kill or a stop without timeout `Cancelled`; the memory guard its error; the parent its own; the task nil after the minimum uptime or an `Errored` status. |
| Must.ExitIsTold | pkg/task/work_must.go:169-184 | After the minimum uptime the result of an exit is nil if and only if the exit was; an error of status `Errored` stays, any other becomes one of that status with its text; before it the result is always an error. The result is the cause if nothing was cancelled before. |
| Must.TimeoutsComeDue | pkg/task/work_must.go:117-171 | In every reached state the timeouts that are set are armed for no later than their length from now, and each ends the wait with its own error, if it is first; a done context ends it with the cause. |
| Must.DoneClosesChannel | pkg/task/work_must.go:30 | Once the context is done and the pending calls have run, the stop channel is closed, so subtasks are told. |
| Must.RunReturnsDone | pkg/task/work_must.go:157-185 | Run returns only with the context done, and with its cause, an exec timeout, an `Errored` error, or nil after the minimum uptime. |
| Must.ReportedIsErrored | pkg/task/work_must.go:170-181 | However a task exits, its error is reported with status `Errored`; an early exit is always an error. |
| Must.TimeCanPass | pkg/task/work_must.go:77-88 | The timed model shuts out no run: unless an enforcing goroutine has a step to take at once, time can pass. |
| Job.AtMostOneLive | pkg/job/job.go:54-112 | Over any concurrent Start, Stop, Restart and Kill calls, interleaved with every step of every retry worker, at most one attempt has a live context across all workers ever created, as long as no Kill lets go of a loose worker (one with a live attempt, or about to create one); without retries, always. |
| Job.StoppedMeansNoneLive | pkg/job/job.go:64-84 | Under the same condition, when a Stop has waited and still holds the lock, no attempt of any worker is live. |
| JobProgress.EveryCallCanEnd | pkg/job/job.go:54-112 | No deadlock: in every reached state, Kills included, every Start, Stop, Restart and Kill call can still be brought to its end. |
| JobProgress.CallOutcome | pkg/job/job.go:54-112 | What each call has done between having the lock and giving it back, whatever happens meanwhile: Start has left the current worker or made one of the job's kind and options; Stop has none left and the old one is done; Restart has the old one done and a new one, the last made; Kill has none left. |
| JobProgress.StartsTheJob | pkg/job/job.go:54-91 | In every reached state a Start or Restart about to give back the lock leaves a current worker, a Restart the last one made. |
| JobProgress.HolderKept | pkg/job/job.go:70-111 | The lock's holder is a call past taking it, and a call stops its worker by a killing caller if and only if it is a Kill. |
| JobProgress.WorkerFinishes | pkg/task/work_retry.go:168-198 | From every reached state a worker can be brought to its end once its tasks end. |
| Job.KillBreaksExactly | pkg/job/job.go:104-112 | When a Kill is about to let go of a worker, in any reached state, some continuation has a live attempt of that worker beside one of another worker if and only if the worker is loose: it has a live attempt, such as one not stored yet, or Run is at `Create` or asleep. |
| Job.SpentStays | pkg/task/work_retry.go:98-128 | A killed retry worker that is not loose never has a live attempt again. |
| Job.KillsOfMustWorkers | pkg/task/work_must.go:33-35 | Without retries no Kill lets go of a loose worker, since it ends the one attempt at once. |
| Job.NoKillIsHarmless | pkg/job/job.go:73-91 | Nor does a run in which nobody calls Kill. |
| Job.KillBreaksExclusivity | pkg/job/job.go:104-112 | A run with Start, Kill, Start from the beginning, after which two attempts of the job are live. |
| Job.JobKept | pkg/job/job.go:54-112 | Every step that lets go of no loose worker keeps: each worker is the current one, or spent for good, or being stopped by the call that holds the lock. |
| TaskTree.FatalPassesWorker | pkg/task/work_must.go:169-184 | A non-retriable result passes the one-attempt worker unchanged, early or not, and the retry worker finds it not retriable. |
| TaskTree.FatalIsLast | pkg/task/work_retry.go:168-198 | In every run of the retry protocol, an attempt with a non-retriable result is the last, and its result is what the worker returns. |
| TaskTree.AttemptReports | pkg/task/work_retry.go:181-188 | The retry worker goes on from an attempt exactly when the attempt's context is done, as it is once the attempt's Run has returned. |
| TaskTree.ClimbExample | pkg/task/work_retry.go:18-20 | Trees with a climbing failure exist: a retry worker over a pipe over a retry worker, in every mode but `any`. |
| TaskTree.FatalPassesPipe | pkg/task/task_pipe.go:68-75 | A non-retriable result that decides a pipe is what an ordered or race pipe ends with, and stays non-retriable in a parallel pipe or a cluster. |
| TaskTree.FatalClimbs | pkg/task/work_retry.go:84-97 | In trees of any depth, whose workers and pipes had runs of the retry and pipe protocols, a non-retriable failure climbs by deciding deliveries to the result of the root, and no worker on the way started another attempt. |
| TaskTree.ParallelFailureIsFatal | pkg/task/task_pipe.go:69-75 | Whatever fails a parallel pipe or a cluster makes it non-retriable. |
| TaskTree.AnyStopsTheClimb | pkg/task/task_pipe_mode.go:59-63 | No failure passes an `any` pipe. |
| LoadBalancer.LoadBalancer.RemoveUpstream | pkg/revproxy/lb.go:64-74 | The list loses every occurrence of the upstream; every session stays as it was, even one that holds it. |
| LoadBalancer.WithoutKeepsOthers | pkg/revproxy/lb.go:66 | What is left on the list is everything but that upstream. |
| LoadBalancer.LoadBalancer.LeastLoaded | pkg/revproxy/lb.go:133-144 | The first of the least loaded upstreams other than the failed one; nil if there is no other. |
| LoadBalancer.LoadBalancer.Probe | pkg/revproxy/lb.go:152-160 | The nearest upstream, going round from the start, that is not the failed one, if there is any. |
| LoadBalancer.LoadBalancer.AllProbed | pkg/revproxy/lb.go:154-159 | Going once round from any place meets every upstream. |
| LoadBalancer.SelectedAvoids | pkg/revproxy/lb.go:122-163 | With two distinct upstreams on the list, every method selects one, and not the failed one. |
| LoadBalancer.SelectedNothing | pkg/revproxy/lb.go:126-162 | After a failure selection comes back with nothing exactly when the list is empty, or when loads are compared on a longer list that holds the failed one only. |
| LoadBalancer.SelectedIsSelectable | pkg/revproxy/lb.go:122-163 | Every selection is one that a call on a shared session may pick: what `StickySession` and `Proxy` assume of it holds. |
| LoadBalancer.LoadBalancer.Select | pkg/revproxy/lb.go:122-163 | By case of the list and the method: nil for none, the only one of one, else the method's selection. |
| LoadBalancer.LoadBalancer.Next | pkg/revproxy/lb.go:76-163 | The session's upstream unless it is the reported one, else a selection that becomes the session; no other client's session changes. |
| LoadBalancer.LoadBalancer.Serve | pkg/revproxy/upstream.go:37-69 | Every frame gives its connection back, the error handler's recursion ends, and what follows an attempt is what `After` allows: nothing unless it failed. |
| LoadBalancer.LoadBalancer.SelectAgain | pkg/revproxy/lb.go:185-187 | For a retried request: a selection at the loads of the moment with the last upstream as the failed one. |
| LoadBalancer.LoadBalancer.Retry | pkg/revproxy/lb.go:167-191 | On a failure: no more attempts exactly at the maximum or when selection comes back with nothing, and otherwise the upstream selected at the loads of the moment with the last one as the failed one. |
| LoadBalancer.LoadBalancer.Handle | pkg/revproxy/lb.go:165-192 | A request from its first upstream on, as a run of `After`; all connection counts end as they began. |
| LoadBalancer.LoadBalancer.ServeHTTP | pkg/revproxy/lb.go:165-192 | The first attempt goes to the session's upstream, or else to the method's selection; at most max(1, RetryMax) attempts, all but the last failed; it gives up on a failure before that exactly when no upstream is left to it, so never with one upstream on the list or with two distinct ones; with those it never hits one twice in a row; each later attempt is the method's selection at that moment's loads; all connection counts end as they began. |
| LoadBalancer.AfterCounts | pkg/revproxy/lb.go:167-173 | Of all runs of `After`: at most the maximum of attempts, all but the last failed, and all of them made if the last failed and selection did not come back with nothing. |
| LoadBalancer.AfterPicks | pkg/revproxy/lb.go:185-188 | Each later attempt is selected with the frames of those before it open. |
| LoadBalancer.AfterGoesOn | pkg/revproxy/lb.go:185-188 | Each later attempt came after one that had an upstream left to it, and with two distinct upstreams it goes to another one. |
| LoadBalancer.AfterStuck | pkg/revproxy/lb.go:126-144 | A request stops before the maximum only where no upstream is left to it. |
| LoadBalancer.LoadBalancer.Connect | pkg/revproxy/upstream.go:66 | One connection and one open frame more. |
| LoadBalancer.LoadBalancer.Disconnect | pkg/revproxy/upstream.go:67 | One of each less. |
| Proxy.ConnectionsAreFrames | pkg/revproxy/upstream.go:65-69 | Under every interleaving of any number of requests each connection counter is the open frames of its upstream, and back at zero when no request is in flight. |
| Proxy.AttemptsBounded | pkg/revproxy/lb.go:165-192 | Whatever other requests do, to the counters or to the client's session, a request makes at most max(1, RetryMax) attempts, and on a list with two distinct upstreams never two in a row to the same one. |
| Proxy.EndsAfterAll | pkg/revproxy/lb.go:165-192 | A request that is over was served, or refused after exactly max(1, RetryMax) attempts, or had no upstream left; so with one upstream on the list or two distinct ones, one that was not served had all its attempts. |
| Proxy.GivenAnother | pkg/revproxy/lb.go:76-163 | What `Next` gives a request, through its client's session with all its concurrent calls or without one, is not the upstream it failed at. |
| Proxy.SessionsKept | pkg/revproxy/lb.go:80-119 | The session of each client is a run of the session protocol whose calls are the requests' own. |
| Proxy.StepKeepsInv | pkg/revproxy/upstream.go:37-55 | Every step of every request keeps: counters are frames, frames are the attempts still open, the retry count is the failures so far, the previous upstream is the last one tried and what its call to `Next` reports. |
| Proxy.StepsBounded | pkg/revproxy/lb.go:165-192 | A request takes at most 6 * max(1, RetryMax) + 3 steps of its own in any run, outside the turns of `Next`. |
| Proxy.TurnsBounded | pkg/revproxy/lb.go:91-106 | The turns of `Next` in a client's session are bounded by the number of requests alone. |
| Proxy.EveryRequestEnds | pkg/revproxy/lb.go:165-192 | A run with r requests, of any interleaving, has at most r + m + r * m * (6 + 4 m) steps in all, with m = r * (6 * max(1, RetryMax) + 3): every request ends. |
| StickySession.NextEnds | pkg/revproxy/lb.go:91-106 | However n calls of `Next` interleave on one session, their compare-and-swap loops take at most n * (6 + 4 n) turns in all. |
| Proxy.RequestMoves | pkg/revproxy/lb.go:165-192 | A request that is not over always has a step to take. |
| StickySession.CellChange | pkg/revproxy/lb.go:91-106 | A step changes the session only from nil or from the stepping call's own `retry`, and a call answers with what the session holds at that moment. |
| StickySession.FailOverIsReported | pkg/revproxy/lb.go:111-119 | A session leaves upstream u only by a step of a call that reports u. |
| StickySession.StickyForWholeRun | pkg/revproxy/lb.go:80-119 | While no call carries a retry, all non-nil answers of the whole run are the same upstream, even if the list changes. |
| StickySession.NeverTheFailedOne | pkg/revproxy/lb.go:94-97 | With two distinct upstreams on an unchanging list, no call answers with the one it reports, whatever other calls do to the session. |
| StickySession.NilOnlyWithout | pkg/revproxy/lb.go:126-144 | On an unchanging list a call answers with nil only if none is left to pick. |
| ArgReader.ArgReader.Read | pkg/automarshal/reader.go:35-41 | The next character or end of input; the cursor stays in the buffer. |
| ArgReader.ArgReader.Skipspace | pkg/automarshal/reader.go:89-100 | Stops at the first character that is not a space, wherever it is. |
| ArgReader.ArgReader.TakeIf | pkg/automarshal/reader.go:63-74 | Whether the next significant character is the given one; on a mismatch only spaces are gone. |
| ArgReader.ArgReader.TakeAnyN | pkg/automarshal/reader.go:43-62 | The longest run of characters of the set. |
| ArgReader.ArgReader.Quoted | pkg/automarshal/reader.go:106-125 | Text to the closing quote with escapes resolved, or end of input. |
| ArgReader.ArgReader.IdTail | pkg/automarshal/reader.go:156-202 | The turns of the loop after the first: identifier characters, dashes made underscores when tiling. |
| ArgReader.ArgReader.ID | pkg/automarshal/reader.go:153-203 | An identifier as the grammar reads it; anything else reads as end of input. |
| ArgReader.ArgReader.Number | pkg/automarshal/reader.go:363-369 | The numeric run, given to the number library; its failures. |
| ArgReader.ArgReader.Any | pkg/automarshal/reader.go:370-392 | On every text ends with the cursor in the buffer, reading exactly what the grammar reads of a value, with its error. |
| ArgReader.ArgReader.Assign | pkg/automarshal/reader.go:204-214 | The sign and a value, or the error of the missing sign. |
| ArgReader.ArgReader.Object | pkg/automarshal/reader.go:318-341 | Ends on every text, with the fields or the first error. |
| ArgReader.ArgReader.Array | pkg/automarshal/reader.go:342-359 | Ends on every text, with the items or the first error. |
| ArgReader.ArgReader.Set | pkg/automarshal/reader.go:241-272 | Ends on every text, with the settings, braced or as pairs, flags included, or the first error; what it reads is in `ArgRoundTrip.BracedArguments` and `CommandLineExact`. |
| ArgGrammar.Any | pkg/automarshal/reader.go:370-392 | Every successful read of a value takes at least one character and none past the end: the measure on which the mutual recursion ends. |
| ArgRoundTrip.RoundTrip | pkg/automarshal/reader.go:318-392 | A printed document of any nesting is read as its value and reading stops exactly at its end, whatever follows. |
| ArgRoundTrip.ReadText | pkg/automarshal/reader.go:106-125 | Text in either quote, with that quote and backslashes escaped, is read back unchanged. |
| ArgRoundTrip.BracedArguments | pkg/automarshal/reader.go:244-246 | Arguments printed as an object in braces, after any spaces, are read by `Set` as exactly its fields, stopping at the closing brace, whatever follows. |
| ArgRoundTrip.Characters | pkg/automarshal/reader.go:19-20 | The sets of spaces, quotes, numeric and identifier characters hold exactly the characters listed. |
| ArgRoundTrip.NumberOrError | pkg/automarshal/reader.go:363-369 | A numeric token is given whole to the number library, whose refusal is the error. |
| ArgRoundTrip.NoValue | pkg/automarshal/reader.go:370-391 | Any other first character is the error, and nothing at all the end of input. |
| ArgRoundTrip.EveryValueReadsBack | pkg/automarshal/reader.go:370-392 | Every nested value of objects, arrays, strings and numbers has a text that reads back as it. |
| ArgRoundTrip.ReadHasPrinting | pkg/automarshal/reader.go:370-392 | Whatever text is read, the value is one of those: keys come out without dashes. |
| ArgRoundTrip.ReadPrintRead | pkg/automarshal/reader.go:370-392 | Reading, printing and reading again gives the same value. |
| ArgRoundTrip.ColonNeedsSpace | pkg/automarshal/reader.go:19 | A printed object in which one key has its colon against it is rejected for a missing colon, for every key and value and any fields before and after. |
| CommandLine.AppendOption | pkg/client/main.go:199-213 | One turn of the loop appends the quoted option and a space. |
| CommandLine.SplitArgs | pkg/client/main.go:192-215 | The loop's body is the first non-empty positional argument, its string all options quoted in order. |
| CommandLine.BodyIsFirst | pkg/client/main.go:193-197 | The body is the first argument that is neither empty nor begins with a dash; without one it is empty. |
| CommandLine.DashesAreOptional | pkg/automarshal/reader.go:249-251 | An option may have two dashes, one or none. |
| CommandLine.TileAt | pkg/automarshal/reader.go:169-173 | In a key each dash becomes an underscore and nothing else changes. |
| CommandLine.QuotedExactly | pkg/client/main.go:203-208 | Of a value the client quotes, one with a space, the reader gives back the value, stopping after the closing quote, if and only if it has no backslash. |
| CommandLine.ReadShown | pkg/client/main.go:199-212 | An identifier, a number, or text with a space and no backslash is read back from the argument string as itself. |
| CommandLineExact.ReadBackExactly | pkg/client/main.go:199-212 | For every value, what the client writes of it, quoted or not, is read back as that value up to its end if and only if it is an identifier, a number, or has a space and no backslash. |
| CommandLineExact.OptionReadsExactly | pkg/client/main.go:191-215 | For every value of the last option, after arguments that survive, `Set` returns exactly the settings given, with nothing left over, if and only if the value survives; a lost one is not found again later. |
| CommandLineExact.PathsAreErrors | pkg/automarshal/reader.go:385-390 | Any value that starts with a slash and has no space makes the whole command line an error. |
| CommandLineExact.PathExample | pkg/client/main.go:210-212 | `--path=/usr` is such a command line. |
| CommandLineExact.StopsAtQuotedWhole | pkg/client/main.go:205-209 | At an option quoted as a whole `Set` stops without an error: the settings before it are returned, it and the rest stay unread. |
| CommandLineExact.WholeIsQuoted | pkg/client/main.go:206-208 | What the client writes of such an option is that option as quoted text if and only if it has no backslash. |
| CommandLineExact.KeyNeedsSign | pkg/automarshal/reader.go:204-214 | A key is rejected for a missing sign if and only if the next significant character is not one. |
| CommandLineExact.VerboseExample | pkg/automarshal/reader.go:75-80 | `--verbose` is an error. |
| CommandLineExact.FlagExactly | pkg/automarshal/reader.go:259-269 | A key becomes a flag, and reading ends, if and only if reading the value after its sign meets the end of input. |
| CommandLineExact.FlagIsTrue | pkg/automarshal/reader.go:261-266 | A flag reads as true; `args`, unless set, then holds its key; nothing else changes. |
| CommandLineExact.OpenQuoteIsFlag | pkg/automarshal/reader.go:106-125 | A quote left open after the sign makes a flag with no error. |
| CommandLineExact.BadKeyIsFlag | pkg/automarshal/reader.go:331-334 | So does an object whose first key is no identifier. |
| CommandLine.CommandLineRoundTrip | pkg/client/main.go:191-215 | For any list of arguments whose values survive, `Set` after the client's quoting returns exactly the settings given. |
| CommandLine.SettingsAreTheOptions | pkg/automarshal/reader.go:252-270 | Those settings hold, for each key, the value of the last option with it, and nothing else. |
| LineWriter.Writer.Flush | pkg/clog/writer.go:70-83 | Hooks and stream get the buffer, which is emptied; the error is the stream's. |
| LineWriter.Writer.WritePiece | pkg/clog/writer.go:86-97 | A piece extends the line in the buffer, stamped when it starts one; a line's end flushes the whole line. |
| LineWriter.Writer.WriteNext | pkg/clog/writer.go:46-56 | One turn of the loop takes the first line, or all of a piece without a newline. |
| LineWriter.Writer.ForEachLine | pkg/clog/writer.go:44-58 | Counts the bytes up to the last newline only. |
| LineWriter.Writer.Write | pkg/clog/writer.go:85-99 | The writer then holds the text so far with the input at its end; the hooks were called once for each newline; the offset after the last newline is returned, with the error of the last flush. |
| LineWriter.Writer.WriteAll | pkg/clog/writer.go:85-99 | After any split of a text into writes, the writer holds that text. |
| LineWriter.ChunkInvariance | pkg/clog/writer.go:44-99 | Writers given the same bytes in any pieces agree; bytes sent plus buffer are the byte-by-byte log with the prefix before each line; hooks got exactly the whole lines. |
| LineWriter.RenderIsLines | pkg/clog/writer.go:90-96 | The byte-by-byte log of a text is its stamped lines and the stamped rest. |
| LineWriter.LinesAreTheText | pkg/clog/writer.go:44-58 | The whole lines and the rest make up the text. |
| LineWriter.LinesAreWhole | pkg/clog/writer.go:52-53 | Each line has one newline, at its end. |
| LineWriter.FirstLineIs | pkg/clog/writer.go:47-52 | A line ends at byte 10 and holds no other. |
| LineWriter.LastNewlineIs | pkg/clog/writer.go:44-58 | What is left after the last line holds none. |
| LineWriter.LinesAdd | pkg/clog/writer.go:85-97 | A split anywhere loses and adds no line. |
| LineInterleaving.WholeExactly | pkg/clog/writer.go:86-97 | Of pieces in the order they came under the lock, each line of the log is one piece of one write if and only if no piece that leaves a line open comes before one that ends a line. |
| LineInterleaving.LinesStayWhole | pkg/clog/writer.go:85-99 | For any concurrent writes, no order of the lock mixes two in a line if and only if no write leaves its last line open while another has a line; so never when all end with a newline. |
| LineInterleaving.MergeAt | pkg/clog/writer.go:86-97 | In every interleaving the pieces of each write come in its own order. |
| LineInterleaving.WritePieces | pkg/clog/writer.go:86-97 | After any pieces in any order the writer holds their concatenation. |
| BufferedEvents.StepKeepsInv | pkg/job/trigger_event.go:61-72 | Every step keeps: the counter is the signals outstanding, and someone drains, one only, exactly when it is positive. |
| BufferedEvents.OneCallbackPerSignal | pkg/job/trigger_event.go:61-72 | With fewer than 2^31 outstanding and no Remove: callbacks never overlap, a drainer exists or is being started if and only if the counter is positive, and at quiescence callbacks run equal signals sent. |
| BufferedEvents.CountOffAfterRemove | pkg/job/trigger_event.go:53-66 | In any run since a Remove, the first count-off goes on draining if and only if no signal has been counted since, and then the counter has wrapped to its largest value. |
| BufferedEvents.RemoveDuringDrainRunsOn | pkg/job/trigger_event.go:52-71 | From any state, a Remove during a callback makes the drainer run it any number of times more, up to 2^31 - 1, with no signal. |
| BufferedEvents.RemoveRunsOn | pkg/job/trigger_event.go:52-71 | The same whenever someone drains: in the callback, between it and its count-off, or about to be started. |
| BufferedEvents.RemoveSilencesExactly | pkg/job/trigger_event.go:52-71 | No callback starts after a Remove, in any run with fewer than 2^31 further signals, if and only if nothing was outstanding. |
| BufferedEvents.RemoveWhileIdleSilences | pkg/job/trigger_event.go:52-60 | After a Remove with nothing outstanding no callback ever runs, for fewer than 2^31 signals. |

## Left out

- Options.RescaleKeepsProduct: counts and periods are exact rationals with truncation, where the code divides floats; it needs a non-negative product, because the code's conversion of a negative or huge float to an unsigned integer is up to the platform.
- Retry.WaitBounds: waits are reals; rounding of floats and the overflow of a duration for an extreme backoff are not modelled.
- Retry.RateBound: the time of a grant is the clock as read for its tick, and the clock never goes back.
- Retry.StopSafety: a stopper's look at the current attempt and its call on it are one step; the attempt it stops or kills can change in between only when that attempt is already done. The status field and `Inspect`, `Traverse` and `Report` are not modelled.
- RetryState.RetryState.DisableRetries: one caller's loop against an arbitrary finite list of interfering writes; all callers and Run together are in `Retry`.
- Must.StopTakesEffect: the enforcing goroutine's own steps take no time; scheduling delays would add to the bound.
- Must.CauseTellsWhy: a task does not exit with the ok sentinel itself, which no task returns.
- JobProgress.EveryCallCanEnd: a Stop that missed an attempt waits, with the lock, until the task ends by itself; that tasks can end is assumed.
- Job.AtMostOneLive: the context of the job stays live, as it does until the job is dropped; `Job.KillBreaksExactly` shows that its condition on Kills is needed.
- TaskTree.FatalClimbs: runs of tasks with the pipes they came from; that a stop of the parent reaches its children is not modelled, and attempts cut short are any result at all.
- PipeOutcome.PipeEnds: a launched subtask is taken to deliver in the end; a subtask that never does keeps the pipe waiting, in the code as well.
- Pipe.RunKeepsInv: `left` is an integer, where the code has an int32 that would wrap at 2^31 subtasks; a pipe with no subtasks returns a nil channel and has no run.
- LoadBalancer.LoadBalancer.Next: nobody else is at the session during the call; concurrent calls are in `StickySession`. The CRC of the client's address is an arbitrary function, the random start any place, and the int32 connection counter does not wrap.
- LoadBalancer.LoadBalancer.ServeHTTP: one request at a time (concurrent ones are in `Proxy`); the proxied call is an outcome, from any list of them, and the list of upstreams does not change during the request.
- Proxy.AttemptsBounded: the list of upstreams does not change, and a pick is any that `StickySession.Selectable` allows, whatever the loads.
- CommandLineExact.OptionReadsExactly: the last option only; after an option that is lost the text is read out of step, and a later option with the same key can set it again.
- ArgReader.ArgReader.Object: a file named by `@` gives an error here; reading files is not part of this model.
- ArgReader.ArgReader.Number: the number library is a parse and a print function with no law but the one a statement asks for.
- ArgReader.ArgReader.ID: its branches for quotes are omitted, as no text reaches them: a quote is not an identifier character and has been put back before.
- ArgReader.ArgReader.IdTail: the later turns of the loop of `ID`, as a method of its own; so are `Writer.WriteNext` and `CommandLine.AppendOption` turns of their loops, and `LoadBalancer.SelectAgain`, `LoadBalancer.Retry`, `LoadBalancer.Handle`, `LoadBalancer.Connect` and `LoadBalancer.Disconnect` parts of the two methods `ServeHTTP`.
- ArgReader.ArgReader.Set: a file named by `@` gives an error here too.
- LineWriter.Writer.Write: writes come one after another; those that come together are in `LineInterleaving`. The prefix of line k is any function of k, which covers timestamps; hooks are one list of calls, and an owner without timestamp and namespace has an empty prefix.
- BufferedEvents.RemoveWhileIdleSilences: the subscriber list is not modelled; `Listen` never sets the event, so `Remove` would find none.
- `Text`, `TakePath`, `Unmarshal`, JSON and JavaScript conversion: thin over libraries.
- Process launching, memory inspection, HTTP, RPC, ciphers, sessions in the store, settings and the terminal UI: calls into systems outside the model.
- `TaskWithOpts` and `TaskEx` in `NewWorker`: no task implements them.
- `MinUptime`, `Max` and `Clamp` of durations beyond their use in defaults, parsing of sizes and rates: easy members.
