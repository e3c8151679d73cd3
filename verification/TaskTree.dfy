/** Trees of workers and pipes of any depth, as they ran with nobody outside
    cancelling: a non-retriable failure that ends a pipe climbs to the root, and no
    worker on its way starts another attempt. */
module TaskTree {
  import opened Errors
  import Must
  import Pipe
  import PipeOutcome
  import Retry

  /** How a task ran: a process with its result, or a pipe with the runs of its
      subtasks' workers, the results they would deliver, and the schedule it had. */
  datatype TaskRun =
    | Leaf(result: Err)
    | PipeRun(mode: Pipe.Mode, workers: seq<WorkerRun>, results: seq<Err>, schedule: seq<Pipe.Action>, end: Pipe.State)

  /** How an attempt ended: by its task, before the minimum uptime or after it, or
      cut short by a cancel from elsewhere (a timeout, the memory guard, a stop, the
      end of the pipe it ran for), with whatever cause that had. */
  datatype Ending = Early | Served | Cut(cause: Err)

  datatype Attempt = Attempt(task: TaskRun, ending: Ending)

  /** A worker's run: its attempts and, unless retries are disabled, the schedule its
      retry protocol had, from what start and to what end. */
  datatype WorkerRun =
    | MustRun(attempt: Attempt)
    | RetryRun(config: Retry.Config, now: nat, parentDone: bool, schedule: seq<Retry.Action>, end: Retry.State,
               tries: seq<Attempt>)

  function Attempts(w: WorkerRun): seq<Attempt>
  {
    match w
    case MustRun(attempt) => [attempt]
    case RetryRun(_, _, _, _, _, tries) => tries
  }

  function TaskResult(t: TaskRun): Err
  {
    match t
    case Leaf(result) => result
    case PipeRun(_, _, _, _, end) => if end.launcher.Returned? then end.launcher.result else None
  }

  /** What the one-attempt worker's Run returns for it. */
  function AttemptResult(a: Attempt): Err
  {
    match a.ending
    case Early => Must.ReportedEarly(TaskResult(a.task))
    case Served => Must.Reported(TaskResult(a.task))
    case Cut(cause) => cause
  }

  /** What the worker's Run returns. */
  function WorkerResult(w: WorkerRun): Err
  {
    match w
    case MustRun(attempt) => AttemptResult(attempt)
    case RetryRun(_, _, _, _, end, _) => if end.run.Finished? then end.run.err else None
  }

  /** The pipe ran by some schedule, uncancelled, to its end, and each result that
      was delivered is what the subtask's worker returned.  Nothing is asked of the
      subtasks that never delivered. */
  ghost predicate RanTask(t: TaskRun)
    decreases t
  {
    match t
    case Leaf(_) => true
    case PipeRun(mode, workers, results, schedule, end) =>
      && PipeOutcome.Reached(mode, results, schedule, end)
      && end.launcher.Returned? && !end.parent
      && |workers| == |results|
      && (forall i :: i in end.log && i < |workers| ==> RanWorker(workers[i]) && WorkerResult(workers[i]) == results[i])
  }

  /** A retry worker ran by some schedule of its protocol until its Run finished; the
      results Run got are those of its attempts.  An attempt Run got no result for was
      cut short, and one that was cut short left its task however it was. */
  ghost predicate RanWorker(w: WorkerRun)
    decreases w
  {
    && (w.RetryRun? ==>
          && Retry.Reached(w.config, w.now, w.parentDone, w.schedule, w.end)
          && w.end.run.Finished?
          && |w.end.attempts| == |w.tries|
          && forall k :: 0 <= k < |w.tries| ==>
               if k < |w.end.results| then w.end.results[k] == AttemptResult(w.tries[k]) else w.tries[k].ending.Cut?)
    && (w.MustRun? ==> w.attempt.ending.Cut? || RanTask(w.attempt.task))
    && (w.RetryRun? ==> forall k :: 0 <= k < |w.tries| ==> w.tries[k].ending.Cut? || RanTask(w.tries[k].task))
  }

  /** One level of a path down the tree: an attempt of the worker and, if the path
      goes on, the delivery that ended its pipe. */
  datatype Step = Step(attempt: nat, delivery: nat)

  /** The delivery that decided the pipe's cause. */
  ghost predicate Decided(t: TaskRun, delivery: nat)
  {
    && t.PipeRun? && delivery < |t.end.log| && t.end.log[delivery] < |t.workers|
    && match t.mode
       case Ordered | Parallel | Cluster => PipeOutcome.FirstFailure(t.end, delivery)
       case Race => delivery == 0
       case Any => false
  }

  /** The path leads from the worker, by deliveries that decided pipes, to a task
      that ended with a non-retriable error. */
  ghost predicate LeadsToFatal(w: WorkerRun, path: seq<Step>)
    decreases |path|
  {
    && path != [] && path[0].attempt < |Attempts(w)| && !Attempts(w)[path[0].attempt].ending.Cut?
    && var task := Attempts(w)[path[0].attempt].task;
       if |path| == 1 then Is(TaskResult(task), ErrNonRetriable)
       else Decided(task, path[0].delivery) && LeadsToFatal(task.workers[task.end.log[path[0].delivery]], path[1..])
  }

  /** Every attempt on the path is the last one of its worker. */
  ghost predicate AllLast(w: WorkerRun, path: seq<Step>)
    decreases |path|
  {
    path != [] ==>
      && path[0].attempt == |Attempts(w)| - 1
      && (|path| > 1 ==>
            var task := Attempts(w)[path[0].attempt].task;
            && Decided(task, path[0].delivery)
            && AllLast(task.workers[task.end.log[path[0].delivery]], path[1..]))
  }

  /** A one-attempt worker passes a non-retriable error on as it is, early or not. */
  lemma FatalPassesAttempt(a: Attempt)
    requires Is(TaskResult(a.task), ErrNonRetriable) && !a.ending.Cut?
    ensures AttemptResult(a) == TaskResult(a.task)
  {
    IsLooksAtRoot(TaskResult(a.task).value, ErrNonRetriable);
  }

  /** And a retry worker finds it not retriable, whatever its options. */
  lemma FatalPassesWorker(c: Retry.Config, a: Attempt)
    requires Is(TaskResult(a.task), ErrNonRetriable) && !a.ending.Cut?
    ensures AttemptResult(a) == TaskResult(a.task)
    ensures !Retry.RetriableError(c, AttemptResult(a))
  {
    FatalPassesAttempt(a);
  }

  // ---- The attempt and the worker it belongs to ----

  /** Attempt `k` of a retry worker is this one-attempt worker: their context is the
      same one. */
  predicate IsAttempt(r: Retry.State, k: nat, m: Must.State)
  {
    k < |r.attempts| && (r.attempts[k] <==> m.cause.None?)
  }

  /** When the context of the attempt it waits for is done, or the attempt's Run has
      returned, with whatever result, the retry worker's Run goes on: the guard of
      `Retry.AttemptReported` is what the one-attempt worker guarantees. */
  lemma AttemptReports(r: Retry.State, opts: Must.Options, now: int, schedule: seq<Must.Action>, m: Must.State,
                       err: Err)
    requires Must.Run(Must.Init(opts, now), schedule) == Some(m)
    requires r.run.Wait? && r.attempts != [] && IsAttempt(r, |r.attempts| - 1, m)
    ensures Retry.Enabled(r, Retry.AttemptReported(err)) <==> m.cause.Some?
    ensures m.run.Returned? ==> Retry.Enabled(r, Retry.AttemptReported(err))
  {
    if m.run.Returned? {
      Must.RunReturnsDone(opts, now, schedule, m);
    }
  }

  lemma WrappedIsFatal(e: Error)
    ensures Is(Some(NonRetriable(e)), ErrNonRetriable)
  {
    IsLooksAtRoot(NonRetriable(e), ErrNonRetriable);
  }

  /** The error at position `delivery` decides a pipe: the pipe ends with it, as it is
      or wrapped as non-retriable. */
  lemma FatalPassesPipe(t: TaskRun, delivery: nat)
    requires RanTask(t) && Decided(t, delivery)
    requires Is(t.results[t.end.log[delivery]], ErrNonRetriable)
    ensures Is(TaskResult(t), ErrNonRetriable)
    ensures t.mode.Ordered? || t.mode.Race? ==> TaskResult(t) == t.results[t.end.log[delivery]]
  {
    var e := t.results[t.end.log[delivery]];
    IsLooksAtRoot(e.value, ErrNonRetriable);
    Pipe.RunKeepsInv(t.mode, t.results, t.schedule, t.end);
    if t.mode.Race? {
      PipeOutcome.RaceOutcome(t.results, t.schedule, t.end);
    } else {
      PipeOutcome.FailFastOutcome(t.mode, t.results, t.schedule, t.end);
      FirstFailureUnique(t.end, delivery);
      WrappedIsFatal(e.value);
    }
  }

  lemma FirstFailureUnique(s: Pipe.State, k: nat)
    requires PipeOutcome.FirstFailure(s, k)
    ensures !PipeOutcome.AllSucceeded(s)
    ensures forall j: nat :: PipeOutcome.FirstFailure(s, j) ==> j == k
  {
    forall j: nat | PipeOutcome.FirstFailure(s, j) ensures j == k {
      assert j <= k && k <= j;
    }
  }

  /** A retry worker whose attempt ended with a non-retriable result made no other
      after it, and returns that result: derived from the retry protocol itself. */
  lemma FatalIsLast(w: WorkerRun, k: nat)
    requires RanWorker(w) && k < |Attempts(w)| && !Attempts(w)[k].ending.Cut?
    requires Is(AttemptResult(Attempts(w)[k]), ErrNonRetriable)
    ensures k == |Attempts(w)| - 1 && WorkerResult(w) == AttemptResult(Attempts(w)[k])
  {
    if w.RetryRun? {
      Retry.RetriedOnlyRetriable(w.config, w.now, w.parentDone, w.schedule, w.end);
      assert w.end.results[k] == AttemptResult(w.tries[k]);
      IsLooksAtRoot(AttemptResult(w.tries[k]).value, ErrNonRetriable);
    }
  }

  lemma AttemptRan(w: WorkerRun, k: nat)
    requires RanWorker(w) && k < |Attempts(w)| && !Attempts(w)[k].ending.Cut?
    ensures RanTask(Attempts(w)[k].task)
  {
  }

  /** For trees of any depth, with any attempts elsewhere cut short: a non-retriable
      error that ends a task climbs, by the deliveries that end the pipes above it,
      to the result of the root, and every worker on the way was in its last attempt:
      none starts another. */
  lemma {:induction false} FatalClimbs(w: WorkerRun, path: seq<Step>)
    requires RanWorker(w) && LeadsToFatal(w, path)
    ensures Is(WorkerResult(w), ErrNonRetriable) && AllLast(w, path)
    decreases |path|
  {
    var k := path[0].attempt;
    var a := Attempts(w)[k];
    AttemptRan(w, k);
    if |path| > 1 {
      var i := a.task.end.log[path[0].delivery];
      assert i in a.task.end.log && RanWorker(a.task.workers[i]);
      FatalClimbs(a.task.workers[i], path[1..]);
      FatalPassesPipe(a.task, path[0].delivery);
    }
    FatalPassesAttempt(a);
    FatalIsLast(w, k);
  }

  /** A parallel pipe or a cluster that fails is such a task, whatever the error. */
  lemma ParallelFailureIsFatal(t: TaskRun)
    requires RanTask(t) && t.PipeRun? && (t.mode.Parallel? || t.mode.Cluster?) && TaskResult(t).Some?
    ensures Is(TaskResult(t), ErrNonRetriable)
  {
    PipeOutcome.FailFastOutcome(t.mode, t.results, t.schedule, t.end);
    var k: nat :| PipeOutcome.FirstFailure(t.end, k) &&
      var e := NotOk(t.end.results[t.end.log[k]].value);
      t.end.launcher.result == if e.Some? then Some(NonRetriable(e.value)) else e;
    WrappedIsFatal(NotOk(t.end.results[t.end.log[k]].value).value);
  }

  /** An `any` pipe stops the climb: it never ends with an error. */
  lemma AnyStopsTheClimb(t: TaskRun)
    requires RanTask(t) && t.PipeRun? && t.mode.Any?
    ensures TaskResult(t) == None
  {
    PipeOutcome.AnyOutcome(t.results, t.schedule, t.end);
  }

  /** A pipe of one subtask that failed ends, and its failure decides it. */
  lemma SingleFails(mode: Pipe.Mode, e: Error) returns (schedule: seq<Pipe.Action>, end: Pipe.State, k: nat)
    requires !mode.Any?
    ensures PipeOutcome.Reached(mode, [Some(e)], schedule, end) && end.launcher.Returned? && !end.parent
    ensures end.results == [Some(e)] && k < |end.log|
    ensures if mode.Race? then k == 0 else PipeOutcome.FirstFailure(end, k)
    ensures forall i :: 0 <= i < |end.log| ==> end.log[i] == 0
  {
    var start := Pipe.Init(mode, [Some(e)]);
    assert Pipe.Run(start, []) == Some(start);
    schedule, end := PipeOutcome.RunsToEnd(mode, [Some(e)], [], start);
    Pipe.RunKeepsInv(mode, [Some(e)], schedule, end);
    if mode.Race? {
      PipeOutcome.RaceOutcome([Some(e)], schedule, end);
      k := 0;
    } else {
      PipeOutcome.FailFastOutcome(mode, [Some(e)], schedule, end);
      assert end.results[0].Some?;
      k :| PipeOutcome.FirstFailure(end, k);
    }
  }

  lemma PipeRan(t: TaskRun, w: WorkerRun)
    requires t.PipeRun? && t.workers == [w] && |t.results| == 1 && RanWorker(w) && WorkerResult(w) == t.results[0]
    requires PipeOutcome.Reached(t.mode, t.results, t.schedule, t.end) && t.end.launcher.Returned? && !t.end.parent
    ensures RanTask(t)
  {
  }

  /** A retry worker whose only attempt is this one. */
  lemma RetryOver(a: Attempt) returns (w: WorkerRun)
    requires !a.ending.Cut? && RanTask(a.task) && Is(AttemptResult(a), ErrNonRetriable)
    ensures w.RetryRun? && Attempts(w) == [a] && RanWorker(w) && WorkerResult(w) == AttemptResult(a)
  {
    var done, s := Retry.ExampleGivesUp(AttemptResult(a));
    w := RetryRun(Retry.EXAMPLE, 0, false, done, s, [a]);
  }

  /** A pipe of one subtask, whose retry worker had one attempt. */
  lemma PipeOver(mode: Pipe.Mode, leaf: WorkerRun, e: Error) returns (task: TaskRun, k: nat)
    requires !mode.Any? && RanWorker(leaf) && WorkerResult(leaf) == Some(e) && Is(Some(e), ErrNonRetriable)
    ensures RanTask(task) && task.PipeRun? && task.mode == mode && task.workers == [leaf] && Decided(task, k)
    ensures task.end.log[k] == 0 && Is(TaskResult(task), ErrNonRetriable)
  {
    var schedule: seq<Pipe.Action>, end: Pipe.State;
    schedule, end, k := SingleFails(mode, e);
    task := PipeRun(mode, [leaf], [Some(e)], schedule, end);
    PipeRan(task, leaf);
    FatalPassesPipe(task, k);
  }

  /** Such trees exist: retry workers over a pipe over a retry worker, in every mode
      that can end with a failure, with a non-retriable error below. */
  lemma ClimbExample(mode: Pipe.Mode, e: Error) returns (w: WorkerRun, path: seq<Step>)
    requires !mode.Any? && Is(Some(e), ErrNonRetriable)
    ensures w.RetryRun? && RanWorker(w) && |path| == 2 && LeadsToFatal(w, path)
  {
    var below := Attempt(Leaf(Some(e)), Served);
    FatalPassesAttempt(below);
    var leaf := RetryOver(below);
    var task, k := PipeOver(mode, leaf, e);
    var above := Attempt(task, Served);
    FatalPassesAttempt(above);
    w := RetryOver(above);
    path := [Step(0, k), Step(0, 0)];
    assert path[1..] == [Step(0, 0)];
    assert LeadsToFatal(leaf, path[1..]);
  }
}
