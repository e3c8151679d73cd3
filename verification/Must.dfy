/** The one-attempt worker, in time: Stop callers, the after-done hook, the start
    watcher, the memory guard, the parent and Run itself, any of which may be the
    first to cancel.  Time passes only while the goroutine that enforces the stop
    timeout has nothing to do: its own steps take no time. */
module Must {
  import opened Errors

  datatype Options = Options(
    stopTimeout: int, startTimeout: int, execTimeout: int, minUptime: int, memoryLimited: bool)

  /** One call of `signalStop`; the goroutine it may start to enforce the timeout is
      its continuation. */
  datatype StopPc =
    | CheckDone
    | TakeChannel
    | CloseChannel
    | Decide
    | Arm
    | Select(deadline: int)
    | TimeOut
    | Over

  datatype RunPc =
    | Begin
    | Launching
    | Launched
    | Settling(deadline: int)
    | Serving(until: Option<int>)
    | Cancelling(result: Err, why: Why)
    | Returned(result: Err)

  /** Who the first cancel came from. */
  datatype Why =
    | StopTimedOut | NoStopTimeout | ByKill | ByParent
    | StartTimedOut | ExecTimedOut | MemoryExceeded | TaskEnded

  datatype State = State(
    opts: Options,
    now: int,
    cause: Option<Error>,
    why: Option<Why>,
    used: bool,
    winner: Option<nat>,
    closes: nat,
    closedAt: int,
    stops: seq<StopPc>,
    hooked: bool,
    watcher: Option<int>,
    launchedAt: int,
    run: RunPc)

  datatype Action =
    | StopCalled
    | DoneHook
    | StopStep(j: nat)
    | Kill
    | ParentDone(e: Error)
    | MemoryGuard
    | WatcherFires
    | WatcherLeaves
    | RunStep
    | SeeDone
    | Uptime
    | ExecFires
    | TaskExit(err: Err)
    | Advance(to: int)

  function Init(opts: Options, now: int): State
  {
    State(opts, now, None, None, false, None, 0, 0, [], false, None, now, Begin)
  }

  /** The first cancel fixes the cause. */
  function Cancel(s: State, e: Err, why: Why): State
  {
    if s.cause.None? then s.(cause := Some(OrOk(e)), why := Some(why)) else s
  }

  /** How an exit is reported: an error with another status becomes `Errored`. */
  function Reported(err: Err): Err
  {
    if err.Some? && StatusOf(err) != Status.Errored
    then Some(Wrapped(StatusError(Status.Errored), Message(err.value))) else err
  }

  /** An exit before the minimum uptime is always an error. */
  function ReportedEarly(err: Err): Err
  {
    if err.None? then Some(Wrapped(StatusError(Status.Errored), "quit too early")) else Reported(err)
  }

  /** The enforcing goroutine has something to do right now. */
  predicate Urgent(s: State, pc: StopPc)
  {
    pc.Decide? || pc.Arm? || pc.TimeOut? || (pc.Select? && (s.now >= pc.deadline || s.cause.Some?))
  }

  predicate CanMove(s: State, pc: StopPc)
  {
    if pc.Select? then s.now >= pc.deadline || s.cause.Some? else !pc.Over?
  }

  /** A task never exits with the sentinel that contexts keep for a nil cause:
      `util.Cause` maps it away and no task mentions it. */
  predicate Enabled(s: State, a: Action)
  {
    match a
    case StopCalled => true
    case DoneHook => s.cause.Some? && !s.hooked
    case StopStep(j) => j < |s.stops| && CanMove(s, s.stops[j])
    case Kill => true
    case ParentDone(_) => true
    case MemoryGuard => s.opts.memoryLimited && !s.run.Begin?
    case WatcherFires => s.watcher.Some? && s.now >= s.watcher.value
    case WatcherLeaves => s.watcher.Some? && (s.cause.Some? || !(s.run.Begin? || s.run.Launching?))
    case RunStep => s.run.Begin? || s.run.Launching? || s.run.Launched? || s.run.Cancelling?
    case SeeDone => s.cause.Some? && (s.run.Settling? || s.run.Serving?)
    case Uptime => s.run.Settling? && s.now >= s.run.deadline
    case ExecFires => s.run.Serving? && s.run.until.Some? && s.now >= s.run.until.value
    case TaskExit(err) => (s.run.Settling? || s.run.Serving?) && err != Some(ErrOk)
    case Advance(to) =>
      && s.now <= to
      && forall j :: 0 <= j < |s.stops| ==>
           !Urgent(s, s.stops[j]) && (s.stops[j].Select? ==> to <= s.stops[j].deadline)
  }

  function StopCall(s: State, j: nat): State
    requires Enabled(s, StopStep(j))
  {
    match s.stops[j]
    case CheckDone => s.(stops := s.stops[j := if s.cause.Some? then Over else TakeChannel])
    case TakeChannel =>
      if s.used then s.(stops := s.stops[j := Over])
      else s.(used := true, winner := Some(j), stops := s.stops[j := CloseChannel])
    case CloseChannel => s.(closes := s.closes + 1, closedAt := s.now, stops := s.stops[j := Decide])
    case Decide =>
      if s.opts.stopTimeout > 0 then s.(stops := s.stops[j := Arm])
      else Cancel(s, Some(StatusError(Status.Cancelled)), NoStopTimeout).(stops := s.stops[j := Over])
    case Arm => s.(stops := s.stops[j := Select(s.now + s.opts.stopTimeout)])
    case Select(deadline) =>
      s.(stops := s.stops[j := if s.cause.Some? then Over else TimeOut])
    case TimeOut => Cancel(s, Some(StatusError(TimeoutStop)), StopTimedOut).(stops := s.stops[j := Over])
  }

  function RunGoroutine(s: State): State
    requires Enabled(s, RunStep)
  {
    match s.run
    case Begin =>
      s.(run := Launching,
         watcher := if s.opts.startTimeout > 0 then Some(s.now + s.opts.startTimeout) else None)
    case Launching => s.(run := Launched, launchedAt := s.now)
    case Launched => s.(run := Settling(s.now + if s.opts.minUptime > 0 then s.opts.minUptime else 0))
    case Cancelling(result, why) => Cancel(s, result, why).(run := Returned(result))
  }

  function Apply(s: State, a: Action): State
    requires Enabled(s, a)
  {
    match a
    case StopCalled => s.(stops := s.stops + [CheckDone])
    case DoneHook => s.(hooked := true, stops := s.stops + [TakeChannel])
    case StopStep(j) => StopCall(s, j)
    case Kill => Cancel(s, Some(StatusError(Status.Cancelled)), ByKill)
    case ParentDone(e) => Cancel(s, Some(e), ByParent)
    case MemoryGuard => Cancel(s, Some(Other("memory limit exceeded")), MemoryExceeded)
    case WatcherFires => Cancel(s, Some(StatusError(TimeoutStart)), StartTimedOut).(watcher := None)
    case WatcherLeaves => s.(watcher := None)
    case RunStep => RunGoroutine(s)
    case SeeDone => s.(run := Returned(Cause(s.cause)))
    case Uptime => s.(run := Serving(if s.opts.execTimeout > 0 then Some(s.now + s.opts.execTimeout) else None))
    case ExecFires => s.(run := Cancelling(Some(StatusError(TimeoutExec)), ExecTimedOut))
    case TaskExit(err) =>
      s.(run := Cancelling(if s.run.Settling? then ReportedEarly(err) else Reported(err), TaskEnded))
    case Advance(to) => s.(now := to)
  }

  function Run(s: State, schedule: seq<Action>): Option<State>
  {
    if schedule == [] then Some(s)
    else
      var last := |schedule| - 1;
      match Run(s, schedule[..last])
      case None => None
      case Some(t) => if Enabled(t, schedule[last]) then Some(Apply(t, schedule[last])) else None
  }

  // ---- The stop channel and its timeout ----

  function StopTimeout(opts: Options): nat
  {
    if opts.stopTimeout > 0 then opts.stopTimeout else 0
  }

  predicate AfterTaking(pc: StopPc) { !pc.CheckDone? && !pc.TakeChannel? }

  /** One `signalStop` takes the channel; it alone closes it, and from then on it
      either still enforces the timeout, within it, or the context is done. */
  ghost predicate ChannelInv(s: State)
  {
    && (s.used <==> s.winner.Some?)
    && (forall j :: 0 <= j < |s.stops| && AfterTaking(s.stops[j]) && !s.stops[j].Over? ==> s.winner == Some(j))
    && (if s.winner.None? then s.closes == 0
        else
          && s.winner.value < |s.stops|
          && var pc := s.stops[s.winner.value];
             && AfterTaking(pc)
             && (if pc.CloseChannel? then s.closes == 0 else s.closes == 1 && s.closedAt <= s.now)
             && (pc.Decide? || pc.Arm? ==> s.now == s.closedAt)
             && (pc.Arm? || pc.Select? || pc.TimeOut? ==> s.opts.stopTimeout > 0)
             && (pc.Select? ==>
                   pc.deadline == s.closedAt + s.opts.stopTimeout && (s.now <= pc.deadline || s.cause.Some?))
             && (pc.TimeOut? ==> s.now <= s.closedAt + s.opts.stopTimeout || s.cause.Some?)
             && (pc.TimeOut? ==> s.now >= s.closedAt + s.opts.stopTimeout)
             && (pc.Over? ==> s.cause.Some?))
    && (s.hooked ==> s.cause.Some?)
    && (s.hooked ==> s.used || exists j :: 0 <= j < |s.stops| && s.stops[j].TakeChannel?)
  }

  // ---- Why the context is done ----

  function CauseFor(why: Why, result: Err): Option<Error>
  {
    match why
    case StopTimedOut => Some(StatusError(TimeoutStop))
    case NoStopTimeout => Some(StatusError(Status.Cancelled))
    case ByKill => Some(StatusError(Status.Cancelled))
    case StartTimedOut => Some(StatusError(TimeoutStart))
    case ExecTimedOut => Some(StatusError(TimeoutExec))
    case MemoryExceeded => Some(Other("memory limit exceeded"))
    case ByParent => None
    case TaskEnded => Some(OrOk(result))
  }

  /** A result the task's exit can be reported with: nil only after the minimum
      uptime, and any error is of status `Errored`. */
  ghost predicate TaskResult(s: State, result: Err)
  {
    if result.None? then s.now >= s.launchedAt + s.opts.minUptime
    else StatusOf(result) == Status.Errored
  }

  ghost predicate WhyInv(s: State)
  {
    && (s.cause.Some? <==> s.why.Some?)
    && (s.why.Some? && !s.why.value.ByParent? && !s.why.value.TaskEnded? ==> s.cause == CauseFor(s.why.value, None))
    && (s.why == Some(StopTimedOut) || s.why == Some(NoStopTimeout) ==> s.closes == 1)
    && (s.why == Some(ExecTimedOut) ==> s.opts.execTimeout > 0)
    && (s.why == Some(StartTimedOut) ==> s.opts.startTimeout > 0)
    && (s.watcher.Some? ==> s.opts.startTimeout > 0)
    && (s.run.Serving? && s.run.until.Some? ==> s.opts.execTimeout > 0)
    && (s.run.Cancelling? && s.run.why.ExecTimedOut? ==>
          s.run.result == Some(StatusError(TimeoutExec)) && s.opts.execTimeout > 0)
    && (s.run.Cancelling? ==> s.run.why.ExecTimedOut? || s.run.why.TaskEnded?)
    && (s.run.Returned? ==> s.cause.Some?)
  }

  ghost predicate ResultInv(s: State)
  {
    && s.launchedAt <= s.now
    && (s.run.Settling? ==> s.run.deadline >= s.launchedAt + s.opts.minUptime)
    && (s.run.Serving? ==> s.now >= s.launchedAt + s.opts.minUptime)
    && (s.run.Cancelling? && s.run.why.TaskEnded? ==> s.run.result != Some(ErrOk) && TaskResult(s, s.run.result))
    && (s.why == Some(TaskEnded) ==> s.cause.Some? && TaskResult(s, NotOk(s.cause.value)) && s.run.Returned?)
    && (s.run.Returned? ==>
          || s.run.result == Cause(s.cause)
          || TaskResult(s, s.run.result)
          || s.run.result == Some(StatusError(TimeoutExec)))
  }

  lemma ReportedIsErrored(err: Err)
    requires err != Some(ErrOk)
    ensures Reported(err).Some? <==> err.Some?
    ensures err.Some? ==> StatusOf(Reported(err)) == Status.Errored && Reported(err) != Some(ErrOk)
    ensures ReportedEarly(err).Some? && StatusOf(ReportedEarly(err)) == Status.Errored
    ensures ReportedEarly(err) != Some(ErrOk)
  {
    assert StatusOf(Some(StatusError(Status.Errored))) == Status.Errored;
    if err.Some? {
      assert StatusOf(Some(Wrapped(StatusError(Status.Errored), Message(err.value)))) == Status.Errored;
    }
    assert StatusOf(ReportedEarly(None)) == Status.Errored;
  }

  lemma StopCallKeepsChannel(s: State, j: nat)
    requires ChannelInv(s) && Enabled(s, StopStep(j))
    ensures ChannelInv(StopCall(s, j))
  {
    var t := StopCall(s, j);
    if s.hooked && !t.used {
      var k :| 0 <= k < |s.stops| && s.stops[k].TakeChannel?;
      assert t.stops[k].TakeChannel?;
    }
  }

  lemma CallKeepsChannel(s: State, a: Action)
    requires ChannelInv(s) && Enabled(s, a) && (a.StopCalled? || a.DoneHook?)
    ensures ChannelInv(Apply(s, a))
  {
    var t := Apply(s, a);
    assert forall j :: 0 <= j < |s.stops| ==> t.stops[j] == s.stops[j];
    if a.DoneHook? {
      assert t.stops[|s.stops|].TakeChannel?;
    } else if s.hooked && !s.used {
      var k :| 0 <= k < |s.stops| && s.stops[k].TakeChannel?;
      assert t.stops[k].TakeChannel?;
    }
  }

  lemma ChannelKept(s: State, a: Action)
    requires ChannelInv(s) && Enabled(s, a)
    ensures ChannelInv(Apply(s, a))
  {
    if a.StopStep? {
      StopCallKeepsChannel(s, a.j);
    } else if a.StopCalled? || a.DoneHook? {
      CallKeepsChannel(s, a);
    } else {
      assert Apply(s, a).stops == s.stops;
    }
  }

  predicate CancelledBy(s: State, t: State, why: Why)
  {
    s.cause.None? && t.cause == CauseFor(why, None) && t.why == Some(why) && t.closes == 1
  }

  /** A stop call touches the context only to cancel it, after the channel closed. */
  predicate StopFrame(s: State, t: State)
  {
    && t.opts == s.opts && t.now == s.now && t.watcher == s.watcher && t.run == s.run && t.launchedAt == s.launchedAt
    && (s.closes == 1 ==> t.closes == 1)
    && ((t.cause == s.cause && t.why == s.why) || CancelledBy(s, t, StopTimedOut) || CancelledBy(s, t, NoStopTimeout))
  }

  lemma StopCallFrame(s: State, j: nat)
    requires ChannelInv(s) && Enabled(s, StopStep(j))
    ensures StopFrame(s, StopCall(s, j))
  {
  }

  lemma FrameKeepsRun(s: State, t: State)
    requires WhyInv(s) && ResultInv(s) && StopFrame(s, t)
    ensures WhyInv(t) && ResultInv(t)
  {
  }

  lemma CancellingKeepsRun(s: State)
    requires WhyInv(s) && ResultInv(s) && s.run.Cancelling?
    ensures WhyInv(RunGoroutine(s)) && ResultInv(RunGoroutine(s))
  {
    var t := RunGoroutine(s);
    if s.cause.Some? {
      assert t == s.(run := Returned(s.run.result));
    } else {
      assert t.cause == Some(OrOk(s.run.result)) && t.why == Some(s.run.why);
    }
  }

  lemma RunStepKeepsRun(s: State)
    requires WhyInv(s) && ResultInv(s) && Enabled(s, RunStep)
    ensures WhyInv(RunGoroutine(s)) && ResultInv(RunGoroutine(s))
  {
    if s.run.Cancelling? {
      CancellingKeepsRun(s);
    } else {
      assert RunGoroutine(s).cause == s.cause && RunGoroutine(s).why == s.why;
    }
  }

  lemma CancelKeepsRun(s: State, a: Action)
    requires WhyInv(s) && ResultInv(s) && Enabled(s, a)
    requires a.Kill? || a.ParentDone? || a.MemoryGuard? || a.WatcherFires?
    ensures WhyInv(Apply(s, a)) && ResultInv(Apply(s, a))
  {
    assert Apply(s, a).run == s.run;
  }

  lemma OtherKeepsRun(s: State, a: Action)
    requires WhyInv(s) && ResultInv(s) && Enabled(s, a)
    requires a.StopCalled? || a.DoneHook? || a.WatcherLeaves? || a.SeeDone? || a.Uptime? || a.ExecFires? || a.Advance?
    ensures WhyInv(Apply(s, a)) && ResultInv(Apply(s, a))
  {
    assert Apply(s, a).cause == s.cause;
  }

  lemma TaskExitKeepsRun(s: State, err: Err)
    requires WhyInv(s) && ResultInv(s) && Enabled(s, TaskExit(err))
    ensures WhyInv(Apply(s, TaskExit(err))) && ResultInv(Apply(s, TaskExit(err)))
  {
    ReportedIsErrored(err);
  }

  lemma RunKept(s: State, a: Action)
    requires WhyInv(s) && ResultInv(s) && ChannelInv(s) && Enabled(s, a)
    ensures WhyInv(Apply(s, a)) && ResultInv(Apply(s, a))
  {
    match a
    case StopStep(j) => StopCallFrame(s, j); FrameKeepsRun(s, Apply(s, a));
    case RunStep => RunStepKeepsRun(s);
    case TaskExit(err) => TaskExitKeepsRun(s, err);
    case Kill | ParentDone(_) | MemoryGuard | WatcherFires => CancelKeepsRun(s, a);
    case _ => OtherKeepsRun(s, a);
  }

  lemma CauseKept(s: State, a: Action)
    requires Enabled(s, a)
    ensures s.cause.Some? ==> Apply(s, a).cause == s.cause && Apply(s, a).why == s.why
    ensures Apply(s, a).opts == s.opts && s.now <= Apply(s, a).now
  {
  }

  // ---- Timeouts come when they are due ----

  function MinUptime(opts: Options): nat
  {
    if opts.minUptime > 0 then opts.minUptime else 0
  }

  /** What Run and its watcher are waiting for, and until when. */
  predicate TimerInv(s: State, start: int)
  {
    && start <= s.launchedAt <= s.now
    && (s.run.Begin? ==> s.watcher.None?)
    && (s.run.Launching? && s.cause.None? ==> (s.watcher.Some? <==> s.opts.startTimeout > 0))
    && (s.watcher.Some? ==> start + s.opts.startTimeout <= s.watcher.value <= s.now + s.opts.startTimeout)
    && (s.run.Settling? ==>
          s.launchedAt + MinUptime(s.opts) <= s.run.deadline <= s.now + MinUptime(s.opts))
    && (s.run.Serving? ==>
          && s.launchedAt + MinUptime(s.opts) <= s.now
          && (s.run.until.Some? <==> s.opts.execTimeout > 0)
          && (s.run.until.Some? ==> ExecDue(s) <= s.run.until.value <= s.now + s.opts.execTimeout))
    && (s.run.Cancelling? && s.run.why.ExecTimedOut? ==> ExecDue(s) <= s.now)
  }

  function ExecDue(s: State): int { s.launchedAt + MinUptime(s.opts) + s.opts.execTimeout }

  /** No timeout gave the cause before it was due. */
  predicate DueInv(s: State, start: int)
  {
    && (s.why == Some(StopTimedOut) ==> s.closes == 1 && s.closedAt + s.opts.stopTimeout <= s.now)
    && (s.why == Some(NoStopTimeout) ==> s.opts.stopTimeout <= 0)
    && (s.why == Some(StartTimedOut) ==> start + s.opts.startTimeout <= s.now)
    && (s.why == Some(ExecTimedOut) ==> s.run.Returned? && ExecDue(s) <= s.now)
    && (s.why == Some(MemoryExceeded) ==> s.opts.memoryLimited)
  }

  /** Steps that leave Run, the watcher and the clock alone. */
  lemma TimersFrame(s: State, t: State, start: int)
    requires TimerInv(s, start) && t.opts == s.opts && t.now == s.now && t.run == s.run
    requires t.watcher == s.watcher && t.launchedAt == s.launchedAt && (t.cause.None? ==> s.cause.None?)
    ensures TimerInv(t, start)
  {
  }

  lemma StopIsDue(s: State, j: nat, start: int)
    requires DueInv(s, start) && ChannelInv(s) && Enabled(s, StopStep(j))
    ensures DueInv(StopCall(s, j), start)
  {
    var t := StopCall(s, j);
    assert t.run == s.run && t.now == s.now && t.launchedAt == s.launchedAt && t.opts == s.opts;
    if t.why == s.why {
      assert s.closes == 1 ==> t.closes == 1 && t.closedAt == s.closedAt;
    } else {
      assert t.closes == s.closes == 1 && t.closedAt == s.closedAt;
    }
  }

  lemma StopKeepsTimers(s: State, j: nat, start: int)
    requires TimerInv(s, start) && DueInv(s, start) && ChannelInv(s) && Enabled(s, StopStep(j))
    ensures TimerInv(StopCall(s, j), start) && DueInv(StopCall(s, j), start)
  {
    StopIsDue(s, j, start);
    StopCallFrame(s, j);
    TimersFrame(s, StopCall(s, j), start);
  }

  lemma CancelKeepsTimers(s: State, a: Action, start: int)
    requires TimerInv(s, start) && DueInv(s, start) && WhyInv(s) && Enabled(s, a)
    requires a.Kill? || a.ParentDone? || a.MemoryGuard? || a.StopCalled? || a.DoneHook?
    ensures TimerInv(Apply(s, a), start) && DueInv(Apply(s, a), start)
  {
    TimersFrame(s, Apply(s, a), start);
  }

  lemma WaitKeepsTimers(s: State, a: Action, start: int)
    requires TimerInv(s, start) && DueInv(s, start) && WhyInv(s) && Enabled(s, a)
    requires a.WatcherFires? || a.WatcherLeaves? || a.SeeDone? || a.Uptime? || a.ExecFires? || a.TaskExit? || a.Advance?
    ensures TimerInv(Apply(s, a), start) && DueInv(Apply(s, a), start)
  {
    assert Apply(s, a).launchedAt == s.launchedAt && Apply(s, a).opts == s.opts;
  }

  lemma RunKeepsTimers(s: State, start: int)
    requires TimerInv(s, start) && DueInv(s, start) && WhyInv(s) && Enabled(s, RunStep)
    ensures TimerInv(RunGoroutine(s), start) && DueInv(RunGoroutine(s), start)
  {
    var t := RunGoroutine(s);
    if !s.run.Cancelling? {
      assert t.cause == s.cause && t.why == s.why;
    } else {
      assert t.watcher == s.watcher && t.launchedAt == s.launchedAt;
    }
  }

  lemma TimersKept(s: State, a: Action, start: int)
    requires TimerInv(s, start) && DueInv(s, start) && ChannelInv(s) && WhyInv(s) && Enabled(s, a)
    ensures TimerInv(Apply(s, a), start) && DueInv(Apply(s, a), start)
  {
    match a
    case StopStep(j) => StopKeepsTimers(s, j, start);
    case RunStep => RunKeepsTimers(s, start);
    case Kill | ParentDone(_) | MemoryGuard | StopCalled | DoneHook => CancelKeepsTimers(s, a, start);
    case _ => WaitKeepsTimers(s, a, start);
  }

  ghost predicate Inv(s: State)
  {
    ChannelInv(s) && WhyInv(s) && ResultInv(s)
  }

  lemma {:induction false} RunKeepsInv(s: State, schedule: seq<Action>, t: State)
    requires Inv(s) && Run(s, schedule) == Some(t)
    ensures Inv(t) && t.opts == s.opts && s.now <= t.now
    ensures s.cause.Some? ==> t.cause == s.cause && t.why == s.why
  {
    if schedule != [] {
      var last := |schedule| - 1;
      var u := Run(s, schedule[..last]).value;
      RunKeepsInv(s, schedule[..last], u);
      ChannelKept(u, schedule[last]);
      RunKept(u, schedule[last]);
      CauseKept(u, schedule[last]);
    }
  }

  lemma {:induction false} RunKeepsTimersInv(opts: Options, now: int, schedule: seq<Action>, s: State)
    requires Run(Init(opts, now), schedule) == Some(s)
    ensures Inv(s) && s.opts == opts && TimerInv(s, now) && DueInv(s, now)
  {
    RunKeepsInv(Init(opts, now), schedule, s);
    if schedule != [] {
      var last := |schedule| - 1;
      var t := Run(Init(opts, now), schedule[..last]).value;
      RunKeepsTimersInv(opts, now, schedule[..last], t);
      TimersKept(t, schedule[last], now);
    }
  }

  /** The first cancel fixes the cause and who gave it, whatever happens after. */
  lemma CauseIsFixed(opts: Options, now: int, before: seq<Action>, s: State, after: seq<Action>, t: State)
    requires Run(Init(opts, now), before) == Some(s) && s.cause.Some? && Run(s, after) == Some(t)
    ensures t.cause == s.cause && t.why == s.why
  {
    RunKeepsInv(Init(opts, now), before, s);
    RunKeepsInv(s, after, t);
  }

  /** Under every interleaving the stop channel is closed at most once, and the
      context is done at most the stop timeout after that, whatever the task does. */
  lemma StopTakesEffect(opts: Options, now: int, schedule: seq<Action>, s: State)
    requires Run(Init(opts, now), schedule) == Some(s)
    ensures s.closes <= 1
    ensures s.closes == 1 && s.now > s.closedAt + StopTimeout(opts) ==> s.cause.Some?
  {
    RunKeepsInv(Init(opts, now), schedule, s);
  }

  /** Once the context is done, by whatever cancel, and the hook and every stop call
      have run, the stop channel is closed: subtasks are told to stop. */
  lemma DoneClosesChannel(opts: Options, now: int, schedule: seq<Action>, s: State)
    requires Run(Init(opts, now), schedule) == Some(s) && s.cause.Some?
    requires !Enabled(s, DoneHook) && forall j: nat :: !Enabled(s, StopStep(j))
    ensures s.closes == 1
  {
    RunKeepsInv(Init(opts, now), schedule, s);
    forall j | 0 <= j < |s.stops| ensures s.stops[j].Over? {
      assert !Enabled(s, StopStep(j));
    }
  }

  /** The assumption on time shuts out nothing: unless an enforcing goroutine has a
      step to take at once, time can pass. */
  lemma TimeCanPass(s: State)
    ensures || Enabled(s, Advance(s.now + 1))
            || exists j: nat :: j < |s.stops| && Urgent(s, s.stops[j]) && Enabled(s, StopStep(j))
  {
    if j: nat :| j < |s.stops| && Urgent(s, s.stops[j]) {
      assert Enabled(s, StopStep(j));
    }
  }

  /** Run returns only with the context done; so a retry worker that has its result
      has an attempt whose context is done. */
  lemma RunReturnsDone(opts: Options, now: int, schedule: seq<Action>, s: State)
    requires Run(Init(opts, now), schedule) == Some(s) && s.run.Returned?
    ensures s.cause.Some?
    ensures || s.run.result == Cause(s.cause)
            || s.run.result == Some(StatusError(TimeoutExec))
            || (s.run.result.Some? && StatusOf(s.run.result) == Status.Errored)
            || (s.run.result.None? && s.now >= s.launchedAt + opts.minUptime)
  {
    RunKeepsInv(Init(opts, now), schedule, s);
  }

  /** A cancel by the parent leaves the parent's own error as the cause. */
  lemma {:induction false} ParentGave(opts: Options, now: int, schedule: seq<Action>, s: State)
    requires Run(Init(opts, now), schedule) == Some(s) && s.why == Some(ByParent) && s.cause.Some?
    ensures exists k :: 0 <= k < |schedule| && schedule[k] == ParentDone(s.cause.value)
  {
    if schedule != [] {
      var last := |schedule| - 1;
      var t := Run(Init(opts, now), schedule[..last]).value;
      RunKeepsInv(Init(opts, now), schedule[..last], t);
      CauseKept(t, schedule[last]);
      if t.cause.Some? {
        ParentGave(opts, now, schedule[..last], t);
        var k :| 0 <= k < last && schedule[..last][k] == ParentDone(t.cause.value);
        assert schedule[k] == ParentDone(s.cause.value);
      } else {
        OnlyParentGives(t, schedule[last]);
      }
    }
  }

  lemma OnlyParentGives(s: State, a: Action)
    requires Enabled(s, a) && WhyInv(s) && s.cause.None? && Apply(s, a).why == Some(ByParent)
    ensures a.ParentDone? && Apply(s, a).cause == Some(a.e)
  {
  }

  /** The cause tells who cancelled first, and why, when and only with what leave: a
      timeout no sooner than it was due, and only one that is set; a stop only after
      the channel was closed; the parent with the parent's own error; or the task. */
  predicate ToldBy(s: State, start: int, why: Why)
  {
    match why
    case StopTimedOut =>
      && s.cause == Some(StatusError(TimeoutStop)) && s.closes == 1 && s.closedAt + s.opts.stopTimeout <= s.now
    case NoStopTimeout =>
      s.cause == Some(StatusError(Status.Cancelled)) && s.closes == 1 && s.opts.stopTimeout <= 0
    case ByKill => s.cause == Some(StatusError(Status.Cancelled))
    case StartTimedOut =>
      && s.cause == Some(StatusError(TimeoutStart)) && s.opts.startTimeout > 0
      && start + s.opts.startTimeout <= s.now
    case ExecTimedOut =>
      && s.cause == Some(StatusError(TimeoutExec)) && s.opts.execTimeout > 0
      && s.launchedAt + MinUptime(s.opts) + s.opts.execTimeout <= s.now
    case MemoryExceeded => s.cause == Some(Other("memory limit exceeded")) && s.opts.memoryLimited
    case TaskEnded =>
      s.cause.Some? &&
      if Cause(s.cause) == None then s.now >= s.launchedAt + s.opts.minUptime
      else StatusOf(s.cause) == Status.Errored
    case ByParent => true
  }

  lemma WhyTells(s: State, start: int)
    requires WhyInv(s) && ResultInv(s) && DueInv(s, start) && s.cause.Some?
    ensures s.why.Some? && ToldBy(s, start, s.why.value)
  {
  }

  /** For every cause there is who gave it first: see `ToldBy`.  A nil cause comes from
      the task, after the minimum uptime, or from a parent that was itself cancelled
      with nil. */
  lemma CauseTellsWhy(opts: Options, now: int, schedule: seq<Action>, s: State)
    requires Run(Init(opts, now), schedule) == Some(s) && s.cause.Some?
    ensures s.opts == opts && s.why.Some? && ToldBy(s, now, s.why.value)
    ensures s.why == Some(ByParent) ==> exists k :: 0 <= k < |schedule| && schedule[k] == ParentDone(s.cause.value)
    ensures Cause(s.cause) == None ==> s.why == Some(TaskEnded) || s.why == Some(ByParent)
  {
    RunKeepsTimersInv(opts, now, schedule, s);
    WhyTells(s, now);
    if s.why == Some(ByParent) {
      ParentGave(opts, now, schedule, s);
    }
  }

  /** Every timeout is armed, and comes when it is due: while the task launches, the
      start timeout; while it is served, the execution timeout; and the minimum uptime
      lets it be served.  Each ends the wait with its own error, if it is first; and a
      context that is done ends it with the cause. */
  lemma TimeoutsComeDue(opts: Options, now: int, schedule: seq<Action>, s: State)
    requires Run(Init(opts, now), schedule) == Some(s)
    ensures s.run.Launching? && s.cause.None? && opts.startTimeout > 0 ==>
              && s.watcher.Some? && s.watcher.value <= s.now + opts.startTimeout
              && (s.now >= s.watcher.value ==>
                    Enabled(s, WatcherFires) && Apply(s, WatcherFires).cause == Some(StatusError(TimeoutStart)))
    ensures s.run.Settling? ==>
              && s.run.deadline <= s.now + MinUptime(opts)
              && (s.now >= s.run.deadline ==> Enabled(s, Uptime) && Apply(s, Uptime).run.Serving?)
    ensures s.run.Serving? && opts.execTimeout > 0 ==>
              && s.run.until.Some? && s.run.until.value <= s.now + opts.execTimeout
              && (s.now >= s.run.until.value ==>
                    && Enabled(s, ExecFires)
                    && var t := Apply(Apply(s, ExecFires), RunStep);
                       && t.run == Returned(Some(StatusError(TimeoutExec)))
                       && (s.cause.None? ==> t.cause == Some(StatusError(TimeoutExec))))
    ensures s.cause.Some? && (s.run.Settling? || s.run.Serving?) ==>
              Enabled(s, SeeDone) && Apply(s, SeeDone).run == Returned(Cause(s.cause))
  {
    RunKeepsTimersInv(opts, now, schedule, s);
  }

  lemma Texts()
    ensures Message(StatusError(Status.Errored)) + ": " == "task errored: "
  {
    assert Message(StatusError(Status.Errored)) == "task errored";
  }

  /** An exit as it is told, before the minimum uptime or after it. */
  lemma ReportTells(err: Err, early: bool)
    requires err != Some(ErrOk)
    ensures var told := if early then ReportedEarly(err) else Reported(err);
            && (told == None <==> !early && err == None)
            && (told.Some? ==> StatusOf(told) == Status.Errored)
            && (err.Some? && StatusOf(err) == Status.Errored ==> told == err)
            && (err.Some? && StatusOf(err) != Status.Errored ==>
                  Message(told.value) == "task errored: " + Message(err.value))
            && (err == None && early ==> Message(told.value) == "task errored: " + "quit too early")
  {
    ReportedIsErrored(err);
    Texts();
  }

  /** How the task's own exit is told.  After the minimum uptime the result is nil if
      and only if the exit was; an error of status `Errored` stays as it is, and any
      other becomes one of that status, with its text.  Before it, the result is always
      an error.  The result is the cause if nothing was cancelled before. */
  lemma ExitIsTold(opts: Options, now: int, schedule: seq<Action>, s: State, err: Err)
    requires Run(Init(opts, now), schedule) == Some(s) && Enabled(s, TaskExit(err))
    ensures var t := Apply(Apply(s, TaskExit(err)), RunStep);
            && t.run.Returned?
            && (t.run.result == None <==> s.run.Serving? && err == None)
            && (t.run.result.Some? ==> StatusOf(t.run.result) == Status.Errored)
            && (err.Some? && StatusOf(err) == Status.Errored ==> t.run.result == err)
            && (err.Some? && StatusOf(err) != Status.Errored ==>
                  Message(t.run.result.value) == "task errored: " + Message(err.value))
            && (err == None && s.run.Settling? ==>
                  Message(t.run.result.value) == "task errored: " + "quit too early")
            && t.cause == if s.cause.None? then Some(OrOk(t.run.result)) else s.cause
  {
    ReportTells(err, s.run.Settling?);
  }
}
