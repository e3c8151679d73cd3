/** No call on a job is ever stuck: from every reached state, whatever calls and
    workers are in the middle of, each call can still be brought to its end. */
module JobProgress {
  import opened Errors
  import opened Options
  import opened RetryState
  import Retry
  import opened Job

  // ---- A retry worker can be left to finish ----

  const FATAL: Err := Some(ErrNonRetriable)

  /** How far Run is from its end, when its attempts end with a non-retriable error. */
  function Distance(s: Retry.State): nat
  {
    match s.run
    case CheckContext(err) => if err == FATAL then 6 else 30
    case CheckRetriable(err) => if err == FATAL then 5 else 29
    case Load(_) => if Dead(s.word) then 2 else 23
    case ReadClock(_, _) => if Dead(s.word) then 4 else 22
    case Swap(_, _, _) => if Dead(s.word) then 3 else 21
    case Sleep(_) => 13
    case Create => 12
    case Publish => 11
    case Wait => 10
    case Finish(_) => 1
    case Finished(_) => 0
  }

  /** The next step of Run, once its attempt is done. */
  function Onward(s: Retry.State): Retry.Action
  {
    match s.run
    case Wait => Retry.AttemptReported(FATAL)
    case Sleep(_) => Retry.TimerFires
    case _ => Retry.RunStep
  }

  predicate AttemptOver(s: Retry.State)
  {
    s.run.Wait? ==> s.attempts != [] && !s.attempts[|s.attempts| - 1]
  }

  lemma RunStepFalls(s: Retry.State)
    requires Retry.WordInv(s) && Retry.Enabled(s, Retry.RunStep)
    ensures Distance(Retry.RunGoroutine(s)) < Distance(s) && Retry.RunGoroutine(s).parentDone == s.parentDone
  {
    assert s.run.CheckRetriable? && s.run.err == FATAL ==> !Retry.RetriableError(s.config, s.run.err) by {
      assert OnChain(ErrNonRetriable, ErrNonRetriable);
    }
  }

  lemma OnwardFalls(s: Retry.State)
    requires Retry.Inv(s) && !s.run.Finished? && AttemptOver(s)
    ensures Retry.Enabled(s, Onward(s)) && Distance(Retry.Apply(s, Onward(s))) < Distance(s)
    ensures Retry.Apply(s, Onward(s)).parentDone == s.parentDone
  {
    if Onward(s).RunStep? {
      RunStepFalls(s);
    }
  }

  lemma EndAttempt(s: Retry.State) returns (a: Retry.Action)
    requires Retry.Inv(s) && s.run.Wait?
    ensures Retry.Enabled(s, a) && !a.ParentDone? && !a.ParentReached?
    ensures var t := Retry.Apply(s, a); AttemptOver(t) && t.run == s.run && t.parentDone == s.parentDone
  {
    a := Retry.AttemptDone(|s.attempts| - 1);
  }

  // ---- A stopper can be left to finish ----

  function StopDistance(s: Retry.State, j: nat): nat
    requires j < |s.callers|
  {
    match s.callers[j].pc
    case StopSwap(expected) => if s.word == expected then 3 else 5
    case StopLoad => 4
    case StopClose => 2
    case StopForward => 1
    case Stopped => 0
  }

  lemma StopFalls(s: Retry.State, j: nat)
    requires j < |s.callers| && !s.callers[j].pc.Stopped?
    ensures var t := Retry.Apply(s, Retry.StopStep(j));
            |t.callers| == |s.callers| && StopDistance(t, j) < StopDistance(s, j) && t.parentDone == s.parentDone
  {
  }

  // ---- The job ----

  /** The lock is held by a call that is past taking it; and a call that stops a retry
      worker is one of its callers, a killing one if and only if it is a Kill. */
  ghost predicate HolderInv(s: State)
  {
    && (s.lock.Some? ==> s.lock.value < |s.calls| && HoldsLock(s.calls[s.lock.value].pc))
    && forall c :: 0 <= c < |s.calls| ==> CallerOk(s, s.calls[c])
  }

  predicate CallerOk(s: State, call: Call)
  {
    call.pc.Stopping? && call.pc.w < |s.workers| && s.workers[call.pc.w].RetryWorker? ==>
      && call.pc.caller < |s.workers[call.pc.w].state.callers|
      && s.workers[call.pc.w].state.callers[call.pc.caller].kill == call.op.Kill?
  }

  /** A retry worker's callers are only added, and keep what they came for. */
  lemma CallersGrow(s: Retry.State, a: Retry.Action)
    requires Retry.Enabled(s, a)
    ensures |s.callers| <= |Retry.Apply(s, a).callers|
    ensures forall j :: 0 <= j < |s.callers| ==> Retry.Apply(s, a).callers[j].kill == s.callers[j].kill
  {
    if a.StopStep? {
      assert Retry.StopCaller(s, a.j).callers == s.callers[a.j := Retry.StopCaller(s, a.j).callers[a.j]];
    } else if !a.NewCaller? {
      assert Retry.Apply(s, a).callers == s.callers;
    }
  }

  /** Workers are only added, and keep their kind and their callers; one that is done
      stays done. */
  lemma WorkersGrow(s: State, a: Action, w: nat)
    requires LockInv(s) && Enabled(s, a) && w < |s.workers|
    ensures w < |Apply(s, a).workers| && (Apply(s, a).workers[w].RetryWorker? <==> s.workers[w].RetryWorker?)
    ensures s.workers[w].RetryWorker? ==>
              var was, now := s.workers[w].state.callers, Apply(s, a).workers[w].state.callers;
              |was| <= |now| && forall j :: 0 <= j < |was| ==> now[j].kill == was[j].kill
    ensures WorkerDone(s.workers[w]) ==> WorkerDone(Apply(s, a).workers[w])
  {
    if a.WorkerStep? && a.w == w {
      CallersGrow(s.workers[w].state, a.a);
      DoneStays(s.workers[w].state, a.a);
    } else if a.CallStep? && s.calls[a.c].pc.StopLocked? && s.worker == Some(w) && s.workers[w].RetryWorker? {
      CallersGrow(s.workers[w].state, Retry.NewCaller(s.calls[a.c].op.Kill?));
    }
  }

  lemma DoneStays(s: Retry.State, a: Retry.Action)
    requires Retry.Enabled(s, a)
    ensures s.done ==> Retry.Apply(s, a).done
  {
  }

  /** A call after a step: as it was, or moved by its own step. */
  lemma CallAfter(s: State, a: Action, c: nat)
    requires LockInv(s) && HolderInv(s) && Enabled(s, a) && c < |Apply(s, a).calls|
    ensures CallerOk(Apply(s, a), Apply(s, a).calls[c])
  {
    var call := Apply(s, a).calls[c];
    if c < |s.calls| && !(a.CallStep? && a.c == c) {
      assert CallerOk(s, s.calls[c]) && CallOk(s, c, s.calls[c]) && s.calls[c] == call;
      if call.pc.Stopping? {
        WorkersGrow(s, a, call.pc.w);
      }
    }
  }

  lemma HolderKept(s: State, a: Action)
    requires LockInv(s) && HolderInv(s) && Enabled(s, a)
    ensures HolderInv(Apply(s, a))
  {
    var t := Apply(s, a);
    forall c | 0 <= c < |t.calls| ensures CallerOk(t, t.calls[c]) {
      CallAfter(s, a, c);
    }
    if a.CallStep? {
      assert CallOk(s, a.c, s.calls[a.c]);
    }
  }

  ghost predicate Whole(s: State) { WorkersInv(s) && LockInv(s) && HolderInv(s) }

  lemma {:induction false} ReachedWhole(retryDisabled: bool, config: Retry.Config, schedule: seq<Action>, s: State)
    requires Reached(retryDisabled, config, schedule, s)
    ensures Whole(s)
  {
    if schedule != [] {
      var last := |schedule| - 1;
      var t := Run(Init(retryDisabled, config), schedule[..last]).value;
      ReachedWhole(retryDisabled, config, schedule[..last], t);
      HolderKept(t, schedule[last]);
    }
    RunKeepsInv(retryDisabled, config, schedule, s);
  }

  lemma Go(start: State, done: seq<Action>, s: State, a: Action) returns (next: seq<Action>, t: State)
    requires Run(start, done) == Some(s) && Whole(s) && Enabled(s, a)
    ensures Run(start, next) == Some(t) && t == Apply(s, a) && Whole(t)
  {
    next, t := ExtendTo(start, done, s, a);
    WorkersKept(s, a);
    LockKept(s, a);
    HolderKept(s, a);
  }

  /** Calls and lock are untouched. */
  predicate SameCalls(s: State, t: State)
  {
    t.calls == s.calls && t.lock == s.lock && t.worker == s.worker && |t.workers| == |s.workers|
  }

  /** The worker a call waits for can be left to finish. */
  lemma {:induction false} WorkerFinishes(start: State, done: seq<Action>, s: State, w: nat)
    returns (next: seq<Action>, t: State)
    requires Run(start, done) == Some(s) && Whole(s) && w < |s.workers|
    ensures Run(start, next) == Some(t) && Whole(t) && SameCalls(s, t) && WorkerDone(t.workers[w])
    decreases if s.workers[w].RetryWorker? then Distance(s.workers[w].state) else 0
  {
    next, t := done, s;
    assert WorkerInv(s.workers[w]);
    if s.workers[w].MustWorker? {
      next, t := Go(start, done, s, MustDone(w));
    } else if !s.workers[w].state.run.Finished? {
      var r := s.workers[w].state;
      if r.run.Wait? {
        var a := EndAttempt(r);
        next, t := Go(start, done, s, WorkerStep(w, a));
        assert WorkerInv(t.workers[w]);
        r := t.workers[w].state;
      }
      OnwardFalls(r);
      next, t := Go(start, next, t, WorkerStep(w, Onward(r)));
      next, t := WorkerFinishes(start, next, t, w);
    } else {
      FinishedIsDone(s.workers[w].state);
    }
  }

  lemma FinishedIsDone(s: Retry.State)
    requires Retry.Inv(s) && s.run.Finished?
    ensures s.done
  {
  }

  /** The stopper a call waits for can be left to finish. */
  lemma {:induction false} StopperFinishes(start: State, done: seq<Action>, s: State, w: nat, j: nat)
    returns (next: seq<Action>, t: State)
    requires Run(start, done) == Some(s) && Whole(s) && w < |s.workers| && s.workers[w].RetryWorker?
    requires j < |s.workers[w].state.callers|
    ensures Run(start, next) == Some(t) && Whole(t) && SameCalls(s, t)
    ensures t.workers[w].RetryWorker? && j < |t.workers[w].state.callers|
    ensures t.workers[w].state.callers[j].pc.Stopped?
    decreases StopDistance(s.workers[w].state, j)
  {
    next, t := done, s;
    if !s.workers[w].state.callers[j].pc.Stopped? {
      StopFalls(s.workers[w].state, j);
      next, t := Go(start, done, s, WorkerStep(w, Retry.StopStep(j)));
      next, t := StopperFinishes(start, next, t, w, j);
    }
  }

  function Steps(pc: CallPc): nat
  {
    match pc
    case Locking => 7
    case StopLocked => 6
    case Stopping(_, _) => 5
    case Awaiting(_) => 4
    case StartLocked => 3
    case Unlocking => 2
    case Over => 0
  }

  /** What the holder of the lock waits for can be brought about. */
  lemma HolderUnblocked(start: State, done: seq<Action>, s: State, c: nat) returns (next: seq<Action>, t: State)
    requires Run(start, done) == Some(s) && Whole(s) && c < |s.calls| && HoldsLock(s.calls[c].pc)
    ensures Run(start, next) == Some(t) && Whole(t) && SameCalls(s, t) && CallEnabled(t, c, 0)
  {
    next, t := done, s;
    assert CallOk(s, c, s.calls[c]) && CallerOk(s, s.calls[c]);
    match s.calls[c].pc
    case Stopping(w, caller) =>
      if s.workers[w].RetryWorker? {
        next, t := StopperFinishes(start, done, s, w, caller);
      }
    case Awaiting(w) => next, t := WorkerFinishes(start, done, s, w);
    case _ =>
  }

  /** The holder of the lock can be brought to its end, which frees the lock. */
  lemma {:induction false} HolderEnds(start: State, done: seq<Action>, s: State, c: nat)
    returns (next: seq<Action>, t: State)
    requires Run(start, done) == Some(s) && Whole(s) && c < |s.calls| && HoldsLock(s.calls[c].pc)
    ensures Run(start, next) == Some(t) && Whole(t) && |t.calls| == |s.calls|
    ensures t.calls[c].pc.Over? && t.lock.None?
    ensures forall d :: 0 <= d < |s.calls| && d != c ==> t.calls[d] == s.calls[d]
    decreases Steps(s.calls[c].pc)
  {
    assert CallOk(s, c, s.calls[c]);
    next, t := HolderUnblocked(start, done, s, c);
    var before := t;
    next, t := Go(start, next, before, CallStep(c, 0));
    assert t.calls[c].pc.Over? ==> t.lock.None?;
    if !t.calls[c].pc.Over? {
      next, t := HolderEnds(start, next, t, c);
    }
  }

  /** No deadlock: in every state reached by any calls, Kills among them, every call can
      still be completed, by the lock's holder first and then by itself. */
  lemma EveryCallCanEnd(retryDisabled: bool, config: Retry.Config, schedule: seq<Action>, s: State, c: nat)
    returns (after: seq<Action>, t: State)
    requires Reached(retryDisabled, config, schedule, s) && c < |s.calls|
    ensures Run(s, after) == Some(t) && c < |t.calls| && t.calls[c].pc.Over?
  {
    ReachedWhole(retryDisabled, config, schedule, s);
    assert Run(s, []) == Some(s);
    after, t := [], s;
    assert CallOk(s, c, s.calls[c]);
    if !s.calls[c].pc.Over? {
      if s.lock.Some? {
        after, t := HolderEnds(s, after, t, s.lock.value);
      }
      if t.calls[c].pc.Locking? {
        after, t := Go(s, after, t, CallStep(c, 0));
        after, t := HolderEnds(s, after, t, c);
      }
    }
  }

  // ---- What each call has done ----

  /** What has happened since call `c` held the lock in `s`: while it holds it, nobody
      else touches the current worker or makes one. */
  predicate DoneSo(s: State, c: nat, t: State)
    requires c < |s.calls|
  {
    && c < |t.calls| && t.calls[c].op == s.calls[c].op && |s.workers| <= |t.workers|
    && t.retryDisabled == s.retryDisabled && t.config == s.config
    && (s.worker.Some? ==> s.worker.value < |s.workers|)
    && (t.calls[c].op.Start? ==> t.calls[c].pc.StartLocked? || t.calls[c].pc.Unlocking? || t.calls[c].pc.Over?)
    && match t.calls[c].pc
       case Locking => false
       case StopLocked => t.worker == s.worker && |t.workers| == |s.workers|
       case Stopping(w, _) => s.worker == Some(w) && t.worker.None? && |t.workers| == |s.workers|
       case Awaiting(w) =>
         s.worker == Some(w) && t.worker.None? && |t.workers| == |s.workers| && !t.calls[c].op.Kill?
       case StartLocked =>
         && |t.workers| == |s.workers|
         && if t.calls[c].op.Start? then t.worker == s.worker
            else t.calls[c].op.Restart? && t.worker.None? && StoppedFirst(s, t)
       case Unlocking => Outcome(s, t.calls[c].op, t)
       case Over => true
  }

  predicate StoppedFirst(s: State, t: State)
  {
    s.worker.Some? ==> s.worker.value < |t.workers| && WorkerDone(t.workers[s.worker.value])
  }

  /** There is one worker more, the current one: a retry worker with the options of the
      job, or a one-attempt worker if retries are disabled. */
  predicate MadeOne(s: State, t: State)
  {
    && |t.workers| == |s.workers| + 1 && t.worker == Some(|s.workers|)
    && OfJob(s, t.workers[|s.workers|])
  }

  predicate OfJob(s: State, w: Worker)
  {
    if s.retryDisabled then w.MustWorker? else w.RetryWorker? && w.state.config == s.config
  }

  lemma OfJobKept(s: State, a: Action, w: nat)
    requires Enabled(s, a) && w < |s.workers| && OfJob(s, s.workers[w])
    ensures Apply(s, a).retryDisabled == s.retryDisabled && Apply(s, a).config == s.config
    ensures w < |Apply(s, a).workers| && OfJob(s, Apply(s, a).workers[w])
  {
    if a.WorkerStep? && a.w == w {
      Retry.ConfigStays(s.workers[w].state, a.a);
    }
  }

  /** What a call that is about to give back the lock has done: Start has left the
      current worker, or made one if there was none; Stop has none left and the one
      there was is done; Restart has stopped that one and made another; Kill has none
      left. */
  predicate Outcome(s: State, op: Op, t: State)
  {
    match op
    case Start =>
      if s.worker.Some? then t.worker == s.worker && |t.workers| == |s.workers|
      else MadeOne(s, t)
    case Stop => t.worker.None? && |t.workers| == |s.workers| && StoppedFirst(s, t)
    case Restart => MadeOne(s, t) && StoppedFirst(s, t)
    case Kill => t.worker.None? && |t.workers| == |s.workers|
  }

  lemma OwnStepDoes(s: State, c: nat, t: State, now: nat)
    requires c < |s.calls| && Whole(t) && DoneSo(s, c, t) && Enabled(t, CallStep(c, now))
    ensures DoneSo(s, c, Step(t, c, now))
  {
    assert CallOk(t, c, t.calls[c]);
  }

  lemma OthersLeave(s: State, c: nat, t: State, a: Action)
    requires c < |s.calls| && Whole(t) && DoneSo(s, c, t) && Enabled(t, a) && !(a.CallStep? && a.c == c)
    ensures DoneSo(s, c, Apply(t, a))
  {
    assert CallOk(t, c, t.calls[c]);
    if a.CallStep? {
      assert CallOk(t, a.c, t.calls[a.c]);
    }
    assert Apply(t, a).retryDisabled == t.retryDisabled && Apply(t, a).config == t.config;
    if s.worker.Some? {
      WorkersGrow(t, a, s.worker.value);
    }
    if |t.workers| == |s.workers| + 1 && OfJob(t, t.workers[|s.workers|]) {
      OfJobKept(t, a, |s.workers|);
    }
  }

  lemma {:induction false} CallDoes(s: State, c: nat, after: seq<Action>, t: State)
    requires Whole(s) && c < |s.calls| && DoneSo(s, c, s) && Run(s, after) == Some(t)
    ensures Whole(t) && DoneSo(s, c, t)
  {
    if after != [] {
      var last := |after| - 1;
      var u := Run(s, after[..last]).value;
      CallDoes(s, c, after[..last], u);
      var next, v := Go(s, after[..last], u, after[last]);
      if after[last].CallStep? && after[last].c == c {
        OwnStepDoes(s, c, u, after[last].now);
      } else {
        OthersLeave(s, c, u, after[last]);
      }
    }
  }

  /** What every call does to the job, from the moment it has the lock to the moment it
      gives it back, whatever happens meanwhile: see `Outcome`.  A Restart ends with a
      new worker as the current one, the last made, and the old one done. */
  lemma CallOutcome(retryDisabled: bool, config: Retry.Config, schedule: seq<Action>, s: State, c: nat,
                    after: seq<Action>, t: State)
    requires Reached(retryDisabled, config, schedule, s) && c < |s.calls|
    requires s.calls[c].pc == if s.calls[c].op.Start? then StartLocked else StopLocked
    requires Run(s, after) == Some(t)
    ensures c < |t.calls| && (t.calls[c].pc.Unlocking? ==> Outcome(s, s.calls[c].op, t))
  {
    ReachedWhole(retryDisabled, config, schedule, s);
    CallDoes(s, c, after, t);
  }

  /** In every reached state, a Start or Restart about to give back the lock leaves a
      current worker, and a Restart's is the last one made. */
  ghost predicate StartedInv(s: State)
  {
    forall c :: 0 <= c < |s.calls| ==> StartedOk(s, s.calls[c])
  }

  predicate StartedOk(s: State, call: Call)
  {
    && (call.op.Start? ==> !call.pc.StopLocked? && !call.pc.Stopping? && !call.pc.Awaiting?)
    && (call.op.Restart? && call.pc.StartLocked? ==> s.worker.None?)
    && (call.op.Start? && call.pc.Unlocking? ==> s.worker.Some?)
    && (call.op.Restart? && call.pc.Unlocking? ==> s.worker.Some? && s.worker.value == |s.workers| - 1)
  }

  lemma StartedKept(s: State, a: Action)
    requires LockInv(s) && StartedInv(s) && Enabled(s, a)
    ensures StartedInv(Apply(s, a))
  {
    var t := Apply(s, a);
    forall c | 0 <= c < |t.calls| ensures StartedOk(t, t.calls[c]) {
      assert c < |s.calls| ==> StartedOk(s, s.calls[c]) && CallOk(s, c, s.calls[c]);
      if a.CallStep? {
        assert CallOk(s, a.c, s.calls[a.c]);
      }
    }
  }

  lemma {:induction false} StartsTheJob(retryDisabled: bool, config: Retry.Config, schedule: seq<Action>, s: State)
    requires Reached(retryDisabled, config, schedule, s)
    ensures StartedInv(s)
  {
    if schedule != [] {
      var last := |schedule| - 1;
      var t := Run(Init(retryDisabled, config), schedule[..last]).value;
      StartsTheJob(retryDisabled, config, schedule[..last], t);
      RunKeepsInv(retryDisabled, config, schedule[..last], t);
      StartedKept(t, schedule[last]);
    }
  }
}
