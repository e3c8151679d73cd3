/** A job: Start, Stop, Restart and Kill callers under one lock, over all the workers
    the job ever created.  A worker is a whole retry worker, as `Retry` models it, or
    a one-attempt worker when retries are disabled.  The context of the job stays
    live. */
module Job {
  import opened Errors
  import opened Options
  import opened RetryState
  import Retry

  datatype Worker = RetryWorker(state: Retry.State) | MustWorker(live: bool)

  datatype Op = Start | Stop | Restart | Kill

  datatype CallPc =
    | Locking
    | StopLocked
    | Stopping(w: nat, caller: nat)
    | Awaiting(w: nat)
    | StartLocked
    | Unlocking
    | Over

  datatype Call = Call(op: Op, pc: CallPc)

  datatype State = State(
    retryDisabled: bool,
    config: Retry.Config,
    workers: seq<Worker>,
    worker: Option<nat>,
    lock: Option<nat>,
    calls: seq<Call>)

  datatype Action =
    | NewCall(op: Op)
    | CallStep(c: nat, now: nat)
    | WorkerStep(w: nat, a: Retry.Action)
    | MustDone(w: nat)

  function Init(retryDisabled: bool, config: Retry.Config): State
  {
    State(retryDisabled, config, [], None, None, [])
  }

  /** The context the worker's `Done` stands for is done. */
  predicate WorkerDone(w: Worker)
  {
    match w
    case RetryWorker(s) => s.done
    case MustWorker(live) => !live
  }

  predicate CallEnabled(s: State, c: nat, now: nat)
    requires c < |s.calls|
  {
    match s.calls[c].pc
    case Locking => s.lock.None?
    case StopLocked => s.worker.Some? ==> s.worker.value < |s.workers|
    case Stopping(w, caller) =>
      w < |s.workers| &&
      (s.workers[w].RetryWorker? ==>
         caller < |s.workers[w].state.callers| && s.workers[w].state.callers[caller].pc.Stopped?)
    case Awaiting(w) => w < |s.workers| && WorkerDone(s.workers[w])
    case StartLocked => now <= MAX_INT64
    case Unlocking => true
    case Over => false
  }

  predicate Enabled(s: State, a: Action)
  {
    match a
    case NewCall(_) => true
    case CallStep(c, now) => c < |s.calls| && CallEnabled(s, c, now)
    case WorkerStep(w, a) =>
      && w < |s.workers| && s.workers[w].RetryWorker? && Retry.Enabled(s.workers[w].state, a)
      && !a.ParentDone? && !a.ParentReached?
    case MustDone(w) => w < |s.workers| && s.workers[w].MustWorker?
  }

  /** With the lock, Stop, Restart and Kill take the worker and stop or kill it; Stop
      and Restart then wait until its context is done, and Kill does not. */
  function Step(s: State, c: nat, now: nat): State
    requires c < |s.calls| && CallEnabled(s, c, now)
  {
    var call := s.calls[c];
    var at := (pc: CallPc) => s.calls[c := call.(pc := pc)];
    match call.pc
    case Locking => s.(lock := Some(c), calls := at(if call.op.Start? then StartLocked else StopLocked))
    case StopLocked =>
      (match s.worker
       case None => s.(calls := at(if call.op.Restart? then StartLocked else Unlocking))
       case Some(w) =>
         if s.workers[w].MustWorker? then
           s.(worker := None, calls := at(CallPc.Stopping(w, 0)),
              workers := if call.op.Kill? then s.workers[w := MustWorker(false)] else s.workers)
         else
           var r := s.workers[w].state;
           s.(worker := None,
              workers := s.workers[w := RetryWorker(Retry.Apply(r, Retry.NewCaller(call.op.Kill?)))],
              calls := at(CallPc.Stopping(w, |r.callers|))))
    case Stopping(w, _) => s.(calls := at(if call.op.Kill? then Unlocking else Awaiting(w)))
    case Awaiting(_) => s.(calls := at(if call.op.Restart? then StartLocked else Unlocking))
    case StartLocked =>
      if s.worker.Some? then s.(calls := at(Unlocking))
      else s.(worker := Some(|s.workers|),
              workers := s.workers + [if s.retryDisabled then MustWorker(true)
                                      else RetryWorker(Retry.Init(s.config, now, false))],
              calls := at(Unlocking))
    case Unlocking => s.(lock := None, calls := at(Over))
  }

  function Apply(s: State, a: Action): State
    requires Enabled(s, a)
  {
    match a
    case NewCall(op) => s.(calls := s.calls + [Call(op, Locking)])
    case CallStep(c, now) => Step(s, c, now)
    case WorkerStep(w, a) => s.(workers := s.workers[w := RetryWorker(Retry.Apply(s.workers[w].state, a))])
    case MustDone(w) => s.(workers := s.workers[w := MustWorker(false)])
  }

  function Run(s: State, schedule: seq<Action>): Option<State>
  {
    if schedule == [] then Some(s)
    else
      var last := |schedule| - 1;
      match Run(s, schedule[..last])
      case None => None
      case Some(t) => if Enabled(t, schedule[last]) then Some(Apply(t, schedule[last])) else None
  }

  /** Attempt `k` of the worker has a live context. */
  predicate LiveAttempt(w: Worker, k: nat)
  {
    match w
    case RetryWorker(s) => k < |s.attempts| && s.attempts[k]
    case MustWorker(live) => k == 0 && live
  }

  ghost predicate WorkerInv(w: Worker)
  {
    w.RetryWorker? ==> Retry.Inv(w.state) && !w.state.parentDone
  }

  /** The worker has a live attempt, or Run is about to create one. */
  ghost predicate Loose(w: Worker)
  {
    (exists k :: LiveAttempt(w, k)) || (w.RetryWorker? && Retry.PastLastLook(w.state) == 1)
  }

  /** The worker can have no live attempt any more: its Run has finished, or its word
      is dead and it is not loose. */
  ghost predicate Spent(w: Worker)
  {
    match w
    case RetryWorker(s) => s.run.Finished? || (Dead(s.word) && !Loose(w))
    case MustWorker(live) => !live
  }

  predicate StoppingCall(pc: CallPc, w: nat)
  {
    (pc.Stopping? || pc.Awaiting?) && pc.w == w
  }

  predicate HoldsLock(pc: CallPc) { !pc.Locking? && !pc.Over? }

  /** Only the holder of the lock is past taking it; while it has a worker to stop
      there is no current worker, and when Stop or Kill is over there is none.  A Kill
      ends a one-attempt worker at once. */
  ghost predicate LockInv(s: State)
  {
    && Retry.ValidConfig(s.config)
    && (s.worker.Some? ==> s.worker.value < |s.workers|)
    && (s.lock.Some? ==> s.lock.value < |s.calls|)
    && forall c :: 0 <= c < |s.calls| ==> CallOk(s, c, s.calls[c])
  }

  predicate CallOk(s: State, c: nat, call: Call)
  {
    && (HoldsLock(call.pc) ==> s.lock == Some(c))
    && (call.pc.Stopping? || call.pc.Awaiting? ==> s.worker.None? && call.pc.w < |s.workers|)
    && (call.op.Stop? || call.op.Kill? ==> !call.pc.StartLocked? && (call.pc.Unlocking? ==> s.worker.None?))
    && (call.op.Kill? ==> !call.pc.Awaiting?)
    && (call.op.Kill? && call.pc.Stopping? && call.pc.w < |s.workers| && s.workers[call.pc.w].MustWorker? ==>
          !s.workers[call.pc.w].live)
  }

  /** A worker is the current one, or spent, or being stopped by the call that holds
      the lock. */
  ghost predicate Accounted(s: State, w: nat)
    requires w < |s.workers|
  {
    || s.worker == Some(w) || Spent(s.workers[w])
    || (s.lock.Some? && s.lock.value < |s.calls| && StoppingCall(s.calls[s.lock.value].pc, w))
  }

  ghost predicate AllAccounted(s: State)
  {
    forall w :: 0 <= w < |s.workers| ==> Accounted(s, w)
  }

  ghost predicate WorkersInv(s: State)
  {
    forall w :: 0 <= w < |s.workers| ==> WorkerInv(s.workers[w])
  }

  /** The worker that a Kill lets go of with this step, if it does. */
  predicate LetsGo(s: State, a: Action, w: nat)
  {
    && a.CallStep? && a.c < |s.calls| && s.calls[a.c].op.Kill?
    && s.calls[a.c].pc.Stopping? && s.calls[a.c].pc.w == w && w < |s.workers|
  }

  /** If the step lets go of a worker, the worker is not loose. */
  ghost predicate Harmless(s: State, a: Action)
  {
    forall w: nat :: LetsGo(s, a, w) ==> !Loose(s.workers[w])
  }

  lemma WorkerStepKept(s: State, w: nat, b: Retry.Action)
    requires WorkersInv(s) && Enabled(s, WorkerStep(w, b))
    ensures WorkersInv(Apply(s, WorkerStep(w, b)))
  {
    var t := Apply(s, WorkerStep(w, b));
    assert WorkerInv(s.workers[w]);
    Retry.StepKeepsInv(s.workers[w].state, b);
    forall v | 0 <= v < |t.workers| ensures WorkerInv(t.workers[v]) {
      if v != w {
        assert WorkerInv(s.workers[v]);
      } else {
        assert !t.workers[w].state.parentDone;
      }
    }
  }

  lemma CallStepKept(s: State, c: nat, now: nat)
    requires WorkersInv(s) && LockInv(s) && Enabled(s, CallStep(c, now))
    ensures WorkersInv(Step(s, c, now))
  {
    if s.calls[c].pc.StopLocked? && s.worker.Some? && s.workers[s.worker.value].RetryWorker? {
      assert WorkerInv(s.workers[s.worker.value]);
      Retry.StepKeepsInv(s.workers[s.worker.value].state, Retry.NewCaller(s.calls[c].op.Kill?));
    } else if s.calls[c].pc.StartLocked? {
      Retry.InitInv(s.config, now, false);
    }
  }

  lemma WorkersKept(s: State, a: Action)
    requires WorkersInv(s) && LockInv(s) && Enabled(s, a)
    ensures WorkersInv(Apply(s, a))
  {
    match a
    case WorkerStep(w, b) => WorkerStepKept(s, w, b);
    case CallStep(c, now) => CallStepKept(s, c, now);
    case _ =>
  }

  /** A spent retry worker creates no attempt and none of its attempts comes back. */
  lemma SpentStays(s: Retry.State, a: Retry.Action)
    requires Retry.Inv(s) && !s.parentDone && Retry.Enabled(s, a) && Spent(RetryWorker(s))
    requires !a.ParentDone? && !a.ParentReached?
    ensures Spent(RetryWorker(Retry.Apply(s, a)))
  {
    var t := Retry.Apply(s, a);
    if !s.run.Finished? {
      Retry.WordKept(s, a);
      Retry.DeadStep(s, a);
      forall k ensures !LiveAttempt(RetryWorker(t), k) {
        assert !LiveAttempt(RetryWorker(s), k);
      }
    }
  }

  lemma SpentKept(s: State, a: Action, w: nat)
    requires WorkersInv(s) && Enabled(s, a) && w < |s.workers| && Spent(s.workers[w])
    ensures w < |Apply(s, a).workers| && Spent(Apply(s, a).workers[w])
  {
    assert WorkerInv(s.workers[w]);
    match a
    case WorkerStep(v, b) =>
      if v == w {
        SpentStays(s.workers[w].state, b);
      }
    case CallStep(c, _) =>
      if s.calls[c].pc.StopLocked? && s.worker == Some(w) && s.workers[w].RetryWorker? {
        SpentStays(s.workers[w].state, Retry.NewCaller(s.calls[c].op.Kill?));
      }
    case _ =>
  }

  /** With the job's context live, a retry worker's context is done only when its
      Run has finished. */
  lemma DoneIsSpent(w: Worker)
    requires WorkerInv(w) && WorkerDone(w)
    ensures Spent(w)
  {
  }

  /** A call that has stopped a retry worker leaves its word dead. */
  lemma StoppedIsDead(s: State, c: nat, now: nat)
    requires WorkersInv(s) && Enabled(s, CallStep(c, now)) && s.calls[c].pc.Stopping?
    requires s.workers[s.calls[c].pc.w].RetryWorker?
    ensures Dead(s.workers[s.calls[c].pc.w].state.word)
  {
    assert WorkerInv(s.workers[s.calls[c].pc.w]);
  }

  lemma CallKeepsLock(s: State, c: nat, now: nat)
    requires LockInv(s) && c < |s.calls| && CallEnabled(s, c, now)
    ensures LockInv(Step(s, c, now))
  {
    var t := Step(s, c, now);
    assert CallOk(s, c, s.calls[c]);
    forall d | 0 <= d < |t.calls| ensures CallOk(t, d, t.calls[d]) {
      assert CallOk(s, d, s.calls[d]);
    }
  }

  lemma LockKept(s: State, a: Action)
    requires LockInv(s) && Enabled(s, a)
    ensures LockInv(Apply(s, a))
  {
    var t := Apply(s, a);
    if a.CallStep? {
      CallKeepsLock(s, a.c, a.now);
    } else {
      forall d | 0 <= d < |t.calls| ensures CallOk(t, d, t.calls[d]) {
        assert d < |s.calls| ==> CallOk(s, d, s.calls[d]);
      }
    }
  }

  lemma CallKeepsAccount(s: State, c: nat, now: nat, w: nat)
    requires WorkersInv(s) && LockInv(s) && Enabled(s, CallStep(c, now)) && Harmless(s, CallStep(c, now))
    requires w < |Step(s, c, now).workers| && (w < |s.workers| ==> Accounted(s, w))
    ensures Accounted(Step(s, c, now), w)
  {
    assert CallOk(s, c, s.calls[c]);
    if w < |s.workers| && Spent(s.workers[w]) {
      SpentKept(s, CallStep(c, now), w);
    } else if s.calls[c].pc.Awaiting? {
      DoneIsSpent(s.workers[s.calls[c].pc.w]);
    } else if LetsGo(s, CallStep(c, now), w) && s.workers[w].RetryWorker? {
      StoppedIsDead(s, c, now);
    }
  }

  /** Every step that lets go of no loose worker keeps every worker accounted for. */
  lemma JobKept(s: State, a: Action)
    requires WorkersInv(s) && LockInv(s) && AllAccounted(s) && Enabled(s, a) && Harmless(s, a)
    ensures AllAccounted(Apply(s, a))
  {
    forall w | 0 <= w < |Apply(s, a).workers| ensures Accounted(Apply(s, a), w) {
      if a.CallStep? {
        CallKeepsAccount(s, a.c, a.now, w);
      } else {
        assert Accounted(s, w);
        if Spent(s.workers[w]) {
          SpentKept(s, a, w);
        }
      }
    }
  }

  ghost predicate Reached(retryDisabled: bool, config: Retry.Config, schedule: seq<Action>, s: State)
  {
    Retry.ValidConfig(config) && Run(Init(retryDisabled, config), schedule) == Some(s)
  }

  ghost predicate OnlyMust(s: State)
  {
    s.retryDisabled ==> forall w :: 0 <= w < |s.workers| ==> s.workers[w].MustWorker?
  }

  lemma KindKept(s: State, a: Action)
    requires OnlyMust(s) && Enabled(s, a)
    ensures OnlyMust(Apply(s, a)) && Apply(s, a).retryDisabled == s.retryDisabled && Apply(s, a).config == s.config
  {
  }

  /** Under every schedule, whatever its Kills do. */
  lemma {:induction false} RunKeepsInv(retryDisabled: bool, config: Retry.Config, schedule: seq<Action>, s: State)
    requires Reached(retryDisabled, config, schedule, s)
    ensures WorkersInv(s) && LockInv(s) && OnlyMust(s)
    ensures s.retryDisabled == retryDisabled && s.config == config
  {
    if schedule != [] {
      var last := |schedule| - 1;
      var t := Run(Init(retryDisabled, config), schedule[..last]).value;
      RunKeepsInv(retryDisabled, config, schedule[..last], t);
      KindKept(t, schedule[last]);
      WorkersKept(t, schedule[last]);
      LockKept(t, schedule[last]);
    }
  }

  /** No Kill of the schedule lets go of a loose worker. */
  ghost predicate HarmlessKills(start: State, schedule: seq<Action>)
  {
    schedule != [] ==>
      var last := |schedule| - 1;
      && HarmlessKills(start, schedule[..last])
      && (Run(start, schedule[..last]).Some? ==> Harmless(Run(start, schedule[..last]).value, schedule[last]))
  }

  /** Without retries every Kill is harmless: it ends the worker's one attempt. */
  lemma {:induction false} KillsOfMustWorkers(config: Retry.Config, schedule: seq<Action>, s: State)
    requires Reached(true, config, schedule, s)
    ensures HarmlessKills(Init(true, config), schedule)
  {
    if schedule != [] {
      var last := |schedule| - 1;
      var t := Run(Init(true, config), schedule[..last]).value;
      KillsOfMustWorkers(config, schedule[..last], t);
      RunKeepsInv(true, config, schedule[..last], t);
      forall w: nat | LetsGo(t, schedule[last], w) ensures !Loose(t.workers[w]) {
        assert CallOk(t, schedule[last].c, t.calls[schedule[last].c]);
      }
    }
  }

  /** Nobody has called Kill on the job. */
  predicate NoKill(s: State)
  {
    forall c :: 0 <= c < |s.calls| ==> !s.calls[c].op.Kill?
  }

  /** A step removes no call and changes no call's operation. */
  lemma NoKillBefore(s: State, a: Action)
    requires Enabled(s, a) && NoKill(Apply(s, a))
    ensures NoKill(s)
  {
    var t := Apply(s, a);
    forall c | 0 <= c < |s.calls| ensures !s.calls[c].op.Kill? {
      assert s.calls[c].op == t.calls[c].op;
    }
  }

  /** And so is every schedule in which nobody has called Kill. */
  lemma {:induction false} NoKillIsHarmless(start: State, schedule: seq<Action>, s: State)
    requires Run(start, schedule) == Some(s) && NoKill(s)
    ensures HarmlessKills(start, schedule)
  {
    if schedule != [] {
      var last := |schedule| - 1;
      var t := Run(start, schedule[..last]).value;
      NoKillBefore(t, schedule[last]);
      NoKillIsHarmless(start, schedule[..last], t);
    }
  }

  lemma {:induction false} RunKeepsAccount(retryDisabled: bool, config: Retry.Config, schedule: seq<Action>, s: State)
    requires Reached(retryDisabled, config, schedule, s) && HarmlessKills(Init(retryDisabled, config), schedule)
    ensures AllAccounted(s)
  {
    if schedule != [] {
      var last := |schedule| - 1;
      var t := Run(Init(retryDisabled, config), schedule[..last]).value;
      RunKeepsAccount(retryDisabled, config, schedule[..last], t);
      RunKeepsInv(retryDisabled, config, schedule[..last], t);
      JobKept(t, schedule[last]);
    }
  }

  lemma ReachedAccount(retryDisabled: bool, config: Retry.Config, schedule: seq<Action>, s: State)
    requires Reached(retryDisabled, config, schedule, s)
    requires retryDisabled || HarmlessKills(Init(retryDisabled, config), schedule)
    ensures WorkersInv(s) && LockInv(s) && AllAccounted(s)
  {
    RunKeepsInv(retryDisabled, config, schedule, s);
    if retryDisabled {
      KillsOfMustWorkers(config, schedule, s);
    }
    RunKeepsAccount(retryDisabled, config, schedule, s);
  }

  lemma SpentHasNoAttempt(w: Worker, k: nat)
    requires WorkerInv(w) && LiveAttempt(w, k)
    ensures !Spent(w)
  {
  }

  lemma LatestIsLive(w: Worker, j: nat, k: nat)
    requires WorkerInv(w) && LiveAttempt(w, j) && LiveAttempt(w, k)
    ensures j == k
  {
  }

  /** Over any concurrent Start, Stop, Restart and Kill calls and any interleaving, at
      most one attempt of the job has a live context, across all its workers ever, as
      long as no Kill lets go of a loose worker; without retries, always. */
  lemma AtMostOneLive(retryDisabled: bool, config: Retry.Config, schedule: seq<Action>, s: State,
                      v: nat, j: nat, w: nat, k: nat)
    requires Reached(retryDisabled, config, schedule, s)
    requires retryDisabled || HarmlessKills(Init(retryDisabled, config), schedule)
    requires v < |s.workers| && LiveAttempt(s.workers[v], j)
    requires w < |s.workers| && LiveAttempt(s.workers[w], k)
    ensures v == w && j == k
  {
    ReachedAccount(retryDisabled, config, schedule, s);
    assert WorkerInv(s.workers[v]) && WorkerInv(s.workers[w]);
    assert Accounted(s, v) && Accounted(s, w);
    SpentHasNoAttempt(s.workers[v], j);
    SpentHasNoAttempt(s.workers[w], k);
    LatestIsLive(s.workers[v], j, if v == w then k else j);
  }

  /** When a Stop has returned from its wait and still holds the lock, no attempt of
      any worker is live, under the same condition. */
  lemma StoppedMeansNoneLive(retryDisabled: bool, config: Retry.Config, schedule: seq<Action>, s: State,
                             c: nat, w: nat, k: nat)
    requires Reached(retryDisabled, config, schedule, s)
    requires retryDisabled || HarmlessKills(Init(retryDisabled, config), schedule)
    requires c < |s.calls| && s.calls[c].op.Stop? && s.calls[c].pc.Unlocking?
    requires w < |s.workers|
    ensures !LiveAttempt(s.workers[w], k)
  {
    ReachedAccount(retryDisabled, config, schedule, s);
    assert WorkerInv(s.workers[w]) && Accounted(s, w) && CallOk(s, c, s.calls[c]);
    if LiveAttempt(s.workers[w], k) {
      SpentHasNoAttempt(s.workers[w], k);
    }
  }

  // ---- Kill ----

  lemma ExtendTo(start: State, done: seq<Action>, s: State, a: Action) returns (next: seq<Action>, t: State)
    requires Run(start, done) == Some(s) && Enabled(s, a)
    ensures next == done + [a] && t == Apply(s, a) && Run(start, next) == Some(t)
  {
    next, t := done + [a], Apply(s, a);
    assert next[..|done|] == done;
  }

  /** After `after`, worker `w` has a live attempt, and so has another worker `v`. */
  predicate BothLive(s: State, after: seq<Action>, t: State, v: nat, j: nat, w: nat, k: nat)
  {
    && Run(s, after) == Some(t) && v != w && v < |t.workers| && w < |t.workers|
    && LiveAttempt(t.workers[v], j) && LiveAttempt(t.workers[w], k)
  }

  lemma {:induction false} SpentForGood(s: State, after: seq<Action>, t: State, w: nat)
    requires WorkersInv(s) && LockInv(s) && w < |s.workers| && Spent(s.workers[w]) && Run(s, after) == Some(t)
    ensures WorkersInv(t) && LockInv(t) && w < |t.workers| && Spent(t.workers[w])
  {
    if after != [] {
      var last := |after| - 1;
      var u := Run(s, after[..last]).value;
      SpentForGood(s, after[..last], u, w);
      SpentKept(u, after[last], w);
      WorkersKept(u, after[last]);
      LockKept(u, after[last]);
    }
  }

  /** The call gives back the lock and a Start after it makes a new worker. */
  lemma StartAnother(s: State, c: nat, now: nat) returns (after: seq<Action>, t: State)
    requires LockInv(s) && c < |s.calls| && s.calls[c].op.Kill? && s.calls[c].pc.Stopping? && CallEnabled(s, c, now)
    ensures Run(s, after) == Some(t) && s.calls[c].pc.w < |s.workers|
    ensures t.workers == s.workers + [if s.retryDisabled then MustWorker(true)
                                      else RetryWorker(Retry.Init(s.config, 0, false))]
  {
    assert CallOk(s, c, s.calls[c]);
    var d := |s.calls|;
    after, t := ExtendTo(s, [], s, CallStep(c, now));
    after, t := ExtendTo(s, after, t, CallStep(c, now));
    assert t.lock == None && t.worker == None;
    after, t := ExtendTo(s, after, t, NewCall(Start));
    after, t := ExtendTo(s, after, t, CallStep(d, 0));
    assert t.calls[d].pc == StartLocked && t.worker == None && t.workers == s.workers;
    after, t := ExtendTo(s, after, t, CallStep(d, 0));
  }

  /** A loose retry worker that has no live attempt gets one. */
  lemma NextAttempt(start: State, done: seq<Action>, s: State, w: nat)
    returns (next: seq<Action>, t: State, k: nat)
    requires Run(start, done) == Some(s) && w < |s.workers|
    requires s.workers[w].RetryWorker? && !s.workers[w].state.parentDone && Retry.PastLastLook(s.workers[w].state) == 1
    ensures Run(start, next) == Some(t) && |t.workers| == |s.workers| && LiveAttempt(t.workers[w], k)
    ensures forall v :: 0 <= v < |s.workers| && v != w ==> t.workers[v] == s.workers[v]
  {
    next, t := done, s;
    if s.workers[w].state.run.Sleep? {
      next, t := ExtendTo(start, next, t, WorkerStep(w, Retry.TimerFires));
    }
    k := |t.workers[w].state.attempts|;
    next, t := ExtendTo(start, next, t, WorkerStep(w, Retry.RunStep));
  }

  lemma LooseMeansTwo(s: State, c: nat, now: nat)
    returns (after: seq<Action>, t: State, v: nat, j: nat, k: nat)
    requires LockInv(s) && WorkersInv(s)
    requires c < |s.calls| && s.calls[c].op.Kill? && s.calls[c].pc.Stopping? && CallEnabled(s, c, now)
    requires Loose(s.workers[s.calls[c].pc.w])
    ensures BothLive(s, after, t, v, j, s.calls[c].pc.w, k)
  {
    var w := s.calls[c].pc.w;
    v := |s.workers|;
    after, t := StartAnother(s, c, now);
    assert WorkerInv(s.workers[w]) && t.workers[w] == s.workers[w];
    j := 0;
    if !s.retryDisabled {
      after, t, j := NextAttempt(s, after, t, v);
    }
    if i: nat :| LiveAttempt(s.workers[w], i) {
      k := i;
    } else {
      after, t, k := NextAttempt(s, after, t, w);
    }
  }

  /** Exactly which Kills break exclusivity: when a Kill is about to let go of worker
      `w`, in any state reached by any calls, some continuation has a live attempt of
      `w` beside one of another worker if and only if `w` is loose: it has a live
      attempt, as one not yet stored, or Run is at `Create` or `Sleep`. */
  lemma KillBreaksExactly(retryDisabled: bool, config: Retry.Config, schedule: seq<Action>, s: State, c: nat, now: nat)
    requires Reached(retryDisabled, config, schedule, s)
    requires c < |s.calls| && s.calls[c].op.Kill? && s.calls[c].pc.Stopping? && CallEnabled(s, c, now)
    ensures (exists after, t, v, j, k :: BothLive(s, after, t, v, j, s.calls[c].pc.w, k)) <==>
              Loose(s.workers[s.calls[c].pc.w])
  {
    RunKeepsInv(retryDisabled, config, schedule, s);
    var w := s.calls[c].pc.w;
    if Loose(s.workers[w]) {
      var after, t, v, j, k := LooseMeansTwo(s, c, now);
    } else {
      NotLooseIsSpent(s, c, now);
      forall after, t, v, j, k | BothLive(s, after, t, v, j, w, k) ensures false {
        SpentForGood(s, after, t, w);
        assert WorkerInv(t.workers[w]);
        SpentHasNoAttempt(t.workers[w], k);
      }
    }
  }

  lemma NotLooseIsSpent(s: State, c: nat, now: nat)
    requires LockInv(s) && WorkersInv(s)
    requires c < |s.calls| && s.calls[c].pc.Stopping? && CallEnabled(s, c, now)
    requires !Loose(s.workers[s.calls[c].pc.w])
    ensures Spent(s.workers[s.calls[c].pc.w])
  {
    if s.workers[s.calls[c].pc.w].RetryWorker? {
      StoppedIsDead(s, c, now);
    } else {
      assert LiveAttempt(s.workers[s.calls[c].pc.w], 0) <==> s.workers[s.calls[c].pc.w].live;
    }
  }

  const EXAMPLE := Retry.EXAMPLE

  const FIRST := Retry.Init(EXAMPLE, 0, false)

  lemma StartedExample() returns (done: seq<Action>, s: State)
    ensures Run(Init(false, EXAMPLE), done) == Some(s)
    ensures s == State(false, EXAMPLE, [RetryWorker(FIRST)], Some(0), None, [Call(Start, Over)])
  {
    var start := Init(false, EXAMPLE);
    done, s := ExtendTo(start, [], start, NewCall(Start));
    done, s := ExtendTo(start, done, s, CallStep(0, 0));
    done, s := ExtendTo(start, done, s, CallStep(0, 0));
    done, s := ExtendTo(start, done, s, CallStep(0, 0));
  }

  lemma KillLockedExample() returns (done: seq<Action>, s: State)
    ensures Run(Init(false, EXAMPLE), done) == Some(s)
    ensures s == State(false, EXAMPLE, [RetryWorker(FIRST)], Some(0), Some(1),
                       [Call(Start, Over), Call(Kill, StopLocked)])
  {
    done, s := StartedExample();
    var start := Init(false, EXAMPLE);
    done, s := ExtendTo(start, done, s, NewCall(Kill));
    done, s := ExtendTo(start, done, s, CallStep(1, 0));
  }

  const CALLED := FIRST.(callers := [Retry.Caller(true, Retry.StopLoad)])

  lemma KillCalledExample() returns (done: seq<Action>, s: State)
    ensures Run(Init(false, EXAMPLE), done) == Some(s)
    ensures s == State(false, EXAMPLE, [RetryWorker(CALLED)], None, Some(1),
                       [Call(Start, Over), Call(Kill, CallPc.Stopping(0, 0))])
  {
    done, s := KillLockedExample();
    assert Retry.Apply(FIRST, Retry.NewCaller(true)) == CALLED;
    done, s := ExtendTo(Init(false, EXAMPLE), done, s, CallStep(1, 0));
    assert s.workers == [RetryWorker(CALLED)];
    assert s.calls == [Call(Start, Over), Call(Kill, CallPc.Stopping(0, 0))];
  }

  lemma KillingExample() returns (done: seq<Action>, s: State, killed: Retry.State)
    ensures Run(Init(false, EXAMPLE), done) == Some(s)
    ensures killed.run.Create? && killed.attempts == [] && !killed.parentDone
    ensures s.workers == [RetryWorker(killed)] && s.worker.None? && s.lock == Some(1)
    ensures !s.retryDisabled && s.config == EXAMPLE
    ensures |killed.callers| == 1 && killed.callers[0].pc.Stopped?
    ensures s.calls == [Call(Start, Over), Call(Kill, CallPc.Stopping(0, 0))]
  {
    done, s := KillCalledExample();
    var start := Init(false, EXAMPLE);
    done, s := ExtendTo(start, done, s, WorkerStep(0, Retry.StopStep(0)));
    done, s := ExtendTo(start, done, s, WorkerStep(0, Retry.StopStep(0)));
    done, s := ExtendTo(start, done, s, WorkerStep(0, Retry.StopStep(0)));
    done, s := ExtendTo(start, done, s, WorkerStep(0, Retry.StopStep(0)));
    killed := s.workers[0].state;
  }

  lemma RestartedExample() returns (done: seq<Action>, s: State)
    ensures Run(Init(false, EXAMPLE), done) == Some(s) && |s.workers| == 2
    ensures forall w :: 0 <= w < 2 ==> s.workers[w].RetryWorker? && s.workers[w].state.run.Create?
                                        && s.workers[w].state.attempts == [] && !s.workers[w].state.parentDone
  {
    var killed: Retry.State;
    done, s, killed := KillingExample();
    var start := Init(false, EXAMPLE);
    done, s := ExtendTo(start, done, s, CallStep(1, 0));
    done, s := ExtendTo(start, done, s, CallStep(1, 0));
    done, s := ExtendTo(start, done, s, NewCall(Start));
    done, s := ExtendTo(start, done, s, CallStep(2, 0));
    done, s := ExtendTo(start, done, s, CallStep(2, 0));
  }

  /** With Kill it fails: Kill takes the worker without waiting for it, so a Start
      after it makes a second worker, and the first, killed before it had created its
      attempt, may still create one.  Both attempts are live. */
  lemma KillBreaksExclusivity() returns (schedule: seq<Action>, s: State)
    ensures Run(Init(false, EXAMPLE), schedule) == Some(s)
    ensures |s.workers| == 2 && LiveAttempt(s.workers[0], 0) && LiveAttempt(s.workers[1], 0)
  {
    schedule, s := RestartedExample();
    var start := Init(false, EXAMPLE);
    schedule, s := ExtendTo(start, schedule, s, WorkerStep(0, Retry.RunStep));
    schedule, s := ExtendTo(start, schedule, s, WorkerStep(1, Retry.RunStep));
  }
}
