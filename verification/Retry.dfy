/** The retry worker: its Run goroutine against any number of concurrent Stop and
    Kill callers, each atomic or channel operation one step. */
module Retry {
  import opened Errors
  import opened Options
  import opened RetryState

  /** The Run goroutine, between its atomic steps.  `err` is how the last attempt
      ended; `expected` the word it loaded; `time` the clock it read. */
  datatype RunPc =
    | Create
    | Publish
    | Wait
    | CheckContext(err: Err)
    | CheckRetriable(err: Err)
    | Load(err: Err)
    | ReadClock(err: Err, expected: Word)
    | Swap(err: Err, expected: Word, time: nat)
    | Sleep(err: Err)
    | Finish(err: Err)
    | Finished(err: Err)

  datatype StopPc =
    | StopLoad
    | StopSwap(expected: Word)
    | StopClose
    | StopForward
    | Stopped

  /** A Stop or Kill caller. */
  datatype Caller = Caller(kill: bool, pc: StopPc)

  /** A retry granted: the clock when its tick was read, and its place in the tick. */
  datatype Grant = Grant(time: nat, tick: nat, counter: nat)

  datatype Config = Config(limit: TimerRate, retrySuccess: bool)

  /** `attempts[k]` says whether the context of attempt `k` is live, `told[k]` whether a
      Stop or Kill has reached it, and `results[k]` is the result Run got for it;
      `killer` is the
      caller whose swap killed the word; `closes` counts closings of `retryCancel`;
      `parentDone` is the context both the worker's and its attempts' derive from. */
  datatype State = State(
    config: Config,
    run: RunPc,
    callers: seq<Caller>,
    word: Word,
    killer: Option<nat>,
    closes: nat,
    must: Option<nat>,
    attempts: seq<bool>,
    told: seq<bool>,
    results: seq<Err>,
    done: bool,
    parentDone: bool,
    now: nat,
    grants: seq<Grant>)

  datatype Action =
    | RunStep
    | AttemptReported(err: Err)
    | SeeDone(err: Err)
    | SeeRetryCancel
    | TimerFires
    | StopStep(j: nat)
    | NewCaller(kill: bool)
    | AttemptDone(k: nat)
    | Advance(to: nat)
    | ParentDone
    | ParentReached

  predicate ValidConfig(c: Config)
  {
    30 * SECOND <= c.limit.period && c.limit.count <= 10
  }

  /** Every worker's options have been through defaulting, which is enough. */
  lemma DefaultsAreValid(s: Settings)
    ensures ValidConfig(Config(Defaulted(s).retryLimit, Defaulted(s).retrySuccess))
  {
    DefaultsAreInRange(s);
  }

  function Init(c: Config, now: nat, parentDone: bool): State
  {
    State(c, Create, [], Word(0, 0), None, 0, None, [], [], [], false, parentDone, now, [])
  }

  function Last(s: State): nat
    requires s.attempts != []
  {
    |s.attempts| - 1
  }

  /** `retriable`, up to its look at the word. */
  predicate RetriableError(c: Config, err: Err)
  {
    if err.Some? then !Is(err, ErrNonRetriable) else c.retrySuccess
  }

  /** `AttemptReported`: the context of the attempt is seen done, or its Run has
      returned, which it does only with its context done (`Must.RunReturnsDone`). */
  predicate Enabled(s: State, a: Action)
  {
    match a
    case RunStep => !s.run.Wait? && !s.run.Sleep? && !s.run.Finished?
    case AttemptReported(_) => s.run.Wait? && s.attempts != [] && !s.attempts[Last(s)]
    case SeeDone(_) => s.done && (s.run.Wait? || s.run.Sleep?)
    case SeeRetryCancel => s.closes > 0 && s.run.Sleep?
    case TimerFires => s.run.Sleep?
    case StopStep(j) => j < |s.callers| && !s.callers[j].pc.Stopped?
    case NewCaller(_) => true
    case AttemptDone(k) => k < |s.attempts|
    case Advance(to) => s.now <= to <= MAX_INT64
    case ParentDone => true
    case ParentReached => s.parentDone
  }

  function SwapStep(s: State, err: Err, expected: Word, time: nat): State
  {
    if s.word != expected || s.config.limit.period <= 0 then s.(run := Load(err))
    else
      var tick := s.config.limit.ToTicks(time);
      var next := Bumped(expected, tick);
      if next.counter > s.config.limit.count then s.(word := next, run := Finish(err))
      else s.(word := next, run := Sleep(err), grants := s.grants + [Grant(time, tick, next.counter)])
  }

  function RunGoroutine(s: State): State
    requires Enabled(s, RunStep)
  {
    match s.run
    case Create => s.(attempts := s.attempts + [!s.parentDone], told := s.told + [false], run := Publish)
    case Publish => s.(must := if s.attempts == [] then None else Some(Last(s)), run := Wait)
    case CheckContext(err) => s.(run := if s.done then Finish(err) else CheckRetriable(err))
    case CheckRetriable(err) =>
      s.(run := if RetriableError(s.config, err) && !Dead(s.word) then Load(err) else Finish(err))
    case Load(err) => s.(run := if Dead(s.word) then Finish(err) else ReadClock(err, s.word))
    case ReadClock(err, expected) => s.(run := Swap(err, expected, s.now))
    case Swap(err, expected, time) => SwapStep(s, err, expected, time)
    case Finish(err) => s.(done := true, run := Finished(err))
  }

  function StopCaller(s: State, j: nat): State
    requires Enabled(s, StopStep(j))
  {
    var c := s.callers[j];
    match c.pc
    case StopLoad =>
      s.(callers := s.callers[j := c.(pc := if Dead(s.word) then StopForward else StopSwap(s.word))])
    case StopSwap(expected) =>
      if s.word == expected
      then s.(word := Killed(expected), killer := Some(j), callers := s.callers[j := c.(pc := StopClose)])
      else s.(callers := s.callers[j := c.(pc := StopLoad)])
    case StopClose =>
      s.(closes := s.closes + 1, callers := s.callers[j := c.(pc := StopForward)])
    case StopForward =>
      s.(callers := s.callers[j := c.(pc := Stopped)],
         told := if s.must.Some? && s.must.value < |s.told| then s.told[s.must.value := true] else s.told,
         attempts := if c.kill && s.must.Some? && s.must.value < |s.attempts|
                     then s.attempts[s.must.value := false] else s.attempts)
  }

  function Apply(s: State, a: Action): State
    requires Enabled(s, a)
  {
    match a
    case RunStep => RunGoroutine(s)
    case AttemptReported(err) => s.(run := CheckContext(err), results := s.results + [err])
    case SeeDone(err) => s.(run := Finish(if s.run.Wait? then err else s.run.err))
    case SeeRetryCancel => s.(run := Finish(s.run.err))
    case TimerFires => s.(run := Create)
    case StopStep(j) => StopCaller(s, j)
    case NewCaller(kill) => s.(callers := s.callers + [Caller(kill, StopLoad)])
    case AttemptDone(k) => s.(attempts := s.attempts[k := false])
    case Advance(to) => s.(now := to)
    case ParentDone => s.(parentDone := true)
    case ParentReached => s.(done := true)
  }

  function Run(s: State, schedule: seq<Action>): Option<State>
  {
    if schedule == [] then Some(s)
    else
      var last := |schedule| - 1;
      match Run(s, schedule[..last])
      case None => None
      case Some(t) => if Enabled(t, schedule[last]) then Some(Apply(t, schedule[last])) else None
  }

  ghost predicate Reached(c: Config, now: nat, parentDone: bool, schedule: seq<Action>, s: State)
  {
    ValidConfig(c) && now <= MAX_INT64 && Run(Init(c, now, parentDone), schedule) == Some(s)
  }

  // ---- The word and the channel ----

  /** The word is killed by one caller, who alone closes the channel, once. */
  ghost predicate KillInv(s: State)
  {
    && (Dead(s.word) <==> s.killer.Some?)
    && (if s.killer.None? then s.closes == 0
        else
          && s.killer.value < |s.callers|
          && var pc := s.callers[s.killer.value].pc;
             && !pc.StopLoad? && !pc.StopSwap?
             && s.closes == if pc.StopClose? then 0 else 1)
    && (forall j :: 0 <= j < |s.callers| && s.callers[j].pc.StopClose? ==> s.killer == Some(j))
    && (forall j :: 0 <= j < |s.callers| && s.callers[j].pc.StopSwap? ==>
          Fits(s.callers[j].pc.expected) && !Dead(s.callers[j].pc.expected))
  }

  /** What Run has loaded is current unless the word is dead; the counter stays
      small until the worker gives up. */
  ghost predicate WordInv(s: State)
  {
    && Fits(s.word) && s.now <= MAX_INT64 && ValidConfig(s.config)
    && (s.run.ReadClock? || s.run.Swap? ==> !Dead(s.run.expected) && (s.word == s.run.expected || Dead(s.word)))
    && (s.run.Swap? ==> s.run.time <= s.now)
    && (Dead(s.word) || s.run.Finish? || s.run.Finished? || s.word.counter <= 10)
  }

  lemma StopKeepsWord(s: State, j: nat)
    requires KillInv(s) && WordInv(s) && Enabled(s, StopStep(j))
    ensures WordInv(StopCaller(s, j)) && (Dead(s.word) ==> StopCaller(s, j).word == s.word)
  {
    var t := StopCaller(s, j);
    assert t.run == s.run && t.config == s.config && t.now == s.now;
    assert t.word == s.word || Dead(t.word);
  }

  lemma RunKeepsWord(s: State)
    requires WordInv(s) && Enabled(s, RunStep)
    ensures WordInv(RunGoroutine(s))
    ensures if Dead(s.word) then RunGoroutine(s).word == s.word else !Dead(RunGoroutine(s).word)
  {
    if s.run.Swap? {
      TicksFit(s.config.limit, s.run.time);
    } else {
      assert RunGoroutine(s).word == s.word;
    }
  }

  /** No step turns a dead word live, and none changes it. */
  lemma WordKept(s: State, a: Action)
    requires KillInv(s) && WordInv(s) && Enabled(s, a)
    ensures WordInv(Apply(s, a))
    ensures Dead(s.word) ==> Apply(s, a).word == s.word
    ensures a.RunStep? && !Dead(s.word) ==> !Dead(Apply(s, a).word)
  {
    if a.RunStep? {
      RunKeepsWord(s);
    } else if a.StopStep? {
      StopKeepsWord(s, a.j);
    } else {
      assert Apply(s, a).word == s.word;
    }
  }

  lemma StopKeepsKill(s: State, j: nat)
    requires KillInv(s) && WordInv(s) && Enabled(s, StopStep(j))
    ensures KillInv(StopCaller(s, j))
  {
  }

  lemma KillKept(s: State, a: Action)
    requires KillInv(s) && WordInv(s) && Enabled(s, a)
    ensures KillInv(Apply(s, a))
  {
    if a.StopStep? {
      StopKeepsKill(s, a.j);
    } else {
      var t := Apply(s, a);
      WordKept(s, a);
      assert t.killer == s.killer && t.closes == s.closes && |s.callers| <= |t.callers|;
      assert forall j :: 0 <= j < |s.callers| ==> t.callers[j] == s.callers[j];
    }
  }

  /** A stopper past its loop leaves the word dead. */
  ghost predicate StopInv(s: State)
  {
    forall j :: 0 <= j < |s.callers| && (s.callers[j].pc.StopForward? || s.callers[j].pc.Stopped?) ==> Dead(s.word)
  }

  lemma StopInvKept(s: State, a: Action)
    requires StopInv(s) && KillInv(s) && WordInv(s) && Enabled(s, a)
    ensures StopInv(Apply(s, a))
  {
    WordKept(s, a);
    if a.StopStep? {
      var t := Apply(s, a);
      assert forall j :: 0 <= j < |s.callers| && j != a.j ==> t.callers[j] == s.callers[j];
    }
  }

  // ---- Attempts ----

  predicate Attempting(s: State) { s.run.Publish? || s.run.Wait? }

  /** Only the latest attempt can be live, and only while Run waits for it, or when
      the parent context is done and has not reached it yet. */
  ghost predicate AttemptInv(s: State)
  {
    && (Attempting(s) ==> s.attempts != [])
    && (s.must.Some? ==> s.must.value < |s.attempts|)
    && (forall k :: 0 <= k < |s.attempts| && s.attempts[k] ==>
          && k == |s.attempts| - 1
          && (Attempting(s) || (s.parentDone && (s.run.Finish? || s.run.Finished?))))
    && (s.done ==> s.parentDone || s.run.Finished?)
    && (s.run.Finished? ==> s.done)
  }

  lemma RunKeepsAttempts(s: State)
    requires AttemptInv(s) && Enabled(s, RunStep)
    ensures AttemptInv(RunGoroutine(s))
  {
    var t := RunGoroutine(s);
    if !s.run.Create? {
      assert t.attempts == s.attempts && t.parentDone == s.parentDone;
    }
  }

  lemma AttemptKept(s: State, a: Action)
    requires AttemptInv(s) && Enabled(s, a)
    ensures AttemptInv(Apply(s, a))
  {
    if a.RunStep? {
      RunKeepsAttempts(s);
    } else {
      var t := Apply(s, a);
      assert |t.attempts| == |s.attempts| && t.must == s.must;
      assert forall k :: 0 <= k < |t.attempts| && t.attempts[k] ==> s.attempts[k];
    }
  }

  // ---- The rate ----

  /** The grant's tick contains its time, and its place is within the allowance. */
  predicate GrantOk(limit: TimerRate, g: Grant)
  {
    && g.tick * limit.period <= g.time < (g.tick + 1) * limit.period
    && 1 <= g.counter <= limit.count
  }

  predicate Follows(g: Grant, h: Grant)
  {
    && g.time <= h.time
    && if g.tick == h.tick then h.counter == g.counter + 1 else g.tick < h.tick && h.counter == 1
  }

  ghost predicate GrantsOk(limit: TimerRate, grants: seq<Grant>)
  {
    && (grants != [] ==> grants[0].counter == 1)
    && (forall i :: 0 <= i < |grants| ==> GrantOk(limit, grants[i]))
    && (forall i :: 0 < i < |grants| ==> Follows(grants[i - 1], grants[i]))
  }

  /** The word holds the last grant, until it is dead or the worker gives up. */
  ghost predicate GrantHeld(s: State)
  {
    if s.grants == [] then
      !Dead(s.word) && !s.run.Finish? && !s.run.Finished? ==> s.word == Word(0, 0)
    else
      var g := s.grants[|s.grants| - 1];
      && g.time <= s.now
      && (s.run.Swap? ==> g.time <= s.run.time)
      && (!Dead(s.word) && !s.run.Finish? && !s.run.Finished? ==> s.word == Word(g.tick, g.counter))
  }

  /** A grant is never in an earlier tick than the one before it. */
  lemma TickNotEarlier(limit: TimerRate, g: Grant, h: Grant)
    requires GrantOk(limit, g) && GrantOk(limit, h) && g.time <= h.time && limit.period > 0
    ensures g.tick <= h.tick
  {
    MulLess(g.tick, h.tick + 1, limit.period);
  }

  /** Granting one more, in the tick of `time`, after the word `w`. */
  lemma GrantNext(limit: TimerRate, grants: seq<Grant>, w: Word, time: nat)
    requires 30 * SECOND <= limit.period && limit.count <= 10 && time <= MAX_INT64
    requires GrantsOk(limit, grants)
    requires if grants == [] then w == Word(0, 0)
             else var g := grants[|grants| - 1]; w == Word(g.tick, g.counter) && g.time <= time
    requires Bumped(w, limit.ToTicks(time)).counter <= limit.count
    ensures GrantsOk(limit, grants + [Grant(time, limit.ToTicks(time), Bumped(w, limit.ToTicks(time)).counter)])
  {
    TickContains(limit, time);
    var tick := limit.ToTicks(time);
    var h := Grant(time, tick, Bumped(w, tick).counter);
    assert GrantOk(limit, h) by {
      assert grants != [] ==> GrantOk(limit, grants[|grants| - 1]);
    }
    if grants != [] {
      var g := grants[|grants| - 1];
      TickNotEarlier(limit, g, h);
      assert Follows(g, h);
    }
  }

  lemma GrantHeldKept(s: State, a: Action)
    requires WordInv(s) && GrantHeld(s) && Enabled(s, a)
    ensures GrantHeld(Apply(s, a))
  {
    if a.RunStep? && s.run.Swap? {
      TicksFit(s.config.limit, s.run.time);
    }
  }

  /** A step either grants nothing or grants what its swap took. */
  lemma GrantsStep(s: State, a: Action)
    requires Enabled(s, a)
    ensures Apply(s, a).config == s.config
    ensures || Apply(s, a).grants == s.grants
            || (a.RunStep? && s.run.Swap? && s.word == s.run.expected && s.config.limit.period > 0
                && var tick := s.config.limit.ToTicks(s.run.time);
                   var counter := Bumped(s.word, tick).counter;
                   && counter <= s.config.limit.count
                   && Apply(s, a).grants == s.grants + [Grant(s.run.time, tick, counter)])
  {
  }

  ghost predicate GrantInv(s: State)
  {
    GrantsOk(s.config.limit, s.grants) && GrantHeld(s)
  }

  lemma GrantKept(s: State, a: Action)
    requires WordInv(s) && GrantInv(s) && Enabled(s, a)
    ensures GrantInv(Apply(s, a))
  {
    GrantHeldKept(s, a);
    GrantsStep(s, a);
    if Apply(s, a).grants != s.grants {
      GrantNext(s.config.limit, s.grants, s.word, s.run.time);
    }
  }

  // ---- The results ----

  /** Whether Run has found the last result retriable. */
  predicate Retrying(s: State)
  {
    s.run.Load? || s.run.ReadClock? || s.run.Swap? || s.run.Sleep? || s.run.Create?
  }

  /** Run has a result for every attempt but the one it is at, and went on from each
      but the last only because it was retriable. */
  ghost predicate ResultInv(s: State)
  {
    && (if Attempting(s) then |s.results| == |s.attempts| - 1
        else if s.run.Finish? || s.run.Finished? then |s.attempts| - 1 <= |s.results| <= |s.attempts|
        else |s.results| == |s.attempts|)
    && (!Attempting(s) && !s.run.Create? && s.results != [] && |s.results| == |s.attempts| ==>
          s.run.err == s.results[|s.results| - 1])
    && (!Attempting(s) && !s.run.Create? ==> s.attempts != [])
    && (forall k :: 0 <= k < |s.results| && (k < |s.attempts| - 1 || Retrying(s)) ==>
          RetriableError(s.config, s.results[k]))
  }

  /** Run at a new place, with the same attempts and results. */
  predicate Elsewhere(s: State, t: State)
  {
    t.config == s.config && t.results == s.results && |t.attempts| == |s.attempts|
  }

  lemma RunStepKeepsResults(s: State)
    requires ResultInv(s) && Enabled(s, RunStep)
    ensures ResultInv(RunGoroutine(s))
  {
    var t := RunGoroutine(s);
    if !s.run.Create? {
      assert Elsewhere(s, t);
      assert t.run.Publish? || t.run.Wait? || t.run.err == s.run.err;
    }
  }

  lemma ResultKept(s: State, a: Action)
    requires ResultInv(s) && Enabled(s, a)
    ensures ResultInv(Apply(s, a))
  {
    var t := Apply(s, a);
    if a.RunStep? {
      RunStepKeepsResults(s);
    } else if a.AttemptReported? {
      assert t.results == s.results + [a.err] && t.attempts == s.attempts;
    } else {
      assert Elsewhere(s, t);
    }
  }

  // ---- Which attempt a stopper reaches ----

  /** The attempt stored is the latest, but for one just created. */
  ghost predicate MustInv(s: State)
  {
    && |s.told| == |s.attempts|
    && (if s.run.Publish? then
          s.attempts != [] && !s.told[Last(s)] && (s.must.Some? ==> s.must.value < Last(s))
        else s.must == if s.attempts == [] then None else Some(Last(s)))
  }

  lemma StopKeepsMust(s: State, j: nat)
    requires MustInv(s) && Enabled(s, StopStep(j))
    ensures MustInv(StopCaller(s, j))
  {
    var t := StopCaller(s, j);
    assert t.run == s.run && t.must == s.must && |t.attempts| == |s.attempts| && |t.told| == |s.told|;
  }

  lemma RunKeepsMust(s: State)
    requires MustInv(s) && Enabled(s, RunStep)
    ensures MustInv(RunGoroutine(s))
  {
    var t := RunGoroutine(s);
    if !s.run.Create? && !s.run.Publish? {
      assert t.must == s.must && t.told == s.told && t.attempts == s.attempts;
    }
  }

  lemma MustKept(s: State, a: Action)
    requires MustInv(s) && Enabled(s, a)
    ensures MustInv(Apply(s, a))
  {
    if a.StopStep? {
      StopKeepsMust(s, a.j);
    } else if a.RunStep? {
      RunKeepsMust(s);
    } else {
      var t := Apply(s, a);
      assert t.must == s.must && t.told == s.told && |t.attempts| == |s.attempts|;
      assert t.run.Publish? <==> s.run.Publish?;
    }
  }

  // ---- Every run ----

  ghost predicate Inv(s: State)
  {
    KillInv(s) && WordInv(s) && StopInv(s) && AttemptInv(s) && GrantInv(s) && ResultInv(s) && MustInv(s)
  }

  lemma InitInv(c: Config, now: nat, parentDone: bool)
    requires ValidConfig(c) && now <= MAX_INT64
    ensures Inv(Init(c, now, parentDone))
  {
  }

  lemma ConfigStays(s: State, a: Action)
    requires Enabled(s, a)
    ensures Apply(s, a).config == s.config
  {
  }

  /** The invariant from its parts. */
  lemma Together(s: State)
    requires KillInv(s) && WordInv(s) && StopInv(s) && AttemptInv(s) && GrantInv(s) && ResultInv(s) && MustInv(s)
    ensures Inv(s)
  {
  }

  lemma StepKeepsInv(s: State, a: Action)
    requires Inv(s) && Enabled(s, a)
    ensures Inv(Apply(s, a)) && Apply(s, a).config == s.config
  {
    var t := Apply(s, a);
    assert WordInv(t) by { WordKept(s, a); }
    assert KillInv(t) by { KillKept(s, a); }
    assert StopInv(t) by { StopInvKept(s, a); }
    assert AttemptInv(t) by { AttemptKept(s, a); }
    assert GrantInv(t) by { GrantKept(s, a); }
    assert ResultInv(t) by { ResultKept(s, a); }
    assert MustInv(t) by { MustKept(s, a); }
    ConfigStays(s, a);
    Together(t);
  }

  lemma {:induction false} RunKeepsInv(s: State, schedule: seq<Action>, t: State)
    requires Inv(s) && Run(s, schedule) == Some(t)
    ensures Inv(t) && t.config == s.config
  {
    if schedule != [] {
      var last := |schedule| - 1;
      var u := Run(s, schedule[..last]).value;
      RunKeepsInv(s, schedule[..last], u);
      StepKeepsInv(u, schedule[last]);
    }
  }

  /** Under every interleaving: `retryCancel` is closed at most once, and only when
      the word is dead; at most one attempt has a live context, the latest. */
  lemma StopSafety(c: Config, now: nat, parentDone: bool, schedule: seq<Action>, s: State)
    requires Reached(c, now, parentDone, schedule, s)
    ensures s.closes <= 1 && (s.closes == 1 ==> Dead(s.word))
    ensures forall k :: 0 <= k < |s.attempts| - 1 ==> !s.attempts[k]
    ensures s.run.Finished? && !s.parentDone ==> forall k :: 0 <= k < |s.attempts| ==> !s.attempts[k]
  {
    RunKeepsInv(Init(c, now, parentDone), schedule, s);
  }

  /** An attempt is created only after the contexts of all before it are done. */
  lemma CreatedAfterDone(c: Config, now: nat, parentDone: bool, schedule: seq<Action>, s: State)
    requires Reached(c, now, parentDone, schedule, s) && s.run.Create?
    ensures forall k :: 0 <= k < |s.attempts| ==> !s.attempts[k]
  {
    RunKeepsInv(Init(c, now, parentDone), schedule, s);
  }

  /** What may be retried, by what the error's chain ends in. */
  predicate MayRetry(c: Config, err: Err)
  {
    (err == None && c.retrySuccess) || (err.Some? && Root(err.value) != ErrNonRetriable)
  }

  lemma RetriableMeans(c: Config, err: Err)
    ensures RetriableError(c, err) <==> MayRetry(c, err)
  {
    if err.Some? {
      IsLooksAtRoot(err.value, ErrNonRetriable);
    }
  }

  lemma ResultsTell(s: State)
    requires ResultInv(s)
    ensures |s.attempts| - 1 <= |s.results| <= |s.attempts|
    ensures forall k :: 0 <= k < |s.attempts| - 1 ==> MayRetry(s.config, s.results[k])
    ensures s.run.Finished? ==> s.attempts != []
    ensures s.run.Finished? && |s.results| == |s.attempts| ==> s.run.err == s.results[Last(s)]
  {
    forall k | 0 <= k < |s.attempts| - 1 ensures MayRetry(s.config, s.results[k]) {
      RetriableMeans(s.config, s.results[k]);
    }
  }

  /** Run tried again only after results that may be: errors whose chain does not end in
      `ErrNonRetriable`, or nil if successes are retried; and once it has finished with
      a result for every attempt, it returns the last one. */
  lemma RetriedOnlyRetriable(c: Config, now: nat, parentDone: bool, schedule: seq<Action>, s: State)
    requires Reached(c, now, parentDone, schedule, s)
    ensures |s.attempts| - 1 <= |s.results| <= |s.attempts|
    ensures forall k :: 0 <= k < |s.attempts| - 1 ==>
              (s.results[k] == None && c.retrySuccess)
              || (s.results[k].Some? && Root(s.results[k].value) != ErrNonRetriable)
    ensures s.run.Finished? ==> s.attempts != []
    ensures s.run.Finished? && |s.results| == |s.attempts| ==> s.run.err == s.results[Last(s)]
  {
    RunKeepsInv(Init(c, now, parentDone), schedule, s);
    ResultsTell(s);
  }

  /** Whether Run is already past its last look at the word. */
  function PastLastLook(s: State): nat
  {
    if s.run.Create? || s.run.Sleep? then 1 else 0
  }

  lemma DeadStep(s: State, a: Action)
    requires Dead(s.word) && Enabled(s, a) && (s.run.Swap? ==> !Dead(s.run.expected))
    ensures |s.attempts| <= |Apply(s, a).attempts|
    ensures |Apply(s, a).attempts| + PastLastLook(Apply(s, a)) <= |s.attempts| + PastLastLook(s)
  {
  }

  lemma {:induction false} DeadRun(s: State, schedule: seq<Action>, t: State)
    requires KillInv(s) && WordInv(s) && Dead(s.word) && Run(s, schedule) == Some(t)
    ensures KillInv(t) && WordInv(t) && t.word == s.word
    ensures |s.attempts| <= |t.attempts| && |t.attempts| + PastLastLook(t) <= |s.attempts| + PastLastLook(s)
  {
    if schedule != [] {
      var last := |schedule| - 1;
      var u := Run(s, schedule[..last]).value;
      DeadRun(s, schedule[..last], u);
      DeadStep(u, schedule[last]);
      WordKept(u, schedule[last]);
      KillKept(u, schedule[last]);
    }
  }

  /** Once the word is dead it never changes again, and from then on Run creates at
      most one attempt: one if it was already past its look at the word, else none. */
  lemma AtMostOneMore(c: Config, now: nat, parentDone: bool, before: seq<Action>, s: State,
                      after: seq<Action>, t: State)
    requires Reached(c, now, parentDone, before, s) && Dead(s.word) && Run(s, after) == Some(t)
    ensures t.word == s.word
    ensures |s.attempts| <= |t.attempts| <= |s.attempts| + PastLastLook(s)
  {
    RunKeepsInv(Init(c, now, parentDone), before, s);
    DeadRun(s, after, t);
  }

  lemma FewerStillDead(s: State, after: seq<Action>, t: State)
    requires Inv(s) && Dead(s.word) && Run(s, after) == Some(t)
    ensures |t.attempts| <= |s.attempts| + PastLastLook(s)
  {
    DeadRun(s, after, t);
  }

  /** Past its last look, Run goes on to another attempt: at once, or when the timer
      fires. */
  lemma AnotherAttempt(s: State) returns (after: seq<Action>, t: State)
    requires PastLastLook(s) == 1
    ensures Run(s, after) == Some(t) && t.attempts == s.attempts + [!s.parentDone]
  {
    assert Run(s, []) == Some(s);
    after, t := [], s;
    if s.run.Sleep? {
      after, t := ExtendTo(s, after, t, TimerFires);
    }
    after, t := ExtendTo(s, after, t, RunStep);
  }

  /** Exactly when a stopped worker can still start an attempt: from any state reached
      with the word dead, some continuation creates another if and only if Run is past
      its last look at the word. */
  lemma MoreAfterStop(c: Config, now: nat, parentDone: bool, schedule: seq<Action>, s: State)
    requires Reached(c, now, parentDone, schedule, s) && Dead(s.word)
    ensures (exists after, t :: Run(s, after) == Some(t) && |t.attempts| > |s.attempts|) <==> PastLastLook(s) == 1
  {
    RunKeepsInv(Init(c, now, parentDone), schedule, s);
    if PastLastLook(s) == 1 {
      var after, t := AnotherAttempt(s);
      assert |t.attempts| > |s.attempts|;
    }
    forall after, t | Run(s, after) == Some(t) ensures |t.attempts| <= |s.attempts| + PastLastLook(s) {
      FewerStillDead(s, after, t);
    }
  }

  /** After `after`, attempt `k` is live and no stopper has reached it. */
  predicate Missed(s: State, after: seq<Action>, t: State, k: nat)
  {
    Run(s, after) == Some(t) && k < |t.attempts| == |t.told| && t.attempts[k] && !t.told[k]
  }

  /** Every live attempt has been reached by a stopper, and no live one can follow. */
  ghost predicate NoneMissed(s: State)
  {
    && Dead(s.word) && (PastLastLook(s) == 1 ==> s.parentDone)
    && |s.told| == |s.attempts| && forall k :: 0 <= k < |s.attempts| && s.attempts[k] ==> s.told[k]
  }

  lemma RunMissesNone(s: State)
    requires NoneMissed(s) && WordInv(s) && Enabled(s, RunStep)
    ensures NoneMissed(RunGoroutine(s))
  {
    var t := RunGoroutine(s);
    DeadStep(s, RunStep);
    if s.run.Create? {
      assert t.attempts == s.attempts + [false] && t.told == s.told + [false];
    } else {
      assert t.attempts == s.attempts && t.told == s.told;
    }
  }

  lemma StopMissesNone(s: State, j: nat)
    requires NoneMissed(s) && Enabled(s, StopStep(j))
    ensures NoneMissed(StopCaller(s, j))
  {
    var t := StopCaller(s, j);
    assert t.run == s.run && t.parentDone == s.parentDone;
    forall k | 0 <= k < |t.attempts| && t.attempts[k] ensures t.told[k] {
      assert s.attempts[k] && s.told[k];
    }
  }

  lemma NoneMissedKept(s: State, a: Action)
    requires NoneMissed(s) && KillInv(s) && WordInv(s) && Enabled(s, a)
    ensures NoneMissed(Apply(s, a))
  {
    var t := Apply(s, a);
    WordKept(s, a);
    if a.RunStep? {
      RunMissesNone(s);
    } else if a.StopStep? {
      StopMissesNone(s, a.j);
    } else {
      DeadStep(s, a);
      assert t.told == s.told && |t.attempts| == |s.attempts|;
      assert forall k :: 0 <= k < |t.attempts| && t.attempts[k] ==> s.attempts[k];
    }
  }

  lemma {:induction false} NoneMissedAfter(s: State, after: seq<Action>, t: State)
    requires NoneMissed(s) && KillInv(s) && WordInv(s) && Run(s, after) == Some(t)
    ensures NoneMissed(t) && KillInv(t) && WordInv(t)
  {
    if after != [] {
      var last := |after| - 1;
      var u := Run(s, after[..last]).value;
      NoneMissedAfter(s, after[..last], u);
      NoneMissedKept(u, after[last]);
      KillKept(u, after[last]);
      WordKept(u, after[last]);
    }
  }

  /** A stopper at its last step, and what it can miss: an attempt not stored yet, or
      one that Run is still about to create. */
  predicate CanMiss(s: State)
  {
    || (s.run.Publish? && s.attempts != [] && s.attempts[Last(s)])
    || (PastLastLook(s) == 1 && !s.parentDone)
  }

  /** Run past its last look creates an attempt nobody has reached. */
  lemma MissNext(s: State) returns (after: seq<Action>, t: State)
    requires MustInv(s) && PastLastLook(s) == 1 && !s.parentDone
    ensures t.attempts != [] && Missed(s, after, t, Last(t))
  {
    assert Run(s, []) == Some(s);
    after, t := [], s;
    if s.run.Sleep? {
      after, t := ExtendTo(s, after, t, TimerFires);
    }
    after, t := ExtendTo(s, after, t, RunStep);
  }

  lemma MissNow(s: State, j: nat) returns (after: seq<Action>, t: State)
    requires MustInv(s) && Enabled(s, StopStep(j)) && s.callers[j].pc.StopForward? && CanMiss(s)
    ensures t.attempts != [] && Missed(StopCaller(s, j), after, t, Last(t))
  {
    var told := StopCaller(s, j);
    MustKept(s, StopStep(j));
    assert told.run == s.run && told.parentDone == s.parentDone;
    if PastLastLook(s) == 1 && !s.parentDone {
      after, t := MissNext(told);
    } else {
      after, t := [], told;
      assert Run(told, []) == Some(told);
    }
  }

  lemma ForwardReaches(s: State, j: nat)
    requires Inv(s) && Enabled(s, StopStep(j)) && s.callers[j].pc.StopForward? && !CanMiss(s)
    ensures NoneMissed(Apply(s, StopStep(j)))
  {
  }

  /** Exactly which Stops and Kills miss an attempt: when one is about to make its call
      on the stored attempt, in any reached state, some continuation has a live attempt
      that no stopper has reached if and only if the latest attempt is live and not
      stored yet, or Run is still about to create one under a live parent. */
  lemma StopMissesExactly(c: Config, now: nat, parentDone: bool, schedule: seq<Action>, s: State, j: nat)
    requires Reached(c, now, parentDone, schedule, s)
    requires Enabled(s, StopStep(j)) && s.callers[j].pc.StopForward?
    ensures (exists after, t, k :: Missed(Apply(s, StopStep(j)), after, t, k)) <==> CanMiss(s)
  {
    RunKeepsInv(Init(c, now, parentDone), schedule, s);
    var told := Apply(s, StopStep(j));
    if CanMiss(s) {
      var after, t := MissNow(s, j);
    } else {
      ForwardReaches(s, j);
      KillKept(s, StopStep(j));
      WordKept(s, StopStep(j));
      forall after, t, k | Missed(told, after, t, k) ensures false {
        NoneMissedAfter(told, after, t);
      }
    }
  }

  lemma Extend(s: State, schedule: seq<Action>, a: Action)
    requires Run(s, schedule).Some? && Enabled(Run(s, schedule).value, a)
    ensures Run(s, schedule + [a]) == Some(Apply(Run(s, schedule).value, a))
  {
    assert (schedule + [a])[..|schedule|] == schedule;
  }

  // ---- When a result is retried ----

  /** Nobody stops the worker and the clock stands still. */
  ghost predicate Undisturbed(after: seq<Action>)
  {
    forall k :: 0 <= k < |after| ==> !after[k].StopStep? && !after[k].Advance?
  }

  /** The clock's tick has a retry left. */
  predicate Allowance(s: State, tick: nat)
  {
    if s.word.tick == tick then s.word.counter < s.config.limit.count else s.config.limit.count > 0
  }

  predicate AllowedNow(s: State)
    requires s.config.limit.period > 0
  {
    !Dead(s.word) && Allowance(s, s.config.limit.ToTicks(s.now))
  }

  /** Run, having just got a result, creates no attempt more, undisturbed. */
  predicate GivesUp(s: State)
    requires s.config.limit.period > 0
  {
    match s.run
    case CheckContext(err) => s.done || !MayRetry(s.config, err) || !AllowedNow(s)
    case CheckRetriable(err) => !MayRetry(s.config, err) || !AllowedNow(s)
    case Load(_) => !AllowedNow(s)
    case ReadClock(_, _) => !AllowedNow(s)
    case Swap(_, _, time) => Dead(s.word) || !Allowance(s, s.config.limit.ToTicks(time))
    case Finish(_) => true
    case Finished(_) => true
    case _ => false
  }

  lemma RunGivesUp(s: State)
    requires WordInv(s) && GivesUp(s) && Enabled(s, RunStep)
    ensures GivesUp(RunGoroutine(s)) && RunGoroutine(s).attempts == s.attempts
  {
    if s.run.CheckRetriable? {
      RetriableMeans(s.config, s.run.err);
    } else if s.run.Swap? {
      BumpedCounts(s.word, s.config.limit.ToTicks(s.run.time));
    }
  }

  lemma StillGivesUp(s: State, a: Action)
    requires WordInv(s) && GivesUp(s) && Enabled(s, a) && !a.StopStep? && !a.Advance?
    ensures Apply(s, a).config.limit.period > 0 && GivesUp(Apply(s, a))
    ensures |Apply(s, a).attempts| == |s.attempts|
  {
    if a.RunStep? {
      RunGivesUp(s);
    } else {
      assert Apply(s, a).word == s.word && Apply(s, a).run == s.run;
    }
  }

  lemma {:induction false} GivesUpFor(s: State, after: seq<Action>, t: State)
    requires Inv(s) && GivesUp(s) && Undisturbed(after) && Run(s, after) == Some(t)
    ensures Inv(t) && GivesUp(t) && |t.attempts| == |s.attempts|
  {
    if after != [] {
      var last := |after| - 1;
      var u := Run(s, after[..last]).value;
      assert !after[last].StopStep? && !after[last].Advance?;
      assert forall k :: 0 <= k < last ==> after[..last][k] == after[k];
      GivesUpFor(s, after[..last], u);
      StepKeepsInv(u, after[last]);
      StillGivesUp(u, after[last]);
    }
  }

  lemma ToTheLoad(s: State) returns (after: seq<Action>, t: State)
    requires Inv(s) && s.run.CheckContext? && !GivesUp(s)
    ensures Run(s, after) == Some(t) && Undisturbed(after) && t == s.(run := Load(s.run.err))
  {
    RetriableMeans(s.config, s.run.err);
    assert Run(s, []) == Some(s);
    after, t := ExtendTo(s, [], s, RunStep);
    assert t == s.(run := CheckRetriable(s.run.err));
    after, t := ExtendTo(s, after, t, RunStep);
  }

  /** The steps from a result to the swap that takes a retry. */
  lemma ToTheSwap(s: State) returns (after: seq<Action>, t: State)
    requires Inv(s) && s.run.CheckContext? && !GivesUp(s)
    ensures Run(s, after) == Some(t) && Undisturbed(after)
    ensures t == s.(run := Swap(s.run.err, s.word, s.now))
  {
    after, t := ToTheLoad(s);
    assert t == s.(run := Load(s.run.err));
    after, t := ExtendTo(s, after, t, RunStep);
    after, t := ExtendTo(s, after, t, RunStep);
  }

  /** A swap undisturbed takes a retry exactly when the tick has one left; it is the
      first of its tick or one after the word's. */
  lemma SwapTakes(s: State)
    requires Inv(s) && s.run.Swap? && s.word == s.run.expected
    ensures var t := RunGoroutine(s);
            var tick := s.config.limit.ToTicks(s.run.time);
            && (t.run.Sleep? <==> Allowance(s, tick)) && (t.run.Finish? <==> !Allowance(s, tick))
            && (t.run.Sleep? ==>
                  var counter := if s.word.tick == tick then s.word.counter + 1 else 1;
                  t.grants == s.grants + [Grant(s.run.time, tick, counter)])
  {
    BumpedCounts(s.word, s.config.limit.ToTicks(s.run.time));
  }

  lemma RetriesNow(s: State) returns (after: seq<Action>, t: State)
    requires Inv(s) && s.run.CheckContext? && !GivesUp(s)
    ensures Run(s, after) == Some(t) && Undisturbed(after) && |t.attempts| == |s.attempts| + 1
  {
    after, t := ToTheSwap(s);
    StepsKeepInv(s, after, t);
    SwapTakes(t);
    after, t := ExtendTo(s, after, t, RunStep);
    after, t := ExtendTo(s, after, t, TimerFires);
    after, t := ExtendTo(s, after, t, RunStep);
  }

  lemma StepsKeepInv(s: State, after: seq<Action>, t: State)
    requires Inv(s) && Run(s, after) == Some(t)
    ensures Inv(t)
  {
    RunKeepsInv(s, after, t);
  }

  /** Exactly when a result is retried: when Run has just got it, in any reached state,
      some undisturbed continuation creates another attempt if and only if the worker's
      context is live, the word is not dead, the tick of the clock has a retry left, and
      the result is an error not made non-retriable, or nil where successes are retried. */
  lemma RetriesExactly(c: Config, now: nat, parentDone: bool, schedule: seq<Action>, s: State, err: Err)
    requires Reached(c, now, parentDone, schedule, s) && s.run == CheckContext(err)
    ensures s.config.limit.period > 0
    ensures (exists after, t :: Undisturbed(after) && Run(s, after) == Some(t) && |t.attempts| > |s.attempts|) <==>
              && !s.done && !Dead(s.word) && Allowance(s, s.config.limit.ToTicks(s.now))
              && ((err == None && c.retrySuccess) || (err.Some? && Root(err.value) != ErrNonRetriable))
  {
    RunKeepsInv(Init(c, now, parentDone), schedule, s);
    if GivesUp(s) {
      forall after, t | Undisturbed(after) && Run(s, after) == Some(t) ensures |t.attempts| == |s.attempts| {
        GivesUpFor(s, after, t);
      }
    } else {
      var after, t := RetriesNow(s);
    }
  }

  // ---- What Kill does to the stored attempt ----

  /** A Kill at its call ends the stored attempt: what is live then is not stored yet.
      A Stop ends none. */
  lemma KillEndsStored(c: Config, now: nat, parentDone: bool, schedule: seq<Action>, s: State, j: nat)
    requires Reached(c, now, parentDone, schedule, s)
    requires Enabled(s, StopStep(j)) && s.callers[j].pc.StopForward?
    ensures var t := Apply(s, StopStep(j));
            if s.callers[j].kill
            then forall k :: 0 <= k < |t.attempts| ==> (t.attempts[k] <==> s.attempts[k] && s.run.Publish?)
            else t.attempts == s.attempts
  {
    RunKeepsInv(Init(c, now, parentDone), schedule, s);
  }

  /** The end of the parent's context reaches the worker: while it waits for an attempt
      or sleeps it can finish at once, with no attempt more. */
  lemma ParentEndsRun(s: State, err: Err)
    requires s.parentDone && (s.run.Wait? || s.run.Sleep?)
    ensures var t := Run(s, [ParentReached, SeeDone(err), RunStep]);
            && t.Some? && t.value.run == Finished(if s.run.Wait? then err else s.run.err)
            && t.value.attempts == s.attempts && t.value.done
  {
    var after, t := ExtendTo(s, [], s, ParentReached);
    after, t := ExtendTo(s, after, t, SeeDone(err));
    after, t := ExtendTo(s, after, t, RunStep);
    assert after == [ParentReached, SeeDone(err), RunStep];
  }

  /** A sleeping worker whose channel is closed can finish at once, with no attempt
      more. */
  lemma ClosedWakesSleeper(s: State)
    requires s.run.Sleep? && s.closes > 0
    ensures var t := Run(s, [SeeRetryCancel, RunStep]);
            t.Some? && t.value.run == Finished(s.run.err) && t.value.attempts == s.attempts && t.value.done
  {
    assert [SeeRetryCancel, RunStep][..1] == [SeeRetryCancel];
    assert [SeeRetryCancel][..0] == [];
    assert Run(s, [SeeRetryCancel]) == Some(Apply(s, SeeRetryCancel));
  }

  const EXAMPLE := Config(TimerRate(10, 30 * SECOND), false)
  const FAILED: Err := Some(Other("exit status 1"))

  lemma ExampleWaits() returns (done: seq<Action>, s: State)
    ensures Run(Init(EXAMPLE, 0, false), done) == Some(s)
    ensures s == Init(EXAMPLE, 0, false).(run := Wait, must := Some(0), attempts := [true], told := [false])
  {
    var start := Init(EXAMPLE, 0, false);
    done, s := ExtendTo(start, [], start, RunStep);
    done, s := ExtendTo(start, done, s, RunStep);
  }

  lemma ExampleFails() returns (done: seq<Action>, s: State)
    ensures Run(Init(EXAMPLE, 0, false), done) == Some(s)
    ensures s == Init(EXAMPLE, 0, false).(run := Load(FAILED), must := Some(0), attempts := [false],
                                          told := [false], results := [FAILED])
  {
    var start := Init(EXAMPLE, 0, false);
    done, s := ExampleWaits();
    done, s := ExtendTo(start, done, s, AttemptDone(0));
    assert s == start.(run := Wait, must := Some(0), attempts := [false], told := [false]);
    done, s := ExtendTo(start, done, s, AttemptReported(FAILED));
    assert s == start.(run := CheckContext(FAILED), must := Some(0), attempts := [false],
                        told := [false], results := [FAILED]);
    done, s := ExtendTo(start, done, s, RunStep);
    done, s := ExtendTo(start, done, s, RunStep);
  }

  /** A run in which the first attempt ends with a non-retriable error, and Run with it. */
  lemma ExampleGivesUp(err: Err) returns (done: seq<Action>, s: State)
    requires Is(err, ErrNonRetriable)
    ensures Reached(EXAMPLE, 0, false, done, s)
    ensures s.run == Finished(err) && s.attempts == [false] && s.results == [err]
  {
    var start := Init(EXAMPLE, 0, false);
    done, s := ExampleWaits();
    done, s := ExtendTo(start, done, s, AttemptDone(0));
    assert s == start.(run := Wait, must := Some(0), attempts := [false], told := [false]);
    done, s := ExtendTo(start, done, s, AttemptReported(err));
    assert s == start.(run := CheckContext(err), must := Some(0), attempts := [false],
                       told := [false], results := [err]);
    done, s := ExtendTo(start, done, s, RunStep);
    done, s := ExtendTo(start, done, s, RunStep);
    assert s == start.(run := Finish(err), must := Some(0), attempts := [false], told := [false], results := [err]);
    done, s := ExtendTo(start, done, s, RunStep);
  }

  lemma ExampleSleeps() returns (done: seq<Action>, s: State)
    ensures Run(Init(EXAMPLE, 0, false), done) == Some(s)
    ensures s == Init(EXAMPLE, 0, false).(run := Sleep(FAILED), must := Some(0), attempts := [false],
                                          told := [false], results := [FAILED], word := Word(0, 1),
                                          grants := [Grant(0, 0, 1)])
  {
    done, s := ExampleFails();
    var start := Init(EXAMPLE, 0, false);
    done, s := ExtendTo(start, done, s, RunStep);
    done, s := ExtendTo(start, done, s, RunStep);
    assert s.run == Swap(FAILED, Word(0, 0), 0);
    TicksFit(EXAMPLE.limit, 0);
    done, s := ExtendTo(start, done, s, RunStep);
  }

  /** And the one more does happen: an attempt fails, Run sleeps, Stop kills the
      word and closes the channel, and the timer still wakes Run for another. */
  lemma AttemptAfterStop() returns (before: seq<Action>, s: State)
    ensures Reached(EXAMPLE, 0, false, before, s)
    ensures Dead(s.word) && s.closes == 1 && |s.attempts| == 1
    ensures var t := Run(s, [TimerFires, RunStep]); t.Some? && |t.value.attempts| == 2
  {
    before, s := ExampleSleeps();
    var start := Init(EXAMPLE, 0, false);
    before, s := ExtendTo(start, before, s, NewCaller(false));
    before, s := ExtendTo(start, before, s, StopStep(0));
    before, s := ExtendTo(start, before, s, StopStep(0));
    before, s := ExtendTo(start, before, s, StopStep(0));
    var more, t := ExtendTo(s, [], s, TimerFires);
    more, t := ExtendTo(s, more, t, RunStep);
    assert more == [TimerFires, RunStep];
  }

  lemma ExtendTo(start: State, done: seq<Action>, s: State, a: Action) returns (next: seq<Action>, t: State)
    requires Run(start, done) == Some(s) && Enabled(s, a)
    ensures next == done + [a] && t == Apply(s, a) && Run(start, next) == Some(t)
  {
    Extend(start, done, a);
    next, t := done + [a], Apply(s, a);
  }

  /** A swap of Run fails only because a stopper killed the word: the loop of
      `tryRetry` goes round at most twice. */
  lemma SwapFailsOnlyDead(c: Config, now: nat, parentDone: bool, schedule: seq<Action>, s: State)
    requires Reached(c, now, parentDone, schedule, s) && s.run.Swap?
    ensures var again := Run(s, [RunStep, RunStep]);
            Apply(s, RunStep).run.Load? ==> Dead(s.word) && again.Some? && again.value.run.Finish?
  {
    RunKeepsInv(Init(c, now, parentDone), schedule, s);
    assert [RunStep, RunStep][..1] == [RunStep];
    assert [RunStep][..0] == [];
    assert Run(s, [RunStep]) == Some(Apply(s, RunStep));
  }

  /** Rises by at least one from one grant to the next. */
  function Position(limit: TimerRate, g: Grant): nat
  {
    limit.count * g.tick + g.counter
  }

  lemma PositionRises(limit: TimerRate, g: Grant, h: Grant)
    requires g.counter <= limit.count && 1 <= h.counter && Follows(g, h)
    ensures Position(limit, g) < Position(limit, h)
  {
    if g.tick < h.tick {
      var gap := h.tick - g.tick - 1;
      assert limit.count * h.tick == limit.count * (g.tick + 1 + gap);
      assert limit.count * (g.tick + 1 + gap) == limit.count * g.tick + limit.count + limit.count * gap;
    }
  }

  lemma {:induction false} PositionsSpread(limit: TimerRate, grants: seq<Grant>, i: nat, j: nat)
    requires GrantsOk(limit, grants) && i <= j < |grants|
    ensures Position(limit, grants[i]) + (j - i) <= Position(limit, grants[j])
    ensures grants[i].time <= grants[j].time && grants[i].tick <= grants[j].tick
    ensures grants[i].tick == grants[j].tick ==> grants[i].counter <= grants[j].counter
  {
    if i < j {
      PositionsSpread(limit, grants, i, j - 1);
      assert Follows(grants[j - 1], grants[j]);
      assert GrantOk(limit, grants[j - 1]) && GrantOk(limit, grants[j]);
      PositionRises(limit, grants[j - 1], grants[j]);
    }
  }

  /** Two instants at most `length` apart lie at most `length / p + 1` ticks apart. */
  lemma TicksSpread(t1: nat, a: nat, t2: nat, b: nat, length: nat, p: nat)
    requires a <= b <= a + length && p > 0
    requires a < (t1 + 1) * p && t2 * p <= b
    ensures t2 - t1 <= length / p + 1
  {
    var l := length / p;
    DivBounds(length, p);
    assert (t1 + l + 2) * p == (t1 + 1) * p + (l + 1) * p;
    MulLess(t2, t1 + l + 2, p);
  }

  lemma PositionsCount(limit: TimerRate, g: Grant, h: Grant, apart: nat, spread: nat)
    requires Position(limit, g) + apart <= Position(limit, h)
    requires g.counter >= 1 && h.counter <= limit.count && h.tick - g.tick <= spread
    ensures apart + 1 <= limit.count * (spread + 1)
  {
    assert limit.count * (g.tick + spread - h.tick) >= 0;
  }

  lemma GrantsInInterval(limit: TimerRate, grants: seq<Grant>, i: nat, j: nat, length: nat)
    requires GrantsOk(limit, grants) && limit.period > 0
    requires i <= j < |grants| && grants[j].time - grants[i].time <= length
    ensures j - i + 1 <= limit.count * (length / limit.period + 2)
  {
    PositionsSpread(limit, grants, i, j);
    var g, h := grants[i], grants[j];
    assert GrantOk(limit, g) && GrantOk(limit, h);
    TicksSpread(g.tick, g.time, h.tick, h.time, length, limit.period);
    PositionsCount(limit, g, h, j - i, length / limit.period + 1);
  }

  lemma GrantsHold(c: Config, now: nat, parentDone: bool, schedule: seq<Action>, s: State)
    requires Reached(c, now, parentDone, schedule, s)
    ensures GrantsOk(c.limit, s.grants)
  {
    RunKeepsInv(Init(c, now, parentDone), schedule, s);
  }

  /** The grants numbered `i` to `j` lie in an interval of length `length`: there
      are at most `count * (length / period + 2)` of them. */
  lemma RateBound(c: Config, now: nat, parentDone: bool, schedule: seq<Action>, s: State, i: nat, j: nat, length: nat)
    requires Reached(c, now, parentDone, schedule, s)
    requires i <= j < |s.grants| && s.grants[j].time - s.grants[i].time <= length
    ensures j - i + 1 <= c.limit.count * (length / c.limit.period + 2)
  {
    GrantsHold(c, now, parentDone, schedule, s);
    GrantsInInterval(c.limit, s.grants, i, j, length);
  }

  // ---- The wait before a retry ----

  function Fraction(counter: nat, count: nat): real
    requires count > 0 && counter > 0
  {
    var r := (counter - 1) as real / count as real;
    if r > 1.0 then 1.0 else if r < 0.0 then 0.0 else r
  }

  function WaitTime(backoff: real, scale: real, counter: nat, count: nat): real
    requires count > 0 && counter > 0
  {
    var r := Fraction(counter, count);
    backoff * (0.5 + r * r) * scale
  }

  lemma FractionRises(a: nat, b: nat, count: nat)
    requires 1 <= a <= b <= count
    ensures 0.0 <= Fraction(a, count) <= Fraction(b, count) < 1.0
  {
    var n := count as real;
    var x, y := (a - 1) as real, (b - 1) as real;
    assert x / n * n == x && y / n * n == y;
  }

  lemma Scaled(unit: real, x: real, y: real)
    requires 0.0 <= unit && x <= y
    ensures unit * x <= unit * y
  {
    assert unit * (y - x) >= 0.0;
  }

  /** The wait rises with the counter, from half the unit to one and a half. */
  lemma WaitRises(backoff: real, scale: real, a: nat, b: nat, count: nat)
    requires backoff > 0.0 && scale > 0.0 && 1 <= a <= b <= count
    ensures 0.5 * (backoff * scale) <= WaitTime(backoff, scale, a, count)
    ensures WaitTime(backoff, scale, a, count) <= WaitTime(backoff, scale, b, count)
    ensures WaitTime(backoff, scale, b, count) <= 1.5 * (backoff * scale)
  {
    FractionRises(a, b, count);
    var x, y := Fraction(a, count), Fraction(b, count);
    Scaled(x, 0.0, x);
    Scaled(x, x, y);
    Scaled(y, x, y);
    Scaled(y, y, 1.0);
    var unit := backoff * scale;
    Scaled(unit, 0.5, 0.5 + x * x);
    Scaled(unit, 0.5 + x * x, 0.5 + y * y);
    Scaled(unit, 0.5 + y * y, 1.5);
    assert WaitTime(backoff, scale, a, count) == unit * (0.5 + x * x);
    assert WaitTime(backoff, scale, b, count) == unit * (0.5 + y * y);
  }

  /** The wait as a polynomial: a half of the unit, and the unit times the square of
      the part of the allowance used before this retry. */
  lemma WaitIs(backoff: real, scale: real, counter: nat, count: nat)
    requires 1 <= counter <= count
    ensures var n, used := count as real, (counter - 1) as real;
            2.0 * (n * n * WaitTime(backoff, scale, counter, count)) ==
              (backoff * scale) * (n * n + 2.0 * (used * used))
  {
    var n, used := count as real, (counter - 1) as real;
    var r := Fraction(counter, count);
    FractionRises(counter, counter, count);
    assert r * n == used;
    assert n * n * (r * r) == used * used by {
      assert n * n * (r * r) == (r * n) * (r * n);
    }
    var unit := backoff * scale;
    assert WaitTime(backoff, scale, counter, count) == unit * (0.5 + r * r);
    assert n * n * (unit * (0.5 + r * r)) == unit * (0.5 * (n * n) + n * n * (r * r));
  }

  /** Every granted wait can be computed (the count is not zero), lies between a
      half and one and a half of backoff times scale, and never falls in a tick. */
  lemma WaitBounds(c: Config, now: nat, parentDone: bool, schedule: seq<Action>, s: State, i: nat, j: nat,
                   backoff: real, scale: real)
    requires Reached(c, now, parentDone, schedule, s) && i <= j < |s.grants|
    requires s.grants[i].tick == s.grants[j].tick && backoff > 0.0 && scale > 0.0
    ensures c.limit.count > 0 && 0 < s.grants[i].counter && 0 < s.grants[j].counter
    ensures var early := WaitTime(backoff, scale, s.grants[i].counter, c.limit.count);
            var late := WaitTime(backoff, scale, s.grants[j].counter, c.limit.count);
            0.5 * (backoff * scale) <= early <= late <= 1.5 * (backoff * scale)
  {
    GrantsHold(c, now, parentDone, schedule, s);
    PositionsSpread(c.limit, s.grants, i, j);
    assert GrantOk(c.limit, s.grants[i]) && GrantOk(c.limit, s.grants[j]);
    WaitRises(backoff, scale, s.grants[i].counter, s.grants[j].counter, c.limit.count);
  }
}
