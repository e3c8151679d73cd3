/** What a pipe ends with, in every mode and for every schedule; that it always
    ends; and that ordered mode is sequential execution. */
module PipeOutcome {
  import opened Errors
  import opened Pipe

  /** `s` is reached from the start by some schedule. */
  ghost predicate Reached(mode: Mode, results: seq<Err>, schedule: seq<Action>, s: State)
  {
    results != [] && Run(Init(mode, results), schedule) == Some(s)
  }

  /** `k` is the position, in delivery order, of the first error delivered. */
  ghost predicate FirstFailure(s: State, k: nat)
  {
    && k < |s.log| && s.log[k] < |s.results| && s.results[s.log[k]].Some?
    && forall j :: 0 <= j < k ==> s.log[j] < |s.results| && s.results[s.log[j]].None?
  }

  /** Every delivered result is success, and every subtask has delivered. */
  ghost predicate AllSucceeded(s: State)
  {
    |s.log| == |s.results| && forall i :: 0 <= i < |s.results| ==> s.results[i].None?
  }

  lemma AllLogged(s: State)
    requires Inv(s) && |s.log| == |s.subs|
    ensures forall i :: 0 <= i < |s.subs| ==> i in s.log
  {
    SumBounds(s.subs, PAST_END_COUNT, 1);
    forall i | 0 <= i < |s.subs| ensures i in s.log {
      assert PAST_END_COUNT(s.subs[i]) == 1;
    }
  }

  /** The first cancel, by a subtask or by the parent, decides for good: the cause
      never changes after it, and it is what the launcher returns. */
  lemma {:induction false} FirstCancelIsFinal(s: State, schedule: seq<Action>, t: State)
    requires Inv(s) && s.cause.Some? && Run(s, schedule) == Some(t)
    ensures Inv(t) && t.cause == s.cause && t.mode == s.mode
    ensures t.launcher.Returned? ==> t.launcher.result == PipeResult(s.mode, s.cause)
  {
    if schedule != [] {
      var last := |schedule| - 1;
      var u := Run(s, schedule[..last]).value;
      FirstCancelIsFinal(s, schedule[..last], u);
      StepKeepsInv(u, schedule[last]);
    }
  }

  /** Ordered and parallel pipes and clusters end with nil when every subtask
      delivered nil, and otherwise with the first error delivered, which parallel
      pipes and clusters make non-retriable. */
  lemma FailFastOutcome(mode: Mode, results: seq<Err>, schedule: seq<Action>, s: State)
    requires Reached(mode, results, schedule, s) && s.launcher.Returned? && !s.parent
    requires mode.Ordered? || mode.Parallel? || mode.Cluster?
    ensures || (AllSucceeded(s) && s.launcher.result == None)
            || exists k: nat :: FirstFailure(s, k) &&
                 var e := NotOk(s.results[s.log[k]].value);
                 s.launcher.result == if e.Some? && !mode.Ordered? then Some(NonRetriable(e.value)) else e
  {
    RunKeepsInv(mode, results, schedule, s);
    var ds := Deliveries(s);
    if k: nat :| FirstCancel(mode, ds, k) && s.cause.value == OrOk(ds[k]) {
      forall j | 0 <= j < k ensures s.log[j] < |s.results| && s.results[s.log[j]].None? {
        assert !EndCancels(mode, ds[j]);
      }
      assert FirstFailure(s, k);
    } else {
      AllLogged(s);
      forall i | 0 <= i < |s.results| ensures s.results[i].None? {
        assert i in s.log;
        var k :| 0 <= k < |s.log| && s.log[k] == i;
        assert !EndCancels(mode, ds[k]);
      }
    }
  }

  /** A race ends with the first result delivered, whatever it is. */
  lemma RaceOutcome(results: seq<Err>, schedule: seq<Action>, s: State)
    requires Reached(Race, results, schedule, s) && s.launcher.Returned? && !s.parent
    ensures |s.log| > 0 && s.log[0] < |results|
    ensures s.launcher.result == NotOk(OrOk(results[s.log[0]]))
  {
    RunKeepsInv(Race, results, schedule, s);
    var ds := Deliveries(s);
    assert |ds| > 0 ==> EndCancels(Race, ds[0]);
    if k: nat :| FirstCancel(Race, ds, k) && s.cause.value == OrOk(ds[k]) {
      assert k == 0;
    }
  }

  /** An `any` pipe never ends with an error, not even when every subtask fails;
      in any reachable state it is done only if some subtask has succeeded or all
      have delivered, and it is done as soon as one has succeeded. */
  lemma AnyOutcome(results: seq<Err>, schedule: seq<Action>, s: State)
    requires Reached(Any, results, schedule, s) && !s.parent
    ensures forall k :: 0 <= k < |s.log| ==> s.log[k] < |results|
    ensures s.launcher.Returned? ==> s.launcher.result == None
    ensures s.cause.Some? ==> |s.log| == |results| || exists k :: 0 <= k < |s.log| && results[s.log[k]].None?
    ensures (exists k :: 0 <= k < |s.log| && results[s.log[k]].None?) ==> s.cause.Some?
  {
    RunKeepsInv(Any, results, schedule, s);
    var ds := Deliveries(s);
    if k: nat :| FirstCancel(Any, ds, k) && s.cause == Some(OrOk(ds[k])) {
      assert results[s.log[k]].None?;
    }
    if k :| 0 <= k < |s.log| && results[s.log[k]].None? {
      assert EndCancels(Any, ds[k]);
    }
  }

  // ---- Ordered mode ----

  /** One subtask after another, stopping at the first error. */
  function Sequential(results: seq<Err>): Err
  {
    if results == [] then None
    else if results[0].Some? then NotOk(results[0].value)
    else Sequential(results[1..])
  }

  lemma {:induction false} SequentialStops(results: seq<Err>, k: nat)
    requires k <= |results| && forall j :: 0 <= j < k ==> results[j].None?
    requires k < |results| ==> results[k].Some?
    ensures Sequential(results) == if k < |results| then NotOk(results[k].value) else None
  {
    if k > 0 {
      SequentialStops(results[1..], k - 1);
    }
  }

  ghost predicate InOrder(s: State)
  {
    forall k :: 0 <= k < |s.log| ==> s.log[k] == k
  }

  /** Subtask `i` exists only once all before it have delivered nil and gone. */
  ghost predicate OneByOne(s: State)
    requires |s.subs| == |s.results|
  {
    forall j, i :: 0 <= j < i < |s.subs| && !s.subs[i].Unspawned? ==>
      s.subs[j] == Exited(Delivered) && s.results[j].None?
  }

  ghost predicate Waited(s: State)
  {
    s.launcher.Recheck? && s.launcher.i <= |s.subs| ==>
      forall j :: 0 <= j < s.launcher.i ==> s.subs[j].Unspawned? || s.subs[j].Exited?
  }

  ghost predicate OrderedInv(s: State)
  {
    s.mode.Ordered? && Inv(s) && InOrder(s) && OneByOne(s) && Waited(s)
  }

  lemma SpawnOneByOne(s: State)
    requires OrderedInv(s) && s.launcher.Recheck? && s.cause.None?
    ensures forall j :: 0 <= j < s.launcher.i ==> s.subs[j] == Exited(Delivered) && s.results[j].None?
  {
    forall j | 0 <= j < s.launcher.i ensures s.subs[j] == Exited(Delivered) && s.results[j].None? {
      assert s.subs[j] == Exited(Delivered);
      assert j in s.log && s.log[j] == j;
      assert !EndCancels(Ordered, Deliveries(s)[j]);
    }
  }

  /** With nobody in the wait group, no goroutine is between spawn and exit. */
  lemma WaitedForAll(s: State)
    requires Inv(s) && s.wg == 0
    ensures forall j :: 0 <= j < |s.subs| ==> !Active(s.subs[j])
  {
    SumBounds(s.subs, ACTIVE_COUNT, 1);
    forall j | 0 <= j < |s.subs| ensures !Active(s.subs[j]) {
      assert ACTIVE_COUNT(s.subs[j]) == 0;
    }
  }

  lemma EndsInOrder(s: State, i: nat)
    requires OrderedInv(s) && Enabled(s, End(i))
    ensures |s.log| == i
  {
    if |s.log| > 0 {
      var last := |s.log| - 1;
      assert s.log[last] == last && PastEnd(s.subs[last]);
      assert last < i;
    }
    if i > 0 {
      assert s.subs[i - 1] == Exited(Delivered);
      assert i - 1 in s.log;
    }
  }

  /** A subtask that has gone stays gone, and only a spawn starts one. */
  lemma GoneStays(s: State, a: Action, j: nat)
    requires Inv(s) && Enabled(s, a) && j < |s.subs|
    ensures |Apply(s, a).subs| == |s.subs| && Apply(s, a).results == s.results
    ensures s.subs[j].Exited? ==> Apply(s, a).subs[j] == s.subs[j]
    ensures s.subs[j].Unspawned? && !Apply(s, a).subs[j].Unspawned? ==>
      a.Launcher? && s.launcher == Recheck(j) && (s.cause.None? || s.mode.Cluster?)
  {
  }

  /** The subtask that a spawn starts has only gone and successful ones before it. */
  lemma StartsAfter(s: State, a: Action, j: nat, i: nat)
    requires OrderedInv(s) && Enabled(s, a) && j < i < |s.subs|
    requires s.subs[i].Unspawned? && |Apply(s, a).subs| == |s.subs| && !Apply(s, a).subs[i].Unspawned?
    ensures s.subs[j] == Exited(Delivered) && s.results[j].None?
  {
    GoneStays(s, a, i);
    SpawnOneByOne(s);
  }

  lemma StepOneByOne(s: State, a: Action)
    requires OrderedInv(s) && Enabled(s, a)
    ensures |Apply(s, a).subs| == |Apply(s, a).results| && OneByOne(Apply(s, a))
  {
    GoneStays(s, a, 0);
    forall j, i | 0 <= j < i < |s.subs| && !Apply(s, a).subs[i].Unspawned?
      ensures Apply(s, a).subs[j] == Exited(Delivered) && s.results[j].None?
    {
      if s.subs[i].Unspawned? {
        StartsAfter(s, a, j, i);
      }
      GoneStays(s, a, j);
    }
  }

  lemma StepWaited(s: State, a: Action)
    requires OrderedInv(s) && Enabled(s, a)
    ensures Waited(Apply(s, a))
  {
    if a.Launcher? && s.launcher.Serialize? {
      WaitedForAll(s);
    }
  }

  lemma StepKeepsOrdered(s: State, a: Action)
    requires OrderedInv(s) && Enabled(s, a)
    ensures OrderedInv(Apply(s, a))
  {
    StepKeepsInv(s, a);
    StepOneByOne(s, a);
    StepWaited(s, a);
    if a.End? {
      EndsInOrder(s, a.i);
    }
  }

  lemma {:induction false} RunKeepsOrdered(results: seq<Err>, schedule: seq<Action>, s: State)
    requires Reached(Ordered, results, schedule, s)
    ensures OrderedInv(s) && s.results == results
  {
    RunKeepsInv(Ordered, results, schedule, s);
    if schedule != [] {
      var last := |schedule| - 1;
      var t := Run(Init(Ordered, results), schedule[..last]).value;
      RunKeepsOrdered(results, schedule[..last], t);
      StepKeepsOrdered(t, schedule[last]);
    }
  }

  lemma OneInFlight(s: State)
    requires OrderedInv(s)
    ensures forall i, j :: 0 <= i < |s.subs| && 0 <= j < |s.subs| && Active(s.subs[i]) && Active(s.subs[j]) ==> i == j
  {
  }

  /** Under every schedule, with or without parent cancellation: spawned subtasks
      are a prefix, at most one is in flight, and a subtask is spawned only after
      all before it delivered nil. */
  lemma OrderedOneInFlight(results: seq<Err>, schedule: seq<Action>, s: State)
    requires Reached(Ordered, results, schedule, s)
    ensures |s.subs| == |results|
    ensures forall i, j :: 0 <= j < i < |s.subs| && !s.subs[i].Unspawned? ==> s.subs[j].Exited? && results[j].None?
    ensures forall i, j :: 0 <= i < |s.subs| && 0 <= j < |s.subs| && Active(s.subs[i]) && Active(s.subs[j]) ==> i == j
  {
    RunKeepsOrdered(results, schedule, s);
    OneInFlight(s);
  }

  /** The cause of an ordered pipe that the parent left alone. */
  lemma OrderedCause(s: State)
    requires OrderedInv(s) && s.cause.Some? && !s.parent
    ensures NotOk(s.cause.value) == Sequential(s.results)
  {
    var ds := Deliveries(s);
    var n := |s.results|;
    assert forall k :: 0 <= k < |ds| ==> ds[k] == s.results[s.log[k]] && s.log[k] == k;
    if k: nat :| FirstCancel(Ordered, ds, k) && s.cause.value == OrOk(ds[k]) {
      forall j | 0 <= j < k ensures s.results[j].None? {
        assert !EndCancels(Ordered, ds[j]);
      }
      SequentialStops(s.results, k);
    } else {
      forall j | 0 <= j < n ensures s.results[j].None? {
        assert !EndCancels(Ordered, ds[j]);
      }
      SequentialStops(s.results, n);
    }
  }

  /** An ordered pipe delivers in order, and only the last delivery can be an error. */
  lemma OrderedLog(s: State)
    requires OrderedInv(s)
    ensures |s.log| <= |s.results|
    ensures forall j :: 0 <= j < |s.log| - 1 ==> s.results[j].None?
  {
    SumBounds(s.subs, PAST_END_COUNT, 1);
    if |s.log| > 0 {
      assert PastEnd(s.subs[s.log[|s.log| - 1]]);
      assert !s.subs[|s.log| - 1].Unspawned?;
    }
  }

  /** What an ordered pipe has delivered is always the beginning of what sequential
      execution delivers; left alone, it returns what sequential execution returns. */
  lemma OrderedIsSequential(results: seq<Err>, schedule: seq<Action>, s: State)
    requires Reached(Ordered, results, schedule, s)
    ensures |s.log| <= |results| && s.log == seq(|s.log|, k => k)
    ensures forall j :: 0 <= j < |s.log| - 1 ==> results[j].None?
    ensures s.launcher.Returned? && !s.parent ==> s.launcher.result == Sequential(results)
  {
    RunKeepsOrdered(results, schedule, s);
    OrderedLog(s);
    if s.launcher.Returned? && !s.parent {
      OrderedCause(s);
    }
  }

  // ---- Progress ----

  function Weight(pc: SubtaskPc): nat
  {
    match pc
    case Unspawned => 7
    case Spawned => 6
    case Waiting => 5
    case Received => 4
    case Ended => 3
    case Zeroed => 2
    case Leaving(_) => 1
    case Exited(_) => 0
  }

  const WEIGHT: SubtaskPc -> nat := pc => Weight(pc)

  function LauncherWeight(s: State): int
  {
    match s.launcher
    case Check(i) => 3 * (|s.subs| - i) + 2
    case Serialize(i) => 3 * (|s.subs| - i) + 1
    case Recheck(i) => 3 * (|s.subs| - i)
    case AwaitDone => 1
    case Returned(_) => 0
  }

  /** The steps a pipe can still take are at most this many. */
  function Measure(s: State): int
  {
    LauncherWeight(s) + Sum(s.subs, WEIGHT) + Indicator(s.cause.None?)
  }

  lemma LauncherFalls(s: State)
    requires Control(s) && Enabled(s, Launcher)
    ensures Measure(Apply(s, Launcher)) < Measure(s)
  {
    if s.launcher.Recheck? {
      SumUpdate(s.subs, WEIGHT, s.launcher.i, Spawned);
    }
  }

  lemma SubtaskFalls(s: State, a: Action)
    requires Control(s) && Enabled(s, a) && !a.Launcher? && !a.ParentCancel?
    ensures Measure(Apply(s, a)) < Measure(s)
  {
    var pc := Apply(s, a).subs[a.i];
    assert Apply(s, a).subs == s.subs[a.i := pc] && Weight(pc) < Weight(s.subs[a.i]);
    SumUpdate(s.subs, WEIGHT, a.i, pc);
  }

  lemma StepFalls(s: State, a: Action)
    requires Control(s) && Enabled(s, a)
    ensures Measure(Apply(s, a)) < Measure(s)
  {
    match a
    case Launcher => LauncherFalls(s);
    case ParentCancel(_) =>
    case _ => SubtaskFalls(s, a);
  }

  /** No schedule is longer than `10 n + 3` steps. */
  lemma {:induction false} ScheduleBound(mode: Mode, results: seq<Err>, schedule: seq<Action>, s: State)
    requires Reached(mode, results, schedule, s)
    ensures |schedule| + Measure(s) <= 10 * |results| + 3 && Measure(s) >= 0
  {
    RunKeepsInv(mode, results, schedule, s);
    if schedule == [] {
      SumAll(s.subs, WEIGHT, 7);
    } else {
      var last := |schedule| - 1;
      var t := Run(Init(mode, results), schedule[..last]).value;
      ScheduleBound(mode, results, schedule[..last], t);
      RunKeepsInv(mode, results, schedule[..last], t);
      StepFalls(t, schedule[last]);
    }
  }

  /** The step a live goroutine can take. */
  function StepOf(s: State, i: nat): (a: Action)
    requires i < |s.subs| == |s.results| && Active(s.subs[i])
    ensures Enabled(s, a) && !a.Launcher? && !a.ParentCancel?
  {
    match s.subs[i]
    case Spawned => Launch(i)
    case Waiting => Receive(i)
    case Received => End(i)
    case Ended => Decrement(i)
    case Zeroed => CancelZero(i)
    case Leaving(_) => Leave(i)
  }

  /** While the context is live and the launcher waits, a goroutine is live. */
  lemma SomeoneLive(s: State) returns (i: nat)
    requires Inv(s) && s.launcher.AwaitDone? && s.cause.None?
    ensures i < |s.subs| && Active(s.subs[i])
  {
    if forall j :: 0 <= j < |s.subs| ==> !Active(s.subs[j]) {
      forall j | 0 <= j < |s.subs| ensures DECREMENTED_COUNT(s.subs[j]) == 1 {
        assert s.subs[j] == Exited(Delivered);
      }
      SumAll(s.subs, DECREMENTED_COUNT, 1);
    }
    i :| 0 <= i < |s.subs| && Active(s.subs[i]);
  }

  /** A goroutine the wait group still counts. */
  lemma SomeoneCounted(s: State) returns (i: nat)
    requires Inv(s) && s.wg != 0
    ensures i < |s.subs| && Active(s.subs[i])
  {
    if forall j :: 0 <= j < |s.subs| ==> !Active(s.subs[j]) {
      SumAll(s.subs, ACTIVE_COUNT, 0);
    }
    i :| 0 <= i < |s.subs| && Active(s.subs[i]);
  }

  /** Until the launcher has returned and every goroutine has left, the launcher
      or a goroutine has a step (a launched subtask delivers): no deadlock. */
  lemma Progress(s: State) returns (a: Action)
    requires Inv(s)
    requires !s.launcher.Returned? || exists i :: 0 <= i < |s.subs| && Active(s.subs[i])
    ensures Enabled(s, a) && !a.ParentCancel?
  {
    if Enabled(s, Launcher) {
      a := Launcher;
    } else {
      var i: nat;
      if s.launcher.AwaitDone? {
        i := SomeoneLive(s);
      } else if s.launcher.Serialize? {
        i := SomeoneCounted(s);
      } else {
        i :| i < |s.subs| && Active(s.subs[i]);
      }
      a := StepOf(s, i);
    }
  }

  /** Whatever the schedule, a pipe that can move no further is done, its launcher
      has returned, and no goroutine is left behind. */
  lemma PipeEnds(mode: Mode, results: seq<Err>, schedule: seq<Action>, s: State)
    requires Reached(mode, results, schedule, s)
    requires forall a :: Enabled(s, a) ==> a.ParentCancel?
    ensures s.cause.Some? && s.launcher.Returned?
    ensures forall i :: 0 <= i < |s.subs| ==> s.subs[i].Unspawned? || s.subs[i].Exited?
    ensures |schedule| <= 10 * |results| + 3
  {
    RunKeepsInv(mode, results, schedule, s);
    ScheduleBound(mode, results, schedule, s);
    if !s.launcher.Returned? || exists i :: 0 <= i < |s.subs| && Active(s.subs[i]) {
      var a := Progress(s);
    }
  }

  lemma Extend(start: State, done: seq<Action>, s: State, a: Action) returns (next: seq<Action>, t: State)
    requires Run(start, done) == Some(s) && Enabled(s, a)
    ensures next == done + [a] && t == Apply(s, a) && Run(start, next) == Some(t)
  {
    next, t := done + [a], Apply(s, a);
    assert next[..|done|] == done;
  }

  /** From every reached state the pipe can be left to run to its end, with nobody
      cancelling. */
  lemma {:induction false} RunsToEnd(mode: Mode, results: seq<Err>, done: seq<Action>, s: State)
    returns (schedule: seq<Action>, t: State)
    requires Reached(mode, results, done, s)
    ensures Reached(mode, results, schedule, t) && t.launcher.Returned? && t.parent == s.parent
    decreases 10 * |results| + 3 - |done|
  {
    schedule, t := done, s;
    ScheduleBound(mode, results, done, s);
    if !s.launcher.Returned? {
      RunKeepsInv(mode, results, done, s);
      var a := Progress(s);
      schedule, t := Extend(Init(mode, results), done, s, a);
      ScheduleBound(mode, results, schedule, t);
      schedule, t := RunsToEnd(mode, results, schedule, t);
    }
  }

  /** An `any` pipe whose subtasks all fail, whatever their errors, has a run in which
      all deliver and it ends with nil. */
  lemma AnyHidesFailures(results: seq<Err>) returns (schedule: seq<Action>, s: State)
    requires results != [] && forall i :: 0 <= i < |results| ==> results[i].Some?
    ensures Reached(Any, results, schedule, s) && s.launcher.Returned? && !s.parent
    ensures |s.log| == |results| && s.launcher.result == None
  {
    assert Run(Init(Any, results), []) == Some(Init(Any, results));
    schedule, s := RunsToEnd(Any, results, [], Init(Any, results));
    AnyOutcome(results, schedule, s);
    RunKeepsInv(Any, results, schedule, s);
  }

  /** A run of an `any` pipe that ended with nil although no success was delivered. */
  ghost predicate HidesFailure(results: seq<Err>, schedule: seq<Action>, s: State)
  {
    && Reached(Any, results, schedule, s) && s.launcher.Returned? && !s.parent && s.launcher.result == None
    && forall k :: 0 <= k < |s.log| ==> s.log[k] < |results| && results[s.log[k]].Some?
  }

  /** Exactly when an `any` pipe can hide failure: if and only if all subtasks fail. */
  lemma AnyHidesExactly(results: seq<Err>)
    requires results != []
    ensures (exists schedule, s :: HidesFailure(results, schedule, s)) <==>
              forall i :: 0 <= i < |results| ==> results[i].Some?
  {
    if forall i :: 0 <= i < |results| ==> results[i].Some? {
      var schedule, s := AnyHidesFailures(results);
      AnyOutcome(results, schedule, s);
      assert HidesFailure(results, schedule, s);
    }
    forall schedule, s | HidesFailure(results, schedule, s)
      ensures forall i :: 0 <= i < |results| ==> results[i].Some?
    {
      RunKeepsInv(Any, results, schedule, s);
      AnyOutcome(results, schedule, s);
      AllLogged(s);
      forall i | 0 <= i < |results| ensures results[i].Some? {
        assert i in s.log;
        var k :| 0 <= k < |s.log| && s.log[k] == i;
        assert results[s.log[k]].Some?;
      }
    }
  }

  // ---- What a cluster counts ----

  predicate CountsOff(pc: SubtaskPc) { pc.Ended? || Decremented(pc) }

  /** Only successes are counted off a cluster's counter: its goroutines leave with an
      error without touching it. */
  lemma {:induction false} ClusterCountsSuccesses(results: seq<Err>, schedule: seq<Action>, s: State, i: nat)
    requires Reached(Cluster, results, schedule, s) && i < |s.subs|
    ensures |s.subs| == |results| && (CountsOff(s.subs[i]) ==> results[i].None?)
  {
    RunKeepsInv(Cluster, results, schedule, s);
    if schedule != [] {
      var last := |schedule| - 1;
      var t := Run(Init(Cluster, results), schedule[..last]).value;
      RunKeepsInv(Cluster, results, schedule[..last], t);
      ClusterCountsSuccesses(results, schedule[..last], t, i);
      CountedOffBefore(t, schedule[last], i);
    }
  }

  lemma CountedOffBefore(s: State, a: Action, i: nat)
    requires Inv(s) && s.mode.Cluster? && Enabled(s, a) && i < |s.subs| && |Apply(s, a).subs| == |s.subs|
    ensures CountsOff(Apply(s, a).subs[i]) ==> CountsOff(s.subs[i]) || s.results[i].None?
  {
  }

  // ---- Cancelling the rest ----

  const SPAWNED_COUNT: SubtaskPc -> nat := (pc: SubtaskPc) => Indicator(!pc.Unspawned?)

  /** A cluster looks at its context before a spawn, and not again: one may be on its
      way. */
  function OnItsWay(s: State): nat
  {
    if s.mode.Cluster? && s.launcher.Recheck? then 1 else 0
  }

  lemma StepSpawns(s: State, a: Action)
    requires Inv(s) && s.cause.Some? && Enabled(s, a)
    ensures Sum(Apply(s, a).subs, SPAWNED_COUNT) + OnItsWay(Apply(s, a)) <= Sum(s.subs, SPAWNED_COUNT) + OnItsWay(s)
  {
    var t := Apply(s, a);
    if a.Launcher? {
      if t.subs != s.subs {
        SumUpdate(s.subs, SPAWNED_COUNT, s.launcher.i, Spawned);
      }
    } else if !a.ParentCancel? {
      assert t.subs == s.subs[a.i := t.subs[a.i]];
      SumUpdate(s.subs, SPAWNED_COUNT, a.i, t.subs[a.i]);
    }
  }

  /** Once the context is done no subtask is spawned, but for one a cluster's launcher
      was already past its look for. */
  lemma {:induction false} NoSpawnAfterCancel(s: State, schedule: seq<Action>, t: State)
    requires Inv(s) && s.cause.Some? && Run(s, schedule) == Some(t)
    ensures Inv(t) && t.cause.Some?
    ensures Sum(t.subs, SPAWNED_COUNT) + OnItsWay(t) <= Sum(s.subs, SPAWNED_COUNT) + OnItsWay(s)
  {
    FirstCancelIsFinal(s, schedule, t);
    if schedule != [] {
      var last := |schedule| - 1;
      var u := Run(s, schedule[..last]).value;
      NoSpawnAfterCancel(s, schedule[..last], u);
      StepSpawns(u, schedule[last]);
    }
  }

  /** No subtask delivers. */
  predicate NoDelivery(schedule: seq<Action>)
  {
    forall k :: 0 <= k < |schedule| ==> !schedule[k].Receive? && !schedule[k].ParentCancel?
  }

  /** The step a live goroutine can take when the context is done, without waiting for
      its subtask. */
  function StepAway(s: State, i: nat): (a: Action)
    requires i < |s.subs| == |s.results| && Active(s.subs[i]) && s.cause.Some?
    ensures Enabled(s, a) && !a.Receive? && !a.ParentCancel?
  {
    if s.subs[i].Waiting? then SeeDone(i) else StepOf(s, i)
  }

  predicate AllGone(s: State)
  {
    s.launcher.Returned? && forall i :: 0 <= i < |s.subs| ==> !Active(s.subs[i])
  }

  lemma NextAway(s: State) returns (a: Action)
    requires Inv(s) && s.cause.Some? && !AllGone(s)
    ensures Enabled(s, a) && !a.Receive? && !a.ParentCancel?
  {
    if Enabled(s, Launcher) {
      a := Launcher;
    } else {
      var i: nat;
      if s.launcher.Serialize? {
        i := SomeoneCounted(s);
      } else {
        i :| i < |s.subs| && Active(s.subs[i]);
      }
      a := StepAway(s, i);
    }
  }

  /** Cancelling ends the rest: from every state in which the context is done, the pipe
      can be run to the end of its launcher and of every goroutine, although no subtask
      ever delivers again. */
  lemma {:induction false} CancelEndsTheRest(s: State) returns (schedule: seq<Action>, t: State)
    requires Inv(s) && s.cause.Some?
    ensures Run(s, schedule) == Some(t) && NoDelivery(schedule) && Inv(t) && AllGone(t)
    decreases Measure(s) + 1
  {
    if AllGone(s) {
      schedule, t := [], s;
    } else {
      var a := NextAway(s);
      StepKeepsInv(s, a);
      StepFalls(s, a);
      MeasureIsNat(Apply(s, a));
      CauseStays(s, a);
      var more;
      more, t := CancelEndsTheRest(Apply(s, a));
      schedule := [a] + more;
      RunFrom(s, a, more);
    }
  }

  lemma CauseStays(s: State, a: Action)
    requires Enabled(s, a) && s.cause.Some?
    ensures Apply(s, a).cause == s.cause
  {
  }

  lemma MeasureIsNat(s: State)
    requires Inv(s)
    ensures Measure(s) >= 0
  {
  }

  lemma {:induction false} RunFrom(s: State, a: Action, more: seq<Action>)
    requires Enabled(s, a)
    ensures Run(s, [a] + more) == Run(Apply(s, a), more)
  {
    if more == [] {
      assert ([a] + more)[..0] == [];
      assert [a] + more == [a];
    } else {
      var last := |more| - 1;
      RunFrom(s, a, more[..last]);
      assert ([a] + more)[..|more|] == [a] + more[..last];
    }
  }
}
