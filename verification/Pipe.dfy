/** Pipes of subtasks and the cluster of identical instances: one launcher, one
    goroutine a subtask, an atomic `left` counter, a wait group and a context
    whose first cancel fixes its cause.  Every atomic operation, channel
    operation and context call of the source is one step, and any process may
    move next. */
module Pipe {
  import opened Errors

  /** The four pipe modes, and the cluster controller, which is written out
      separately in the source and has no wait group. */
  datatype Mode = Ordered | Parallel | Race | Any | Cluster

  datatype LauncherPc =
    | Check(i: nat)
    | Serialize(i: nat)
    | Recheck(i: nat)
    | AwaitDone
    | Returned(result: Err)

  datatype Exit = Aborted | Delivered | Failed

  datatype SubtaskPc =
    | Unspawned
    | Spawned
    | Waiting
    | Received
    | Ended
    | Zeroed
    | Leaving(how: Exit)
    | Exited(how: Exit)

  /** `results[i]` is what subtask `i` delivers once it is launched and finishes.
      `log` lists the subtasks whose result reached the mode's `end`, in order.
      `parent` says that the first cancel came from the parent context. */
  datatype State = State(
    mode: Mode,
    results: seq<Err>,
    launcher: LauncherPc,
    subs: seq<SubtaskPc>,
    left: int,
    wg: int,
    cause: Option<Error>,
    parent: bool,
    log: seq<nat>)

  datatype Action =
    | Launcher
    | Launch(i: nat)
    | SeeDone(i: nat)
    | Receive(i: nat)
    | End(i: nat)
    | Decrement(i: nat)
    | CancelZero(i: nat)
    | Leave(i: nat)
    | ParentCancel(e: Error)

  function Init(mode: Mode, results: seq<Err>): State
  {
    State(mode, results, Check(0), seq(|results|, _ => Unspawned), |results|, 0, None, false, [])
  }

  /** The first cancel of a context fixes its cause. */
  function Cancel(cause: Option<Error>, e: Err): Option<Error>
  {
    if cause.None? then Some(OrOk(e)) else cause
  }

  /** Whether the mode's `end` calls cancel for this result. */
  predicate EndCancels(mode: Mode, e: Err)
  {
    match mode
    case Ordered | Parallel | Cluster => e.Some?
    case Race => true
    case Any => e.None?
  }

  /** What the launcher returns once the context is done. */
  function PipeResult(mode: Mode, cause: Option<Error>): Err
  {
    var e := Cause(cause);
    if e.Some? && (mode.Parallel? || mode.Cluster?) then Some(NonRetriable(e.value)) else e
  }

  predicate At(s: State, i: nat, pc: SubtaskPc)
  {
    i < |s.subs| && s.subs[i] == pc
  }

  predicate Enabled(s: State, a: Action)
  {
    match a
    case Launcher =>
      (match s.launcher
       case Check(_) => true
       case Serialize(_) => s.wg == 0
       case Recheck(i) => i < |s.subs|
       case AwaitDone => s.cause.Some?
       case Returned(_) => false)
    case Launch(i) => At(s, i, Spawned)
    case SeeDone(i) => At(s, i, Waiting) && s.cause.Some?
    case Receive(i) => At(s, i, Waiting)
    case End(i) => At(s, i, Received) && i < |s.results|
    case Decrement(i) => At(s, i, Ended)
    case CancelZero(i) => At(s, i, Zeroed)
    case Leave(i) => i < |s.subs| && s.subs[i].Leaving?
    case ParentCancel(_) => s.cause.None?
  }

  function LauncherStep(s: State): State
    requires Enabled(s, Launcher)
  {
    match s.launcher
    case Check(i) =>
      if i >= |s.subs| || s.cause.Some? then s.(launcher := AwaitDone)
      else if s.mode.Ordered? then s.(launcher := Serialize(i))
      else s.(launcher := Recheck(i))
    case Serialize(i) => s.(launcher := Recheck(i))
    case Recheck(i) =>
      if s.cause.None? || s.mode.Cluster?
      then s.(launcher := Check(i + 1), wg := s.wg + 1, subs := s.subs[i := Spawned])
      else s.(launcher := Check(i + 1))
    case AwaitDone => s.(launcher := Returned(PipeResult(s.mode, s.cause)))
  }

  function Apply(s: State, a: Action): State
    requires Enabled(s, a)
  {
    match a
    case Launcher => LauncherStep(s)
    case Launch(i) => s.(subs := s.subs[i := Waiting])
    case SeeDone(i) => s.(subs := s.subs[i := Leaving(Aborted)])
    case Receive(i) => s.(subs := s.subs[i := Received])
    case End(i) =>
      var e := s.results[i];
      s.(log := s.log + [i],
         cause := if EndCancels(s.mode, e) then Cancel(s.cause, e) else s.cause,
         subs := s.subs[i := if s.mode.Cluster? && e.Some? then Leaving(Failed) else Ended])
    case Decrement(i) =>
      s.(left := s.left - 1,
         subs := s.subs[i := if s.left - 1 == 0 then Zeroed else Leaving(Delivered)])
    case CancelZero(i) =>
      s.(cause := Cancel(s.cause, None), subs := s.subs[i := Leaving(Delivered)])
    case Leave(i) => s.(wg := s.wg - 1, subs := s.subs[i := Exited(s.subs[i].how)])
    case ParentCancel(e) => s.(cause := Some(e), parent := true)
  }

  /** The state after a schedule; `None` when some action of it was not enabled. */
  function Run(s: State, schedule: seq<Action>): Option<State>
  {
    if schedule == [] then Some(s)
    else
      var last := |schedule| - 1;
      match Run(s, schedule[..last])
      case None => None
      case Some(t) => if Enabled(t, schedule[last]) then Some(Apply(t, schedule[last])) else None
  }

  // ---- The reference: what a list of delivered results decides ----

  function Deliveries(s: State): (ds: seq<Err>)
    requires forall k :: 0 <= k < |s.log| ==> s.log[k] < |s.results|
    ensures |ds| == |s.log|
  {
    seq(|s.log|, k requires 0 <= k < |s.log| => s.results[s.log[k]])
  }

  /** `k` is the first delivery for which the mode cancels. */
  ghost predicate FirstCancel(mode: Mode, ds: seq<Err>, k: nat)
  {
    k < |ds| && EndCancels(mode, ds[k]) && forall j :: 0 <= j < k ==> !EndCancels(mode, ds[j])
  }

  /** The deliveries decide `cause`: either it is the first result for which the
      mode cancels, or there is none, all `n` have delivered and it is success. */
  ghost predicate Decides(mode: Mode, n: nat, ds: seq<Err>, cause: Error)
  {
    || (exists k: nat :: FirstCancel(mode, ds, k) && cause == OrOk(ds[k]))
    || (|ds| == n && (forall j :: 0 <= j < n ==> !EndCancels(mode, ds[j])) && cause == ErrOk)
  }

  // ---- Counting goroutines ----

  function Indicator(b: bool): nat { if b then 1 else 0 }

  function Sum(subs: seq<SubtaskPc>, w: SubtaskPc -> nat): nat
  {
    if subs == [] then 0 else w(subs[0]) + Sum(subs[1..], w)
  }

  lemma {:induction false} SumUpdate(subs: seq<SubtaskPc>, w: SubtaskPc -> nat, i: nat, pc: SubtaskPc)
    requires i < |subs|
    ensures Sum(subs[i := pc], w) + w(subs[i]) == Sum(subs, w) + w(pc)
  {
    if i == 0 {
      assert subs[i := pc][1..] == subs[1..];
    } else {
      SumUpdate(subs[1..], w, i - 1, pc);
      assert subs[i := pc][1..] == subs[1..][i - 1 := pc];
    }
  }

  lemma {:induction false} SumBounds(subs: seq<SubtaskPc>, w: SubtaskPc -> nat, b: nat)
    requires forall pc :: w(pc) <= b
    ensures Sum(subs, w) <= b * |subs|
    ensures forall i :: 0 <= i < |subs| ==> w(subs[i]) <= Sum(subs, w)
    ensures Sum(subs, w) == b * |subs| ==> forall i :: 0 <= i < |subs| ==> w(subs[i]) == b
  {
    if subs != [] {
      SumBounds(subs[1..], w, b);
      assert b * |subs| == b + b * |subs[1..]|;
      forall i | 0 < i < |subs|
        ensures w(subs[i]) <= Sum(subs, w)
        ensures Sum(subs, w) == b * |subs| ==> w(subs[i]) == b
      {
        assert subs[i] == subs[1..][i - 1];
      }
    }
  }

  lemma {:induction false} SumAll(subs: seq<SubtaskPc>, w: SubtaskPc -> nat, c: nat)
    requires forall i :: 0 <= i < |subs| ==> w(subs[i]) == c
    ensures Sum(subs, w) == c * |subs|
  {
    if subs != [] {
      SumAll(subs[1..], w, c);
      assert c * |subs| == c + c * |subs[1..]|;
    }
  }

  predicate Active(pc: SubtaskPc) { !pc.Unspawned? && !pc.Exited? }

  predicate Decremented(pc: SubtaskPc)
  {
    pc.Zeroed? || ((pc.Leaving? || pc.Exited?) && pc.how.Delivered?)
  }

  predicate PastEnd(pc: SubtaskPc)
  {
    pc.Ended? || pc.Zeroed? || ((pc.Leaving? || pc.Exited?) && !pc.how.Aborted?)
  }

  const ACTIVE_COUNT: SubtaskPc -> nat := pc => Indicator(Active(pc))
  const DECREMENTED_COUNT: SubtaskPc -> nat := pc => Indicator(Decremented(pc))
  const PAST_END_COUNT: SubtaskPc -> nat := pc => Indicator(PastEnd(pc))

  // ---- Invariants ----

  function NextIndex(s: State): nat
  {
    match s.launcher
    case Check(i) => i
    case Serialize(i) => i
    case Recheck(i) => i
    case _ => |s.subs|
  }

  /** Control: which goroutines exist, and when a process can be where it is. */
  ghost predicate Control(s: State)
  {
    && |s.subs| == |s.results| > 0
    && NextIndex(s) <= |s.subs|
    && (s.launcher.Serialize? || s.launcher.Recheck? ==> s.launcher.i < |s.subs|)
    && (s.launcher.Serialize? ==> s.mode.Ordered?)
    && (s.launcher.Returned? ==> s.cause.Some? && s.launcher.result == PipeResult(s.mode, s.cause))
    && (s.parent ==> s.cause.Some?)
    && (forall i :: NextIndex(s) <= i < |s.subs| ==> s.subs[i].Unspawned?)
    && (s.cause.None? ==> forall i :: 0 <= i < NextIndex(s) ==> !s.subs[i].Unspawned?)
    && (s.cause.None? ==>
          forall i :: 0 <= i < |s.subs| && (s.subs[i].Leaving? || s.subs[i].Exited?) ==> s.subs[i].how.Delivered?)
  }

  /** Conservation: the counters are exactly what the goroutines have done. */
  ghost predicate Conserved(s: State)
  {
    && s.wg == Sum(s.subs, ACTIVE_COUNT)
    && s.left + Sum(s.subs, DECREMENTED_COUNT) == |s.subs|
    && |s.log| == Sum(s.subs, PAST_END_COUNT)
    && (forall i :: 0 <= i < |s.subs| && s.subs[i].Zeroed? ==> s.left == 0)
    && (s.left == 0 && s.cause.None? ==> exists i :: 0 <= i < |s.subs| && s.subs[i].Zeroed?)
  }

  ghost predicate Logged(s: State)
    requires |s.subs| == |s.results|
  {
    && (forall k :: 0 <= k < |s.log| ==> s.log[k] < |s.subs| && PastEnd(s.subs[s.log[k]]))
    && (forall i :: 0 <= i < |s.subs| && PastEnd(s.subs[i]) ==> i in s.log)
  }

  ghost predicate Decided(s: State)
    requires |s.subs| == |s.results|
    requires Logged(s)
  {
    var ds := Deliveries(s);
    && (s.cause.None? ==> forall k :: 0 <= k < |ds| ==> !EndCancels(s.mode, ds[k]))
    && (s.cause.Some? && !s.parent ==> Decides(s.mode, |s.subs|, ds, s.cause.value))
  }

  ghost predicate Inv(s: State)
  {
    Control(s) && Conserved(s) && Logged(s) && Decided(s)
  }

  lemma InitInv(mode: Mode, results: seq<Err>)
    requires results != []
    ensures Inv(Init(mode, results))
  {
    var s := Init(mode, results);
    SumAll(s.subs, ACTIVE_COUNT, 0);
    SumAll(s.subs, DECREMENTED_COUNT, 0);
    SumAll(s.subs, PAST_END_COUNT, 0);
  }

  /** How one goroutine's move changes the three counts. */
  lemma Counts(s: State, i: nat, pc: SubtaskPc)
    requires i < |s.subs|
    ensures var t, was := s.subs[i := pc], s.subs[i];
            && Sum(t, ACTIVE_COUNT) + ACTIVE_COUNT(was) == Sum(s.subs, ACTIVE_COUNT) + ACTIVE_COUNT(pc)
            && Sum(t, DECREMENTED_COUNT) + DECREMENTED_COUNT(was) ==
                 Sum(s.subs, DECREMENTED_COUNT) + DECREMENTED_COUNT(pc)
            && Sum(t, PAST_END_COUNT) + PAST_END_COUNT(was) == Sum(s.subs, PAST_END_COUNT) + PAST_END_COUNT(pc)
  {
    SumUpdate(s.subs, ACTIVE_COUNT, i, pc);
    SumUpdate(s.subs, DECREMENTED_COUNT, i, pc);
    SumUpdate(s.subs, PAST_END_COUNT, i, pc);
  }

  /** Results delivered after the decision do not change it. */
  lemma DecidesStable(mode: Mode, n: nat, ds: seq<Err>, e: Err, cause: Error)
    requires Decides(mode, n, ds, cause) && |ds| < n
    ensures Decides(mode, n, ds + [e], cause)
  {
    var k: nat :| FirstCancel(mode, ds, k) && cause == OrOk(ds[k]);
    assert FirstCancel(mode, ds + [e], k) && (ds + [e])[k] == ds[k];
  }

  /** A goroutine still before its `end` means not all have delivered. */
  lemma NotAllDelivered(s: State, i: nat)
    requires Inv(s) && i < |s.subs| && !PastEnd(s.subs[i])
    ensures |s.log| < |s.subs|
  {
    SumBounds(s.subs, PAST_END_COUNT, 1);
  }

  /** The zero of `left` means all have delivered. */
  lemma AllDelivered(s: State)
    requires Inv(s) && s.left == 0
    ensures |s.log| == |s.subs|
  {
    SumBounds(s.subs, DECREMENTED_COUNT, 1);
    forall i | 0 <= i < |s.subs| ensures PAST_END_COUNT(s.subs[i]) == 1 {
      assert DECREMENTED_COUNT(s.subs[i]) == 1;
    }
    SumAll(s.subs, PAST_END_COUNT, 1);
  }

  lemma ControlKept(s: State, a: Action)
    requires Inv(s) && Enabled(s, a)
    ensures Control(Apply(s, a))
  {
  }

  /** One goroutine moves: the counters follow it. */
  lemma MoveConserves(s: State, t: State, i: nat, pc: SubtaskPc)
    requires Conserved(s) && i < |s.subs| && t.subs == s.subs[i := pc]
    requires t.wg + ACTIVE_COUNT(s.subs[i]) == s.wg + ACTIVE_COUNT(pc)
    requires t.left + DECREMENTED_COUNT(pc) == s.left + DECREMENTED_COUNT(s.subs[i])
    requires |t.log| + PAST_END_COUNT(s.subs[i]) == |s.log| + PAST_END_COUNT(pc)
    requires s.cause.Some? ==> t.cause.Some?
    requires s.subs[i].Zeroed? ==> t.cause.Some?
    requires if t.left == s.left then !pc.Zeroed? else t.left < s.left && (t.left == 0 <==> pc.Zeroed?)
    ensures Conserved(t)
  {
    Counts(s, i, pc);
    if t.left != s.left {
      SumBounds(s.subs, DECREMENTED_COUNT, 1);
      assert DECREMENTED_COUNT(s.subs[i]) == 0;
      assert s.left != 0;
      if t.left == 0 { assert t.subs[i].Zeroed?; }
    } else if t.left == 0 && t.cause.None? {
      var z :| 0 <= z < |s.subs| && s.subs[z].Zeroed?;
      assert t.subs[z].Zeroed?;
    }
  }

  lemma LauncherConserves(s: State)
    requires Control(s) && Conserved(s) && Enabled(s, Launcher)
    ensures Conserved(Apply(s, Launcher))
  {
    if s.launcher.Recheck? && (s.cause.None? || s.mode.Cluster?) {
      MoveConserves(s, Apply(s, Launcher), s.launcher.i, Spawned);
    }
  }

  lemma SubtaskConserves(s: State, a: Action)
    requires Control(s) && Conserved(s) && Enabled(s, a) && !a.Launcher? && !a.ParentCancel?
    ensures Conserved(Apply(s, a))
  {
    var t := Apply(s, a);
    MoveConserves(s, t, a.i, t.subs[a.i]);
  }

  /** Only a step through `end` puts a subtask past it, and none takes it back. */
  lemma PastEndStep(s: State, a: Action, j: nat)
    requires Control(s) && Enabled(s, a) && j < |s.subs|
    ensures |Apply(s, a).subs| == |s.subs|
    ensures Apply(s, a).log == if a.End? then s.log + [a.i] else s.log
    ensures PastEnd(Apply(s, a).subs[j]) <==> PastEnd(s.subs[j]) || a == End(j)
  {
  }

  lemma LoggedKept(s: State, a: Action)
    requires Control(s) && Logged(s) && Enabled(s, a) && Control(Apply(s, a))
    ensures Logged(Apply(s, a))
  {
    var t := Apply(s, a);
    forall j: nat | j < |s.subs|
      ensures |t.subs| == |s.subs| && t.log == if a.End? then s.log + [a.i] else s.log
      ensures PastEnd(t.subs[j]) <==> PastEnd(s.subs[j]) || a == End(j)
    {
      PastEndStep(s, a, j);
    }
  }

  lemma EndDecides(s: State, i: nat)
    requires Inv(s) && Enabled(s, End(i)) && Control(Apply(s, End(i))) && Logged(Apply(s, End(i)))
    ensures Decided(Apply(s, End(i)))
  {
    var t := Apply(s, End(i));
    var e := s.results[i];
    NotAllDelivered(s, i);
    var ds := Deliveries(s);
    assert Deliveries(t) == ds + [e];
    if s.cause.None? {
      if EndCancels(s.mode, e) {
        assert FirstCancel(s.mode, ds + [e], |ds|);
      }
    } else if !s.parent {
      DecidesStable(s.mode, |s.subs|, ds, e, s.cause.value);
    }
  }

  lemma DecidedKept(s: State, a: Action)
    requires Inv(s) && Enabled(s, a) && Control(Apply(s, a)) && Logged(Apply(s, a))
    ensures Decided(Apply(s, a))
  {
    if a.End? {
      EndDecides(s, a.i);
    } else {
      assert Deliveries(Apply(s, a)) == Deliveries(s);
      if a.CancelZero? {
        AllDelivered(s);
      }
    }
  }

  /** Every step of every process keeps the invariant. */
  lemma StepKeepsInv(s: State, a: Action)
    requires Inv(s) && Enabled(s, a)
    ensures Inv(Apply(s, a))
  {
    ControlKept(s, a);
    LoggedKept(s, a);
    DecidedKept(s, a);
    match a
    case Launcher => LauncherConserves(s);
    case ParentCancel(_) =>
    case _ => SubtaskConserves(s, a);
  }

  lemma {:induction false} RunKeepsInv(mode: Mode, results: seq<Err>, schedule: seq<Action>, s: State)
    requires results != [] && Run(Init(mode, results), schedule) == Some(s)
    ensures Inv(s) && s.mode == mode && s.results == results
  {
    if schedule == [] {
      InitInv(mode, results);
    } else {
      var last := |schedule| - 1;
      var t := Run(Init(mode, results), schedule[..last]).value;
      RunKeepsInv(mode, results, schedule[..last], t);
      StepKeepsInv(t, schedule[last]);
    }
  }
}
