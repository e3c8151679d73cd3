/** A buffered event subscription: any number of signallers and one int32 counter
    decide who runs the callback, and how often. */
module BufferedEvents {
  import opened Errors

  const MAX_INT32 := 0x7FFF_FFFF
  const MIN_INT32 := -0x8000_0000

  /** Addition of int32, which wraps. */
  function Add(queue: int, d: int): int
  {
    (queue + d + 0x8000_0000) % 0x1_0000_0000 - 0x8000_0000
  }

  datatype SignalPc = Count | Spawn | Sent

  /** A drainer is running the callback, or about to count it off, or gone. */
  datatype DrainPc = Calling | CountingOff | Gone

  /** `sent` counts the signals that reached the counter, `countedOff` the callbacks
      counted off it, and `runs` the callbacks that have returned. */
  datatype State = State(
    queue: int,
    signals: seq<SignalPc>,
    drainers: seq<DrainPc>,
    sent: nat,
    countedOff: nat,
    runs: nat)

  datatype Action =
    | NewSignal
    | SignalStep(i: nat)
    | CallbackReturns(d: nat)
    | CountOff(d: nat)
    | Remove

  const INIT := State(0, [], [], 0, 0, 0)

  predicate Enabled(s: State, a: Action)
  {
    match a
    case NewSignal => true
    case SignalStep(i) => i < |s.signals| && !s.signals[i].Sent?
    case CallbackReturns(d) => d < |s.drainers| && s.drainers[d].Calling?
    case CountOff(d) => d < |s.drainers| && s.drainers[d].CountingOff?
    case Remove => true
  }

  function Apply(s: State, a: Action): State
    requires Enabled(s, a)
  {
    match a
    case NewSignal => s.(signals := s.signals + [Count])
    case SignalStep(i) =>
      if s.signals[i].Count? then
        var q := Add(s.queue, 1);
        s.(queue := q, sent := s.sent + 1, signals := s.signals[i := if q == 1 then Spawn else Sent])
      else s.(drainers := s.drainers + [Calling], signals := s.signals[i := Sent])
    case CallbackReturns(d) => s.(runs := s.runs + 1, drainers := s.drainers[d := CountingOff])
    case CountOff(d) =>
      var q := Add(s.queue, -1);
      s.(queue := q, countedOff := s.countedOff + 1, drainers := s.drainers[d := if q <= 0 then Gone else Calling])
    case Remove => s.(queue := MIN_INT32)
  }

  function Run(s: State, schedule: seq<Action>): Option<State>
  {
    if schedule == [] then Some(s)
    else
      var last := |schedule| - 1;
      match Run(s, schedule[..last])
      case None => None
      case Some(t) => if Enabled(t, schedule[last]) then Some(Apply(t, schedule[last])) else None
  }

  /** No Remove, and at no moment 2^31 signals or more outstanding. */
  ghost predicate Moderate(schedule: seq<Action>)
  {
    forall k :: 0 <= k <= |schedule| ==>
      && (k < |schedule| ==> !schedule[k].Remove?)
      && var s := Run(INIT, schedule[..k]); s.Some? ==> s.value.sent - s.value.countedOff <= MAX_INT32
  }

  /** Who drains: a signaller about to start a drainer, or a drainer. */
  datatype Role = Nobody | Launching(i: nat) | Draining(d: nat)

  predicate Plays(s: State, role: Role)
  {
    && (forall i :: 0 <= i < |s.signals| ==> (s.signals[i].Spawn? <==> role == Launching(i)))
    && (forall d :: 0 <= d < |s.drainers| ==> (!s.drainers[d].Gone? <==> role == Draining(d)))
    && (role.Launching? ==> role.i < |s.signals|)
    && (role.Draining? ==> role.d < |s.drainers|)
  }

  /** The counter is the signals outstanding; someone drains exactly when it is
      positive, and then only one does. */
  ghost predicate Inv(s: State, role: Role)
  {
    && s.queue == s.sent - s.countedOff && 0 <= s.queue
    && Plays(s, role)
    && (role.Nobody? <==> s.queue == 0)
    && s.runs == s.countedOff + if role.Draining? && s.drainers[role.d].CountingOff? then 1 else 0
  }

  /** The role after a step. */
  function NextRole(s: State, role: Role, a: Action): Role
    requires Enabled(s, a)
  {
    match a
    case SignalStep(i) =>
      if s.signals[i].Spawn? then Draining(|s.drainers|)
      else if Add(s.queue, 1) == 1 then Launching(i) else role
    case CountOff(_) => if Add(s.queue, -1) <= 0 then Nobody else role
    case _ => role
  }

  lemma StepKeepsInv(s: State, role: Role, a: Action)
    requires Inv(s, role) && Enabled(s, a) && !a.Remove? && s.queue <= MAX_INT32
    requires Apply(s, a).sent - Apply(s, a).countedOff <= MAX_INT32
    ensures Inv(Apply(s, a), NextRole(s, role, a))
  {
  }

  lemma {:induction false} RunKeepsInv(schedule: seq<Action>, s: State) returns (role: Role)
    requires Moderate(schedule) && Run(INIT, schedule) == Some(s)
    ensures Inv(s, role) && s.queue <= MAX_INT32
  {
    assert schedule[..|schedule|] == schedule;
    if schedule == [] {
      role := Nobody;
    } else {
      var last := |schedule| - 1;
      var before := schedule[..last];
      var t := Run(INIT, before).value;
      assert forall k :: 0 <= k <= last ==> before[..k] == schedule[..k];
      var r := RunKeepsInv(before, t);
      StepKeepsInv(t, r, schedule[last]);
      role := NextRole(t, r, schedule[last]);
    }
  }

  /** Under every interleaving with no Remove: callbacks never overlap; a drainer
      lives or is being started exactly when the counter is positive; no callback
      runs without its signal; and when nothing is outstanding, every signal counted
      has had its one callback. */
  lemma OneCallbackPerSignal(schedule: seq<Action>, s: State)
    requires Moderate(schedule) && Run(INIT, schedule) == Some(s)
    ensures forall d, e :: 0 <= d < |s.drainers| && 0 <= e < |s.drainers| ==>
              !s.drainers[d].Gone? && !s.drainers[e].Gone? ==> d == e
    ensures s.queue > 0 <==>
              || (exists d :: 0 <= d < |s.drainers| && !s.drainers[d].Gone?)
              || (exists i :: 0 <= i < |s.signals| && s.signals[i].Spawn?)
    ensures s.runs <= s.sent
    ensures s.queue == 0 ==> s.runs == s.sent
  {
    var role := RunKeepsInv(schedule, s);
    if role.Draining? {
      assert !s.drainers[role.d].Gone?;
    }
  }

  // ---- Remove ----

  lemma AddWraps(queue: int, d: int)
    requires MIN_INT32 <= queue <= MAX_INT32 && -1 <= d <= 1
    ensures Add(queue, d) == if queue + d > MAX_INT32 then MIN_INT32
                             else if queue + d < MIN_INT32 then MAX_INT32 else queue + d
  {
  }

  /** Signals counted and callbacks returned, but none counted off, since a Remove. */
  ghost predicate NoneCountedOff(schedule: seq<Action>)
  {
    forall k :: 0 <= k < |schedule| ==> !schedule[k].CountOff? && !schedule[k].Remove?
  }

  lemma {:induction false} CounterSinceRemove(s: State, schedule: seq<Action>, t: State)
    requires Run(Apply(s, Remove), schedule) == Some(t) && NoneCountedOff(schedule)
    requires t.sent - s.sent <= MAX_INT32
    ensures s.sent <= t.sent && t.queue == MIN_INT32 + (t.sent - s.sent)
  {
    if schedule != [] {
      var last := |schedule| - 1;
      var u := Run(Apply(s, Remove), schedule[..last]).value;
      assert !schedule[last].CountOff? && !schedule[last].Remove?;
      CounterSinceRemove(s, schedule[..last], u);
      AddWraps(u.queue, 1);
    }
  }

  /** Why Remove must not come during a drain: the first count-off after it, in any
      run, goes on draining if and only if no signal has been counted since; the
      counter then wraps to its largest value. */
  lemma CountOffAfterRemove(s: State, schedule: seq<Action>, t: State, d: nat)
    requires Run(Apply(s, Remove), schedule) == Some(t) && NoneCountedOff(schedule)
    requires t.sent - s.sent <= MAX_INT32 && Enabled(t, CountOff(d))
    ensures Apply(t, CountOff(d)).drainers[d].Calling? <==> t.sent == s.sent
    ensures t.sent == s.sent ==> Apply(t, CountOff(d)).queue == MAX_INT32
  {
    CounterSinceRemove(s, schedule, t);
    AddWraps(t.queue, -1);
  }

  /** `k` more callbacks of drainer `d`, with nobody else moving. */
  function Callbacks(d: nat, k: nat): (r: seq<Action>)
    ensures |r| == 2 * k
  {
    if k == 0 then [] else Callbacks(d, k - 1) + [CallbackReturns(d), CountOff(d)]
  }

  lemma Extend(start: State, done: seq<Action>, s: State, a: Action) returns (next: seq<Action>, t: State)
    requires Run(start, done) == Some(s) && Enabled(s, a)
    ensures next == done + [a] && t == Apply(s, a) && Run(start, next) == Some(t)
  {
    next, t := done + [a], Apply(s, a);
    assert next[..|done|] == done;
  }

  /** One callback and its count-off. */
  lemma OneMore(start: State, done: seq<Action>, s: State, d: nat) returns (next: seq<Action>, t: State)
    requires Run(start, done) == Some(s) && d < |s.drainers| && s.drainers[d].Calling?
    requires MIN_INT32 <= s.queue <= MAX_INT32 && (s.queue == MIN_INT32 || s.queue > 1)
    ensures next == done + [CallbackReturns(d), CountOff(d)] && Run(start, next) == Some(t)
    ensures t.runs == s.runs + 1 && t.sent == s.sent && t.drainers == s.drainers
    ensures t.queue == if s.queue == MIN_INT32 then MAX_INT32 else s.queue - 1
  {
    AddWraps(s.queue, -1);
    next, t := Extend(start, done, s, CallbackReturns(d));
    next, t := Extend(start, next, t, CountOff(d));
    assert t.drainers == s.drainers[d := CountingOff][d := Calling] == s.drainers;
  }

  /** A drainer in the callback, with the counter at the mark of a Remove or at least
      `k` above one, runs the callback `k` times more and is in it again. */
  lemma {:induction false} DrainsOn(s: State, d: nat, k: nat) returns (t: State)
    requires d < |s.drainers| && s.drainers[d].Calling? && k <= MAX_INT32
    requires s.queue == MIN_INT32 || k < s.queue <= MAX_INT32
    ensures Run(s, Callbacks(d, k)) == Some(t)
    ensures t.runs == s.runs + k && t.sent == s.sent && t.drainers == s.drainers
    ensures t.queue == if s.queue == MIN_INT32 && k > 0 then MAX_INT32 - (k - 1) else s.queue - k
  {
    if k == 0 {
      t := s;
    } else {
      t := DrainsOn(s, d, k - 1);
      var done: seq<Action>;
      done, t := OneMore(s, Callbacks(d, k - 1), t, d);
    }
  }

  /** From any state, a Remove while a drainer is in the callback makes it run the
      callback `k` times more, for every `k` up to 2^31 - 1, with no signal for any. */
  lemma RemoveDuringDrainRunsOn(s: State, d: nat, k: nat)
    requires d < |s.drainers| && s.drainers[d].Calling? && k <= MAX_INT32
    ensures var t := Run(Apply(s, Remove), Callbacks(d, k));
            && t.Some? && t.value.runs == s.runs + k && t.value.sent == s.sent
            && t.value.drainers == s.drainers
            && t.value.queue == if k == 0 then MIN_INT32 else MAX_INT32 - (k - 1)
  {
    var t := DrainsOn(Apply(s, Remove), d, k);
  }

  lemma {:induction false} RunTwice(s: State, first: seq<Action>, t: State, second: seq<Action>)
    requires Run(s, first) == Some(t)
    ensures Run(s, first + second) == Run(t, second)
  {
    if second == [] {
      assert first + second == first;
    } else {
      var last := |second| - 1;
      RunTwice(s, first, t, second[..last]);
      assert (first + second)[..|first + second| - 1] == first + second[..last];
    }
  }

  /** After a Remove the drainer, or the signaller about to start one, is brought to
      the callback, with the counter at the mark or at its largest. */
  lemma ToTheCallback(s: State, role: Role) returns (first: seq<Action>, t: State, d: nat)
    requires Inv(s, role) && !role.Nobody?
    ensures Run(Apply(s, Remove), first) == Some(t) && t.runs == s.runs && t.sent == s.sent
    ensures d < |t.drainers| && t.drainers[d].Calling? && (t.queue == MIN_INT32 || t.queue == MAX_INT32)
  {
    first, t := [], Apply(s, Remove);
    AddWraps(MIN_INT32, -1);
    if role.Launching? {
      d := |s.drainers|;
      first, t := Extend(Apply(s, Remove), first, t, SignalStep(role.i));
    } else {
      d := role.d;
      if s.drainers[d].CountingOff? {
        first, t := Extend(Apply(s, Remove), first, t, CountOff(d));
      }
    }
  }

  /** Whenever someone drains, or is about to, a Remove is followed, in some run with
      no signal at all, by any number of callbacks up to 2^31 - 1. */
  lemma RemoveRunsOn(s: State, role: Role, k: nat) returns (schedule: seq<Action>, t: State)
    requires Inv(s, role) && !role.Nobody? && k <= MAX_INT32
    ensures Run(Apply(s, Remove), schedule) == Some(t)
    ensures t.runs == s.runs + k && t.sent == s.sent
  {
    var d: nat;
    schedule, t, d := ToTheCallback(s, role);
    if k > 0 {
      var u := DrainsOn(t, d, k - 1);
      RunTwice(Apply(s, Remove), schedule, t, Callbacks(d, k - 1));
      schedule, t := Extend(Apply(s, Remove), schedule + Callbacks(d, k - 1), u, CallbackReturns(d));
    }
  }

  /** A Remove while nothing is outstanding silences the subscription: with fewer
      than 2^31 signals after it, no drainer is ever started again. */
  lemma {:induction false} RemoveWhileIdleSilences(s: State, schedule: seq<Action>, t: State)
    requires Inv(s, Nobody) && Run(Apply(s, Remove), schedule) == Some(t)
    requires t.sent - s.sent <= MAX_INT32
    ensures t.runs == s.runs && s.sent <= t.sent && forall d :: 0 <= d < |t.drainers| ==> t.drainers[d].Gone?
    ensures forall i :: 0 <= i < |t.signals| ==> !t.signals[i].Spawn?
    ensures MIN_INT32 <= t.queue <= MIN_INT32 + (t.sent - s.sent)
  {
    if schedule != [] {
      var last := |schedule| - 1;
      var u := Run(Apply(s, Remove), schedule[..last]).value;
      RemoveWhileIdleSilences(s, schedule[..last], u);
    }
  }

  /** In this run since a Remove, with fewer than 2^31 signals after it, no callback
      was started: none has returned but one that was running at the Remove. */
  predicate Silent(s: State, role: Role, schedule: seq<Action>, t: State)
    requires role.Draining? ==> role.d < |s.drainers|
  {
    Run(Apply(s, Remove), schedule) == Some(t) && t.sent - s.sent <= MAX_INT32 ==>
      t.runs <= s.runs + if role.Draining? && s.drainers[role.d].Calling? then 1 else 0
  }

  /** Exactly when Remove silences the subscription: in any state of a run without an
      earlier Remove, no callback starts after it, whatever happens, if and only if
      nothing is outstanding. */
  lemma RemoveSilencesExactly(s: State, role: Role)
    requires Inv(s, role)
    ensures (forall schedule, t :: Silent(s, role, schedule, t)) <==> s.queue == 0
  {
    if role.Nobody? {
      forall schedule, t ensures Silent(s, role, schedule, t) {
        if Run(Apply(s, Remove), schedule) == Some(t) && t.sent - s.sent <= MAX_INT32 {
          RemoveWhileIdleSilences(s, schedule, t);
        }
      }
    } else {
      var schedule, t := RemoveRunsOn(s, role, 2);
      assert !Silent(s, role, schedule, t);
    }
  }
}
