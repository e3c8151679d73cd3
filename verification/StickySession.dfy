/** Sticky sessions without locks: any number of concurrent `Next` calls for one
    client share one session cell, changed only by compare-and-swap. */
module StickySession {
  import opened Errors

  /** An upstream, by identity; the cell and the answers may be nil. */
  type Upstream = nat

  /** `First`: about to look at the session.  `Clear`: found its own `retry` there.
      `Choose`: about to select from the list.  `Load` and `Swap`: the deferred
      update of the session with `us`. */
  datatype NextPc =
    | First
    | Clear
    | Choose
    | Load(us: Upstream)
    | Swap(us: Upstream, seen: Option<Upstream>)
    | Answered(answer: Option<Upstream>)

  /** `retry` is the upstream the call reports as failed, if any. */
  datatype Call = Call(retry: Option<Upstream>, pc: NextPc)

  datatype State = State(cell: Option<Upstream>, upstreams: seq<Upstream>, calls: seq<Call>)

  datatype Action =
    | NewCall(retry: Option<Upstream>)
    | CallStep(j: nat, pick: Option<Upstream>)
    | Upstreams(upstreams: seq<Upstream>)

  function Init(upstreams: seq<Upstream>): State { State(None, upstreams, []) }

  /** No upstream is left to pick: there is none, or there are several, all `retry`. */
  ghost predicate NoneLeft<U>(upstreams: seq<U>, retry: Option<U>)
  {
    |upstreams| != 1 && forall u :: u in upstreams ==> Some(u) == retry
  }

  /** What every selection method guarantees about its pick; `LoadBalancer` proves it
      of each (`SelectedIsSelectable`). */
  ghost predicate Selectable<U>(upstreams: seq<U>, retry: Option<U>, pick: Option<U>)
  {
    && (pick.Some? ==> pick.value in upstreams)
    && (pick.None? ==> NoneLeft(upstreams, retry))
    && ((exists u :: u in upstreams && Some(u) != retry) ==> pick != retry)
  }

  ghost predicate Enabled(s: State, a: Action)
  {
    match a
    case NewCall(_) => true
    case CallStep(j, pick) =>
      && j < |s.calls| && !s.calls[j].pc.Answered?
      && (s.calls[j].pc.Choose? ==> Selectable(s.upstreams, s.calls[j].retry, pick))
    case Upstreams(_) => true
  }

  /** The cell and the call after its next step. */
  function NextStep(cell: Option<Upstream>, call: Call, pick: Option<Upstream>): (Option<Upstream>, NextPc)
    requires !call.pc.Answered?
  {
    match call.pc
    case First =>
      if cell.None? then (cell, Choose)
      else if cell == call.retry then (cell, Clear)
      else (cell, Load(cell.value))
    case Clear => (if cell == call.retry then None else cell, Choose)
    case Choose => (cell, if pick.None? then Answered(None) else Load(pick.value))
    case Load(us) =>
      if cell.Some? && cell != call.retry then (cell, Answered(cell)) else (cell, Swap(us, cell))
    case Swap(us, seen) =>
      if cell == seen then (Some(us), Answered(Some(us))) else (cell, Load(us))
  }

  ghost function Apply(s: State, a: Action): State
    requires Enabled(s, a)
  {
    match a
    case NewCall(retry) => s.(calls := s.calls + [Call(retry, First)])
    case CallStep(j, pick) =>
      var (cell, pc) := NextStep(s.cell, s.calls[j], pick);
      s.(cell := cell, calls := s.calls[j := s.calls[j].(pc := pc)])
    case Upstreams(upstreams) => s.(upstreams := upstreams)
  }

  ghost function Run(s: State, schedule: seq<Action>): Option<State>
  {
    if schedule == [] then Some(s)
    else
      var last := |schedule| - 1;
      match Run(s, schedule[..last])
      case None => None
      case Some(t) => if Enabled(t, schedule[last]) then Some(Apply(t, schedule[last])) else None
  }

  /** What a call may swap out: nothing, or its own `retry`. */
  ghost predicate CallInv(call: Call)
  {
    call.pc.Swap? && call.pc.seen.Some? ==> call.pc.seen == call.retry
  }

  ghost predicate Inv(s: State)
  {
    forall j :: 0 <= j < |s.calls| ==> CallInv(s.calls[j])
  }

  lemma {:induction false} RunKeepsInv(s: State, schedule: seq<Action>, t: State)
    requires Inv(s) && Run(s, schedule) == Some(t)
    ensures Inv(t) && |s.calls| <= |t.calls|
    ensures forall j :: 0 <= j < |s.calls| ==> t.calls[j].retry == s.calls[j].retry
  {
    if schedule != [] {
      RunKeepsInv(s, schedule[..|schedule| - 1], Run(s, schedule[..|schedule| - 1]).value);
    }
  }

  /** One step changes the cell only from nil or from the stepping call's own
      `retry`; and a call answers with what the cell holds at that moment. */
  lemma CellChange(s: State, a: Action)
    requires Inv(s) && Enabled(s, a)
    ensures Inv(Apply(s, a))
    ensures Apply(s, a).cell != s.cell ==> a.CallStep? && (s.cell.None? || s.cell == s.calls[a.j].retry)
    ensures a.CallStep? && Apply(s, a).calls[a.j].pc.Answered? && Apply(s, a).calls[a.j].pc.answer.Some? ==>
              Apply(s, a).calls[a.j].pc.answer == Apply(s, a).cell
  {
    assert a.CallStep? ==> CallInv(s.calls[a.j]);
  }

  /** Fail-over from `u` happens only through a step of a call that reports `u`. */
  lemma {:induction false} FailOverIsReported(s: State, schedule: seq<Action>, t: State, u: Upstream)
    requires Inv(s) && Run(s, schedule) == Some(t)
    requires s.cell == Some(u) && t.cell != Some(u)
    ensures exists k :: 0 <= k < |schedule| && schedule[k].CallStep? && schedule[k].j < |t.calls|
                        && t.calls[schedule[k].j].retry == Some(u)
  {
    var last := |schedule| - 1;
    var r := Run(s, schedule[..last]).value;
    RunKeepsInv(s, schedule[..last], r);
    CellChange(r, schedule[last]);
    if r.cell != Some(u) {
      FailOverIsReported(s, schedule[..last], r, u);
      var k :| 0 <= k < last && schedule[..last][k].CallStep? && schedule[..last][k].j < |r.calls|
               && r.calls[schedule[..last][k].j].retry == Some(u);
      assert schedule[k] == schedule[..last][k];
    }
  }

  predicate NoRetry(s: State)
  {
    forall j :: 0 <= j < |s.calls| ==> s.calls[j].retry.None?
  }

  /** Every answer so far is what the cell holds. */
  ghost predicate AnswersAgree(s: State)
  {
    forall j :: 0 <= j < |s.calls| && s.calls[j].pc.Answered? && s.calls[j].pc.answer.Some? ==>
      s.calls[j].pc.answer == s.cell
  }

  lemma {:induction false} NoRetryAgrees(upstreams: seq<Upstream>, schedule: seq<Action>, s: State)
    requires Run(Init(upstreams), schedule) == Some(s) && NoRetry(s)
    ensures Inv(s) && AnswersAgree(s)
  {
    if schedule != [] {
      var last := |schedule| - 1;
      var r := Run(Init(upstreams), schedule[..last]).value;
      assert forall j :: 0 <= j < |r.calls| ==> r.calls[j].retry == s.calls[j].retry;
      NoRetryAgrees(upstreams, schedule[..last], r);
      CellChange(r, schedule[last]);
    }
  }

  /** While no call carries a retry, all calls that answer with an upstream answer
      with the same one, for the whole run, even if the list changes meanwhile. */
  lemma StickyForWholeRun(upstreams: seq<Upstream>, schedule: seq<Action>, s: State, i: nat, j: nat)
    requires Run(Init(upstreams), schedule) == Some(s) && NoRetry(s)
    requires i < |s.calls| && s.calls[i].pc.Answered? && s.calls[i].pc.answer.Some?
    requires j < |s.calls| && s.calls[j].pc.Answered? && s.calls[j].pc.answer.Some?
    ensures s.calls[i].pc.answer == s.calls[j].pc.answer
  {
    NoRetryAgrees(upstreams, schedule, s);
  }

  /** What a call is about to answer with is not the upstream it reports. */
  ghost predicate Avoids(call: Call)
  {
    match call.pc
    case Load(us) => Some(us) != call.retry
    case Swap(us, _) => Some(us) != call.retry
    case Answered(answer) => answer.Some? ==> answer != call.retry
    case _ => true
  }

  /** With at least two upstreams on the list all along, no call is sent back to the
      upstream it reports, whatever other calls do to the session. */
  lemma {:induction false} NeverTheFailedOne(upstreams: seq<Upstream>, schedule: seq<Action>, s: State, j: nat)
    requires Run(Init(upstreams), schedule) == Some(s)
    requires exists u, v :: u in upstreams && v in upstreams && u != v
    requires forall k :: 0 <= k < |schedule| ==> !schedule[k].Upstreams?
    requires j < |s.calls|
    ensures s.upstreams == upstreams && Avoids(s.calls[j])
  {
    if schedule != [] {
      var last := |schedule| - 1;
      var before := schedule[..last];
      var r := Run(Init(upstreams), before).value;
      assert !schedule[last].Upstreams?;
      assert forall k :: 0 <= k < last ==> before[k] == schedule[k];
      if j < |r.calls| {
        NeverTheFailedOne(upstreams, before, r, j);
      } else if |r.calls| > 0 {
        NeverTheFailedOne(upstreams, before, r, 0);
      } else {
        SameUpstreams(upstreams, before, r);
      }
    }
  }

  /** On an unchanging list, a call answers with nil only if none is left to pick. */
  lemma {:induction false} NilOnlyWithout(upstreams: seq<Upstream>, schedule: seq<Action>, s: State, j: nat)
    requires Run(Init(upstreams), schedule) == Some(s)
    requires forall k :: 0 <= k < |schedule| ==> !schedule[k].Upstreams?
    requires j < |s.calls| && s.calls[j].pc == Answered(None)
    ensures NoneLeft(upstreams, s.calls[j].retry)
  {
    var last := |schedule| - 1;
    var before := schedule[..last];
    var r := Run(Init(upstreams), before).value;
    assert !schedule[last].Upstreams?;
    assert forall k :: 0 <= k < last ==> before[k] == schedule[k];
    SameUpstreams(upstreams, before, r);
    if j < |r.calls| && r.calls[j].pc == Answered(None) {
      NilOnlyWithout(upstreams, before, r, j);
    }
  }

  lemma {:induction false} SameUpstreams(upstreams: seq<Upstream>, schedule: seq<Action>, s: State)
    requires Run(Init(upstreams), schedule) == Some(s)
    requires forall k :: 0 <= k < |schedule| ==> !schedule[k].Upstreams?
    ensures s.upstreams == upstreams
  {
    if schedule != [] {
      var last := |schedule| - 1;
      var before := schedule[..last];
      assert !schedule[last].Upstreams?;
      assert forall k :: 0 <= k < last ==> before[k] == schedule[k];
      SameUpstreams(upstreams, before, Run(Init(upstreams), before).value);
    }
  }

  // ---- Calls come to an end ----

  /** How often a call may still change the cell. */
  function ChangesLeft(c: Call): nat
  {
    match c.pc
    case First | Clear => 2
    case Choose | Load(_) | Swap(_, _) => 1
    case Answered(_) => 0
  }

  /** How many turns a call may still take if nobody else changes the cell: a swap
      that has seen another value must load again first. */
  function TurnsLeft(cell: Option<Upstream>, c: Call): nat
  {
    match c.pc
    case First => 6
    case Clear => 5
    case Choose => 4
    case Load(_) => 2
    case Swap(_, seen) => if seen == cell then 1 else 3
    case Answered(_) => 0
  }

  function TurnsOf(cell: Option<Upstream>, calls: seq<Call>): nat
  {
    if calls == [] then 0 else TurnsLeft(cell, calls[0]) + TurnsOf(cell, calls[1..])
  }

  function ChangesOf(calls: seq<Call>): nat
  {
    if calls == [] then 0 else ChangesLeft(calls[0]) + ChangesOf(calls[1..])
  }

  lemma {:induction false} TurnsUpdate(cell: Option<Upstream>, calls: seq<Call>, j: nat, c: Call)
    requires j < |calls|
    ensures TurnsOf(cell, calls[j := c]) + TurnsLeft(cell, calls[j]) == TurnsOf(cell, calls) + TurnsLeft(cell, c)
    ensures ChangesOf(calls[j := c]) + ChangesLeft(calls[j]) == ChangesOf(calls) + ChangesLeft(c)
  {
    if j == 0 {
      assert calls[j := c][1..] == calls[1..];
    } else {
      TurnsUpdate(cell, calls[1..], j - 1, c);
      assert calls[j := c][1..] == calls[1..][j - 1 := c];
    }
  }

  lemma {:induction false} TurnsAppend(cell: Option<Upstream>, calls: seq<Call>, c: Call)
    ensures TurnsOf(cell, calls + [c]) == TurnsOf(cell, calls) + TurnsLeft(cell, c)
    ensures ChangesOf(calls + [c]) == ChangesOf(calls) + ChangesLeft(c)
  {
    if calls == [] {
      assert (calls + [c])[1..] == [];
    } else {
      TurnsAppend(cell, calls[1..], c);
      assert (calls + [c])[1..] == calls[1..] + [c];
    }
  }

  /** A change of the cell costs each call at most two turns more. */
  lemma {:induction false} CellChanges(cell: Option<Upstream>, next: Option<Upstream>, calls: seq<Call>)
    ensures TurnsOf(next, calls) <= TurnsOf(cell, calls) + 2 * |calls|
  {
    if calls != [] {
      CellChanges(cell, next, calls[1..]);
    }
  }

  /** What the calls so far may still take, each change delaying at most `n` calls. */
  function Turns(s: State, n: nat): nat
  {
    TurnsOf(s.cell, s.calls) + (2 * n) * ChangesOf(s.calls)
  }

  lemma OwnTurn(cell: Option<Upstream>, c: Call, pick: Option<Upstream>)
    requires !c.pc.Answered? && CallInv(c)
    ensures var (next, pc) := NextStep(cell, c, pick);
            && TurnsLeft(next, c.(pc := pc)) <= TurnsLeft(next, c) + 2
            && ChangesLeft(c.(pc := pc)) <= ChangesLeft(c)
            && (next != cell ==> ChangesLeft(c.(pc := pc)) < ChangesLeft(c))
            && (next == cell ==> TurnsLeft(cell, c.(pc := pc)) < TurnsLeft(cell, c))
            && TurnsLeft(next, c.(pc := pc)) < TurnsLeft(cell, c)
  {
  }

  lemma MulRises(m: nat, a: nat, b: nat)
    requires a <= b
    ensures m * a <= m * b
  {
  }

  lemma MulStep(m: nat, a: nat)
    ensures m * (a + 1) == m * a + m
  {
  }

  lemma TurnFalls(s: State, j: nat, pick: Option<Upstream>, n: nat)
    requires Inv(s) && Enabled(s, CallStep(j, pick)) && |s.calls| <= n
    ensures Turns(Apply(s, CallStep(j, pick)), n) < Turns(s, n)
  {
    var c := s.calls[j];
    var (cell, pc) := NextStep(s.cell, c, pick);
    var d := c.(pc := pc);
    var others := s.calls[j := d];
    OwnTurn(s.cell, c, pick);
    TurnsUpdate(s.cell, s.calls, j, d);
    if cell != s.cell {
      TurnsUpdate(cell, s.calls, j, d);
      CellChanges(s.cell, cell, s.calls);
      MulRises(2 * n, ChangesOf(others) + 1, ChangesOf(s.calls));
      MulStep(2 * n, ChangesOf(others));
    } else {
      MulRises(2 * n, ChangesOf(others), ChangesOf(s.calls));
    }
  }

  /** How many turns of calls a schedule has. */
  function TurnsIn(schedule: seq<Action>): nat
  {
    if schedule == [] then 0
    else TurnsIn(schedule[..|schedule| - 1]) + if schedule[|schedule| - 1].CallStep? then 1 else 0
  }

  lemma {:induction false} TurnsBounded(upstreams: seq<Upstream>, schedule: seq<Action>, s: State, n: nat)
    requires Run(Init(upstreams), schedule) == Some(s) && |s.calls| <= n
    ensures Inv(s) && TurnsIn(schedule) + Turns(s, n) <= |s.calls| * (6 + 4 * n)
  {
    if schedule != [] {
      var last := |schedule| - 1;
      var a := schedule[last];
      var r := Run(Init(upstreams), schedule[..last]).value;
      TurnsBounded(upstreams, schedule[..last], r, n);
      CellChange(r, a);
      match a
      case CallStep(j, pick) => TurnFalls(r, j, pick, n);
      case NewCall(retry) =>
        TurnsAppend(r.cell, r.calls, Call(retry, First));
        MulTwo(2 * n, ChangesOf(r.calls));
        MulStep(6 + 4 * n, |r.calls|);
        Swapped(6 + 4 * n, |r.calls|);
        Swapped(6 + 4 * n, |s.calls|);
      case Upstreams(_) =>
    }
  }

  lemma Swapped(a: nat, b: nat)
    ensures a * b == b * a
  {
  }

  lemma MulTwo(m: nat, a: nat)
    ensures m * (a + 2) == m * a + 2 * m
  {
  }

  /** `Next` is free of locks and of livelock: however `n` calls interleave, and even
      if the list changes meanwhile, they take at most `n * (6 + 4 n)` turns in all. */
  lemma NextEnds(upstreams: seq<Upstream>, schedule: seq<Action>, s: State)
    requires Run(Init(upstreams), schedule) == Some(s)
    ensures TurnsIn(schedule) <= |s.calls| * (6 + 4 * |s.calls|)
  {
    TurnsBounded(upstreams, schedule, s, |s.calls|);
  }

  /** The first upstream that is not `retry`, if there is one. */
  function FirstOther(upstreams: seq<Upstream>, retry: Option<Upstream>): (pick: Option<Upstream>)
    ensures pick.Some? ==> pick.value in upstreams && pick != retry
    ensures pick.None? ==> forall u :: u in upstreams ==> Some(u) == retry
  {
    if upstreams == [] then None
    else if Some(upstreams[0]) != retry then Some(upstreams[0])
    else
      var pick := FirstOther(upstreams[1..], retry);
      assert forall u :: u in upstreams ==> u == upstreams[0] || u in upstreams[1..];
      pick
  }

  /** A pick there always is. */
  function PickOther(upstreams: seq<Upstream>, retry: Option<Upstream>): (pick: Option<Upstream>)
    ensures Selectable(upstreams, retry, pick)
  {
    if |upstreams| == 1 then Some(upstreams[0]) else FirstOther(upstreams, retry)
  }

  /** A call that has not answered has a turn to take. */
  lemma CallMoves(s: State, j: nat) returns (pick: Option<Upstream>)
    requires j < |s.calls| && !s.calls[j].pc.Answered?
    ensures Enabled(s, CallStep(j, pick))
  {
    pick := PickOther(s.upstreams, s.calls[j].retry);
  }

  lemma Extend(start: State, done: seq<Action>, s: State, a: Action)
    requires Run(start, done) == Some(s) && Enabled(s, a)
    ensures Run(start, done + [a]) == Some(Apply(s, a))
  {
    assert (done + [a])[..|done|] == done;
  }
}
