/** Any number of concurrent requests through one load balancer: the sticky session
    of each client, with every turn of every `Next` call, and what each attempt,
    failure and return does to the connection counters. */
module Proxy {
  import opened Errors
  import StickySession

  type Upstream = StickySession.Upstream

  /** A client, by address. */
  type Client = nat

  /** `Entering`: at the top of the balancer's `ServeHTTP`.  `InNext`: in its `call`-th
      `Next` of the client's session.  `Choosing`: in `Next` without sessions.
      `Opening`: in the upstream's `ServeHTTP`, its connection not counted yet.
      `Unwinding`: returning through the frames, each giving its connection back. */
  datatype RequestPc =
    | Entering
    | InNext(call: nat)
    | Choosing
    | Opening
    | Proxying
    | Unwinding
    | Over

  /** How a request came to return: it was served (or its client left), it was refused
      for its failures, or there was no upstream for it. */
  datatype Ending = Going | Served | Refused | NoUpstream

  datatype Request = Request(
    client: Client,
    pc: RequestPc,
    retryCount: nat,
    previous: Option<Upstream>,
    frames: seq<Upstream>,
    attempts: seq<Upstream>,
    ending: Ending)

  /** A client's session, and all that happened to it so far. */
  datatype Session = Session(state: StickySession.State, past: seq<StickySession.Action>)

  datatype Config = Config(sticky: bool, retryMax: int, upstreams: seq<Upstream>)

  datatype State = State(
    config: Config,
    sessions: map<Client, Session>,
    connections: map<Upstream, int>,
    requests: seq<Request>)

  datatype Action =
    | NewRequest(client: Client)
    | Enter(j: nat)
    | NextTurn(j: nat, pick: Option<Upstream>)
    | Answer(j: nat)
    | Choose(j: nat, pick: Option<Upstream>)
    | Open(j: nat)
    | End(j: nat)
    | Fail(j: nat)
    | Return(j: nat)

  function Fresh(client: Client): Request { Request(client, Entering, 0, None, [], [], Going) }

  function Init(config: Config): State { State(config, map[], map[], []) }

  function Connections(s: State, u: Upstream): int
  {
    if u in s.connections then s.connections[u] else 0
  }

  /** The client's session; a client's first request finds a new one. */
  function SessionOf(s: State, client: Client): Session
  {
    if client in s.sessions then s.sessions[client]
    else Session(StickySession.Init(s.config.upstreams), [])
  }

  predicate At(s: State, j: nat, pc: RequestPc) { j < |s.requests| && s.requests[j].pc == pc }

  /** The request is in a `Next` call that its session knows. */
  predicate Calls(s: State, j: nat)
  {
    && j < |s.requests| && s.requests[j].pc.InNext?
    && s.requests[j].pc.call < |SessionOf(s, s.requests[j].client).state.calls|
  }

  function CallOf(s: State, j: nat): StickySession.Call
    requires Calls(s, j)
  {
    SessionOf(s, s.requests[j].client).state.calls[s.requests[j].pc.call]
  }

  ghost predicate Enabled(s: State, a: Action)
  {
    match a
    case NewRequest(_) => true
    case Enter(j) => At(s, j, Entering)
    case NextTurn(j, pick) =>
      Calls(s, j) && StickySession.Enabled(SessionOf(s, s.requests[j].client).state,
                                           StickySession.CallStep(s.requests[j].pc.call, pick))
    case Answer(j) => Calls(s, j) && CallOf(s, j).pc.Answered?
    case Choose(j, pick) =>
      At(s, j, Choosing) && StickySession.Selectable(s.config.upstreams, s.requests[j].previous, pick)
    case Open(j) => At(s, j, Opening) && s.requests[j].attempts != []
    case End(j) => At(s, j, Proxying)
    case Fail(j) => At(s, j, Proxying)
    case Return(j) => At(s, j, Unwinding)
  }

  function Last(us: seq<Upstream>): Upstream
    requires us != []
  {
    us[|us| - 1]
  }

  /** The request with the upstream `Next` gave it. */
  function Given(r: Request, us: Option<Upstream>): Request
  {
    if us.None? then r.(pc := Unwinding, ending := NoUpstream)
    else r.(pc := Opening, previous := us, attempts := r.attempts + [us.value])
  }

  /** The request after the step. */
  ghost function Moved(s: State, a: Action): Request
    requires Enabled(s, a) && !a.NewRequest?
  {
    var r := s.requests[a.j];
    match a
    case Enter(_) =>
      if r.previous.Some? && r.retryCount >= s.config.retryMax then r.(pc := Unwinding, ending := Refused)
      else r.(pc := if s.config.sticky then InNext(|SessionOf(s, r.client).state.calls|) else Choosing)
    case NextTurn(_, _) => r
    case Answer(j) => Given(r, CallOf(s, j).pc.answer)
    case Choose(_, pick) => Given(r, pick)
    case Open(_) => r.(pc := Proxying, frames := r.frames + [Last(r.attempts)])
    case End(_) => r.(pc := Unwinding, ending := Served)
    case Fail(_) => r.(pc := Entering, retryCount := r.retryCount + 1)
    case Return(_) => if r.frames == [] then r.(pc := Over) else r.(frames := r.frames[..|r.frames| - 1])
  }

  /** What the step does in the client's session, if anything: a call enters `Next`,
      reporting the request's last upstream, or takes a turn in it. */
  ghost function SessionAction(s: State, a: Action): Option<StickySession.Action>
    requires Enabled(s, a)
  {
    match a
    case Enter(j) =>
      if Moved(s, a).pc.InNext? then Some(StickySession.NewCall(s.requests[j].previous)) else None
    case NextTurn(j, pick) => Some(StickySession.CallStep(s.requests[j].pc.call, pick))
    case _ => None
  }

  ghost function NextSessions(s: State, a: Action): map<Client, Session>
    requires Enabled(s, a)
  {
    if SessionAction(s, a).None? then s.sessions
    else
      var client := s.requests[a.j].client;
      var now, b := SessionOf(s, client), SessionAction(s, a).value;
      s.sessions[client := Session(StickySession.Apply(now.state, b), now.past + [b])]
  }

  ghost function NextConnections(s: State, a: Action): map<Upstream, int>
    requires Enabled(s, a)
  {
    if a.Open? then
      var u := Last(s.requests[a.j].attempts);
      s.connections[u := Connections(s, u) + 1]
    else if a.Return? && s.requests[a.j].frames != [] then
      var u := Last(s.requests[a.j].frames);
      s.connections[u := Connections(s, u) - 1]
    else s.connections
  }

  ghost function Apply(s: State, a: Action): State
    requires Enabled(s, a)
  {
    s.(sessions := NextSessions(s, a),
       connections := NextConnections(s, a),
       requests := if a.NewRequest? then s.requests + [Fresh(a.client)] else s.requests[a.j := Moved(s, a)])
  }

  ghost function Run(s: State, schedule: seq<Action>): Option<State>
  {
    if schedule == [] then Some(s)
    else
      var last := |schedule| - 1;
      match Run(s, schedule[..last])
      case None => None
      case Some(t) => if Enabled(t, schedule[last]) then Some(Apply(t, schedule[last])) else None
  }

  // ---- Frames ----

  function Frames(requests: seq<Request>, u: Upstream): nat
  {
    if requests == [] then 0 else multiset(requests[0].frames)[u] + Frames(requests[1..], u)
  }

  lemma {:induction false} FramesUpdate(requests: seq<Request>, j: nat, r: Request, u: Upstream)
    requires j < |requests|
    ensures Frames(requests[j := r], u) + multiset(requests[j].frames)[u] ==
              Frames(requests, u) + multiset(r.frames)[u]
  {
    if j == 0 {
      assert requests[j := r][1..] == requests[1..];
    } else {
      FramesUpdate(requests[1..], j - 1, r, u);
      assert requests[j := r][1..] == requests[1..][j - 1 := r];
    }
  }

  lemma {:induction false} FramesAppend(requests: seq<Request>, r: Request, u: Upstream)
    ensures Frames(requests + [r], u) == Frames(requests, u) + multiset(r.frames)[u]
  {
    if requests == [] {
      assert (requests + [r])[1..] == [];
    } else {
      FramesAppend(requests[1..], r, u);
      assert (requests + [r])[1..] == requests[1..] + [r];
    }
  }

  lemma {:induction false} NoFrames(requests: seq<Request>, u: Upstream)
    requires forall j :: 0 <= j < |requests| ==> requests[j].frames == []
    ensures Frames(requests, u) == 0
  {
    if requests != [] {
      NoFrames(requests[1..], u);
    }
  }

  /** A counter is the open frames of its upstream, over all requests. */
  ghost predicate Counted(s: State)
  {
    forall u: Upstream :: Connections(s, u) == Frames(s.requests, u)
  }

  lemma LastFrame(frames: seq<Upstream>, u: Upstream)
    requires frames != []
    ensures multiset(frames)[u] == multiset(frames[..|frames| - 1])[u] + if u == Last(frames) then 1 else 0
  {
    assert frames == frames[..|frames| - 1] + [Last(frames)];
  }

  lemma OpenCounts(s: State, j: nat, u: Upstream)
    requires Enabled(s, Open(j))
    ensures Connections(Apply(s, Open(j)), u) + multiset(s.requests[j].frames)[u] ==
              Connections(s, u) + multiset(Moved(s, Open(j)).frames)[u]
  {
    var r := s.requests[j];
    var grown := r.frames + [Last(r.attempts)];
    assert Moved(s, Open(j)).frames == grown && grown[..|r.frames|] == r.frames;
    LastFrame(grown, u);
  }

  lemma ReturnCounts(s: State, j: nat, u: Upstream)
    requires Enabled(s, Return(j))
    ensures Connections(Apply(s, Return(j)), u) + multiset(s.requests[j].frames)[u] ==
              Connections(s, u) + multiset(Moved(s, Return(j)).frames)[u]
  {
    if s.requests[j].frames != [] {
      LastFrame(s.requests[j].frames, u);
    }
  }

  /** A step changes a counter just as it changes the request's frames. */
  lemma MoveCounts(s: State, a: Action, u: Upstream)
    requires Enabled(s, a) && !a.NewRequest?
    ensures Connections(Apply(s, a), u) + multiset(s.requests[a.j].frames)[u] ==
              Connections(s, u) + multiset(Moved(s, a).frames)[u]
  {
    match a
    case Open(j) => OpenCounts(s, j, u);
    case Return(j) => ReturnCounts(s, j, u);
    case _ =>
  }

  lemma CountedKept(s: State, a: Action)
    requires Counted(s) && Enabled(s, a)
    ensures Counted(Apply(s, a))
  {
    forall u: Upstream ensures Connections(Apply(s, a), u) == Frames(Apply(s, a).requests, u) {
      assert Connections(s, u) == Frames(s.requests, u);
      if a.NewRequest? {
        FramesAppend(s.requests, Fresh(a.client), u);
      } else {
        MoveCounts(s, a, u);
        FramesUpdate(s.requests, a.j, Moved(s, a), u);
        SameRequests(s, a);
      }
    }
  }

  lemma SameRequests(s: State, a: Action)
    requires Enabled(s, a) && !a.NewRequest?
    ensures Apply(s, a).requests == s.requests[a.j := Moved(s, a)]
  {
  }

  // ---- Sessions ----

  predicate ListStays(past: seq<StickySession.Action>)
  {
    forall k :: 0 <= k < |past| ==> !past[k].Upstreams?
  }

  lemma ListStaysOn(past: seq<StickySession.Action>, b: StickySession.Action)
    requires ListStays(past) && !b.Upstreams?
    ensures ListStays(past + [b])
  {
  }

  /** Each session is a run of `StickySession` from its start, on an unchanging list. */
  ghost predicate SessionOk(config: Config, session: Session)
  {
    && StickySession.Run(StickySession.Init(config.upstreams), session.past) == Some(session.state)
    && ListStays(session.past)
  }

  ghost predicate SessionsOk(s: State)
  {
    forall c: Client :: SessionOk(s.config, SessionOf(s, c))
  }

  lemma SessionExtends(config: Config, session: Session, b: StickySession.Action)
    requires SessionOk(config, session) && StickySession.Enabled(session.state, b) && !b.Upstreams?
    ensures SessionOk(config, Session(StickySession.Apply(session.state, b), session.past + [b]))
  {
    StickySession.Extend(StickySession.Init(config.upstreams), session.past, session.state, b);
    ListStaysOn(session.past, b);
  }

  lemma SessionsKept(s: State, a: Action)
    requires SessionsOk(s) && Enabled(s, a)
    ensures SessionsOk(Apply(s, a))
  {
    var t := Apply(s, a);
    forall c: Client ensures SessionOk(t.config, SessionOf(t, c)) {
      assert SessionOk(s.config, SessionOf(s, c));
      if SessionAction(s, a).Some? && c == s.requests[a.j].client {
        SessionExtends(s.config, SessionOf(s, c), SessionAction(s, a).value);
      }
    }
  }

  /** The call a request is in reports the request's last upstream. */
  ghost predicate CallInv(s: State, j: nat)
    requires j < |s.requests|
  {
    s.requests[j].pc.InNext? ==> Calls(s, j) && CallOf(s, j).retry == s.requests[j].previous
  }

  /** A session only gains calls, and none changes what it reports. */
  lemma CallsStay(s: State, a: Action, c: Client, i: nat)
    requires SessionsOk(s) && Enabled(s, a) && i < |SessionOf(s, c).state.calls|
    ensures var t := Apply(s, a);
            && i < |SessionOf(t, c).state.calls|
            && SessionOf(t, c).state.calls[i].retry == SessionOf(s, c).state.calls[i].retry
  {
  }

  lemma CallKept(s: State, a: Action, j: nat)
    requires SessionsOk(s) && Enabled(s, a) && j < |Apply(s, a).requests|
    requires j < |s.requests| ==> CallInv(s, j)
    ensures CallInv(Apply(s, a), j)
  {
    if j < |s.requests| && s.requests[j].pc.InNext? {
      CallsStay(s, a, s.requests[j].client, s.requests[j].pc.call);
    }
  }

  /** The list has two distinct upstreams. */
  ghost predicate Distinct(upstreams: seq<Upstream>)
  {
    exists u, v :: u in upstreams && v in upstreams && u != v
  }

  /** What `Next` gives a request is not the upstream it failed at: alone by the choice
      of `Selectable`, and through a session because no call is ever answered with the
      one it reports. */
  lemma GivenAnother(s: State, j: nat, a: Action, us: Upstream)
    requires SessionsOk(s) && j < |s.requests| && CallInv(s, j) && Distinct(s.config.upstreams) && Enabled(s, a)
    requires a == Choose(j, Some(us)) || (a == Answer(j) && CallOf(s, j).pc.answer == Some(us))
    ensures Some(us) != s.requests[j].previous
  {
    if a.Answer? {
      var session := SessionOf(s, s.requests[j].client);
      assert SessionOk(s.config, session);
      StickySession.NeverTheFailedOne(s.config.upstreams, session.past, session.state, s.requests[j].pc.call);
    } else {
      var u, v :| u in s.config.upstreams && v in s.config.upstreams && u != v;
      assert Some(u) != s.requests[j].previous || Some(v) != s.requests[j].previous;
    }
  }

  // ---- Attempts ----

  function Limit(retryMax: int): nat { if retryMax > 1 then retryMax else 1 }

  ghost predicate NoneTwice(attempts: seq<Upstream>)
  {
    forall i :: 0 < i < |attempts| ==> attempts[i] != attempts[i - 1]
  }

  ghost predicate RequestInv(config: Config, r: Request)
  {
    && r.previous == (if r.attempts == [] then None else Some(Last(r.attempts)))
    && |r.attempts| <= Limit(config.retryMax)
    && (r.pc.Entering? || r.pc.InNext? || r.pc.Choosing? ==> |r.attempts| == r.retryCount)
    && (r.pc.InNext? || r.pc.Choosing? ==> r.retryCount == 0 || r.retryCount < config.retryMax)
    && (r.pc.Opening? || r.pc.Proxying? ==> |r.attempts| == r.retryCount + 1)
    && (if r.pc.Opening? then r.frames + [Last(r.attempts)] == r.attempts
        else if r.pc.Unwinding? || r.pc.Over? then r.frames <= r.attempts
        else r.frames == r.attempts)
    && (r.pc.Over? ==> r.frames == [])
    && (r.ending.Going? <==> !r.pc.Unwinding? && !r.pc.Over?)
    && (r.ending.Refused? ==> |r.attempts| == Limit(config.retryMax))
  }

  /** A request without an upstream had none left after the one it failed at. */
  ghost predicate NilOk(config: Config, r: Request)
  {
    r.ending.NoUpstream? ==> StickySession.NoneLeft(config.upstreams, r.previous)
  }

  lemma NilKept(s: State, a: Action)
    requires Enabled(s, a) && !a.NewRequest? && SessionsOk(s) && CallInv(s, a.j) && NilOk(s.config, s.requests[a.j])
    requires RequestInv(s.config, s.requests[a.j])
    ensures NilOk(s.config, Moved(s, a))
  {
    if a.Answer? && CallOf(s, a.j).pc.answer.None? {
      var session := SessionOf(s, s.requests[a.j].client);
      assert SessionOk(s.config, session);
      StickySession.NilOnlyWithout(s.config.upstreams, session.past, session.state, s.requests[a.j].pc.call);
    }
  }

  ghost predicate Inv(s: State)
  {
    && Counted(s) && SessionsOk(s)
    && forall j :: 0 <= j < |s.requests| ==>
         && RequestInv(s.config, s.requests[j]) && CallInv(s, j)
         && (Distinct(s.config.upstreams) ==> NoneTwice(s.requests[j].attempts))
         && NilOk(s.config, s.requests[j])
  }

  lemma RequestKept(s: State, a: Action)
    requires Enabled(s, a) && !a.NewRequest? && RequestInv(s.config, s.requests[a.j])
    ensures RequestInv(s.config, Moved(s, a))
  {
    var r := s.requests[a.j];
    if a.Return? && r.frames != [] {
      assert r.frames[..|r.frames| - 1] <= r.frames;
    }
  }

  lemma AttemptsKept(s: State, a: Action)
    requires Enabled(s, a) && !a.NewRequest? && SessionsOk(s) && CallInv(s, a.j)
    requires RequestInv(s.config, s.requests[a.j]) && Distinct(s.config.upstreams)
    requires NoneTwice(s.requests[a.j].attempts)
    ensures NoneTwice(Moved(s, a).attempts)
  {
    var r, t := s.requests[a.j], Moved(s, a);
    if t.attempts != r.attempts {
      GivenAnother(s, a.j, a, Last(t.attempts));
      assert t.attempts == r.attempts + [Last(t.attempts)];
    }
  }

  lemma StepKeepsInv(s: State, a: Action)
    requires Inv(s) && Enabled(s, a)
    ensures Inv(Apply(s, a))
  {
    var t := Apply(s, a);
    CountedKept(s, a);
    SessionsKept(s, a);
    forall j | 0 <= j < |t.requests|
      ensures RequestInv(t.config, t.requests[j]) && CallInv(t, j)
      ensures Distinct(t.config.upstreams) ==> NoneTwice(t.requests[j].attempts)
      ensures NilOk(t.config, t.requests[j])
    {
      CallKept(s, a, j);
      if !a.NewRequest? && a.j == j {
        RequestKept(s, a);
        NilKept(s, a);
        if Distinct(s.config.upstreams) {
          AttemptsKept(s, a);
        }
      }
    }
  }

  lemma {:induction false} RunKeepsInv(config: Config, schedule: seq<Action>, s: State)
    requires Run(Init(config), schedule) == Some(s)
    ensures Inv(s) && s.config == config
  {
    if schedule != [] {
      var last := |schedule| - 1;
      var t := Run(Init(config), schedule[..last]).value;
      RunKeepsInv(config, schedule[..last], t);
      StepKeepsInv(t, schedule[last]);
    } else {
      InitInv(config);
    }
  }

  lemma InitInv(config: Config)
    ensures Inv(Init(config))
  {
  }

  /** Under every interleaving of requests each counter is its open frames, and when
      no request is in flight every counter is back at zero. */
  lemma ConnectionsAreFrames(config: Config, schedule: seq<Action>, s: State, u: Upstream)
    requires Run(Init(config), schedule) == Some(s)
    ensures Connections(s, u) == Frames(s.requests, u)
    ensures (forall j :: 0 <= j < |s.requests| ==> s.requests[j].pc.Over?) ==> Connections(s, u) == 0
  {
    RunKeepsInv(config, schedule, s);
    if forall j :: 0 <= j < |s.requests| ==> s.requests[j].pc.Over? {
      forall j | 0 <= j < |s.requests| ensures s.requests[j].frames == [] {
        assert RequestInv(config, s.requests[j]);
      }
      NoFrames(s.requests, u);
    }
  }

  /** Whatever other requests do, a request makes at most `max(1, RetryMax)` attempts,
      and on a list with two distinct upstreams never two in a row to the same one. */
  lemma AttemptsBounded(config: Config, schedule: seq<Action>, s: State, j: nat)
    requires Run(Init(config), schedule) == Some(s) && j < |s.requests|
    ensures |s.requests[j].attempts| <= Limit(config.retryMax)
    ensures Distinct(config.upstreams) ==> NoneTwice(s.requests[j].attempts)
  {
    RunKeepsInv(config, schedule, s);
    assert RequestInv(config, s.requests[j]);
  }

  /** A request that is over was served, or was refused after exactly `max(1, RetryMax)`
      attempts, or had no upstream left; so with one upstream on the list, or with two
      distinct ones, every request that was not served had all its attempts. */
  lemma EndsAfterAll(config: Config, schedule: seq<Action>, s: State, j: nat)
    requires Run(Init(config), schedule) == Some(s) && j < |s.requests| && s.requests[j].pc.Over?
    ensures var r := s.requests[j];
            || r.ending.Served?
            || (r.ending.Refused? && |r.attempts| == Limit(config.retryMax))
            || (r.ending.NoUpstream? && StickySession.NoneLeft(config.upstreams, r.previous))
    ensures |config.upstreams| == 1 || Distinct(config.upstreams) ==>
              s.requests[j].ending.Served? || |s.requests[j].attempts| == Limit(config.retryMax)
  {
    RunKeepsInv(config, schedule, s);
    assert RequestInv(config, s.requests[j]) && NilOk(config, s.requests[j]);
  }

  // ---- Every request ends ----

  function Phase(pc: RequestPc): nat
  {
    match pc
    case Entering => 3
    case InNext(_) => 2
    case Choosing => 2
    case Opening => 6
    case Proxying => 4
    case Unwinding => 1
    case Over => 0
  }

  function Weight(limit: nat, r: Request): int
  {
    6 * (limit - |r.attempts|) + |r.frames| + Phase(r.pc)
  }

  /** A step of request `j` outside the turns of `Next`. */
  predicate OwnStep(a: Action, j: nat) { !a.NewRequest? && !a.NextTurn? && a.j == j }

  function OwnSteps(schedule: seq<Action>, j: nat): nat
  {
    if schedule == [] then 0
    else OwnSteps(schedule[..|schedule| - 1], j) + if OwnStep(schedule[|schedule| - 1], j) then 1 else 0
  }

  lemma WeightFalls(s: State, a: Action)
    requires Inv(s) && Enabled(s, a) && !a.NewRequest? && !a.NextTurn?
    ensures Weight(Limit(s.config.retryMax), Moved(s, a)) < Weight(Limit(s.config.retryMax), s.requests[a.j])
  {
    assert RequestInv(s.config, s.requests[a.j]);
  }

  /** A request that does not exist yet has taken no step; any other has taken, outside
      the turns of `Next`, at most six for each attempt allowed, and three. */
  lemma {:induction false} StepsBounded(config: Config, schedule: seq<Action>, s: State, j: nat)
    requires Run(Init(config), schedule) == Some(s)
    ensures var limit := Limit(config.retryMax);
            if j < |s.requests|
            then OwnSteps(schedule, j) + Weight(limit, s.requests[j]) <= 6 * limit + 3
                 && Weight(limit, s.requests[j]) >= 0
            else OwnSteps(schedule, j) == 0
  {
    RunKeepsInv(config, schedule, s);
    if schedule != [] {
      var last := |schedule| - 1;
      var t := Run(Init(config), schedule[..last]).value;
      RunKeepsInv(config, schedule[..last], t);
      StepsBounded(config, schedule[..last], t, j);
      if !schedule[last].NewRequest? && !schedule[last].NextTurn? {
        WeightFalls(t, schedule[last]);
      }
    }
    if j < |s.requests| {
      assert RequestInv(config, s.requests[j]);
    }
  }

  /** The steps of all requests outside the turns of `Next`. */
  function StepsOutside(schedule: seq<Action>, n: nat): nat
  {
    if n == 0 then 0 else StepsOutside(schedule, n - 1) + OwnSteps(schedule, n - 1)
  }

  lemma {:induction false} StepsOutsideBounded(config: Config, schedule: seq<Action>, s: State, n: nat)
    requires Run(Init(config), schedule) == Some(s) && n <= |s.requests|
    ensures StepsOutside(schedule, n) <= n * (6 * Limit(config.retryMax) + 3)
  {
    if n > 0 {
      StepsOutsideBounded(config, schedule, s, n - 1);
      StepsBounded(config, schedule, s, n - 1);
      var m := 6 * Limit(config.retryMax) + 3;
      assert n * m == (n - 1) * m + m;
    }
  }

  lemma {:induction false} StepsOutsideStep(schedule: seq<Action>, a: Action, n: nat)
    ensures StepsOutside(schedule + [a], n) ==
              StepsOutside(schedule, n) + if !a.NewRequest? && !a.NextTurn? && a.j < n then 1 else 0
  {
    if n > 0 {
      StepsOutsideStep(schedule, a, n - 1);
      assert (schedule + [a])[..|schedule|] == schedule;
    }
  }

  lemma {:induction false} NoStepsYet(config: Config, schedule: seq<Action>, s: State, n: nat)
    requires Run(Init(config), schedule) == Some(s) && |s.requests| <= n
    ensures StepsOutside(schedule, n) == StepsOutside(schedule, |s.requests|)
  {
    if n > |s.requests| {
      NoStepsYet(config, schedule, s, n - 1);
      StepsBounded(config, schedule, s, n - 1);
    }
  }

  /** Each `Next` call is entered by a step of its request. */
  lemma {:induction false} CallsCounted(config: Config, schedule: seq<Action>, s: State, c: Client)
    requires Run(Init(config), schedule) == Some(s)
    ensures |SessionOf(s, c).state.calls| <= StepsOutside(schedule, |s.requests|)
  {
    if schedule != [] {
      var last := |schedule| - 1;
      var before := schedule[..last];
      var t := Run(Init(config), before).value;
      CallsCounted(config, before, t, c);
      NoStepsYet(config, before, t, |s.requests|);
      assert schedule == before + [schedule[last]];
      StepsOutsideStep(before, schedule[last], |s.requests|);
    }
  }

  /** The turns of `Next` in a client's session are bounded by the number of requests
      alone, so that with `StepsBounded` every request comes to its end. */
  lemma TurnsBounded(config: Config, schedule: seq<Action>, s: State, c: Client)
    requires Run(Init(config), schedule) == Some(s)
    ensures var n := |s.requests| * (6 * Limit(config.retryMax) + 3);
            |SessionOf(s, c).state.calls| <= n && StickySession.TurnsIn(SessionOf(s, c).past) <= n * (6 + 4 * n)
  {
    var n := |s.requests| * (6 * Limit(config.retryMax) + 3);
    var session := SessionOf(s, c);
    RunKeepsInv(config, schedule, s);
    assert SessionOk(s.config, session);
    CallsCounted(config, schedule, s, c);
    StepsOutsideBounded(config, schedule, s, |s.requests|);
    StickySession.TurnsBounded(config.upstreams, session.past, session.state, n);
    StickySession.MulRises(6 + 4 * n, |session.state.calls|, n);
    StickySession.Swapped(6 + 4 * n, |session.state.calls|);
    StickySession.Swapped(6 + 4 * n, n);
  }

  /** The turns of `Next` in the sessions of the first `n` requests' clients. */
  function SessionTurns(s: State, n: nat): nat
    requires n <= |s.requests|
  {
    if n == 0 then 0
    else SessionTurns(s, n - 1) + StickySession.TurnsIn(SessionOf(s, s.requests[n - 1].client).past)
  }

  function NextTurns(schedule: seq<Action>): nat
  {
    if schedule == [] then 0
    else NextTurns(schedule[..|schedule| - 1]) + if schedule[|schedule| - 1].NextTurn? then 1 else 0
  }

  function NewRequests(schedule: seq<Action>): nat
  {
    if schedule == [] then 0
    else NewRequests(schedule[..|schedule| - 1]) + if schedule[|schedule| - 1].NewRequest? then 1 else 0
  }

  /** A step only adds to the past of a session. */
  lemma PastGrows(s: State, a: Action, c: Client)
    requires Enabled(s, a)
    ensures var was, now := SessionOf(s, c).past, SessionOf(Apply(s, a), c).past;
            && StickySession.TurnsIn(was) <= StickySession.TurnsIn(now)
            && (a.NextTurn? && s.requests[a.j].client == c ==>
                  StickySession.TurnsIn(was) < StickySession.TurnsIn(now))
  {
    if SessionAction(s, a).Some? && c == s.requests[a.j].client {
      assert (SessionOf(s, c).past + [SessionAction(s, a).value])[..|SessionOf(s, c).past|] == SessionOf(s, c).past;
    }
  }

  lemma SameClient(s: State, a: Action, j: nat)
    requires Enabled(s, a) && j < |s.requests|
    ensures |s.requests| <= |Apply(s, a).requests| && Apply(s, a).requests[j].client == s.requests[j].client
  {
  }

  lemma {:induction false} SessionTurnsGrow(s: State, a: Action, n: nat)
    requires Enabled(s, a) && n <= |s.requests|
    ensures n <= |Apply(s, a).requests|
    ensures SessionTurns(s, n) + (if a.NextTurn? && a.j < n then 1 else 0) <= SessionTurns(Apply(s, a), n)
  {
    if n > 0 {
      SessionTurnsGrow(s, a, n - 1);
      SameClient(s, a, n - 1);
      PastGrows(s, a, s.requests[n - 1].client);
    }
  }

  /** Every turn of `Next` is one of some request's session. */
  lemma {:induction false} TurnsCounted(config: Config, schedule: seq<Action>, s: State)
    requires Run(Init(config), schedule) == Some(s)
    ensures NextTurns(schedule) <= SessionTurns(s, |s.requests|) && NewRequests(schedule) == |s.requests|
  {
    if schedule != [] {
      var last := |schedule| - 1;
      var t := Run(Init(config), schedule[..last]).value;
      TurnsCounted(config, schedule[..last], t);
      SessionTurnsGrow(t, schedule[last], |t.requests|);
    }
  }

  lemma {:induction false} SessionTurnsBounded(config: Config, schedule: seq<Action>, s: State, n: nat)
    requires Run(Init(config), schedule) == Some(s) && n <= |s.requests|
    ensures var m := |s.requests| * (6 * Limit(config.retryMax) + 3);
            SessionTurns(s, n) <= n * (m * (6 + 4 * m))
  {
    if n > 0 {
      SessionTurnsBounded(config, schedule, s, n - 1);
      TurnsBounded(config, schedule, s, s.requests[n - 1].client);
      var m := |s.requests| * (6 * Limit(config.retryMax) + 3);
      var b := m * (6 + 4 * m);
      assert n * b == (n - 1) * b + b;
    }
  }

  /** Every step is a new request, a turn of `Next`, or a request's own. */
  lemma {:induction false} StepsSplit(config: Config, schedule: seq<Action>, s: State)
    requires Run(Init(config), schedule) == Some(s)
    ensures |schedule| == NewRequests(schedule) + NextTurns(schedule) + StepsOutside(schedule, |s.requests|)
  {
    if schedule != [] {
      var last := |schedule| - 1;
      var before := schedule[..last];
      var t := Run(Init(config), before).value;
      StepsSplit(config, before, t);
      NoStepsYet(config, before, t, |s.requests|);
      assert schedule == before + [schedule[last]];
      StepsOutsideStep(before, schedule[last], |s.requests|);
    } else {
      assert |s.requests| == 0;
    }
  }

  /** The balancer always comes to rest: with `r` requests, a run of any interleaving
      has at most `r` arrivals, `m` steps of requests outside `Next`, and
      `r * m * (6 + 4 m)` turns inside it, where `m` is `r` times `6 L + 3`. */
  lemma EveryRequestEnds(config: Config, schedule: seq<Action>, s: State)
    requires Run(Init(config), schedule) == Some(s)
    ensures var r := |s.requests|;
            var m := r * (6 * Limit(config.retryMax) + 3);
            |schedule| <= r + m + r * (m * (6 + 4 * m))
  {
    StepsSplit(config, schedule, s);
    TurnsCounted(config, schedule, s);
    StepsOutsideBounded(config, schedule, s, |s.requests|);
    SessionTurnsBounded(config, schedule, s, |s.requests|);
  }

  /** A request that is not over can always take a step. */
  lemma RequestMoves(config: Config, schedule: seq<Action>, s: State, j: nat) returns (a: Action)
    requires Run(Init(config), schedule) == Some(s)
    requires j < |s.requests| && !s.requests[j].pc.Over?
    ensures Enabled(s, a) && !a.NewRequest? && a.j == j
  {
    RunKeepsInv(config, schedule, s);
    assert RequestInv(config, s.requests[j]) && CallInv(s, j);
    match s.requests[j].pc
    case Entering => a := Enter(j);
    case InNext(call) =>
      if CallOf(s, j).pc.Answered? {
        a := Answer(j);
      } else {
        var pick := StickySession.CallMoves(SessionOf(s, s.requests[j].client).state, call);
        a := NextTurn(j, pick);
      }
    case Choosing => a := Choose(j, StickySession.PickOther(s.config.upstreams, s.requests[j].previous));
    case Opening => a := Open(j);
    case Proxying => a := End(j);
    case _ => a := Return(j);
  }
}
