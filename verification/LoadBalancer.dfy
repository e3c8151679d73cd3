/** The load balancer as one request goes through it: selection of an upstream, and
    the mutual recursion of `ServeHTTP` and the upstream's error handler. */
module LoadBalancer {
  import opened Errors
  import StickySession

  datatype Method = Conn | Random | Hash

  /** How the proxy ends an attempt: the upstream served it; it failed and the
      client is gone or the request cancelled; it failed and the backoff passed; it
      failed and the client left during the backoff. */
  datatype Outcome = Served | ClientGone | Failed | LeftDuringBackoff

  /** The outcome of attempt `k`: any list says how a request's attempts end, and those
      past the list are served. */
  function At(outcomes: seq<Outcome>, k: nat): Outcome
  {
    if k < |outcomes| then outcomes[k] else Served
  }

  class Upstream {
    var numConnections: int

    constructor ()
      ensures numConnections == 0
    {
      numConnections := 0;
    }
  }

  class RequestContext {
    const ip: string
    var retryCount: nat
    var previous: Upstream?

    constructor (ip: string)
      ensures this.ip == ip && retryCount == 0 && previous == null
    {
      this.ip, retryCount, previous := ip, 0, null;
    }
  }

  /** The connections of each upstream, as a value. */
  type Loads = map<Upstream, int>

  /** `i` is the first of the least loaded upstreams other than `retry`. */
  ghost predicate FirstLeastLoaded(ups: seq<Upstream>, loads: Loads, retry: Upstream?, i: nat)
    requires forall u :: u in ups ==> u in loads
  {
    && i < |ups| && ups[i] != retry
    && (forall j :: 0 <= j < |ups| && ups[j] != retry ==> loads[ups[i]] <= loads[ups[j]])
    && (forall j :: 0 <= j < i && ups[j] != retry ==> loads[ups[i]] < loads[ups[j]])
  }

  /** The list from place `n`, going round. */
  function Rotated(ups: seq<Upstream>, n: nat): seq<Upstream>
    requires n <= |ups|
  {
    ups[n..] + ups[..n]
  }

  lemma ModOnce(a: nat, m: nat)
    requires 0 < m && a < 2 * m
    ensures a % m == if a < m then a else a - m
  {
    if a < m {
      assert a / m == 0;
    } else {
      assert a / m == 1;
    }
  }

  /** The upstream `e` places after place `n`, going round. */
  lemma RotatedAt(ups: seq<Upstream>, n: nat, e: nat)
    requires n < |ups| && e < |ups|
    ensures Rotated(ups, n)[e] == ups[(n + e) % |ups|]
  {
    ModOnce(n + e, |ups|);
  }

  /** `d` steps after place `n` is the nearest upstream other than `retry`. */
  ghost predicate NearestOther(ups: seq<Upstream>, retry: Upstream?, n: nat, d: nat)
    requires n <= |ups|
  {
    && d < |ups| && Rotated(ups, n)[d] != retry
    && forall e :: 0 <= e < d ==> Rotated(ups, n)[e] == retry
  }

  ghost predicate HasOther(ups: seq<Upstream>, retry: Upstream?)
  {
    exists u :: u in ups && u != retry
  }

  /** What selection answers, whatever the list: nothing for an empty list, the only
      one of a list of one, and otherwise one that is not `retry` if there is any; if
      all are, `retry` itself, but for the method that compares loads. */
  ghost predicate Selected(m: Method, start: nat, ups: seq<Upstream>, loads: Loads, retry: Upstream?, us: Upstream?)
    requires (forall u :: u in ups ==> u in loads) && start <= |ups|
  {
    if |ups| == 0 then us == null
    else if |ups| == 1 then us == ups[0]
    else if HasOther(ups, retry) then
      match m
      case Conn => exists i: nat :: FirstLeastLoaded(ups, loads, retry, i) && us == ups[i]
      case Hash => exists d: nat :: NearestOther(ups, retry, start, d) && us == Rotated(ups, start)[d]
      case Random => us in ups && us != retry
    else if m.Conn? then us == null
    else us == retry
  }

  ghost predicate TwoDistinct(ups: seq<Upstream>)
  {
    exists u, v :: u in ups && v in ups && u != v
  }

  /** With two distinct upstreams every selection finds one that is not `retry`. */
  lemma SelectedAvoids(m: Method, start: nat, ups: seq<Upstream>, loads: Loads, retry: Upstream?, us: Upstream?)
    requires (forall u :: u in ups ==> u in loads) && start <= |ups|
    requires Selected(m, start, ups, loads, retry, us) && TwoDistinct(ups)
    ensures us != null && us in ups && us != retry
  {
    var u, v :| u in ups && v in ups && u != v;
    assert u != retry || v != retry;
    assert HasOther(ups, retry);
    if m.Hash? {
      var d: nat :| NearestOther(ups, retry, start, d) && us == Rotated(ups, start)[d];
      assert us in ups[start..] || us in ups[..start];
    }
  }

  /** No upstream is left to a request that failed at `u`. */
  ghost predicate NoneAfter(m: Method, ups: seq<Upstream>, u: Upstream)
  {
    ups == [] || (m.Conn? && |ups| > 1 && forall v :: v in ups ==> v == u)
  }

  /** Selection comes back with nothing exactly then. */
  lemma SelectedNothing(m: Method, start: nat, ups: seq<Upstream>, loads: Loads, u: Upstream, us: Upstream?)
    requires (forall v :: v in ups ==> v in loads) && start <= |ups|
    requires Selected(m, start, ups, loads, u, us)
    ensures us == null <==> NoneAfter(m, ups, u)
  {
  }

  /** For a new request it does so only if there is none. */
  lemma FirstNothing(m: Method, start: nat, ups: seq<Upstream>, loads: Loads, us: Upstream?)
    requires (forall v :: v in ups ==> v in loads) && start <= |ups|
    requires Selected(m, start, ups, loads, null, us)
    ensures us == null <==> ups == []
  {
    assert ups != [] ==> ups[0] in ups;
  }

  lemma DistinctLeavesOne(m: Method, ups: seq<Upstream>, u: Upstream)
    requires TwoDistinct(ups) || |ups| == 1
    ensures !NoneAfter(m, ups, u)
  {
  }

  function AsOption(u: Upstream?): Option<Upstream>
  {
    if u == null then None else Some(u)
  }

  /** Whatever the method, the list and the loads, a selection is one that a session's
      calls may pick (`StickySession.Selectable`). */
  lemma SelectedIsSelectable(m: Method, start: nat, ups: seq<Upstream>, loads: Loads, retry: Upstream?, us: Upstream?)
    requires (forall u :: u in ups ==> u in loads) && start <= |ups|
    requires Selected(m, start, ups, loads, retry, us)
    ensures StickySession.Selectable(ups, AsOption(retry), AsOption(us))
  {
    if |ups| > 1 && !HasOther(ups, retry) {
      forall u | u in ups ensures u == retry {
        var i :| 0 <= i < |ups| && ups[i] == u;
      }
      assert ups[0] in ups;
    }
  }

  ghost function LoadsOf(pool: set<Upstream>): (loads: Loads)
    reads pool
    ensures loads.Keys == pool
  {
    map u | u in pool :: u.numConnections
  }

  /** The list without an upstream, as `lo.Without` gives it. */
  function Without(ups: seq<Upstream>, u: Upstream): seq<Upstream>
  {
    if ups == [] then []
    else Without(ups[..|ups| - 1], u) + if ups[|ups| - 1] == u then [] else [ups[|ups| - 1]]
  }

  lemma {:induction false} WithoutKeepsOthers(ups: seq<Upstream>, u: Upstream)
    ensures forall v :: v in Without(ups, u) <==> v in ups && v != u
  {
    if ups != [] {
      WithoutKeepsOthers(ups[..|ups| - 1], u);
      assert ups == ups[..|ups| - 1] + [ups[|ups| - 1]];
    }
  }

  /** How a balancer selects for a client: its method, the place the client's hash
      stands for, and the list. */
  datatype Policy = Policy(m: Method, start: nat, ups: seq<Upstream>)

  /** The loads when these frames are open, over those at `base`. */
  ghost function LoadsWith(base: Loads, open: seq<Upstream>): (loads: Loads)
    ensures loads.Keys == base.Keys
  {
    map u | u in base :: base[u] + multiset(open)[u]
  }

  /** With these frames open, selection answers `us` to a failure of the last of them,
      at the loads of that moment. */
  ghost predicate Picked(p: Policy, base: Loads, open: seq<Upstream>, us: Upstream?)
  {
    && (forall u :: u in p.ups ==> u in base) && p.start <= |p.ups| && open != []
    && Selected(p.m, p.start, p.ups, LoadsWith(base, open), open[|open| - 1], us)
  }

  /** What may happen to a request after attempt `k`, the last of the frames, when it
      had failed `failures` times before: the attempts that follow, and whether they
      ended for want of an upstream. */
  ghost predicate After(p: Policy, base: Loads, max: int, outcomes: seq<Outcome>, k: nat, failures: nat,
                        open: seq<Upstream>, attempts: seq<Upstream>, stuck: bool)
    decreases |attempts|, 1
  {
    if At(outcomes, k) == Failed then OnFailure(p, base, max, outcomes, k + 1, failures + 1, open, attempts, stuck)
    else attempts == [] && !stuck
  }

  /** What may happen on a failure: no more at the maximum, and otherwise the pick, if
      there is one, and what happens after it. */
  ghost predicate OnFailure(p: Policy, base: Loads, max: int, outcomes: seq<Outcome>, k: nat, failures: nat,
                            open: seq<Upstream>, attempts: seq<Upstream>, stuck: bool)
    decreases |attempts|, 0
  {
    if failures >= max then attempts == [] && !stuck
    else if attempts == [] then stuck && Picked(p, base, open, null)
    else
      && Picked(p, base, open, attempts[0])
      && After(p, base, max, outcomes, k, failures, open + [attempts[0]], attempts[1..], stuck)
  }

  /** How many attempts follow, and that they failed. */
  lemma {:induction false} AfterCounts(p: Policy, base: Loads, max: int, outcomes: seq<Outcome>, k: nat, failures: nat,
                                       open: seq<Upstream>, attempts: seq<Upstream>, stuck: bool)
    requires After(p, base, max, outcomes, k, failures, open, attempts, stuck)
    ensures attempts != [] ==> failures + 1 + |attempts| <= max
    ensures forall m: nat :: k <= m < k + |attempts| ==> At(outcomes, m) == Failed
    ensures At(outcomes, k + |attempts|) == Failed && !stuck ==> failures + 1 + |attempts| >= max
    decreases |attempts|
  {
    if attempts != [] {
      AfterCounts(p, base, max, outcomes, k + 1, failures + 1, open + [attempts[0]], attempts[1..], stuck);
    }
  }

  /** What each of them was picked with. */
  lemma {:induction false} AfterPicks(p: Policy, base: Loads, max: int, outcomes: seq<Outcome>, k: nat, failures: nat,
                                      open: seq<Upstream>, attempts: seq<Upstream>, stuck: bool, i: nat)
    requires After(p, base, max, outcomes, k, failures, open, attempts, stuck) && i < |attempts|
    ensures Picked(p, base, open + attempts[..i], attempts[i])
    decreases |attempts|
  {
    if i == 0 {
      assert open + attempts[..0] == open;
    } else {
      var head, tail := [attempts[0]], attempts[1..];
      AfterPicks(p, base, max, outcomes, k + 1, failures + 1, open + head, tail, stuck, i - 1);
      assert open + head + tail[..i - 1] == open + attempts[..i];
    }
  }

  /** The upstream before attempt `i`: the last frame's, for the first of them. */
  function Prior(open: seq<Upstream>, attempts: seq<Upstream>, i: nat): Upstream
    requires open != [] && i <= |attempts|
  {
    if i == 0 then open[|open| - 1] else attempts[i - 1]
  }

  lemma PriorOfTail(open: seq<Upstream>, attempts: seq<Upstream>, i: nat)
    requires open != [] && 0 < i <= |attempts|
    ensures Prior(open, attempts, i) == Prior(open + [attempts[0]], attempts[1..], i - 1)
  {
  }

  /** Each came after one that had an upstream left to it, and with two distinct
      upstreams after another one. */
  lemma {:induction false} AfterGoesOn(p: Policy, base: Loads, max: int, outcomes: seq<Outcome>, k: nat, failures: nat,
                                       open: seq<Upstream>, attempts: seq<Upstream>, stuck: bool, i: nat)
    requires After(p, base, max, outcomes, k, failures, open, attempts, stuck) && i < |attempts| && open != []
    ensures !NoneAfter(p.m, p.ups, Prior(open, attempts, i))
    ensures TwoDistinct(p.ups) ==> attempts[i] != Prior(open, attempts, i)
    decreases |attempts|
  {
    if i == 0 {
      PickGoesOn(p, base, open, attempts[0]);
    } else {
      AfterGoesOn(p, base, max, outcomes, k + 1, failures + 1, open + [attempts[0]], attempts[1..], stuck, i - 1);
      PriorOfTail(open, attempts, i);
    }
  }

  /** And it was stuck only where none was left. */
  lemma {:induction false} AfterStuck(p: Policy, base: Loads, max: int, outcomes: seq<Outcome>, k: nat, failures: nat,
                                      open: seq<Upstream>, attempts: seq<Upstream>)
    requires After(p, base, max, outcomes, k, failures, open, attempts, true) && open != []
    ensures NoneAfter(p.m, p.ups, Prior(open, attempts, |attempts|))
    decreases |attempts|
  {
    if attempts == [] {
      SelectedNothing(p.m, p.start, p.ups, LoadsWith(base, open), open[|open| - 1], null);
    } else {
      AfterStuck(p, base, max, outcomes, k + 1, failures + 1, open + [attempts[0]], attempts[1..]);
      PriorOfTail(open, attempts, |attempts|);
    }
  }

  /** The same for a whole request. */
  lemma Followed(p: Policy, base: Loads, max: int, outcomes: seq<Outcome>, attempts: seq<Upstream>, stuck: bool)
    requires attempts != [] && After(p, base, max, outcomes, 0, 0, [attempts[0]], attempts[1..], stuck)
    ensures |attempts| <= if max > 1 then max else 1
    ensures forall m: nat :: m < |attempts| - 1 ==> At(outcomes, m) == Failed
    ensures forall i :: 0 <= i < |attempts| - 1 ==> !NoneAfter(p.m, p.ups, attempts[i])
    ensures At(outcomes, |attempts| - 1) == Failed ==>
              || |attempts| == (if max > 1 then max else 1)
              || (NoneAfter(p.m, p.ups, attempts[|attempts| - 1]) && !TwoDistinct(p.ups) && |p.ups| != 1)
    ensures TwoDistinct(p.ups) ==> forall i :: 0 < i < |attempts| ==> attempts[i] != attempts[i - 1]
  {
    var head, tail := [attempts[0]], attempts[1..];
    AfterCounts(p, base, max, outcomes, 0, 0, head, tail, stuck);
    forall i | 0 <= i < |tail|
      ensures !NoneAfter(p.m, p.ups, attempts[i]) && (TwoDistinct(p.ups) ==> attempts[i + 1] != attempts[i])
    {
      AfterGoesOn(p, base, max, outcomes, 0, 0, head, tail, stuck, i);
      assert attempts[i] == Prior(head, tail, i);
    }
    if stuck {
      AfterStuck(p, base, max, outcomes, 0, 0, head, tail);
      assert attempts[|attempts| - 1] == Prior(head, tail, |tail|);
      if TwoDistinct(p.ups) || |p.ups| == 1 {
        DistinctLeavesOne(p.m, p.ups, attempts[|attempts| - 1]);
      }
    }
  }

  lemma FollowedPicks(p: Policy, base: Loads, max: int, outcomes: seq<Outcome>, attempts: seq<Upstream>, stuck: bool)
    requires attempts != [] && After(p, base, max, outcomes, 0, 0, [attempts[0]], attempts[1..], stuck)
    ensures forall i :: 0 < i < |attempts| ==> Picked(p, base, attempts[..i], attempts[i])
  {
    var head, tail := [attempts[0]], attempts[1..];
    forall i | 0 < i < |attempts| ensures Picked(p, base, attempts[..i], attempts[i]) {
      AfterPicks(p, base, max, outcomes, 0, 0, head, tail, stuck, i - 1);
      assert head + tail[..i - 1] == attempts[..i];
    }
  }

  lemma PickGoesOn(p: Policy, base: Loads, open: seq<Upstream>, us: Upstream)
    requires Picked(p, base, open, us)
    ensures !NoneAfter(p.m, p.ups, open[|open| - 1])
    ensures TwoDistinct(p.ups) ==> us != open[|open| - 1]
  {
    SelectedNothing(p.m, p.start, p.ups, LoadsWith(base, open), open[|open| - 1], us);
    if TwoDistinct(p.ups) {
      SelectedAvoids(p.m, p.start, p.ups, LoadsWith(base, open), open[|open| - 1], us);
    }
  }

  /** One frame more counts once more for its upstream. */
  lemma FrameAdded(open: seq<Upstream>, us: Upstream)
    ensures forall u :: multiset(open + [us])[u] == multiset(open)[u] + if u == us then 1 else 0
  {
  }

  class LoadBalancer {
    const sticky: bool
    const lbMethod: Method
    const retryMax: int
    const fastHash: string -> nat
    var upstreams: seq<Upstream>
    var sessions: map<string, Upstream?>
    ghost var pool: set<Upstream>

    /** The pool holds every upstream ever added: a session may still hold one that
        has been removed from the list. */
    ghost predicate Valid()
      reads this
    {
      && (forall u :: u in upstreams ==> u in pool)
      && (forall ip :: ip in sessions && sessions[ip] != null ==> sessions[ip] in pool)
    }

    constructor (sticky: bool, lbMethod: Method, retryMax: int, fastHash: string -> nat)
      ensures this.sticky == sticky && this.lbMethod == lbMethod
      ensures this.retryMax == retryMax && this.fastHash == fastHash
      ensures Valid() && upstreams == [] && sessions == map[] && pool == {}
    {
      this.sticky, this.lbMethod, this.retryMax, this.fastHash := sticky, lbMethod, retryMax, fastHash;
      upstreams, sessions, pool := [], map[], {};
    }

    method AddUpstream(u: Upstream)
      requires Valid()
      modifies this`upstreams, this`pool
      ensures Valid() && upstreams == old(upstreams) + [u] && pool == old(pool) + {u}
    {
      upstreams := upstreams + [u];
      pool := pool + {u};
    }

    /** The list loses the upstream.  The sessions keep it: the source compares each
        session with the upstream, and a session is never an upstream. */
    method RemoveUpstream(u: Upstream)
      requires Valid()
      modifies this`upstreams
      ensures Valid() && upstreams == Without(old(upstreams), u)
      ensures u !in upstreams && forall ip :: Session(ip) == old(Session(ip))
    {
      var kept := [];
      for i := 0 to |upstreams|
        invariant kept == Without(upstreams[..i], u)
      {
        if upstreams[i] != u {
          kept := kept + [upstreams[i]];
        }
        assert upstreams[..i + 1][..i] == upstreams[..i];
      }
      assert upstreams[..|upstreams|] == upstreams;
      WithoutKeepsOthers(upstreams, u);
      upstreams := kept;
    }

    /** `lo.MinBy` with the comparison of `Next`: a failed upstream is never less. */
    method LeastLoaded(retry: Upstream?) returns (us: Upstream?)
      requires |upstreams| > 1 && Valid()
      ensures HasOther(upstreams, retry) ==>
                exists i: nat :: FirstLeastLoaded(upstreams, LoadsOf(pool), retry, i) && us == upstreams[i]
      ensures !HasOther(upstreams, retry) ==> us == null
      ensures us != null ==> us in upstreams
    {
      var up := upstreams[0];
      ghost var at := 0;
      ghost var loads := LoadsOf(pool);
      for k := 1 to |upstreams|
        invariant at < k && up == upstreams[at]
        invariant up == retry ==> at == 0 && forall j :: 0 <= j < k ==> upstreams[j] == retry
        invariant up != retry ==> FirstLeastLoaded(upstreams[..k], loads, retry, at)
      {
        var a := upstreams[k];
        var less := if a == retry then false else if up == retry then true else a.numConnections < up.numConnections;
        if less {
          up, at := a, k;
        }
      }
      assert upstreams[..|upstreams|] == upstreams;
      assert up in upstreams;
      assert up == retry ==> forall u :: u in upstreams ==> u == retry;
      us := if up == retry then null else up;
    }

    /** The probing loop from place `n`. */
    method Probe(n: nat, retry: Upstream?) returns (us: Upstream)
      requires |upstreams| > 1 && n < |upstreams|
      ensures HasOther(upstreams, retry) ==>
                exists d: nat :: NearestOther(upstreams, retry, n, d) && us == Rotated(upstreams, n)[d]
      ensures !HasOther(upstreams, retry) ==> us == retry
      ensures us in upstreams
    {
      us := upstreams[n];
      ghost var round := Rotated(upstreams, n);
      assert round[0] == us;
      if us == retry {
        var i := 1;
        while i < |upstreams|
          invariant 1 <= i <= |upstreams|
          invariant us == retry && forall e :: 0 <= e < i ==> round[e] == retry
        {
          us := upstreams[(n + i) % |upstreams|];
          RotatedAt(upstreams, n, i);
          if us != retry {
            assert us in upstreams;
            assert NearestOther(upstreams, retry, n, i);
            return;
          }
          i := i + 1;
        }
        AllProbed(n, retry);
      } else {
        assert us in upstreams;
        assert NearestOther(upstreams, retry, n, 0);
      }
    }

    /** Going once round from any place meets every upstream. */
    lemma AllProbed(n: nat, retry: Upstream?)
      requires n < |upstreams|
      requires forall e :: 0 <= e < |upstreams| ==> Rotated(upstreams, n)[e] == retry
      ensures !HasOther(upstreams, retry)
    {
      forall u | u in upstreams ensures u == retry {
        assert upstreams == upstreams[..n] + upstreams[n..];
        assert u in Rotated(upstreams, n);
      }
    }

    /** The session of a client, when there is one to use. */
    ghost function Session(ip: string): Upstream?
      reads this
    {
      if sticky && ip in sessions then sessions[ip] else null
    }

    /** `Next`, with nobody else at the session: the session's upstream, unless it is
        the one reported as failed; otherwise a selection, which becomes the session. */
    method Next(ip: string, retry: Upstream?) returns (us: Upstream?)
      requires Valid()
      modifies this`sessions
      ensures Valid() && (us != null ==> us in pool)
      ensures old(Session(ip)) != null && old(Session(ip)) != retry ==> us == old(Session(ip))
      ensures old(Session(ip)) == null || old(Session(ip)) == retry ==>
                Selected(lbMethod, if upstreams == [] then 0 else fastHash(ip) % |upstreams|,
                         upstreams, LoadsOf(pool), retry, us)
      ensures TwoDistinct(upstreams) ==> us != null && us != retry
      ensures sticky ==> Session(ip) == us || (us == null && retry != null)
      ensures forall other :: other != ip ==> Session(other) == old(Session(other))
    {
      if sticky {
        if ip !in sessions {
          sessions := sessions[ip := null];
        }
        var u := sessions[ip];
        if u != null {
          if u == retry {
            sessions := sessions[ip := null];
          } else {
            return u;
          }
        }
      }
      us := Select(ip, retry);
      if TwoDistinct(upstreams) {
        SelectedAvoids(lbMethod, fastHash(ip) % |upstreams|, upstreams, LoadsOf(pool), retry, us);
      }
      if sticky && us != null {
        var v := sessions[ip];
        if v != null && v != retry {
          us := v;
        } else {
          sessions := sessions[ip := us];
        }
      }
    }

    method Select(ip: string, retry: Upstream?) returns (us: Upstream?)
      requires Valid()
      ensures us != null ==> us in upstreams
      ensures Selected(lbMethod, if upstreams == [] then 0 else fastHash(ip) % |upstreams|,
                       upstreams, LoadsOf(pool), retry, us)
    {
      if |upstreams| == 0 {
        return null;
      } else if |upstreams| == 1 {
        return upstreams[0];
      }
      match lbMethod
      case Conn =>
        us := LeastLoaded(retry);
      case Hash =>
        us := Probe(fastHash(ip) % |upstreams|, retry);
      case Random =>
        var n: nat :| n < |upstreams|;
        us := Probe(n, retry);
    }

    /** The counters are what they were at `base` plus the frames open. */
    ghost predicate Framed(base: Loads, open: seq<Upstream>)
      reads this, pool
    {
      && Valid() && base.Keys == pool
      && forall u :: u in pool ==> u.numConnections == base[u] + multiset(open)[u]
    }

    ghost function PolicyFor(ip: string): Policy
      reads this`upstreams
    {
      Policy(lbMethod, if upstreams == [] then 0 else fastHash(ip) % |upstreams|, upstreams)
    }

    /** How many attempts are left to a request. */
    function Left(ctx: RequestContext): int
      reads ctx
    {
      (if retryMax > 1 then retryMax else 1) - ctx.retryCount
    }

    method Connect(us: Upstream, ghost base: Loads, ghost open: seq<Upstream>)
      requires us in pool && Framed(base, open)
      modifies us
      ensures Framed(base, open + [us]) && us.numConnections == old(us.numConnections) + 1
    {
      FrameAdded(open, us);
      us.numConnections := us.numConnections + 1;
    }

    method Disconnect(us: Upstream, ghost base: Loads, ghost open: seq<Upstream>)
      requires us in pool && Framed(base, open + [us])
      modifies us
      ensures Framed(base, open) && us.numConnections == old(us.numConnections) - 1
    {
      FrameAdded(open, us);
      us.numConnections := us.numConnections - 1;
    }

    /** The upstream's `ServeHTTP`, with its error handler.  `k` numbers attempts;
        `stuck` says that the last pick came back with nothing. */
    method Serve(us: Upstream, ctx: RequestContext, k: nat, outcomes: seq<Outcome>,
                 ghost base: Loads, ghost open: seq<Upstream>)
      returns (attempts: seq<Upstream>, ghost stuck: bool)
      requires us in pool && ctx.previous == us && Left(ctx) > 0
      requires Framed(base, open) && (sticky ==> Session(ctx.ip) == us)
      modifies this`sessions, ctx, pool
      ensures Framed(base, open)
      ensures After(PolicyFor(ctx.ip), base, retryMax, outcomes, k, old(ctx.retryCount), open + [us], attempts, stuck)
      decreases Left(ctx), 0
    {
      Connect(us, base, open);
      attempts, stuck := [], false;
      match At(outcomes, k) {
        case Served | ClientGone | LeftDuringBackoff =>
        case Failed =>
          ctx.retryCount := ctx.retryCount + 1;
          attempts, stuck := Retry(ctx, k + 1, outcomes, base, open + [us]);
      }
      Disconnect(us, base, open);
    }

    /** The next upstream for a request that failed at the last one. */
    method SelectAgain(ctx: RequestContext, ghost base: Loads, ghost open: seq<Upstream>) returns (us: Upstream?)
      requires open != [] && ctx.previous == open[|open| - 1]
      requires Framed(base, open) && (sticky ==> Session(ctx.ip) == ctx.previous)
      modifies this`sessions, ctx
      ensures Framed(base, open) && ctx.retryCount == old(ctx.retryCount)
      ensures Picked(PolicyFor(ctx.ip), base, open, us)
      ensures us != null ==> us in pool && ctx.previous == us && (sticky ==> Session(ctx.ip) == us)
    {
      us := Next(ctx.ip, ctx.previous);
      assert LoadsOf(pool) == LoadsWith(base, open);
      if us != null {
        ctx.previous := us;
      }
    }

    /** `ServeHTTP` called again by the error handler. */
    method Retry(ctx: RequestContext, k: nat, outcomes: seq<Outcome>, ghost base: Loads, ghost open: seq<Upstream>)
      returns (attempts: seq<Upstream>, ghost stuck: bool)
      requires open != [] && ctx.previous == open[|open| - 1] && ctx.retryCount > 0 && Left(ctx) >= 0
      requires Framed(base, open) && (sticky ==> Session(ctx.ip) == ctx.previous)
      modifies this`sessions, ctx, pool
      ensures Framed(base, open)
      ensures OnFailure(PolicyFor(ctx.ip), base, retryMax, outcomes, k, old(ctx.retryCount), open, attempts, stuck)
      decreases Left(ctx), 1
    {
      if ctx.retryCount >= retryMax {
        return [], false;
      }
      var us := SelectAgain(ctx, base, open);
      if us == null {
        return [], true;
      }
      var more;
      more, stuck := Serve(us, ctx, k, outcomes, base, open);
      attempts := [us] + more;
      assert attempts[1..] == more;
    }

    /** A new request from its first upstream on. */
    method Handle(us: Upstream, ip: string, outcomes: seq<Outcome>)
      returns (attempts: seq<Upstream>, ghost stuck: bool)
      requires Valid() && us in pool && (sticky ==> Session(ip) == us)
      modifies this`sessions, pool
      ensures Valid() && forall u :: u in pool ==> u.numConnections == old(u.numConnections)
      ensures attempts != [] && attempts[0] == us
      ensures After(PolicyFor(ip), old(LoadsOf(pool)), retryMax, outcomes, 0, 0, [us], attempts[1..], stuck)
    {
      var ctx := new RequestContext(ip);
      ghost var base := LoadsOf(pool);
      ctx.previous := us;
      assert Framed(base, []);
      var more;
      more, stuck := Serve(us, ctx, 0, outcomes, base, []);
      attempts := [us] + more;
      assert [] + [us] == [us] && attempts[1..] == more;
    }

    /** `ServeHTTP` for a new request.  The first attempt goes to the session's upstream
        or else to the method's selection; there is none only if there is no upstream.
        It ends after at most `max(1, RetryMax)` attempts, each but the last of them
        failed; it gives up on a failure before that only when no upstream is left to
        it (`NoneAfter`), and then it does; so never with one upstream on the list, or
        with two distinct ones, and with those no two attempts in a row go to the same.
        Every attempt after the first is the method's selection at the loads of that
        moment, and in the end every upstream has the connections it had. */
    method ServeHTTP(ip: string, outcomes: seq<Outcome>) returns (attempts: seq<Upstream>)
      requires Valid()
      modifies this`sessions, pool
      ensures Valid() && forall u :: u in pool ==> u.numConnections == old(u.numConnections)
      ensures old(Session(ip)) != null ==> attempts != [] && attempts[0] == old(Session(ip))
      ensures old(Session(ip)) == null ==>
                Selected(lbMethod, if upstreams == [] then 0 else fastHash(ip) % |upstreams|, upstreams,
                         old(LoadsOf(pool)), null, if attempts == [] then null else attempts[0])
      ensures attempts == [] <==> old(Session(ip)) == null && upstreams == []
      ensures attempts != [] ==> attempts[0] in pool
      ensures |attempts| <= if retryMax > 1 then retryMax else 1
      ensures forall m: nat :: m < |attempts| - 1 ==> At(outcomes, m) == Failed
      ensures forall i :: 0 <= i < |attempts| - 1 ==> !NoneAfter(lbMethod, upstreams, attempts[i])
      ensures attempts != [] && At(outcomes, |attempts| - 1) == Failed ==>
                || |attempts| == (if retryMax > 1 then retryMax else 1)
                || NoneAfter(lbMethod, upstreams, attempts[|attempts| - 1])
      ensures attempts != [] && At(outcomes, |attempts| - 1) == Failed
              && (TwoDistinct(upstreams) || |upstreams| == 1) ==>
                |attempts| == if retryMax > 1 then retryMax else 1
      ensures TwoDistinct(upstreams) ==> forall i :: 0 < i < |attempts| ==> attempts[i] != attempts[i - 1]
      ensures forall i :: 0 < i < |attempts| ==>
                Picked(PolicyFor(ip), old(LoadsOf(pool)), attempts[..i], attempts[i])
    {
      ghost var base := LoadsOf(pool);
      var us := Next(ip, null);
      if old(Session(ip)) == null {
        FirstNothing(lbMethod, if upstreams == [] then 0 else fastHash(ip) % |upstreams|, upstreams, base, us);
      }
      if us == null {
        return [];
      }
      assert LoadsOf(pool) == base;
      ghost var stuck;
      attempts, stuck := Handle(us, ip, outcomes);
      Followed(PolicyFor(ip), base, retryMax, outcomes, attempts, stuck);
      FollowedPicks(PolicyFor(ip), base, retryMax, outcomes, attempts, stuck);
    }
  }
}
