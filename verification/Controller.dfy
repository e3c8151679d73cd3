/** The controller a finishing subtask reports to, one delivery at a time: the
    pipe's and the cluster's hand-written copy of it.  The concurrent pipe behaves
    as if each delivery were handled in one piece, and the two controllers agree. */
module Controller {
  import opened Errors
  import opened Pipe
  import opened PipeOutcome

  /** The counter and the cause of the context. */
  datatype Ctl = Ctl(left: int, cause: Option<Error>)

  /** `end`, then the counter; the last one cancels with nil. */
  function PipeDelivered(mode: Mode, c: Ctl, e: Err): Ctl
  {
    var ended := if EndCancels(mode, e) then Cancel(c.cause, e) else c.cause;
    Ctl(c.left - 1, if c.left - 1 == 0 then Cancel(ended, None) else ended)
  }

  /** An error cancels without touching the counter; otherwise the last one does. */
  function ClusterDelivered(c: Ctl, e: Err): Ctl
  {
    if e.Some? then c.(cause := Cancel(c.cause, e))
    else Ctl(c.left - 1, if c.left - 1 == 0 then Cancel(c.cause, None) else c.cause)
  }

  function Delivered(mode: Mode, c: Ctl, e: Err): Ctl
  {
    if mode.Cluster? then ClusterDelivered(c, e) else PipeDelivered(mode, c, e)
  }

  /** All deliveries, in order. */
  function DeliveredAll(mode: Mode, c: Ctl, ds: seq<Err>): Ctl
  {
    if ds == [] then c
    else Delivered(mode, DeliveredAll(mode, c, ds[..|ds| - 1]), ds[|ds| - 1])
  }

  class PipeController {
    var left: int
    var cause: Option<Error>

    constructor (n: nat)
      ensures Value() == Ctl(n, None)
    {
      left, cause := n, None;
    }

    function Value(): Ctl
      reads this
    {
      Ctl(left, cause)
    }

    method CancelWith(e: Err)
      modifies this
      ensures left == old(left)
      ensures cause == if old(cause).None? then Some(OrOk(e)) else old(cause)
    {
      if cause == None {
        cause := Some(OrOk(e));
      }
    }

    method End(mode: Mode, e: Err)
      modifies this
      ensures left == old(left)
      ensures cause == if EndCancels(mode, e) then Cancel(old(cause), e) else old(cause)
    {
      match mode
      case Ordered | Parallel | Cluster =>
        if e != None { CancelWith(e); }
      case Race =>
        CancelWith(e);
      case Any =>
        if e == None { CancelWith(None); }
    }

    method DeliverToPipe(mode: Mode, e: Err)
      modifies this
      ensures Value() == PipeDelivered(mode, old(Value()), e)
    {
      End(mode, e);
      left := left - 1;
      if left == 0 {
        CancelWith(None);
      }
    }

    method DeliverToCluster(e: Err)
      modifies this
      ensures Value() == ClusterDelivered(old(Value()), e)
    {
      var last := false;
      if e == None {
        left := left - 1;
        last := left == 0;
      }
      if e != None || last {
        CancelWith(e);
      }
    }

    method DeliverAll(mode: Mode, ds: seq<Err>)
      modifies this
      ensures Value() == DeliveredAll(mode, old(Value()), ds)
    {
      for i := 0 to |ds|
        invariant Value() == DeliveredAll(mode, old(Value()), ds[..i])
      {
        if mode.Cluster? {
          DeliverToCluster(ds[i]);
        } else {
          DeliverToPipe(mode, ds[i]);
        }
        assert ds[..i + 1][..i] == ds[..i];
      }
      assert ds[..|ds|] == ds;
    }
  }

  /** The controller's cause is what the deliveries decide, in every mode. */
  lemma {:induction false} ControllerDecides(mode: Mode, n: nat, ds: seq<Err>)
    requires 0 < n && |ds| <= n
    ensures var c := DeliveredAll(mode, Ctl(n, None), ds);
            && (c.cause.None? ==>
                  |ds| < n && c.left == n - |ds| && forall k :: 0 <= k < |ds| ==> !EndCancels(mode, ds[k]))
            && (c.cause.Some? ==> Decides(mode, n, ds, c.cause.value))
  {
    if ds != [] {
      var last := |ds| - 1;
      var before := ds[..last];
      ControllerDecides(mode, n, before);
      var c := DeliveredAll(mode, Ctl(n, None), before);
      assert ds == before + [ds[last]];
      if c.cause.Some? {
        DecidesStable(mode, n, before, ds[last], c.cause.value);
      } else if EndCancels(mode, ds[last]) {
        assert FirstCancel(mode, ds, last);
      }
    }
  }

  /** What a list of deliveries decides is unique. */
  lemma DecidesUnique(mode: Mode, n: nat, ds: seq<Err>, a: Error, b: Error)
    requires Decides(mode, n, ds, a) && Decides(mode, n, ds, b)
    ensures a == b
  {
    if j: nat :| FirstCancel(mode, ds, j) && a == OrOk(ds[j]) {
      if k: nat :| FirstCancel(mode, ds, k) && b == OrOk(ds[k]) {
        assert j <= k && k <= j;
      }
    }
  }

  /** Under every schedule, a cause that subtasks gave the context is the one the
      controller computes from the same deliveries one at a time; and when the
      controller has a cause the context has it too, or all have delivered and the
      nil cancel of the last one is still to come. */
  lemma PipeLinearizes(mode: Mode, results: seq<Err>, schedule: seq<Action>, s: State)
    requires Reached(mode, results, schedule, s) && !s.parent
    ensures Inv(s) && |s.log| <= |results|
    ensures var c := DeliveredAll(mode, Ctl(|results|, None), Deliveries(s));
            if s.cause.Some? then c.cause == s.cause
            else c.cause.Some? ==> c.cause == Some(ErrOk) && |s.log| == |results|
  {
    RunKeepsInv(mode, results, schedule, s);
    SumBounds(s.subs, PAST_END_COUNT, 1);
    var ds := Deliveries(s);
    ControllerDecides(mode, |results|, ds);
    var c := DeliveredAll(mode, Ctl(|results|, None), ds);
    if s.cause.Some? {
      assert Decides(mode, |results|, ds, s.cause.value);
      assert c.cause.Some? by {
        if k: nat :| FirstCancel(mode, ds, k) {
          assert EndCancels(mode, ds[k]);
        }
      }
      DecidesUnique(mode, |results|, ds, s.cause.value, c.cause.value);
    } else if c.cause.Some? {
      assert forall k :: 0 <= k < |ds| ==> !EndCancels(mode, ds[k]);
    }
  }

  function Successes(ds: seq<Err>): nat
  {
    if ds == [] then 0 else Successes(ds[..|ds| - 1]) + if ds[|ds| - 1] == None then 1 else 0
  }

  /** After the same deliveries in the same order, whatever prefix of the `n` they
      are, the cluster and a parallel pipe are done or not together and with the
      same cause, although the pipe counts down on each and the cluster on successes
      only. */
  lemma {:induction false} ClusterSimulatesParallel(n: nat, ds: seq<Err>)
    requires 0 < n && |ds| <= n
    ensures var p := DeliveredAll(Parallel, Ctl(n, None), ds);
            var c := DeliveredAll(Cluster, Ctl(n, None), ds);
            && p.cause == c.cause && p.left == n - |ds| <= c.left == n - Successes(ds)
            && (p.cause.None? ==> p.left == c.left)
  {
    if ds != [] {
      ClusterSimulatesParallel(n, ds[..|ds| - 1]);
    }
  }

  /** A cluster run and a parallel run with the same deliveries in the same order
      return the same error, wrapped as non-retriable in both. */
  lemma ClusterRunAgrees(results: seq<Err>, sp: seq<Action>, p: State, sc: seq<Action>, c: State)
    requires Reached(Parallel, results, sp, p) && !p.parent && p.launcher.Returned?
    requires Reached(Cluster, results, sc, c) && !c.parent && c.launcher.Returned?
    requires p.log == c.log
    ensures p.launcher.result == c.launcher.result
    ensures p.launcher.result.Some? ==> Is(p.launcher.result, ErrNonRetriable)
  {
    PipeLinearizes(Parallel, results, sp, p);
    PipeLinearizes(Cluster, results, sc, c);
    RunKeepsInv(Parallel, results, sp, p);
    RunKeepsInv(Cluster, results, sc, c);
    assert Deliveries(p) == Deliveries(c);
    ClusterSimulatesParallel(|results|, Deliveries(p));
  }
}
