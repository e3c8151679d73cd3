/** Go errors as the supervisor uses them: status codes that are errors, the two
    sentinels, and errors wrapped by `fmt.Errorf` with one `%w` verb.  A nil
    error is `None`. */
module Errors {

  datatype Option<+T> = None | Some(value: T)

  datatype Status =
    | Idle | Complete | Cancelled
    | Starting | Stopping | Running | Retrying
    | Errored | TimeoutStop | TimeoutStart | TimeoutExec

  datatype Error =
    | StatusError(status: Status)
    | ErrNonRetriable
    | ErrOk
    | Wrapped(inner: Error, text: string)
    | Other(text: string)

  type Err = Option<Error>

  /** The text of an error, as `%v` and `%s` print it. */
  function Message(e: Error): string
  {
    match e
    case StatusError(s) => StatusMessage(s)
    case ErrNonRetriable => "non-retriable error"
    case ErrOk => "done"
    case Wrapped(inner, text) => Message(inner) + ": " + text
    case Other(text) => text
  }

  function StatusMessage(s: Status): string
  {
    match s
    case Idle => "idle"
    case Complete => "complete"
    case Cancelled => "cancelled"
    case Starting => "starting"
    case Stopping => "stopping"
    case Running => "running"
    case Retrying => "retrying"
    case Errored => "task errored"
    case TimeoutStop => "task timed out during exit"
    case TimeoutStart => "task timed out during launch"
    case TimeoutExec => "task execution timed out"
  }

  /** The error at the end of the `%w` chain. */
  function Root(e: Error): Error
  {
    match e
    case Wrapped(inner, _) => Root(inner)
    case _ => e
  }

  /** `errors.Is`: some error on the chain is the target. */
  predicate Is(err: Err, target: Error)
  {
    err.Some? && OnChain(err.value, target)
  }

  predicate OnChain(e: Error, target: Error)
  {
    e == target || (e.Wrapped? && OnChain(e.inner, target))
  }

  /** Against an unwrapped target, `errors.Is` looks at the end of the chain only. */
  lemma {:induction false} IsLooksAtRoot(e: Error, target: Error)
    requires !target.Wrapped?
    ensures Is(Some(e), target) <==> Root(e) == target
  {
    match e
    case Wrapped(inner, _) => IsLooksAtRoot(inner, target);
    case _ =>
  }

  /** A wrapped error with no inner `%w` to the original: the original's own
      chain is dropped, only its text survives. */
  function NonRetriable(e: Error): Error
  {
    Wrapped(ErrNonRetriable, Message(e))
  }

  // What a context remembers for `cancel(nil)`, and what `Cause` gives back.

  function OrOk(e: Err): Error
  {
    if e.None? then ErrOk else e.value
  }

  function NotOk(e: Error): Err
  {
    if e == ErrOk then None else Some(e)
  }

  /** `util.Cause` of a context whose first cancel carried `cause`. */
  function Cause(cause: Option<Error>): Err
  {
    if cause.None? then None else NotOk(cause.value)
  }

  /** Made non-retriable, an error is one to `errors.Is`, is no other status, and prints
      the original's text. */
  lemma NonRetriableTells(e: Error)
    ensures Is(Some(NonRetriable(e)), ErrNonRetriable) && !Is(Some(NonRetriable(e)), ErrOk)
    ensures forall s: Status :: !Is(Some(NonRetriable(e)), StatusError(s))
    ensures Message(NonRetriable(e)) == "non-retriable error" + ": " + Message(e)
  {
    IsLooksAtRoot(NonRetriable(e), ErrNonRetriable);
    IsLooksAtRoot(NonRetriable(e), ErrOk);
    forall s: Status ensures !Is(Some(NonRetriable(e)), StatusError(s)) {
      IsLooksAtRoot(NonRetriable(e), StatusError(s));
    }
  }

  /** What a context is cancelled with, nil included, is what its cause gives back; only
      the sentinel itself reads as nil. */
  lemma CauseGivesBack(e: Err)
    ensures Cause(Some(OrOk(e))) == if e == Some(ErrOk) then None else e
    ensures Cause(None) == None
  {
  }

  /** Classification of an error by the status at the end of its chain. */
  function StatusOf(err: Err): Status
  {
    if err.None? then Complete
    else match Root(err.value)
      case StatusError(s) => s
      case _ => Errored
  }

  /** The code ranges over a map of statuses, in no fixed order, and returns the
      first match: the answer does not depend on the order. */
  method StatusFromErr(err: Err) returns (s: Status)
    ensures s == StatusOf(err)
  {
    if err == None {
      return Complete;
    }
    var rest := {Idle, Complete, Cancelled, Starting, Stopping, Running, Retrying,
                 Errored, TimeoutStop, TimeoutStart, TimeoutExec};
    assert forall t: Status :: t in rest by {
      forall t: Status ensures t in rest {
        if t.Idle? || t.Complete? || t.Cancelled? || t.Starting? || t.Stopping? || t.Running? {
        } else if t.Retrying? || t.Errored? || t.TimeoutStop? || t.TimeoutStart? {
        }
      }
    }
    while rest != {}
      invariant forall t: Status :: t in rest || !Is(err, StatusError(t))
    {
      s :| s in rest;
      IsLooksAtRoot(err.value, StatusError(s));
      if Is(err, StatusError(s)) {
        return s;
      }
      rest := rest - {s};
    }
    if Root(err.value).StatusError? {
      IsLooksAtRoot(err.value, Root(err.value));
    }
    return Errored;
  }
}
