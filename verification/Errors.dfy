/**
 The driver's error values.  An `Error` of the root package carries a kind and possibly a
 cause; `errors.Is` looks through causes, and "closed" also answers to "connection".
 */
module Errors {

  datatype Option<+T> = None | Some(value: T)

  datatype Kind =
    | Connection | Timeout | Authentication | Protocol | Version
    | Server | Indeterminate | Input | Closed

  datatype Error =
    | Canceled                                   // context.Canceled
    | DeadlineExceeded                           // context.DeadlineExceeded
    | Raw                                        // an error value of the network stack
    | Kouten(kind: Kind, cause: Option<Error>)   // *koutendb.Error

  datatype Result<+T> = Ok(value: T) | Err(error: Error)

  function Fail(k: Kind): Error {
    Kouten(k, None)
  }

  predicate IsContext(e: Error) {
    e == Canceled || e == DeadlineExceeded
  }

  /** errors.Is against one of the package's sentinels. */
  predicate Is(e: Error, k: Kind) {
    e.Kouten? &&
    (e.kind == k || (e.kind == Closed && k == Connection) || (e.cause.Some? && Is(e.cause.value, k)))
  }

  /** The error and what it was caused by, outermost first. */
  function Causes(e: Error): seq<Error> {
    [e] + (if e.Kouten? && e.cause.Some? then Causes(e.cause.value) else [])
  }

  predicate Matches(e: Error, k: Kind) {
    e.Kouten? && (e.kind == k || (e.kind == Closed && k == Connection))
  }

  lemma {:induction false} CauseOf(e: Error, k: Kind) returns (i: nat)
    requires Is(e, k)
    ensures i < |Causes(e)| && Matches(Causes(e)[i], k)
  {
    if Matches(e, k) {
      i := 0;
    } else {
      i := CauseOf(e.cause.value, k);
      i := i + 1;
    }
  }

  lemma {:induction false} CauseCounts(e: Error, k: Kind, i: nat)
    requires i < |Causes(e)| && Matches(Causes(e)[i], k)
    ensures Is(e, k)
  {
    if i > 0 {
      assert Causes(e)[i] == Causes(e.cause.value)[i - 1];
      CauseCounts(e.cause.value, k, i - 1);
    }
  }

  /** So an error is of a kind iff something in its chain of causes is. */
  lemma IsLooksThroughCauses(e: Error, k: Kind)
    ensures Is(e, k) <==> exists i :: 0 <= i < |Causes(e)| && Matches(Causes(e)[i], k)
  {
    if Is(e, k) {
      var i := CauseOf(e, k);
    }
    if i :| 0 <= i < |Causes(e)| && Matches(Causes(e)[i], k) {
      CauseCounts(e, k, i);
    }
  }

  /** The kinds of the package are told apart, except that a closed client counts as a failed connection too. */
  lemma KindsAreApart(k: Kind, other: Kind, cause: Error)
    ensures Is(Fail(k), other) <==> k == other || (k == Closed && other == Connection)
    ensures Is(Kouten(k, Some(cause)), other) <==> Is(Fail(k), other) || Is(cause, other)
    ensures !Is(Canceled, k) && !Is(DeadlineExceeded, k) && !Is(Raw, k)
  {
  }

  /** errors.Is against context.DeadlineExceeded. */
  predicate IsDeadline(e: Error) {
    e == DeadlineExceeded || (e.Kouten? && e.cause.Some? && IsDeadline(e.cause.value))
  }
}
