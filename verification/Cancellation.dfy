/**
 The races of exchange (wire.go): the goroutine that exchanges, the callback that
 context.AfterFunc runs when the context ends, and the deadlines that both set on the
 connection, as interleaved steps over any number of exchanges on one connection.
 */
module Cancellation {

  /** Where the exchanging goroutine is. */
  datatype Main =
    | Idle          // between exchanges
    | Entry         // about to look at the context
    | Prepared      // about to set the write deadline
    | Arming        // about to register the callback
    | LoopTop       // about to look at the context, then write
    | Writing       // in conn.Write
    | Turning       // about to set the read deadline
    | LastLook      // about to look at the context once more
    | Replying      // in reply: reading
    | Stopping      // in the deferred function: about to call stop
    | Waiting       // stop came too late: waiting for the callback

  /** Where the callback is. */
  datatype Callback = Unarmed | Armed | Running | Expired | Finished | Stopped

  /** A deadline: in which exchange it was set last, and whether it lies in the past. */
  datatype Deadline = Deadline(setIn: nat, expired: bool)

  datatype State = State(
    exchange: nat,          // the current or latest exchange
    cancelled: bool,        // whether its context has ended
    main: Main, callback: Callback,
    writeDeadline: Deadline, readDeadline: Deadline)

  predicate Init(s: State) {
    s.main == Idle && s.callback == Unarmed
  }

  // ---------------------------------------------------------------- steps

  /** The context ends. */
  predicate Cancel(s: State, t: State) {
    t == s.(cancelled := true)
  }

  /** A new exchange, with a context that may have ended already. */
  predicate Begin(s: State, t: State) {
    s.main == Idle && t == s.(exchange := s.exchange + 1, cancelled := t.cancelled, main := Entry, callback := Unarmed)
  }

  predicate MainStep(s: State, t: State) {
    match s.main
    case Idle => Begin(s, t)
    case Entry => t == s.(main := if s.cancelled then Idle else Prepared)
    case Prepared =>
      || t == s.(main := Idle)                                                      // refused, or no deadline
      || t == s.(main := Arming, writeDeadline := Deadline(s.exchange, false))
    case Arming => t == s.(main := LoopTop, callback := Armed)
    case LoopTop => t == s.(main := if s.cancelled then Stopping else Writing)
    case Writing =>
      || t == s.(main := LoopTop)                                                   // part of the frame
      || t == s.(main := Turning)                                                   // the rest of it
      || t == s.(main := Stopping)                                                  // an error
    case Turning =>
      || t == s.(main := Stopping)
      || t == s.(main := LastLook, readDeadline := Deadline(s.exchange, false))
    case LastLook => t == s.(main := if s.cancelled then Stopping else Replying)
    case Replying => t == s || t == s.(main := Stopping)
    case Stopping =>                                          // stop() and the callback's start exclude each other
      if s.callback == Armed then t == s.(main := Idle, callback := Stopped) else t == s.(main := Waiting)
    case Waiting => s.callback == Finished && t == s.(main := Idle)
  }

  predicate CallbackStep(s: State, t: State) {
    match s.callback
    case Armed => s.cancelled && t == s.(callback := Running)
    case Running =>
      t == s.(callback := Expired, writeDeadline := Deadline(s.exchange, true),
          readDeadline := Deadline(s.exchange, true))
    case Expired => t == s.(callback := Finished)
    case _ => false
  }

  predicate Next(s: State, t: State) {
    Cancel(s, t) || MainStep(s, t) || CallbackStep(s, t)
  }

  // ---------------------------------------------------------------- what every state satisfies

  /** Between the arming of the callback and the return. */
  predicate Active(m: Main) {
    m in {LoopTop, Writing, Turning, LastLook, Replying, Stopping, Waiting}
  }

  predicate Invariant(s: State) {
    && (!Active(s.main) ==> s.callback in {Unarmed, Stopped, Finished})
    && (Active(s.main) ==> s.callback in {Armed, Running, Expired, Finished})
    && (s.main == Waiting ==> s.callback != Armed)
    && (Active(s.main) && s.callback != Armed ==> s.cancelled)
    && (Active(s.main) ==> s.writeDeadline.setIn == s.exchange)
    && (s.main in {LoopTop, Writing} && s.callback in {Expired, Finished} ==> s.writeDeadline.expired)
    && (s.main in {LastLook, Replying} ==> s.readDeadline.setIn == s.exchange)
    && (s.main == Replying && s.callback in {Expired, Finished} ==> s.readDeadline.expired)
    && (s.main == Replying && s.readDeadline.expired ==> s.cancelled)
    && (s.main in {LoopTop, Writing} && s.writeDeadline.expired ==> s.cancelled)
    && (s.main == LastLook && s.readDeadline.expired ==> s.cancelled)
    && (s.main == Arming ==> s.writeDeadline == Deadline(s.exchange, false))
  }

  /**
   Cancellation is never lost: while the reply is read or the frame is written, a callback that
   has run leaves the deadline in force expired, and until it has run it can take a step.
   */
  ghost predicate NotLost(s: State) {
    && (s.main == Replying && s.callback in {Expired, Finished} ==> s.readDeadline.expired)
    && (s.main == Writing && s.callback in {Expired, Finished} ==> s.writeDeadline.expired)
    && (s.main == Replying && s.cancelled && !s.readDeadline.expired ==> exists t :: CallbackStep(s, t))
    && (s.main == Writing && s.cancelled && !s.writeDeadline.expired ==> exists t :: CallbackStep(s, t))
  }

  /** Nor invented: a deadline that a callback has expired stops only an exchange whose context has ended. */
  predicate NotInvented(s: State) {
    && (s.main == Replying && s.readDeadline.expired ==> s.cancelled)
    && (s.main == Writing && s.writeDeadline.expired ==> s.cancelled)
  }

  /** It does not leak: no callback outlives its exchange, and waiting for one always ends. */
  ghost predicate NotLeaked(s: State) {
    && (s.main in {Idle, Entry, Prepared, Arming} ==> s.callback !in {Armed, Running, Expired})
    && (s.main == Waiting ==> s.callback == Finished || exists t :: CallbackStep(s, t))
  }

  /** Deadlines left behind by earlier exchanges are never in force. */
  predicate NotStale(s: State) {
    && (s.main == Writing ==> s.writeDeadline.setIn == s.exchange)
    && (s.main == Replying ==> s.readDeadline.setIn == s.exchange)
  }

  ghost predicate Safe(s: State) {
    NotLost(s) && NotInvented(s) && NotLeaked(s) && NotStale(s)
  }

  lemma InvariantIsKept(s: State, t: State)
    requires Invariant(s) && Next(s, t)
    ensures Invariant(t)
  {
  }

  lemma InvariantIsSafe(s: State)
    requires Invariant(s)
    ensures Safe(s)
  {
    if s.callback == Armed && s.cancelled {
      assert CallbackStep(s, s.(callback := Running));
    }
    if s.callback == Running {
      assert CallbackStep(s, s.(callback := Expired, writeDeadline := Deadline(s.exchange, true),
                                readDeadline := Deadline(s.exchange, true)));
    }
    if s.callback == Expired {
      assert CallbackStep(s, s.(callback := Finished));
    }
  }

  predicate IsRun(run: seq<State>) {
    && |run| > 0 && Init(run[0])
    && forall i :: 0 <= i < |run| - 1 ==> Next(run[i], run[i + 1])
  }

  lemma {:induction false} RunKeepsInvariant(run: seq<State>, n: nat)
    requires IsRun(run) && n < |run|
    ensures Invariant(run[n])
  {
    if n > 0 {
      RunKeepsInvariant(run, n - 1);
      InvariantIsKept(run[n - 1], run[n]);
    }
  }

  /** Every state of every interleaving, over any number of exchanges, is safe. */
  lemma RunsAreSafe(run: seq<State>)
    requires IsRun(run)
    ensures forall n :: 0 <= n < |run| ==> Safe(run[n])
  {
    forall n | 0 <= n < |run| ensures Safe(run[n]) {
      RunKeepsInvariant(run, n);
      InvariantIsSafe(run[n]);
    }
  }

  // ---------------------------------------------------------------- why the last look is there

  /** The same program without the check between SetReadDeadline and reply. */
  predicate HastyStep(s: State, t: State) {
    if s.main == LastLook then t == s.(main := Replying) else Next(s, t)
  }

  /**
   Without it a cancellation can be lost: the callback runs while the frame is written, and the
   read deadline that is set afterwards lies in the future again.
   */
  lemma HastyLosesCancellation() returns (run: seq<State>)
    ensures |run| > 0 && Init(run[0])
    ensures forall i :: 0 <= i < |run| - 1 ==> HastyStep(run[i], run[i + 1])
    ensures var s := run[|run| - 1];
            s.main == Replying && s.cancelled && s.callback == Finished && !s.readDeadline.expired
  {
    var past, d := Deadline(1, true), Deadline(1, false);
    var s0 := State(0, false, Idle, Unarmed, Deadline(0, false), Deadline(0, false));
    var s1 := s0.(exchange := 1, main := Entry);
    var s2 := s1.(main := Prepared);
    var s3 := s2.(main := Arming, writeDeadline := d);
    var s4 := s3.(main := LoopTop, callback := Armed);
    var s5 := s4.(main := Writing);
    var s6 := s5.(cancelled := true);
    var s7 := s6.(callback := Running);
    var s8 := s7.(callback := Expired, writeDeadline := past, readDeadline := past);
    var s9 := s8.(callback := Finished);
    var s10 := s9.(main := Turning);
    var s11 := s10.(main := LastLook, readDeadline := d);
    var s12 := s11.(main := Replying);
    run := [s0, s1, s2, s3, s4, s5, s6, s7, s8, s9, s10, s11, s12];
  }
}
