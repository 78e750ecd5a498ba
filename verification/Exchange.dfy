/** The one bounded retry driver behind every Hub and cell transaction: what it
    may send and wait, and what each way out tells the caller. */
module Exchange {
  import opened Wrappers

  /** Nanoseconds. */
  type Duration = int

  const MIN_BACKOFF: Duration := 500_000_000
  const MAX_BACKOFF: Duration := 8_000_000_000
  const INT64_LIMIT: int := 0x8000_0000_0000_0000

  datatype Config = Config(maxAttempts: nat, budget: Duration) {
    predicate Valid() {
      maxAttempts >= 1 && 0 < budget < INT64_LIMIT
    }
  }

  /** What the error chain of a failed attempt says about itself. */
  datatype Fault = Fault(noReply: bool, contextEnded: bool, retryable: bool, retryAfter: Duration, text: string)

  /** One exchange: an authenticated reply that parses, or an error, which an
      authenticated reply may also be. */
  datatype Reply<T> = Parsed(result: T) | Erred(authenticated: bool, fault: Fault)

  /** One trip round the loop, and the wait drawn after it if it got that far. */
  datatype Attempt<T> = Attempt(body: string, reply: Reply<T>, elapsed: Duration, wait: Option<Duration>)

  datatype Ending<T> =
    | Answer(result: T)
    | FenceRefused(text: string)
    | Unwrapped(fault: Fault)
    | CallerEnded
    | NoReplyBeforeCallerEnded(attempts: nat, elapsed: Duration, last: Fault)
    | RecoveryRequired(attempts: nat, elapsed: Duration, silent: bool, last: Fault, why: Exhausted)
    | SleepFailed

  datatype Exhausted = TransactionExpired | AttemptsOrTime | JitterFailed | WaitTooLong

  // --- Backoff -----------------------------------------------------------------

  function Pow2(n: nat): (p: nat)
    ensures p >= 1
  {
    if n == 0 then 1 else 2 * Pow2(n - 1)
  }

  /** The jitter window as the code computes it, with a right shift first so that
      the left shift cannot overflow. */
  function Window(attempt: nat): Duration
    requires attempt >= 1
  {
    var shift := attempt - 1;
    if shift < 63 && MIN_BACKOFF <= MAX_BACKOFF / Pow2(shift) then MIN_BACKOFF * Pow2(shift) else MAX_BACKOFF
  }

  lemma {:induction false} Pow2Grows(m: nat, n: nat)
    requires m <= n
    ensures Pow2(m) <= Pow2(n)
    decreases n - m
  {
    if m < n {
      Pow2Grows(m + 1, n);
    }
  }

  /** Doubling from half a second, capped at eight seconds, and in range of a
      signed 64-bit duration for every attempt number. */
  lemma WindowDoublesUpToTheCap(attempt: nat)
    requires attempt >= 1
    ensures var doubled := MIN_BACKOFF * Pow2(attempt - 1);
            Window(attempt) == if doubled <= MAX_BACKOFF then doubled else MAX_BACKOFF
    ensures 0 < Window(attempt) < INT64_LIMIT
  {
    var shift := attempt - 1;
    assert Pow2(4) == 16 by {
      assert Pow2(1) == 2 && Pow2(2) == 4 && Pow2(3) == 8;
    }
    if shift <= 4 {
      Pow2Grows(shift, 4);
    } else {
      Pow2Grows(5, shift);
      assert Pow2(5) == 2 * Pow2(4);
    }
    ShiftedOrNot(Pow2(shift));
  }

  lemma Scale(x: int, y: int, p: nat)
    requires x <= y
    ensures x * p <= y * p
  {
  }

  lemma ShiftedOrNot(p: nat)
    requires p >= 1
    ensures MIN_BACKOFF <= MAX_BACKOFF / p <==> p <= 16
  {
    var q := MAX_BACKOFF / p;
    assert q * p <= MAX_BACKOFF < (q + 1) * p;
    if q < MIN_BACKOFF {
      Scale(q + 1, MIN_BACKOFF, p);
    } else {
      Scale(MIN_BACKOFF, q, p);
    }
  }

  /** The source of jitter: a number, which need not be in the window, or none. */
  method Draw() returns (draw: Option<Duration>)
  {
    draw := *;
  }

  /** RetryAfter is a lower bound, never clamped to the window; a draw counts if
      and only if it is in the window. */
  method Backoff(attempt: nat, retryAfter: Duration) returns (r: Option<Duration>, ghost draw: Option<Duration>)
    requires attempt >= 1
    ensures r.Some? <==> draw.Some? && 0 <= draw.value < Window(attempt)
    ensures r.Some? ==> retryAfter <= r.value && draw.value <= r.value && r.value in {retryAfter, draw.value}
  {
    var drawn := Draw();
    draw := drawn;
    if drawn.None? || drawn.value < 0 || drawn.value >= Window(attempt) {
      return None, draw;
    }
    return Some(if retryAfter < drawn.value then drawn.value else retryAfter), draw;
  }

  // --- The driver ----------------------------------------------------------------

  ghost predicate NothingHeard<T(!new)>(log: seq<Attempt<T>>) {
    forall k | 0 <= k < |log| :: log[k].reply.Erred? && (log[k].reply.fault.noReply || log[k].reply.fault.contextEnded)
  }

  ghost predicate Unanswered<T(!new)>(log: seq<Attempt<T>>) {
    exists k :: 0 <= k < |log| && log[k].reply.Erred? && log[k].reply.fault.noReply
  }

  /** Nothing came back although something was sent and waited for. */
  ghost predicate Silent<T(!new)>(log: seq<Attempt<T>>) {
    Unanswered(log) && NothingHeard(log)
  }

  ghost predicate Met<T(!new)>(log: seq<Attempt<T>>, fault: Fault) {
    exists k :: 0 <= k < |log| && log[k].reply.Erred? && log[k].reply.fault == fault
  }

  lemma HeardSoFar<T(!new)>(earlier: seq<Attempt<T>>, last: Attempt<T>, fault: Fault)
    ensures var log := earlier + [last];
            && (NothingHeard(log) <==> NothingHeard(earlier) && last.reply.Erred? &&
                                       (last.reply.fault.noReply || last.reply.fault.contextEnded))
            && (Unanswered(log) <==> Unanswered(earlier) || (last.reply.Erred? && last.reply.fault.noReply))
            && (Met(log, fault) <==> Met(earlier, fault) || (last.reply.Erred? && last.reply.fault == fault))
  {
    var log := earlier + [last];
    assert log[|earlier|] == last;
    assert forall k | 0 <= k < |earlier| :: log[k] == earlier[k];
    assert NothingHeard(log) ==> NothingHeard(earlier) by {
      if NothingHeard(log) {
        forall k | 0 <= k < |earlier|
          ensures earlier[k].reply.Erred? && (earlier[k].reply.fault.noReply || earlier[k].reply.fault.contextEnded)
        {
          assert log[k] == earlier[k];
        }
      }
    }
    assert Unanswered(earlier) ==> Unanswered(log) by {
      if Unanswered(earlier) {
        var k :| 0 <= k < |earlier| && earlier[k].reply.Erred? && earlier[k].reply.fault.noReply;
        assert log[k] == earlier[k];
      }
    }
    assert Met(earlier, fault) ==> Met(log, fault) by {
      if Met(earlier, fault) {
        var k :| 0 <= k < |earlier| && earlier[k].reply.Erred? && earlier[k].reply.fault == fault;
        assert log[k] == earlier[k];
      }
    }
  }

  /** An earlier trip: a retryable error, and a wait at least as long as the peer
      asked for and no longer than what was left of the budget. */
  ghost predicate WentRound<T(!new)>(c: Config, k: nat, a: Attempt<T>) {
    && a.reply.Erred? && a.reply.fault.retryable
    && 0 <= a.elapsed < c.budget
    && a.wait.Some?
    && 0 <= a.wait.value && a.reply.fault.retryAfter <= a.wait.value <= c.budget - a.elapsed
    && (a.wait.value == a.reply.fault.retryAfter || a.wait.value < Window(k + 1))
  }

  /** The wait drawn, or asked for by the peer, is more than what is left. */
  ghost predicate TooLong<T(!new)>(c: Config, attempt: nat, a: Attempt<T>)
    requires attempt >= 1 && a.reply.Erred?
  {
    && a.wait.Some? && a.wait.value > c.budget - a.elapsed && a.wait.value >= a.reply.fault.retryAfter
    && (a.wait.value == a.reply.fault.retryAfter || a.wait.value < Window(attempt))
  }

  /** Each way out, told from the last attempt. */
  ghost predicate Explained<T(!new)>(c: Config, log: seq<Attempt<T>>, r: Ending<T>) {
    match r
    case Answer(result) => log != [] && log[|log| - 1].reply == Parsed(result)
    case FenceRefused(_) => forall k | 0 <= k < |log| :: WentRound(c, k, log[k])
    case Unwrapped(fault) =>
      && log != [] && log[|log| - 1].reply.Erred? && log[|log| - 1].reply.fault == fault && !fault.retryable
    case CallerEnded => log != [] && !Silent(log)
    case NoReplyBeforeCallerEnded(attempts, elapsed, last) =>
      && Silent(log) && attempts == |log| && elapsed >= 0 && last.noReply
      && Met(log, last)
    case RecoveryRequired(attempts, elapsed, silent, last, why) =>
      && attempts == |log| && 0 < attempts <= c.maxAttempts
      && log[attempts - 1].reply.Erred? && log[attempts - 1].reply.fault == last
      && (silent <==> Silent(log) && why != JitterFailed)
      && (why == TransactionExpired ==> elapsed >= c.budget)
      && (why != TransactionExpired ==> last.retryable && elapsed == log[attempts - 1].elapsed)
      && (why == AttemptsOrTime <==> why != TransactionExpired && (attempts == c.maxAttempts || elapsed >= c.budget))
      && (why == WaitTooLong ==> 0 <= elapsed < c.budget && TooLong(c, attempts, log[attempts - 1]))
    case SleepFailed => log != []
  }

  /** The caller's check before every exchange; `checks` counts them. */
  method Fence(ghost before: nat) returns (refusal: Option<string>, ghost checks: nat)
    ensures checks == before + 1
  {
    refusal := *;
    checks := before + 1;
  }

  method Send<T>(body: string) returns (reply: Reply<T>)
  {
    reply := *;
  }

  method ElapsedSince(start: int) returns (elapsed: Duration)
    ensures elapsed >= 0
  {
    var now: int := *;
    elapsed := if now < start then 0 else now - start;
  }

  /** A context, as far as it was last looked at: once ended it stays so. */
  class Context {
    var ended: bool

    constructor ()
      ensures !ended
    {
      ended := false;
    }

    method Err() returns (err: bool)
      modifies this
      ensures err == ended && (old(ended) ==> ended)
    {
      var now: bool := *;
      ended := ended || now;
      err := ended;
    }

    /** One made from a parent ends with it. */
    method ErrUnder(parent: Context) returns (err: bool)
      requires parent != this
      modifies this
      ensures err == ended && (old(ended) || parent.ended ==> ended)
    {
      err := Err();
      ended := ended || parent.ended;
      err := ended;
    }
  }

  /** Why the driver stops after a failed attempt, told from that attempt. */
  ghost predicate Stops<T(!new)>(
      c: Config, attempt: nat, elapsed: Duration, wait: Option<Duration>, silence: bool, lastSilent: Option<Fault>,
      fault: Fault, r: Ending<T>)
    requires attempt >= 1
  {
    match r
    case CallerEnded => !silence
    case NoReplyBeforeCallerEnded(attempts, waited, last) =>
      silence && attempts == attempt && waited >= 0 && lastSilent == Some(last)
    case RecoveryRequired(attempts, waited, silent, last, why) =>
      && attempts == attempt && last == fault
      && (silent <==> silence && why != JitterFailed)
      && (why == TransactionExpired ==> waited >= c.budget)
      && (why != TransactionExpired ==> fault.retryable && waited == elapsed)
      && (why == AttemptsOrTime <==> why != TransactionExpired && (attempt == c.maxAttempts || elapsed >= c.budget))
      && (why == WaitTooLong ==>
            && 0 <= elapsed < c.budget && wait.Some? && wait.value > c.budget - elapsed && wait.value >= fault.retryAfter
            && (wait.value == fault.retryAfter || wait.value < Window(attempt)))
    case SleepFailed => true
    case _ => false
  }

  /** Whom a way out blames, against the last look at either context. */
  ghost predicate Blames<T(!new)>(r: Ending<T>, callerEnded: bool, spent: bool) {
    && (r.CallerEnded? || r.NoReplyBeforeCallerEnded? ==> callerEnded)
    && (r.RecoveryRequired? && r.why == TransactionExpired ==> spent && !callerEnded)
    && (r.SleepFailed? ==> !spent && !callerEnded)
  }

  /** The transaction context is over: the caller's doing, or the budget's. */
  method Expire<T(!new)>(
      c: Config, attempt: nat, start: int, caller: Context, cancelled: bool, silence: bool, lastSilent: Option<Fault>,
      fault: Fault, ghost seen: Duration, ghost wait: Option<Duration>)
    returns (r: Ending<T>)
    requires attempt >= 1 && cancelled == caller.ended && (silence ==> lastSilent.Some?)
    ensures Stops(c, attempt, seen, wait, silence, lastSilent, fault, r)
    ensures if caller.ended then r.CallerEnded? || r.NoReplyBeforeCallerEnded?
            else r.RecoveryRequired? && r.why == TransactionExpired
  {
    var elapsed := ElapsedSince(start);
    if cancelled {
      return if silence then NoReplyBeforeCallerEnded(attempt, elapsed, lastSilent.value) else CallerEnded;
    }
    return RecoveryRequired(
        attempt, if elapsed < c.budget then c.budget else elapsed, silence, fault, TransactionExpired);
  }

  /** Between a retryable failure and the next attempt: stop, or wait. */
  method Pause<T(!new)>(
      c: Config, attempt: nat, start: int, caller: Context, transaction: Context, silence: bool, lastSilent: Option<Fault>,
      fault: Fault)
    returns (stop: Option<Ending<T>>, elapsed: Duration, wait: Option<Duration>)
    requires c.Valid() && 1 <= attempt <= c.maxAttempts && fault.retryable && caller != transaction
    requires silence ==> lastSilent.Some?
    modifies caller, transaction
    ensures stop.Some? ==>
              && Stops(c, attempt, elapsed, wait, silence, lastSilent, fault, stop.value)
              && Blames(stop.value, caller.ended, transaction.ended)
    ensures stop.None? ==>
              && attempt < c.maxAttempts && 0 <= elapsed < c.budget && wait.Some?
              && 0 <= wait.value && fault.retryAfter <= wait.value <= c.budget - elapsed
              && (wait.value == fault.retryAfter || wait.value < Window(attempt))
  {
    wait := None;
    elapsed := ElapsedSince(start);
    if attempt == c.maxAttempts || elapsed >= c.budget {
      stop := Some(RecoveryRequired(attempt, elapsed, silence, fault, AttemptsOrTime));
      return;
    }
    ghost var draw;
    wait, draw := Backoff(attempt, fault.retryAfter);
    if wait.None? {
      stop := Some(RecoveryRequired(attempt, elapsed, false, fault, JitterFailed));
      return;
    }
    if wait.value > c.budget - elapsed {
      stop := Some(RecoveryRequired(attempt, elapsed, silence, fault, WaitTooLong));
      return;
    }
    stop := None;
    var slept: bool := *;
    if !slept {
      var callerEnded := caller.Err();
      var spent := transaction.ErrUnder(caller);
      var r: Ending<T> := SleepFailed;
      if spent {
        r := Expire(c, attempt, start, caller, callerEnded, silence, lastSilent, fault, elapsed, wait);
      }
      stop := Some(r);
    }
  }

  method Run<T(!new)>(c: Config, caller: Context, body: string, start: int)
    returns (r: Ending<T>, ghost log: seq<Attempt<T>>, ghost checks: nat, ghost spent: bool)
    requires c.Valid()
    modifies caller
    ensures Blames(r, caller.ended, spent)
    ensures |log| <= c.maxAttempts
    ensures checks == |log| + if r.FenceRefused? then 1 else 0
    ensures forall k | 0 <= k < |log| :: log[k].body == body
    ensures forall k | 0 <= k < |log| - 1 :: WentRound(c, k, log[k])
    ensures Explained(c, log, r)
    ensures r.Unwrapped? ==> !r.fault.retryable
    ensures r.RecoveryRequired? ==>
              && 0 < r.attempts <= c.maxAttempts
              && (r.why == TransactionExpired ==> r.elapsed >= c.budget) && (r.silent ==> r.why != JitterFailed)
    // A terminal authenticated verdict is never recast.
    ensures log != [] && !r.FenceRefused? ==>
              match log[|log| - 1].reply
              case Parsed(result) => r == Answer(result)
              case Erred(authenticated, fault) => authenticated && !fault.retryable ==> r == Unwrapped(fault)
  {
    hide NothingHeard, Unanswered, Met, WentRound, TooLong, Stops, Silent, Explained;
    log, checks, spent := [], 0, false;
    assert NothingHeard(log) && !Unanswered(log) by { NoneYet(log); }
    var silence := true;
    var lastSilent: Option<Fault> := None;
    var transaction := new Context();
    var attempt := 1;
    while true
      invariant fresh(transaction) && transaction != caller
      invariant 1 <= attempt <= c.maxAttempts && checks == |log| == attempt - 1
      invariant forall k | 0 <= k < |log| :: log[k].body == body && WentRound(c, k, log[k])
      invariant silence <==> NothingHeard(log)
      invariant lastSilent.Some? <==> Unanswered(log)
      invariant lastSilent.Some? ==> lastSilent.value.noReply && Met(log, lastSilent.value)
      decreases c.maxAttempts - attempt
    {
      var refusal;
      refusal, checks := Fence(checks);
      if refusal.Some? {
        EndIsExplained(c, log, FenceRefused(refusal.value));
        return FenceRefused(refusal.value), log, checks, transaction.ended;
      }
      var reply: Reply<T> := Send(body);
      ghost var earlier := log;
      log := log + [Attempt(body, reply, 0, None)];
      if reply.Parsed? {
        EndIsExplained(c, log, Answer(reply.result));
        return Answer(reply.result), log, checks, transaction.ended;
      }
      var fault := reply.fault;
      if fault.noReply {
        lastSilent := Some(fault);
      } else if !fault.contextEnded {
        silence := false;
      }
      HeardSoFar(earlier, Attempt(body, reply, 0, None), if lastSilent.Some? then lastSilent.value else fault);
      var observedSilence := silence && lastSilent.Some?;
      if reply.authenticated && !fault.retryable {
        EndIsExplained(c, log, Unwrapped(fault));
        return Unwrapped(fault), log, checks, transaction.ended;
      }
      var expired := transaction.ErrUnder(caller);
      if expired {
        var cancelled := caller.Err();
        r := Expire(c, attempt, start, caller, cancelled, observedSilence, lastSilent, fault, 0, None);
        StopIsExplained(c, log, observedSilence, lastSilent, fault, r);
        return r, log, checks, transaction.ended;
      }
      if !fault.retryable {
        EndIsExplained(c, log, Unwrapped(fault));
        return Unwrapped(fault), log, checks, transaction.ended;
      }
      var stop, elapsed, wait := Pause<T>(c, attempt, start, caller, transaction, observedSilence, lastSilent, fault);
      log := earlier + [Attempt(body, reply, elapsed, wait)];
      HeardSoFar(earlier, Attempt(body, reply, elapsed, wait), if lastSilent.Some? then lastSilent.value else fault);
      if stop.Some? {
        StopIsExplained(c, log, observedSilence, lastSilent, fault, stop.value);
        return stop.value, log, checks, transaction.ended;
      }
      GoesRound(c, attempt - 1, log[attempt - 1]);
      attempt := attempt + 1;
    }
  }

  lemma EndIsExplained<T(!new)>(c: Config, log: seq<Attempt<T>>, r: Ending<T>)
    requires match r
             case Answer(result) => log != [] && log[|log| - 1].reply == Parsed(result)
             case FenceRefused(_) => forall k | 0 <= k < |log| :: WentRound(c, k, log[k])
             case Unwrapped(fault) =>
               log != [] && log[|log| - 1].reply.Erred? && log[|log| - 1].reply.fault == fault && !fault.retryable
             case _ => false
    ensures Explained(c, log, r)
  {
  }

  lemma StopIsExplained<T(!new)>(
      c: Config, log: seq<Attempt<T>>, silence: bool, lastSilent: Option<Fault>, fault: Fault, r: Ending<T>)
    requires 0 < |log| <= c.maxAttempts
    requires log[|log| - 1].reply.Erred? && log[|log| - 1].reply.fault == fault
    requires silence <==> NothingHeard(log) && lastSilent.Some?
    requires lastSilent.Some? <==> Unanswered(log)
    requires lastSilent.Some? ==> lastSilent.value.noReply && Met(log, lastSilent.value)
    requires Stops(c, |log|, log[|log| - 1].elapsed, log[|log| - 1].wait, silence, lastSilent, fault, r)
    ensures Explained(c, log, r) && !r.Answer? && !r.FenceRefused? && !r.Unwrapped?
    ensures r.RecoveryRequired? ==>
              && 0 < r.attempts <= c.maxAttempts
              && (r.why == TransactionExpired ==> r.elapsed >= c.budget) && (r.silent ==> r.why != JitterFailed)
  {
    hide NothingHeard, Unanswered, Met;
  }

  lemma NoneYet<T(!new)>(log: seq<Attempt<T>>)
    requires log == []
    ensures NothingHeard(log) && !Unanswered(log)
  {
  }

  lemma GoesRound<T(!new)>(c: Config, k: nat, a: Attempt<T>)
    requires a.reply.Erred? && a.reply.fault.retryable && 0 <= a.elapsed < c.budget && a.wait.Some?
    requires 0 <= a.wait.value && a.reply.fault.retryAfter <= a.wait.value <= c.budget - a.elapsed
    requires a.wait.value == a.reply.fault.retryAfter || a.wait.value < Window(k + 1)
    ensures WentRound(c, k, a)
  {
  }
}
