/** The sticky deadline that fences every datagram of one recovery operation
    (qurl/recovery_horizon.go, credentialRecoveryBoundary). */
module RecoveryBoundary {
  import opened AgentStates

  datatype Verdict = Allowed | Expired | ClockInvalid

  /** checkAt: the verdict on one clock reading, and whether the boundary has now expired. */
  function Step(deadline: Time, expired: bool, now: Time): (Verdict, bool) {
    if expired then (Expired, true)
    else if now == 0 then (ClockInvalid, false)
    else if now >= deadline then (Expired, true)
    else (Allowed, false)
  }

  function ExpiredAfter(deadline: Time, readings: seq<Time>): bool {
    if readings == [] then false
    else Step(deadline, ExpiredAfter(deadline, readings[..|readings| - 1]), readings[|readings| - 1]).1
  }

  function VerdictAt(deadline: Time, readings: seq<Time>, k: nat): Verdict
    requires k < |readings|
  {
    Step(deadline, ExpiredAfter(deadline, readings[..k]), readings[k]).0
  }

  ghost predicate SawDeadline(deadline: Time, readings: seq<Time>, n: nat)
    requires n <= |readings|
  {
    exists m :: 0 <= m < n && readings[m] != 0 && readings[m] >= deadline
  }

  lemma {:induction false} ExpiredIffDeadlineSeen(deadline: Time, readings: seq<Time>)
    ensures ExpiredAfter(deadline, readings) <==> SawDeadline(deadline, readings, |readings|)
  {
    if readings != [] {
      var shorter := readings[..|readings| - 1];
      ExpiredIffDeadlineSeen(deadline, shorter);
      if SawDeadline(deadline, shorter, |shorter|) {
        var m :| 0 <= m < |shorter| && shorter[m] != 0 && shorter[m] >= deadline;
        assert readings[m] == shorter[m];
      }
      if SawDeadline(deadline, readings, |readings|) {
        var m :| 0 <= m < |readings| && readings[m] != 0 && readings[m] >= deadline;
        if m < |shorter| {
          assert shorter[m] == readings[m];
        }
      }
    }
  }

  /** A datagram is allowed exactly when the clock is set and no reading so far,
      this one included, reached the deadline: a clock that steps back does not
      reopen the boundary. */
  lemma AllowedIffNeverExpired(deadline: Time, readings: seq<Time>, k: nat)
    requires k < |readings|
    ensures VerdictAt(deadline, readings, k) == Allowed <==> readings[k] != 0 && !SawDeadline(deadline, readings, k + 1)
    ensures VerdictAt(deadline, readings, k) == Expired <==> SawDeadline(deadline, readings, k + 1)
  {
    ExpiredIffDeadlineSeen(deadline, readings[..k]);
    assert forall m | 0 <= m < k :: readings[..k][m] == readings[m];
  }

  /** One operation's boundary, with every clock reading it has been shown. */
  class Boundary {
    const deadline: Time
    var expired: bool
    ghost var readings: seq<Time>

    ghost predicate Valid()
      reads this
    {
      expired == ExpiredAfter(deadline, readings)
    }

    /** A reading on which a datagram may go out: neither it nor any reading
        before it had reached the deadline. */
    ghost predicate Permitted(t: Time)
      reads this
    {
      exists m :: 0 <= m < |readings| && readings[m] == t && t != 0 && !SawDeadline(deadline, readings, m + 1)
    }

    constructor (deadline: Time)
      ensures Valid() && this.deadline == deadline && !expired && readings == []
    {
      this.deadline := deadline;
      expired := false;
      readings := [];
    }

    method CheckAt(now: Time) returns (v: Verdict)
      requires Valid()
      modifies this
      ensures Valid() && readings == old(readings) + [now]
      ensures (v, expired) == Step(deadline, old(expired), now)
      ensures v == VerdictAt(deadline, readings, |old(readings)|)
      ensures v == Allowed ==> Permitted(now)
      ensures forall t | old(Permitted(t)) :: Permitted(t)
    {
      ghost var shown := readings + [now];
      assert shown[..|readings|] == readings;
      AllowedIffNeverExpired(deadline, shown, |readings|);
      forall t | Permitted(t)
        ensures exists m :: 0 <= m < |shown| && shown[m] == t && t != 0 && !SawDeadline(deadline, shown, m + 1)
      {
        var m :| 0 <= m < |readings| && readings[m] == t && t != 0 && !SawDeadline(deadline, readings, m + 1);
        assert shown[m] == t && forall n | 0 <= n < |readings| :: shown[n] == readings[n];
      }
      readings := shown;
      if expired {
        return Expired;
      }
      if now == 0 {
        return ClockInvalid;
      }
      if now >= deadline {
        expired := true;
        return Expired;
      }
      assert shown[|shown| - 1] == now;
      return Allowed;
    }
  }
}
