/** What an opened runtime holds on to: its placement, its private key, and the
    capabilities a lifecycle call takes and gives back. */
module AgentLifecycle {
  import opened Wrappers
  import opened AgentStates
  import opened LifecycleSpec
  import opened World
  import opened Runtime
  import opened Registration

  /** A runtime binding. The exported fields are for callers to read, and a
      caller that edits them must not redirect an exchange. */
  class Binding {
    const agentID: string
    const config: Config
    const renewable: bool
    const authoritative: Assignment
    var renewed: Option<Assignment>
    var cellID: string
    var generation: int
    var endpointRevision: int
    var endpoint: Endpoint
    // Where in the trace the store held the live placement.
    ghost var seenAt: nat

    function Live(): Assignment
      reads this`renewed
    {
      if renewed.Some? then renewed.value else authoritative
    }

    predicate Untampered()
      reads this
    {
      && cellID == authoritative.cellID && generation == authoritative.generation
      && endpointRevision == authoritative.endpointRevision && endpoint == authoritative.endpoint
    }

    /** The live placement is one the store held after registration. */
    ghost predicate Valid(w: Environment)
      reads this, w`log
    {
      && seenAt <= |w.log|
      && var d := Durable(w.init, w.log, seenAt);
         d.Some? && d.value.registeredAt.Some? && d.value.assignment == Some(Live())
    }

    constructor (w: Environment, o: Opened, config: Config, renewable: bool)
      requires w.Inv() && OpenedFrom(w.durable, o)
      ensures Valid(w) && Untampered() && Live() == authoritative == o.assignment
      ensures agentID == o.agentID && this.config == config && this.renewable == renewable
    {
      agentID, this.config, this.renewable := o.agentID, config, renewable;
      authoritative, renewed := o.assignment, None;
      cellID, generation := o.assignment.cellID, o.assignment.generation;
      endpointRevision, endpoint := o.assignment.endpointRevision, o.assignment.endpoint;
      seenAt := |w.log|;
    }

    method CheckedAssignment(a: Assignment) returns (r: Result<Assignment, Error>)
      ensures r == if Untampered() then Success(a) else Failure(Refused)
    {
      if cellID != authoritative.cellID || generation != authoritative.generation
         || endpointRevision != authoritative.endpointRevision || endpoint != authoritative.endpoint {
        return Failure(Refused);
      }
      return Success(a);
    }

    /** The placement one session exchange uses: renewed ahead of expiry when
        that works, never stepping back, never redirected by an edit. */
    method LiveSessionAssignment(w: Environment, decisionAt: Time, strict: bool)
      returns (r: Result<Assignment, Error>, ghost renewing: bool)
      requires w.Inv() && Valid(w)
      modifies w, this`renewed, this`seenAt
      ensures w.Inv() && Valid(w) && old(w.log) <= w.log
      ensures Continues(old(Live()), Live())
      ensures r.Success? ==> r.value == Live() && Untampered()
      ensures r.Success? && strict ==> decisionAt + SESSION_RENEWAL_LEAD < r.value.leaseExpiresAt
      ensures r.Success? && renewable && old(Live()).leaseExpiresAt <= decisionAt ==>
                w.durable.Some? && w.durable.value.assignment == Some(r.value)
      // A live lease outlives a failed renewal.
      ensures Untampered() && !strict && decisionAt < old(Live()).leaseExpiresAt ==> r.Success?
      // A renewal is tried if and only if the lease has no more than the lead to run.
      ensures renewing <==> renewable && old(Live()).leaseExpiresAt <= decisionAt + SESSION_RENEWAL_LEAD
      ensures !renewing ==> Live() == old(Live()) && w.log == old(w.log)
    {
      hide Legal, SaveOk, ValidLoaded;
      var current := Live();
      renewing := false;
      if !renewable {
        r := CheckedAssignment(current);
        if r.Success? && strict && !(decisionAt + SESSION_RENEWAL_LEAD < current.leaseExpiresAt) {
          return Failure(Refused), renewing;
        }
        return;
      }
      if !(decisionAt + SESSION_RENEWAL_LEAD < current.leaseExpiresAt) {
        var expired := LeaseExpired(current, decisionAt);
        ghost var before := w.log;
        renewing := true;
        var placement := RenewSession(w, config, agentID, decisionAt);
        StoreMovesOn(w.init, before, w.log, seenAt);
        if placement.Success? {
          renewed := Some(placement.value);
          seenAt := |w.log|;
          current := placement.value;
        } else if expired || strict {
          return Failure(placement.error), renewing;
        }
      }
      r := CheckedAssignment(current);
      if r.Success? && strict && !(decisionAt + SESSION_RENEWAL_LEAD < current.leaseExpiresAt) {
        return Failure(Refused), renewing;
      }
    }
  }

  /** What the store held once, it holds or has moved on from. */
  lemma StoreMovesOn(init: Option<AgentState>, before: Trace, log: Trace, n: nat)
    requires Legal(init, log) && before <= log && n <= |before|
    requires var d := Durable(init, before, n);
             d.Some? && d.value.registeredAt.Some? && d.value.assignment.Some?
    ensures Durable(init, log, n) == Durable(init, before, n)
    ensures var d, e := Durable(init, before, n), Durable(init, log, |log|);
            && e.Some? && e.value.registeredAt.Some? && e.value.assignment.Some?
            && Continues(d.value.assignment.value, e.value.assignment.value)
  {
    assert log == before + log[|before|..];
    DurableOfPrefix(init, before, log[|before|..], n);
    PlacementNeverRegresses(init, log, n, |log|);
  }

  // --- The private key ---------------------------------------------------------------

  /** The owner of a device key. What it lent comes back before it gives the key
      away or wipes it, because both wait for the same mutex. */
  class KeyOwner {
    var value: Option<array<bv8>>
    var cleanup: bool
    ghost var borrowed: bool

    ghost predicate Valid()
      reads this
    {
      cleanup ==> value.Some?
    }

    constructor (key: array<bv8>)
      ensures Valid() && value == Some(key) && cleanup && !borrowed
    {
      value, cleanup, borrowed := Some(key), true, false;
    }

    method Borrow() returns (key: Option<array<bv8>>)
      requires Valid() && !borrowed
      modifies this`borrowed
      ensures key == if value.Some? && value.value.Length > 0 then value else None
      ensures borrowed <==> key.Some?
    {
      key := if value.Some? && value.value.Length > 0 then value else None;
      borrowed := key.Some?;
    }

    method GiveBack()
      requires borrowed
      modifies this`borrowed
      ensures !borrowed
    {
      borrowed := false;
    }

    /** Ownership passes to the caller, once, with the bytes as they were; the
        finaliser can no longer wipe them. */
    method Take() returns (key: Option<array<bv8>>)
      requires Valid() && !borrowed
      modifies this
      ensures Valid() && key == old(value) && value.None? && !cleanup && !borrowed
      ensures key.Some? ==> key.value[..] == old(if value.Some? then value.value[..] else [])
    {
      cleanup := false;
      key := value;
      value := None;
    }

    method Destroy()
      requires Valid() && !borrowed
      modifies this, if value.Some? then {value.value} else {}
      ensures Valid() && value.None? && !cleanup && !borrowed
      ensures old(value).Some? ==> forall i | 0 <= i < old(value).value.Length :: old(value).value[i] == 0
    {
      cleanup := false;
      if value.Some? {
        var key := value.value;
        for i := 0 to key.Length
          invariant forall k | 0 <= k < i :: key[k] == 0
          invariant value == old(value) && !cleanup && !borrowed
        {
          key[i] := 0;
        }
      }
      value := None;
    }
  }

  // --- The setup lock's scope -----------------------------------------------------------

  /** The capabilities of one lifecycle call, and the results that are still
      somebody's to clean up. */
  class Scope {
    ghost var retained: int
    ghost var locked: int
    ghost var live: set<nat>
    ghost var faults: nat

    constructor ()
      ensures retained == locked == 0 && live == {} && faults == 0
    {
      retained, locked, live, faults := 0, 0, {}, 0;
    }

    /** A boundary: retaining, checking continuity or taking the lock. */
    method Succeeds() returns (ok: bool)
      modifies this`faults
      ensures faults == old(faults) + if ok then 0 else 1
    {
      ok := *;
      if !ok {
        faults := faults + 1;
      }
    }

    /** Giving a capability back may report an error; it is given back all the same. */
    method Release(lock: bool) returns (ok: bool)
      modifies this`retained, this`locked, this`faults
      ensures retained == old(retained) - if lock then 0 else 1
      ensures locked == old(locked) - if lock then 1 else 0
      ensures faults == old(faults) + if ok then 0 else 1
    {
      if lock {
        locked := locked - 1;
      } else {
        retained := retained - 1;
      }
      ok := Succeeds();
    }

    method Cleanup(result: Option<nat>)
      requires result.Some? ==> result.value in live
      modifies this`live
      ensures live == old(live) - (if result.Some? then {result.value} else {})
    {
      if result.Some? {
        live := live - {result.value};
      }
    }

    /** The call in between; it may hand back a result beside an error. */
    method Run(next: nat) returns (result: Option<nat>, ok: bool)
      requires next !in live
      modifies this`live
      ensures result in {None, Some(next)}
      ensures live == old(live) + (if result.Some? then {next} else {})
    {
      var some: bool := *;
      ok := *;
      result := if some then Some(next) else None;
      if some {
        live := live + {next};
      }
    }

    /** The setup lock around a call. Both capabilities are given back exactly
        once on every way out; a fault at any boundary cleans the result up and
        overrides it, so that what is live afterwards is what is returned. */
    method WithSetupLock(next: nat) returns (result: Option<nat>, ok: bool)
      requires next !in live
      modifies this
      ensures retained == old(retained) && locked == old(locked)
      ensures live == old(live) + (if result.Some? then {result.value} else {})
      ensures result in {None, Some(next)}
      ensures faults > old(faults) ==> result.None? && !ok
    {
      result := None;
      ok := Succeeds();
      if !ok {
        return;
      }
      retained := retained + 1;
      ok := Succeeds();
      if ok {
        ok := Succeeds();
        if ok {
          locked := locked + 1;
          result, ok := Run(next);
          var continuous := Succeeds();
          if !continuous {
            Cleanup(result);
            result, ok := None, false;
          }
          var unlocked := Release(true);
          if !unlocked {
            Cleanup(result);
            result, ok := None, false;
          }
        }
      }
      var released := Release(false);
      if !released {
        Cleanup(result);
        result, ok := None, false;
      }
    }
  }
}
