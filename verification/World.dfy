/** Everything outside the client: the state store, the Hub, the assigned cell
    and the clock, with the trace of what the client made of them. Each method
    is one step after which the process may also be gone. */
module World {
  import opened Wrappers
  import opened AgentStates
  import opened LifecycleSpec
  import opened RecoveryBoundary

  datatype Error =
    | Crashed | Refused | StoreFailed | Unreadable | NoAnswer | Denied | DeadlinePassed | MigrationRequired
    | NotPersisted | TicketRefused | GrantRefused | RetryRequired | RefreshOwed | Reassigned

  /** InitialAgentAssignment. */
  datatype Initial = Initial(registration: Registration, assignment: Assignment, ticket: string, ticketExpiresAt: Time)

  predicate ValidInitial(i: Initial) {
    && ValidAssignment(i.assignment) && ValidTicket(i.ticket)
    && ValidKeyID(i.registration.keyID) && ValidKeyKind(i.registration.keyKind)
    && i.ticketExpiresAt != 0 && WholeSecond(i.ticketExpiresAt) && i.ticketExpiresAt < i.assignment.leaseExpiresAt
  }

  /** The Hub issue requests of a trace from `from` on use only these nonces. */
  predicate IssuesOnly(log: Trace, from: nat, nonces: set<string>) {
    forall k | from <= k < |log| && log[k].Sent? && log[k].request.Issue? :: log[k].request.nonce in nonces
  }

  lemma IssuesJoin(earlier: Trace, later: Trace, from: nat, before: set<string>, after: set<string>)
    requires earlier <= later
    requires IssuesOnly(earlier, from, before) && IssuesOnly(later, |earlier|, after)
    ensures IssuesOnly(later, from, before + after)
  {
    forall k | from <= k < |later| && later[k].Sent? && later[k].request.Issue?
      ensures later[k].request.nonce in before + after
    {
      if k < |earlier| {
        assert later[k] == earlier[k];
      }
    }
  }

  /** The REG requests of a trace from `from` on are for these activations. */
  predicate RegistersOnly(log: Trace, from: nat, pendings: set<PendingActivation>) {
    forall k | from <= k < |log| && log[k].Sent? && log[k].request.Register? :: log[k].request.pending in pendings
  }

  lemma RegistersJoin(
      earlier: Trace, later: Trace, from: nat, before: set<PendingActivation>, after: set<PendingActivation>)
    requires earlier <= later
    requires RegistersOnly(earlier, from, before) && RegistersOnly(later, |earlier|, after)
    ensures RegistersOnly(later, from, before + after)
  {
    forall k | from <= k < |later| && later[k].Sent? && later[k].request.Register?
      ensures later[k].request.pending in before + after
    {
      if k < |earlier| {
        assert later[k] == earlier[k];
      }
    }
  }

  lemma NothingJoins(earlier: Trace, later: Trace, from: nat)
    requires earlier <= later
    requires RegistersOnly(earlier, from, {}) && RegistersOnly(later, |earlier|, {})
    ensures RegistersOnly(later, from, {})
  {
    RegistersJoin(earlier, later, from, {}, {});
    assert forall p: PendingActivation :: p !in {} + {};
  }

  /** Every datagram from `from` on went out on a reading its boundary permits. */
  ghost predicate Fenced(b: Boundary?, log: Trace, from: nat)
    reads b
  {
    b != null ==> b.Valid() && forall k | from <= k < |log| && log[k].Sent? :: b.Permitted(log[k].at)
  }

  class Environment {
    const init: Option<AgentState>
    const derivePublicKey: string -> Option<string>
    const fingerprint: string -> string
    var durable: Option<AgentState>
    var log: Trace
    // The last thing the clock said.
    ghost var reading: Time
    // How often the process was gone after a save.
    ghost var crashes: nat
    // One-time passcodes asked for, and given.
    ghost var asked: nat
    ghost var given: nat

    ghost predicate Inv()
      reads this`durable, this`log
    {
      Legal(init, log) && SavesLoad(log) && durable == Durable(init, log, |log|)
    }

    constructor (stored: Option<AgentState>, derive: string -> Option<string>, tag: string -> string)
      ensures Inv() && init == durable == stored && log == []
    {
      init := stored;
      derivePublicKey := derive;
      fingerprint := tag;
      durable := stored;
      log := [];
      crashes, asked, given := 0, 0, 0;
    }

    method Append(e: Event)
      requires Inv() && EventOk(durable, log, e) && (e.Saved? ==> ValidLoaded(e.next))
      modifies this`durable, this`log
      ensures Inv() && log == old(log) + [e]
      ensures durable == if e.Saved? && e.applied then Some(e.next) else old(durable)
    {
      LegalExtends(init, log, e);
      log := log + [e];
      if e.Saved? && e.applied {
        durable := Some(e.next);
      }
    }

    method Now() returns (t: Time)
      modifies this`reading
      ensures t == reading
    {
      t := *;
      reading := t;
    }

    /** The caller's passcode provider. */
    method AskPasscode() returns (ok: bool)
      modifies this`asked, this`given
      ensures asked == old(asked) + 1 && given == old(given) + if ok then 1 else 0
    {
      ok := *;
      asked := asked + 1;
      given := if ok then given + 1 else given;
    }

    method Load() returns (r: Result<Option<AgentState>, Error>)
      ensures r.Success? ==> r.value == durable
      ensures r.Failure? ==> r.error == Unreadable
    {
      var readable: bool := *;
      return if readable then Success(durable) else Failure(Unreadable);
    }

    /** SaveAgentState: it may apply and report success, apply and report an
        error, or not apply and report an error. */
    method Save(next: AgentState) returns (r: Result<(), Error>)
      requires Inv() && ValidLoaded(next) && SaveOk(durable, log, next)
      modifies this`durable, this`log, this`crashes
      ensures Inv() && old(log) < log && IssuesOnly(log, |old(log)|, {}) && RegistersOnly(log, |old(log)|, {})
      ensures log[..|old(log)|] == old(log) && log[|old(log)|].Saved? && log[|old(log)|].next == next
      ensures durable == old(durable) || durable == Some(next)
      ensures r.Success? ==> durable == Some(next)
      ensures r.Failure? ==> r.error in {Crashed, StoreFailed}
      ensures crashes == old(crashes) + if r == Failure(Crashed) then 1 else 0
    {
      var applied: bool := *;
      var acknowledged: bool := *;
      var alive: bool := *;
      Append(Saved(next, applied));
      crashes := if alive then crashes else crashes + 1;
      return if !alive then Failure(Crashed)
             else if applied && acknowledged then Success(()) else Failure(StoreFailed);
    }

    /** One datagram, on one reading of the clock, past the fence or not at all. */
    method SendOne(b: Boundary?, request: Request) returns (sent: bool, delivered: bool)
      requires Inv() && RequestOk(durable, request)
      requires Fence(durable, request).Some? ==> b != null && b.deadline == Fence(durable, request).value
      requires b != null ==> b.Valid()
      modifies this`durable, this`log, this`reading, b
      ensures Inv() && durable == old(durable)
      ensures !sent ==> log == old(log) && b != null
      ensures sent ==> log == old(log) + [Sent(request, reading, delivered)]
      ensures b != null ==> b.Valid() && (sent ==> !b.expired && b.Permitted(reading))
      ensures b != null ==> (old(b.expired) ==> b.expired) && forall t | old(b.Permitted(t)) :: b.Permitted(t)
    {
      hide Legal, SavesLoad;
      var now := Now();
      if b != null {
        var verdict := b.CheckAt(now);
        if verdict != Allowed {
          return false, false;
        }
      }
      delivered := *;
      Append(Sent(request, now, delivered));
      sent := true;
    }

    /** The datagrams of one exchange, each written only past the fence. A
        boundary that has seen its deadline lets nothing out any more, and an
        answer comes only to a request that arrived. */
    method Transmit(b: Boundary?, request: Request) returns (r: Result<(), Error>)
      requires Inv() && RequestOk(durable, request)
      requires Fence(durable, request).Some? ==> b != null && b.deadline == Fence(durable, request).value
      requires b != null ==> b.Valid()
      modifies this`durable, this`log, this`reading, b
      ensures Inv() && durable == old(durable) && old(log) <= log && Fenced(b, log, |old(log)|)
      ensures forall k | |old(log)| <= k < |log| :: log[k].Sent? && log[k].request == request
      ensures b != null && old(b.expired) ==> b.expired && log == old(log)
      ensures r.Success? ==> exists k :: |old(log)| <= k < |log| && log[k].delivered
      ensures r.Failure? ==> r.error in {Crashed, NoAnswer, DeadlinePassed}
    {
      hide Legal, SavesLoad, RequestOk, LifecycleSpec.Fence;
      var attempts: nat := *;
      var arrived := false;
      ghost var arrival := 0;
      while attempts > 0
        invariant Inv() && durable == old(durable) && old(log) <= log && Fenced(b, log, |old(log)|)
        invariant forall k | |old(log)| <= k < |log| :: log[k].Sent? && log[k].request == request
        invariant b != null && old(b.expired) ==> b.expired && log == old(log)
        invariant arrived ==> |old(log)| <= arrival < |log| && log[arrival].delivered
      {
        attempts := attempts - 1;
        ghost var before := log;
        var sent, delivered := SendOne(b, request);
        if !sent {
          return Failure(DeadlinePassed);
        }
        if delivered {
          arrived := true;
          arrival := |before|;
        }
      }
      var answered: bool := *;
      var alive: bool := *;
      return if !alive then Failure(Crashed) else if answered && arrived then Success(()) else Failure(NoAnswer);
    }

    /** The Hub's initial placement for an enrolling agent. */
    method FetchInitial(b: Boundary?) returns (r: Result<Initial, Error>)
      requires Inv()
      requires Fence(durable, Place).Some? ==> b != null && b.deadline == Fence(durable, Place).value
      requires b != null ==> b.Valid()
      modifies this`durable, this`log, this`reading, b
      ensures Inv() && durable == old(durable) && old(log) <= log && Fenced(b, log, |old(log)|)
      ensures RegistersOnly(log, |old(log)|, {})
      ensures b != null && old(b.expired) ==> b.expired && log == old(log)
      ensures r.Success? ==> ValidInitial(r.value) && reading < r.value.ticketExpiresAt
    {
      var _ :- Transmit(b, Place);
      var now := Now();
      var initial: Initial := *;
      return if ValidInitial(initial) && now < initial.ticketExpiresAt then Success(initial) else Failure(Denied);
    }

    /** The Hub's current placement of a completed agent. */
    method Refresh() returns (r: Result<Assignment, Error>)
      requires Inv() && Fence(durable, Place).None?
      modifies this`durable, this`log, this`reading
      ensures Inv() && durable == old(durable) && old(log) <= log && IssuesOnly(log, |old(log)|, {})
      ensures RegistersOnly(log, |old(log)|, {})
      ensures r.Success? ==> old(log) < log && ValidAssignment(r.value) && reading < r.value.leaseExpiresAt
    {
      var _ :- Transmit(null, Place);
      var now := Now();
      var current: Assignment := *;
      return if ValidAssignment(current) && !LeaseExpired(current, now) then Success(current) else Failure(Denied);
    }

    /** One assigned-cell REG. TicketRefused is the authenticated verdict that
        nothing was committed for this activation, and it is on record. */
    method Register(b: Boundary, pending: PendingActivation) returns (r: Result<(), Error>)
      requires Inv() && RequestOk(durable, Request.Register(pending)) && b.deadline == pending.recoveryExpiresAt
      requires b.Valid()
      modifies this`durable, this`log, this`reading, b
      ensures Inv() && durable == old(durable) && old(log) <= log && Fenced(b, log, |old(log)|)
      ensures RegistersOnly(log, |old(log)|, {pending})
      ensures old(b.expired) ==> b.expired && log == old(log)
      ensures r == Failure(TicketRefused) ==> TicketExpired(pending) in log
    {
      hide Legal, SavesLoad;
      var _ :- Transmit(b, Request.Register(pending));
      var accepted: bool := *;
      var expired: bool := *;
      if accepted {
        return Success(());
      }
      if expired {
        Append(TicketExpired(pending));
        return Failure(TicketRefused);
      }
      return Failure(Denied);
    }

    /** Registration completion. The cell confirms only the candidate it committed. */
    method Complete(b: Boundary, candidate: string, placement: Assignment) returns (r: Result<string, Error>)
      requires Inv() && RequestOk(durable, Request.Complete(candidate, placement))
      requires b.Valid() && b.deadline == durable.value.pendingCompletion.value.recoveryExpiresAt
      modifies this`durable, this`log, this`reading, b
      ensures Inv() && durable == old(durable) && old(log) <= log && Fenced(b, log, |old(log)|)
      ensures RegistersOnly(log, |old(log)|, {})
      ensures old(b.expired) ==> b.expired && log == old(log)
      ensures r.Success? ==> ValidKeyID(r.value) && CompletionConfirmed(candidate, r.value) in log && Committed(log) == Some(candidate)
    {
      hide Legal, SavesLoad;
      var _ :- Transmit(b, Request.Complete(candidate, placement));
      var keyID: string := *;
      if !ValidKeyID(keyID) || Committed(log) != Some(candidate) {
        return Failure(Denied);
      }
      ghost var before := log;
      Append(CompletionConfirmed(candidate, keyID));
      assert log[..|before|] == before;
      CommittedIsStable(log, |before|);
      return Success(keyID);
    }

    /** IssueCredentialRecovery at the Hub. Denied is a terminal authenticated denial. */
    method Issue(b: Boundary, nonce: string, tag: string, hub: Hub) returns (r: Result<Issued, Error>)
      requires Inv() && RequestOk(durable, Request.Issue(nonce, tag, hub))
      requires b.Valid() && Fence(durable, Request.Issue(nonce, tag, hub)) == Some(b.deadline)
      modifies this`durable, this`log, this`reading, b
      ensures Inv() && durable == old(durable) && old(log) <= log && Fenced(b, log, |old(log)|)
      ensures IssuesOnly(log, |old(log)|, {nonce})
      ensures old(b.expired) ==> b.expired && log == old(log)
      ensures r.Success? ==> ValidIssued(r.value) && IssueAnswered(nonce, r.value) in log
      ensures r == Failure(Denied) ==> IssueDenied(nonce) in log
    {
      hide Legal, SavesLoad;
      var _ :- Transmit(b, Request.Issue(nonce, tag, hub));
      var issued: Issued := *;
      if ValidIssued(issued) && HubReplays(log, nonce, issued) {
        Append(IssueAnswered(nonce, issued));
        return Success(issued);
      }
      var retryable: bool := *;
      if retryable {
        return Failure(RetryRequired);
      }
      Append(IssueDenied(nonce));
      return Failure(Denied);
    }

    /** CompleteCredentialRecovery at the assigned cell. */
    method Replace(b: Boundary, p: PendingRecovery) returns (r: Result<string, Error>)
      requires Inv() && RequestOk(durable, Request.Replace(p.deviceAPIKey, p.grant, p.assignment))
      requires b.Valid() && b.deadline == durable.value.pendingRecovery.value.recoveryExpiresAt
      modifies this`durable, this`log, this`reading, b
      ensures Inv() && durable == old(durable) && old(log) <= log && Fenced(b, log, |old(log)|)
      ensures IssuesOnly(log, |old(log)|, {})
      ensures old(b.expired) ==> b.expired && log == old(log)
      ensures r.Success? ==> ValidKeyID(r.value) && ReplacementConfirmed(p.deviceAPIKey, r.value) in log
      ensures r == Failure(GrantRefused) ==> GrantRejected(p.grant) in log
    {
      hide Legal, SavesLoad;
      var _ :- Transmit(b, Request.Replace(p.deviceAPIKey, p.grant, p.assignment));
      var keyID: string := *;
      if ValidKeyID(keyID) {
        Append(ReplacementConfirmed(p.deviceAPIKey, keyID));
        return Success(keyID);
      }
      var rejected: bool := *;
      if rejected {
        Append(GrantRejected(p.grant));
        return Failure(GrantRefused);
      }
      return Failure(Denied);
    }
  }
}
