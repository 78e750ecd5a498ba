/** Replacement of a revoked device credential
    (qurl/agent_credential_recovery.go). */
module CredentialRecovery {
  import opened Wrappers
  import opened AgentStates
  import opened LifecycleSpec
  import opened RecoveryBoundary
  import opened World
  import opened Runtime

  /** A completed native identity that owes no refresh. */
  ghost predicate Recoverable(s: AgentState) {
    && s.registeredAt.Some? && s.assignment.Some?
    && s.pendingActivation.None? && s.pendingCompletion.None? && !s.refreshRequired
  }

  /** sameCredentialRecoveryState. */
  predicate SameRecoveryState(l: AgentState, r: AgentState) {
    && l.(enrollmentKind := r.enrollmentKind) == r
    && l.pendingActivation.None? && l.pendingCompletion.None?
  }

  /** What is stored is what was to be saved. */
  ghost predicate Reconciles(w: Environment, next: AgentState)
    reads w`durable
  {
    Prepared(w).Some? && SameRecoveryState(Prepared(w).value, next)
  }

  /** reconcileCredentialRecoveryState: of a store that can be read, success if
      and only if it holds the record. */
  method Reconcile(w: Environment, next: AgentState) returns (r: Result<AgentState, Error>)
    requires w.Inv()
    ensures r.Success? ==> Holds(w, r.value) && SameRecoveryState(r.value, next)
    ensures r != Failure(Unreadable) ==> (r.Success? <==> Reconciles(w, next))
  {
    var reloaded :- LoadPrepared(w);
    return if SameRecoveryState(reloaded, next) then Success(reloaded) else Failure(NotPersisted);
  }

  /** saveCredentialRecoveryState: a save reported as failed counts if and only
      if the store can be read and holds the record that was to be saved. */
  method SaveOrReconcile(w: Environment, next: AgentState) returns (r: Result<AgentState, Error>)
    requires w.Inv() && ValidLoaded(next) && SaveOk(w.durable, w.log, next)
    modifies w`durable, w`log, w`crashes
    ensures w.Inv() && old(w.log) < w.log && IssuesOnly(w.log, |old(w.log)|, {}) && RegistersOnly(w.log, |old(w.log)|, {})
    ensures w.log[|old(w.log)|].Saved? && w.log[|old(w.log)|].next == next
    ensures w.durable == old(w.durable) || w.durable == Some(next)
    ensures r.Success? ==> Holds(w, r.value) && (r.value == next || SameRecoveryState(r.value, next))
    ensures r.Success? ==> w.durable == Some(next) || Reconciles(w, next)
    ensures r == Failure(NotPersisted) ==> !Reconciles(w, next)
    ensures r.Failure? ==> r.error in {Crashed, Unreadable, NotPersisted}
    ensures w.crashes == old(w.crashes) + if r == Failure(Crashed) then 1 else 0
  {
    var saved := w.Save(next);
    if saved.Success? {
      return Success(next);
    }
    if saved.error == Crashed {
      return Failure(Crashed);
    }
    r := Reconcile(w, next);
    if r.Failure? && r.error != Unreadable {
      return Failure(NotPersisted);
    }
  }

  method PersistIssueIntent(w: Environment, hub: Hub, state: AgentState, credential: string, forbidden: Option<string>)
    returns (r: Result<AgentState, Error>)
    requires w.Inv() && Holds(w, state) && Recoverable(state)
    requires state.pendingIssue.None? && (state.pendingRecovery.Some? ==> state.pendingRecovery.value.needsFreshGrant)
    modifies w
    ensures w.Inv() && old(w.log) <= w.log && IssuesOnly(w.log, |old(w.log)|, {})
    ensures r.Success? ==>
              && Holds(w, r.value) && Recoverable(r.value) && r.value.pendingRecovery == state.pendingRecovery
              && r.value.pendingIssue.Some? && r.value.pendingIssue.value.hub == hub
              && r.value.pendingIssue.value.credentialFingerprint == w.fingerprint(credential)
              && r.value.pendingIssue.value.agentID == state.agentID
              && r.value.pendingIssue.value.agentPublicKey == state.publicKey
              && forbidden != Some(r.value.pendingIssue.value.nonce)
    // The cutoff is the horizon from this second on, or the episode's deadline if that comes first.
    ensures r.Success? ==>
              var cutoff, horizon := r.value.pendingIssue.value.replayNotAfter, w.reading - w.reading % SECOND + HORIZON;
              if state.pendingRecovery.Some? && state.pendingRecovery.value.recoveryExpiresAt < horizon
              then cutoff == state.pendingRecovery.value.recoveryExpiresAt
              else cutoff == horizon
  {
    var nonce: string := *;
    if forbidden == Some(nonce) {
      return Failure(Refused);
    }
    var now := w.Now();
    var cutoff := RecoveryDeadline(TruncateToSecond(now));
    if cutoff.None? {
      return Failure(Refused);
    }
    var replayNotAfter := cutoff.value;
    if state.pendingRecovery.Some? && state.pendingRecovery.value.recoveryExpiresAt < replayNotAfter {
      replayNotAfter := state.pendingRecovery.value.recoveryExpiresAt;
    }
    var intent := PendingIssue(nonce, replayNotAfter, w.fingerprint(credential), state.agentID, state.publicKey, hub);
    if !ValidPendingIssue(intent) {
      return Failure(Refused);
    }
    var next := state.(pendingIssue := Some(intent), schemaVersion := SCHEMA_VERSION);
    r := SaveOrReconcile(w, next);
  }

  method ClearIssueIntent(w: Environment, state: AgentState) returns (r: Result<AgentState, Error>)
    requires w.Inv() && Holds(w, state) && Recoverable(state)
    requires state.pendingIssue.Some? && IssueDenied(state.pendingIssue.value.nonce) in w.log
    modifies w
    ensures w.Inv() && old(w.log) <= w.log && IssuesOnly(w.log, |old(w.log)|, {})
    ensures r.Success? ==> Holds(w, r.value) && r.value == state.(pendingIssue := None, enrollmentKind := r.value.enrollmentKind)
  {
    r := SaveOrReconcile(w, state.(pendingIssue := None));
  }

  /** Whether an issued grant may still be shown to a cell. */
  predicate Stale(issued: Issued, now: Time) {
    now >= issued.expiresAt || now >= issued.assignment.leaseExpiresAt
  }

  /** A grant, with its placement, that a cell could still be shown at t. */
  predicate LiveAt(p: PendingRecovery, t: Time) {
    t < p.grantExpiresAt && t < p.assignment.leaseExpiresAt
  }

  /** The judgement of a result, on its own reading of the clock. */
  method Judge(w: Environment, issued: Issued) returns (stale: bool)
    modifies w`reading
    ensures stale <==> w.reading >= issued.expiresAt || w.reading >= issued.assignment.leaseExpiresAt
  {
    var now := w.Now();
    stale := Stale(issued, now);
  }

  /** The pending episode holds what the Hub issued. */
  predicate HoldsIssue(p: PendingRecovery, issued: Issued, stale: bool) {
    && p.grant == issued.grant && p.grantIssuedAt == issued.issuedAt && p.grantExpiresAt == issued.expiresAt
    && p.assignment == issued.assignment && p.needsFreshGrant == stale
  }

  /** The record that opens an episode: revoked key dropped, anchor set, intent consumed. */
  function Opening(state: AgentState, issued: Issued, stale: bool, candidate: string): AgentState
    requires ValidIssued(issued)
  {
    var pending := PendingRecovery(
      issued.grant, issued.issuedAt, issued.expiresAt, issued.expiresAt, RecoveryDeadline(issued.expiresAt).value,
      candidate, issued.assignment, stale);
    state.(
      assignment := Some(issued.assignment), deviceAPIKey := "", deviceAPIKeyID := "",
      pendingRecovery := Some(pending), pendingIssue := None, schemaVersion := SCHEMA_VERSION)
  }

  lemma OpeningIsPermitted(d: AgentState, log: Trace, state: AgentState, issued: Issued, stale: bool, candidate: string)
    requires LoadedAs(d, state) && Recoverable(state) && state.pendingRecovery.None? && state.pendingIssue.Some?
    requires ValidIssued(issued) && ValidDeviceKey(candidate)
    requires IssueAnswered(state.pendingIssue.value.nonce, issued) in log
    requires RefreshContinuity(state.assignment.value, issued.assignment, true)
    ensures ValidLoaded(Opening(state, issued, stale, candidate))
    ensures SaveOk(Some(d), log, Opening(state, issued, stale, candidate))
    ensures var next := Opening(state, issued, stale, candidate);
            && Recoverable(next) && next.pendingIssue.None? && next.pendingRecovery.Some?
            && HoldsIssue(next.pendingRecovery.value, issued, stale)
            && Episode(next.pendingRecovery.value) == (candidate, issued.expiresAt, issued.expiresAt + HORIZON)
  {
    hide ValidAssignment, ValidGrant, ValidDeviceKey, ValidAgentID, PublicKeyText, ValidHub, Base64Url32;
    var next := Opening(state, issued, stale, candidate);
    assert ValidPendingRecovery(next.pendingRecovery.value, next);
    assert issued == Issued(issued.assignment, issued.grant, issued.issuedAt, issued.expiresAt);
    assert Evidence(log, d, next);
  }

  method PersistInitial(w: Environment, state: AgentState, issued: Issued, stale: bool, candidate: string)
    returns (r: Result<AgentState, Error>)
    requires w.Inv() && Holds(w, state) && Recoverable(state) && state.pendingRecovery.None? && state.pendingIssue.Some?
    requires ValidIssued(issued) && ValidDeviceKey(candidate)
    requires IssueAnswered(state.pendingIssue.value.nonce, issued) in w.log
    modifies w
    ensures w.Inv() && old(w.log) <= w.log && IssuesOnly(w.log, |old(w.log)|, {})
    ensures r.Success? ==>
              && Holds(w, r.value) && Recoverable(r.value) && r.value.pendingIssue.None?
              && r.value.pendingRecovery.Some? && HoldsIssue(r.value.pendingRecovery.value, issued, stale)
              && Episode(r.value.pendingRecovery.value) == (candidate, issued.expiresAt, issued.expiresAt + HORIZON)
    ensures r.Success? ==> w.reading < issued.expiresAt + HORIZON
    ensures r == Failure(DeadlinePassed) ==> w.reading >= issued.expiresAt + HORIZON
    ensures r == Failure(Denied) <==> !Continues(state.assignment.value, issued.assignment)
  {
    hide ValidLoaded, SaveOk, Legal, Opening, ValidIssued, RefreshContinuity, Continues;
    AcceptedIffContinues(state.assignment.value, issued.assignment, true);
    if !RefreshContinuity(state.assignment.value, issued.assignment, true) {
      return Failure(Denied);
    }
    OpeningIsPermitted(w.durable.value, w.log, state, issued, stale, candidate);
    var next := Opening(state, issued, stale, candidate);
    var saved :- SaveOrReconcile(w, next);
    var now := w.Now();
    return if now >= next.pendingRecovery.value.recoveryExpiresAt then Failure(DeadlinePassed) else Success(saved);
  }

  method PersistRenewed(w: Environment, state: AgentState, issued: Issued, stale: bool)
    returns (r: Result<AgentState, Error>)
    requires w.Inv() && Holds(w, state) && Recoverable(state) && state.pendingRecovery.Some? && state.pendingIssue.Some?
    requires ValidIssued(issued) && IssueAnswered(state.pendingIssue.value.nonce, issued) in w.log
    modifies w
    ensures w.Inv() && old(w.log) <= w.log && IssuesOnly(w.log, |old(w.log)|, {})
    ensures r.Success? ==>
              && Holds(w, r.value) && Recoverable(r.value) && r.value.pendingIssue.None?
              && r.value.pendingRecovery.Some? && HoldsIssue(r.value.pendingRecovery.value, issued, stale)
              && Episode(r.value.pendingRecovery.value) == Episode(state.pendingRecovery.value)
    ensures r.Success? ==> w.reading < state.pendingRecovery.value.recoveryExpiresAt
    ensures r == Failure(DeadlinePassed) ==> w.reading >= state.pendingRecovery.value.recoveryExpiresAt
    ensures r == Failure(Denied) ==> !Continues(state.pendingRecovery.value.assignment, issued.assignment)
  {
    var pending := state.pendingRecovery.value;
    var now := w.Now();
    if now >= pending.recoveryExpiresAt {
      return Failure(DeadlinePassed);
    }
    AcceptedIffContinues(pending.assignment, issued.assignment, true);
    if !RefreshContinuity(pending.assignment, issued.assignment, true) {
      return Failure(Denied);
    }
    var renewed := pending.(
      assignment := issued.assignment, grant := issued.grant, grantIssuedAt := issued.issuedAt,
      grantExpiresAt := issued.expiresAt, needsFreshGrant := stale);
    r := SaveOrReconcile(w, state.(
      assignment := Some(issued.assignment), pendingRecovery := Some(renewed), pendingIssue := None));
  }

  /** The deadline that fences an issue of this record: of the episode it
      renews, else of its own intent. */
  method FenceIssue(w: Environment, state: AgentState) returns (r: Result<Boundary, Error>)
    requires state.pendingRecovery.Some? || state.pendingIssue.Some?
    modifies w`reading
    ensures r.Success? ==>
              fresh(r.value) && r.value.Valid() && !r.value.expired &&
              r.value.deadline == if state.pendingRecovery.Some? then state.pendingRecovery.value.recoveryExpiresAt
                                  else state.pendingIssue.value.replayNotAfter
  {
    r := OpenBoundary(w, if state.pendingRecovery.Some? then state.pendingRecovery.value.recoveryExpiresAt
                         else state.pendingIssue.value.replayNotAfter);
  }

  /** Up to the request: a live fence and a durable intent for this credential. */
  method IntendIssue(w: Environment, hub: Hub, credential: string, start: AgentState, forbidden: Option<string>)
    returns (r: Result<(AgentState, Boundary), Error>)
    requires w.Inv() && Holds(w, start) && Recoverable(start)
    modifies w
    ensures w.Inv() && old(w.log) <= w.log && IssuesOnly(w.log, |old(w.log)|, {})
    ensures r.Success? ==>
              && var (state, b) := r.value;
              && Holds(w, state) && Recoverable(state) && fresh(b) && b.Valid() && !b.expired
              && state.pendingRecovery == start.pendingRecovery && state.pendingIssue.Some?
              && forbidden != Some(state.pendingIssue.value.nonce) && ValidRecoveryCredential(credential)
              && RequestOk(w.durable, Request.Issue(state.pendingIssue.value.nonce, w.fingerprint(credential), hub))
              && b.deadline == if state.pendingRecovery.Some? then state.pendingRecovery.value.recoveryExpiresAt
                               else state.pendingIssue.value.replayNotAfter
  {
    hide ValidLoaded, Legal, SaveOk, PrepareLoaded, ValidPendingIssue, ValidRecoveryCredential;
    var renewal := start.pendingRecovery.Some?;
    if renewal && !start.pendingRecovery.value.needsFreshGrant {
      return Failure(Refused);
    }
    var b: Boundary? := null;
    if renewal || start.pendingIssue.Some? {
      b :- FenceIssue(w, start);
    }
    if !ValidRecoveryCredential(credential) {
      return Failure(Refused);
    }
    var state := start;
    if state.pendingIssue.None? {
      state :- PersistIssueIntent(w, hub, state, credential, forbidden);
      if renewal {
        var _ :- CheckBoundary(w, b);
      } else {
        b :- FenceIssue(w, state);
      }
    } else if state.pendingIssue.value.credentialFingerprint != w.fingerprint(credential) || state.pendingIssue.value.hub != hub {
      return Failure(Refused);
    }
    if forbidden == Some(state.pendingIssue.value.nonce) {
      return Failure(Refused);
    }
    return Success((state, b));
  }

  /** One Hub issue operation and the save of its result. */
  method IssueAndPersist(w: Environment, hub: Hub, credential: string, start: AgentState, forbidden: Option<string>)
    returns (r: Result<(AgentState, string), Error>, ghost nonces: set<string>, ghost t: Time)
    requires w.Inv() && Holds(w, start) && Recoverable(start)
    modifies w
    ensures w.Inv() && old(w.log) <= w.log && IssuesOnly(w.log, |old(w.log)|, nonces) && |nonces| <= 1
    ensures r.Success? ==>
              && var (state, nonce) := r.value;
              && Holds(w, state) && Recoverable(state) && state.pendingIssue.None? && state.pendingRecovery.Some?
              && (start.pendingRecovery.Some? ==> Episode(state.pendingRecovery.value) == Episode(start.pendingRecovery.value))
              && nonces == {nonce} && forbidden != Some(nonce)
              && (state.pendingRecovery.value.needsFreshGrant <==> !LiveAt(state.pendingRecovery.value, t))
  {
    hide ValidLoaded, Legal, SaveOk, RequestOk, ValidIssued, Stale;
    nonces, t := {}, 0;
    var intended := IntendIssue(w, hub, credential, start, forbidden);
    if intended.Failure? { return Failure(intended.error), nonces, t; }
    var (state, b) := intended.value;
    var nonce := state.pendingIssue.value.nonce;
    nonces := {nonce};
    ghost var before := w.log;
    var issued := w.Issue(b, nonce, w.fingerprint(credential), hub);
    IssuesJoin(before, w.log, |old(w.log)|, {}, nonces);
    assert {} + nonces == nonces;
    ghost var answered := w.log;
    if issued.Failure? {
      if issued.error == Denied {
        var cleared := ClearIssueIntent(w, state);
        IssuesJoin(answered, w.log, |old(w.log)|, nonces, {});
        assert nonces + {} == nonces;
      }
      return Failure(issued.error), nonces, t;
    }
    var persisted;
    persisted, t := PersistIssued(w, b, state, issued.value);
    IssuesJoin(answered, w.log, |old(w.log)|, nonces, {});
    assert nonces + {} == nonces;
    if persisted.Failure? { return Failure(persisted.error), nonces, t; }
    return Success((persisted.value, nonce)), nonces, t;
  }

  /** The save of an authenticated result: a new episode, or a renewed grant. */
  method PersistIssued(w: Environment, b: Boundary, state: AgentState, issued: Issued)
    returns (r: Result<AgentState, Error>, ghost t: Time)
    requires w.Inv() && Holds(w, state) && Recoverable(state) && state.pendingIssue.Some?
    requires ValidIssued(issued) && IssueAnswered(state.pendingIssue.value.nonce, issued) in w.log && b.Valid()
    modifies w, b
    ensures w.Inv() && old(w.log) <= w.log && IssuesOnly(w.log, |old(w.log)|, {})
    ensures r.Success? ==>
              && Holds(w, r.value) && Recoverable(r.value) && r.value.pendingIssue.None? && r.value.pendingRecovery.Some?
              && (state.pendingRecovery.Some? ==>
                    Episode(r.value.pendingRecovery.value) == Episode(state.pendingRecovery.value))
              && HoldsIssue(r.value.pendingRecovery.value, issued, !LiveAt(r.value.pendingRecovery.value, t))
  {
    hide ValidLoaded, Legal, SaveOk, ValidIssued, Stale;
    var stale := Judge(w, issued);
    t := w.reading;
    if state.pendingRecovery.Some? {
      var live := CheckBoundary(w, b);
      if live.Failure? { return Failure(live.error), t; }
      r := PersistRenewed(w, state, issued, stale);
    } else {
      var candidate := GenerateDeviceKey();
      if candidate.Failure? { return Failure(candidate.error), t; }
      r := PersistInitial(w, state, issued, stale, candidate.value);
    }
  }

  /** The exact cell request of a pending episode. */
  method CompleteRecovery(w: Environment, state: AgentState) returns (r: Result<string, Error>)
    requires w.Inv() && Holds(w, state) && Recoverable(state) && state.pendingRecovery.Some?
    modifies w
    ensures w.Inv() && w.durable == old(w.durable) && old(w.log) <= w.log && IssuesOnly(w.log, |old(w.log)|, {})
    ensures r.Success? ==> !state.pendingRecovery.value.needsFreshGrant && ValidKeyID(r.value) && ReplacementConfirmed(state.pendingRecovery.value.deviceAPIKey, r.value) in w.log
    ensures r == Failure(GrantRefused) ==>
              !state.pendingRecovery.value.needsFreshGrant && GrantRejected(state.pendingRecovery.value.grant) in w.log
  {
    hide ValidLoaded, Legal;
    var pending := state.pendingRecovery.value;
    if pending.needsFreshGrant {
      return Failure(Refused);
    }
    var b := OpenBoundary(w, pending.recoveryExpiresAt);
    if b.Failure? {
      return Failure(b.error);
    }
    r := w.Replace(b.value, pending);
  }

  method MarkGrantRejected(w: Environment, state: AgentState) returns (r: Result<AgentState, Error>)
    requires w.Inv() && Holds(w, state) && Recoverable(state) && state.pendingRecovery.Some?
    requires !state.pendingRecovery.value.needsFreshGrant && GrantRejected(state.pendingRecovery.value.grant) in w.log
    modifies w
    ensures w.Inv() && old(w.log) <= w.log && IssuesOnly(w.log, |old(w.log)|, {})
    ensures r.Success? ==>
              Holds(w, r.value) && r.value.pendingRecovery == Some(state.pendingRecovery.value.(needsFreshGrant := true))
  {
    r := SaveOrReconcile(w, state.(pendingRecovery := Some(state.pendingRecovery.value.(needsFreshGrant := true))));
  }

  /** The refresh-only continuation: the Hub confirmed placement, the runtime can
      be opened, and only then is the durable refresh phase cleared. On failure
      the refresh is still owed, or only the report of its end was lost. */
  method FinishRefresh(w: Environment, c: Config, state: AgentState) returns (r: Result<Opened, Error>)
    requires w.Inv() && Holds(w, state) && state.refreshRequired
    modifies w
    ensures w.Inv() && old(w.log) <= w.log && IssuesOnly(w.log, |old(w.log)|, {}) && RegistersOnly(w.log, |old(w.log)|, {})
    ensures r.Success? ==> OpenedNow(w, c, r.value)
    ensures w.durable == old(w.durable) || w.durable == Some(state.(refreshRequired := false))
    ensures r.Success? ==> r.value.agentID == state.agentID && r.value.deviceAPIKey == state.deviceAPIKey
    ensures r.Success? ==> w.durable.value.deviceAPIKeyID == state.deviceAPIKeyID
    ensures w.log != old(w.log) <==> Finish(state.(refreshRequired := false), c, w.reading).Success?
    ensures r.Failure? ==> r.error in {Crashed, RefreshOwed}
    ensures w.crashes == old(w.crashes) + if r == Failure(Crashed) then 1 else 0
    ensures r.Success? ==> Some(r.value.assignment) == state.assignment
  {
    var next := state.(refreshRequired := false);
    var now := w.Now();
    var runtime := Finish(next, c, now);
    if runtime.Failure? {
      return Failure(RefreshOwed);
    }
    var saved := SaveOrReconcile(w, next);
    if saved.Failure? {
      return Failure(if saved.error == Crashed then Crashed else RefreshOwed);
    }
    return runtime;
  }

  method FinishRecovered(w: Environment, c: Config, state: AgentState)
    returns (r: Result<Opened, Error>, ghost answer: Option<Assignment>)
    requires w.Inv() && Holds(w, state) && state.refreshRequired
    modifies w
    ensures w.Inv() && old(w.log) <= w.log && IssuesOnly(w.log, |old(w.log)|, {})
    ensures r.Success? ==> OpenedNow(w, c, r.value)
    ensures r.Success? ==> r.value.agentID == state.agentID && r.value.deviceAPIKey == state.deviceAPIKey
    ensures r.Success? ==> w.durable.value.deviceAPIKeyID == state.deviceAPIKeyID
    // What opens is where the Hub now says, and a move that continues is saved.
    ensures r.Success? ==> answer == Some(r.value.assignment)
    ensures answer.Some? && Continues(state.assignment.value, answer.value) && state.assignment != answer ==>
              exists k :: |old(w.log)| <= k < |w.log| && w.log[k].Saved? && w.log[k].next.assignment == answer
  {
    hide Continues, RefreshContinuity;
    var current := state;
    var placement := w.Refresh();
    answer := if placement.Success? then Some(placement.value) else None;
    if placement.Failure? {
      return Failure(RefreshOwed), answer;
    }
    AcceptedIffContinues(state.assignment.value, placement.value, true);
    if !RefreshContinuity(state.assignment.value, placement.value, true) {
      return Failure(RefreshOwed), answer;
    }
    ghost var asked := |w.log|;
    if state.assignment.value != placement.value {
      AdoptionIsPermitted(w.durable.value, w.log, state, placement.value);
      var saved := SaveOrReconcile(w, state.(assignment := Some(placement.value)));
      assert w.log[asked].Saved? && w.log[asked].next.assignment == answer;
      if saved.Failure? {
        return Failure(RefreshOwed), answer;
      }
      current := saved.value;
    }
    ghost var before := w.log;
    r := FinishRefresh(w, c, current);
    assert asked < |before| ==> w.log[asked] == before[asked];
  }

  lemma AdoptionIsPermitted(d: AgentState, log: Trace, state: AgentState, placement: Assignment)
    requires LoadedAs(d, state) && state.refreshRequired
    requires ValidAssignment(placement) && Continues(state.assignment.value, placement)
    ensures ValidLoaded(state.(assignment := Some(placement))) && SaveOk(Some(d), log, state.(assignment := Some(placement)))
  {
    hide ValidAssignment, Continues;
  }

  /** The record that ends an episode: the candidate becomes the device key. */
  function Promoted(state: AgentState, keyID: string): AgentState
    requires state.pendingRecovery.Some?
  {
    var pending := state.pendingRecovery.value;
    state.(
      deviceAPIKey := pending.deviceAPIKey, deviceAPIKeyID := keyID, assignment := Some(pending.assignment),
      pendingRecovery := None, pendingIssue := None, refreshRequired := true, schemaVersion := SCHEMA_VERSION)
  }

  lemma PromotionIsPermitted(d: AgentState, log: Trace, state: AgentState, keyID: string)
    requires LoadedAs(d, state) && Recoverable(state)
    requires state.pendingRecovery.Some? && !state.pendingRecovery.value.needsFreshGrant
    requires ValidKeyID(keyID) && ReplacementConfirmed(state.pendingRecovery.value.deviceAPIKey, keyID) in log
    ensures ValidLoaded(Promoted(state, keyID)) && SaveOk(Some(d), log, Promoted(state, keyID))
  {
    assert Promotes(d, Promoted(state, keyID));
  }

  /** A record whose grant may be shown to the cell, at the price of at most
      two Hub operations: an exact replay may return a grant already stale. */
  method ObtainGrant(w: Environment, hub: Hub, credential: string, start: AgentState)
    returns (r: Result<AgentState, Error>, ghost nonces: set<string>, ghost judged: seq<(PendingRecovery, Time)>)
    requires w.Inv() && Holds(w, start) && Recoverable(start)
    modifies w
    ensures w.Inv() && old(w.log) <= w.log
    ensures IssuesOnly(w.log, |old(w.log)|, nonces) && |nonces| <= 2
    ensures r.Success? ==>
              && Holds(w, r.value) && Recoverable(r.value)
              && r.value.pendingRecovery.Some? && !r.value.pendingRecovery.value.needsFreshGrant
    ensures r.Success? && start.pendingRecovery.Some? ==>
              Episode(r.value.pendingRecovery.value) == Episode(start.pendingRecovery.value)
    // A second nonce is spent only after a grant that was dead at its reading,
    // and the grant obtained was live at its own.
    ensures |nonces| == 2 ==> judged != [] && !LiveAt(judged[0].0, judged[0].1)
    ensures r.Success? && nonces == {} ==> r.value == start && w.log == old(w.log)
    ensures r.Success? && nonces != {} ==> judged != []
    ensures judged != [] ==>
              var (p, t) := judged[|judged| - 1];
              (r.Success? <==> LiveAt(p, t)) && (r.Success? ==> r.value.pendingRecovery == Some(p))
  {
    hide ValidLoaded, SaveOk, Legal, LiveAt;
    nonces, judged := {}, [];
    if start.pendingRecovery.Some? && !start.pendingRecovery.value.needsFreshGrant {
      return Success(start), nonces, judged;
    }
    var first, used, t := IssueAndPersist(w, hub, credential, start, None);
    nonces := used;
    if first.Failure? { return Failure(first.error), nonces, judged; }
    var state := first.value.0;
    judged := [(state.pendingRecovery.value, t)];
    if state.pendingRecovery.value.needsFreshGrant {
      ghost var before := w.log;
      var again, more, u := IssueAndPersist(w, hub, credential, state, Some(first.value.1));
      IssuesJoin(before, w.log, |old(w.log)|, used, more);
      nonces := used + more;
      if again.Failure? { return Failure(again.error), nonces, judged; }
      state := again.value.0;
      judged := judged + [(state.pendingRecovery.value, u)];
      if state.pendingRecovery.value.needsFreshGrant { return Failure(RetryRequired), nonces, judged; }
    }
    return Success(state), nonces, judged;
  }

  /** The cell request of an episode with a usable grant, and its promotion. No
      Hub issue request is sent any more. */
  method CompleteAndPromote(w: Environment, c: Config, state: AgentState) returns (r: Result<Opened, Error>)
    requires w.Inv() && Holds(w, state) && Recoverable(state) && state.pendingRecovery.Some?
    modifies w
    ensures w.Inv() && old(w.log) <= w.log && IssuesOnly(w.log, |old(w.log)|, {})
    ensures r.Success? ==> OpenedNow(w, c, r.value)
    ensures r.Success? ==>
              && r.value.deviceAPIKey == state.pendingRecovery.value.deviceAPIKey
              && ReplacementConfirmed(r.value.deviceAPIKey, w.durable.value.deviceAPIKeyID) in w.log
  {
    hide ValidLoaded, SaveOk, Legal;
    var keyID := CompleteRecovery(w, state);
    ghost var answered := w.log;
    if keyID.Failure? {
      if keyID.error == GrantRefused {
        var marked := MarkGrantRejected(w, state);
        IssuesJoin(answered, w.log, |old(w.log)|, {}, {});
      }
      return Failure(keyID.error);
    }
    PromotionIsPermitted(w.durable.value, w.log, state, keyID.value);
    var promoted := SaveOrReconcile(w, Promoted(state, keyID.value));
    IssuesJoin(answered, w.log, |old(w.log)|, {}, {});
    if promoted.Failure? {
      return Failure(promoted.error);
    }
    ghost var saved := w.log;
    ghost var answer;
    r, answer := FinishRecovered(w, c, promoted.value);
    IssuesJoin(saved, w.log, |old(w.log)|, {}, {});
  }

  /** recoverAgentRuntimeLocked. One call spends at most two Hub nonces. */
  method RecoverLocked(w: Environment, c: Config, hub: Hub)
    returns (r: Result<Opened, Error>, ghost nonces: set<string>, ghost judged: seq<(PendingRecovery, Time)>)
    requires w.Inv()
    modifies w
    ensures w.Inv() && old(w.log) <= w.log
    ensures IssuesOnly(w.log, |old(w.log)|, nonces) && |nonces| <= 2
    ensures |nonces| == 2 ==> judged != [] && !LiveAt(judged[0].0, judged[0].1)
    // Nothing leaves and nothing is saved for another agent, or for a record that
    // is not a completed registration.
    ensures w.log != old(w.log) ==>
              && old(w.durable).Some?
              && var d := old(w.durable).value;
                 && c.agentID in {"", d.agentID} && d.registeredAt.Some? && d.assignment.Some?
                 && d.pendingActivation.None? && d.pendingCompletion.None?
    ensures r.Success? ==> OpenedNow(w, c, r.value)
  {
    hide ValidLoaded, Legal, LiveAt;
    nonces, judged := {}, [];
    var loaded := LoadPrepared(w);
    if loaded.Failure? { return Failure(loaded.error), nonces, judged; }
    var state := loaded.value;
    if state.registeredAt.None? || !ValidAgentID(state.agentID) || !Corroborates(c.agentID, state) ||
       state.pendingActivation.Some? || state.pendingCompletion.Some? || !Native(state) || state.assignment.None?
    {
      return Failure(Refused), nonces, judged;
    }
    if state.refreshRequired {
      var finished, answer := FinishRecovered(w, c, state);
      return finished, nonces, judged;
    }
    var now := w.Now();
    if state.pendingRecovery.Some? && state.pendingRecovery.value.needsFreshGrant &&
       now >= state.pendingRecovery.value.recoveryExpiresAt
    {
      return Failure(DeadlinePassed), nonces, judged;
    }
    if state.pendingRecovery.None? && state.pendingIssue.Some? && now >= state.pendingIssue.value.replayNotAfter {
      return Failure(DeadlinePassed), nonces, judged;
    }
    var granted;
    granted, nonces, judged := ObtainGrant(w, hub, c.credential, state);
    if granted.Failure? { return Failure(granted.error), nonces, judged; }
    ghost var before := w.log;
    r := CompleteAndPromote(w, c, granted.value);
    IssuesJoin(before, w.log, |old(w.log)|, nonces, {});
    assert nonces + {} == nonces;
  }
}
