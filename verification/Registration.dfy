/** First registration: activation at the Hub and the assigned cell, then
    completion with one device credential, and renewal of the completed
    placement (qurl/native_agent_runtime.go). */
module Registration {
  import opened Wrappers
  import opened AgentStates
  import opened LifecycleSpec
  import opened RecoveryBoundary
  import opened World
  import opened Runtime
  import opened CredentialRecovery

  /** Neither registered nor holding a completion candidate or a device key. */
  ghost predicate Enrolling(s: AgentState) {
    && s.registeredAt.None? && s.pendingCompletion.None? && s.deviceAPIKey == "" && s.deviceAPIKeyID == ""
    && (s.pendingActivation.Some? ==> s.pendingActivation.value.anchor != 0)
  }

  // --- The records the transitions write --------------------------------------

  /** A legacy activation gets the anchor its own ticket already carried. */
  function Migrated(s: AgentState, deadline: Time): AgentState
    requires s.pendingActivation.Some?
  {
    var p := s.pendingActivation.value;
    s.(pendingActivation := Some(p.(anchor := p.ticketExpiresAt, recoveryExpiresAt := deadline)), schemaVersion := SCHEMA_VERSION)
  }

  lemma MigrationIsPermitted(d: AgentState, log: Trace, s: AgentState, deadline: Time)
    requires LoadedAs(d, s) && s.pendingActivation.Some? && s.pendingActivation.value.recoveryExpiresAt == 0
    requires ValidRegistrationDeadline(s.pendingActivation.value.ticketExpiresAt, deadline, SCHEMA_VERSION)
    ensures ValidLoaded(Migrated(s, deadline)) && SaveOk(Some(d), log, Migrated(s, deadline))
  {
    var n := Migrated(s, deadline);
    assert ValidPendingActivation(n.pendingActivation.value, n);
    assert s.pendingActivation.value.anchor == 0;
  }

  /** newPendingAgentActivationWithRecoveryAnchor, validated against the record
      as it is before its schema version is raised. */
  function NewActivation(initial: Initial, s: AgentState, hostname: string, version: string, tag: string, anchor: Time)
    : Option<PendingActivation>
  {
    var deadline := RegistrationDeadline(anchor);
    if deadline.None? || s.assignment != Some(initial.assignment) then None
    else
      var pending := PendingActivation(
        initial.ticket, initial.ticketExpiresAt, anchor, deadline.value, s.agentID, s.publicKey,
        initial.assignment, initial.registration, hostname, version, tag);
      if ValidPendingActivation(pending, s) then Some(pending) else None
  }

  /** An activation made for this record, from this Hub answer, with the inputs
      of this call; a replacement keeps the anchor of what it replaces. */
  predicate MadeFor(p: PendingActivation, c: Config, tag: string, s: AgentState, initial: Initial) {
    && p.hostname == c.hostname && p.version == c.version && p.enrollmentFingerprint == tag
    && p.agentID == s.agentID && p.agentPublicKey == s.publicKey
    && p.ticket == initial.ticket && p.ticketExpiresAt == initial.ticketExpiresAt
    && p.registration == initial.registration && p.assignment == initial.assignment
    && p.anchor == (if s.pendingActivation.Some? then s.pendingActivation.value.anchor else initial.ticketExpiresAt)
    && p.recoveryExpiresAt == p.anchor + HORIZON
  }

  /** The inputs of this call are those the activation was made with. */
  predicate Resumes(c: Config, tag: string, p: PendingActivation) {
    && p.registration.keyKind in c.allowedKinds && p.hostname == c.hostname && p.version == c.version
    && p.enrollmentFingerprint == tag
  }

  /** After a crash the call that made an activation can resume it. */
  lemma MadeForResumes(d: AgentState, s: AgentState, p: PendingActivation, c: Config, tag: string, made: AgentState, initial: Initial)
    requires LoadedAs(d, s) && d.pendingActivation == Some(p)
    requires MadeFor(p, c, tag, made, initial) && initial.registration.keyKind in c.allowedKinds
    ensures s.pendingActivation.Some? && Resumes(c, tag, s.pendingActivation.value)
  {
  }

  function Activating(s: AgentState, pending: PendingActivation): AgentState {
    s.(assignment := Some(pending.assignment), pendingActivation := Some(pending), schemaVersion := SCHEMA_VERSION)
  }

  lemma ActivationIsPermitted(d: AgentState, log: Trace, s: AgentState, pending: PendingActivation)
    requires LoadedAs(d, s) && Enrolling(s)
    requires ValidPendingActivation(pending, s.(assignment := Some(pending.assignment))) && pending.anchor != 0
    requires s.pendingActivation.Some? ==>
               pending.anchor == s.pendingActivation.value.anchor && TicketExpired(s.pendingActivation.value) in log
    ensures ValidLoaded(Activating(s, pending)) && SaveOk(Some(d), log, Activating(s, pending))
    ensures Enrolling(Activating(s, pending))
  {
    assert s.schemaVersion >= REGISTRATION_RECOVERY_SCHEMA || d.pendingActivation.None?;
  }

  /** A placement without a pending activation, left by a schema older than the
      recovery fields, can never be activated again, although the same record at
      the current schema could: the forward fields are checked against the
      version the record was loaded with. */
  lemma OnlyForwardRecordsActivate(
      initial: Initial, s: AgentState, hostname: string, version: string, tag: string, anchor: Time)
    requires s.schemaVersion <= SCHEMA_VERSION
    ensures NewActivation(initial, s, hostname, version, tag, anchor).Some? <==>
            && s.schemaVersion >= REGISTRATION_RECOVERY_SCHEMA
            && NewActivation(initial, s.(schemaVersion := SCHEMA_VERSION), hostname, version, tag, anchor).Some?
  {
    var current := s.(schemaVersion := SCHEMA_VERSION);
    if NewActivation(initial, current, hostname, version, tag, anchor).Some? {
      var pending := NewActivation(initial, current, hostname, version, tag, anchor).value;
      assert s.schemaVersion >= REGISTRATION_RECOVERY_SCHEMA ==> ValidPendingActivation(pending, s);
    }
    if NewActivation(initial, s, hostname, version, tag, anchor).Some? {
      var pending := NewActivation(initial, s, hostname, version, tag, anchor).value;
      assert ValidPendingActivation(pending, current);
    }
  }

  /** transitionPendingActivation: the candidate is bound to the placement that
      accepted REG and inherits the activation's anchor and deadline. */
  function Completing(s: AgentState, candidate: string): AgentState
    requires s.pendingActivation.Some? && s.assignment.Some?
  {
    var a := s.pendingActivation.value;
    s.(
      pendingCompletion := Some(PendingCompletion(
        candidate, s.assignment.value.cellID, s.assignment.value.generation, a.anchor, a.recoveryExpiresAt)),
      enrollmentKind := a.registration.keyKind, pendingActivation := None, schemaVersion := SCHEMA_VERSION)
  }

  lemma CompletingIsPermitted(d: AgentState, log: Trace, s: AgentState, candidate: string)
    requires LoadedAs(d, s) && Enrolling(s) && s.pendingActivation.Some? && ValidDeviceKey(candidate)
    ensures ValidLoaded(Completing(s, candidate)) && SaveOk(Some(d), log, Completing(s, candidate))
  {
    var n := Completing(s, candidate);
    assert s.schemaVersion >= REGISTRATION_RECOVERY_SCHEMA;
    assert ValidPendingCompletion(n.pendingCompletion.value, n);
  }

  function Registered(s: AgentState, keyID: string, now: Time): AgentState
    requires s.pendingCompletion.Some?
  {
    s.(
      deviceAPIKey := s.pendingCompletion.value.deviceAPIKey, deviceAPIKeyID := keyID, pendingCompletion := None,
      registeredAt := Some(now), schemaVersion := SCHEMA_VERSION)
  }

  lemma RegisteredIsPermitted(d: AgentState, log: Trace, s: AgentState, keyID: string, now: Time)
    requires LoadedAs(d, s) && s.pendingCompletion.Some? && ValidKeyID(keyID)
    requires CompletionConfirmed(s.pendingCompletion.value.deviceAPIKey, keyID) in log
    ensures ValidLoaded(Registered(s, keyID, now)) && SaveOk(Some(d), log, Registered(s, keyID, now))
  {
    assert ValidPendingCompletion(s.pendingCompletion.value, s);
  }

  lemma PlacementIsPermitted(d: AgentState, log: Trace, s: AgentState, placement: Assignment, adopt: bool)
    requires LoadedAs(d, s) && s.registeredAt.Some? && s.assignment.Some?
    requires s.pendingRecovery.None? && s.pendingIssue.None?
    requires ValidAssignment(placement) && RefreshContinuity(s.assignment.value, placement, adopt)
    ensures ValidLoaded(s.(assignment := Some(placement))) && SaveOk(Some(d), log, s.(assignment := Some(placement)))
  {
  }

  // --- Transitions ------------------------------------------------------------

  /** A save that is not reconciled: any failure ends the call. */
  method Persist(w: Environment, next: AgentState) returns (r: Result<AgentState, Error>)
    requires w.Inv() && ValidLoaded(next) && SaveOk(w.durable, w.log, next)
    modifies w`durable, w`log, w`crashes
    ensures w.Inv() && old(w.log) < w.log && RegistersOnly(w.log, |old(w.log)|, {})
    ensures w.durable == old(w.durable) || w.durable == Some(next)
    ensures r.Success? ==> r.value == next && Holds(w, next)
    ensures r.Failure? ==> r.error in {Crashed, NotPersisted}
    ensures w.crashes == old(w.crashes) + if r == Failure(Crashed) then 1 else 0
  {
    var saved := w.Save(next);
    return if saved.Success? then Success(next) else Failure(if saved.error == Crashed then Crashed else NotPersisted);
  }

  /** preparePendingRecovery. */
  method PreparePending(w: Environment, s: AgentState) returns (r: Result<AgentState, Error>)
    requires w.Inv()
    requires if w.durable.Some? then Holds(w, s) else !Native(s)
    modifies w
    ensures w.Inv() && old(w.log) <= w.log && (w.durable.None? <==> old(w.durable).None?)
    ensures RegistersOnly(w.log, |old(w.log)|, {}) && (s.pendingActivation.None? ==> w.log == old(w.log))
    ensures r.Success? ==>
              && (w.durable.Some? ==> Holds(w, r.value))
              && (r.value.pendingActivation.Some? ==> r.value.pendingActivation.value.anchor != 0)
              && (r.value.pendingCompletion.Some? ==> r.value.pendingCompletion.value.recoveryExpiresAt != 0)
    // A legacy activation takes its own ticket's expiry for an anchor; nothing else changes.
    ensures r.Success? && s.pendingActivation.Some? && s.pendingActivation.value.recoveryExpiresAt == 0 ==>
              var p := s.pendingActivation.value;
              r.value == s.(
                pendingActivation := Some(p.(anchor := p.ticketExpiresAt, recoveryExpiresAt := p.ticketExpiresAt + HORIZON)),
                schemaVersion := SCHEMA_VERSION)
    ensures r.Success? && (s.pendingActivation.None? || s.pendingActivation.value.recoveryExpiresAt != 0) ==> r.value == s
  {
    hide ValidLoaded, Legal, SavesLoad, SaveOk, ValidRegistrationDeadline, Boundary.Permitted;
    var state := s;
    if s.pendingActivation.Some? && w.durable.Some? {
      DeadlineHasAnchor(s);
    }
    if state.pendingActivation.Some? && state.pendingActivation.value.recoveryExpiresAt == 0 {
      var deadline := RegistrationDeadline(state.pendingActivation.value.ticketExpiresAt);
      if deadline.None? ||
         !ValidRegistrationDeadline(state.pendingActivation.value.ticketExpiresAt, deadline.value, SCHEMA_VERSION)
      {
        return Failure(Refused);
      }
      MigrationIsPermitted(w.durable.value, w.log, state, deadline.value);
      state :- Persist(w, Migrated(state, deadline.value));
    }
    if state.pendingCompletion.Some? && state.pendingCompletion.value.recoveryExpiresAt == 0 {
      return Failure(MigrationRequired);
    }
    if state.pendingActivation.Some? {
      var _ :- OpenBoundary(w, state.pendingActivation.value.recoveryExpiresAt);
    } else if state.pendingCompletion.Some? {
      var _ :- OpenBoundary(w, state.pendingCompletion.value.recoveryExpiresAt);
    }
    return Success(state);
  }

  /** An account enrolment takes one passcode, any other none. */
  function PasscodesFor(initial: Initial): nat {
    if initial.registration.keyKind == "account" then 1 else 0
  }

  /** The part of persistFreshPendingActivation that needs others: an answer of
      the Hub of an allowed kind, behind the fence of the activation it is to
      replace, and the passcode an account takes. */
  method FetchAllowed(w: Environment, c: Config, s: AgentState) returns (r: Result<(Initial, Boundary?), Error>)
    requires w.Inv() && Holds(w, s)
    modifies w
    ensures w.Inv() && old(w.log) <= w.log && w.durable == old(w.durable) && RegistersOnly(w.log, |old(w.log)|, {})
    ensures r.Success? ==>
              && var (answer, b) := r.value;
              && ValidInitial(answer) && answer.registration.keyKind in c.allowedKinds
              && (b != null <==> s.pendingActivation.Some?) && (b != null ==> fresh(b) && b.Valid())
              && w.asked == old(w.asked) + PasscodesFor(answer) && w.given == old(w.given) + PasscodesFor(answer)
  {
    hide ValidLoaded, Legal, SavesLoad, SaveOk, ValidInitial, RegistersOnly;
    hide Boundary.Permitted, ExpiredAfter, Step, VerdictAt;
    StartsEmpty(w.log);
    var b: Boundary? := null;
    if s.pendingActivation.Some? {
      b :- OpenBoundary(w, s.pendingActivation.value.recoveryExpiresAt);
    }
    if c.hub.None? {
      return Failure(Refused);
    }
    var answer :- w.FetchInitial(b);
    if b != null {
      var _ :- CheckBoundary(w, b);
    }
    if answer.registration.keyKind !in c.allowedKinds {
      return Failure(Refused);
    }
    if answer.registration.keyKind == "account" {
      var given := w.AskPasscode();
      if !given {
        return Failure(Refused);
      }
    }
    return Success((answer, b));
  }

  /** persistFreshPendingActivation: a replacement needs the cell's verdict on the
      ticket it replaces, and keeps its anchor. */
  method PersistFresh(w: Environment, c: Config, credential: string, s: AgentState)
    returns (r: Result<AgentState, Error>, ghost initial: Initial)
    requires w.Inv() && Holds(w, s) && Enrolling(s)
    requires s.pendingActivation.Some? ==> TicketExpired(s.pendingActivation.value) in w.log
    modifies w
    ensures w.Inv() && old(w.log) <= w.log && RegistersOnly(w.log, |old(w.log)|, {})
    ensures r.Success? ==>
              && Holds(w, r.value) && Enrolling(r.value) && r.value.pendingActivation.Some?
              && MadeFor(r.value.pendingActivation.value, c, w.fingerprint(credential), s, initial)
              && Resumes(c, w.fingerprint(credential), r.value.pendingActivation.value) && ValidInitial(initial)
              && r.value == s.(
                   assignment := Some(initial.assignment), pendingActivation := r.value.pendingActivation,
                   schemaVersion := SCHEMA_VERSION)
    ensures r.Success? && s.pendingActivation.Some? ==> RegistrationAnchor(r.value) == RegistrationAnchor(s)
    ensures r.Success? ==> w.asked == old(w.asked) + PasscodesFor(initial) && w.given == old(w.given) + PasscodesFor(initial)
  {
    hide ValidLoaded, Legal, SavesLoad, SaveOk, NewActivation, ValidPendingActivation, ValidInitial, PasscodesFor;
    hide Boundary.Permitted, ExpiredAfter, Step, VerdictAt, MadeFor, Resumes, Activating, RegistrationAnchor;
    initial := *;
    var fetched := FetchAllowed(w, c, s);
    if fetched.Failure? { return Failure(fetched.error), initial; }
    var (answer, b) := fetched.value;
    initial := answer;
    var anchor := if b != null then s.pendingActivation.value.anchor else answer.ticketExpiresAt;
    var placed := s.(assignment := Some(answer.assignment));
    var pending := NewActivation(answer, placed, c.hostname, c.version, w.fingerprint(credential), anchor);
    if pending.None? {
      return Failure(Refused), initial;
    }
    if b != null {
      var live := CheckBoundary(w, b);
      if live.Failure? { return Failure(live.error), initial; }
    }
    FreshIsPermitted(w.durable.value, w.log, s, answer, c, w.fingerprint(credential), anchor);
    ghost var before := w.log;
    r := Persist(w, Activating(s, pending.value));
    NothingJoins(before, w.log, |old(w.log)|);
  }

  lemma FreshIsPermitted(
      d: AgentState, log: Trace, s: AgentState, initial: Initial, c: Config, tag: string, anchor: Time)
    requires LoadedAs(d, s) && Enrolling(s) && ValidInitial(initial) && initial.registration.keyKind in c.allowedKinds
    requires anchor == if s.pendingActivation.Some? then s.pendingActivation.value.anchor else initial.ticketExpiresAt
    requires s.pendingActivation.Some? ==> TicketExpired(s.pendingActivation.value) in log
    requires NewActivation(initial, s.(assignment := Some(initial.assignment)), c.hostname, c.version, tag, anchor).Some?
    ensures var pending := NewActivation(initial, s.(assignment := Some(initial.assignment)), c.hostname, c.version, tag, anchor).value;
            var next := Activating(s, pending);
            && ValidLoaded(next) && SaveOk(Some(d), log, next) && LoadedAs(next, next) && Enrolling(next)
            && next == s.(
                 assignment := Some(initial.assignment), pendingActivation := Some(pending), schemaVersion := SCHEMA_VERSION)
            && MadeFor(pending, c, tag, s, initial) && Resumes(c, tag, pending)
            && (s.pendingActivation.Some? ==> RegistrationAnchor(next) == RegistrationAnchor(s))
  {
    hide SaveOk;
    var pending := NewActivation(initial, s.(assignment := Some(initial.assignment)), c.hostname, c.version, tag, anchor).value;
    ActivationIsPermitted(d, log, s, pending);
    if s.pendingActivation.Some? {
      AnchorIsKept(s, pending);
    }
  }

  lemma AnchorIsKept(s: AgentState, pending: PendingActivation)
    requires ValidLoaded(s) && Enrolling(s) && s.pendingActivation.Some?
    requires pending.anchor == s.pendingActivation.value.anchor
    requires RegistrationDeadline(pending.anchor) == Some(pending.recoveryExpiresAt)
    ensures RegistrationAnchor(Activating(s, pending)) == RegistrationAnchor(s)
  {
  }

  /** pendingRegistrationCredential: only the same inputs resume an activation. */
  method ResumeCredential(w: Environment, c: Config, credential: string, p: PendingActivation) returns (r: Result<(), Error>)
    modifies w`asked, w`given
    // A passcode is asked for only once everything else fits.
    ensures w.asked == old(w.asked) +
              if Resumes(c, w.fingerprint(credential), p) && p.registration.keyKind == "account" then 1 else 0
    ensures r.Success? <==>
              Resumes(c, w.fingerprint(credential), p) && w.given - old(w.given) == w.asked - old(w.asked)
  {
    if p.registration.keyKind !in c.allowedKinds || c.hostname != p.hostname || c.version != p.version ||
       w.fingerprint(credential) != p.enrollmentFingerprint
    {
      return Failure(Refused);
    }
    if p.registration.keyKind == "account" {
      var given := w.AskPasscode();
      return if given then Success(()) else Failure(Refused);
    }
    return Success(());
  }

  /** registerPendingActivation. */
  method RegisterPending(w: Environment, s: AgentState) returns (r: Result<(), Error>)
    requires w.Inv() && Holds(w, s) && s.pendingActivation.Some?
    modifies w
    ensures w.Inv() && old(w.log) <= w.log && w.durable == old(w.durable)
    ensures RegistersOnly(w.log, |old(w.log)|, {s.pendingActivation.value})
    ensures r == Failure(TicketRefused) ==> TicketExpired(s.pendingActivation.value) in w.log
  {
    hide ValidLoaded, Legal;
    var b :- OpenBoundary(w, s.pendingActivation.value.recoveryExpiresAt);
    var _ :- w.Register(b, s.pendingActivation.value);
    r := CheckBoundary(w, b);
  }

  method Transition(w: Environment, s: AgentState) returns (r: Result<AgentState, Error>)
    requires w.Inv() && Holds(w, s) && Enrolling(s) && s.pendingActivation.Some? && s.assignment.Some?
    modifies w
    ensures w.Inv() && old(w.log) <= w.log && RegistersOnly(w.log, |old(w.log)|, {})
    ensures r.Success? ==>
              && Holds(w, r.value) && r.value.pendingCompletion.Some? && RegistrationAnchor(r.value) == RegistrationAnchor(s)
              && var (a, p, q) := (s.assignment.value, s.pendingActivation.value, r.value.pendingCompletion.value);
                 && ValidDeviceKey(q.deviceAPIKey)
                 && q == PendingCompletion(q.deviceAPIKey, a.cellID, a.generation, p.anchor, p.recoveryExpiresAt)
                 && r.value == s.(
                      pendingCompletion := Some(q), pendingActivation := None,
                      enrollmentKind := p.registration.keyKind, schemaVersion := SCHEMA_VERSION)
  {
    hide ValidLoaded, Legal, SaveOk;
    var candidate :- GenerateDeviceKey();
    CompletingIsPermitted(w.durable.value, w.log, s, candidate);
    r := Persist(w, Completing(s, candidate));
  }

  /** completePending. */
  method CompletePending(w: Environment, s: AgentState) returns (r: Result<AgentState, Error>)
    requires w.Inv() && Holds(w, s) && s.pendingCompletion.Some? && s.assignment.Some?
    modifies w
    ensures w.Inv() && old(w.log) <= w.log && RegistersOnly(w.log, |old(w.log)|, {})
    ensures r.Success? ==>
              && Holds(w, r.value) && r.value.registeredAt.Some? && r.value.assignment == s.assignment
              && r.value == s.(
                   deviceAPIKey := s.pendingCompletion.value.deviceAPIKey, deviceAPIKeyID := r.value.deviceAPIKeyID,
                   pendingCompletion := None, registeredAt := Some(w.reading), schemaVersion := SCHEMA_VERSION)
              && CompletionConfirmed(r.value.deviceAPIKey, r.value.deviceAPIKeyID) in w.log
              && Committed(w.log) == Some(r.value.deviceAPIKey)
  {
    hide ValidLoaded, Legal, SaveOk;
    var pending := s.pendingCompletion.value;
    var b :- OpenBoundary(w, pending.recoveryExpiresAt);
    var keyID :- w.Complete(b, pending.deviceAPIKey, s.assignment.value);
    var now := w.Now();
    RegisteredIsPermitted(w.durable.value, w.log, s, keyID, now);
    ghost var confirmed := w.log;
    r := Persist(w, Registered(s, keyID, now));
    assert w.log[..|confirmed|] == confirmed;
    CommittedIsStable(w.log, |confirmed|);
  }

  /** After an authenticated RAK: save the candidate, complete, open. */
  method CompleteActivation(w: Environment, c: Config, s: AgentState) returns (r: Result<Opened, Error>)
    requires w.Inv() && Holds(w, s) && Enrolling(s) && s.pendingActivation.Some?
    modifies w
    ensures w.Inv() && old(w.log) <= w.log && RegistersOnly(w.log, |old(w.log)|, {})
    ensures r.Success? ==> OpenedNow(w, c, r.value)
  {
    hide ValidLoaded, Legal, SaveOk;
    PendingHasPlacement(s);
    var completing :- Transition(w, s);
    PendingHasPlacement(completing);
    var completed :- CompletePending(w, completing);
    r := OpenCompleted(w, c, completed);
  }

  /** The activation an attempt registers: the durable one, resumed with the
      inputs it was made with, or a fresh one. */
  method ReadyActivation(w: Environment, c: Config, credential: string, start: AgentState, forceFresh: bool)
    returns (r: Result<(AgentState, Boundary), Error>, ghost initial: Option<Initial>)
    requires w.Inv() && Holds(w, start) && Enrolling(start)
    requires start.pendingActivation.Some? ==> !forceFresh || TicketExpired(start.pendingActivation.value) in w.log
    requires forceFresh || start.pendingActivation.Some?
    modifies w
    ensures w.Inv() && old(w.log) <= w.log && RegistersOnly(w.log, |old(w.log)|, {})
    ensures !forceFresh ==> w.log == old(w.log)
    ensures r.Success? ==>
              && var (state, b) := r.value;
              && Holds(w, state) && Enrolling(state) && state.pendingActivation.Some? && (!forceFresh ==> state == start)
              && fresh(b) && b.Valid() && b.deadline == state.pendingActivation.value.recoveryExpiresAt
              && Resumes(c, w.fingerprint(credential), state.pendingActivation.value)
              && (forceFresh ==>
                    initial.Some? &&
                    MadeFor(state.pendingActivation.value, c, w.fingerprint(credential), start, initial.value))
  {
    hide ValidLoaded, Legal, SavesLoad, SaveOk, LifecycleSpec.Fence, MadeFor, Resumes, Boundary.Permitted, ValidInitial;
    initial := None;
    if forceFresh {
      ghost var answer;
      var persisted;
      persisted, answer := PersistFresh(w, c, credential, start);
      initial := Some(answer);
      if persisted.Failure? { return Failure(persisted.error), initial; }
      var state := persisted.value;
      var begun := OpenBoundary(w, state.pendingActivation.value.recoveryExpiresAt);
      if begun.Failure? { return Failure(begun.error), initial; }
      var live := CheckBoundary(w, begun.value);
      return if live.Failure? then Failure(live.error) else Success((state, begun.value)), initial;
    }
    var begun := OpenBoundary(w, start.pendingActivation.value.recoveryExpiresAt);
    if begun.Failure? { return Failure(begun.error), initial; }
    var resumed := ResumeCredential(w, c, credential, start.pendingActivation.value);
    var live := CheckBoundary(w, begun.value);
    if live.Failure? { return Failure(live.error), initial; }
    return if resumed.Failure? then Failure(resumed.error) else Success((start, begun.value)), initial;
  }

  /** One attempt. A verdict is the cell's, that the activation it registered
      was not committed. */
  method Attempt(w: Environment, c: Config, credential: string, start: AgentState, forceFresh: bool)
    returns (r: Result<Opened, Error>, state: AgentState, verdict: bool, ghost used: set<PendingActivation>)
    requires w.Inv() && Holds(w, start) && Enrolling(start)
    requires start.pendingActivation.Some? ==> !forceFresh || TicketExpired(start.pendingActivation.value) in w.log
    requires forceFresh || start.pendingActivation.Some?
    modifies w
    ensures w.Inv() && old(w.log) <= w.log && RegistersOnly(w.log, |old(w.log)|, used) && |used| <= 1
    ensures forall p <- used :: Resumes(c, w.fingerprint(credential), p)
    ensures r.Success? ==> OpenedNow(w, c, r.value)
    ensures verdict ==>
              && r.Failure? && Holds(w, state) && Enrolling(state) && state.pendingActivation.Some?
              && used == {state.pendingActivation.value} && TicketExpired(state.pendingActivation.value) in w.log
  {
    hide ValidLoaded, Legal, SavesLoad, SaveOk, LifecycleSpec.Fence, Enrolling, RegistersOnly, LoadedAs, OpenedFrom;
    hide Boundary.Permitted, ExpiredAfter, Resumes, MadeFor;
    state, verdict, used := start, false, {};
    var ready, _ := ReadyActivation(w, c, credential, start, forceFresh);
    if ready.Failure? { return Failure(ready.error), state, false, used; }
    state := ready.value.0;
    var b := ready.value.1;
    used := {state.pendingActivation.value};
    ghost var before := w.log;
    var registered := RegisterPending(w, state);
    RegistersJoin(before, w.log, |old(w.log)|, {}, used);
    assert {} + used == used;
    var live := CheckBoundary(w, b);
    if live.Failure? { return Failure(live.error), state, false, used; }
    if registered.Failure? {
      return Failure(registered.error), state, registered.error == TicketRefused, used;
    }
    before := w.log;
    r := CompleteActivation(w, c, state);
    RegistersJoin(before, w.log, |old(w.log)|, used, {});
    assert used + {} == used;
  }

  /** activateAndComplete: at most one replacement, so REG for at most two
      activations, and a second one only after the cell's verdict that an earlier
      one was not committed. */
  method ActivateAndComplete(w: Environment, c: Config, credential: string, start: AgentState)
    returns (r: Result<Opened, Error>, ghost activations: set<PendingActivation>, ghost verdicts: seq<bool>)
    requires w.Inv() && Holds(w, start) && Enrolling(start)
    modifies w
    ensures w.Inv() && old(w.log) <= w.log
    ensures RegistersOnly(w.log, |old(w.log)|, activations) && |activations| <= 2
    ensures forall p <- activations :: Resumes(c, w.fingerprint(credential), p)
    ensures |activations| == 2 ==> exists p :: p in activations && TicketExpired(p) in w.log
    // A second attempt is made if and only if the first ended in that verdict.
    ensures |verdicts| in {1, 2} && (|verdicts| == 2 <==> verdicts[0]) && (r.Success? ==> !verdicts[|verdicts| - 1])
    ensures r.Success? ==> OpenedNow(w, c, r.value)
  {
    hide ValidLoaded, Legal, SaveOk, Enrolling, RegistersOnly, Resumes;
    activations, verdicts := {}, [];
    StartsEmpty(w.log);
    var state := start;
    var forceFresh := state.pendingActivation.None?;
    var attempt := 0;
    while attempt < 2
      invariant w.Inv() && old(w.log) <= w.log && Holds(w, state) && Enrolling(state)
      invariant RegistersOnly(w.log, |old(w.log)|, activations) && |activations| <= attempt
      invariant forall p <- activations :: Resumes(c, w.fingerprint(credential), p)
      invariant forceFresh || state.pendingActivation.Some?
      invariant attempt > 0 ==> state.pendingActivation.Some? && state.pendingActivation.value in activations
      invariant state.pendingActivation.Some? && forceFresh ==> TicketExpired(state.pendingActivation.value) in w.log
      invariant attempt > 0 ==> forceFresh
      invariant verdicts == if attempt == 0 then [] else [true]
      invariant 0 <= attempt <= 1
    {
      ghost var before, earlier := w.log, state.pendingActivation;
      var verdict;
      ghost var used;
      r, state, verdict, used := Attempt(w, c, credential, state, forceFresh);
      RegistersJoin(before, w.log, |old(w.log)|, activations, used);
      activations := activations + used;
      verdicts := verdicts + [verdict];
      assert attempt > 0 ==> earlier.value in activations && TicketExpired(earlier.value) in w.log;
      if r.Success? || attempt != 0 || !verdict {
        return;
      }
      forceFresh := true;
      attempt := attempt + 1;
    }
    return Failure(Refused), activations, verdicts;
  }

  lemma StartsEmpty(log: Trace)
    ensures RegistersOnly(log, |log|, {})
  {
  }

  lemma DeadlineHasAnchor(s: AgentState)
    requires ValidLoaded(s) && s.pendingActivation.Some?
    ensures s.pendingActivation.value.recoveryExpiresAt != 0 ==> s.pendingActivation.value.anchor != 0
    ensures s.pendingActivation.value.ticketExpiresAt != 0
  {
  }

  lemma PendingHasPlacement(s: AgentState)
    requires ValidLoaded(s) && (s.pendingActivation.Some? || s.pendingCompletion.Some?)
    ensures s.assignment.Some?
  {
  }

  lemma NothingElsePending(s: AgentState)
    requires ValidLoaded(s) && s.registeredAt.Some?
    ensures s.pendingActivation.None? && s.pendingCompletion.None?
    ensures s.refreshRequired ==> s.pendingRecovery.None? && s.pendingIssue.None?
  {
  }

  /** The Hub's current placement, saved when it differs and continues. */
  method RefreshPlacement(w: Environment, c: Config, s: AgentState)
    returns (r: Result<AgentState, Error>, ghost answer: Option<Assignment>)
    requires w.Inv() && Holds(w, s) && s.registeredAt.Some? && s.assignment.Some?
    requires s.pendingRecovery.None? && s.pendingIssue.None?
    modifies w
    ensures w.Inv() && old(w.log) <= w.log && RegistersOnly(w.log, |old(w.log)|, {})
    ensures r.Success? ==>
              && Holds(w, r.value) && answer.Some? && r.value == s.(assignment := answer)
              && Accepts(c, s.assignment.value, answer.value)
    ensures r.Success? ==> old(w.log) < w.log
    ensures answer.Some? ==> (r == Failure(Reassigned) <==> !Accepts(c, s.assignment.value, answer.value))
  {
    hide Legal, SavesLoad, SaveOk, ValidLoaded, ValidAssignment, RefreshContinuity, Continues;
    NothingElsePending(s);
    answer := None;
    var placed := w.Refresh();
    if placed.Failure? {
      return Failure(placed.error), answer;
    }
    var placement := placed.value;
    answer := Some(placement);
    AcceptedIffContinues(s.assignment.value, placement, !c.pinAssignment);
    if !RefreshContinuity(s.assignment.value, placement, !c.pinAssignment) {
      return Failure(Reassigned), answer;
    }
    if s.assignment.value == placement {
      return Success(s), answer;
    }
    PlacementIsPermitted(w.durable.value, w.log, s, placement, !c.pinAssignment);
    r := Persist(w, s.(assignment := Some(placement)));
  }

  /** A placement that continues the old one and, when pinned, stays where it is. */
  predicate Accepts(c: Config, previous: Assignment, current: Assignment) {
    && Continues(previous, current)
    && (c.pinAssignment ==> current.cellID == previous.cellID && current.generation == previous.generation)
  }

  /** renewCompletedAssignment. */
  method RenewCompleted(w: Environment, c: Config, s: AgentState) returns (r: Result<Opened, Error>)
    requires w.Inv() && Holds(w, s)
    modifies w
    ensures w.Inv() && old(w.log) <= w.log && RegistersOnly(w.log, |old(w.log)|, {})
    ensures w.log != old(w.log) ==> c.agentID in {"", s.agentID} && s.registeredAt.Some? && s.assignment.Some?
    ensures r.Success? ==> OpenedNow(w, c, r.value)
  {
    hide Legal, SavesLoad, SaveOk, ValidLoaded, ValidDeviceKey, RefreshContinuity;
    if s.assignment.None? || Blank(s.agentID) || s.registeredAt.None? || !Corroborates(c.agentID, s) {
      return Failure(Refused);
    }
    var fault := if s.refreshRequired then CredentialMaterialFault(s) else CredentialFault(s);
    if fault.Some? {
      return Failure(fault.value);
    }
    NothingElsePending(s);
    var placed, _ := RefreshPlacement(w, c, s);
    if placed.Failure? { return Failure(placed.error); }
    var state := placed.value;
    if s.refreshRequired {
      r := FinishRefresh(w, c, state);
      return;
    }
    r := OpenCompleted(w, c, state);
  }

  /** loadOrCreateAgentState. */
  method LoadOrCreate(w: Environment) returns (r: Result<AgentState, Error>)
    requires w.Inv()
    ensures r.Success? ==>
              if w.durable.Some? then Holds(w, r.value)
              else r.value == FreshState(r.value.privateKey, r.value.publicKey)
  {
    var loaded :- w.Load();
    if loaded.None? {
      var privateKey: string := *;
      var derived := w.derivePublicKey(privateKey);
      return if derived.Some? then Success(FreshState(privateKey, derived.value)) else Failure(Refused);
    }
    r := LoadPrepared(w);
  }

  /** registerLocked: whatever it registers was made with, and can be resumed
      with, the inputs of this very call. */
  method RegisterLocked(w: Environment, c: Config)
    returns (r: Result<Opened, Error>, ghost activations: set<PendingActivation>, ghost credential: string)
    requires w.Inv()
    modifies w
    ensures w.Inv() && old(w.log) <= w.log
    ensures RegistersOnly(w.log, |old(w.log)|, activations) && |activations| <= 2
    ensures forall p <- activations :: Resumes(c, w.fingerprint(credential), p)
    ensures !c.lazyCredential ==> credential == c.credential
    ensures activations != {} ==> c.lazyCredential || c.credentialUsable
    // No identity is left behind by a call that could not have enrolled it.
    ensures w.log != old(w.log) && old(w.durable).None? ==>
              c.canEnroll && c.hub.Some? && (c.lazyCredential || c.credentialUsable)
    ensures w.log != old(w.log) && !c.canEnroll ==>
              && old(w.durable).Some?
              && var d := old(w.durable).value; d.registeredAt.Some? || d.pendingActivation.Some? || d.pendingCompletion.Some?
    // Nothing leaves and nothing is saved for another agent than the one stored.
    ensures w.log != old(w.log) && old(w.durable).Some? ==>
              c.agentID in {"", old(w.durable).value.agentID} || old(w.durable).value.agentID == ""
    ensures r.Success? ==> OpenedNow(w, c, r.value)
  {
    hide Legal, ValidLoaded, SaveOk, RegistersOnly, Resumes, Enrolling;
    activations, credential := {}, c.credential;
    StartsEmpty(w.log);
    var loaded := LoadOrCreate(w);
    if loaded.Failure? { return Failure(loaded.error), activations, credential; }
    var state := loaded.value;
    if state.registeredAt.Some? {
      if state.refreshRequired {
        return Failure(RefreshOwed), activations, credential;
      }
      var now := w.Now();
      r := RenewOrOpen(w, c, state, now);
      return;
    }
    if state.pendingActivation.None? && state.pendingCompletion.None? && !c.canEnroll {
      return Failure(Refused), activations, credential;
    }
    if c.otpMissing || state.deviceAPIKey != "" || state.deviceAPIKeyID != "" {
      return Failure(Refused), activations, credential;
    }
    r, activations, credential := FinishEnrolling(w, c, state);
  }

  /** The part of registerLocked after its checks of an incomplete record. */
  method FinishEnrolling(w: Environment, c: Config, start: AgentState)
    returns (r: Result<Opened, Error>, ghost activations: set<PendingActivation>, ghost credential: string)
    requires w.Inv() && (if w.durable.Some? then Holds(w, start) else start == FreshState(start.privateKey, start.publicKey))
    requires start.registeredAt.None? && start.deviceAPIKey == "" && start.deviceAPIKeyID == ""
    modifies w
    ensures w.Inv() && old(w.log) <= w.log
    ensures RegistersOnly(w.log, |old(w.log)|, activations) && |activations| <= 2
    ensures forall p <- activations :: Resumes(c, w.fingerprint(credential), p)
    ensures !c.lazyCredential ==> credential == c.credential
    ensures activations != {} ==> c.lazyCredential || c.credentialUsable
    ensures w.log != old(w.log) && old(w.durable).None? ==> c.hub.Some? && (c.lazyCredential || c.credentialUsable)
    ensures w.log != old(w.log) ==> c.agentID in {"", start.agentID} || start.agentID == ""
    ensures r.Success? ==> OpenedNow(w, c, r.value)
  {
    hide Legal, ValidLoaded, SaveOk, RegistersOnly, Resumes;
    activations, credential := {}, c.credential;
    StartsEmpty(w.log);
    var native := Native(start);
    if native && !Corroborates(c.agentID, start) {
      return Failure(Refused), activations, credential;
    }
    var prepared := PreparePending(w, start);
    if prepared.Failure? { return Failure(prepared.error), activations, credential; }
    var state := prepared.value;
    ghost var before := w.log;
    if state.pendingCompletion.Some? {
      r := CompleteAndOpen(w, c, state);
      NothingJoins(before, w.log, |old(w.log)|);
      return;
    }
    if !c.lazyCredential && !c.credentialUsable {
      return Failure(Refused), activations, credential;
    }
    if state.pendingActivation.None? && c.hub.None? {
      return Failure(Refused), activations, credential;
    }
    if !native {
      var named := PersistIdentity(w, c, state);
      NothingJoins(before, w.log, |old(w.log)|);
      if named.Failure? { return Failure(named.error), activations, credential; }
      state := named.value;
      before := w.log;
    }
    var resolved := c.credential;
    if c.lazyCredential {
      var provided: string := *;
      var usable: bool := *;
      if !usable {
        return Failure(Refused), activations, credential;
      }
      resolved := provided;
    }
    credential := resolved;
    ghost var verdicts;
    r, activations, verdicts := ActivateAndComplete(w, c, resolved, state);
    RegistersJoin(before, w.log, |old(w.log)|, {}, activations);
    assert {} + activations == activations;
  }

  /** A durable candidate: complete it, then open or renew on a new reading. */
  method CompleteAndOpen(w: Environment, c: Config, s: AgentState) returns (r: Result<Opened, Error>)
    requires w.Inv() && Holds(w, s) && s.pendingCompletion.Some?
    modifies w
    ensures w.Inv() && old(w.log) <= w.log && RegistersOnly(w.log, |old(w.log)|, {})
    ensures r.Success? ==> OpenedNow(w, c, r.value)
  {
    hide Legal, ValidLoaded, SaveOk, RegistersOnly;
    PendingHasPlacement(s);
    var completed :- CompletePending(w, s);
    ghost var before := w.log;
    var now := w.Now();
    r := RenewOrOpen(w, c, completed, now);
    NothingJoins(before, w.log, |old(w.log)|);
  }

  /** The completed-state tail, on the reading of the clock its caller took: a
      live lease opens without any request, an expired one is renewed first. What
      opens has a live lease. */
  method RenewOrOpen(w: Environment, c: Config, s: AgentState, now: Time) returns (r: Result<Opened, Error>)
    requires w.Inv() && Holds(w, s) && now == w.reading
    modifies w
    ensures w.Inv() && old(w.log) <= w.log && RegistersOnly(w.log, |old(w.log)|, {})
    ensures s.assignment.None? || now < s.assignment.value.leaseExpiresAt ==> w.log == old(w.log) && w.durable == old(w.durable)
    ensures w.log != old(w.log) ==> c.agentID in {"", s.agentID} && s.registeredAt.Some?
    ensures r.Success? ==> OpenedNow(w, c, r.value)
  {
    if s.assignment.Some? && LeaseExpired(s.assignment.value, now) {
      if c.hub.None? {
        return Failure(Refused);
      }
      r := RenewCompleted(w, c, s);
      return;
    }
    r := OpenCompleted(w, c, s);
  }

  /** The first save of a fresh enrolment: a stable identity and nothing else. */
  method PersistIdentity(w: Environment, c: Config, s: AgentState) returns (r: Result<AgentState, Error>)
    requires w.Inv() && !Native(s) && s.registeredAt.None? && s.deviceAPIKey == ""
    requires if w.durable.Some? then Holds(w, s) else s == FreshState(s.privateKey, s.publicKey)
    modifies w
    ensures w.Inv() && old(w.log) <= w.log && RegistersOnly(w.log, |old(w.log)|, {})
    ensures w.log != old(w.log) ==> c.agentID in {"", s.agentID} || s.agentID == ""
    ensures r.Success? ==>
              && Holds(w, r.value) && Enrolling(r.value)
              && r.value == s.(agentID := r.value.agentID, schemaVersion := SCHEMA_VERSION)
              && (c.agentID != "" ==> r.value.agentID == c.agentID)
              && (c.agentID == "" && s.agentID != "" ==> r.value.agentID == s.agentID)
  {
    if !Corroborates(c.agentID, s) {
      return Failure(Refused);
    }
    var generated: string := *;
    var agentID := if c.agentID != "" then c.agentID else if s.agentID != "" then s.agentID else generated;
    r := Persist(w, s.(agentID := agentID, schemaVersion := SCHEMA_VERSION));
  }

  const SESSION_RENEWAL_LEAD: int := 5 * 60 * SECOND

  /** renewSessionAssignment: a held binding renews its own lease. */
  method RenewSession(w: Environment, c: Config, agentID: string, decisionAt: Time) returns (r: Result<Assignment, Error>)
    requires w.Inv()
    modifies w
    ensures w.Inv() && old(w.log) <= w.log
    ensures r.Success? ==> w.durable.Some? && w.durable.value.assignment == Some(r.value) && w.durable.value.agentID == agentID
    // The Hub is asked if and only if the lease has no more than the lead to run.
    ensures r.Success? && w.log == old(w.log) ==> decisionAt + SESSION_RENEWAL_LEAD < r.value.leaseExpiresAt
    ensures w.log != old(w.log) ==>
              && old(w.durable).Some? && old(w.durable).value.assignment.Some?
              && old(w.durable).value.assignment.value.leaseExpiresAt <= decisionAt + SESSION_RENEWAL_LEAD
  {
    hide Legal;
    var s :- LoadPrepared(w);
    if Blank(s.agentID) || s.registeredAt.None? || !Native(s) {
      return Failure(Refused);
    }
    var fault := CredentialFault(s);
    if fault.Some? {
      return Failure(fault.value);
    }
    if s.agentID != agentID || s.assignment.None? {
      return Failure(Refused);
    }
    if decisionAt + SESSION_RENEWAL_LEAD < s.assignment.value.leaseExpiresAt {
      return Success(s.assignment.value);
    }
    var renewed, _ := RefreshPlacement(w, c, s);
    return if renewed.Failure? then Failure(renewed.error) else Success(renewed.value.assignment.value);
  }
}
