/** Loading, saving and opening as the lifecycle entry points share them. */
module Runtime {
  import opened Wrappers
  import opened AgentStates
  import opened LifecycleSpec
  import opened RecoveryBoundary
  import opened World

  datatype Config = Config(
    agentID: string, hub: Option<Hub>, hostname: string, version: string,
    credential: string, credentialUsable: bool, lazyCredential: bool, canEnroll: bool, otpMissing: bool,
    allowedKinds: set<string>, pinAssignment: bool)

  /** What a successful open hands out. */
  datatype Opened = Opened(agentID: string, deviceAPIKey: string, assignment: Assignment)

  predicate Blank(s: string) {
    forall c | c in s :: IsSpace(c)
  }

  predicate Corroborates(requested: string, s: AgentState) {
    requested == "" || s.agentID == "" || requested == s.agentID
  }

  /** validatePersistedNativeDeviceCredential. */
  function CredentialFault(s: AgentState): Option<Error> {
    if s.refreshRequired then Some(RefreshOwed)
    else if s.pendingRecovery.Some? || s.pendingIssue.Some? then Some(Refused)
    else CredentialMaterialFault(s)
  }

  function CredentialMaterialFault(s: AgentState): Option<Error> {
    if ValidDeviceKey(s.deviceAPIKey) && ValidKeyID(s.deviceAPIKeyID) then None else Some(Refused)
  }

  /** finishNativeRuntime: the completed-state checks before anything is opened. */
  function Finish(s: AgentState, c: Config, now: Time): Result<Opened, Error> {
    if Blank(s.agentID) || s.registeredAt.None? || !Corroborates(c.agentID, s) then Failure(Refused)
    else if CredentialFault(s).Some? then Failure(CredentialFault(s).value)
    else if s.assignment.None? || !ValidAssignment(s.assignment.value) || LeaseExpired(s.assignment.value, now) then Failure(Refused)
    else Success(Opened(s.agentID, s.deviceAPIKey, s.assignment.value))
  }

  /** What every opened runtime rests on: a completed record with its promoted
      or minted key and no lifecycle transition outstanding. */
  ghost predicate OpenedFrom(d: Option<AgentState>, o: Opened) {
    && d.Some? && ValidLoaded(d.value)
    && d.value.registeredAt.Some? && !d.value.refreshRequired
    && d.value.pendingRecovery.None? && d.value.pendingIssue.None?
    && d.value.pendingActivation.None? && d.value.pendingCompletion.None?
    && ValidDeviceKey(o.deviceAPIKey)
    && o == Opened(d.value.agentID, d.value.deviceAPIKey, o.assignment) && d.value.assignment == Some(o.assignment)
  }

  lemma FinishedIsOpened(d: AgentState, s: AgentState, c: Config, now: Time)
    requires LoadedAs(d, s) && Finish(s, c, now).Success?
    ensures OpenedFrom(Some(d), Finish(s, c, now).value)
    ensures IsAgent(c, Finish(s, c, now).value) && now < Finish(s, c, now).value.assignment.leaseExpiresAt
  {
  }

  /** A record that loads passes the completed-state checks if and only if it is a
      completed registration of the agent asked for with its key in place, nothing
      outstanding, and a lease that is still running. */
  lemma FinishesExactly(s: AgentState, c: Config, now: Time)
    requires ValidLoaded(s)
    ensures Finish(s, c, now).Success? <==>
            && (exists i :: 0 <= i < |s.agentID| && !IsSpace(s.agentID[i])) && c.agentID in {"", s.agentID}
            && s.registeredAt.Some? && !s.refreshRequired && s.pendingRecovery.None? && s.pendingIssue.None?
            && ValidDeviceKey(s.deviceAPIKey) && ValidKeyID(s.deviceAPIKeyID)
            && s.assignment.Some? && now < s.assignment.value.leaseExpiresAt
  {
    hide ValidDeviceKey, ValidKeyID, ValidAssignment, IsSpace;
    assert s.assignment.Some? ==> ValidAssignment(s.assignment.value);
    if !Blank(s.agentID) {
      var ch :| ch in s.agentID && !IsSpace(ch);
      var i :| 0 <= i < |s.agentID| && s.agentID[i] == ch;
    }
  }

  /** What was opened is the agent asked for, if one was. */
  predicate IsAgent(c: Config, o: Opened) {
    c.agentID == "" || o.agentID == c.agentID
  }

  /** What a successful open hands out is the agent asked for, rests on the
      durable record, and had a live lease when the clock was last read. */
  ghost predicate OpenedNow(w: Environment, c: Config, o: Opened)
    reads w`durable, w`reading
  {
    OpenedFrom(w.durable, o) && w.reading < o.assignment.leaseExpiresAt && IsAgent(c, o)
  }

  ghost predicate Holds(w: Environment, s: AgentState)
    reads w`durable
  {
    w.durable.Some? && LoadedAs(w.durable.value, s)
  }

  /** The stored record as a load would give it. */
  ghost function Prepared(w: Environment): Option<AgentState>
    reads w`durable
  {
    if w.durable.None? then None else PrepareLoaded(w.durable.value, w.derivePublicKey)
  }

  /** Load and apply the trust boundary of every load. */
  method LoadPrepared(w: Environment) returns (r: Result<AgentState, Error>)
    requires w.Inv()
    ensures r.Success? ==> Holds(w, r.value)
    ensures r.Failure? ==> r.error == Unreadable || (r.error == Refused && Prepared(w).None?)
    ensures r.Success? ==> Prepared(w) == Some(r.value)
  {
    var loaded :- w.Load();
    if loaded.None? {
      return Failure(Refused);
    }
    var prepared := PrepareLoaded(loaded.value, w.derivePublicKey);
    if prepared.None? {
      return Failure(Refused);
    }
    PreparedIsLoadedAs(loaded.value, w.derivePublicKey);
    return Success(prepared.value);
  }

  /** A recovery boundary for a deadline that must still be ahead. */
  method OpenBoundary(w: Environment, deadline: Time) returns (r: Result<Boundary, Error>)
    modifies w`reading
    ensures r.Success? ==>
              && fresh(r.value) && r.value.Valid() && r.value.deadline == deadline && !r.value.expired
              && r.value.readings == [w.reading] && r.value.Permitted(w.reading)
    ensures r.Failure? ==> r.error == DeadlinePassed
  {
    var b := new Boundary(deadline);
    var now := w.Now();
    var verdict := b.CheckAt(now);
    return if verdict == Allowed then Success(b) else Failure(DeadlinePassed);
  }

  /** Passing a check means a set clock short of the deadline, now and at every
      reading before; not passing one for that deadline is for good. */
  method CheckBoundary(w: Environment, b: Boundary) returns (r: Result<(), Error>)
    requires b.Valid()
    modifies w`reading, b
    ensures b.Valid() && b.readings == old(b.readings) + [w.reading]
    ensures r.Success? <==> !old(b.expired) && w.reading != 0 && w.reading < b.deadline
    ensures r.Success? ==> b.Permitted(w.reading) && !b.expired
    ensures old(b.expired) ==> b.expired
    ensures r.Failure? ==> r.error == DeadlinePassed
  {
    var now := w.Now();
    var verdict := b.CheckAt(now);
    return if verdict == Allowed then Success(()) else Failure(DeadlinePassed);
  }

  method GenerateDeviceKey() returns (r: Result<string, Error>)
    ensures r.Success? ==> ValidDeviceKey(r.value)
  {
    var candidate: string := *;
    return if ValidDeviceKey(candidate) then Success(candidate) else Failure(Refused);
  }

  /** finishNativeRuntimeResult, on its own reading of the clock. */
  method OpenCompleted(w: Environment, c: Config, s: AgentState) returns (r: Result<Opened, Error>)
    requires Holds(w, s)
    modifies w`reading
    ensures r == Finish(s, c, w.reading)
    ensures r.Success? ==> OpenedNow(w, c, r.value)
  {
    var now := w.Now();
    if Finish(s, c, now).Success? {
      FinishedIsOpened(w.durable.value, s, c, now);
    }
    return Finish(s, c, now);
  }
}
