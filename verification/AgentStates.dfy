/** The durable agent record, its validators and the load-time invariant
    (qurl/bootstrap.go, with the field validators it calls). */
module AgentStates {
  import opened Wrappers

  // --- Time -----------------------------------------------------------------

  /** Nanoseconds since the zero time.Time; 0 is time.IsZero. */
  type Time = int

  const SECOND: int := 1_000_000_000
  const DAY: int := 86_400 * SECOND
  /** AgentRegistrationRecoveryHorizon and AgentCredentialRecoveryHorizon. */
  const HORIZON: int := 90 * DAY
  const GRANT_LIFETIME: int := 15 * 60 * SECOND
  /** The first instant of year 10000. */
  const YEAR_10000: Time := 3_652_059 * DAY

  predicate WholeSecond(t: Time) {
    t % SECOND == 0
  }

  function TruncateToSecond(t: Time): Time {
    t - t % SECOND
  }

  /** agentRecoveryDeadline: the registration horizon counted from its anchor. */
  function RegistrationDeadline(anchor: Time): Option<Time> {
    var deadline := anchor + HORIZON;
    if anchor == 0 || deadline >= YEAR_10000 then None else Some(deadline)
  }

  /** credentialRecoveryDeadline: the same length, but only from a whole second. */
  function RecoveryDeadline(anchor: Time): Option<Time> {
    var deadline := anchor + HORIZON;
    if anchor == 0 || !WholeSecond(anchor) || deadline >= YEAR_10000 then None else Some(deadline)
  }

  // --- Records --------------------------------------------------------------

  datatype Endpoint = Endpoint(host: string, port: int, serverPublicKey: string)

  datatype Assignment = Assignment(
    cellID: string, generation: int, endpointRevision: int, leaseExpiresAt: Time, endpoint: Endpoint)

  datatype Hub = Hub(host: string, port: int, serverPublicKey: string)

  datatype Registration = Registration(keyID: string, keyKind: string)

  datatype PendingActivation = PendingActivation(
    ticket: string, ticketExpiresAt: Time, anchor: Time, recoveryExpiresAt: Time,
    agentID: string, agentPublicKey: string, assignment: Assignment, registration: Registration,
    hostname: string, version: string, enrollmentFingerprint: string)

  datatype PendingCompletion = PendingCompletion(
    deviceAPIKey: string, cellID: string, generation: int, anchor: Time, recoveryExpiresAt: Time)

  datatype PendingRecovery = PendingRecovery(
    grant: string, grantIssuedAt: Time, grantExpiresAt: Time, anchor: Time, recoveryExpiresAt: Time,
    deviceAPIKey: string, assignment: Assignment, needsFreshGrant: bool)

  datatype PendingIssue = PendingIssue(
    nonce: string, replayNotAfter: Time, credentialFingerprint: string,
    agentID: string, agentPublicKey: string, hub: Hub)

  datatype AgentState = AgentState(
    agentID: string, privateKey: string, publicKey: string, registeredAt: Option<Time>,
    schemaVersion: int, deviceAPIKey: string, deviceAPIKeyID: string, enrollmentKind: string,
    assignment: Option<Assignment>,
    pendingActivation: Option<PendingActivation>,
    pendingCompletion: Option<PendingCompletion>,
    pendingRecovery: Option<PendingRecovery>,
    pendingIssue: Option<PendingIssue>,
    refreshRequired: bool)

  const SCHEMA_VERSION := 8
  const REGISTRATION_RECOVERY_SCHEMA := 6
  const CREDENTIAL_RECOVERY_SCHEMA := 7
  const REFRESH_SCHEMA := 8

  function FreshState(privateKey: string, publicKey: string): AgentState {
    AgentState("", privateKey, publicKey, None, 0, "", "", "", None, None, None, None, None, false)
  }

  // --- Alphabets ------------------------------------------------------------

  predicate LowerAlnum(c: char) { 'a' <= c <= 'z' || '0' <= c <= '9' }

  predicate LowerLDH(c: char) { LowerAlnum(c) || c == '-' }

  predicate Alnum(c: char) { LowerAlnum(c) || 'A' <= c <= 'Z' }

  predicate UrlChar(c: char) { Alnum(c) || c == '-' || c == '_' }

  predicate StdChar(c: char) { Alnum(c) || c == '+' || c == '/' }

  predicate Control(c: char) { c < ' ' || 127 <= c as int <= 159 }

  /** A last character that leaves the four spare bits of a 32-byte text zero. */
  predicate FinalChar(c: char) { c in "AEIMQUYcgkosw048" }

  predicate HasPrefix(s: string, prefix: string) { prefix <= s }

  predicate HasSuffix(s: string, suffix: string) {
    |suffix| <= |s| && s[|s| - |suffix|..] == suffix
  }

  /** Canonical unpadded base64url of exactly 32 bytes. */
  predicate Base64Url32(s: string) {
    |s| == 43 && (forall c | c in s :: UrlChar(c)) && FinalChar(s[42])
  }

  /** Go's base64 decoders skip CR and LF; a check that does not re-encode inherits that. */
  function WithoutNewlines(s: string): string {
    if s == [] then []
    else if s[0] == '\n' || s[0] == '\r' then WithoutNewlines(s[1..])
    else [s[0]] + WithoutNewlines(s[1..])
  }

  /** The one padded standard-base64 spelling of 32 bytes. */
  predicate PublicKeyText(s: string) {
    |s| == 44 && (forall c | c in s[..43] :: StdChar(c)) && FinalChar(s[42]) && s[43] == '='
  }

  // --- Field validators -----------------------------------------------------

  predicate ValidAgentID(id: string) {
    && 2 <= |id| <= 64
    && LowerAlnum(id[0]) && LowerAlnum(id[|id| - 1])
    && forall c | c in id :: LowerLDH(c)
  }

  predicate ValidCellID(id: string) {
    && 1 <= |id| <= 64 && 'a' <= id[0] <= 'z' && id[|id| - 1] != '-'
    && forall c | c in id :: LowerLDH(c)
  }

  function Labels(host: string): seq<string> {
    if host == [] then [[]]
    else
      var rest := Labels(host[1..]);
      if host[0] == '.' || rest == [] then [[]] + rest else [[host[0]] + rest[0]] + rest[1..]
  }

  function Joined(parts: seq<string>): string {
    if parts == [] then ""
    else if |parts| == 1 then parts[0]
    else parts[0] + "." + Joined(parts[1..])
  }

  /** The labels are what stands between the dots. */
  lemma {:induction false} LabelsAreBetweenDots(host: string)
    ensures Labels(host) != [] && Joined(Labels(host)) == host
    ensures forall part | part in Labels(host) :: '.' !in part
    decreases |host|
  {
    if host != [] {
      LabelsAreBetweenDots(host[1..]);
      var rest := Labels(host[1..]);
      assert host == [host[0]] + host[1..];
      if host[0] == '.' {
        assert ([[]] + rest)[1..] == rest;
      } else {
        var all := [[host[0]] + rest[0]] + rest[1..];
        assert all[1..] == rest[1..];
        forall part | part in all
          ensures '.' !in part
        {
          assert rest[0] in rest;
        }
      }
    }
  }

  predicate ValidLabel(part: string) {
    && 1 <= |part| <= 63 && part[0] != '-' && part[|part| - 1] != '-'
    && forall c | c in part :: LowerLDH(c)
  }

  predicate ValidHost(host: string) {
    && 1 <= |host| <= 253
    && (forall part | part in Labels(host) :: ValidLabel(part))
    && (HasSuffix(host, ".layerv.ai") || HasSuffix(host, ".layerv.xyz"))
  }

  predicate ValidHub(hub: Hub) {
    ValidHost(hub.host) && hub.port == 443 && PublicKeyText(hub.serverPublicKey)
  }

  predicate ValidAssignment(a: Assignment) {
    && ValidCellID(a.cellID) && a.generation >= 1 && a.endpointRevision >= 1 && a.leaseExpiresAt != 0
    && ValidHost(a.endpoint.host) && a.endpoint.port == 443 && PublicKeyText(a.endpoint.serverPublicKey)
  }

  predicate LeaseExpired(a: Assignment, now: Time) { a.leaseExpiresAt <= now }

  predicate ValidKeyID(id: string) {
    |id| == 16 && HasPrefix(id, "key_") && forall c | c in id[4..] :: Alnum(c)
  }

  predicate ValidDeviceKey(key: string) {
    |key| == 51 && HasPrefix(key, "lv_live_") && Base64Url32(key[8..])
  }

  predicate ValidRecoveryCredential(value: string) {
    && |value| == 51 && (HasPrefix(value, "lv_live_") || HasPrefix(value, "lv_test_"))
    && Base64Url32(value[8..])
  }

  predicate ValidGrant(grant: string) {
    5 < |grant| <= 2304 && HasPrefix(grant, "qrg1.") && forall c | c in grant[5..] :: UrlChar(c)
  }

  predicate ValidTicket(ticket: string) {
    1 <= |ticket| <= 2304 && forall c | c in ticket :: '!' <= c <= '~'
  }

  predicate ValidKeyKind(kind: string) {
    kind in {"bootstrap", "connector_bootstrap", "account", "agent"}
  }

  /** Bytes in UTF-8. */
  function Utf8Length(s: string): nat {
    if s == [] then 0
    else
      var c := s[0] as int;
      (if c < 0x80 then 1 else if c < 0x800 then 2 else if c < 0x1_0000 then 3 else 4) + Utf8Length(s[1..])
  }

  /** validateRuntimeMetadata. */
  predicate ValidMetadata(value: string) {
    && value != "" && Utf8Length(value) <= 255 && !IsSpace(value[0]) && !IsSpace(value[|value| - 1])
    && forall c | c in value :: !Control(c)
  }

  // --- Pending records ------------------------------------------------------

  /** validateRecoveryDeadlineFields: forward fields exist from schema 6 on and only there. */
  predicate ValidRegistrationDeadline(anchor: Time, deadline: Time, schema: int) {
    if schema < REGISTRATION_RECOVERY_SCHEMA then anchor == 0 && deadline == 0
    else WholeSecond(anchor) && deadline != 0 && WholeSecond(deadline) && RegistrationDeadline(anchor) == Some(deadline)
  }

  predicate ValidPendingActivation(p: PendingActivation, s: AgentState) {
    && s.assignment.Some?
    && ValidTicket(p.ticket) && p.ticketExpiresAt != 0
    && ValidRegistrationDeadline(p.anchor, p.recoveryExpiresAt, s.schemaVersion)
    && ValidAgentID(p.agentID) && p.agentID == s.agentID
    && PublicKeyText(p.agentPublicKey) && p.agentPublicKey == s.publicKey
    && ValidAssignment(p.assignment) && p.assignment == s.assignment.value
    && p.ticketExpiresAt < p.assignment.leaseExpiresAt
    && ValidKeyID(p.registration.keyID) && ValidKeyKind(p.registration.keyKind)
    && (p.hostname == "" <==> p.version == "")
    && (p.hostname != "" ==> ValidMetadata(p.hostname) && ValidMetadata(p.version))
    && Base64Url32(WithoutNewlines(p.enrollmentFingerprint))
  }

  predicate ValidPendingCompletion(p: PendingCompletion, s: AgentState) {
    && s.assignment.Some?
    && ValidDeviceKey(p.deviceAPIKey)
    && p.cellID == s.assignment.value.cellID && p.generation == s.assignment.value.generation
    && ValidRegistrationDeadline(p.anchor, p.recoveryExpiresAt, s.schemaVersion)
  }

  predicate ValidPendingIssue(p: PendingIssue) {
    && Base64Url32(p.nonce)
    && p.replayNotAfter != 0 && WholeSecond(p.replayNotAfter)
    && ValidAgentID(p.agentID) && PublicKeyText(p.agentPublicKey)
    && Base64Url32(p.credentialFingerprint)
    && ValidHub(p.hub)
  }

  predicate ValidPendingRecovery(p: PendingRecovery, s: AgentState) {
    && s.assignment == Some(p.assignment)
    && ValidGrant(p.grant) && ValidDeviceKey(p.deviceAPIKey)
    && WholeSecond(p.grantIssuedAt) && WholeSecond(p.grantExpiresAt)
    && p.grantExpiresAt - p.grantIssuedAt == GRANT_LIFETIME
    && p.grantExpiresAt < p.assignment.leaseExpiresAt
    && RecoveryDeadline(p.anchor) == Some(p.recoveryExpiresAt)
  }

  // --- The load invariant ---------------------------------------------------

  /** isNativeAgentRuntimeState. */
  predicate Native(s: AgentState) {
    || s.assignment.Some? || s.pendingActivation.Some? || s.pendingCompletion.Some?
    || s.pendingRecovery.Some? || s.pendingIssue.Some? || s.refreshRequired || s.deviceAPIKeyID != ""
  }

  predicate RegistrationPhaseOk(s: AgentState) {
    && (s.pendingActivation.Some? ==>
          && ValidPendingActivation(s.pendingActivation.value, s)
          && s.pendingCompletion.None? && s.registeredAt.None?
          && s.deviceAPIKey == "" && s.deviceAPIKeyID == "")
    && (s.pendingCompletion.Some? ==>
          && ValidPendingCompletion(s.pendingCompletion.value, s)
          && s.registeredAt.None? && s.deviceAPIKey == "" && s.deviceAPIKeyID == "")
  }

  predicate IssuePhaseOk(s: AgentState) {
    s.pendingIssue.Some? ==>
      && s.pendingActivation.None? && s.pendingCompletion.None?
      && s.schemaVersion >= CREDENTIAL_RECOVERY_SCHEMA && s.registeredAt.Some? && s.assignment.Some?
      && ValidPendingIssue(s.pendingIssue.value)
      && s.pendingIssue.value.agentID == s.agentID && s.pendingIssue.value.agentPublicKey == s.publicKey
      && (s.pendingRecovery.Some? ==>
            && s.pendingRecovery.value.needsFreshGrant
            && s.pendingIssue.value.replayNotAfter <= s.pendingRecovery.value.recoveryExpiresAt)
  }

  predicate RecoveryPhaseOk(s: AgentState) {
    s.pendingRecovery.Some? ==>
      && s.pendingActivation.None? && s.pendingCompletion.None?
      && s.schemaVersion >= CREDENTIAL_RECOVERY_SCHEMA && s.registeredAt.Some?
      && s.deviceAPIKey == "" && s.deviceAPIKeyID == ""
      && ValidPendingRecovery(s.pendingRecovery.value, s)
  }

  predicate RefreshPhaseOk(s: AgentState) {
    s.refreshRequired ==>
      && s.schemaVersion >= REFRESH_SCHEMA
      && s.pendingActivation.None? && s.pendingCompletion.None?
      && s.pendingRecovery.None? && s.pendingIssue.None?
      && s.registeredAt.Some? && s.assignment.Some?
      && ValidDeviceKey(s.deviceAPIKey) && ValidKeyID(s.deviceAPIKeyID)
  }

  /** validateLoadedAgentAssignment. */
  predicate ValidLoaded(s: AgentState) {
    && 0 <= s.schemaVersion <= SCHEMA_VERSION
    && (Native(s) ==> ValidAgentID(s.agentID))
    && (s.assignment.Some? ==> ValidAssignment(s.assignment.value))
    && RegistrationPhaseOk(s) && IssuePhaseOk(s) && RecoveryPhaseOk(s) && RefreshPhaseOk(s)
  }

  /** prepareLoadedAgentState: validate, then derive or corroborate the public key. */
  function PrepareLoaded(s: AgentState, derive: string -> Option<string>): Option<AgentState> {
    if !ValidLoaded(s) then None
    else match derive(s.privateKey)
      case None => None
      case Some(key) =>
        if s.publicKey == "" then Some(s.(publicKey := key))
        else if s.publicKey == key then Some(s)
        else None
  }

  /** s is what a loader holds in memory for the stored record d: at most the
      absent public key has been filled in. */
  ghost predicate LoadedAs(d: AgentState, s: AgentState) {
    && ValidLoaded(d) && ValidLoaded(s)
    && s == d.(publicKey := s.publicKey) && (d.publicKey == "" || d.publicKey == s.publicKey)
  }

  lemma NoKeyText()
    ensures !PublicKeyText("")
  {
  }

  /** Filling in a public key cannot invalidate a record that had none. */
  lemma PreparedIsLoadedAs(d: AgentState, derive: string -> Option<string>)
    requires PrepareLoaded(d, derive).Some?
    ensures LoadedAs(d, PrepareLoaded(d, derive).value)
  {
    hide ValidAssignment, PublicKeyText, ValidGrant, ValidDeviceKey, RecoveryDeadline, RegistrationDeadline, ValidHub, ValidTicket;
    hide ValidAgentID, Base64Url32, ValidKeyID, ValidKeyKind, ValidMetadata, ValidRegistrationDeadline;
    var s := PrepareLoaded(d, derive).value;
    if d.publicKey == "" {
      NoKeyText();
      assert d.pendingActivation.None? && d.pendingIssue.None?;
    }
    assert ValidLoaded(s);
  }

  // --- Placement continuity -------------------------------------------------

  /** ensureRefreshAssignmentContinuity. */
  predicate RefreshContinuity(previous: Assignment, current: Assignment, adopt: bool) {
    if previous.cellID != current.cellID || previous.generation != current.generation then
      adopt && current.generation > previous.generation
    else
      && current.endpointRevision >= previous.endpointRevision
      && (current.endpointRevision == previous.endpointRevision ==> current.endpoint == previous.endpoint)
  }

  /** What continuity means for two placements any number of accepted refreshes apart. */
  predicate Continues(a: Assignment, b: Assignment) {
    && (a.generation < b.generation || (a.generation == b.generation && a.endpointRevision <= b.endpointRevision))
    && (a.generation == b.generation ==> a.cellID == b.cellID)
    && (a.generation == b.generation && a.endpointRevision == b.endpointRevision ==> a.endpoint == b.endpoint)
  }

  /** A refresh is accepted if and only if the placement continues the old one
      and, unless adoption is allowed, cell and generation stay. */
  lemma AcceptedIffContinues(previous: Assignment, current: Assignment, adopt: bool)
    ensures RefreshContinuity(previous, current, adopt) <==>
            && Continues(previous, current)
            && (adopt || (current.cellID == previous.cellID && current.generation == previous.generation))
  {
  }
}
