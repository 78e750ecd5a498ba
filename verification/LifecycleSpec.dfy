/** What a run of the agent lifecycle may do, as a condition on each event of
    its trace, and what that makes true of every whole trace.

    A trace is everything that left the process: saves, datagrams and the
    authenticated replies. A crash leaves a prefix; every prefix of a legal
    trace is legal, and the next process starts from the durable record. */
module LifecycleSpec {
  import opened Wrappers
  import opened AgentStates

  /** The authenticated result of one Hub issue operation. */
  datatype Issued = Issued(assignment: Assignment, grant: string, issuedAt: Time, expiresAt: Time)

  /** The logical requests whose datagrams the lifecycle sends. */
  datatype Request =
    | Place
    | Register(pending: PendingActivation)
    | Complete(candidate: string, placement: Assignment)
    | Issue(nonce: string, fingerprint: string, hub: Hub)
    | Replace(candidate: string, grant: string, placement: Assignment)

  datatype Event =
    | Saved(next: AgentState, applied: bool)
    | Sent(request: Request, at: Time, delivered: bool)
    | TicketExpired(pending: PendingActivation)
    | CompletionConfirmed(candidate: string, keyID: string)
    | IssueAnswered(nonce: string, issued: Issued)
    | IssueDenied(nonce: string)
    | ReplacementConfirmed(candidate: string, keyID: string)
    | GrantRejected(grant: string)

  type Trace = seq<Event>

  /** The stored record before event n: the last save that took effect. */
  function Durable(init: Option<AgentState>, log: Trace, n: nat): Option<AgentState>
    requires n <= |log|
  {
    if n == 0 then init
    else if log[n - 1].Saved? && log[n - 1].applied then Some(log[n - 1].next)
    else Durable(init, log, n - 1)
  }

  /** The cell commits the candidate of the first completion request it sees. */
  function Committed(log: Trace): Option<string> {
    if log == [] then None
    else
      var earlier := Committed(log[..|log| - 1]);
      var e := log[|log| - 1];
      if earlier.Some? then earlier
      else if e.Sent? && e.delivered && e.request.Complete? then Some(e.request.candidate)
      else None
  }

  predicate ValidIssued(i: Issued) {
    && ValidAssignment(i.assignment) && ValidGrant(i.grant)
    && WholeSecond(i.issuedAt) && i.expiresAt - i.issuedAt == GRANT_LIFETIME
    && RecoveryDeadline(i.expiresAt).Some? && i.expiresAt < i.assignment.leaseExpiresAt
  }

  /** The Hub replays by nonce: one nonce has one result. */
  predicate HubReplays(before: Trace, nonce: string, issued: Issued) {
    forall k | 0 <= k < |before| && before[k].IssueAnswered? && before[k].nonce == nonce :: before[k].issued == issued
  }

  /** Whether e delivered the request this reply answers. */
  predicate Asks(e: Event, reply: Event) {
    e.Sent? && e.delivered &&
    match reply
    case TicketExpired(p) => e.request == Register(p)
    case CompletionConfirmed(c, _) => e.request.Complete? && e.request.candidate == c
    case IssueAnswered(nonce, _) => e.request.Issue? && e.request.nonce == nonce
    case IssueDenied(nonce) => e.request.Issue? && e.request.nonce == nonce
    case ReplacementConfirmed(c, _) => e.request.Replace? && e.request.candidate == c
    case GrantRejected(grant) => e.request.Replace? && e.request.grant == grant
    case _ => false
  }

  /** An authenticated reply follows a delivered request of its own. */
  ghost predicate WasAsked(before: Trace, reply: Event) {
    exists k :: 0 <= k < |before| && Asks(before[k], reply)
  }

  // --- What a datagram needs ------------------------------------------------

  predicate RequestOk(d: Option<AgentState>, r: Request) {
    match r
    case Place => true
    case Register(p) => d.Some? && d.value.pendingActivation == Some(p)
    case Complete(candidate, placement) =>
      && d.Some? && d.value.pendingCompletion.Some?
      && d.value.pendingCompletion.value.deviceAPIKey == candidate && d.value.assignment == Some(placement)
    case Issue(nonce, fingerprint, hub) =>
      && d.Some? && d.value.pendingIssue.Some?
      && var intent := d.value.pendingIssue.value;
      intent.nonce == nonce && intent.credentialFingerprint == fingerprint && intent.hub == hub
    case Replace(candidate, grant, placement) =>
      && d.Some? && d.value.pendingRecovery.Some?
      && var p := d.value.pendingRecovery.value;
      !p.needsFreshGrant && p.deviceAPIKey == candidate && p.grant == grant && p.assignment == placement
  }

  /** The durable deadline that fences a request, if one exists yet. */
  function Fence(d: Option<AgentState>, r: Request): Option<Time> {
    if d.None? then None
    else match r
      case Place | Register(_) =>
        if d.value.pendingActivation.Some? then Some(d.value.pendingActivation.value.recoveryExpiresAt) else None
      case Complete(_, _) =>
        if d.value.pendingCompletion.Some? then Some(d.value.pendingCompletion.value.recoveryExpiresAt) else None
      case Issue(_, _, _) | Replace(_, _, _) =>
        if d.value.pendingRecovery.Some? then Some(d.value.pendingRecovery.value.recoveryExpiresAt)
        else if d.value.pendingIssue.Some? then Some(d.value.pendingIssue.value.replayNotAfter)
        else None
  }

  // --- What a save may change ----------------------------------------------

  ghost predicate KeepsIdentity(p: AgentState, n: AgentState) {
    && n.privateKey == p.privateKey
    && (p.publicKey != "" ==> n.publicKey == p.publicKey)
    && (Native(p) ==> n.agentID == p.agentID)
    && (p.registeredAt.Some? ==> n.registeredAt == p.registeredAt)
    && (p.assignment.Some? ==> n.assignment.Some?)
  }

  /** The anchor and deadline of the registration episode, once it has one. */
  function RegistrationAnchor(s: AgentState): Option<(Time, Time)> {
    if s.pendingActivation.Some? && s.pendingActivation.value.anchor != 0 then
      Some((s.pendingActivation.value.anchor, s.pendingActivation.value.recoveryExpiresAt))
    else if s.pendingCompletion.Some? then
      Some((s.pendingCompletion.value.anchor, s.pendingCompletion.value.recoveryExpiresAt))
    else None
  }

  /** The same ticket and inputs; migration may set anchor and deadline. */
  predicate SameActivation(a: PendingActivation, b: PendingActivation) {
    a.(anchor := b.anchor, recoveryExpiresAt := b.recoveryExpiresAt) == b
  }

  predicate Replaces(p: AgentState, n: AgentState) {
    && p.pendingActivation.Some? && n.pendingActivation.Some?
    && !SameActivation(p.pendingActivation.value, n.pendingActivation.value)
  }

  ghost predicate KeepsRegistration(p: AgentState, n: AgentState) {
    && (n.pendingCompletion.Some? ==> p.pendingActivation.Some? || n.pendingCompletion == p.pendingCompletion)
    && (n.registeredAt.Some? ==>
          p.registeredAt.Some? ||
          (p.pendingCompletion.Some? && n.deviceAPIKey == p.pendingCompletion.value.deviceAPIKey))
    && (p.pendingActivation.Some? ==> n.pendingActivation.Some? || n.pendingCompletion.Some?)
    && (p.pendingCompletion.Some? ==>
          n.assignment == p.assignment && (n.pendingCompletion == p.pendingCompletion || n.registeredAt.Some?))
    && (RegistrationAnchor(p).Some? ==> n.registeredAt.Some? || RegistrationAnchor(n) == RegistrationAnchor(p))
  }

  /** The part of a recovery episode that no renewal may touch. */
  function Episode(p: PendingRecovery): (string, Time, Time) {
    (p.deviceAPIKey, p.anchor, p.recoveryExpiresAt)
  }

  ghost predicate Promotes(p: AgentState, n: AgentState) {
    && p.pendingRecovery.Some? && n.pendingRecovery.None? && n.pendingIssue.None?
    && n.deviceAPIKey == p.pendingRecovery.value.deviceAPIKey
    && n.refreshRequired && n.assignment == p.assignment
  }

  ghost predicate KeepsRecovery(p: AgentState, n: AgentState) {
    && (p.registeredAt.Some? && p.assignment.Some? && n.assignment.Some? ==>
          Continues(p.assignment.value, n.assignment.value))
    && (p.pendingRecovery.Some? ==>
          Promotes(p, n) ||
          (n.pendingRecovery.Some? && Episode(n.pendingRecovery.value) == Episode(p.pendingRecovery.value)))
    && (p.pendingRecovery.None? && n.pendingRecovery.Some? ==> p.pendingIssue.Some? && n.pendingIssue.None?)
    && (p.pendingIssue.Some? ==> n.pendingIssue.None? || n.pendingIssue == p.pendingIssue)
    && (p.refreshRequired ==> n.pendingRecovery.None? && n.pendingIssue.None?)
    && (n.refreshRequired && !p.refreshRequired ==> Promotes(p, n))
    && (p.registeredAt.Some? && p.pendingRecovery.None? && n.pendingRecovery.None? ==>
          n.deviceAPIKey == p.deviceAPIKey && n.deviceAPIKeyID == p.deviceAPIKeyID)
  }

  ghost predicate Keeps(p: AgentState, n: AgentState) {
    KeepsIdentity(p, n) && KeepsRegistration(p, n) && KeepsRecovery(p, n)
  }

  /** The authenticated reply a change of phase rests on. */
  ghost predicate Evidence(before: Trace, p: AgentState, n: AgentState) {
    && (Replaces(p, n) ==> TicketExpired(p.pendingActivation.value) in before)
    && (p.pendingCompletion.Some? && n.registeredAt.Some? ==>
          CompletionConfirmed(p.pendingCompletion.value.deviceAPIKey, n.deviceAPIKeyID) in before)
    && (p.pendingIssue.Some? && n.pendingIssue.None? ==> SettledBefore(before, |before|, p.pendingIssue.value.nonce))
    && (Opens(p, n) ==> OpenedBy(before, p.pendingIssue.value.nonce, n.pendingRecovery.value))
    && (p.pendingRecovery.Some? && Promotes(p, n) ==>
          ReplacementConfirmed(p.pendingRecovery.value.deviceAPIKey, n.deviceAPIKeyID) in before)
    && (p.pendingRecovery.Some? && n.pendingRecovery.Some? && p.pendingRecovery.value.grant == n.pendingRecovery.value.grant &&
        n.pendingRecovery.value.needsFreshGrant && !p.pendingRecovery.value.needsFreshGrant ==>
          GrantRejected(p.pendingRecovery.value.grant) in before)
  }

  predicate Settles(e: Event, nonce: string) {
    (e.IssueDenied? || e.IssueAnswered?) && e.nonce == nonce
  }

  /** The Hub answered or denied this nonce somewhere in the first n events. */
  ghost predicate SettledBefore(log: Trace, n: nat, nonce: string)
    requires n <= |log|
  {
    exists k :: 0 <= k < n && Settles(log[k], nonce)
  }

  ghost predicate Opens(p: AgentState, n: AgentState) {
    p.pendingRecovery.None? && n.pendingRecovery.Some? && p.pendingIssue.Some?
  }

  ghost predicate OpenedBy(before: Trace, nonce: string, r: PendingRecovery) {
    IssueAnswered(nonce, Issued(r.assignment, r.grant, r.grantIssuedAt, r.grantExpiresAt)) in before
    && r.anchor == r.grantExpiresAt && r.recoveryExpiresAt == r.anchor + HORIZON
  }

  /** The phases of one record that may stand side by side. */
  predicate PhasesOk(s: AgentState) {
    && (s.pendingActivation.Some? || s.pendingCompletion.Some? ==>
          && s.registeredAt.None? && s.pendingRecovery.None? && s.pendingIssue.None? && !s.refreshRequired
          && s.deviceAPIKey == "" && s.assignment.Some?)
    && !(s.pendingActivation.Some? && s.pendingCompletion.Some?)
    && (s.pendingRecovery.Some? || s.pendingIssue.Some? || s.refreshRequired ==>
          s.registeredAt.Some? && s.assignment.Some?)
    && (s.pendingRecovery.Some? ==> s.deviceAPIKey == "" && s.assignment == Some(s.pendingRecovery.value.assignment))
    && (s.pendingRecovery.Some? && s.pendingIssue.Some? ==> s.pendingRecovery.value.needsFreshGrant)
    && (s.refreshRequired ==> s.pendingRecovery.None? && s.pendingIssue.None? && s.deviceAPIKey != "")
  }

  /** The load invariant allows no other combination. */
  lemma ValidRecordsHaveOkPhases(s: AgentState)
    requires ValidLoaded(s)
    ensures PhasesOk(s)
  {
  }

  /** The first record ever stored is a bare identity. */
  predicate Bare(n: AgentState) {
    !Native(n) && n.registeredAt.None? && n.deviceAPIKey == ""
  }

  ghost predicate SaveOk(d: Option<AgentState>, before: Trace, n: AgentState) {
    && PhasesOk(n)
    && match d
       case None => Bare(n)
       case Some(p) => Keeps(p, n) && Evidence(before, p, n)
  }

  ghost predicate EventOk(d: Option<AgentState>, before: Trace, e: Event) {
    match e
    case Saved(next, _) => SaveOk(d, before, next)
    case Sent(r, at, _) => RequestOk(d, r) && (Fence(d, r).Some? ==> at < Fence(d, r).value)
    case CompletionConfirmed(c, _) => WasAsked(before, e) && Committed(before) == Some(c)
    case IssueAnswered(nonce, issued) => WasAsked(before, e) && ValidIssued(issued) && HubReplays(before, nonce, issued)
    case _ => WasAsked(before, e)
  }

  ghost predicate StepOk(init: Option<AgentState>, log: Trace, k: nat)
    requires k < |log|
  {
    EventOk(Durable(init, log, k), log[..k], log[k])
  }

  ghost predicate Legal(init: Option<AgentState>, log: Trace) {
    forall k | 0 <= k < |log| :: StepOk(init, log, k)
  }

  /** Every record handed to SaveAgentState, applied or not, loads again. */
  predicate SavesLoad(log: Trace) {
    forall k | 0 <= k < |log| && log[k].Saved? :: ValidLoaded(log[k].next)
  }

  /** Whatever a crash leaves behind loads again, unless nothing was ever saved. */
  lemma {:induction false} DurableLoads(init: Option<AgentState>, log: Trace, n: nat)
    requires SavesLoad(log) && n <= |log|
    ensures Durable(init, log, n) == init || (Durable(init, log, n).Some? && ValidLoaded(Durable(init, log, n).value))
  {
    if n > 0 {
      DurableLoads(init, log, n - 1);
    }
  }

  // --- Prefixes -------------------------------------------------------------

  lemma {:induction false} DurableOfPrefix(init: Option<AgentState>, log: Trace, more: Trace, n: nat)
    requires n <= |log|
    ensures Durable(init, log + more, n) == Durable(init, log, n)
  {
    if n > 0 {
      DurableOfPrefix(init, log, more, n - 1);
    }
  }

  /** Whatever a crash cuts off, what is left is legal. */
  lemma CrashLeavesALegalTrace(init: Option<AgentState>, log: Trace, n: nat)
    requires Legal(init, log) && n <= |log|
    ensures Legal(init, log[..n]) && Durable(init, log[..n], n) == Durable(init, log, n)
  {
    assert log == log[..n] + log[n..];
    DurableOfPrefix(init, log[..n], log[n..], n);
    forall k | 0 <= k < n
      ensures StepOk(init, log[..n], k)
    {
      assert StepOk(init, log, k);
      DurableOfPrefix(init, log[..n], log[n..], k);
      assert log[..n][..k] == log[..k];
    }
  }

  lemma LegalExtends(init: Option<AgentState>, log: Trace, e: Event)
    requires Legal(init, log) && EventOk(Durable(init, log, |log|), log, e)
    ensures Legal(init, log + [e])
    ensures Durable(init, log + [e], |log| + 1) == if e.Saved? && e.applied then Some(e.next) else Durable(init, log, |log|)
  {
    forall k | 0 <= k <= |log|
      ensures StepOk(init, log + [e], k)
    {
      DurableOfPrefix(init, log, [e], k);
      assert (log + [e])[..k] == log[..k];
      if k < |log| {
        assert StepOk(init, log, k);
      } else {
        assert log[..|log|] == log;
      }
    }
    DurableOfPrefix(init, log, [e], |log|);
  }

  // --- Whole-run theorems ---------------------------------------------------

  /** Only permitted phases ever stand side by side in the store. */
  lemma {:induction false} PhasesStayOk(init: Option<AgentState>, log: Trace, n: nat)
    requires Legal(init, log) && n <= |log|
    ensures Durable(init, log, n) == init || (Durable(init, log, n).Some? && PhasesOk(Durable(init, log, n).value))
  {
    if n > 0 {
      PhasesStayOk(init, log, n - 1);
      assert StepOk(init, log, n - 1);
    }
  }

  /** One step of the durable record: unchanged, or a permitted save. */
  lemma DurableStep(init: Option<AgentState>, log: Trace, n: nat)
    requires Legal(init, log) && n < |log|
    ensures Durable(init, log, n + 1) != Durable(init, log, n) ==>
              && Durable(init, log, n + 1) == Some(log[n].next)
              && SaveOk(Durable(init, log, n), log[..n], log[n].next)
    ensures Durable(init, log, n).Some? ==> Durable(init, log, n + 1).Some?
  {
    assert StepOk(init, log, n);
  }

  /** A pending completion candidate leaves the store only by becoming the
      device key of the completed registration. */
  lemma {:induction false} CompletionCandidateStays(init: Option<AgentState>, log: Trace, i: nat, j: nat)
    requires Legal(init, log) && i <= j <= |log|
    requires Durable(init, log, i).Some? && Durable(init, log, i).value.pendingCompletion.Some?
    ensures Durable(init, log, j).Some?
    ensures var c := Durable(init, log, i).value.pendingCompletion; var s := Durable(init, log, j).value;
            s.pendingCompletion == c || s.registeredAt.Some?
  {
    if i < j {
      CompletionCandidateStays(init, log, i, j - 1);
      DurableStep(init, log, j - 1);
    }
  }

  /** Every completion request one store ever sends, over all crashes and
      restarts, carries one and the same device credential. */
  lemma OneCompletionCandidate(init: Option<AgentState>, log: Trace, i: nat, j: nat)
    requires Legal(init, log) && i <= j < |log|
    requires log[i].Sent? && log[i].request.Complete?
    requires log[j].Sent? && log[j].request.Complete?
    requires init.Some? ==> PhasesOk(init.value)
    ensures log[i].request.candidate == log[j].request.candidate
    ensures log[i].request.placement == log[j].request.placement
  {
    assert StepOk(init, log, i);
    assert StepOk(init, log, j);
    CompletionCandidateStays(init, log, i, j);
    PhasesStayOk(init, log, j);
    PlacementFixedWhileCompleting(init, log, i, j);
  }

  lemma {:induction false} PlacementFixedWhileCompleting(init: Option<AgentState>, log: Trace, i: nat, j: nat)
    requires Legal(init, log) && i <= j <= |log|
    requires init.Some? ==> PhasesOk(init.value)
    requires Durable(init, log, i).Some? && Durable(init, log, i).value.pendingCompletion.Some?
    requires Durable(init, log, j).Some? && Durable(init, log, j).value.pendingCompletion.Some?
    ensures Durable(init, log, j).value.assignment == Durable(init, log, i).value.assignment
  {
    if i < j {
      CompletionCandidateStays(init, log, i, j - 1);
      PhasesStayOk(init, log, j - 1);
      PhasesStayOk(init, log, j);
      DurableStep(init, log, j - 1);
      PlacementFixedWhileCompleting(init, log, i, j - 1);
    }
  }

  lemma {:induction false} CommittedIsStable(log: Trace, n: nat)
    requires n <= |log| && Committed(log[..n]).Some?
    ensures Committed(log) == Committed(log[..n])
    decreases |log|
  {
    if n < |log| {
      var shorter := log[..|log| - 1];
      assert shorter[..n] == log[..n];
      CommittedIsStable(shorter, n);
    } else {
      assert log[..n] == log;
    }
  }

  lemma {:induction false} CommittedWasSent(log: Trace)
    requires Committed(log).Some?
    ensures exists k :: 0 <= k < |log| && log[k].Sent? && log[k].delivered && log[k].request.Complete? &&
                        log[k].request.candidate == Committed(log).value
  {
    var shorter := log[..|log| - 1];
    if Committed(shorter).Some? {
      CommittedWasSent(shorter);
      var k :| 0 <= k < |shorter| && shorter[k].Sent? && shorter[k].delivered && shorter[k].request.Complete? &&
               shorter[k].request.candidate == Committed(shorter).value;
      assert log[k] == shorter[k];
    }
  }

  /** With a cell that commits the first candidate it sees, registration
      completes with exactly the committed one, which is also the candidate of
      every completion request before and after. */
  lemma CompletedKeyIsTheCommittedOne(init: Option<AgentState>, log: Trace, k: nat, j: nat)
    requires Legal(init, log) && k < |log| && j < |log|
    requires init.Some? ==> PhasesOk(init.value)
    requires log[k].Saved? && log[k].next.registeredAt.Some?
    requires Durable(init, log, k).Some? ==> Durable(init, log, k).value.registeredAt.None?
    ensures Committed(log[..k]) == Committed(log) == Some(log[k].next.deviceAPIKey)
    ensures log[j].Sent? && log[j].request.Complete? ==> log[j].request.candidate == log[k].next.deviceAPIKey
  {
    var d := Durable(init, log, k);
    assert StepOk(init, log, k);
    var key := log[k].next.deviceAPIKey;
    var confirmed := CompletionConfirmed(key, log[k].next.deviceAPIKeyID);
    assert confirmed in log[..k];
    var m :| 0 <= m < k && log[m] == confirmed;
    assert StepOk(init, log, m);
    assert log[..k][..m] == log[..m];
    CommittedIsStable(log[..k], m);
    CommittedIsStable(log, m);
    CommittedWasSent(log[..m]);
    var s :| 0 <= s < m && log[..m][s].Sent? && log[..m][s].request.Complete? && log[..m][s].request.candidate == key;
    assert log[s] == log[..m][s];
    if log[j].Sent? && log[j].request.Complete? {
      if s <= j { OneCompletionCandidate(init, log, s, j); } else { OneCompletionCandidate(init, log, j, s); }
    }
  }

  /** Migration, ticket replacement and completion never move a set anchor. */
  lemma {:induction false} RegistrationAnchorNeverMoves(init: Option<AgentState>, log: Trace, i: nat, j: nat)
    requires Legal(init, log) && i <= j <= |log|
    requires Durable(init, log, i).Some? && RegistrationAnchor(Durable(init, log, i).value).Some?
    ensures Durable(init, log, j).Some?
    ensures || Durable(init, log, j).value.registeredAt.Some?
            || RegistrationAnchor(Durable(init, log, j).value) == RegistrationAnchor(Durable(init, log, i).value)
  {
    if i < j {
      RegistrationAnchorNeverMoves(init, log, i, j - 1);
      DurableStep(init, log, j - 1);
    }
  }

  /** The save at k ends the episode by promoting exactly its candidate. */
  ghost predicate PromotedAt(init: Option<AgentState>, log: Trace, k: nat, episode: (string, Time, Time))
  {
    && k < |log| && Durable(init, log, k).Some? && log[k].Saved? && log[k].applied
    && Promotes(Durable(init, log, k).value, log[k].next) && log[k].next.deviceAPIKey == episode.0
    && ReplacementConfirmed(episode.0, log[k].next.deviceAPIKeyID) in log[..k]
  }

  /** From its first durable save a credential-recovery episode keeps candidate,
      anchor and deadline until a confirmed promotion of that same candidate. */
  lemma {:induction false} EpisodeNeverChanges(init: Option<AgentState>, log: Trace, i: nat, j: nat)
    requires Legal(init, log) && i <= j <= |log|
    requires Durable(init, log, i).Some? && Durable(init, log, i).value.pendingRecovery.Some?
    ensures var episode := Episode(Durable(init, log, i).value.pendingRecovery.value);
            || (exists k :: i <= k < j && PromotedAt(init, log, k, episode))
            || (&& Durable(init, log, j).Some? && Durable(init, log, j).value.pendingRecovery.Some?
                && Episode(Durable(init, log, j).value.pendingRecovery.value) == episode)
  {
    var episode := Episode(Durable(init, log, i).value.pendingRecovery.value);
    if i < j {
      EpisodeNeverChanges(init, log, i, j - 1);
      if !(exists k :: i <= k < j - 1 && PromotedAt(init, log, k, episode)) {
        DurableStep(init, log, j - 1);
        var p := Durable(init, log, j - 1).value;
        if Durable(init, log, j) != Durable(init, log, j - 1) && Promotes(p, log[j - 1].next) {
          assert PromotedAt(init, log, j - 1, episode);
        }
      }
    }
  }

  /** Every cell and Hub request of one episode is sent before the deadline the
      episode started with, and every cell request carries its one candidate. */
  lemma EpisodeRequests(init: Option<AgentState>, log: Trace, i: nat, j: nat)
    requires Legal(init, log) && i <= j < |log|
    requires Durable(init, log, i).Some? && Durable(init, log, i).value.pendingRecovery.Some?
    requires log[j].Sent? && (log[j].request.Replace? || log[j].request.Issue?)
    ensures var p := Durable(init, log, i).value.pendingRecovery.value;
            || (exists k :: i <= k < j && PromotedAt(init, log, k, Episode(p)))
            || (log[j].at < p.recoveryExpiresAt && (log[j].request.Replace? ==> log[j].request.candidate == p.deviceAPIKey))
  {
    EpisodeNeverChanges(init, log, i, j);
    assert StepOk(init, log, j);
  }

  /** The save at k takes the intent away, after the Hub answered or denied it. */
  ghost predicate ClearedAt(init: Option<AgentState>, log: Trace, k: nat, intent: PendingIssue) {
    && k < |log| && log[k].Saved? && log[k].applied
    && Durable(init, log, k).Some? && Durable(init, log, k).value.pendingIssue == Some(intent)
    && log[k].next.pendingIssue.None? && SettledBefore(log, k, intent.nonce)
  }

  lemma IntentStep(init: Option<AgentState>, log: Trace, n: nat, intent: PendingIssue)
    requires Legal(init, log) && n < |log|
    requires Durable(init, log, n).Some? && Durable(init, log, n).value.pendingIssue == Some(intent)
    ensures Durable(init, log, n + 1).Some?
    ensures Durable(init, log, n + 1).value.pendingIssue == Some(intent) || ClearedAt(init, log, n, intent)
  {
    DurableStep(init, log, n);
    if SettledBefore(log[..n], n, intent.nonce) {
      var k :| 0 <= k < n && Settles(log[..n][k], intent.nonce);
      assert log[k] == log[..n][k];
    }
  }

  /** A durable Hub intent stays exactly as saved, whatever the Hub answers and
      however often the process restarts, until a save takes it away; and that
      save follows an authenticated answer to or denial of its nonce. */
  lemma {:induction false} IntentStaysUntilCleared(init: Option<AgentState>, log: Trace, i: nat, j: nat)
    requires Legal(init, log) && i <= j <= |log|
    requires Durable(init, log, i).Some? && Durable(init, log, i).value.pendingIssue.Some?
    ensures var intent := Durable(init, log, i).value.pendingIssue.value;
            || (exists k :: i <= k < j && ClearedAt(init, log, k, intent))
            || (Durable(init, log, j).Some? && Durable(init, log, j).value.pendingIssue == Some(intent))
  {
    var intent := Durable(init, log, i).value.pendingIssue.value;
    if i < j {
      IntentStaysUntilCleared(init, log, i, j - 1);
      if !(exists k :: i <= k < j - 1 && ClearedAt(init, log, k, intent)) {
        IntentStep(init, log, j - 1, intent);
      }
    }
  }

  /** Until a save takes the intent away, every replay of a Hub issue carries
      the nonce, the credential fingerprint and the Hub identity of the durable
      intent, also when the Hub had already answered and the answer was lost. */
  lemma IssueReplaysAreExact(init: Option<AgentState>, log: Trace, i: nat, j: nat)
    requires Legal(init, log) && i <= j < |log|
    requires log[i].Sent? && log[i].request.Issue? && log[j].Sent? && log[j].request.Issue?
    ensures || log[i].request == log[j].request
            || exists k, intent: PendingIssue ::
                 i <= k < j && ClearedAt(init, log, k, intent) && intent.nonce == log[i].request.nonce
  {
    assert StepOk(init, log, i);
    assert StepOk(init, log, j);
    IntentStaysUntilCleared(init, log, i, j);
  }

  /** However often the save that opens an episode is retried under one nonce,
      grant, anchor, deadline and placement are the ones the Hub first gave. */
  lemma OneAnchorPerNonce(init: Option<AgentState>, log: Trace, i: nat, j: nat)
    requires Legal(init, log) && i <= j < |log| && log[i].Saved? && log[j].Saved?
    requires Durable(init, log, i).Some? && Opens(Durable(init, log, i).value, log[i].next)
    requires Durable(init, log, j).Some? && Opens(Durable(init, log, j).value, log[j].next)
    requires Durable(init, log, i).value.pendingIssue.value.nonce == Durable(init, log, j).value.pendingIssue.value.nonce
    ensures var p, q := log[i].next.pendingRecovery.value, log[j].next.pendingRecovery.value;
            p.anchor == q.anchor && p.recoveryExpiresAt == q.recoveryExpiresAt && p.grant == q.grant && p.assignment == q.assignment
  {
    assert StepOk(init, log, i);
    assert StepOk(init, log, j);
    var nonce := Durable(init, log, i).value.pendingIssue.value.nonce;
    var p, q := log[i].next.pendingRecovery.value, log[j].next.pendingRecovery.value;
    var a :| 0 <= a < i && log[a] == IssueAnswered(nonce, Issued(p.assignment, p.grant, p.grantIssuedAt, p.grantExpiresAt));
    var b :| 0 <= b < j && log[b] == IssueAnswered(nonce, Issued(q.assignment, q.grant, q.grantIssuedAt, q.grantExpiresAt));
    AnswersAgree(init, log, a, b, nonce);
  }

  lemma AnswersAgree(init: Option<AgentState>, log: Trace, a: nat, b: nat, nonce: string)
    requires Legal(init, log) && a < |log| && b < |log|
    requires log[a].IssueAnswered? && log[b].IssueAnswered? && log[a].nonce == nonce == log[b].nonce
    ensures log[a].issued == log[b].issued
  {
    assert StepOk(init, log, a);
    assert StepOk(init, log, b);
    if a < b {
      assert log[..b][a] == log[a];
    } else if b < a {
      assert log[..a][b] == log[b];
    }
  }

  /** After registration the placement only moves forward, over any number of
      renewals, recoveries and restarts. */
  lemma {:induction false} PlacementNeverRegresses(init: Option<AgentState>, log: Trace, i: nat, j: nat)
    requires Legal(init, log) && i <= j <= |log|
    requires Durable(init, log, i).Some?
    requires Durable(init, log, i).value.registeredAt.Some? && Durable(init, log, i).value.assignment.Some?
    ensures Durable(init, log, j).Some? && Durable(init, log, j).value.registeredAt == Durable(init, log, i).value.registeredAt
    ensures Durable(init, log, j).value.assignment.Some?
    ensures Continues(Durable(init, log, i).value.assignment.value, Durable(init, log, j).value.assignment.value)
  {
    if i < j {
      PlacementNeverRegresses(init, log, i, j - 1);
      DurableStep(init, log, j - 1);
    }
  }

  /** The save at k ends the refresh phase. */
  ghost predicate RefreshedAt(init: Option<AgentState>, log: Trace, k: nat) {
    k < |log| && log[k].Saved? && log[k].applied && !log[k].next.refreshRequired
  }

  /** From a promotion until the owed refresh is done nothing but placement
      requests leave, and no save opens a recovery or touches the promoted key. */
  lemma {:induction false} NoSecondEpisodeBeforeRefresh(init: Option<AgentState>, log: Trace, i: nat, j: nat)
    requires Legal(init, log) && i <= j < |log|
    requires init.Some? ==> PhasesOk(init.value)
    requires Durable(init, log, i).Some? && Durable(init, log, i).value.refreshRequired
    ensures var key := Durable(init, log, i).value.deviceAPIKey;
            || (exists k :: i <= k < j && RefreshedAt(init, log, k))
            || (&& Durable(init, log, j).Some? && Durable(init, log, j).value.refreshRequired
                && Durable(init, log, j).value.deviceAPIKey == key
                && (log[j].Sent? ==> log[j].request.Place?)
                && (log[j].Saved? ==>
                      log[j].next.pendingIssue.None? && log[j].next.pendingRecovery.None? && log[j].next.deviceAPIKey == key))
  {
    if i < j {
      NoSecondEpisodeBeforeRefresh(init, log, i, j - 1);
      DurableStep(init, log, j - 1);
      assert Durable(init, log, j) != Durable(init, log, j - 1) && !log[j - 1].next.refreshRequired ==>
          RefreshedAt(init, log, j - 1);
    }
    if !(exists k :: i <= k < j && RefreshedAt(init, log, k)) {
      PhasesStayOk(init, log, j);
      assert StepOk(init, log, j);
    }
  }

  /** The save at k puts another activation in the place of this one, after the
      cell's verdict that exactly this one was not committed. */
  ghost predicate ReplacedAt(init: Option<AgentState>, log: Trace, k: nat, a: PendingActivation) {
    && k < |log| && log[k].Saved? && log[k].applied
    && Durable(init, log, k).Some? && Durable(init, log, k).value.pendingActivation.Some?
    && Replaces(Durable(init, log, k).value, log[k].next)
    && var p := Durable(init, log, k).value.pendingActivation.value;
       SameActivation(a, p) && TicketExpired(p) in log[..k]
  }

  /** A durable activation stays, but for its migration, until it is completed
      or replaced after the verdict on exactly its ticket. */
  lemma {:induction false} ActivationStaysUntilVerdict(init: Option<AgentState>, log: Trace, i: nat, j: nat)
    requires Legal(init, log) && i <= j <= |log|
    requires Durable(init, log, i).Some? && Durable(init, log, i).value.pendingActivation.Some?
    ensures var a := Durable(init, log, i).value.pendingActivation.value;
            || (exists k :: i <= k < j && ReplacedAt(init, log, k, a))
            || (&& Durable(init, log, j).Some?
                && var s := Durable(init, log, j).value;
                || s.registeredAt.Some? || s.pendingCompletion.Some?
                || (s.pendingActivation.Some? && SameActivation(a, s.pendingActivation.value)))
  {
    var a := Durable(init, log, i).value.pendingActivation.value;
    if i < j {
      ActivationStaysUntilVerdict(init, log, i, j - 1);
      if !(exists k :: i <= k < j - 1 && ReplacedAt(init, log, k, a)) {
        DurableStep(init, log, j - 1);
        var p := Durable(init, log, j - 1).value;
        if Durable(init, log, j) != Durable(init, log, j - 1) && Replaces(p, log[j - 1].next) {
          if p.pendingActivation.Some? && SameActivation(a, p.pendingActivation.value) {
            assert ReplacedAt(init, log, j - 1, a);
          }
        }
      }
    }
  }

  /** A replaced activation had reached its cell. */
  lemma ReplacedActivationWasSent(init: Option<AgentState>, log: Trace, k: nat, a: PendingActivation)
    requires Legal(init, log) && ReplacedAt(init, log, k, a)
    ensures exists s :: 0 <= s < k && log[s].Sent? && log[s].delivered &&
                        log[s].request == Register(Durable(init, log, k).value.pendingActivation.value)
  {
    var p := Durable(init, log, k).value.pendingActivation.value;
    var s := ReplyWasAsked(init, log, k, TicketExpired(p));
  }

  /** Behind every authenticated reply stands a delivered request of its own. */
  lemma ReplyWasAsked(init: Option<AgentState>, log: Trace, k: nat, reply: Event) returns (s: nat)
    requires Legal(init, log) && k <= |log| && reply in log[..k] && !reply.Saved? && !reply.Sent?
    ensures s < k && Asks(log[s], reply)
  {
    var m :| 0 <= m < k && log[..k][m] == reply;
    assert StepOk(init, log, m);
    s :| 0 <= s < m && Asks(log[..m][s], reply);
  }

  /** A key that becomes the device key by recovery was carried to the cell, by
      a request sent while it was durable. */
  lemma PromotedKeyWasSent(init: Option<AgentState>, log: Trace, k: nat)
    requires Legal(init, log) && k < |log| && log[k].Saved?
    requires Durable(init, log, k).Some? && Promotes(Durable(init, log, k).value, log[k].next)
    ensures exists s :: 0 <= s < k && log[s].Sent? && log[s].delivered && log[s].request.Replace? &&
                        log[s].request.candidate == log[k].next.deviceAPIKey && RequestOk(Durable(init, log, s), log[s].request)
  {
    assert StepOk(init, log, k);
    var s := ReplyWasAsked(init, log, k, ReplacementConfirmed(log[k].next.deviceAPIKey, log[k].next.deviceAPIKeyID));
    assert StepOk(init, log, s);
  }
}
