# A verified model of the qURL agent lifecycle and its neighbours

This project models the parts of the qURL Go SDK whose correctness is about whole runs, and proves properties of
them in Dafny. `dafny verify dfyconfig.toml` checks everything.

**The agent lifecycle.** One durable record moves through registration (activation, completion, completed) and
credential recovery (issue intent, pending grant, promotion, owed refresh). `AgentStates` has the record and its load
validation. `World` is everything outside the process: a store whose save may apply and succeed, apply and fail, or
not apply and fail; a Hub that replays by nonce; a cell that commits the first candidate it sees; a clock that returns
anything; and a process that may be gone after any of these steps. Each of its methods adds to a trace, and demands of
the caller that the event is permitted. `Registration`, `CredentialRecovery` and `LifecycleRuns` are the SDK's calls
as methods on that world, so that verifying them shows every trace they can produce is legal. `LifecycleSpec` says
what a legal trace is, event by event, and proves what that makes true of every whole trace. `RecoveryBoundary` is the
deadline that fences each datagram. `AgentLifecycle` is what an opened runtime keeps: placement, key, capabilities.
`LegacyRecords` holds concrete records for two findings below, and `Base64` what the textual checks stand for.

**The other cores** stand alone: identifiers (`Crid` over `Base32` and a bit-level `Crc32c`; `CridDesign`,
`PolynomialRemainder` and `CheckValue` say what they are in terms of their own), the JSON token walk (`JsonStructure`,
and `StrictProblems` for which problem it reports), the retry driver (`Exchange`), the pinned state directory
(`PinnedStateDir` for its reference-counted close, `AtomicWrite` for the setup lock and the atomic replace, `PathWalk`
for opening it), `CredentialCache`, `DeviceKeyAsk`, `ConsumerProof` and the cell catalog (`Cells`).

Concurrent code is modelled as steps, one per critical section or channel operation, in any order the guards allow;
the theorems are about every sequence of such steps, and the classes beside them show that the code's critical sections
are those steps. Where Go would defer a clean-up, the method does it on every way out.

## What the proofs found

- `Registration.OnlyForwardRecordsActivate`: an unregistered record that holds a placement but no pending activation
  and was stored before schema 6 can never build a fresh activation, because the new recovery fields are validated
  against the schema the record was loaded with, before it is raised. The condition is exact: schema at least 6.
  `LegacyRecords.SchemaFiveCannotActivate` gives such a record.
- `LegacyRecords.AcceptedFingerprintIsCanonicalIffUnbroken`: a pending activation's enrolment fingerprint is decoded
  with a decoder that skips line breaks and is not compared with its re-encoding, so it is accepted with line breaks in
  it; it is canonical exactly when it holds none. `LegacyRecords.BrokenFingerprintLoads` gives such a record.
- `CredentialCache`: as the package constructs the cache, with the system clock, a failed or panicking refresh changes
  neither header nor expiry. The internal constructor takes any clock, and with one that panics the header changes
  alone; `OnlyAClockPanicTouchesTheHeader` is the exact condition and `PanickedClockLeavesANewHeaderUnderTheOldExpiry`
  the run. No caller outside the package can inject one.

## Model

| member | source | states |
|---|---|---|
| LifecycleSpec.OneCompletionCandidate | qurl/native_agent_runtime.go:1830-1873 | Over a whole trace, through crashes, lost replies, ambiguous saves and restarts, any two completion requests of one store carry the same device credential and the same placement |
| LifecycleSpec.CompletedKeyIsTheCommittedOne | qurl/native_agent_runtime.go:1830-1873 | With a cell that commits the first candidate it sees, the record that first becomes registered holds the committed candidate, and every completion request anywhere in the trace carries it |
| LifecycleSpec.CompletionCandidateStays | qurl/native_agent_runtime.go:1210-1237 | A durable completion candidate is in every later durable record until that record is a completed registration |
| LifecycleSpec.PlacementFixedWhileCompleting | qurl/native_agent_runtime.go:863-897 | The placement a candidate is bound to does not change between any two durable records that hold a completion candidate |
| LifecycleSpec.CommittedIsStable | qurl/native_agent_runtime.go:1830-1873 | What the cell committed in a prefix of the trace is what it has committed at the end |
| LifecycleSpec.CommittedWasSent | qurl/native_agent_runtime.go:1830-1873 | A committed candidate was carried by some delivered completion request |
| LifecycleSpec.RegistrationAnchorNeverMoves | qurl/native_agent_runtime.go:957-987 | Migration, ticket replacement and completion leave anchor and deadline of a registration as first set, until it is complete |
| LifecycleSpec.EpisodeNeverChanges | qurl/agent_credential_recovery.go:798-857 | From its first durable save a recovery episode keeps candidate key, anchor and deadline until a save that promotes that same, confirmed candidate |
| LifecycleSpec.EpisodeRequests | qurl/agent_credential_recovery.go:900-936 | Every Hub or cell request of an episode is sent before the deadline the episode started with, and each cell request carries its one candidate |
| LifecycleSpec.IntentStaysUntilCleared | qurl/agent_credential_recovery.go:564-651 | A durable Hub intent is in every later durable record, unchanged, whatever was answered or lost, until a save takes it away; and that save follows an authenticated answer to or denial of its nonce |
| LifecycleSpec.IssueReplaysAreExact | qurl/agent_credential_recovery.go:715-735 | Of two Hub issue requests the later equals the earlier in nonce, fingerprint and Hub identity, unless between them a save took the intent away after its nonce was answered or denied |
| LifecycleSpec.OneAnchorPerNonce | qurl/agent_credential_recovery.go:798-832 | However often the save opening an episode is repeated under one nonce, its anchor, deadline, grant and placement are the same |
| LifecycleSpec.NoSecondEpisodeBeforeRefresh | qurl/agent_credential_recovery.go:422-459 | From a promotion until the save that ends the owed refresh, at every event: nothing but placement requests leaves, and no save opens a recovery or touches the promoted key |
| LifecycleSpec.PlacementNeverRegresses | qurl/native_agent_runtime.go:2006-2038 | After registration (generation, endpoint revision) never decreases over any stretch of the trace; equal generation means the same cell, equal revision too the same endpoint |
| LifecycleSpec.PhasesStayOk | qurl/bootstrap.go:261-368 | Every durable record of a legal trace has a permitted combination of pending phases |
| LifecycleSpec.ValidRecordsHaveOkPhases | qurl/bootstrap.go:261-368 | The load validation admits no forbidden combination of pending phases |
| LifecycleSpec.DurableLoads | qurl/bootstrap.go:608-627 | Whatever record a trace leaves durable passes the load validation |
| LifecycleSpec.CrashLeavesALegalTrace | qurl/bootstrap.go:436-439 | Every prefix of a legal trace is legal, with the same durable record |
| LifecycleSpec.LegalExtends | qurl/bootstrap.go:436-439 | A permitted event extends a legal trace; an applied save is the next durable record |
| LifecycleSpec.DurableStep | qurl/bootstrap.go:436-439 | The durable record changes only by a save the rules permit, and never disappears |
| LifecycleSpec.ActivationStaysUntilVerdict | qurl/native_agent_runtime.go:1004-1089 | A durable activation stays, but for its migration, in every later durable record until it is completed, or replaced after the cell's verdict that exactly this one was not committed |
| LifecycleSpec.ReplacedActivationWasSent | qurl/native_agent_runtime.go:1081-1089 | A replaced activation had reached its cell |
| LifecycleSpec.PromotedKeyWasSent | qurl/agent_credential_recovery.go:900-936 | A key promoted by recovery was carried to the cell by a delivered request sent while it was the durable candidate |
| LifecycleSpec.ReplyWasAsked | qurl/agent_assignment.go:540-634 | Behind every authenticated reply of a trace stands an earlier delivered request of its own |
| RecoveryBoundary.ExpiredIffDeadlineSeen | qurl/agent_credential_recovery.go:1232-1244 | After any clock readings the boundary is expired if and only if one of them was set and at or past the deadline |
| RecoveryBoundary.AllowedIffNeverExpired | qurl/agent_credential_recovery.go:1221-1244 | A datagram is allowed if and only if the clock is set and no reading up to now reached the deadline: a clock stepping back reopens nothing |
| RecoveryBoundary.Boundary.CheckAt | qurl/recovery_horizon.go:166-178 | The sticky field is that of all readings so far; an allowed reading is one before which, itself included, no reading reached the deadline |
| AgentStates.PreparedIsLoadedAs | qurl/bootstrap.go:654-662 | A stored record that loads stays valid when its absent public key is filled in |
| AgentStates.LabelsAreBetweenDots | qurl/agent_assignment.go:1092-1105 | The labels a host is checked by hold no dot and give the host back when joined with dots |
| AgentStates.AcceptedIffContinues | qurl/native_agent_runtime.go:2006-2038 | A refreshed placement is accepted if and only if it continues the old one (generation, then revision, never back; same generation, same cell; same revision, same endpoint) and, unless adoption is allowed, cell and generation stay |
| Base64.Base64Url32IffSpelled | qurl/agent_credential_recovery.go:1064-1074 | A nonce or fingerprint text is accepted if and only if it is the unpadded base64url spelling of some 32 bytes |
| Base64.PublicKeyTextIffSpelled | internal/x25519key/public.go:30-50 | A public key text is accepted if and only if it is the padded standard base64 spelling of some 32 bytes |
| Base64.NonceIffSpelled | qurl/consumer_proof.go:50-53 | A proof nonce is accepted if and only if it is the unpadded base64url spelling of some 32 bytes |
| Base64.FromDigits | qurl/agent_credential_recovery.go:1064-1074 | Any digits of which the last leaves its spare bits zero are those of some bytes |
| World.Environment.Append | qurl/bootstrap.go:436-439 | Only a permitted event enters the trace, and the store follows it |
| World.Environment.Save | qurl/bootstrap.go:436-439 | A save must satisfy the load validation and the step rules; it may apply and succeed, apply and fail, or not apply and fail |
| World.Environment.Transmit | qurl/agent_assignment.go:540-634 | Every datagram of a request goes out while its request is durable and on a reading the boundary permits; a boundary that has seen its deadline lets nothing out; success comes only with a delivered request |
| World.Environment.FetchInitial | qurl/agent_assignment.go:458-489 | A Hub placement for enrolment is validated and its ticket unexpired on the last reading; the record is untouched |
| World.Environment.Refresh | qurl/agent_assignment.go:498-522 | A Hub refresh returns a valid placement with a live lease and issues no credential request |
| World.Environment.Register | qurl/native_agent_runtime.go:1626-1671 | A cell registration carries the durable activation, fenced by its deadline; the expiry verdict is on record for exactly that activation |
| World.Environment.Complete | qurl/native_agent_runtime.go:1875-1893 | Completion succeeds only for the candidate the cell committed; the key ID it returns is on record with it |
| World.Environment.Issue | qurl/agent_credential_recovery.go:715-735 | An issue request carries the durable nonce, fingerprint and Hub; the verdict is recorded with that nonce |
| World.Environment.Replace | qurl/agent_credential_recovery.go:900-936 | A credential replacement carries the durable candidate, grant and placement; a confirmation or rejection follows a delivered request of its own |
| World.Environment.SendOne | internal/udpfence/fence.go:15-37 | One datagram goes out on one reading its boundary permits, or not at all |
| Runtime.FinishedIsOpened | qurl/native_agent_runtime.go:711-736 | What passes the completed-state checks is opened from a durable record with no transition outstanding, as the agent asked for, on a lease that is still running |
| Runtime.FinishesExactly | qurl/native_agent_runtime.go:711-736 | A record that loads passes the completed-state checks if and only if it is a completed registration of the agent asked for, key in place, nothing outstanding, lease still running |
| Runtime.LoadPrepared | qurl/bootstrap.go:654-662 | A load of a readable store gives the durable record with at most its public key filled in, or fails exactly when there is none that loads |
| Runtime.OpenBoundary | qurl/agent_credential_recovery.go:1211-1219 | A boundary is opened unexpired, at the deadline asked for, on a reading before it |
| Runtime.CheckBoundary | qurl/agent_credential_recovery.go:1225-1230 | A check passes if and only if the boundary had not expired and the clock is set and short of the deadline; an expired boundary stays expired |
| Runtime.GenerateDeviceKey | qurl/native_agent_runtime.go:1731-1745 | A generated candidate is a well-formed device key |
| Runtime.OpenCompleted | qurl/native_agent_runtime.go:711-748 | Opening a completed record, on its own reading of the clock: what opens is the agent asked for, rests on the durable record and has a live lease |
| CredentialRecovery.SaveOrReconcile | qurl/agent_credential_recovery.go:1278-1302 | A save reported as failed counts exactly when the store can be read and holds the record that was to be saved; only a crash ends the call without that look |
| CredentialRecovery.PersistIssueIntent | qurl/agent_credential_recovery.go:677-713 | The intent is saved before any request, with the asked Hub, credential and identity and a nonce that is not the forbidden one; its cutoff is the horizon from the second it was made in, or the episode deadline if that comes first |
| CredentialRecovery.ClearIssueIntent | qurl/agent_credential_recovery.go:662-675 | Only an authenticated denial of the same nonce clears the intent, and nothing else |
| CredentialRecovery.OpeningIsPermitted | qurl/agent_credential_recovery.go:798-832 | The record opening an episode loads again and obeys the step rules |
| CredentialRecovery.Judge | qurl/agent_credential_recovery.go:790-795 | A result is stale if and only if the clock, read for it, is at or past the grant expiry or the lease expiry |
| CredentialRecovery.PersistInitial | qurl/agent_credential_recovery.go:798-832 | A new episode gets the given candidate, the issued grant with its times and placement, and an anchor and deadline fixed by the grant expiry; the clock is short of that deadline; an answer is refused if and only if its placement does not continue the old one |
| CredentialRecovery.PersistRenewed | qurl/agent_credential_recovery.go:834-857 | A renewal takes over the issued grant with its times and placement, before the deadline: candidate, anchor and deadline stay |
| CredentialRecovery.IssueAndPersist | qurl/agent_credential_recovery.go:564-651 | One issue operation spends at most one nonce, never the forbidden one, and keeps the episode of its start; the saved episode asks for a fresh grant if and only if its grant or lease was over at the deciding reading |
| CredentialRecovery.IntendIssue | qurl/agent_credential_recovery.go:564-622 | Before any request there is a live fence at the episode deadline (or the intent's cutoff) and a durable intent for exactly this credential, which is well formed, and Hub, whose nonce is not the forbidden one |
| CredentialRecovery.FenceIssue | qurl/agent_credential_recovery.go:576-593 | The fence is the episode deadline once there is an episode, the intent's cutoff before |
| CredentialRecovery.PersistIssued | qurl/agent_credential_recovery.go:636-651 | An authenticated result consumes the intent and is what is saved, marked for a fresh grant if and only if its grant or lease was over at the deciding reading; a renewal keeps candidate, anchor and deadline of its episode |
| CredentialRecovery.CompleteRecovery | qurl/agent_credential_recovery.go:900-936 | Success comes with the cell confirming exactly the durable candidate under the key ID returned, a refusal with the rejection of exactly its grant |
| CredentialRecovery.MarkGrantRejected | qurl/agent_credential_recovery.go:1263-1276 | A rejected grant is only flagged; nothing else in the episode changes |
| CredentialRecovery.FinishRefresh | qurl/agent_credential_recovery.go:465-484 | The refresh phase is cleared if and only if the runtime can be opened at that moment; the record is the old one or the old one with the phase cleared, also on failure |
| CredentialRecovery.FinishRecovered | qurl/agent_credential_recovery.go:422-459 | After a promotion only placement is refreshed; a move that continues is saved, and what opens is where the Hub now says, the same agent with the same key and key ID, on a completed durable record |
| CredentialRecovery.AdoptionIsPermitted | qurl/agent_credential_recovery.go:445-455 | Saving a placement that continues, while the refresh is owed, loads again and obeys the step rules |
| CredentialRecovery.PromotionIsPermitted | qurl/agent_credential_recovery.go:392-420 | The promoting record loads again and obeys the step rules |
| CredentialRecovery.ObtainGrant | qurl/agent_credential_recovery.go:364-390 | A usable grant costs at most two nonces, the second only after a grant that was dead at its own reading; once a grant was issued, success if and only if the last one was live at its reading; the episode it started with is the one it ends with |
| CredentialRecovery.CompleteAndPromote | qurl/agent_credential_recovery.go:392-420 | Completing sends no Hub issue request at all; success opens the durable record whose key is the candidate, under the key ID the cell confirmed it with |
| CredentialRecovery.RecoverLocked | qurl/agent_credential_recovery.go:308-420 | One recover call uses at most two distinct nonces on any way out, a second one only after a grant that was dead at its own reading, nothing leaves and nothing is saved for another agent or an incomplete record, and a runtime it opens is the agent asked for and rests on a completed durable record |
| CredentialRecovery.Reconcile | qurl/agent_credential_recovery.go:1290-1302 | For a store that can be read: success if and only if it holds that record |
| Registration.MigrationIsPermitted | qurl/native_agent_runtime.go:957-987 | A migrated legacy activation loads again and obeys the step rules |
| Registration.ActivationIsPermitted | qurl/native_agent_runtime.go:1091-1160 | A fresh or replacing activation loads again, obeys the step rules and keeps a set anchor |
| Registration.FreshIsPermitted | qurl/native_agent_runtime.go:1126-1159 | A fresh activation made for a new placement loads again, obeys the step rules, keeps a set anchor, holds the inputs of the call and can be resumed with them |
| Registration.OnlyForwardRecordsActivate | qurl/native_agent_runtime.go:1363-1390 | A fresh activation can be built for a record if and only if its schema is at least 6 and it could be built for the same record at the current schema |
| Registration.CompletingIsPermitted | qurl/native_agent_runtime.go:1210-1237 | The record that trades the activation for a candidate loads again and obeys the step rules |
| Registration.RegisteredIsPermitted | qurl/native_agent_runtime.go:1830-1873 | The completed record loads again and, given the cell's confirmation, obeys the step rules |
| Registration.PlacementIsPermitted | qurl/native_agent_runtime.go:2698-2756 | Adopting a placement that passed continuity loads again and obeys the step rules |
| Registration.Persist | qurl/native_agent_runtime.go:1830-1873 | A save that fails ends the call; the store holds the old or the new record |
| Registration.PreparePending | qurl/native_agent_runtime.go:957-987 | Only the legacy activation is migrated, to its own ticket expiry and the horizon from there, and nothing else changes; afterwards every pending phase has a deadline, and a completion without one is refused |
| Registration.PersistFresh | qurl/native_agent_runtime.go:1091-1160 | The durable activation holds, field by field, the hostname, version and credential fingerprint of the call, the identity of the record, ticket, expiry, registration and placement of the Hub answer, and the deadline counted from its anchor; a replacement needs the verdict on the ticket it replaces and keeps its anchor; no registration request is sent |
| Registration.FetchAllowed | qurl/native_agent_runtime.go:1091-1135 | A Hub answer of an allowed kind, behind the fence of the activation it replaces; an account takes exactly one passcode, any other none |
| Registration.MadeForResumes | qurl/native_agent_runtime.go:1162-1178 | After a crash, what a load gives of an activation passes the comparisons of the call that made it, repeated with the same inputs |
| Registration.AnchorIsKept | qurl/native_agent_runtime.go:1136-1142 | The replacing record has the registration anchor of the replaced one |
| Registration.ResumeCredential | qurl/native_agent_runtime.go:1162-1208 | An activation is resumed only with the key kind, metadata and credential it was made with, and always when they fit and the passcode an account takes was given; it is asked for only then |
| Registration.RegisterPending | qurl/native_agent_runtime.go:1626-1671 | Only the durable activation is registered and the record is left alone; a refused ticket is on record for exactly that activation |
| Registration.Transition | qurl/native_agent_runtime.go:1210-1237 | The candidate is durable before completion, bound to the cell and generation that accepted it; it inherits anchor and deadline, the key kind is kept, and nothing else changes |
| Registration.CompletePending | qurl/native_agent_runtime.go:1830-1873 | The completed record is the pending one with its candidate, which is the one the cell committed, under the key ID the cell confirmed it with, registered at the last reading of the clock |
| Registration.CompleteActivation | qurl/native_agent_runtime.go:1004-1079 | After the cell's acceptance the runtime opened rests on a completed durable record |
| Registration.ActivateAndComplete | qurl/native_agent_runtime.go:1004-1079 | One call registers at most two activations, each with the inputs of the call, and a second one only after the verdict that an earlier one was not committed; a second attempt is made if and only if the first ended in that verdict |
| Registration.RenewCompleted | qurl/native_agent_runtime.go:2698-2756 | A renewal persists only a placement that passed continuity, and owes no refresh when it opens |
| Registration.LoadOrCreate | qurl/bootstrap.go:667-680 | The durable record, or a fresh unsaved identity when there is none |
| Registration.RegisterLocked | qurl/native_agent_runtime.go:794-949 | Every save and every request of a register call keeps the rules, whatever was durable at its start; it registers at most two activations, each holding the key kind, hostname, version and credential fingerprint of this call, so that the same call resumes it; nothing leaves and nothing is saved for another agent than the one stored, no fresh identity is saved by a call that could not enrol it, and what opens is the agent asked for |
| Registration.FinishEnrolling | qurl/native_agent_runtime.go:839-949 | The same from a checked incomplete record on: a durable candidate is completed, an activation registered |
| Registration.CompleteAndOpen | qurl/native_agent_runtime.go:859-897 | A durable candidate is completed and then opened, or renewed first when its lease is over; nothing is registered |
| Registration.RenewOrOpen | qurl/native_agent_runtime.go:809-825 | A live lease opens without any request or save, and nothing is registered; what opens has a live lease on the last reading of the clock |
| Registration.PersistIdentity | qurl/native_agent_runtime.go:918-926 | The first save is a bare identity: the agent ID asked for, or the one there was, and nothing else |
| Registration.RenewSession | qurl/native_agent_runtime.go:758-792 | A session renewal returns the placement the store holds for that agent, and asks the Hub only when the lease has no more than five minutes to run |
| Registration.ReadyActivation | qurl/native_agent_runtime.go:1014-1046 | An attempt registers the durable activation, resumed with its own inputs, or a fresh one made from the inputs of the call; nothing is registered before |
| Registration.Attempt | qurl/native_agent_runtime.go:1014-1071 | One attempt registers at most one activation, which holds the inputs of the call; a verdict is the one on exactly that activation, which is still durable |
| Registration.RefreshPlacement | qurl/native_agent_runtime.go:2735-2751 | Only the Hub answer is saved, and only if it continues the old placement, with cell and generation as they were when the placement is pinned; an answer is refused as reassigned if and only if it does not; nothing but the placement changes |
| LegacyRecords.SchemaFiveCannotActivate | qurl/native_agent_runtime.go:1363-1390 | For every key pair a concrete record stored at schema 5 that loads, could be activated at the current schema, and cannot be activated at its own with any placement |
| LegacyRecords.AcceptedFingerprintIsCanonicalIffUnbroken | qurl/native_agent_runtime.go:1434-1438 | An accepted enrolment fingerprint is the canonical spelling if and only if it holds no line break |
| LegacyRecords.BrokenFingerprintLoads | qurl/native_agent_runtime.go:1434-1438 | For every key pair a concrete record whose fingerprint holds a line break and which loads |
| LifecycleRuns.RefreshRuntime | qurl/native_agent_runtime.go:2679-2689 | A refresh call keeps the rules and opens only a completed durable record |
| LifecycleRuns.Connect | qurl/native_agent_runtime.go:641-688 | The warm open, and registration only when that declines; the rules are kept and what opens is live |
| LifecycleRuns.AnyRun | qurl/native_agent_runtime.go:794-949 | Any number of calls by any number of process incarnations leaves a legal trace with loadable saves and one completion candidate |
| LifecycleRuns.WarmOpen | qurl/native_agent_runtime.go:653-669 | Nothing leaves and nothing is saved; it declines only a record that is absent, unregistered, without placement or expired, and what it opens is live |
| AgentLifecycle.Binding.constructor | qurl/agent_lifecycle.go:334-351 | A binding starts at the placement the store held, for the agent opened |
| AgentLifecycle.Binding.CheckedAssignment | qurl/agent_lifecycle.go:455-467 | An edited exported field fails the exchange |
| AgentLifecycle.Binding.LiveSessionAssignment | qurl/agent_lifecycle.go:410-448 | The placement used is live, never older than the last one, unedited; a renewal is tried if and only if no more than the lead is left; with strict margin when asked; a live lease outlives a failed renewal, an expired one does not |
| AgentLifecycle.StoreMovesOn | qurl/native_agent_runtime.go:2006-2038 | The store holds now what it held, or something that continues it |
| AgentLifecycle.KeyOwner.Borrow | qurl/agent_lifecycle.go:214-227 | A key is lent only while owned |
| AgentLifecycle.KeyOwner.Take | qurl/agent_lifecycle.go:247-257 | The key leaves once, with its bytes intact and its finaliser off |
| AgentLifecycle.KeyOwner.Destroy | qurl/agent_lifecycle.go:259-268 | Every byte is zero and the owner is empty |
| AgentLifecycle.Scope.WithSetupLock | qurl/agent_lifecycle.go:568-617 | Both capabilities are given back exactly once on every way out; a fault at any boundary overrides the result, which is either returned or cleaned up |
| Crid.AcceptedIffSpelled | crid/crid.go:173-215 | Accepted if and only if the string is base32 of payload and CRC32C with a 25- or 33-byte payload and a nonzero version |
| Crid.SpelledIsAccepted | crid/crid.go:173-215 | The spelling of a payload parses to its version, digest and registry answers |
| Crid.AcceptedIsSpelled | crid/crid.go:173-215 | An accepted string is the spelling of its own version and digest |
| Crid.AcceptedIsUnique | crid/crid.go:173-215 | Two accepted strings with one version and digest are equal |
| Crid.RejectedExactly | crid/crid.go:54-84 | Each of the five rejections if and only if its own condition; a bad checksum is a canonical string that spells no payload |
| Crid.CanonicalIffNoSpareBits | crid/crid.go:188-197 | Re-encoding gives the string back if and only if the low three (47) or four (60) bits of its last character are zero |
| Crid.OneWrongCharacterIsRejected | crid/crid.go:173-215 | Every string differing from an accepted one in exactly one character is rejected, and in which class |
| Crid.FiveWrongCharactersAreRejected | crid/crid.go:173-215 | No change to up to five neighbouring payload characters of an accepted string is accepted |
| Crid.PayloadBurstIsSeen | crid/crid.go:198-201 | Spellings that differ only in up to five neighbouring payload characters are of the same payload |
| Crid.StraddlingCharacterIsSeen | crid/crid.go:198-201 | The same for the one character that holds four payload bits and the top checksum bit |
| Crid.TrailerHoldsNoPayload | crid/crid.go:198-201 | Characters after the payload do not decide it |
| Crid.SpellBits | crid/crid.go:187-201 | The bits of a spelling are the payload, the checksum most significant bit first, and zeros |
| Crid.SpellsIffItDecodes | crid/crid.go:187-201 | A string spells a payload if and only if it re-encodes to itself and decodes to payload and matching checksum |
| Crid.KeyMatchesIffDerivedAgain | crid/crid.go:245-271 | A key matches if and only if deriving the identifier again at its version and digest length gives the same string |
| Crid.FirstLetter | crid/doc.go:55-59 | Known production identifiers start with a, test ones with q, and the active ones are those of full length |
| Crid.BigEndian | crid/crid.go:199-199 | Bit by bit, the checksum bytes run from the most significant bit down |
| CridDesign.AcceptedIffRemainder | crid/crid.go:173-215 | Accepted if and only if the string is the base32 of a nonzero version byte, a 24- or 32-byte digest, and the complement of the remainder of both by the Castagnoli polynomial, most significant bit first |
| CridDesign.SpelledIsCodeword | crid/crid.go:195-198 | What a payload is spelled with is such a remainder |
| CridDesign.CodewordIsSpelled | crid/crid.go:195-198 | Nothing else is |
| CridDesign.KnownVersions | crid/crid.go:111-120 | Known, active and environment, by version number and digest length: the four rows of the registry and nothing else |
| CridDesign.KeyMatchesIffCommitted | crid/crid.go:245-271 | With the hashed bytes written out (sixteen letters, a zero, the key): a key matches if and only if the string spells its version and the leading bytes of the digest |
| CridDesign.SecondKeyIsCollision | crid/doc.go:6-19 | A second key that matches one identifier is two different hashed inputs with one digest prefix |
| CridDesign.LettersAreFiveBits | crid/crid.go:23-27 | The i-th letter of an encoding is that of its i-th five bits, high bit first, in the RFC 4648 alphabet |
| CridDesign.CodeReadsTheByte | crid/crid.go:111-120 | A byte is the number its bits spell, high bit first, and the only byte with that number |
| PolynomialRemainder.ChecksumIsRemainder | crid/crid.go:196-196 | The checksum is the complement of the remainder of the message polynomial, its first 32 bits complemented, by the Castagnoli generator: some quotient leaves it and no quotient leaves another |
| PolynomialRemainder.OneRemainder | crid/crid.go:196-196 | Quotient and remainder are unique |
| PolynomialRemainder.FeedDivides | crid/crid.go:196-196 | Feeding bits to the register is long division |
| PolynomialRemainder.RegisterFeeds | crid/crid.go:196-196 | Byte by byte the register takes the message bits in order, each byte from its low bit on |
| PolynomialRemainder.GeneratorIsPolynomial | crid/crid.go:33-36 | The exponents of the generator, written out, are those of the reflected constant |
| CheckValue.CheckValues | crid/crid.go:196-196 | The checksum of the nine digits is 0xE3069283, that of nothing is zero: start value, final complement and bit order are fixed |
| CheckValue.ShiftOfBits | crid/crid.go:51-51 | One step of the register is a machine shift and a conditional exclusive or with 0x82F63B78 |
| Crc32c.PolynomialIsCastagnoli | crid/crid.go:32-37 | The generator is 0x82F63B78, the reflected Castagnoli polynomial |
| Crc32c.BurstIsSeen | crid/crid.go:199-201 | Two byte strings of one length that differ only within four consecutive bytes have different checksums |
| Crc32c.LastNibbleIsSeen | crid/crid.go:199-201 | A change in the last four bits shows in the checksum bits other than the top one |
| Crc32c.StraddleIsSeen | crid/crid.go:199-201 | Such a change never turns into the top checksum bit alone, nor into nothing |
| Crc32c.ChecksumDifference | crid/crid.go:199-201 | The difference of two checksums is the register of the difference of the inputs |
| Crc32c.RegisterDifference | crid/crid.go:199-201 | The register is linear in state and data |
| Crc32c.TableStep | crid/crid.go:51-51 | Eight bit steps are one table lookup on the low byte and a shift by a byte |
| Crc32c.FourBytesCannotCancel | crid/crid.go:199-201 | Four bytes that take an empty register back to empty are zero |
| Crc32c.QuietRegister | crid/crid.go:199-201 | Zero bytes neither empty a register nor fill an empty one |
| Crc32c.ShiftNKeepsNonzero | crid/crid.go:199-201 | No number of steps empties a register |
| Base32.DecodeEncode | crid/crid.go:187-197 | Decoding gives back every encoded byte string |
| Base32.CanonicalIffSpareBitsAreZero | crid/crid.go:189-197 | Of the strings decoding to the same bytes exactly the one with zero spare bits is their encoding |
| Base32.GroupRoundTrip | crid/crid.go:50-50 | Grouping into characters keeps the bits and adds only zeros; lengths are exact |
| Base32.SymbolRoundTrip | crid/crid.go:23-25 | Five bits survive the alphabet |
| Base32.QuintetRoundTrip | crid/crid.go:23-25 | A character of the alphabet survives its five bits |
| Base32.UngroupIsInjective | crid/crid.go:50-50 | Strings with the same bits are the same |
| JsonStructure.PassesIffItFits | qurl/json_structure.go:52-67 | The walk passes exactly the token streams of one document that fits the policy, with nothing after it, and reports the root names |
| JsonStructure.AssignmentDocuments | qurl/agent_assignment.go:1215-1231 | Assignment documents pass if and only if they are one object, no object at any depth repeats a name, and nesting is at most 64 levels |
| JsonStructure.StrictDocuments | qurl/qv2_parse.go:88-97 | Strict documents pass if and only if they are one object of allowed, distinct, non-null members |
| JsonStructure.FittingValueIsRead | qurl/json_structure.go:69-111 | A fitting value is read whole and leaves the decoder right behind it |
| JsonStructure.FittingMembersAreRead | qurl/json_structure.go:113-142 | The same for the members of an object, whose names are reported |
| JsonStructure.FittingItemsAreRead | qurl/json_structure.go:97-107 | The same for the items of an array |
| JsonStructure.ReadValueFits | qurl/json_structure.go:69-111 | Whatever was read is one fitting value, and the decoder stands right behind it |
| JsonStructure.ReadMembersFit | qurl/json_structure.go:113-142 | The same for members: distinct from each other and from the names seen |
| JsonStructure.ReadItemsFit | qurl/json_structure.go:97-107 | The same for items |
| JsonStructure.DrainSkipsValue | qurl/json_structure.go:144-161 | Draining passes over one whole value and no further |
| JsonStructure.DocumentsAreGrammatical | qurl/json_structure.go:69-142 | Every document is what a decoder may hand out, so the hypothesis about its tokens excludes no document |
| JsonStructure.ValueOrCutShort | qurl/json_structure.go:144-161 | In what a decoder hands out, a value is complete, or draining it reports an error |
| JsonStructure.DrainedValue | qurl/json_structure.go:92-95 | Where draining a nested container succeeds, it stops where reading that one value would |
| JsonStructure.FitsIffUniqueAndShallow | qurl/agent_assignment.go:1215-1231 | Fitting the bounded policy is name uniqueness at every depth and bounded nesting |
| JsonStructure.StrictMembers | qurl/qv2_parse.go:88-97 | Fitting the strict policy is distinct, allowed, non-null root members |
| JsonStructure.Walker.Value | qurl/json_structure.go:69-111 | The method reads what the function says, moves the decoder there, and recurses only within the policy's depth |
| JsonStructure.Walker.Object | qurl/json_structure.go:113-142 | The loop over members agrees with the function |
| JsonStructure.Walker.Array | qurl/json_structure.go:97-107 | The loop over items agrees with the function |
| JsonStructure.Walker.DrainContainer | qurl/json_structure.go:144-161 | The counting loop agrees with the function and ends |
| JsonStructure.Walker.Run | qurl/json_structure.go:52-67 | The whole walk agrees with the function |
| JsonStructure.Walker.HasMore | qurl/json_structure.go:62-62 | Whether another element follows, from the next token or the broken end |
| JsonStructure.Walker.Next | qurl/json_structure.go:73-76 | One token, and the decoder moves past it |
| StrictProblems.OffenceIsReported | qurl/qv2_parse.go:101-110 | In a strict document the first member that is unknown, repeated or null is reported as just that, with its name, whatever comes after it |
| StrictProblems.ReportedOffence | qurl/qv2_parse.go:101-110 | And nothing else is: behind every such report stand sound members and then exactly that one |
| StrictProblems.TrailingIsReported | qurl/json_structure.go:62-65 | Anything after a document that fits is reported as trailing, and whether another value seemed to follow |
| StrictProblems.ReportedTrailing | qurl/json_structure.go:62-65 | And nothing else is |
| StrictProblems.NotObjectIffItDoesNotOpenOne | qurl/json_structure.go:77-80 | A document is reported as no object if and only if its first token does not open one |
| StrictProblems.LeadingIsRead | qurl/json_structure.go:113-136 | Fitting members are read past, and remembered as seen |
| Exchange.Run | qurl/agent_assignment.go:540-634 | At most maxAttempts exchanges with the same body, each behind its own fence check; every wait between RetryAfter and the remaining budget; a terminal authenticated verdict unwrapped; silence reported exactly when some attempt got no reply and all others none or a context end; each exit told from the last attempt; the caller is blamed only if its context had ended at the last look, an exhausted budget only if the transaction had ended and the caller had not, and a wait is called too long only if it exceeds what is left of the budget |
| Exchange.WindowDoublesUpToTheCap | qurl/agent_assignment.go:701-706 | The jitter window is 500 ms doubled per attempt up to 8 s, for every attempt number, within a signed 64-bit duration |
| Exchange.Backoff | qurl/agent_assignment.go:701-718 | A draw counts if and only if it is in the window, and a wait is RetryAfter or the draw, whichever is longer |
| Exchange.Expire | qurl/agent_assignment.go:595-613 | When the transaction is over: the caller's error if and only if its own context had ended, naming silence if there was any, else recovery with at least the whole budget elapsed |
| Exchange.Pause | qurl/agent_assignment.go:617-632 | Between attempts: stop with the exact reason, told from the wait drawn and from the last look at either context, or wait within bounds |
| Exchange.ElapsedSince | qurl/agent_assignment.go:669-675 | Elapsed time is never negative |
| Exchange.HeardSoFar | qurl/agent_assignment.go:569-579 | How one more attempt changes what the silence bookkeeping stands for |
| PinnedStateDir.StepKeepsInv | qurl/pinned_state_dir.go:244-349 | Every critical section keeps reference count, leadership, single close and wake-up |
| PinnedStateDir.RunKeepsInv | qurl/pinned_state_dir.go:244-349 | So does every interleaving of any number of threads |
| PinnedStateDir.NoUnderflow | qurl/pinned_state_dir.go:257-280 | References are the leases outstanding plus the owner's until close begins; a release never underflows |
| PinnedStateDir.NoLeaseAfterCloseBegins | qurl/pinned_state_dir.go:244-255 | Once close has begun no lease is granted, for good |
| PinnedStateDir.ClosersAgree | qurl/pinned_state_dir.go:310-349 | All callers of close that returned got the same error; the directory was closed once, with no lease out |
| PinnedStateDir.OneShut | qurl/pinned_state_dir.go:333-348 | The directory is closed once, and its result is what the leader carries and then publishes |
| PinnedStateDir.ClosersGetTheResult | qurl/pinned_state_dir.go:333-348 | What every caller of close gets is the result of that one close |
| PinnedStateDir.ShutsWithNoLease | qurl/pinned_state_dir.go:333-341 | The directory is closed when no lease is out and for the first time |
| PinnedStateDir.ReleasedMeansProgress | qurl/pinned_state_dir.go:310-349 | With all leases released, some caller of close can go on: no wake-up is lost |
| PinnedStateDir.Dir.TryRetain | qurl/pinned_state_dir.go:244-255 | The section is the step of the model |
| PinnedStateDir.Dir.ReleaseLease | qurl/pinned_state_dir.go:257-280 | The section is the step of the model; in a reachable state it does not underflow |
| PinnedStateDir.Dir.EnterClose | qurl/pinned_state_dir.go:310-333 | The way into close is the step of the model |
| PinnedStateDir.Dir.DrainOrTake | qurl/pinned_state_dir.go:329-336 | Sleep while references are left, else take the directory |
| PinnedStateDir.Dir.LookAgain | qurl/pinned_state_dir.go:320-336 | After a broadcast the waiter looks again |
| PinnedStateDir.Dir.FinishClose | qurl/pinned_state_dir.go:342-348 | The result is published for all |
| AtomicWrite.StateDir.WriteFileAtomic | qurl/pinned_state_dir_unix.go:594-692 | At every point a crash leaves one of the old contents or the new one, whole; success means the visible entry is the inode just written and synced; a temp file made is renamed or its removal is asked for, never both; without the lock, or when the entry is not the tracked one, nothing is written |
| AtomicWrite.StateDir.Replace | qurl/pinned_state_dir_unix.go:618-692 | From the new temp file on: filled, looked at again, renamed, confirmed; a temp file that was not renamed is removed |
| AtomicWrite.StateDir.Prepare | qurl/pinned_state_dir_unix.go:594-617 | Up to the temp file the visible entry is untouched, and a strange entry stops the write |
| AtomicWrite.StateDir.Fill | qurl/pinned_state_dir_unix.go:633-645 | Writing the temp file keeps the visible entry; success means its content is on disk |
| AtomicWrite.StateDir.LookAgain | qurl/pinned_state_dir_unix.go:646-668 | The last look finds the temp inode, then the entry with its tracked identity |
| AtomicWrite.StateDir.Commit | qurl/pinned_state_dir_unix.go:669-691 | The rename publishes the synced inode; success means it was reported done and the inode is visible, durable and tracked |
| AtomicWrite.StateDir.RemoveTemp | qurl/pinned_state_dir_unix.go:618-632 | Cleaning up touches no other name |
| AtomicWrite.StateDir.Rename | qurl/pinned_state_dir_unix.go:669-671 | Needs the lock, and that the entry had its tracked identity when last looked at; it moves whatever the temp name leads to by then, and an error leaves either outcome |
| AtomicWrite.StateDir.Track | qurl/pinned_state_dir_unix.go:738-752 | Within one tenure of the lock an entry keeps the identity it was first seen with |
| AtomicWrite.StateDir.CreateTemp | qurl/pinned_state_dir_unix.go:694-710 | The temp name is new and its inode fresh |
| AtomicWrite.StateDir.Activate | qurl/pinned_state_dir_unix.go:880-893 | At most one token is live, and it is one that never was before |
| AtomicWrite.StateDir.Deactivate | qurl/pinned_state_dir_unix.go:935-944 | Only the live token ends the tenure |
| AtomicWrite.StateDir.Baseline | qurl/pinned_state_dir_unix.go:594-611 | The entry as found; one this tenure of the lock does not know stops the write |
| AtomicWrite.StateDir.Flush | qurl/pinned_state_dir_unix.go:643-645 | Success means the content is on disk |
| AtomicWrite.StateDir.Confirm | qurl/pinned_state_dir_unix.go:673-691 | Success only for the exact inode just written, visible, tracked and, undisturbed, durable |
| PathWalk.OpenStateDir | qurl/pinned_state_dir_unix.go:158-192 | Success leaves exactly one handle open, that of the directory, last seen 0700 and the caller's own, and every prefix of the path found trusted, by handle or by name inside one band; failure leaves no handle open |
| PathWalk.OpenFrom | qurl/pinned_state_dir_unix.go:198-312 | The walk looks at every prefix from its anchor through the handle it holds; the handle returned is the directory's, last seen 0700 and the caller's own; every other handle is closed exactly once |
| PathWalk.WalkDown | qurl/pinned_state_dir_unix.go:222-293 | Every component was well formed and settled in its turn, or the first that was not ends the walk; a denial names the prefix whose open was denied |
| PathWalk.OpenComponent | qurl/pinned_state_dir_unix.go:237-292 | One component is opened, checked and, in a writable walk, synced before its parent; a directory just made has its mode set first; a failure is a denial if and only if the open was denied |
| PathWalk.Settle | qurl/pinned_state_dir_unix.go:256-287 | Mode, look, sync of the component, sync of its parent, in this order; on failure its handle is closed |
| PathWalk.LooksPrivate | qurl/pinned_state_dir_unix.go:298-304 | The last look is at the directory itself |
| PathWalk.TrustedAncestorBits | qurl/pinned_state_dir_unix.go:332-350 | Bit by bit what a trusted ancestor is |
| PathWalk.PrivateDirectoryBits | qurl/pinned_state_dir_unix.go:314-330 | Bit by bit what a private directory is; it is a trusted ancestor too |
| PathWalk.FindAnchor | qurl/pinned_state_dir_unix.go:115-145 | The shallowest prefix below the denied one that can be opened: those in between were denied, all of the band down to it was found trusted by name, and no handle is left |
| PathWalk.BandComponent | qurl/pinned_state_dir_unix.go:82-98 | A band component counts only when it is a trusted directory; each refusal is told from what was seen |
| CredentialCache.StepKeepsInv | qurl/client.go:249-323 | Every critical section keeps single flight and open channels |
| CredentialCache.RunKeepsInv | qurl/client.go:249-323 | So does every interleaving of callers |
| CredentialCache.OneRefreshAtATime | qurl/client.go:270-276 | At most one refresh is in flight, and it is the one others wait for |
| CredentialCache.EachChannelClosedOnce | qurl/client.go:309-323 | The end of a refresh closes its own, still open channel, and every waiter can go on |
| CredentialCache.NoWaiterIsStranded | qurl/client.go:276-284 | A waiter can go on or its refresh is running |
| CredentialCache.ServedHeaderIsGrantedAndFresh | qurl/client.go:263-269 | With the clock the package passes, a header served from the cache is the one the last successful refresh was granted, unexpired at the caller's reading |
| CredentialCache.CacheHoldsTheLastGrant | qurl/client.go:287-323 | With the clock the package passes, header and expiry are those of the last successful refresh, whatever failed or panicked since |
| CredentialCache.CachedCredentials.LookUp | qurl/client.go:261-278 | The locked part of the loop is the step of the model |
| CredentialCache.CachedCredentials.FinishRefresh | qurl/client.go:309-323 | Ending a refresh is the step of the model |
| CredentialCache.CacheStartsEmpty | qurl/client.go:287-323 | And before the first there is neither |
| CredentialCache.OnlyAClockPanicTouchesTheHeader | qurl/client.go:309-317 | With any injected clock, a step that is no successful refresh leaves header and expiry alone if and only if it is not the clock panicking under another header |
| CredentialCache.HeaderIsTheLastStored | qurl/client.go:309-317 | With any injected clock the header is that of the last step that stored one |
| CredentialCache.ExpiryIsTheLastGranted | qurl/client.go:309-317 | With any injected clock the expiry is that of the last successful refresh |
| CredentialCache.PanickedClockLeavesANewHeaderUnderTheOldExpiry | qurl/client.go:309-317 | A run in which a clock panic leaves a new header beside the old expiry |
| DeviceKeyAsk.StepKeepsInv | qurl/crid_link_request.go:682-740 | Every step of call, goroutine and context keeps who holds the key |
| DeviceKeyAsk.RunKeepsInv | qurl/crid_link_request.go:682-740 | So does every interleaving |
| DeviceKeyAsk.GivenKeyIsGone | qurl/crid_link_request.go:802-877 | When call and goroutine have ended, whatever the source gave is zero |
| DeviceKeyAsk.DeviceKeyIsUsedOnceAfterNotFound | qurl/crid_link_request.go:682-740 | The device key is used, and a source asked, at most once and only after the keyless request was answered not found; the context error means no request under the key |
| DeviceKeyAsk.HandedKeyIsUntouched | qurl/crid_link_request.go:802-877 | While the call holds a key it was handed, no interleaving changes it |
| DeviceKeyAsk.KeyIsAsGiven | qurl/crid_link_request.go:802-877 | What the call holds is what the source returned, byte for byte |
| DeviceKeyAsk.SentKeyIsAsGiven | qurl/crid_link_request.go:716-740 | The key a request went out under is the one the source gave |
| DeviceKeyAsk.NotFoundWasAnswered | qurl/crid_link_request.go:682-740 | Asking a source, and using the device key, has an answer "not found" before it |
| DeviceKeyAsk.NothingIsSentAfterTheContextEnded | qurl/crid_link_request.go:682-740 | A context that ends before the device key is in the call's hands keeps it from being used and a source from being asked, in every interleaving |
| DeviceKeyAsk.AnsweredUnderTheSourcesKey | qurl/crid_link_request.go:682-740 | For every usable key a run in which it is used for the second request, and gone afterwards |
| DeviceKeyAsk.NobodyIsStuck | qurl/crid_link_request.go:802-877 | Once the context ended the call has a step of its own, and so has a goroutine whose source came back |
| DeviceKeyAsk.Settle | qurl/crid_link_request.go:838-877 | The key is handed over unchanged, or every byte of it is zero; the context decides first |
| DeviceKeyAsk.CheckKey | qurl/crid_link_request.go:643-655 | A key is usable if and only if it has 32 bytes, not all zero |
| DeviceKeyAsk.WipeBytes | qurl/private_state.go:94-96 | Every byte is zero |
| ConsumerProof.PreimageDeterminesProof | qurl/consumer_proof.go:39-80 | Two accepted proofs with the same hashed bytes are equal in every field |
| ConsumerProof.PreimageLayout | qurl/consumer_proof.go:54-78 | Which byte stands where: the zero-terminated tag, eleven fields in order each behind its length in four bytes, four numbers in eight bytes each, high byte first |
| ConsumerProof.AcceptedExactly | qurl/consumer_proof.go:39-53 | Which proofs are accepted, in plain bytes and numbers |
| ConsumerProof.PrefixedIsInjective | qurl/consumer_proof.go:57-70 | Length prefixes make the fields, and what follows, readable back |
| ConsumerProof.FixedIsInjective | qurl/consumer_proof.go:71-78 | Eight-byte numbers are readable back |
| ConsumerProof.Challenge | qurl/consumer_proof.go:39-80 | The running hash takes exactly the preimage, and exactly the accepted proofs get one |
| ConsumerProof.WriteFields | qurl/consumer_proof.go:57-70 | The loop feeds the length-prefixed fields, up to one that is too long |
| ConsumerProof.WriteNumbers | qurl/consumer_proof.go:71-78 | The loop feeds the four numbers |
| Cells.NewCatalog | qurl/cells.go:82-128 | A catalog is built exactly from sound entries with distinct fingerprints; an empty list is refused as such, and otherwise the first offending entry is named with its reason |
| Cells.LookUpIsScan | qurl/cells.go:135-147 | Looking up a key is scanning the list for its fingerprint and comparing the full key |
| Cells.FoundIsEntry | qurl/cells.go:120-147 | The endpoint found is the cell ID as written, the trimmed host and the port of the entry with that key |
| Cells.TrimStrips | qurl/cells.go:96-99 | Trimming takes white space off both ends, all of it, and nothing else |
| Cells.ScanFinds | qurl/cells.go:82-128 | With distinct fingerprints the scan finds each entry |
| Cells.Extends | qurl/cells.go:90-126 | An entry with a new fingerprint extends the index to the longer list |

## Left out

- Times are instants in nanoseconds from Go's zero time, without location; UTC normalisation is not modelled.
- Contexts, cancellation and the mapping and wording of errors: in the lifecycle a cancelled wait is a request without
  an answer, and only the error classes that callers branch on are kept.
- Wire formats of requests and replies, and the closed code tables: each exchange returns an authenticated verdict.
- The retries inside one lifecycle request: `World.Environment.Transmit` allows any number of fenced datagrams, and the
  retry driver is proved on its own in `Exchange`.
- DNS, UDP, Noise and the relay.
- SHA-256 and X25519 are uninterpreted functions; low-order points and canonical field encodings are not modelled.
- Sending the account one-time passcode: obtaining a passcode either works or does not.
- Option exclusivity rules, offline opening, the store's JSON form and sealed state.
- `net` address parsing, `awsstore`, discovery, portals, HTTP resource and consumer-management methods.
- JsonStructure: Go's own scanner is a given; its tokens and whether more follow are the input, and a stream may end in
  bytes that are no token. For policies without any depth limit the nesting it guarantees is a hypothesis, because the
  code relies on it there.
- AtomicWrite: others may rebind names before every single operation of a write, also between the last look and the
  rename; the crash statements hold for runs in which they do not, and success speaks of the moment the committed entry
  was looked at. Nobody else writes into the temp inode, and the lock is not closed while a write is under way. File
  modes and owners are one possible failure each.
- PathWalk: a path is its list of components; what the kernel answers is arbitrary. `openExistingDirNoFollow` is not
  part of this model.
- CredentialCache, PinnedStateDir, DeviceKeyAsk: fairness of the scheduler; progress is stated as a next step that is
  enabled.
- DeviceKeyAsk: a source that keeps a copy of the key it returned is outside the model.
- AgentLifecycle: the runtime's finaliser that wipes a forgotten key; the model only records that it is switched off
  before the key changes hands.
- Cells: base64 spellings of a key are decoded before the model starts.
- The user-agent truncation loop, `truncateUTF8` and the remaining one-branch validators: easy members.
