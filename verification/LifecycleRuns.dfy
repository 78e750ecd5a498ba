/** Any number of lifecycle calls, by any number of process incarnations,
    against one store. A call that crashed is followed by one that knows only
    the durable record. */
module LifecycleRuns {
  import opened Wrappers
  import opened AgentStates
  import opened LifecycleSpec
  import opened World
  import opened Runtime
  import opened Registration
  import opened CredentialRecovery

  /** RefreshAgentRuntime: the only entry that admits the owed refresh. */
  method RefreshRuntime(w: Environment, c: Config) returns (r: Result<Opened, Error>)
    requires w.Inv()
    modifies w
    ensures w.Inv() && old(w.log) <= w.log
    ensures r.Success? ==> OpenedNow(w, c, r.value)
  {
    hide Legal, ValidLoaded;
    var s :- LoadPrepared(w);
    if Blank(s.agentID) || s.registeredAt.None? || !Native(s) {
      return Failure(Refused);
    }
    r := RenewCompleted(w, c, s);
  }

  /** Opening without lock or packet: nothing leaves and nothing is saved, and it
      declines only a record that is absent, unregistered, without placement, or
      expired on the clock's reading. */
  method WarmOpen(w: Environment, c: Config) returns (r: Result<Option<Opened>, Error>)
    requires w.Inv()
    modifies w`reading
    ensures w.Inv()
    ensures r == Success(None) ==>
              w.durable.None? ||
              (Prepared(w).Some? &&
               var s := Prepared(w).value;
               s.registeredAt.None? || s.assignment.None? || s.assignment.value.leaseExpiresAt <= w.reading)
    ensures r.Success? && r.value.Some? ==> OpenedNow(w, c, r.value.value)
  {
    hide Legal, ValidLoaded;
    var loaded :- w.Load();
    if loaded.None? {
      return Success(None);
    }
    var s :- LoadPrepared(w);
    var now := w.Now();
    if s.registeredAt.None? || s.assignment.None? || LeaseExpired(s.assignment.value, now) {
      return Success(None);
    }
    var runtime :- OpenCompleted(w, c, s);
    return Success(Some(runtime));
  }

  /** ConnectAgentRuntime: the warm open if it can be, registration if not. */
  method Connect(w: Environment, c: Config) returns (r: Result<Opened, Error>)
    requires w.Inv()
    modifies w
    ensures w.Inv() && old(w.log) <= w.log
    ensures r.Success? ==> OpenedNow(w, c, r.value)
  {
    var warm :- WarmOpen(w, c);
    if warm.Some? {
      return Success(warm.value);
    }
    var registered, activations, credential := RegisterLocked(w, c);
    r := registered;
  }

  /** The completion requests of a whole trace agree. */
  ghost predicate OneCandidate(log: Trace) {
    forall i, j | 0 <= i <= j < |log| && log[i].Sent? && log[i].request.Complete? && log[j].Sent? && log[j].request.Complete? ::
      log[i].request.candidate == log[j].request.candidate
  }

  method AnyRun(stored: Option<AgentState>, derive: string -> Option<string>, tag: string -> string, calls: nat)
    returns (w: Environment)
    requires stored.Some? ==> ValidLoaded(stored.value)
    ensures Legal(stored, w.log) && SavesLoad(w.log) && OneCandidate(w.log)
    ensures w.durable.Some? ==> ValidLoaded(w.durable.value)
  {
    w := new Environment(stored, derive, tag);
    var left := calls;
    while left > 0
      invariant fresh(w) && w.Inv() && w.init == stored
    {
      left := left - 1;
      var c: Config := *;
      var choice: int := *;
      if choice == 0 {
        var r := Connect(w, c);
      } else if choice == 1 && c.hub.Some? {
        var r, nonces, judged := RecoverLocked(w, c, c.hub.value);
      } else if choice == 2 {
        var r := RefreshRuntime(w, c);
      } else {
        var agentID: string := *;
        var decisionAt: Time := *;
        var r := RenewSession(w, c, agentID, decisionAt);
      }
    }
    DurableLoads(stored, w.log, |w.log|);
    if stored.Some? {
      ValidRecordsHaveOkPhases(stored.value);
    }
    forall i, j | 0 <= i <= j < |w.log| && w.log[i].Sent? && w.log[i].request.Complete? && w.log[j].Sent? && w.log[j].request.Complete?
      ensures w.log[i].request.candidate == w.log[j].request.candidate
    {
      OneCompletionCandidate(stored, w.log, i, j);
    }
  }
}
