/** The reference-counted close of a pinned state directory, as the interleaved
    critical sections of any number of threads. */
module PinnedStateDir {
  import opened Wrappers

  type CloseError = Option<string>

  /** Where one caller of close stands. The leader drains the leases, closes the
      directory outside the mutex and publishes the result; the rest follow. */
  datatype Closer = Draining | Shutting | Publishing(err: CloseError) | Following | Returned(err: CloseError) {
    predicate Leads() {
      Draining? || Shutting? || Publishing?
    }
  }

  /** The directory's fields, and what its users hold: unreleased leases, the
      callers of close, and those of them blocked on the condition variable. */
  datatype State = State(
    refs: int,
    closing: bool,
    closed: bool,
    impl: bool,
    closeErr: CloseError,
    leases: set<nat>,
    issued: nat,
    closers: map<nat, Closer>,
    leader: Option<nat>,
    asleep: set<nat>,
    implCloses: nat)

  const OPENED := State(1, false, false, true, None, {}, 0, map[], None, {}, 0)

  datatype Action =
    | Retain
    | Release(lease: nat)
    | Close(thread: nat)
    | Wake(thread: nat)
    | Shut(thread: nat, err: CloseError)
    | Publish(thread: nat)

  predicate Enabled(s: State, a: Action) {
    match a
    case Retain => true
    case Release(l) => l < s.issued
    case Close(t) => t !in s.closers
    case Wake(t) => t in s.closers && t !in s.asleep && (s.closers[t].Draining? || s.closers[t].Following?)
    case Shut(t, _) => t in s.closers && s.closers[t].Shutting?
    case Publish(t) => t in s.closers && s.closers[t].Publishing?
  }

  predicate RetainRefused(s: State) {
    s.closed || s.closing || !s.impl
  }

  /** The leader's wait: sleep while references are left, else take the directory. */
  function Drain(s: State, t: nat): State {
    if s.refs != 0 then s.(closers := s.closers[t := Draining], asleep := s.asleep + {t})
    else s.(closers := s.closers[t := Shutting], impl := false)
  }

  function Follow(s: State, t: nat): State {
    if s.closed then s.(closers := s.closers[t := Returned(s.closeErr)])
    else s.(closers := s.closers[t := Following], asleep := s.asleep + {t})
  }

  function Apply(s: State, a: Action): State
    requires Enabled(s, a)
  {
    match a
    case Retain =>
      if RetainRefused(s) then s
      else s.(refs := s.refs + 1, leases := s.leases + {s.issued}, issued := s.issued + 1)
    case Release(l) =>
      if l !in s.leases then s
      else
        var refs := if s.refs - 1 < 0 then 0 else s.refs - 1;
        s.(refs := refs, leases := s.leases - {l}, asleep := if refs == 0 then {} else s.asleep)
    case Close(t) =>
      if s.closed || s.closing then Follow(s, t)
      else Drain(s.(closing := true, refs := s.refs - 1, leader := Some(t)), t)
    case Wake(t) => if s.closers[t].Draining? then Drain(s, t) else Follow(s, t)
    case Shut(t, err) => s.(closers := s.closers[t := Publishing(err)], implCloses := s.implCloses + 1)
    case Publish(t) =>
      var err := s.closers[t].err;
      s.(closers := s.closers[t := Returned(err)], closeErr := err, closed := true, closing := false,
         leader := None, asleep := {})
  }

  // --- What every interleaving keeps ---------------------------------------------

  ghost predicate Counted(s: State) {
    && s.refs == |s.leases| + (if s.closing || s.closed then 0 else 1)
    && forall l <- s.leases :: l < s.issued
  }

  ghost predicate Led(s: State) {
    && !(s.closing && s.closed)
    && (s.closing <==> s.leader.Some?)
    && (s.leader.Some? ==> s.leader.value in s.closers)
    && (forall t <- s.closers :: s.closers[t].Leads() <==> s.leader == Some(t))
    && (forall t <- s.closers :: s.closers[t].Following? ==> s.closing || s.closed)
  }

  predicate LeaderIs(s: State, shutting: bool, publishing: bool) {
    && s.leader.Some? && s.leader.value in s.closers
    && ((shutting && s.closers[s.leader.value].Shutting?) || (publishing && s.closers[s.leader.value].Publishing?))
  }

  ghost predicate ClosedOnce(s: State) {
    && (s.impl <==> !s.closed && !LeaderIs(s, true, true))
    && (!s.impl ==> s.leases == {})
    && s.implCloses == (if s.closed || LeaderIs(s, false, true) then 1 else 0)
    && (forall t <- s.closers :: s.closers[t].Returned? ==> s.closed && s.closers[t].err == s.closeErr)
  }

  /** Nobody sleeps through the event it waits for. */
  ghost predicate Woken(s: State) {
    forall t <- s.asleep ::
      && t in s.closers
      && (s.closers[t].Draining? || s.closers[t].Following?)
      && (s.closers[t].Draining? ==> s.refs != 0)
      && (s.closers[t].Following? ==> !s.closed)
  }

  ghost predicate Inv(s: State) {
    Counted(s) && Led(s) && ClosedOnce(s) && Woken(s)
  }

  lemma DrainKeepsInv(s: State, t: nat)
    requires Led(s) && s.leader == Some(t) && t !in s.asleep && s.impl && !LeaderIs(s, true, true)
    requires Inv(s)
    ensures Inv(Drain(s, t))
  {
  }

  /** Taking the lead gives up the owner's reference. */
  lemma LeadKeepsInv(s: State, t: nat)
    requires Inv(s) && !s.closed && !s.closing && t !in s.closers
    ensures Inv(s.(closing := true, refs := s.refs - 1, leader := Some(t), closers := s.closers[t := Draining]))
  {
  }

  lemma ReleaseKeepsInv(s: State, l: nat)
    requires Inv(s) && l in s.leases
    ensures Inv(Apply(s, Release(l)))
  {
    assert |s.leases - {l}| == |s.leases| - 1;
  }

  lemma StepKeepsInv(s: State, a: Action)
    requires Inv(s) && Enabled(s, a)
    ensures Inv(Apply(s, a))
  {
    match a
    case Retain =>
      if !RetainRefused(s) {
        assert |s.leases + {s.issued}| == |s.leases| + 1;
      }
    case Release(l) =>
      if l in s.leases {
        ReleaseKeepsInv(s, l);
      }
    case Close(t) =>
      if !s.closed && !s.closing {
        LeadKeepsInv(s, t);
        var lead := s.(closing := true, refs := s.refs - 1, leader := Some(t), closers := s.closers[t := Draining]);
        DrainKeepsInv(lead, t);
        assert lead.closers[t := Shutting] == s.closers[t := Shutting];
        assert lead.closers[t := Draining] == s.closers[t := Draining];
      }
    case Wake(t) =>
      if s.closers[t].Draining? {
        DrainKeepsInv(s, t);
      }
    case Shut(t, err) =>
    case Publish(t) =>
  }

  /** The states of a run, the first one included. */
  ghost predicate Run(states: seq<State>, actions: seq<Action>) {
    && |states| == |actions| + 1 && states[0] == OPENED
    && forall k | 0 <= k < |actions| :: Enabled(states[k], actions[k]) && states[k + 1] == Apply(states[k], actions[k])
  }

  lemma {:induction false} RunKeepsInv(states: seq<State>, actions: seq<Action>, k: nat)
    requires Run(states, actions) && k < |states|
    ensures Inv(states[k])
    decreases k
  {
    if k > 0 {
      RunKeepsInv(states, actions, k - 1);
      StepKeepsInv(states[k - 1], actions[k - 1]);
    }
  }

  /** References are the leases outstanding, plus the owner's until close
      begins; so releasing a lease never underflows. */
  lemma NoUnderflow(states: seq<State>, actions: seq<Action>, k: nat)
    requires Run(states, actions) && k < |states|
    ensures var s := states[k];
            && s.refs == |s.leases| + (if s.closing || s.closed then 0 else 1)
            && forall l <- s.leases :: s.refs - 1 >= 0
  {
    RunKeepsInv(states, actions, k);
    var s := states[k];
    forall l | l in s.leases
      ensures s.refs - 1 >= 0
    {
      assert s.leases == {l} + (s.leases - {l});
    }
  }

  /** Once close has begun it stays begun, and the leases only dwindle. */
  lemma {:induction false} NoLeaseAfterCloseBegins(states: seq<State>, actions: seq<Action>, j: nat, k: nat)
    requires Run(states, actions) && j <= k < |states| && (states[j].closing || states[j].closed)
    ensures states[k].leases <= states[j].leases && states[k].issued == states[j].issued
    ensures states[k].closing || states[k].closed
    decreases k
  {
    if j < k {
      NoLeaseAfterCloseBegins(states, actions, j, k - 1);
      RunKeepsInv(states, actions, k - 1);
    }
  }

  /** The directory is closed at most once, only with no lease outstanding, and
      every caller that has returned got the one result. */
  lemma ClosersAgree(states: seq<State>, actions: seq<Action>, k: nat, t: nat, u: nat)
    requires Run(states, actions) && k < |states|
    requires t in states[k].closers && u in states[k].closers
    requires states[k].closers[t].Returned? && states[k].closers[u].Returned?
    ensures states[k].closers[t] == states[k].closers[u]
    ensures states[k].implCloses == 1 && states[k].leases == {}
  {
    RunKeepsInv(states, actions, k);
  }

  lemma {:induction false} NoShutYet(states: seq<State>, actions: seq<Action>, k: nat)
    requires Run(states, actions) && k < |states| && states[k].implCloses == 0
    ensures forall j | 0 <= j < k :: !actions[j].Shut?
    decreases k
  {
    if k > 0 {
      RunKeepsInv(states, actions, k - 1);
      NoShutYet(states, actions, k - 1);
    }
  }

  /** The result on its way: what a publishing leader carries, and what is kept
      once closed. */
  ghost predicate Carries(s: State, err: CloseError) {
    && (s.closed ==> s.closeErr == err)
    && forall t <- s.closers :: s.closers[t].Publishing? ==> s.closers[t].err == err
  }

  lemma CarriesOn(s: State, a: Action, err: CloseError)
    requires Inv(s) && Enabled(s, a) && s.implCloses == 1 && Carries(s, err)
    ensures Carries(Apply(s, a), err)
  {
  }

  lemma ShutCarries(s: State, a: Action)
    requires Inv(s) && Enabled(s, a) && a.Shut?
    ensures s.implCloses == 0 && Carries(Apply(s, a), a.err)
  {
  }

  lemma ShutsCount(s: State, a: Action)
    requires Enabled(s, a)
    ensures Apply(s, a).implCloses == s.implCloses + if a.Shut? then 1 else 0
  {
  }

  /** Of the one close of the directory, the result is what its leader carries
      and then everybody's. */
  lemma {:induction false} OneShut(states: seq<State>, actions: seq<Action>, k: nat) returns (m: nat)
    requires Run(states, actions) && k < |states| && states[k].implCloses == 1
    ensures m < k && actions[m].Shut? && forall j | 0 <= j < k && actions[j].Shut? :: j == m
    ensures Carries(states[k], actions[m].err)
    decreases k
  {
    hide Inv, Apply, Carries, Enabled;
    assert k > 0;
    RunKeepsInv(states, actions, k - 1);
    ShutsCount(states[k - 1], actions[k - 1]);
    if actions[k - 1].Shut? {
      ShutCarries(states[k - 1], actions[k - 1]);
      NoShutYet(states, actions, k - 1);
      m := k - 1;
    } else {
      m := OneShut(states, actions, k - 1);
      CarriesOn(states[k - 1], actions[k - 1], actions[m].err);
    }
  }

  /** What every caller of close gets is what the directory's own close gave. */
  lemma ClosersGetTheResult(states: seq<State>, actions: seq<Action>, k: nat, t: nat) returns (m: nat)
    requires Run(states, actions) && k < |states| && t in states[k].closers && states[k].closers[t].Returned?
    ensures m < k && actions[m].Shut? && states[k].closers[t].err == actions[m].err
    ensures forall j | 0 <= j < k && actions[j].Shut? :: j == m
  {
    RunKeepsInv(states, actions, k);
    m := OneShut(states, actions, k);
  }

  lemma ShutsWithNoLease(states: seq<State>, actions: seq<Action>, k: nat)
    requires Run(states, actions) && k < |actions| && actions[k].Shut?
    ensures states[k].implCloses == 0 && states[k].leases == {} && states[k].refs == 0
  {
    RunKeepsInv(states, actions, k);
  }

  function NextOf(s: State, t: nat): Action
    requires t in s.closers
  {
    match s.closers[t]
    case Shutting => Shut(t, None)
    case Publishing(_) => Publish(t)
    case _ => Wake(t)
  }

  /** Nobody is left waiting: with every lease released, some caller of close
      that has not returned can take its next step. */
  lemma ReleasedMeansProgress(states: seq<State>, actions: seq<Action>, k: nat, t: nat) returns (u: nat)
    requires Run(states, actions) && k < |states|
    requires states[k].leases == {} && t in states[k].closers && !states[k].closers[t].Returned?
    ensures u in states[k].closers && !states[k].closers[u].Returned? && Enabled(states[k], NextOf(states[k], u))
  {
    RunKeepsInv(states, actions, k);
    u := if states[k].leader.Some? then states[k].leader.value else t;
  }

  // --- The critical sections --------------------------------------------------------

  class Dir {
    var refs: int
    var closing: bool
    var closed: bool
    var impl: bool
    var closeErr: CloseError
    ghost var leases: set<nat>
    var issued: nat
    ghost var closers: map<nat, Closer>
    ghost var leader: Option<nat>
    ghost var asleep: set<nat>
    ghost var implCloses: nat

    ghost function Now(): State
      reads this
    {
      State(refs, closing, closed, impl, closeErr, leases, issued, closers, leader, asleep, implCloses)
    }

    constructor ()
      ensures Now() == OPENED
    {
      refs, closing, closed, impl, closeErr := 1, false, false, true, None;
      leases, issued, closers, leader, asleep, implCloses := {}, 0, map[], None, {}, 0;
    }

    method TryRetain() returns (lease: Option<nat>)
      modifies this
      ensures Now() == Apply(old(Now()), Retain)
      ensures lease == if RetainRefused(old(Now())) then None else Some(old(issued))
    {
      if closed || closing || !impl {
        return None;
      }
      refs := refs + 1;
      lease := Some(issued);
      leases := leases + {issued};
      issued := issued + 1;
    }

    /** The body a lease's once guards: it runs while the lease is outstanding. */
    method ReleaseLease(lease: nat) returns (underflow: bool)
      requires lease in leases && lease < issued
      modifies this
      ensures Now() == Apply(old(Now()), Release(lease))
      ensures old(Inv(Now())) ==> !underflow && Inv(Now())
    {
      assert leases == {lease} + (leases - {lease});
      if Inv(Now()) {
        StepKeepsInv(Now(), Release(lease));
      }
      refs := refs - 1;
      underflow := refs < 0;
      if underflow {
        refs := 0;
      }
      if refs == 0 {
        asleep := {};
      }
      leases := leases - {lease};
    }

    /** A caller's way into close, up to its first wait or its result. */
    method EnterClose(t: nat) returns (done: Option<CloseError>)
      requires Inv(Now()) && t !in closers
      modifies this
      ensures Now() == Apply(old(Now()), Close(t)) && Inv(Now())
      ensures done == if old(closed) then Some(old(closeErr)) else None
    {
      StepKeepsInv(Now(), Close(t));
      if closed {
        closers := closers[t := Returned(closeErr)];
        return Some(closeErr);
      }
      if closing {
        closers := closers[t := Following];
        asleep := asleep + {t};
        return None;
      }
      closing := true;
      refs := refs - 1;
      leader := Some(t);
      DrainOrTake(t);
      return None;
    }

    method DrainOrTake(t: nat)
      modifies this
      ensures Now() == Drain(old(Now()), t)
    {
      if refs != 0 {
        closers := closers[t := Draining];
        asleep := asleep + {t};
      } else {
        impl := false;
        closers := closers[t := Shutting];
      }
    }

    /** After a broadcast, a waiter looks again. */
    method LookAgain(t: nat, leads: bool) returns (done: Option<CloseError>)
      requires Inv(Now()) && Enabled(Now(), Wake(t)) && (leads <==> closers[t].Draining?)
      modifies this
      ensures Now() == Apply(old(Now()), Wake(t)) && Inv(Now())
      ensures done.Some? ==> closers[t] == Returned(done.value)
    {
      StepKeepsInv(Now(), Wake(t));
      done := None;
      if leads {
        DrainOrTake(t);
      } else if closed {
        closers := closers[t := Returned(closeErr)];
        done := Some(closeErr);
      } else {
        asleep := asleep + {t};
      }
    }

    /** The leader's close of the directory itself, then its result for all. */
    method FinishClose(t: nat, err: CloseError)
      requires Inv(Now()) && t in closers && closers[t].Publishing? && closers[t].err == err
      modifies this
      ensures Now() == Apply(old(Now()), Publish(t)) && Inv(Now())
    {
      StepKeepsInv(Now(), Publish(t));
      closeErr := err;
      closed := true;
      closing := false;
      closers := closers[t := Returned(err)];
      leader := None;
      asleep := {};
    }
  }
}
