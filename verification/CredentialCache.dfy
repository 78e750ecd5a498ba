/** The credential cache: one refresh at a time, shared by every caller that
    arrives meanwhile, as interleaved critical sections. */
module CredentialCache {
  import opened Wrappers

  type Time = int

  /** Where a caller of Authorize stands. */
  datatype Caller =
    | Looking
    | Refreshing(channel: nat)
    | Waiting(channel: nat)
    | Served(header: string)
    | Failed

  /** How the wrapped provider ended: an error, a panic or a header that is
      blank or unfit; or a header, with the clock's reading after it. */
  datatype Answer = NoHeader | Header(header: string, now: Time)

  datatype State = State(
    authorization: string,
    expiresAt: Time,
    refreshDone: Option<nat>,
    made: nat,
    closed: set<nat>,
    callers: map<nat, Caller>)

  const EMPTY := State("", 0, None, 0, {}, map[])

  datatype Action =
    | Enter(caller: nat)
    | Look(caller: nat, now: Time)
    | Finish(caller: nat, answer: Answer)
    | ClockPanic(caller: nat, header: string)
    | Wake(caller: nat)
    | Cancel(caller: nat)

  predicate Enabled(s: State, a: Action) {
    match a
    case Enter(c) => c !in s.callers
    case Look(c, _) => c in s.callers && s.callers[c].Looking?
    case Finish(c, answer) =>
      c in s.callers && s.callers[c].Refreshing? && (answer.Header? ==> answer.header != "")
    case ClockPanic(c, header) => c in s.callers && s.callers[c].Refreshing? && header != ""
    case Wake(c) => c in s.callers && s.callers[c].Waiting? && s.callers[c].channel in s.closed
    case Cancel(c) => c in s.callers && s.callers[c].Waiting?
  }

  predicate Usable(s: State, now: Time) {
    s.authorization != "" && now < s.expiresAt
  }

  function LookedUp(s: State, c: nat, now: Time): State {
    if Usable(s, now) then s.(callers := s.callers[c := Served(s.authorization)])
    else if s.refreshDone.None? then
      s.(refreshDone := Some(s.made), made := s.made + 1, callers := s.callers[c := Refreshing(s.made)])
    else s.(callers := s.callers[c := Waiting(s.refreshDone.value)])
  }

  function Apply(s: State, ttl: Time, a: Action): State
    requires Enabled(s, a)
  {
    match a
    case Enter(c) => s.(callers := s.callers[c := Looking])
    case Look(c, now) => LookedUp(s, c, now)
    case Finish(c, answer) =>
      var done := s.(
        refreshDone := None,
        closed := if s.refreshDone.Some? then s.closed + {s.refreshDone.value} else s.closed);
      (match answer
       case NoHeader => done.(callers := s.callers[c := Failed])
       case Header(header, now) =>
         done.(authorization := header, expiresAt := now + ttl,
               callers := s.callers[c := Served(header)]))
    // The header goes in first, then the clock is read for its expiry; the
    // deferred finish that follows the panic brings no header.
    case ClockPanic(c, header) => s.(authorization := header)
    case Wake(c) => s.(callers := s.callers[c := Looking])
    case Cancel(c) => s.(callers := s.callers[c := Failed])
  }

  // --- What every interleaving keeps -----------------------------------------------

  ghost predicate Inv(s: State) {
    && (s.refreshDone.Some? ==> s.refreshDone.value < s.made && s.refreshDone.value !in s.closed)
    && (forall ch <- s.closed :: ch < s.made)
    && (forall c <- s.callers :: s.callers[c].Refreshing? ==> s.refreshDone == Some(s.callers[c].channel))
    && (forall c, d | c in s.callers && d in s.callers :: s.callers[c].Refreshing? && s.callers[d].Refreshing? ==> c == d)
    && (s.refreshDone.Some? ==> exists c :: c in s.callers && s.callers[c].Refreshing?)
    && (forall c <- s.callers :: s.callers[c].Waiting? ==>
          s.callers[c].channel in s.closed || s.refreshDone == Some(s.callers[c].channel))
  }

  lemma StepKeepsInv(s: State, ttl: Time, a: Action)
    requires Inv(s) && Enabled(s, a)
    ensures Inv(Apply(s, ttl, a))
  {
    var next := Apply(s, ttl, a);
    if next.refreshDone.Some? {
      if s.refreshDone.Some? {
        var c :| c in s.callers && s.callers[c].Refreshing?;
        assert next.callers[c].Refreshing?;
      } else {
        assert next.callers[a.caller].Refreshing?;
      }
    }
  }

  ghost predicate Run(ttl: Time, states: seq<State>, actions: seq<Action>) {
    && |states| == |actions| + 1 && states[0] == EMPTY
    && forall k | 0 <= k < |actions| :: Enabled(states[k], actions[k]) && states[k + 1] == Apply(states[k], ttl, actions[k])
  }

  lemma {:induction false} RunKeepsInv(ttl: Time, states: seq<State>, actions: seq<Action>, k: nat)
    requires Run(ttl, states, actions) && k < |states|
    ensures Inv(states[k])
    decreases k
  {
    if k > 0 {
      RunKeepsInv(ttl, states, actions, k - 1);
      StepKeepsInv(states[k - 1], ttl, actions[k - 1]);
    }
  }

  /** At most one refresh is in flight, and it is the one callers wait for. */
  lemma OneRefreshAtATime(ttl: Time, states: seq<State>, actions: seq<Action>, k: nat, c: nat, d: nat)
    requires Run(ttl, states, actions) && k < |states| && c in states[k].callers && d in states[k].callers
    requires states[k].callers[c].Refreshing?
    ensures states[k].callers[d].Refreshing? ==> c == d
    ensures states[k].callers[d].Waiting? && states[k].callers[d].channel !in states[k].closed ==>
              states[k].callers[d].channel == states[k].callers[c].channel
  {
    RunKeepsInv(ttl, states, actions, k);
  }

  /** The end of a refresh closes its channel, which was open: no channel is
      closed twice, and the waiters' channel is never forgotten. */
  lemma EachChannelClosedOnce(ttl: Time, states: seq<State>, actions: seq<Action>, k: nat)
    requires Run(ttl, states, actions) && k < |actions| && actions[k].Finish?
    ensures var channel := states[k].callers[actions[k].caller].channel;
            && states[k].refreshDone == Some(channel) && channel !in states[k].closed
            && states[k + 1].closed == states[k].closed + {channel}
    ensures forall d <- states[k + 1].callers :: states[k + 1].callers[d].Waiting? ==> Enabled(states[k + 1], Wake(d))
  {
    RunKeepsInv(ttl, states, actions, k);
    RunKeepsInv(ttl, states, actions, k + 1);
  }

  /** Nobody waits on nothing: a waiter can go on, or a refresh is running. */
  lemma NoWaiterIsStranded(ttl: Time, states: seq<State>, actions: seq<Action>, k: nat, d: nat)
    requires Run(ttl, states, actions) && k < |states| && d in states[k].callers && states[k].callers[d].Waiting?
    ensures Enabled(states[k], Wake(d)) ||
            exists c :: c in states[k].callers && states[k].callers[c] == Refreshing(states[k].callers[d].channel)
  {
    RunKeepsInv(ttl, states, actions, k);
    var s := states[k];
    if s.callers[d].channel !in s.closed {
      var c :| c in s.callers && s.callers[c].Refreshing?;
      assert s.callers[c] == Refreshing(s.callers[d].channel);
    }
  }

  // --- What the cache holds -----------------------------------------------------------

  predicate Grants(a: Action) {
    a.Finish? && a.answer.Header?
  }

  ghost predicate LastGrant(actions: seq<Action>, n: nat, j: int) {
    0 <= j < n <= |actions| && Grants(actions[j]) && forall m | j < m < n :: !Grants(actions[m])
  }

  ghost predicate NoGrant(actions: seq<Action>, n: nat) {
    n <= |actions| && forall m | 0 <= m < n :: !Grants(actions[m])
  }

  /** The clock CachedCredentials hands the cache does not panic. */
  ghost predicate SteadyClock(actions: seq<Action>) {
    forall m | 0 <= m < |actions| :: !actions[m].ClockPanic?
  }

  /** Whatever refresh failed or panicked since: header and expiry are those of
      the last successful refresh. */
  lemma {:induction false} CacheHoldsTheLastGrant(ttl: Time, states: seq<State>, actions: seq<Action>, n: nat, j: int)
    requires Run(ttl, states, actions) && SteadyClock(actions) && LastGrant(actions, n, j)
    ensures states[n].authorization == actions[j].answer.header && states[n].expiresAt == actions[j].answer.now + ttl
    decreases n
  {
    assert states[n] == Apply(states[n - 1], ttl, actions[n - 1]);
    if j < n - 1 {
      CacheHoldsTheLastGrant(ttl, states, actions, n - 1, j);
      assert !Grants(actions[n - 1]);
    }
  }

  /** Before the first successful refresh there is neither. */
  lemma {:induction false} CacheStartsEmpty(ttl: Time, states: seq<State>, actions: seq<Action>, n: nat)
    requires Run(ttl, states, actions) && SteadyClock(actions) && NoGrant(actions, n)
    ensures states[n].authorization == "" && states[n].expiresAt == 0
    decreases n
  {
    if n > 0 {
      CacheStartsEmpty(ttl, states, actions, n - 1);
      assert states[n] == Apply(states[n - 1], ttl, actions[n - 1]);
      assert !Grants(actions[n - 1]);
    }
  }

  lemma {:induction false} GrantedOrNot(actions: seq<Action>, n: nat)
    requires n <= |actions|
    ensures NoGrant(actions, n) || exists j: int :: LastGrant(actions, n, j)
  {
    if n > 0 {
      GrantedOrNot(actions, n - 1);
      if Grants(actions[n - 1]) {
        assert LastGrant(actions, n, n - 1);
      } else if !NoGrant(actions, n - 1) {
        var j: int :| LastGrant(actions, n - 1, j);
        assert LastGrant(actions, n, j);
      }
    }
  }

  /** A header served from the cache is the one the last successful refresh was
      granted, unexpired at the caller's own reading. */
  lemma ServedHeaderIsGrantedAndFresh(ttl: Time, states: seq<State>, actions: seq<Action>, k: nat) returns (j: int)
    requires Run(ttl, states, actions) && SteadyClock(actions) && k < |actions| && actions[k].Look?
    requires states[k + 1].callers[actions[k].caller].Served?
    ensures LastGrant(actions, k, j)
    ensures states[k + 1].callers[actions[k].caller].header == actions[j].answer.header
    ensures actions[k].now < actions[j].answer.now + ttl
  {
    assert states[k + 1] == Apply(states[k], ttl, actions[k]);
    GrantedOrNot(actions, k);
    if NoGrant(actions, k) {
      CacheStartsEmpty(ttl, states, actions, k);
    }
    j :| LastGrant(actions, k, j);
    CacheHoldsTheLastGrant(ttl, states, actions, k, j);
  }

  // --- With a clock that may panic ------------------------------------------------------

  predicate Stores(a: Action) {
    Grants(a) || a.ClockPanic?
  }

  function StoredHeader(a: Action): string
    requires Stores(a)
  {
    if a.ClockPanic? then a.header else a.answer.header
  }

  ghost predicate LastStore(actions: seq<Action>, n: nat, j: int) {
    0 <= j < n <= |actions| && Stores(actions[j]) && forall m | j < m < n :: !Stores(actions[m])
  }

  /** For any injected clock: a step that is no successful refresh leaves header
      and expiry both alone if and only if it is not the clock panicking under
      another header. */
  lemma OnlyAClockPanicTouchesTheHeader(s: State, ttl: Time, a: Action)
    requires Enabled(s, a) && !Grants(a)
    ensures var next := Apply(s, ttl, a);
            (next.authorization == s.authorization && next.expiresAt == s.expiresAt <==>
             !(a.ClockPanic? && a.header != s.authorization))
  {
  }

  /** And then the header is that of the last step that stored one. */
  lemma {:induction false} HeaderIsTheLastStored(ttl: Time, states: seq<State>, actions: seq<Action>, n: nat, j: int)
    requires Run(ttl, states, actions) && LastStore(actions, n, j)
    ensures states[n].authorization == StoredHeader(actions[j])
    decreases n
  {
    assert states[n] == Apply(states[n - 1], ttl, actions[n - 1]);
    if j < n - 1 {
      HeaderIsTheLastStored(ttl, states, actions, n - 1, j);
      assert !Stores(actions[n - 1]);
    }
  }

  /** While the expiry is that of the last successful refresh all the same. */
  lemma {:induction false} ExpiryIsTheLastGranted(ttl: Time, states: seq<State>, actions: seq<Action>, n: nat, j: int)
    requires Run(ttl, states, actions) && LastGrant(actions, n, j)
    ensures states[n].expiresAt == actions[j].answer.now + ttl
    decreases n
  {
    assert states[n] == Apply(states[n - 1], ttl, actions[n - 1]);
    if j < n - 1 {
      ExpiryIsTheLastGranted(ttl, states, actions, n - 1, j);
      assert !Grants(actions[n - 1]);
    }
  }

  /** The failing run: one refresh succeeds, and the clock panics under the
      header of the next. */
  lemma PanickedClockLeavesANewHeaderUnderTheOldExpiry(ttl: Time)
    returns (states: seq<State>, actions: seq<Action>)
    ensures Run(ttl, states, actions) && |actions| == 6 && !SteadyClock(actions)
    ensures LastGrant(actions, 6, 2) && actions[2].answer == Header("first", 0)
    ensures states[6].authorization == "second" && states[6].expiresAt == ttl
  {
    actions := [Enter(0), Look(0, 0), Finish(0, Header("first", 0)), Enter(1), Look(1, ttl), ClockPanic(1, "second")];
    var s1 := Apply(EMPTY, ttl, actions[0]);
    var s2 := Apply(s1, ttl, actions[1]);
    var s3 := Apply(s2, ttl, actions[2]);
    var s4 := Apply(s3, ttl, actions[3]);
    var s5 := Apply(s4, ttl, actions[4]);
    var s6 := Apply(s5, ttl, actions[5]);
    states := [EMPTY, s1, s2, s3, s4, s5, s6];
    assert actions[5].ClockPanic?;
  }

  // --- The cache itself ---------------------------------------------------------------

  class CachedCredentials {
    const ttl: Time
    var authorization: string
    var expiresAt: Time
    var refreshDone: Option<nat>
    var made: nat
    ghost var closed: set<nat>
    ghost var callers: map<nat, Caller>

    ghost function Now(): State
      reads this
    {
      State(authorization, expiresAt, refreshDone, made, closed, callers)
    }

    constructor (ttl: Time)
      ensures Now() == EMPTY && this.ttl == ttl
    {
      this.ttl := ttl;
      authorization, expiresAt, refreshDone, made := "", 0, None, 0;
      closed, callers := {}, map[];
    }

    /** One trip round Authorize's loop, up to where it leaves the mutex. */
    method LookUp(ghost c: nat, now: Time) returns (next: Caller)
      requires Inv(Now()) && Enabled(Now(), Look(c, now))
      modifies this
      ensures Now() == Apply(old(Now()), ttl, Look(c, now)) && Inv(Now())
      ensures callers[c] == next
    {
      StepKeepsInv(Now(), ttl, Look(c, now));
      if authorization != "" && now < expiresAt {
        next := Served(authorization);
      } else if refreshDone.None? {
        refreshDone := Some(made);
        next := Refreshing(made);
        made := made + 1;
      } else {
        next := Waiting(refreshDone.value);
      }
      callers := callers[c := next];
    }

    /** finishRefresh; the provider's failure or panic brings no header. */
    method FinishRefresh(ghost c: nat, answer: Answer)
      requires Inv(Now()) && Enabled(Now(), Finish(c, answer))
      modifies this
      ensures Now() == Apply(old(Now()), ttl, Finish(c, answer)) && Inv(Now())
    {
      StepKeepsInv(Now(), ttl, Finish(c, answer));
      if answer.Header? {
        authorization := answer.header;
        expiresAt := answer.now + ttl;
      }
      var done := refreshDone;
      refreshDone := None;
      if done.Some? {
        closed := closed + {done.value};
      }
      callers := callers[c := if answer.Header? then Served(answer.header) else Failed];
    }
  }
}
