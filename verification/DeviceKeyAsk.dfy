/** A link request made as a device: when the device key may be used at all, and
    who wipes a key its source gave, in every interleaving of the call, the
    source's goroutine and the context. */
module DeviceKeyAsk {
  import opened Wrappers

  const KEY_SIZE := 32

  predicate Usable(key: seq<bv8>) {
    |key| == KEY_SIZE && exists i :: 0 <= i < |key| && key[i] != 0
  }

  predicate Wiped(key: seq<bv8>) {
    forall i | 0 <= i < |key| :: key[i] == 0
  }

  function Zeros(n: nat): (key: seq<bv8>)
    ensures |key| == n && Wiped(key)
  {
    if n == 0 then [] else [0] + Zeros(n - 1)
  }

  // --- Keys in place ----------------------------------------------------------------

  method WipeBytes(key: array<bv8>)
    modifies key
    ensures Wiped(key[..])
  {
    for i := 0 to key.Length
      invariant forall k | 0 <= k < i :: key[k] == 0
    {
      key[i] := 0;
    }
  }

  method CheckKey(key: array<bv8>) returns (ok: bool)
    ensures ok <==> Usable(key[..])
  {
    if key.Length != KEY_SIZE {
      return false;
    }
    var seen: bv8 := 0;
    for i := 0 to key.Length
      invariant seen == 0 <==> forall k | 0 <= k < i :: key[k] == 0
    {
      OrIsZero(seen, key[i]);
      seen := seen | key[i];
    }
    ok := seen != 0;
    assert ok ==> exists k :: 0 <= k < key.Length && key[..][k] != 0;
  }

  lemma OrIsZero(x: bv8, y: bv8)
    ensures x | y == 0 <==> x == 0 && y == 0
  {
  }

  /** How a source came back. A source that failed may still have given bytes;
      one that panicked gave none. */
  datatype Manner = Gave | GaveError | Panicked

  datatype Outcome = Key | ContextEnded | SourceFailed | Panic

  /** What wait makes of an answer it took: the context decides first. */
  function Verdict(manner: Manner, key: seq<bv8>, ended: bool): Outcome {
    if ended then ContextEnded
    else match manner
      case Panicked => Panic
      case GaveError => SourceFailed
      case Gave => if Usable(key) then Key else SourceFailed
  }

  method Settle(manner: Manner, key: array<bv8>, ended: bool) returns (r: Outcome)
    requires manner.Panicked? ==> key.Length == 0
    modifies key
    ensures r == Verdict(manner, old(key[..]), ended)
    ensures if r.Key? then key[..] == old(key[..]) else Wiped(key[..])
  {
    if ended {
      WipeBytes(key);
      return ContextEnded;
    }
    if manner.Panicked? {
      return Panic;
    }
    if manner.GaveError? {
      WipeBytes(key);
      return SourceFailed;
    }
    var ok := CheckKey(key);
    if !ok {
      WipeBytes(key);
      return SourceFailed;
    }
    return Key;
  }

  // --- The protocol -------------------------------------------------------------------

  datatype Device = NoDevice | Lent | Source

  /** Where the call stands. */
  datatype Call =
    | First
    | Denied
    | Asking
    | Took(manner: Manner)
    | Second
    | Ended(end: End)

  /** What the call came back with. */
  datatype End = FirstAnswer | SecondAnswer | NotSent | SourceError | SourcePanic

  /** Where the source's goroutine stands. */
  datatype Goroutine = Unasked | Running | Offering(manner: Manner) | Finished

  datatype State = State(
    device: Device,
    contextEnded: bool,
    call: Call,
    goroutine: Goroutine,
    gaveUp: bool,
    // The buffer the source returned, and what has been done with it.
    key: seq<bv8>,
    asked: nat,
    handed: nat,
    firstNotFound: bool,
    sentAsDevice: nat,
    sentKey: seq<bv8>)

  function Start(device: Device): State {
    State(device, false, First, Unasked, false, [], 0, 0, false, 0, [])
  }

  datatype Action =
    | EndContext
    | AnswerFirst(notFound: bool)
    | GoOn
    | Return(manner: Manner, given: seq<bv8>)
    | Exit
    | HandOver
    | GiveUp
    | SeeFinished
    | WipeUnclaimed
    | Decide
    | SendSecond
    | FinishSecond

  predicate Enabled(s: State, a: Action) {
    match a
    case EndContext => true
    case AnswerFirst(_) => s.call.First?
    case GoOn => s.call.Denied?
    case Return(manner, given) => s.goroutine.Running? && (manner.Panicked? ==> given == [])
    case Exit => s.goroutine.Running?
    // The channel has no buffer: both sides must be at it.
    case HandOver => s.call.Asking? && s.goroutine.Offering?
    case GiveUp => s.call.Asking? && s.contextEnded
    case SeeFinished => s.call.Asking? && s.goroutine.Finished?
    case WipeUnclaimed => s.goroutine.Offering? && s.gaveUp
    case Decide => s.call.Took?
    case SendSecond => s.call.Second? && s.sentAsDevice == 0
    case FinishSecond => s.call.Second? && s.sentAsDevice > 0
  }

  function Apply(s: State, a: Action): State
    requires Enabled(s, a)
  {
    match a
    case EndContext => s.(contextEnded := true)
    case AnswerFirst(notFound) =>
      if s.device.NoDevice? || !notFound then s.(call := Ended(FirstAnswer), firstNotFound := notFound)
      else s.(call := Denied, firstNotFound := true)
    case GoOn =>
      if s.contextEnded then s.(call := Ended(NotSent))
      else if s.device.Source? then s.(call := Asking, goroutine := Running, asked := s.asked + 1)
      else s.(call := Second)
    case Return(manner, given) => s.(goroutine := Offering(manner), key := given)
    case Exit => s.(goroutine := Finished)
    case HandOver => s.(call := Took(s.goroutine.manner), goroutine := Finished)
    case GiveUp => s.(call := Ended(NotSent), gaveUp := true)
    case SeeFinished => s.(call := Ended(if s.contextEnded then NotSent else SourceError))
    case WipeUnclaimed => s.(goroutine := Finished, key := Zeros(|s.key|))
    case Decide =>
      (match Verdict(s.call.manner, s.key, s.contextEnded)
       case Key => s.(call := Second, handed := s.handed + 1)
       case ContextEnded => s.(call := Ended(NotSent), key := Zeros(|s.key|))
       case SourceFailed => s.(call := Ended(SourceError), key := Zeros(|s.key|))
       case Panic => s.(call := Ended(SourcePanic)))
    case SendSecond => s.(sentAsDevice := s.sentAsDevice + 1, sentKey := s.key)
    case FinishSecond => s.(call := Ended(SecondAnswer), key := if s.device.Source? then Zeros(|s.key|) else s.key)
  }

  ghost predicate Inv(s: State) {
    && (s.call in {First, Denied} ==> s.goroutine == Unasked && s.asked == 0)
    && (s.call == Asking ==> s.device.Source? && s.goroutine != Unasked && !s.gaveUp)
    && (s.call.Took? ==> s.device.Source? && s.goroutine.Finished? && (s.call.manner.Panicked? ==> s.key == []))
    && (s.call.Second? ==> s.goroutine == if s.device.Source? then Finished else Unasked)
    && (s.call.Second? && s.device.Source? ==> Usable(s.key) && s.handed == 1)
    && (s.goroutine.Offering? ==> (s.call.Asking? || s.gaveUp) && (s.goroutine.manner.Panicked? ==> s.key == []))
    && (s.goroutine.Running? ==> (s.call.Asking? || s.gaveUp) && s.key == [])
    && (s.goroutine.Unasked? ==> s.key == [] && s.asked == 0)
    && (s.call.Asking? && s.goroutine.Finished? ==> s.key == [])
    && (s.gaveUp ==> s.call == Ended(NotSent))
    && (s.call.Ended? && s.goroutine in {Unasked, Finished} ==> Wiped(s.key))
    && (s.asked > 0 ==> s.device.Source? && s.firstNotFound)
    && s.asked == (if s.goroutine.Unasked? then 0 else 1)
    && s.handed <= 1 && (s.handed == 1 ==> s.call.Second? || s.call == Ended(SecondAnswer))
    && s.sentAsDevice <= 1
    && (s.sentAsDevice == 1 ==> s.call.Second? || s.call == Ended(SecondAnswer))
    && (s.call == Ended(SecondAnswer) ==> s.sentAsDevice == 1)
    && (s.call.Second? || s.call.Denied? || s.call.Asking? || s.call.Took? || s.sentAsDevice == 1 ==>
          s.firstNotFound && !s.device.NoDevice?)
    && (s.sentAsDevice == 1 && s.device.Source? ==> Usable(s.sentKey) && s.handed == 1)
    && (s.call.Ended? ==> s.call.end == FirstAnswer || s.call.end == SecondAnswer || s.sentAsDevice == 0)
  }

  lemma StepKeepsInv(s: State, a: Action)
    requires Inv(s) && Enabled(s, a)
    ensures Inv(Apply(s, a))
  {
  }

  ghost predicate Run(device: Device, states: seq<State>, actions: seq<Action>) {
    && |states| == |actions| + 1 && states[0] == Start(device)
    && forall k | 0 <= k < |actions| :: Enabled(states[k], actions[k]) && states[k + 1] == Apply(states[k], actions[k])
  }

  lemma {:induction false} RunKeepsInv(device: Device, states: seq<State>, actions: seq<Action>, k: nat)
    requires Run(device, states, actions) && k < |states|
    ensures Inv(states[k]) && states[k].device == device
    decreases k
  {
    if k > 0 {
      RunKeepsInv(device, states, actions, k - 1);
      StepKeepsInv(states[k - 1], actions[k - 1]);
    }
  }

  /** When the call and the goroutine have both ended, whatever the source gave
      is zero. */
  lemma GivenKeyIsGone(device: Device, states: seq<State>, actions: seq<Action>, k: nat)
    requires Run(device, states, actions) && k < |states|
    requires states[k].call.Ended? && states[k].goroutine in {Unasked, Finished}
    ensures Wiped(states[k].key)
  {
    RunKeepsInv(device, states, actions, k);
  }

  /** The device key is used at most once, only after the keyless request was
      answered "not found"; a source is asked at most once, under the same
      condition, and gives at most one key to the call. */
  lemma DeviceKeyIsUsedOnceAfterNotFound(device: Device, states: seq<State>, actions: seq<Action>, k: nat)
    requires Run(device, states, actions) && k < |states|
    ensures states[k].sentAsDevice <= 1 && states[k].asked <= 1 && states[k].handed <= 1
    ensures states[k].asked == 0 <==> states[k].goroutine.Unasked?
    ensures states[k].sentAsDevice == 1 ==> states[k].firstNotFound && !device.NoDevice?
    ensures states[k].asked == 1 ==> states[k].firstNotFound && device.Source?
    ensures states[k].sentAsDevice == 1 && device.Source? ==> Usable(states[k].sentKey) && states[k].handed == 1
    ensures states[k].call == Ended(NotSent) ==> states[k].sentAsDevice == 0
  {
    RunKeepsInv(device, states, actions, k);
  }

  /** While the call holds a key it was handed, nobody else can touch it. */
  lemma {:induction false} HandedKeyIsUntouched(
      device: Device, states: seq<State>, actions: seq<Action>, j: nat, k: nat)
    requires Run(device, states, actions) && j <= k < |states|
    requires states[j].call.Second? && forall m | j <= m <= k :: states[m].call.Second?
    ensures states[k].key == states[j].key
    decreases k
  {
    if j < k {
      HandedKeyIsUntouched(device, states, actions, j, k - 1);
      RunKeepsInv(device, states, actions, k - 1);
    }
  }

  /** The call waits for a source only while the context lives: it always has a
      next step of its own once the context has ended, and the goroutine has one
      once the source came back. */
  lemma NobodyIsStuck(device: Device, states: seq<State>, actions: seq<Action>, k: nat)
    requires Run(device, states, actions) && k < |states|
    ensures var s := states[k];
            s.contextEnded && !s.call.Ended? ==>
              || Enabled(s, AnswerFirst(true)) || Enabled(s, GoOn) || Enabled(s, GiveUp) || Enabled(s, Decide)
              || Enabled(s, SendSecond) || Enabled(s, FinishSecond)
    ensures states[k].goroutine.Offering? ==> Enabled(states[k], HandOver) || Enabled(states[k], WipeUnclaimed)
  {
    RunKeepsInv(device, states, actions, k);
  }

  // --- Where the key comes from, and when it stays at home -----------------------------

  /** The manner in which the source came back, while it still matters. */
  predicate CameBack(s: State, manner: Manner) {
    || (s.call.Asking? && s.goroutine == Offering(manner))
    || s.call == Took(manner)
    || (s.call.Second? && s.device.Source? && manner == Gave)
  }

  lemma CameBackStep(s: State, a: Action, manner: Manner)
    requires Inv(s) && Enabled(s, a) && CameBack(Apply(s, a), manner)
    ensures || a == Return(manner, Apply(s, a).key)
            || (CameBack(s, manner) && Apply(s, a).key == s.key)
  {
  }

  /** What the call holds is what the source returned, byte for byte. */
  lemma {:induction false} KeyIsAsGiven(
      device: Device, states: seq<State>, actions: seq<Action>, k: nat, manner: Manner) returns (m: nat)
    requires Run(device, states, actions) && k < |states| && CameBack(states[k], manner)
    ensures m < k && actions[m] == Return(manner, states[k].key)
    decreases k
  {
    assert k > 0;
    hide Inv, CameBack, Apply, Enabled;
    RunKeepsInv(device, states, actions, k - 1);
    CameBackStep(states[k - 1], actions[k - 1], manner);
    if actions[k - 1] == Return(manner, states[k].key) {
      m := k - 1;
    } else {
      m := KeyIsAsGiven(device, states, actions, k - 1, manner);
    }
  }

  lemma SentStep(s: State, a: Action)
    requires Inv(s) && Enabled(s, a) && s.device.Source? && Apply(s, a).sentAsDevice == 1
    ensures || (a.SendSecond? && CameBack(s, Gave) && Apply(s, a).sentKey == s.key)
            || (s.sentAsDevice == 1 && Apply(s, a).sentKey == s.sentKey)
  {
  }

  /** The key a request went out under is the one the source gave. */
  lemma {:induction false} SentKeyIsAsGiven(device: Device, states: seq<State>, actions: seq<Action>, k: nat)
    returns (m: nat)
    requires Run(device, states, actions) && k < |states| && device.Source? && states[k].sentAsDevice == 1
    ensures m < k && actions[m] == Return(Gave, states[k].sentKey)
    decreases k
  {
    assert k > 0;
    hide Inv, CameBack, Apply, Enabled;
    RunKeepsInv(device, states, actions, k - 1);
    SentStep(states[k - 1], actions[k - 1]);
    if actions[k - 1].SendSecond? && CameBack(states[k - 1], Gave) && states[k].sentKey == states[k - 1].key {
      m := KeyIsAsGiven(device, states, actions, k - 1, Gave);
    } else {
      m := SentKeyIsAsGiven(device, states, actions, k - 1);
    }
  }

  /** Asking a source, and using the device key, has a "not found" before it. */
  lemma {:induction false} NotFoundWasAnswered(device: Device, states: seq<State>, actions: seq<Action>, k: nat)
    returns (m: nat)
    requires Run(device, states, actions) && k < |states|
    requires states[k].sentAsDevice > 0 || states[k].asked > 0 || states[k].firstNotFound
    ensures m < k && actions[m] == AnswerFirst(true)
    decreases k
  {
    RunKeepsInv(device, states, actions, k);
    assert k > 0;
    assert states[k] == Apply(states[k - 1], actions[k - 1]);
    hide Inv;
    if actions[k - 1] == AnswerFirst(true) {
      m := k - 1;
    } else {
      m := NotFoundWasAnswered(device, states, actions, k - 1);
    }
  }

  predicate Undecided(s: State) {
    !s.call.Second? && s.sentAsDevice == 0
  }

  /** A context that ends before the device key is in the call's hands keeps it
      from ever being used, and a source from being asked any more. */
  lemma {:induction false} NothingIsSentAfterTheContextEnded(
      device: Device, states: seq<State>, actions: seq<Action>, e: nat, j: nat, k: nat)
    requires Run(device, states, actions) && e < j <= k < |states| && actions[e].EndContext?
    requires Undecided(states[j])
    ensures states[k].contextEnded && Undecided(states[k]) && states[k].asked == states[j].asked
    decreases k
  {
    if j < k {
      NothingIsSentAfterTheContextEnded(device, states, actions, e, j, k - 1);
      RunKeepsInv(device, states, actions, k - 1);
    } else {
      ContextStaysEnded(device, states, actions, e, j);
    }
  }

  lemma {:induction false} ContextStaysEnded(device: Device, states: seq<State>, actions: seq<Action>, e: nat, j: nat)
    requires Run(device, states, actions) && e < j < |states| && actions[e].EndContext?
    ensures states[j].contextEnded
    decreases j
  {
    if e < j - 1 {
      ContextStaysEnded(device, states, actions, e, j - 1);
    }
    assert states[j] == Apply(states[j - 1], actions[j - 1]);
  }

  /** And without any such end a source's key does get used: a run to the answer. */
  lemma AnsweredUnderTheSourcesKey(key: seq<bv8>) returns (states: seq<State>, actions: seq<Action>)
    requires Usable(key)
    ensures Run(Source, states, actions) && |states| == 8
    ensures states[7].call == Ended(SecondAnswer) && states[7].sentKey == key && Wiped(states[7].key)
  {
    hide Usable;
    actions := [AnswerFirst(true), GoOn, Return(Gave, key), HandOver, Decide, SendSecond, FinishSecond];
    var s1 := Apply(Start(Source), actions[0]);
    var s2 := Apply(s1, actions[1]);
    var s3 := Apply(s2, actions[2]);
    var s4 := Apply(s3, actions[3]);
    var s5 := Apply(s4, actions[4]);
    var s6 := Apply(s5, actions[5]);
    var s7 := Apply(s6, actions[6]);
    states := [Start(Source), s1, s2, s3, s4, s5, s6, s7];
  }
}
