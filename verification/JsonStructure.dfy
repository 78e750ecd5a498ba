/** The token walk that checks a JSON document's structure before it is decoded:
    what the decoder's position does, and which documents pass. */
module JsonStructure {
  import opened Wrappers

  datatype Token =
    | OpenObject | OpenArray | CloseObject | CloseArray
    | Text(text: string) | Number | Boolean | Null

  predicate IsOpen(t: Token) {
    t.OpenObject? || t.OpenArray?
  }

  predicate IsClose(t: Token) {
    t.CloseObject? || t.CloseArray?
  }

  /** What follows the tokens: the end of the input, or bytes that are no token.
      Before such bytes the decoder may or may not announce another element. */
  datatype Ending = EndOfInput | Broken(more: bool)

  /** Negative limits are no limits; the root value has depth zero. */
  datatype Policy = Policy(
    requireObject: bool,
    maxContainerDepth: int,
    maxValueDepth: int,
    rejectRootNull: bool,
    allowedRootFields: Option<set<string>>)
  {
    predicate Unbounded() {
      maxContainerDepth < 0 && maxValueDepth < 0
    }
  }

  datatype Problem =
    | Syntax | NotObject | BadKey | Unknown(key: string) | Duplicate(key: string) | NullField(key: string)
    | TooDeep | ObjectEnd | ArrayEnd | Delimiter | Trailing(more: bool)

  datatype Outcome = Ok(fields: set<string>, rest: seq<Token>) | Bad(problem: Problem)

  // --- The walk as a function of the tokens still to come ----------------------

  predicate More(ts: seq<Token>, ending: Ending) {
    if ts == [] then ending.Broken? && ending.more else !IsClose(ts[0])
  }

  function ReadValue(p: Policy, ending: Ending, ts: seq<Token>, depth: nat, key: string): (r: Outcome)
    ensures r.Ok? ==> |r.rest| < |ts|
    decreases |ts|, 1
  {
    if p.maxValueDepth >= 0 && depth > p.maxValueDepth then Bad(TooDeep)
    else if ts == [] then Bad(Syntax)
    else if depth == 0 && p.requireObject && !ts[0].OpenObject? then Bad(NotObject)
    else if !IsOpen(ts[0]) && !IsClose(ts[0]) then
      if ts[0].Null? && depth == 1 && p.rejectRootNull then Bad(NullField(key)) else Ok({}, ts[1..])
    else if p.maxContainerDepth >= 0 && depth > p.maxContainerDepth then Bad(TooDeep)
    else if depth > 0 && IsOpen(ts[0]) && p.Unbounded() then Drain(ts[1..], 1)
    else match ts[0]
      case OpenObject => ReadMembers(p, ending, ts[1..], depth, {})
      case OpenArray => ReadItems(p, ending, ts[1..], depth)
      case _ => Bad(Delimiter)
  }

  function ReadItems(p: Policy, ending: Ending, ts: seq<Token>, depth: nat): (r: Outcome)
    ensures r.Ok? ==> |r.rest| < |ts|
    decreases |ts|, 2
  {
    if More(ts, ending) then
      match ReadValue(p, ending, ts, depth + 1, "")
      case Bad(problem) => Bad(problem)
      case Ok(_, rest) => ReadItems(p, ending, rest, depth)
    else if ts != [] && ts[0].CloseArray? then Ok({}, ts[1..])
    else Bad(ArrayEnd)
  }

  predicate Allowed(p: Policy, depth: nat, key: string) {
    depth == 0 && p.allowedRootFields.Some? ==> key in p.allowedRootFields.value
  }

  function ReadMembers(p: Policy, ending: Ending, ts: seq<Token>, depth: nat, seen: set<string>): (r: Outcome)
    ensures r.Ok? ==> |r.rest| < |ts|
    decreases |ts|, 2
  {
    if More(ts, ending) then
      if ts == [] then Bad(Syntax)
      else if !ts[0].Text? then Bad(BadKey)
      else
        var key := ts[0].text;
        if !Allowed(p, depth, key) then Bad(Unknown(key))
        else if key in seen then Bad(Duplicate(key))
        else match ReadValue(p, ending, ts[1..], depth + 1, key)
          case Bad(problem) => Bad(problem)
          case Ok(_, rest) => ReadMembers(p, ending, rest, depth, seen + {key})
    else if ts != [] && ts[0].CloseObject? then Ok(seen, ts[1..])
    else Bad(ObjectEnd)
  }

  /** Skips to where as many containers have closed as are open. */
  function Drain(ts: seq<Token>, open: nat): (r: Outcome)
    ensures r.Ok? ==> |r.rest| + open <= |ts|
    decreases |ts|
  {
    if open == 0 then Ok({}, ts)
    else if ts == [] then Bad(Syntax)
    else if IsOpen(ts[0]) then Drain(ts[1..], open + 1)
    else if IsClose(ts[0]) then Drain(ts[1..], open - 1)
    else Drain(ts[1..], open)
  }

  function Walk(p: Policy, ending: Ending, ts: seq<Token>): Outcome {
    match ReadValue(p, ending, ts, 0, "")
    case Bad(problem) => Bad(problem)
    case Ok(fields, rest) =>
      if rest == [] && ending.EndOfInput? then Ok(fields, []) else Bad(Trailing(More(rest, ending)))
  }

  // --- The walk as the code runs it --------------------------------------------

  class Walker {
    const policy: Policy
    const tokens: seq<Token>
    const ending: Ending
    var pos: nat

    ghost predicate Valid()
      reads this
    {
      pos <= |tokens|
    }

    /** What the decoder has yet to deliver. */
    ghost function Ahead(): seq<Token>
      requires Valid()
      reads this
    {
      tokens[pos..]
    }

    constructor (policy: Policy, tokens: seq<Token>, ending: Ending)
      ensures Valid() && Ahead() == tokens
      ensures this.policy == policy && this.tokens == tokens && this.ending == ending
    {
      this.policy, this.tokens, this.ending := policy, tokens, ending;
      pos := 0;
    }

    /** Recursion always has a limit: this holds at every call of Value. */
    predicate Reachable(depth: nat) {
      && (policy.maxContainerDepth >= 0 ==> depth <= policy.maxContainerDepth + 1)
      && (policy.maxValueDepth >= 0 ==> depth <= policy.maxValueDepth + 1)
      && (policy.Unbounded() ==> depth <= 1)
    }

    method HasMore() returns (more: bool)
      requires Valid()
      ensures more == More(Ahead(), ending)
    {
      more := if pos == |tokens| then ending.Broken? && ending.more else !IsClose(tokens[pos]);
    }

    method Next() returns (token: Option<Token>)
      requires Valid()
      modifies this
      ensures Valid()
      ensures old(Ahead()) == [] ==> token == None && Ahead() == []
      ensures old(Ahead()) != [] ==> token == Some(old(Ahead())[0]) && Ahead() == old(Ahead())[1..]
    {
      if pos == |tokens| {
        return None;
      }
      token := Some(tokens[pos]);
      pos := pos + 1;
    }

    method Value(depth: nat, key: string) returns (r: Result<set<string>, Problem>)
      requires Valid() && Reachable(depth)
      modifies this
      ensures Valid()
      ensures var spec := ReadValue(policy, ending, old(Ahead()), depth, key);
              match spec
              case Bad(problem) => r == Failure(problem)
              case Ok(fields, rest) => r == Success(fields) && Ahead() == rest
      decreases |tokens| - pos, 1
    {
      if policy.maxValueDepth >= 0 && depth > policy.maxValueDepth {
        return Failure(TooDeep);
      }
      var token := Next();
      if token.None? {
        return Failure(Syntax);
      }
      var t := token.value;
      if depth == 0 && policy.requireObject && !t.OpenObject? {
        return Failure(NotObject);
      }
      if !IsOpen(t) && !IsClose(t) {
        if t.Null? && depth == 1 && policy.rejectRootNull {
          return Failure(NullField(key));
        }
        return Success({});
      }
      if policy.maxContainerDepth >= 0 && depth > policy.maxContainerDepth {
        return Failure(TooDeep);
      }
      if depth > 0 && IsOpen(t) && policy.Unbounded() {
        r := DrainContainer();
        return;
      }
      if t.OpenObject? {
        r := Object(depth);
      } else if t.OpenArray? {
        r := Array(depth);
      } else {
        r := Failure(Delimiter);
      }
    }

    method Array(depth: nat) returns (r: Result<set<string>, Problem>)
      requires Valid() && Reachable(depth + 1)
      modifies this
      ensures Valid()
      ensures match ReadItems(policy, ending, old(Ahead()), depth)
              case Bad(problem) => r == Failure(problem)
              case Ok(fields, rest) => r == Success(fields) && Ahead() == rest
      decreases |tokens| - pos, 2
    {
      ghost var all := Ahead();
      var more := HasMore();
      while more
        invariant Valid() && pos >= old(pos)
        invariant more == More(Ahead(), ending)
        invariant ReadItems(policy, ending, all, depth) == ReadItems(policy, ending, Ahead(), depth)
        decreases |tokens| - pos
      {
        var element := Value(depth + 1, "");
        if element.Failure? {
          return Failure(element.error);
        }
        more := HasMore();
      }
      var end := Next();
      r := if end == Some(CloseArray) then Success({}) else Failure(ArrayEnd);
    }

    method Object(depth: nat) returns (r: Result<set<string>, Problem>)
      requires Valid() && Reachable(depth + 1)
      modifies this
      ensures Valid()
      ensures match ReadMembers(policy, ending, old(Ahead()), depth, {})
              case Bad(problem) => r == Failure(problem)
              case Ok(fields, rest) => r == Success(fields) && Ahead() == rest
      decreases |tokens| - pos, 2
    {
      ghost var all := Ahead();
      var seen: set<string> := {};
      var more := HasMore();
      while more
        invariant Valid() && pos >= old(pos)
        invariant more == More(Ahead(), ending)
        invariant ReadMembers(policy, ending, all, depth, {}) == ReadMembers(policy, ending, Ahead(), depth, seen)
        decreases |tokens| - pos
      {
        var token := Next();
        if token.None? {
          return Failure(Syntax);
        }
        if !token.value.Text? {
          return Failure(BadKey);
        }
        var key := token.value.text;
        if depth == 0 && policy.allowedRootFields.Some? && key !in policy.allowedRootFields.value {
          return Failure(Unknown(key));
        }
        if key in seen {
          return Failure(Duplicate(key));
        }
        seen := seen + {key};
        var member := Value(depth + 1, key);
        if member.Failure? {
          return Failure(member.error);
        }
        more := HasMore();
      }
      var end := Next();
      r := if end == Some(CloseObject) then Success(seen) else Failure(ObjectEnd);
    }

    method DrainContainer() returns (r: Result<set<string>, Problem>)
      requires Valid()
      modifies this
      ensures Valid()
      ensures match Drain(old(Ahead()), 1)
              case Bad(problem) => r == Failure(problem)
              case Ok(fields, rest) => r == Success(fields) && Ahead() == rest
      decreases |tokens| - pos, 0
    {
      ghost var all := Ahead();
      var depth := 1;
      while depth > 0
        invariant Valid() && depth >= 0
        invariant Drain(all, 1) == Drain(Ahead(), depth)
        decreases |tokens| - pos
      {
        var token := Next();
        if token.None? {
          return Failure(Syntax);
        }
        if IsOpen(token.value) {
          depth := depth + 1;
        } else if IsClose(token.value) {
          depth := depth - 1;
        }
      }
      r := Success({});
    }

    method Run() returns (r: Result<set<string>, Problem>)
      requires Valid() && pos == 0
      modifies this
      ensures match Walk(policy, ending, tokens)
              case Bad(problem) => r == Failure(problem)
              case Ok(fields, _) => r == Success(fields)
    {
      r := Value(0, "");
      if r.Success? {
        var more := HasMore();
        var token := Next();
        if token.Some? || ending.Broken? {
          r := Failure(Trailing(more));
        }
      }
    }
  }

  // --- Documents ----------------------------------------------------------------

  datatype Json = Scalar(token: Token) | Object(members: Members) | Array(items: Items)

  datatype Members = NoMembers | Member(name: string, value: Json, others: Members)

  datatype Items = NoItems | Item(value: Json, others: Items)

  /** Scalars hold no bracket. */
  predicate IsJson(v: Json) {
    match v
    case Scalar(t) => !IsOpen(t) && !IsClose(t)
    case Object(ms) => AreMembers(ms)
    case Array(vs) => AreItems(vs)
  }

  predicate AreMembers(ms: Members) {
    match ms
    case NoMembers => true
    case Member(_, v, others) => IsJson(v) && AreMembers(others)
  }

  predicate AreItems(vs: Items) {
    match vs
    case NoItems => true
    case Item(v, others) => IsJson(v) && AreItems(others)
  }

  function Tokens(v: Json): (ts: seq<Token>)
    ensures ts != []
  {
    match v
    case Scalar(t) => [t]
    case Object(ms) => [OpenObject] + MemberTokens(ms)
    case Array(vs) => [OpenArray] + ItemTokens(vs)
  }

  /** Up to and with the closing brace. */
  function MemberTokens(ms: Members): (ts: seq<Token>)
    ensures ts != []
  {
    match ms
    case NoMembers => [CloseObject]
    case Member(name, v, others) => [Text(name)] + Tokens(v) + MemberTokens(others)
  }

  function ItemTokens(vs: Items): (ts: seq<Token>)
    ensures ts != []
  {
    match vs
    case NoItems => [CloseArray]
    case Item(v, others) => Tokens(v) + ItemTokens(others)
  }

  function Names(ms: Members): set<string> {
    match ms
    case NoMembers => {}
    case Member(name, _, others) => {name} + Names(others)
  }

  /** What a policy asks of a document. Without limits, nested containers are
      not looked into. */
  predicate Fits(p: Policy, v: Json, depth: nat) {
    && (p.maxValueDepth >= 0 ==> depth <= p.maxValueDepth)
    && (depth == 0 && p.requireObject ==> v.Object?)
    && (depth == 1 && p.rejectRootNull ==> v != Scalar(Null))
    && (!v.Scalar? && p.maxContainerDepth >= 0 ==> depth <= p.maxContainerDepth)
    && (depth == 0 || !p.Unbounded() ==>
          match v
          case Scalar(_) => true
          case Object(ms) => MembersFit(p, ms, depth)
          case Array(vs) => ItemsFit(p, vs, depth))
  }

  predicate MembersFit(p: Policy, ms: Members, depth: nat) {
    match ms
    case NoMembers => true
    case Member(name, v, others) =>
      name !in Names(others) && Allowed(p, depth, name) && Fits(p, v, depth + 1) && MembersFit(p, others, depth)
  }

  predicate ItemsFit(p: Policy, vs: Items, depth: nat) {
    match vs
    case NoItems => true
    case Item(v, others) => Fits(p, v, depth + 1) && ItemsFit(p, others, depth)
  }

  // --- Every fitting document passes --------------------------------------------

  lemma {:induction false} DrainSkipsValue(v: Json, rest: seq<Token>, open: nat)
    requires IsJson(v) && open > 0
    ensures Drain(Tokens(v) + rest, open) == Drain(rest, open)
    decreases v
  {
    var ts := Tokens(v) + rest;
    match v
    case Scalar(t) =>
      assert ts[1..] == rest;
    case Object(ms) =>
      assert ts[1..] == MemberTokens(ms) + rest;
      DrainSkipsMembers(ms, rest, open + 1);
    case Array(vs) =>
      assert ts[1..] == ItemTokens(vs) + rest;
      DrainSkipsItems(vs, rest, open + 1);
  }

  lemma {:induction false} DrainSkipsMembers(ms: Members, rest: seq<Token>, open: nat)
    requires AreMembers(ms) && open > 0
    ensures Drain(MemberTokens(ms) + rest, open) == Drain(rest, open - 1)
    decreases ms
  {
    var ts := MemberTokens(ms) + rest;
    match ms
    case NoMembers =>
      assert ts[1..] == rest;
    case Member(_, v, others) =>
      assert ts[1..] == Tokens(v) + (MemberTokens(others) + rest);
      DrainSkipsValue(v, MemberTokens(others) + rest, open);
      DrainSkipsMembers(others, rest, open);
  }

  lemma {:induction false} DrainSkipsItems(vs: Items, rest: seq<Token>, open: nat)
    requires AreItems(vs) && open > 0
    ensures Drain(ItemTokens(vs) + rest, open) == Drain(rest, open - 1)
    decreases vs
  {
    var ts := ItemTokens(vs) + rest;
    match vs
    case NoItems =>
      assert ts[1..] == rest;
    case Item(v, others) =>
      assert ts == Tokens(v) + (ItemTokens(others) + rest);
      DrainSkipsValue(v, ItemTokens(others) + rest, open);
      DrainSkipsItems(others, rest, open);
  }

  function FieldsOf(v: Json): set<string> {
    match v
    case Object(ms) => Names(ms)
    case _ => {}
  }

  lemma {:induction false} FittingValueIsRead(
      p: Policy, ending: Ending, v: Json, rest: seq<Token>, depth: nat, key: string)
    requires IsJson(v) && Fits(p, v, depth)
    ensures var r := ReadValue(p, ending, Tokens(v) + rest, depth, key);
            r.Ok? && r.rest == rest && (depth == 0 ==> r.fields == FieldsOf(v))
    decreases v
  {
    var ts := Tokens(v) + rest;
    match v
    case Scalar(t) =>
      assert ts[1..] == rest;
    case Object(ms) =>
      assert ts[1..] == MemberTokens(ms) + rest;
      if depth > 0 && p.Unbounded() {
        DrainSkipsMembers(ms, rest, 1);
      } else {
        FittingMembersAreRead(p, ending, ms, rest, depth, {});
      }
    case Array(vs) =>
      assert ts[1..] == ItemTokens(vs) + rest;
      if depth > 0 && p.Unbounded() {
        DrainSkipsItems(vs, rest, 1);
      } else {
        FittingItemsAreRead(p, ending, vs, rest, depth);
      }
  }

  lemma {:induction false} FittingMembersAreRead(
      p: Policy, ending: Ending, ms: Members, rest: seq<Token>, depth: nat, seen: set<string>)
    requires AreMembers(ms) && MembersFit(p, ms, depth) && seen !! Names(ms)
    ensures ReadMembers(p, ending, MemberTokens(ms) + rest, depth, seen) == Ok(seen + Names(ms), rest)
    decreases ms
  {
    var ts := MemberTokens(ms) + rest;
    match ms
    case NoMembers =>
      assert ts[1..] == rest;
      assert seen + {} == seen;
    case Member(name, v, others) =>
      assert ts[1..] == Tokens(v) + (MemberTokens(others) + rest);
      FittingValueIsRead(p, ending, v, MemberTokens(others) + rest, depth + 1, name);
      FittingMembersAreRead(p, ending, others, rest, depth, seen + {name});
      assert seen + {name} + Names(others) == seen + Names(ms);
  }

  lemma {:induction false} FittingItemsAreRead(p: Policy, ending: Ending, vs: Items, rest: seq<Token>, depth: nat)
    requires AreItems(vs) && ItemsFit(p, vs, depth)
    ensures ReadItems(p, ending, ItemTokens(vs) + rest, depth) == Ok({}, rest)
    decreases vs
  {
    var ts := ItemTokens(vs) + rest;
    match vs
    case NoItems =>
      assert ts[1..] == rest;
    case Item(v, others) =>
      assert ts == Tokens(v) + (ItemTokens(others) + rest);
      StartsOpen(v);
      FittingValueIsRead(p, ending, v, ItemTokens(others) + rest, depth + 1, "");
      FittingItemsAreRead(p, ending, others, rest, depth);
  }

  lemma StartsOpen(v: Json)
    requires IsJson(v)
    ensures !IsClose(Tokens(v)[0])
  {
  }

  // --- Nothing else passes --------------------------------------------------------

  /** Where a decoder stands: it hands out a member's name, then its value. */
  datatype Place = AtName | AtMember | InArray

  /** The stack after a value has been handed out. */
  function AfterValue(stack: seq<Place>): (s: seq<Place>)
    requires stack == [] || !stack[0].AtName?
    ensures |s| == |stack|
  {
    if stack != [] && stack[0].AtMember? then [AtName] + stack[1..] else stack
  }

  /** The decoder's own guarantee about the tokens it hands out. */
  predicate Grammatical(stack: seq<Place>, ts: seq<Token>)
    decreases |ts|
  {
    if ts == [] then true
    else if stack != [] && stack[0].AtName? then
      (ts[0].Text? && Grammatical([AtMember] + stack[1..], ts[1..])) ||
      (ts[0].CloseObject? && Grammatical(stack[1..], ts[1..]))
    else match ts[0]
      case OpenObject => Grammatical([AtName] + AfterValue(stack), ts[1..])
      case OpenArray => Grammatical([InArray] + AfterValue(stack), ts[1..])
      case CloseObject => false
      case CloseArray => stack != [] && stack[0].InArray? && Grammatical(stack[1..], ts[1..])
      case _ => Grammatical(AfterValue(stack), ts[1..])
  }

  /** Every document is what a decoder may hand out, in whatever it stands. */
  lemma {:induction false} DocumentsAreGrammatical(v: Json, stack: seq<Place>, rest: seq<Token>)
    requires IsJson(v) && (stack == [] || !stack[0].AtName?) && Grammatical(AfterValue(stack), rest)
    ensures Grammatical(stack, Tokens(v) + rest)
    decreases v
  {
    var ts, below := Tokens(v) + rest, AfterValue(stack);
    match v
    case Scalar(t) =>
      assert ts[1..] == rest;
    case Object(ms) =>
      assert ts[1..] == MemberTokens(ms) + rest;
      MembersAreGrammatical(ms, below, rest);
    case Array(vs) =>
      assert ts[1..] == ItemTokens(vs) + rest;
      ItemsAreGrammatical(vs, below, rest);
  }

  lemma NameAhead(below: seq<Place>, ts: seq<Token>)
    requires ts != [] && (ts[0].Text? || ts[0].CloseObject?)
    requires if ts[0].Text? then Grammatical([AtMember] + below, ts[1..]) else Grammatical(below, ts[1..])
    ensures Grammatical([AtName] + below, ts)
  {
    assert ([AtName] + below)[1..] == below;
  }

  lemma {:induction false} MembersAreGrammatical(ms: Members, below: seq<Place>, rest: seq<Token>)
    requires AreMembers(ms) && Grammatical(below, rest)
    ensures Grammatical([AtName] + below, MemberTokens(ms) + rest)
    decreases ms
  {
    hide Grammatical, Tokens, IsJson;
    var ts := MemberTokens(ms) + rest;
    match ms
    case NoMembers =>
      assert ts[1..] == rest;
      NameAhead(below, ts);
    case Member(_, v, others) =>
      var stack := [AtMember] + below;
      assert stack[1..] == below;
      assert ts[1..] == Tokens(v) + (MemberTokens(others) + rest);
      MembersAreGrammatical(others, below, rest);
      DocumentsAreGrammatical(v, stack, MemberTokens(others) + rest);
      NameAhead(below, ts);
  }

  lemma {:induction false} ItemsAreGrammatical(vs: Items, below: seq<Place>, rest: seq<Token>)
    requires AreItems(vs) && Grammatical(below, rest)
    ensures Grammatical([InArray] + below, ItemTokens(vs) + rest)
    decreases vs
  {
    var ts, stack := ItemTokens(vs) + rest, [InArray] + below;
    assert stack[1..] == below;
    match vs
    case NoItems =>
      assert ts[1..] == rest;
    case Item(v, others) =>
      assert ts == Tokens(v) + (ItemTokens(others) + rest);
      ItemsAreGrammatical(others, below, rest);
      DocumentsAreGrammatical(v, stack, ItemTokens(others) + rest);
  }

  /** The tokens of one value and what follows them, or a value cut short. */
  datatype Reading<T> = Complete(value: T, rest: seq<Token>) | CutShort

  /** No container left open here is ever closed. */
  ghost predicate Unclosed(ts: seq<Token>) {
    forall open: nat | open > 0 :: Drain(ts, open) == Bad(Syntax)
  }

  lemma NothingIsUnclosed()
    ensures Unclosed([])
  {
  }

  lemma UnclosedAfterToken(ts: seq<Token>)
    requires ts != [] && !IsClose(ts[0]) && Unclosed(ts[1..])
    ensures Unclosed(ts)
  {
  }

  lemma UnclosedAfterValue(v: Json, tail: seq<Token>)
    requires IsJson(v) && Unclosed(tail)
    ensures Unclosed(Tokens(v) + tail)
  {
    forall open: nat | open > 0
      ensures Drain(Tokens(v) + tail, open) == Bad(Syntax)
    {
      DrainSkipsValue(v, tail, open);
    }
  }

  lemma ObjectInFront(ts: seq<Token>, ms: Members, rest: seq<Token>)
    requires ts != [] && ts[0].OpenObject? && ts[1..] == MemberTokens(ms) + rest && AreMembers(ms)
    ensures IsJson(Object(ms)) && ts == Tokens(Object(ms)) + rest
  {
    hide MemberTokens, AreMembers;
    assert ts == [ts[0]] + ts[1..];
  }

  lemma ArrayInFront(ts: seq<Token>, vs: Items, rest: seq<Token>)
    requires ts != [] && ts[0].OpenArray? && ts[1..] == ItemTokens(vs) + rest && AreItems(vs)
    ensures IsJson(Array(vs)) && ts == Tokens(Array(vs)) + rest
  {
    hide ItemTokens, AreItems;
    assert ts == [ts[0]] + ts[1..];
  }

  lemma ScalarInFront(ts: seq<Token>)
    requires ts != [] && !IsOpen(ts[0]) && !IsClose(ts[0])
    ensures IsJson(Scalar(ts[0])) && ts == Tokens(Scalar(ts[0])) + ts[1..]
  {
  }

  lemma MemberInFront(ts: seq<Token>, v: Json, others: Members, rest: seq<Token>)
    requires ts != [] && ts[0].Text? && ts[1..] == Tokens(v) + (MemberTokens(others) + rest)
    ensures ts == MemberTokens(Member(ts[0].text, v, others)) + rest
  {
    assert ts == [ts[0]] + ts[1..];
  }

  lemma ItemInFront(ts: seq<Token>, v: Json, others: Items, rest: seq<Token>)
    requires ts == Tokens(v) + (ItemTokens(others) + rest) && IsJson(v) && AreItems(others)
    ensures ts == ItemTokens(Item(v, others)) + rest && AreItems(Item(v, others))
  {
    hide Tokens, IsJson;
  }

  lemma NoItemInFront(ts: seq<Token>)
    requires ts != [] && ts[0].CloseArray?
    ensures ts == ItemTokens(NoItems) + ts[1..] && AreItems(NoItems)
  {
  }

  lemma {:induction false} ValueOrCutShort(stack: seq<Place>, ts: seq<Token>) returns (r: Reading<Json>)
    requires Grammatical(stack, ts) && (stack == [] || !stack[0].AtName?) && More(ts, EndOfInput)
    ensures r.Complete? ==> IsJson(r.value) && ts == Tokens(r.value) + r.rest && Grammatical(AfterValue(stack), r.rest)
    ensures r.CutShort? ==> Unclosed(ts)
    decreases |ts|, 0
  {
    hide Tokens, MemberTokens, ItemTokens, IsJson, AreMembers, AreItems, Unclosed;
    if ts[0].OpenObject? {
      var inner := MembersOrCutShort(AfterValue(stack), ts[1..]);
      if inner.CutShort? {
        UnclosedAfterToken(ts);
        return CutShort;
      }
      ObjectInFront(ts, inner.value, inner.rest);
      r := Complete(Object(inner.value), inner.rest);
    } else if ts[0].OpenArray? {
      var inner := ItemsOrCutShort(AfterValue(stack), ts[1..]);
      if inner.CutShort? {
        UnclosedAfterToken(ts);
        return CutShort;
      }
      ArrayInFront(ts, inner.value, inner.rest);
      r := Complete(Array(inner.value), inner.rest);
    } else {
      ScalarInFront(ts);
      r := Complete(Scalar(ts[0]), ts[1..]);
    }
  }

  lemma {:induction false} MembersOrCutShort(below: seq<Place>, ts: seq<Token>) returns (r: Reading<Members>)
    requires Grammatical([AtName] + below, ts)
    ensures r.Complete? ==> AreMembers(r.value) && ts == MemberTokens(r.value) + r.rest && Grammatical(below, r.rest)
    ensures r.CutShort? ==> Unclosed(ts)
    decreases |ts|, 1
  {
    hide IsJson, Tokens, Unclosed;
    assert ([AtName] + below)[1..] == below;
    if ts == [] {
      NothingIsUnclosed();
      r := CutShort;
    } else if ts[0].CloseObject? {
      r := Complete(NoMembers, ts[1..]);
    } else if |ts| == 1 {
      NothingIsUnclosed();
      assert ts[1..] == [];
      UnclosedAfterToken(ts);
      r := CutShort;
    } else {
      r := MemberOrCutShort(below, ts);
    }
  }

  /** One more member, from its name on. */
  lemma {:induction false} MemberOrCutShort(below: seq<Place>, ts: seq<Token>) returns (r: Reading<Members>)
    requires |ts| > 1 && ts[0].Text? && Grammatical([AtMember] + below, ts[1..])
    ensures r.Complete? ==> AreMembers(r.value) && ts == MemberTokens(r.value) + r.rest && Grammatical(below, r.rest)
    ensures r.CutShort? ==> Unclosed(ts)
    decreases |ts|, 0
  {
    hide IsJson, Tokens, MemberTokens, Unclosed;
    var stack := [AtMember] + below;
    assert stack[1..] == below;
    var value := ValueOrCutShort(stack, ts[1..]);
    if value.CutShort? {
      UnclosedAfterToken(ts);
      return CutShort;
    }
    var others := MembersOrCutShort(below, value.rest);
    if others.CutShort? {
      UnclosedAfterValue(value.value, value.rest);
      UnclosedAfterToken(ts);
      return CutShort;
    }
    MemberInFront(ts, value.value, others.value, others.rest);
    r := Complete(Member(ts[0].text, value.value, others.value), others.rest);
  }

  lemma {:induction false} ItemsOrCutShort(below: seq<Place>, ts: seq<Token>) returns (r: Reading<Items>)
    requires Grammatical([InArray] + below, ts)
    ensures r.Complete? ==> AreItems(r.value) && ts == ItemTokens(r.value) + r.rest && Grammatical(below, r.rest)
    ensures r.CutShort? ==> Unclosed(ts)
    decreases |ts|, 1
  {
    hide IsJson, Tokens, Unclosed, ItemTokens, AreItems;
    var stack := [InArray] + below;
    assert stack[1..] == below;
    if ts == [] {
      NothingIsUnclosed();
      r := CutShort;
    } else if ts[0].CloseArray? {
      NoItemInFront(ts);
      r := Complete(NoItems, ts[1..]);
    } else {
      var value := ValueOrCutShort(stack, ts);
      if value.CutShort? {
        return CutShort;
      }
      var others := ItemsOrCutShort(below, value.rest);
      if others.CutShort? {
        UnclosedAfterValue(value.value, value.rest);
        return CutShort;
      }
      ItemInFront(ts, value.value, others.value, others.rest);
      r := Complete(Item(value.value, others.value), others.rest);
    }
  }

  /** Without limits the walk leans on the decoder's guarantee; with a limit it
      checks everything itself. */
  predicate Trusted(p: Policy, stack: seq<Place>, ts: seq<Token>) {
    p.Unbounded() ==> Grammatical(stack, ts)
  }

  lemma {:induction false} ReadValueFits(
      p: Policy, ending: Ending, stack: seq<Place>, ts: seq<Token>, depth: nat, key: string) returns (v: Json)
    requires ReadValue(p, ending, ts, depth, key).Ok?
    requires Trusted(p, stack, ts) && (stack == [] || !stack[0].AtName?)
    ensures var r := ReadValue(p, ending, ts, depth, key);
            && IsJson(v) && ts == Tokens(v) + r.rest && Fits(p, v, depth) && Trusted(p, AfterValue(stack), r.rest)
    decreases |ts|, 1
  {
    hide Drain, ReadMembers, ReadItems, MemberTokens, ItemTokens, MembersFit, ItemsFit, AreMembers, AreItems;
    var below := AfterValue(stack);
    assert ts == [ts[0]] + ts[1..];
    if !IsOpen(ts[0]) {
      v := Scalar(ts[0]);
    } else if depth > 0 && p.Unbounded() {
      v := DrainedValue(below, ts);
    } else if ts[0].OpenObject? {
      var ms := ReadMembersFit(p, ending, below, ts[1..], depth, {});
      v := Object(ms);
    } else {
      var vs := ReadItemsFit(p, ending, below, ts[1..], depth);
      v := Array(vs);
    }
  }

  lemma DrainedMembers(below: seq<Place>, ts: seq<Token>) returns (ms: Members)
    requires Drain(ts, 1).Ok? && Grammatical([AtName] + below, ts)
    ensures var r := Drain(ts, 1);
            AreMembers(ms) && ts == MemberTokens(ms) + r.rest && Grammatical(below, r.rest) && r.fields == {}
  {
    hide MemberTokens, AreMembers, Grammatical;
    var inner := MembersOrCutShort(below, ts);
    ms := inner.value;
    DrainSkipsMembers(ms, inner.rest, 1);
  }

  lemma DrainedItems(below: seq<Place>, ts: seq<Token>) returns (vs: Items)
    requires Drain(ts, 1).Ok? && Grammatical([InArray] + below, ts)
    ensures var r := Drain(ts, 1);
            AreItems(vs) && ts == ItemTokens(vs) + r.rest && Grammatical(below, r.rest) && r.fields == {}
  {
    hide ItemTokens, AreItems, Grammatical;
    var inner := ItemsOrCutShort(below, ts);
    vs := inner.value;
    DrainSkipsItems(vs, inner.rest, 1);
  }

  lemma DrainedValue(below: seq<Place>, ts: seq<Token>) returns (v: Json)
    requires ts != [] && IsOpen(ts[0]) && Drain(ts[1..], 1).Ok?
    requires Grammatical([if ts[0].OpenObject? then AtName else InArray] + below, ts[1..])
    ensures var r := Drain(ts[1..], 1);
            IsJson(v) && !v.Scalar? && (v.Object? <==> ts[0].OpenObject?) &&
            ts == Tokens(v) + r.rest && Grammatical(below, r.rest) && r.fields == {}
  {
    hide Tokens, MemberTokens, ItemTokens, IsJson, AreMembers, AreItems, Grammatical, Drain;
    if ts[0].OpenObject? {
      var ms := DrainedMembers(below, ts[1..]);
      ObjectInFront(ts, ms, Drain(ts[1..], 1).rest);
      v := Object(ms);
    } else {
      var vs := DrainedItems(below, ts[1..]);
      ArrayInFront(ts, vs, Drain(ts[1..], 1).rest);
      v := Array(vs);
    }
  }

  lemma {:induction false} ReadItemsFit(
      p: Policy, ending: Ending, below: seq<Place>, ts: seq<Token>, depth: nat) returns (vs: Items)
    requires ReadItems(p, ending, ts, depth).Ok? && Trusted(p, [InArray] + below, ts)
    requires depth == 0 || !p.Unbounded()
    ensures var r := ReadItems(p, ending, ts, depth);
            && AreItems(vs) && ts == ItemTokens(vs) + r.rest && ItemsFit(p, vs, depth) && Trusted(p, below, r.rest)
    decreases |ts|, 2
  {
    hide ReadValue, ReadMembers, Drain, Fits, Tokens, IsJson;
    var stack := [InArray] + below;
    assert stack[1..] == below;
    if More(ts, ending) {
      var first := ReadValue(p, ending, ts, depth + 1, "");
      var v := ReadValueFits(p, ending, stack, ts, depth + 1, "");
      var others := ReadItemsFit(p, ending, below, first.rest, depth);
      vs := Item(v, others);
    } else {
      vs := NoItems;
    }
  }

  lemma {:induction false} ReadMembersFit(
      p: Policy, ending: Ending, below: seq<Place>, ts: seq<Token>, depth: nat, seen: set<string>)
    returns (ms: Members)
    requires ReadMembers(p, ending, ts, depth, seen).Ok? && Trusted(p, [AtName] + below, ts)
    requires depth == 0 || !p.Unbounded()
    ensures var r := ReadMembers(p, ending, ts, depth, seen);
            && AreMembers(ms) && ts == MemberTokens(ms) + r.rest && MembersFit(p, ms, depth)
            && seen !! Names(ms) && Trusted(p, below, r.rest)
    decreases |ts|, 2
  {
    hide ReadValue, ReadItems, Drain, Fits, Tokens, IsJson;
    assert ([AtName] + below)[1..] == below;
    if More(ts, ending) {
      var key, stack := ts[0].text, [AtMember] + below;
      assert stack[1..] == below;
      var first := ReadValue(p, ending, ts[1..], depth + 1, key);
      var v := ReadValueFits(p, ending, stack, ts[1..], depth + 1, key);
      var others := ReadMembersFit(p, ending, below, first.rest, depth, seen + {key});
      ms := Member(key, v, others);
      assert ts == [ts[0]] + ts[1..];
    } else {
      ms := NoMembers;
    }
  }

  /** The walk passes exactly the fitting documents, and reports the names of
      the root's members. */
  lemma PassesIffItFits(p: Policy, ending: Ending, ts: seq<Token>)
    requires Trusted(p, [], ts)
    ensures Walk(p, ending, ts).Ok? <==>
            ending.EndOfInput? && exists v :: IsJson(v) && ts == Tokens(v) && Fits(p, v, 0)
    ensures forall v | Walk(p, ending, ts).Ok? && IsJson(v) && ts == Tokens(v) && Fits(p, v, 0) ::
              Walk(p, ending, ts).fields == FieldsOf(v)
  {
    if Walk(p, ending, ts).Ok? {
      var v := ReadValueFits(p, ending, [], ts, 0, "");
      assert Tokens(v) + [] == Tokens(v);
    }
    forall v | IsJson(v) && ts == Tokens(v) && Fits(p, v, 0)
      ensures var r := ReadValue(p, ending, ts, 0, "");
              r.Ok? && r.rest == [] && r.fields == FieldsOf(v)
    {
      assert Tokens(v) + [] == Tokens(v);
      FittingValueIsRead(p, ending, v, [], 0, "");
    }
  }

  // --- The policies in use ---------------------------------------------------------

  const MAX_ASSIGNMENT_JSON_DEPTH := 64
  const MAX_SEALED_ENVELOPE_JSON_DEPTH := 32

  const ASSIGNMENT_POLICY := Policy(true, MAX_ASSIGNMENT_JSON_DEPTH - 1, -1, false, None)
  const SEALED_POLICY := Policy(false, -1, MAX_SEALED_ENVELOPE_JSON_DEPTH, false, None)

  function StrictPolicy(allowed: set<string>): Policy {
    Policy(true, -1, -1, true, Some(allowed))
  }

  function Max(x: nat, y: nat): nat {
    if x < y then y else x
  }

  /** Container levels, the document itself included. */
  function Levels(v: Json): nat {
    match v
    case Scalar(_) => 0
    case Object(ms) => 1 + MemberLevels(ms)
    case Array(vs) => 1 + ItemLevels(vs)
  }

  function MemberLevels(ms: Members): nat {
    match ms
    case NoMembers => 0
    case Member(_, v, others) => Max(Levels(v), MemberLevels(others))
  }

  function ItemLevels(vs: Items): nat {
    match vs
    case NoItems => 0
    case Item(v, others) => Max(Levels(v), ItemLevels(others))
  }

  predicate Distinct(ms: Members) {
    match ms
    case NoMembers => true
    case Member(name, _, others) => name !in Names(others) && Distinct(others)
  }

  /** No object at any depth repeats a name. */
  predicate UniqueNames(v: Json) {
    match v
    case Scalar(_) => true
    case Object(ms) => Distinct(ms) && MembersUnique(ms)
    case Array(vs) => ItemsUnique(vs)
  }

  predicate MembersUnique(ms: Members) {
    match ms
    case NoMembers => true
    case Member(_, v, others) => UniqueNames(v) && MembersUnique(others)
  }

  predicate ItemsUnique(vs: Items) {
    match vs
    case NoItems => true
    case Item(v, others) => UniqueNames(v) && ItemsUnique(others)
  }

  predicate BelowRoot(p: Policy) {
    p.maxContainerDepth >= 0 && p.maxValueDepth < 0 && !p.rejectRootNull && p.allowedRootFields.None?
  }

  lemma {:induction false} FitsIffUniqueAndShallow(p: Policy, v: Json, depth: nat)
    requires BelowRoot(p) && (depth == 0 && p.requireObject ==> v.Object?)
    ensures Fits(p, v, depth) <==> UniqueNames(v) && (Levels(v) == 0 || depth + Levels(v) <= p.maxContainerDepth + 1)
    decreases v
  {
    match v
    case Scalar(_) =>
    case Object(ms) => MembersFitIffUniqueAndShallow(p, ms, depth);
    case Array(vs) => ItemsFitIffUniqueAndShallow(p, vs, depth);
  }

  lemma {:induction false} MembersFitIffUniqueAndShallow(p: Policy, ms: Members, depth: nat)
    requires BelowRoot(p)
    ensures MembersFit(p, ms, depth) <==>
            && Distinct(ms) && MembersUnique(ms)
            && (MemberLevels(ms) == 0 || depth + 1 + MemberLevels(ms) <= p.maxContainerDepth + 1)
    decreases ms
  {
    match ms
    case NoMembers =>
    case Member(_, v, others) =>
      FitsIffUniqueAndShallow(p, v, depth + 1);
      MembersFitIffUniqueAndShallow(p, others, depth);
  }

  lemma {:induction false} ItemsFitIffUniqueAndShallow(p: Policy, vs: Items, depth: nat)
    requires BelowRoot(p)
    ensures ItemsFit(p, vs, depth) <==>
            ItemsUnique(vs) && (ItemLevels(vs) == 0 || depth + 1 + ItemLevels(vs) <= p.maxContainerDepth + 1)
    decreases vs
  {
    match vs
    case NoItems =>
    case Item(v, others) =>
      FitsIffUniqueAndShallow(p, v, depth + 1);
      ItemsFitIffUniqueAndShallow(p, others, depth);
  }

  /** Assignment documents: one object and nothing after it, no name twice in
      any object, at most 64 levels; whatever the decoder hands out. */
  lemma AssignmentDocuments(ending: Ending, ts: seq<Token>)
    ensures Walk(ASSIGNMENT_POLICY, ending, ts).Ok? <==>
            && ending.EndOfInput?
            && exists v :: IsJson(v) && ts == Tokens(v) && v.Object? && UniqueNames(v) && Levels(v) <= 64
  {
    PassesIffItFits(ASSIGNMENT_POLICY, ending, ts);
    forall v: Json | v.Object?
      ensures Fits(ASSIGNMENT_POLICY, v, 0) <==> UniqueNames(v) && Levels(v) <= 64
    {
      FitsIffUniqueAndShallow(ASSIGNMENT_POLICY, v, 0);
    }
  }

  predicate NoNulls(ms: Members) {
    match ms
    case NoMembers => true
    case Member(_, v, others) => v != Scalar(Null) && NoNulls(others)
  }

  lemma {:induction false} StrictMembers(allowed: set<string>, ms: Members)
    ensures MembersFit(StrictPolicy(allowed), ms, 0) <==> Distinct(ms) && Names(ms) <= allowed && NoNulls(ms)
    decreases ms
  {
    match ms
    case NoMembers =>
    case Member(_, v, others) => StrictMembers(allowed, others);
  }

  /** Strict flat documents: one object of allowed, distinct, non-null members;
      nested values are skipped whole. */
  lemma StrictDocuments(allowed: set<string>, ending: Ending, ts: seq<Token>)
    requires Grammatical([], ts)
    ensures Walk(StrictPolicy(allowed), ending, ts).Ok? <==>
            && ending.EndOfInput?
            && exists ms :: AreMembers(ms) && ts == Tokens(Object(ms)) &&
                            Distinct(ms) && Names(ms) <= allowed && NoNulls(ms)
  {
    var p := StrictPolicy(allowed);
    PassesIffItFits(p, ending, ts);
    forall ms
      ensures Fits(p, Object(ms), 0) <==> Distinct(ms) && Names(ms) <= allowed && NoNulls(ms)
    {
      StrictMembers(allowed, ms);
    }
    if Walk(p, ending, ts).Ok? {
      var v :| IsJson(v) && ts == Tokens(v) && Fits(p, v, 0);
      assert v == Object(v.members);
    }
    if ms :| AreMembers(ms) && ts == Tokens(Object(ms)) && Distinct(ms) && Names(ms) <= allowed && NoNulls(ms) {
      assert Fits(p, Object(ms), 0) && IsJson(Object(ms));
    }
  }
}
