/** Which problem the structure walk reports: the strict parser tells its caller
    an unknown member, a repeated one and a null apart. */
module StrictProblems {
  import opened JsonStructure

  /** The tokens of some members, without the brace that would close them. */
  function Leading(ms: Members): seq<Token> {
    match ms
    case NoMembers => []
    case Member(name, v, others) => [Text(name)] + Tokens(v) + Leading(others)
  }

  /** Members the strict parser has nothing to say about. */
  predicate Sound(allowed: set<string>, ms: Members) {
    AreMembers(ms) && Distinct(ms) && Names(ms) <= allowed && NoNulls(ms)
  }

  /** What is wrong with the member that comes after these. */
  predicate Offends(allowed: set<string>, earlier: set<string>, key: string, after: seq<Token>, problem: Problem) {
    match problem
    case Unknown(k) => k == key && key !in allowed
    case Duplicate(k) => k == key && key in allowed && key in earlier
    case NullField(k) => k == key && key in allowed && key !in earlier && after != [] && after[0].Null?
    case _ => false
  }

  lemma {:induction false} LeadingIsRead(
      p: Policy, ending: Ending, ms: Members, rest: seq<Token>, depth: nat, seen: set<string>)
    requires AreMembers(ms) && MembersFit(p, ms, depth) && seen !! Names(ms)
    ensures ReadMembers(p, ending, Leading(ms) + rest, depth, seen) ==
            ReadMembers(p, ending, rest, depth, seen + Names(ms))
    decreases ms
  {
    var ts := Leading(ms) + rest;
    match ms
    case NoMembers =>
      assert ts == rest && seen + {} == seen;
    case Member(name, v, others) =>
      assert ts[1..] == Tokens(v) + (Leading(others) + rest);
      FittingValueIsRead(p, ending, v, Leading(others) + rest, depth + 1, name);
      LeadingIsRead(p, ending, others, rest, depth, seen + {name});
      assert seen + {name} + Names(others) == seen + Names(ms);
  }

  /** The first offending member decides, whatever comes after it. */
  lemma OffenceIsReported(
      allowed: set<string>, ending: Ending, ms: Members, key: string, after: seq<Token>, problem: Problem)
    requires Sound(allowed, ms) && Offends(allowed, Names(ms), key, after, problem)
    ensures Walk(StrictPolicy(allowed), ending, [OpenObject] + Leading(ms) + [Text(key)] + after) == Bad(problem)
  {
    var p := StrictPolicy(allowed);
    var ts, rest := [OpenObject] + Leading(ms) + [Text(key)] + after, [Text(key)] + after;
    StrictMembers(allowed, ms);
    LeadingIsRead(p, ending, ms, rest, 0, {});
    assert {} + Names(ms) == Names(ms);
    assert ts[1..] == Leading(ms) + rest && rest[1..] == after;
    hide Leading, Names;
  }

  predicate OfMember(problem: Problem) {
    problem.Unknown? || problem.Duplicate? || problem.NullField?
  }

  lemma ValueProblems(allowed: set<string>, ending: Ending, ts: seq<Token>, key: string)
    requires ReadValue(StrictPolicy(allowed), ending, ts, 1, key).Bad?
    ensures var problem := ReadValue(StrictPolicy(allowed), ending, ts, 1, key).problem;
            OfMember(problem) ==> problem == NullField(key) && ts != [] && ts[0].Null?
  {
    if ts != [] && IsOpen(ts[0]) {
      DrainProblems(ts[1..], 1);
    }
  }

  lemma {:induction false} DrainProblems(ts: seq<Token>, open: nat)
    ensures Drain(ts, open).Bad? ==> Drain(ts, open).problem == Syntax
    decreases |ts|
  {
    if open > 0 && ts != [] {
      DrainProblems(ts[1..], if IsOpen(ts[0]) then open + 1 else if IsClose(ts[0]) then open - 1 else open);
    }
  }

  lemma {:induction false} ReportedInMembers(
      allowed: set<string>, ending: Ending, below: seq<Place>, ts: seq<Token>, seen: set<string>)
    returns (ms: Members, after: seq<Token>)
    requires Grammatical([AtName] + below, ts)
    requires var r := ReadMembers(StrictPolicy(allowed), ending, ts, 0, seen); r.Bad? && OfMember(r.problem)
    ensures var problem := ReadMembers(StrictPolicy(allowed), ending, ts, 0, seen).problem;
            && AreMembers(ms) && MembersFit(StrictPolicy(allowed), ms, 0) && seen !! Names(ms)
            && ts == Leading(ms) + [Text(problem.key)] + after
            && Offends(allowed, seen + Names(ms), problem.key, after, problem)
    decreases |ts|
  {
    hide ReadValue, Drain, IsJson, Tokens, Fits, MemberTokens;
    var p := StrictPolicy(allowed);
    assert ([AtName] + below)[1..] == below;
    var key := ts[0].text;
    assert ts == [ts[0]] + ts[1..];
    if key !in allowed || key in seen {
      ms, after := NoMembers, ts[1..];
      assert seen + {} == seen;
      return;
    }
    var first, stack := ReadValue(p, ending, ts[1..], 1, key), [AtMember] + below;
    assert stack[1..] == below;
    if first.Bad? {
      ValueProblems(allowed, ending, ts[1..], key);
      ms, after := NoMembers, ts[1..];
      assert seen + {} == seen;
    } else {
      var v := ReadValueFits(p, ending, stack, ts[1..], 1, key);
      var others;
      others, after := ReportedInMembers(allowed, ending, below, first.rest, seen + {key});
      ms := Member(key, v, others);
      assert seen + {key} + Names(others) == seen + Names(ms);
    }
  }

  /** And only a member like that is reported: sound ones before it, and it
      stands right behind them. */
  lemma ReportedOffence(allowed: set<string>, ending: Ending, ts: seq<Token>) returns (ms: Members, after: seq<Token>)
    requires Grammatical([], ts)
    requires var r := Walk(StrictPolicy(allowed), ending, ts); r.Bad? && OfMember(r.problem)
    ensures var problem := Walk(StrictPolicy(allowed), ending, ts).problem;
            && Sound(allowed, ms) && Offends(allowed, Names(ms), problem.key, after, problem)
            && ts == [OpenObject] + Leading(ms) + [Text(problem.key)] + after
  {
    hide ReadMembers, Leading;
    ms, after := ReportedInMembers(allowed, ending, [], ts[1..], {});
    StrictMembers(allowed, ms);
    assert {} + Names(ms) == Names(ms);
    assert ts == [ts[0]] + ts[1..];
  }

  // --- What follows the document, and what is none ----------------------------------

  lemma {:induction false} ValueEndsItself(p: Policy, ending: Ending, ts: seq<Token>, depth: nat, key: string)
    ensures var r := ReadValue(p, ending, ts, depth, key);
            r.Bad? ==> !r.problem.Trailing? && (r.problem.NotObject? ==> depth == 0 && ts != [] && !ts[0].OpenObject?)
    decreases |ts|, 1
  {
    hide Drain;
    if ts != [] && ts[0].OpenObject? {
      MembersEndThemselves(p, ending, ts[1..], depth, {});
      DrainProblems(ts[1..], 1);
    } else if ts != [] && ts[0].OpenArray? {
      ItemsEndThemselves(p, ending, ts[1..], depth);
      DrainProblems(ts[1..], 1);
    }
  }

  lemma {:induction false} ItemsEndThemselves(p: Policy, ending: Ending, ts: seq<Token>, depth: nat)
    ensures var r := ReadItems(p, ending, ts, depth);
            r.Bad? ==> !r.problem.Trailing? && !r.problem.NotObject?
    decreases |ts|, 2
  {
    hide ReadValue;
    if More(ts, ending) {
      ValueEndsItself(p, ending, ts, depth + 1, "");
      var first := ReadValue(p, ending, ts, depth + 1, "");
      if first.Ok? {
        ItemsEndThemselves(p, ending, first.rest, depth);
      }
    }
  }

  lemma {:induction false} MembersEndThemselves(
      p: Policy, ending: Ending, ts: seq<Token>, depth: nat, seen: set<string>)
    ensures var r := ReadMembers(p, ending, ts, depth, seen);
            r.Bad? ==> !r.problem.Trailing? && !r.problem.NotObject?
    decreases |ts|, 2
  {
    hide ReadValue;
    if More(ts, ending) && ts != [] && ts[0].Text? {
      var key := ts[0].text;
      ValueEndsItself(p, ending, ts[1..], depth + 1, key);
      var first := ReadValue(p, ending, ts[1..], depth + 1, key);
      if first.Ok? {
        MembersEndThemselves(p, ending, first.rest, depth, seen + {key});
      }
    }
  }

  /** Something behind a document that fits, or bytes that are no token. */
  lemma TrailingIsReported(p: Policy, ending: Ending, v: Json, rest: seq<Token>)
    requires IsJson(v) && Fits(p, v, 0) && (rest != [] || ending.Broken?)
    ensures Walk(p, ending, Tokens(v) + rest) == Bad(Trailing(More(rest, ending)))
  {
    FittingValueIsRead(p, ending, v, rest, 0, "");
  }

  lemma ReportedTrailing(p: Policy, ending: Ending, ts: seq<Token>) returns (v: Json, rest: seq<Token>)
    requires Trusted(p, [], ts)
    requires var r := Walk(p, ending, ts); r.Bad? && r.problem.Trailing?
    ensures IsJson(v) && Fits(p, v, 0) && ts == Tokens(v) + rest && (rest != [] || ending.Broken?)
    ensures Walk(p, ending, ts).problem == Trailing(More(rest, ending))
  {
    hide ReadValue, Tokens, Fits, IsJson;
    ValueEndsItself(p, ending, ts, 0, "");
    v := ReadValueFits(p, ending, [], ts, 0, "");
    rest := ReadValue(p, ending, ts, 0, "").rest;
  }

  /** A document that does not start as an object is none, and nothing else is
      called that. */
  lemma NotObjectIffItDoesNotOpenOne(allowed: set<string>, ending: Ending, ts: seq<Token>)
    ensures Walk(StrictPolicy(allowed), ending, ts) == Bad(NotObject) <==> ts != [] && !ts[0].OpenObject?
  {
    ValueEndsItself(StrictPolicy(allowed), ending, ts, 0, "");
  }
}
