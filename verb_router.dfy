/**
 * `HandleVerbStateMachine<T>.Find`: try the registered options types in
 * registration order; the first that matches the verb is the pick and ends
 * the scan; otherwise the last verb-less type seen is the fallback pick;
 * otherwise there is no pick.  At most one result is ever produced.
 */
module VerbRouter {
  import opened Wrappers
  import opened DotNet
  import opened MatchResults
  import opened Helpers
  import opened Reflection
  import opened ParserFactory
  import opened Attributes

  /**
   * A registered `CommandLineTypeMatcher<Task<int>>` as `AddHandler` builds
   * it: the options type; the outcome of the parser lookup each match runs
   * (the verb of the parser given to `AddHandler` or found by `FindParser`,
   * or the exception the lookup throws); the user's handler (which the
   * matcher wraps in a delegate that is never null); and the outcome of
   * `commandLine.As(parser)` that the delegate runs before the handler.
   */
  datatype Matcher = Matcher(verbType: TypeId, parser: Result<Option<string>>, handler: Option<Handler>, binding: Outcome)

  /** A type registered without a parser and without a generated one: the lookup falls back on `Create()`. */
  function RuntimeMatcher(verbType: TypeId, t: OptionsType, handler: Option<Handler>, binding: Outcome): Matcher
  {
    Matcher(verbType, CreatedVerb(t), handler, binding)
  }

  type Pick = MatchResult<Delegate>

  /** `match.Match(verb)`: a failed parser lookup throws; otherwise the result for the parser's verb. */
  function Match(m: Matcher, verb: Option<string>): (r: Result<Pick>)
    ensures r.Failure? <==> m.parser.Failure?
    ensures r.Failure? ==> r.error == m.parser.error
    ensures r.Success? ==> r.value.Valid() && r.value.verbType == Some(m.verbType)
    ensures r.Success? ==> (r.value.machingResult == Matched <==> VerbEquals(verb, m.parser.value))
    ensures r.Success? ==> (r.value.machingResult == FallbackMatched <==> !VerbEquals(verb, m.parser.value) && m.parser.value.None?)
    ensures r.Success? && r.value.machingResult != NotMatch ==> r.value.handler == Some(Delegate(m.binding, m.handler))
  {
    MatchWithHandler(m.verbType, verb, Some(Delegate(m.binding, m.handler)), m.parser)
  }

  predicate Matches(m: Matcher, verb: Option<string>)
  {
    Match(m, verb).Success? && Match(m, verb).value.machingResult == Matched
  }

  predicate FallsBack(m: Matcher, verb: Option<string>)
  {
    Match(m, verb).Success? && Match(m, verb).value.machingResult == FallbackMatched
  }

  /** The position of the first type that matches the verb. */
  function FirstMatched(ms: seq<Matcher>, verb: Option<string>): (r: Option<nat>)
    ensures r.Some? ==> r.value < |ms| && Matches(ms[r.value], verb)
    ensures r.Some? ==> forall k :: 0 <= k < r.value ==> !Matches(ms[k], verb)
    ensures r.None? ==> forall k :: 0 <= k < |ms| ==> !Matches(ms[k], verb)
  {
    if ms == [] then None
    else
      var n := |ms| - 1;
      var before := FirstMatched(ms[..n], verb);
      if before.Some? then before
      else if Matches(ms[n], verb) then Some(n)
      else None
  }

  /** The position of the last type that is a fallback for the verb. */
  function LastFallback(ms: seq<Matcher>, verb: Option<string>): (r: Option<nat>)
    ensures r.Some? ==> r.value < |ms| && FallsBack(ms[r.value], verb)
    ensures r.Some? ==> forall k :: r.value < k < |ms| ==> !FallsBack(ms[k], verb)
    ensures r.None? ==> forall k :: 0 <= k < |ms| ==> !FallsBack(ms[k], verb)
  {
    if ms == [] then None
    else
      var n := |ms| - 1;
      if FallsBack(ms[n], verb) then Some(n)
      else LastFallback(ms[..n], verb)
  }

  /** The position of the first type whose parser lookup throws. */
  function FirstLookupFailure(ms: seq<Matcher>): (r: Option<nat>)
    ensures r.Some? ==> r.value < |ms| && ms[r.value].parser.Failure?
    ensures r.Some? ==> forall k :: 0 <= k < r.value ==> ms[k].parser.Success?
    ensures r.None? ==> forall k :: 0 <= k < |ms| ==> ms[k].parser.Success?
  {
    if ms == [] then None
    else
      var n := |ms| - 1;
      var before := FirstLookupFailure(ms[..n]);
      if before.Some? then before
      else if ms[n].parser.Failure? then Some(n)
      else None
  }

  /** How many types the scan tries: up to and including the first match, or all of them. */
  function Tried(ms: seq<Matcher>, verb: Option<string>): (r: nat)
    ensures r <= |ms|
  {
    match FirstMatched(ms, verb)
    case Some(j) => j + 1
    case None => |ms|
  }

  /**
   * The pick: the exception of the first lookup that throws among the
   * types tried; otherwise the first match, else the last fallback, else
   * none.
   */
  function Routed(ms: seq<Matcher>, verb: Option<string>): (r: Result<Option<Pick>>)
    ensures r.Failure? ==>
      exists k :: 0 <= k < Tried(ms, verb) && ms[k].parser == Failure(r.error) && forall i :: 0 <= i < k ==> ms[i].parser.Success?
    ensures r.Success? ==> forall k :: 0 <= k < Tried(ms, verb) ==> ms[k].parser.Success?
    ensures r.Success? && r.value.Some? ==> r.value.value.Valid() && r.value.value.machingResult != NotMatch
    ensures r.Success? && r.value.Some? ==> exists k :: 0 <= k < |ms| && Match(ms[k], verb) == Success(r.value.value)
    ensures r == Success(None) ==>
      forall k :: 0 <= k < |ms| ==> Match(ms[k], verb).Success? && Match(ms[k], verb).value.machingResult == NotMatch
  {
    var f := FirstLookupFailure(ms);
    var j := FirstMatched(ms, verb);
    if f.Some? && (j.None? || f.value < j.value) then Failure(ms[f.value].parser.error)
    else if j.Some? then Success(Some(Match(ms[j.value], verb).value))
    else
      match LastFallback(ms, verb)
      case Some(k) => Success(Some(Match(ms[k], verb).value))
      case None => Success(None)
  }

  /** The router picks a type: no lookup threw and some type matched or fell back. */
  predicate Picked(ms: seq<Matcher>, verb: Option<string>)
  {
    Routed(ms, verb).Success? && Routed(ms, verb).value.Some?
  }

  lemma FirstMatchedSnoc(ms: seq<Matcher>, i: nat, verb: Option<string>)
    requires i < |ms|
    ensures FirstMatched(ms[..i + 1], verb) ==
      if FirstMatched(ms[..i], verb).Some? then FirstMatched(ms[..i], verb)
      else if Matches(ms[i], verb) then Some(i) else None
  {
    assert ms[..i + 1][..i] == ms[..i];
  }

  lemma LastFallbackSnoc(ms: seq<Matcher>, i: nat, verb: Option<string>)
    requires i < |ms|
    ensures LastFallback(ms[..i + 1], verb) ==
      if FallsBack(ms[i], verb) then Some(i) else LastFallback(ms[..i], verb)
  {
    assert ms[..i + 1][..i] == ms[..i];
  }

  lemma FirstLookupFailureSnoc(ms: seq<Matcher>, i: nat)
    requires i < |ms|
    ensures FirstLookupFailure(ms[..i + 1]) ==
      if FirstLookupFailure(ms[..i]).Some? then FirstLookupFailure(ms[..i])
      else if ms[i].parser.Failure? then Some(i) else None
  {
    assert ms[..i + 1][..i] == ms[..i];
  }

  /** The remembered fallback after scanning `ms`: the last fallback result, or the default result. */
  function Remembered(ms: seq<Matcher>, verb: Option<string>): Pick
  {
    match LastFallback(ms, verb)
    case Some(k) => Match(ms[k], verb).value
    case None => Default()
  }

  /**
   * `Find(verb)`: the single result the enumeration yields, if any, or the
   * exception a lookup throws while it runs, and how many registered types
   * were tried before it stopped.
   */
  method Find(ms: seq<Matcher>, verb: Option<string>) returns (r: Result<Option<Pick>>, tried: nat)
    ensures r == Routed(ms, verb)
    ensures r.Success? ==> tried == Tried(ms, verb)
    ensures r.Failure? ==> FirstLookupFailure(ms) == Some(tried - 1)
  {
    var fallback: Pick := Default();
    var i := 0;
    while i < |ms|
      invariant 0 <= i <= |ms|
      invariant FirstMatched(ms[..i], verb).None?
      invariant FirstLookupFailure(ms[..i]).None?
      invariant fallback == Remembered(ms[..i], verb)
    {
      FirstMatchedSnoc(ms, i, verb);
      LastFallbackSnoc(ms, i, verb);
      FirstLookupFailureSnoc(ms, i);
      var result := Match(ms[i], verb);
      if result.Failure? {
        FirstLookupFailureAfterPrefix(ms, i + 1);
        FirstMatchedBeyondPrefix(ms, i + 1, verb);
        return Failure(result.error), i + 1;
      }
      if result.value.machingResult == Matched {
        FirstMatchedAfterPrefix(ms, i + 1, verb);
        FirstLookupFailureBeyondPrefix(ms, i + 1);
        return Success(Some(result.value)), i + 1;
      }
      if result.value.machingResult == FallbackMatched {
        fallback := result.value;
      }
      i := i + 1;
    }
    assert ms[..|ms|] == ms;
    tried := |ms|;
    if fallback.machingResult == FallbackMatched {
      r := Success(Some(fallback));
    } else {
      r := Success(None);
    }
  }

  /** A match found in a prefix is the first match of the whole list. */
  lemma FirstMatchedAfterPrefix(ms: seq<Matcher>, i: nat, verb: Option<string>)
    requires i <= |ms| && FirstMatched(ms[..i], verb).Some?
    ensures FirstMatched(ms, verb) == FirstMatched(ms[..i], verb)
  {
    var j := FirstMatched(ms[..i], verb).value;
    assert forall k :: 0 <= k <= j ==> ms[..i][k] == ms[k];
  }

  /** A prefix without a match leaves the first match, if any, beyond it. */
  lemma FirstMatchedBeyondPrefix(ms: seq<Matcher>, i: nat, verb: Option<string>)
    requires i <= |ms| && FirstMatched(ms[..i], verb).None?
    ensures FirstMatched(ms, verb).Some? ==> FirstMatched(ms, verb).value >= i
  {
    assert forall k :: 0 <= k < i ==> ms[..i][k] == ms[k];
  }

  /** A lookup failure found in a prefix is the first of the whole list. */
  lemma FirstLookupFailureAfterPrefix(ms: seq<Matcher>, i: nat)
    requires i <= |ms| && FirstLookupFailure(ms[..i]).Some?
    ensures FirstLookupFailure(ms) == FirstLookupFailure(ms[..i])
  {
    var j := FirstLookupFailure(ms[..i]).value;
    assert forall k :: 0 <= k <= j ==> ms[..i][k] == ms[k];
  }

  /** A prefix without a lookup failure leaves the first one, if any, beyond it. */
  lemma FirstLookupFailureBeyondPrefix(ms: seq<Matcher>, i: nat)
    requires i <= |ms| && FirstLookupFailure(ms[..i]).None?
    ensures FirstLookupFailure(ms).Some? ==> FirstLookupFailure(ms).value >= i
  {
    assert forall k :: 0 <= k < i ==> ms[..i][k] == ms[k];
  }

  // ---------------------------------------------------------------- the documented examples

  function A(): Matcher { Matcher(0, Success(Some("a")), Some(ActionHandler(0)), Pass) }
  function B(): Matcher { Matcher(1, Success(Some("b")), Some(ActionHandler(1)), Pass) }
  function C(): Matcher { Matcher(2, Success(Some("c")), Some(ActionHandler(2)), Pass) }
  function Verbless(): Matcher { Matcher(1, Success(None), Some(ActionHandler(1)), Pass) }

  /** `[Verb("version")] class VersionOptions { }`, registered with `AddHandler` and no parser. */
  function VersionOptions(): OptionsType { OptionsType("VersionOptions", Some(VerbAttribute("version")), [], []) }
  function Version(): Matcher { RuntimeMatcher(3, VersionOptions(), Some(ActionHandler(3)), Pass) }

  lemma LettersDiffer()
    ensures FoldCase("a") == "A" && FoldCase("b") == "B" && FoldCase("c") == "C"
    ensures FoldCase("d") == "D" && FoldCase("x") == "X"
  {
  }

  /** A[a], B[b], C[c] with `b`: B is picked. */
  lemma VerbPicksItsType()
    ensures Routed([A(), B(), C()], Some("b")) == Success(Some(Match(B(), Some("b")).value))
  {
    LettersDiffer();
    var ms := [A(), B(), C()];
    assert Match(ms[0], Some("b")).value.machingResult == NotMatch;
    assert Match(ms[1], Some("b")).value.machingResult == Matched;
    assert FirstMatched(ms, Some("b")) == Some(1) by {
      assert ms[..2][..1] == [A()] && ms[..3] == ms && ms[..2] == [A(), B()];
      assert [A()][..0] == [];
    }
  }

  /** A[a], B[b], C[c] with `d`: nothing is picked. */
  lemma UnknownVerbPicksNothing()
    ensures Routed([A(), B(), C()], Some("d")) == Success(None)
  {
    LettersDiffer();
    var ms := [A(), B(), C()];
    assert Match(ms[0], Some("d")).value.machingResult == NotMatch;
    assert Match(ms[1], Some("d")).value.machingResult == NotMatch;
    assert Match(ms[2], Some("d")).value.machingResult == NotMatch;
  }

  /** A[a], B (no verb), C[c] with `x`: B is the fallback pick. */
  lemma VerblessTypeIsFallback()
    ensures Routed([A(), Verbless(), C()], Some("x")) == Success(Some(Match(Verbless(), Some("x")).value))
  {
    LettersDiffer();
    var ms := [A(), Verbless(), C()];
    assert Match(ms[0], Some("x")).value.machingResult == NotMatch;
    assert Match(ms[1], Some("x")).value.machingResult == FallbackMatched;
    assert Match(ms[2], Some("x")).value.machingResult == NotMatch;
    assert LastFallback(ms, Some("x")) == Some(1) by {
      assert ms[..2] == [A(), Verbless()];
    }
  }

  /**
   * A type without option or value properties fails its parser lookup, so
   * routing throws for every verb once the scan reaches it, its own verb
   * included; a match before it ends the scan first.
   */
  lemma PropertylessTypeFailsRouting(verb: Option<string>)
    ensures Routed([Version()], verb) == Failure(NotSupported(NoOptionProperties))
    ensures Routed([B(), Version()], verb) == Failure(NotSupported(NoOptionProperties)) <==> !VerbEquals(verb, Some("b"))
  {
    assert AttributedProperties(VersionOptions().properties) == [];
    var ms := [B(), Version()];
    assert ms[..1] == [B()];
    if VerbEquals(verb, Some("b")) {
      assert FirstMatched(ms, verb) == Some(0);
    } else {
      assert FirstLookupFailure(ms) == Some(1);
    }
  }
}
