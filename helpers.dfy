/**
 * `CommandLineHelpers`: finding the candidate verb, matching one options
 * type's parser verb against it, invoking the user's handler, and the
 * error thrown when no handler takes the verb.
 */
module Helpers {
  import opened Wrappers
  import opened DotNet
  import opened Groups
  import opened Tokenizer
  import opened MatchResults

  /**
   * `FindPossibleVerb`: the first value of the first entry when that entry
   * has a blank key; null otherwise, and null for an empty command line.
   */
  function FindPossibleVerb(groups: seq<Group>): (r: Option<string>)
    ensures r.Some? <==> groups != [] && IsNullOrWhiteSpace(Some(groups[0].key)) && groups[0].value.Some? && groups[0].value.value != []
    ensures r.Some? ==> r.value == groups[0].value.value[0]
  {
    if groups == [] then None
    else
      var first := groups[0];
      if IsNullOrWhiteSpace(Some(first.key)) && first.value.Some? && first.value.value != [] then Some(first.value.value[0])
      else None
  }

  /** `string.Equals(a, b, StringComparison.InvariantCultureIgnoreCase)`: two nulls are equal, a null equals no string. */
  predicate VerbEquals(a: Option<string>, b: Option<string>)
  {
    if a.None? || b.None? then a.None? && b.None? else EqualsIgnoreCase(a.value, b.value)
  }

  /**
   * `MatchWithHandler`: a null handler throws; then `parser ??= FindParser<TVerb>()`,
   * given here as its outcome (the parser's verb, or the exception the
   * lookup throws, which ends the match); a candidate equal to the
   * parser's verb (both null included) matches; otherwise a parser without
   * a verb is the fallback; otherwise the type does not match.
   */
  function MatchWithHandler<H>(verbType: TypeId, possibleVerb: Option<string>, handler: Option<H>, parser: Result<Option<string>>): (r: Result<MatchResult<H>>)
    ensures handler.None? ==> r == Failure(ArgumentNull)
    ensures handler.Some? && parser.Failure? ==> r == Failure(parser.error)
    ensures handler.Some? && parser.Success? ==> r.Success? && r.value.Valid() && r.value.verbType == Some(verbType) && r.value.verb == possibleVerb
    ensures r.Success? ==> parser.Success? && (r.value.machingResult == Matched <==> VerbEquals(possibleVerb, parser.value))
    ensures r.Success? ==> (r.value.machingResult == FallbackMatched <==> !VerbEquals(possibleVerb, parser.value) && parser.value.None?)
    ensures r.Success? ==> (r.value.machingResult == NotMatch <==> !VerbEquals(possibleVerb, parser.value) && parser.value.Some?)
    ensures r.Success? && r.value.machingResult != NotMatch ==> r.value.handler == handler
  {
    if handler.None? then Failure(ArgumentNull)
    else if parser.Failure? then Failure(parser.error)
    else if VerbEquals(possibleVerb, parser.value) then NewWithHandler(Matched, Some(verbType), possibleVerb, handler)
    else if parser.value.None? then NewWithHandler(FallbackMatched, Some(verbType), possibleVerb, handler)
    else NewUnmatched(NotMatch, Some(verbType), possibleVerb)
  }

  /** With no candidate verb, a parser without a verb is a direct match, not a fallback. */
  lemma NoVerbMatchesVerbless<H>(verbType: TypeId, handler: H)
    ensures MatchWithHandler(verbType, None, Some(handler), Success(None)).value.machingResult == Matched
  {
  }

  /** A candidate verb matches its parser's verb in any letter case. */
  lemma VerbMatchIgnoresCase<H>(verbType: TypeId, handler: H)
    ensures MatchWithHandler(verbType, Some("edit"), Some(handler), Success(Some("Edit"))).value.machingResult == Matched
  {
    assert FoldCase("edit") == "EDIT" == FoldCase("Edit");
  }

  /** The user's handler: `Action<T>`, `Func<T, int>`, `Func<T, Task>` or `Func<T, Task<int>>`; what it does is opaque, the exit code it returns is given. */
  datatype Handler =
    | ActionHandler(id: nat)
    | FuncHandler(id: nat, exitCode: int)
    | TaskHandler(id: nat)
    | TaskIntHandler(id: nat, exitCode: int)

  /** The `Invoke` wrappers: a null handler throws; handlers without a result report exit code 0. */
  function Invoke(handler: Option<Handler>): (r: Result<int>)
    ensures handler.None? ==> r == Failure(ArgumentNull)
    ensures handler.Some? ==> r.Success?
    ensures handler.Some? && (handler.value.ActionHandler? || handler.value.TaskHandler?) ==> r.value == 0
    ensures handler.Some? && (handler.value.FuncHandler? || handler.value.TaskIntHandler?) ==> r.value == handler.value.exitCode
  {
    match handler
    case None => Failure(ArgumentNull)
    case Some(ActionHandler(_)) => Success(0)
    case Some(TaskHandler(_)) => Success(0)
    case Some(FuncHandler(_, code)) => Success(code)
    case Some(TaskIntHandler(_, code)) => Success(code)
  }

  /**
   * The delegate a matching result carries, `() => handler(commandLine.As(parser))`:
   * `binding` is the outcome of that `As` call, which runs first; the
   * user's handler runs only when the options were bound.
   */
  datatype Delegate = Delegate(binding: Outcome, handler: Option<Handler>)

  /** Calling the delegate: a binding exception propagates before the handler is reached; otherwise the handler's exit code. */
  function CallDelegate(d: Delegate): (r: Result<int>)
    ensures d.binding.Fail? ==> r == Failure(d.binding.error)
    ensures d.binding.Pass? ==> r == Invoke(d.handler)
    ensures r.Success? <==> d.binding.Pass? && d.handler.Some?
  {
    if d.binding.Fail? then Failure(d.binding.error) else Invoke(d.handler)
  }

  /** `ThrowIfVerbNotMatched`: always an `ArgumentException`, whose message depends on whether there was a verb. */
  function ThrowIfVerbNotMatched(possibleVerb: Option<string>): (r: Result<int>)
    ensures r.Failure?
    ensures possibleVerb.None? ==> r.error == Argument(NoVerbGiven)
    ensures possibleVerb.Some? ==> r.error == Argument(NoHandlerForVerb(possibleVerb.value))
  {
    if possibleVerb.None? then Failure(Argument(NoVerbGiven))
    else Failure(Argument(NoHandlerForVerb(possibleVerb.value)))
  }
}
