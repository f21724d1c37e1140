/**
 * `VerbMatchingResult` and `CommandLineTypeMatchResult<T>`: the outcome of
 * matching one registered options type against the candidate verb.  The
 * two guarded constructors keep the struct's invariant: a handler is
 * present exactly when the type matched, directly or as the fallback.
 */
module MatchResults {
  import opened Wrappers

  /** `VerbMatchingResult`; `NotMatch` is the enum's zero value. */
  datatype VerbMatchingResult = NotMatch | Matched | FallbackMatched

  /** A `System.Type`, by identity. */
  type TypeId = nat

  /** `CommandLineTypeMatchResult<T>`; `H` stands for the handler delegate `Func<T>`. */
  datatype MatchResult<H> = MatchResult(verbType: Option<TypeId>, verb: Option<string>, machingResult: VerbMatchingResult, handler: Option<H>)
  {
    /** The invariant both constructors establish. */
    predicate Valid()
    {
      handler.Some? <==> machingResult != NotMatch
    }
  }

  /** `default(CommandLineTypeMatchResult<T>)`: every field zero or null. */
  function Default<H>(): (r: MatchResult<H>)
    ensures r.Valid() && r.machingResult == NotMatch && r.handler.None? && r.verbType.None?
  {
    MatchResult(None, None, NotMatch, None)
  }

  /** The constructor without a handler: only `NotMatch` is accepted, and the verb type must not be null. */
  function NewUnmatched<H>(matchingResult: VerbMatchingResult, verbType: Option<TypeId>, verb: Option<string>): (r: Result<MatchResult<H>>)
    ensures r.Success? <==> matchingResult == NotMatch && verbType.Some?
    ensures matchingResult != NotMatch ==> r == Failure(Argument(BadMatchResult))
    ensures matchingResult == NotMatch && verbType.None? ==> r == Failure(ArgumentNull)
    ensures r.Success? ==> r.value.Valid() && r.value.verbType == verbType && r.value.verb == verb && r.value.machingResult == NotMatch
  {
    if matchingResult != NotMatch then Failure(Argument(BadMatchResult))
    else if verbType.None? then Failure(ArgumentNull)
    else Success(MatchResult(verbType, verb, matchingResult, None))
  }

  /** The constructor with a handler: only `Matched` or `FallbackMatched`, a non-null verb type and a non-null handler. */
  function NewWithHandler<H>(matchingResult: VerbMatchingResult, verbType: Option<TypeId>, verb: Option<string>, handler: Option<H>): (r: Result<MatchResult<H>>)
    ensures r.Success? <==> matchingResult != NotMatch && verbType.Some? && handler.Some?
    ensures matchingResult == NotMatch ==> r == Failure(Argument(BadMatchResult))
    ensures matchingResult != NotMatch && (verbType.None? || handler.None?) ==> r == Failure(ArgumentNull)
    ensures r.Success? ==>
      r.value.Valid() && r.value.verbType == verbType && r.value.verb == verb
      && r.value.machingResult == matchingResult && r.value.handler == handler
  {
    if !matchingResult.Matched? && !matchingResult.FallbackMatched? then Failure(Argument(BadMatchResult))
    else if verbType.None? then Failure(ArgumentNull)
    else if handler.None? then Failure(ArgumentNull)
    else Success(MatchResult(verbType, verb, matchingResult, handler))
  }

  /** Conversely, every valid result with a verb type is what one of the two constructors builds from its own fields. */
  lemma ValidResultsAreConstructed<H>(m: MatchResult<H>)
    requires m.Valid() && m.verbType.Some?
    ensures m.handler.None? ==> NewUnmatched(m.machingResult, m.verbType, m.verb) == Success(m)
    ensures m.handler.Some? ==> NewWithHandler(m.machingResult, m.verbType, m.verb, m.handler) == Success(m)
  {
  }
}
