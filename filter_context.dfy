/**
 * `CommandLineFilterContext`: what a filter sees during a run.  It holds the
 * command line and the candidate verb, and a counter that makes
 * `SuppressFurtherHandlers` a one-shot operation: the first call stops the
 * run with its exit code, a later call throws.
 */
module FilterContexts {
  import opened Wrappers
  import opened MatchResults
  import opened VerbRouter
  import opened CommandLines

  /** The context's mutable state as a value: the suppress counter and the exit code. */
  datatype Ctx = Ctx(counter: int, exitCode: int)

  /** `AreFurtherHandlersSuppressed`: the counter is exactly one. */
  predicate IsSuppressed(c: Ctx)
  {
    c.counter == 1
  }

  /**
   * `SuppressFurtherHandlers(code)` on a state: the counter goes up by one;
   * the call that brings it to one records the exit code, any other throws
   * and leaves the exit code alone.
   */
  function Suppress(c: Ctx, code: int): (r: (Outcome, Ctx))
    ensures r.1.counter == c.counter + 1
    ensures r.0.Pass? <==> c.counter == 0
    ensures r.0.Pass? ==> r.1.exitCode == code && IsSuppressed(r.1)
    ensures r.0.Fail? ==> r.0.error == InvalidOperation && r.1.exitCode == c.exitCode
  {
    var counter := c.counter + 1;
    if counter == 1 then (Pass, Ctx(counter, code)) else (Fail(InvalidOperation), Ctx(counter, c.exitCode))
  }

  /** On a new context, a second suppression is rejected, keeps the first exit code, and leaves the flag reading false. */
  lemma SecondSuppressRejected(code1: int, code2: int)
    ensures var first := Suppress(Ctx(0, 0), code1);
      var second := Suppress(first.1, code2);
      first.0 == Pass && IsSuppressed(first.1) && first.1.exitCode == code1
      && second.0 == Fail(InvalidOperation) && second.1.exitCode == code1 && !IsSuppressed(second.1)
  {
  }

  /** The verb type of the router's pick for this verb, or none, or the exception a parser lookup throws while routing. */
  function RoutedType(ms: seq<Matcher>, verb: Option<string>): (r: Result<Option<TypeId>>)
    ensures r.Failure? ==> exists k :: 0 <= k < |ms| && ms[k].parser == Failure(r.error)
    ensures r.Success? && r.value.Some? ==>
      exists k :: 0 <= k < |ms| && ms[k].verbType == r.value.value && Match(ms[k], verb).Success? && Match(ms[k], verb).value.machingResult != NotMatch
    ensures r == Success(None) ==>
      forall k :: 0 <= k < |ms| ==> Match(ms[k], verb).Success? && Match(ms[k], verb).value.machingResult == NotMatch
  {
    match Routed(ms, verb)
    case Failure(e) => Failure(e)
    case Success(Some(p)) => Success(p.verbType)
    case Success(None) => Success(None)
  }

  class CommandLineFilterContext {
    const commandLine: CommandLine
    const verb: Option<string>
    /** `_areFurtherHandlersSuppressed`: how many times suppression was asked for. */
    var counter: int
    var exitCode: int

    constructor (commandLine: CommandLine, verb: Option<string>)
      ensures this.commandLine == commandLine && this.verb == verb
      ensures counter == 0 && exitCode == 0 && !Suppressed()
    {
      this.commandLine := commandLine;
      this.verb := verb;
      counter := 0;
      exitCode := 0;
    }

    function State(): Ctx
      reads this
    {
      Ctx(counter, exitCode)
    }

    predicate Suppressed()
      reads this
    {
      IsSuppressed(State())
    }

    /** `SuppressFurtherHandlers(exitCode)`. */
    method SuppressFurtherHandlers(code: int) returns (r: Outcome)
      modifies this
      ensures (r, State()) == Suppress(old(State()), code)
    {
      counter := counter + 1;
      if counter == 1 {
        exitCode := code;
        r := Pass;
      } else {
        r := Fail(InvalidOperation);
      }
    }

    /** `EnumerateRelatedTypes()`: the filter types, then the verb types, each in registration order. */
    function RelatedTypes(): (r: seq<TypeId>)
      reads commandLine
      ensures |r| == |commandLine.filters| + |commandLine.matchers|
      ensures forall i :: 0 <= i < |commandLine.filters| ==> r[i] == commandLine.filters[i].filterType
      ensures forall j :: 0 <= j < |commandLine.matchers| ==> r[|commandLine.filters| + j] == commandLine.matchers[j].verbType
    {
      var fs := commandLine.filters;
      var ms := commandLine.matchers;
      seq(|fs|, i requires 0 <= i < |fs| => fs[i].filterType) + seq(|ms|, j requires 0 <= j < |ms| => ms[j].verbType)
    }

    /** `GetVerbType()`: the type of the first result the router yields for the context's verb, or null; a lookup that throws while routing propagates. */
    method GetVerbType() returns (t: Result<Option<TypeId>>)
      ensures t == RoutedType(commandLine.matchers, verb)
    {
      var pick, _ := Find(commandLine.matchers, verb);
      if pick.Failure? {
        return Failure(pick.error);
      }
      if pick.value.Some? {
        return Success(pick.value.value.verbType);
      }
      return Success(None);
    }
  }

  /** `new CommandLineFilterContext(commandLine, verb)`: a null command line throws. */
  method NewContext(commandLine: CommandLine?, verb: Option<string>) returns (r: Result<CommandLineFilterContext>)
    ensures commandLine == null ==> r == Failure(ArgumentNull)
    ensures commandLine != null ==>
      r.Success? && fresh(r.value) && r.value.commandLine == commandLine && r.value.verb == verb
      && r.value.State() == Ctx(0, 0)
  {
    if commandLine == null {
      return Failure(ArgumentNull);
    }
    var context := new CommandLineFilterContext(commandLine, verb);
    r := Success(context);
  }
}
