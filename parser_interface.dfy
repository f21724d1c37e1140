/**
 * The calls a command line makes on an options parser: the typed setters of
 * `ICommandLineOptionParser<T>`, the raw setters of
 * `IRawCommandLineOptionParser<T>`, and the positional setter, whose value
 * list is either the group's own optimized list or a plain list copy.
 */
module ParserInterface {
  import opened Wrappers
  import opened OptimizedList

  /** The argument of a typed setter: `bool`, `string` or `IReadOnlyList<string>`. */
  datatype Argument = BoolArg(b: bool) | StringArg(s: string) | ListArg(items: seq<string>)

  /**
   * The list `SetValue(values)` receives: the group's `SingleOptimizedStrings`
   * itself, or (when the parser has a verb) `values.Skip(1).ToList()`, a
   * `List<string>`.  The two differ only in how an out-of-range index fails.
   */
  datatype PositionalValues = WholeGroup(items: seq<string>) | AfterVerb(items: seq<string>)
  {
    predicate Valid() { WholeGroup? ==> |items| >= 1 }
  }

  /** The list indexer `values[index]`. */
  function Element(values: PositionalValues, index: int): (r: Result<string>)
    requires values.Valid()
    ensures r.Success? <==> 0 <= index < |values.items|
    ensures r.Success? ==> r.value == values.items[index]
  {
    match values
    case WholeGroup(items) => ElementAt(items, index)
    case AfterVerb(items) => if 0 <= index < |items| then Success(items[index]) else Failure(ArgumentOutOfRange)
  }

  /** One setter call; raw values are a group's values (absent, or at least one). */
  datatype SetterCall =
    | Positional(values: PositionalValues)
    | ShortTyped(shortName: char, arg: Argument)
    | LongTyped(longName: string, arg: Argument)
    | ShortRaw(shortName: char, raw: Option<seq<string>>)
    | LongRaw(longName: string, raw: Option<seq<string>>)
  {
    predicate Valid()
    {
      match this
      case Positional(values) => values.Valid()
      case ShortRaw(_, raw) => raw.Some? ==> |raw.value| >= 1
      case LongRaw(_, raw) => raw.Some? ==> |raw.value| >= 1
      case _ => true
    }
  }
}
