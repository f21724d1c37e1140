/**
 * `CommandLineOptionParser<T>`: a hand-written parser base class that keeps
 * one handler table per name kind and argument kind.  Handlers are opaque
 * action ids; what the parser does with them is recorded as a log of calls.
 * The seven dictionaries are modelled as three maps whose keys carry the
 * argument kind: one for the value indexes (string actions only), one for
 * the short names and one for the long names.
 */
module OptionParser {
  import opened Wrappers
  import opened DotNet
  import opened ParserInterface

  /** The argument type of a registered action: `Action<bool>`, `Action<string>` or `Action<IReadOnlyList<string>>`. */
  datatype ActionKind = BoolAction | StringAction | ListAction

  /** An invocation of a registered action, or of the commit function. */
  datatype Call = Invoke(action: nat, arg: Argument) | CommitCall(commit: nat)

  function KindOf(arg: Argument): ActionKind
  {
    match arg
    case BoolArg(_) => BoolAction
    case StringArg(_) => StringAction
    case ListArg(_) => ListAction
  }

  function CallsOf(c: Option<Call>): seq<Call>
  {
    if c.Some? then [c.value] else []
  }

  // ---------------------------------------------------------------- spec functions

  /** The calls `SetValue(values)` makes: the index-i action with `values[i]`, for every registered i below the count, in index order. */
  function PositionalCalls(indexes: map<int, nat>, values: seq<string>): (r: seq<Call>)
    ensures |r| <= |values|
  {
    if values == [] then []
    else
      var n := |values| - 1;
      PositionalCalls(indexes, values[..n])
        + (if n in indexes then [Invoke(indexes[n], StringArg(values[n]))] else [])
  }

  /** The typed setters: the action registered for the name and the argument's kind, if any. */
  function TypedCall<K(==)>(table: map<(ActionKind, K), nat>, name: K, arg: Argument): (r: Option<Call>)
    ensures r.Some? <==> (KindOf(arg), name) in table
    ensures r.Some? ==> r.value == Invoke(table[(KindOf(arg), name)], arg)
  {
    if (KindOf(arg), name) in table then Some(Invoke(table[(KindOf(arg), name)], arg)) else None
  }

  /** A raw switch value: no values means `true`; otherwise the first value must parse as `true`. */
  function RawBool(values: Option<seq<string>>): bool
    requires values.Some? ==> |values.value| >= 1
  {
    values.None? || BoolTryParse(values.value[0]) == Some(true)
  }

  /**
   * The raw setters: a bool action first, then (only when there are values)
   * a string action, then a list action.  `joinAll` selects the long-name
   * behaviour of passing all values joined with spaces to a string action.
   */
  function RawCall<K(==)>(table: map<(ActionKind, K), nat>, name: K, values: Option<seq<string>>, joinAll: bool): (r: Option<Call>)
    requires values.Some? ==> |values.value| >= 1
    ensures (BoolAction, name) in table ==> r == Some(Invoke(table[(BoolAction, name)], BoolArg(RawBool(values))))
    ensures (BoolAction, name) !in table && values.None? ==> r.None?
    ensures (BoolAction, name) !in table && values.Some? && (StringAction, name) in table ==>
      r.Some? && r.value.Invoke? && r.value.action == table[(StringAction, name)] && r.value.arg.StringArg?
    ensures (BoolAction, name) !in table && (StringAction, name) !in table && values.Some? ==>
      r == (if (ListAction, name) in table then Some(Invoke(table[(ListAction, name)], ListArg(values.value))) else None)
  {
    if (BoolAction, name) in table then Some(Invoke(table[(BoolAction, name)], BoolArg(RawBool(values))))
    else if (StringAction, name) in table && values.Some? then
      var vs := values.value;
      Some(Invoke(table[(StringAction, name)], StringArg(if joinAll && |vs| != 1 then Join(" ", vs) else vs[0])))
    else if (ListAction, name) in table && values.Some? then Some(Invoke(table[(ListAction, name)], ListArg(values.value)))
    else None
  }

  /** The actions one setter call invokes, given the three handler tables. */
  function SetterCalls(indexes: map<int, nat>, shortNames: map<(ActionKind, char), nat>, longNames: map<(ActionKind, string), nat>, call: SetterCall): (r: seq<Call>)
    requires call.Valid()
    ensures |r| <= if call.Positional? then |call.values.items| else 1
  {
    match call
    case Positional(values) => PositionalCalls(indexes, values.items)
    case ShortTyped(c, arg) => CallsOf(TypedCall(shortNames, c, arg))
    case LongTyped(l, arg) => CallsOf(TypedCall(longNames, l, arg))
    case ShortRaw(c, raw) => CallsOf(RawCall(shortNames, c, raw, false))
    case LongRaw(l, raw) => CallsOf(RawCall(longNames, l, raw, true))
  }

  class CommandLineOptionParser {
    var indexes: map<int, nat>
    var shortNames: map<(ActionKind, char), nat>
    var longNames: map<(ActionKind, string), nat>
    var verb: Option<string>
    var commit: Option<nat>
    /** The actions invoked so far, in order. */
    var calls: seq<Call>

    constructor ()
      ensures indexes == map[] && shortNames == map[] && longNames == map[]
      ensures verb.None? && commit.None? && calls == []
    {
      indexes := map[];
      shortNames := map[];
      longNames := map[];
      verb := None;
      commit := None;
      calls := [];
    }

    /** `AddMatch(int index, Action<string>)`. */
    method AddIndexMatch(index: int, action: Option<nat>) returns (r: Outcome)
      modifies this
      ensures action.None? ==> r == Fail(ArgumentNull) && indexes == old(indexes)
      ensures action.Some? ==> r == Pass && indexes == old(indexes)[index := action.value]
      ensures shortNames == old(shortNames) && longNames == old(longNames)
      ensures verb == old(verb) && commit == old(commit) && calls == old(calls)
    {
      if action.None? {
        return Fail(ArgumentNull);
      }
      indexes := indexes[index := action.value];
      r := Pass;
    }

    /** `AddMatch(char shortName, Action<...>)`, one overload per action kind. */
    method AddShortMatch(shortName: char, kind: ActionKind, action: Option<nat>) returns (r: Outcome)
      modifies this
      ensures action.None? ==> r == Fail(ArgumentNull) && shortNames == old(shortNames)
      ensures action.Some? ==> r == Pass && shortNames == old(shortNames)[(kind, shortName) := action.value]
      ensures indexes == old(indexes) && longNames == old(longNames)
      ensures verb == old(verb) && commit == old(commit) && calls == old(calls)
    {
      if action.None? {
        return Fail(ArgumentNull);
      }
      shortNames := shortNames[(kind, shortName) := action.value];
      r := Pass;
    }

    /** `AddMatch(string longName, Action<...>)`; a null name is refused by the dictionary. */
    method AddLongMatch(longName: Option<string>, kind: ActionKind, action: Option<nat>) returns (r: Outcome)
      modifies this
      ensures (action.None? || longName.None?) ==> r == Fail(ArgumentNull) && longNames == old(longNames)
      ensures action.Some? && longName.Some? ==>
        r == Pass && longNames == old(longNames)[(kind, longName.value) := action.value]
      ensures indexes == old(indexes) && shortNames == old(shortNames)
      ensures verb == old(verb) && commit == old(commit) && calls == old(calls)
    {
      if action.None? || longName.None? {
        return Fail(ArgumentNull);
      }
      longNames := longNames[(kind, longName.value) := action.value];
      r := Pass;
    }

    /**
     * `AddMatch(char shortName, string longName, Action<...>)`: the same
     * action under both names.  The short name is stored before the long
     * name is looked at, so a null long name throws after the short
     * registration has happened.
     */
    method AddShortLongMatch(shortName: char, longName: Option<string>, kind: ActionKind, action: Option<nat>) returns (r: Outcome)
      modifies this
      ensures action.None? ==> r == Fail(ArgumentNull) && shortNames == old(shortNames) && longNames == old(longNames)
      ensures action.Some? ==> shortNames == old(shortNames)[(kind, shortName) := action.value]
      ensures action.Some? && longName.None? ==> r == Fail(ArgumentNull) && longNames == old(longNames)
      ensures action.Some? && longName.Some? ==>
        r == Pass && longNames == old(longNames)[(kind, longName.value) := action.value]
      ensures indexes == old(indexes)
      ensures verb == old(verb) && commit == old(commit) && calls == old(calls)
    {
      if action.None? {
        return Fail(ArgumentNull);
      }
      shortNames := shortNames[(kind, shortName) := action.value];
      if longName.None? {
        return Fail(ArgumentNull);
      }
      longNames := longNames[(kind, longName.value) := action.value];
      r := Pass;
    }

    /** `SetResult(commit)`. */
    method SetResult(commitFunction: Option<nat>) returns (r: Outcome)
      modifies this
      ensures commitFunction.None? ==> r == Fail(ArgumentNull) && commit == old(commit)
      ensures commitFunction.Some? ==> r == Pass && commit == commitFunction
      ensures indexes == old(indexes) && shortNames == old(shortNames) && longNames == old(longNames)
      ensures verb == old(verb) && calls == old(calls)
    {
      if commitFunction.None? {
        return Fail(ArgumentNull);
      }
      commit := commitFunction;
      r := Pass;
    }

    /** The `Verb` setter: a null, empty or white-space verb is stored as null. */
    method SetVerb(value: Option<string>)
      modifies this
      ensures verb.None? <==> IsNullOrWhiteSpace(value)
      ensures verb.Some? ==> verb == value
      ensures indexes == old(indexes) && shortNames == old(shortNames) && longNames == old(longNames)
      ensures commit == old(commit) && calls == old(calls)
    {
      verb := if IsNullOrWhiteSpace(value) then None else value;
    }

    /** `SetValue(IReadOnlyList<string> values)`. */
    method SetPositional(values: seq<string>)
      modifies this
      ensures calls == old(calls) + PositionalCalls(indexes, values)
      ensures indexes == old(indexes) && shortNames == old(shortNames) && longNames == old(longNames)
      ensures verb == old(verb) && commit == old(commit)
    {
      for i := 0 to |values|
        invariant calls == old(calls) + PositionalCalls(indexes, values[..i])
        invariant indexes == old(indexes) && shortNames == old(shortNames) && longNames == old(longNames)
        invariant verb == old(verb) && commit == old(commit)
      {
        assert values[..i + 1][..i] == values[..i];
        if i in indexes {
          calls := calls + [Invoke(indexes[i], StringArg(values[i]))];
        }
      }
      assert values[..|values|] == values;
    }

    /** The typed short-name setters `SetValue(char, bool | string | IReadOnlyList<string>)`. */
    method SetShort(shortName: char, arg: Argument)
      modifies this
      ensures calls == old(calls) + CallsOf(TypedCall(shortNames, shortName, arg))
      ensures indexes == old(indexes) && shortNames == old(shortNames) && longNames == old(longNames)
      ensures verb == old(verb) && commit == old(commit)
    {
      if (KindOf(arg), shortName) in shortNames {
        calls := calls + [Invoke(shortNames[(KindOf(arg), shortName)], arg)];
      }
    }

    /** The typed long-name setters `SetValue(string, bool | string | IReadOnlyList<string>)`. */
    method SetLong(longName: string, arg: Argument)
      modifies this
      ensures calls == old(calls) + CallsOf(TypedCall(longNames, longName, arg))
      ensures indexes == old(indexes) && shortNames == old(shortNames) && longNames == old(longNames)
      ensures verb == old(verb) && commit == old(commit)
    {
      if (KindOf(arg), longName) in longNames {
        calls := calls + [Invoke(longNames[(KindOf(arg), longName)], arg)];
      }
    }

    /** The raw short-name setter `SetValue(char, SingleOptimizedStrings?)`. */
    method SetShortRaw(shortName: char, values: Option<seq<string>>)
      requires values.Some? ==> |values.value| >= 1
      modifies this
      ensures calls == old(calls) + CallsOf(RawCall(shortNames, shortName, values, false))
      ensures indexes == old(indexes) && shortNames == old(shortNames) && longNames == old(longNames)
      ensures verb == old(verb) && commit == old(commit)
    {
      var c := RawCall(shortNames, shortName, values, false);
      if c.Some? {
        calls := calls + [c.value];
      }
    }

    /** The raw long-name setter `SetValue(string, SingleOptimizedStrings?)`. */
    method SetLongRaw(longName: string, values: Option<seq<string>>)
      requires values.Some? ==> |values.value| >= 1
      modifies this
      ensures calls == old(calls) + CallsOf(RawCall(longNames, longName, values, true))
      ensures indexes == old(indexes) && shortNames == old(shortNames) && longNames == old(longNames)
      ensures verb == old(verb) && commit == old(commit)
    {
      var c := RawCall(longNames, longName, values, true);
      if c.Some? {
        calls := calls + [c.value];
      }
    }

    /** One setter call, dispatched to the overload it names. */
    method Perform(call: SetterCall)
      requires call.Valid()
      modifies this
      ensures calls == old(calls) + SetterCalls(indexes, shortNames, longNames, call)
      ensures indexes == old(indexes) && shortNames == old(shortNames) && longNames == old(longNames)
      ensures verb == old(verb) && commit == old(commit)
    {
      match call
      case Positional(values) => SetPositional(values.items);
      case ShortTyped(c, arg) => SetShort(c, arg);
      case LongTyped(l, arg) => SetLong(l, arg);
      case ShortRaw(c, raw) => SetShortRaw(c, raw);
      case LongRaw(l, raw) => SetLongRaw(l, raw);
    }

    /** `Commit()`: throws when no commit function was set, otherwise calls it. */
    method Commit() returns (r: Result<nat>)
      modifies this
      ensures commit.None? ==> r == Failure(InvalidOperation) && calls == old(calls)
      ensures commit.Some? ==> r == Success(commit.value) && calls == old(calls) + [CommitCall(commit.value)]
      ensures indexes == old(indexes) && shortNames == old(shortNames) && longNames == old(longNames)
      ensures verb == old(verb) && commit == old(commit)
    {
      if commit.None? {
        return Failure(InvalidOperation);
      }
      calls := calls + [CommitCall(commit.value)];
      r := Success(commit.value);
    }
  }

  // ---------------------------------------------------------------- properties

  /** `SetValue(values)` calls the action of index i with `values[i]` exactly for the registered i below the count. */
  lemma {:induction false} PositionalCallsExactly(indexes: map<int, nat>, values: seq<string>, a: nat, v: string)
    ensures Invoke(a, StringArg(v)) in PositionalCalls(indexes, values)
      <==> exists i :: 0 <= i < |values| && i in indexes && indexes[i] == a && values[i] == v
  {
    if values != [] {
      var n := |values| - 1;
      var pre := values[..n];
      PositionalCallsExactly(indexes, pre, a, v);
      if exists i :: 0 <= i < |pre| && i in indexes && indexes[i] == a && pre[i] == v {
        var i :| 0 <= i < |pre| && i in indexes && indexes[i] == a && pre[i] == v;
        assert values[i] == pre[i];
      }
      if exists i :: 0 <= i < |values| && i in indexes && indexes[i] == a && values[i] == v {
        var i :| 0 <= i < |values| && i in indexes && indexes[i] == a && values[i] == v;
        if i < n {
          assert pre[i] == values[i];
        }
      }
    }
  }

  /** With no registered index, `SetValue(values)` calls nothing. */
  lemma {:induction false} PositionalCallsNoneWithoutIndexes(values: seq<string>)
    ensures PositionalCalls(map[], values) == []
  {
    if values != [] {
      PositionalCallsNoneWithoutIndexes(values[..|values| - 1]);
    }
  }

  /** Only a bool action sees a switch with no values; then it receives `true`. */
  lemma RawSwitchWithoutValues<K>(table: map<(ActionKind, K), nat>, name: K)
    ensures RawCall(table, name, None, true) ==
      (if (BoolAction, name) in table then Some(Invoke(table[(BoolAction, name)], BoolArg(true))) else None)
  {
  }

  lemma NonBooleanWord()
    ensures BoolTryParse("abc") == None
  {
    assert TrimStart("abc", WhiteSpaceAndNul) == "abc" by {
      assert "abc" == "" + "abc";
      TrimStartSkips("", "abc", WhiteSpaceAndNul);
    }
    assert TrimEnd("abc", WhiteSpaceAndNul) == "abc" by {
      assert "abc" == "abc" + "";
      TrimEndSkips("abc", "", WhiteSpaceAndNul);
    }
    assert FoldCase("abc") != FoldCase("true") by {
      assert |FoldCase("abc")| == 3;
    }
    assert FoldCase("abc") != FoldCase("false") by {
      assert |FoldCase("abc")| == 3;
    }
  }

  lemma TrueWord()
    ensures BoolTryParse("True") == Some(true)
  {
    BoolTryParseRoundTrip(true, "");
    assert "" + FormatBool(true) + "" == "True";
  }

  /** A raw bool action receives `false` for a value that is not a boolean, unlike a bool property. */
  lemma RawBoolOfNonBoolean()
    ensures !RawBool(Some(["abc"]))
    ensures RawBool(Some(["True"]))
  {
    NonBooleanWord();
    TrueWord();
  }

  /** A long-name string action receives the single value itself, or all values joined with spaces; a short-name one receives the first value. */
  lemma RawStringValues(longNames: map<(ActionKind, string), nat>, shortNames: map<(ActionKind, char), nat>, l: string, c: char, vs: seq<string>)
    requires |vs| >= 1
    requires (BoolAction, l) !in longNames && (StringAction, l) in longNames
    requires (BoolAction, c) !in shortNames && (StringAction, c) in shortNames
    ensures RawCall(longNames, l, Some(vs), true) ==
      Some(Invoke(longNames[(StringAction, l)], StringArg(if |vs| == 1 then vs[0] else Join(" ", vs))))
    ensures RawCall(shortNames, c, Some(vs), false) == Some(Invoke(shortNames[(StringAction, c)], StringArg(vs[0])))
  {
  }
}
