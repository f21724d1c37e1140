/**
 * `CommandLine`: the parsed command line and what is done with it.
 * `Parse` turns the arguments (or the URL they carry) into normalised
 * entries; `As` replays every entry onto an options parser as setter calls
 * and then commits the parser; `ToDictionary` flattens the entries into
 * key/text pairs; `AddMatch` collects the filters and the verb handlers
 * the runner dispatches to.
 */
module CommandLines {
  import opened Wrappers
  import opened DotNet
  import opened Groups
  import opened Tokenizer
  import opened ParserInterface
  import opened OptionParser
  import opened Reflection
  import opened Coercion
  import opened Registration
  import opened RuntimeParser
  import opened ImmutableParser
  import opened MatchResults
  import opened VerbRouter
  import opened UrlArgs
  import opened KeyNormalizer

  // ---------------------------------------------------------------- Parse

  /** The arguments the tokenizer sees: the URL's converted query when the first argument is the protocol's URL, else the arguments themselves. */
  function ArgsToTokenize(args: seq<string>, protocol: Option<string>): (r: Result<seq<string>>)
    ensures !IsUrlInvocation(protocol, args) ==> r == Success(args)
    ensures IsUrlInvocation(protocol, args) ==> r == ConvertUrlToArgs(args[0])
  {
    if IsUrlInvocation(protocol, args) then ConvertUrlToArgs(args[0]) else Success(args)
  }

  /** A value list is absent or holds at least one value, as a `SingleOptimizedStrings` always does. */
  predicate ValuesNonEmpty(g: Group)
  {
    g.value.Some? ==> |g.value.value| >= 1
  }

  predicate AllValuesNonEmpty(groups: seq<Group>)
  {
    forall i :: 0 <= i < |groups| ==> ValuesNonEmpty(groups[i])
  }

  /**
   * The entries `Parse` keeps: none for a null or empty argument array;
   * otherwise the URL conversion, the prefix scan, the tokenizer and the
   * key normalisation, in that order, the first failure ending the parse.
   */
  function ParseGroups(args: Option<seq<string>>, protocol: Option<string>): (r: Result<seq<Group>>)
    ensures args.None? || args.value == [] ==> r == Success([])
    ensures r.Success? ==> AllValuesNonEmpty(r.value)
  {
    if args.None? || args.value == [] then Success([])
    else
      match ArgsToTokenize(args.value, protocol)
      case Failure(e) => Failure(e)
      case Success(a) =>
        match FindPrefix(a)
        case Failure(e) => Failure(e)
        case Success(p) =>
          NormalizedValuesNonEmpty(a, p);
          NormalizeAll(Tokenize(a, p), p)
  }

  /** Normalisation keeps the tokenizer's values, and those are never an empty list. */
  lemma NormalizedValuesNonEmpty(args: seq<string>, prefix: char)
    ensures var r := NormalizeAll(Tokenize(args, prefix), prefix);
      r.Success? ==> AllValuesNonEmpty(r.value)
  {
    var tokens := Tokenize(args, prefix);
    TokenizeProvenance(args, prefix);
    if NormalizeAll(tokens, prefix).Success? {
      NormalizeAllKeepsValues(tokens, prefix);
      assert forall i :: 0 <= i < |tokens| ==> WellFormed(tokens[i]) by {
        forall i | 0 <= i < |tokens| ensures WellFormed(tokens[i]) {
          assert tokens[i] in tokens;
        }
      }
    }
  }

  /**
   * Without a URL, a successful parse is the tokenizer's entries with each
   * key rewritten: same number of entries, same values, in the same order.
   */
  lemma ParseKeepsEveryValue(args: seq<string>, protocol: Option<string>, prefix: char)
    requires args != [] && !IsUrlInvocation(protocol, args) && FindPrefix(args) == Success(prefix)
    requires ParseGroups(Some(args), protocol).Success?
    ensures var gs := ParseGroups(Some(args), protocol).value;
      var tokens := Tokenize(args, prefix);
      |gs| == |tokens|
      && forall i :: 0 <= i < |gs| ==> gs[i].value == tokens[i].value && NormalizeKey(tokens[i].key, prefix) == Success(gs[i].key)
  {
    NormalizeAllKeepsValues(Tokenize(args, prefix), prefix);
  }

  /** In the URL form only the first argument counts: the rest are discarded. */
  lemma UrlDiscardsOtherArgs(url: string, rest: seq<string>, protocol: Option<string>)
    requires IsUrlInvocation(protocol, [url])
    ensures ParseGroups(Some([url] + rest), protocol) == ParseGroups(Some([url]), protocol)
  {
    assert ([url] + rest)[0] == url;
  }

  /** A URL whose query holds `key=value` pairs parses exactly as the `-Key value` arguments they stand for. */
  lemma UrlParsesAsShellArgs(base: string, pairs: seq<(string, string)>, protocol: Option<string>)
    requires '?' !in base && QuerySafe(pairs)
    requires IsUrlInvocation(protocol, [base + "?" + Join("&", QueryPieces(pairs))])
    ensures ParseGroups(Some([base + "?" + Join("&", QueryPieces(pairs))]), protocol) == ParseGroups(Some(ShellArgs(pairs)), None)
  {
    var url := base + "?" + Join("&", QueryPieces(pairs));
    var shell := ShellArgs(pairs);
    UrlRoundTrip(base, pairs);
    assert ArgsToTokenize([url], protocol) == Success(shell);
    if pairs == [] {
      assert shell == [];
      assert Tokenize([], '-') == [];
    } else {
      assert ArgsToTokenize(shell, None) == Success(shell);
      SameTokensSameParse([url], protocol, shell, None);
    }
  }

  /** Two argument arrays that tokenize from the same arguments parse alike. */
  lemma SameTokensSameParse(a1: seq<string>, p1: Option<string>, a2: seq<string>, p2: Option<string>)
    requires a1 != [] && a2 != [] && ArgsToTokenize(a1, p1) == ArgsToTokenize(a2, p2)
    ensures ParseGroups(Some(a1), p1) == ParseGroups(Some(a2), p2)
  {
  }

  /** One option argument without an inline value is one entry with no values. */
  lemma TokenizeLoneOption(arg: string, prefix: char)
    requires arg != "" && arg[0] == prefix && ':' !in arg && !IsSectionEnd(arg, prefix)
    ensures Tokenize([arg], prefix) == [Entry(arg, None)]
  {
    TokenizeOptionsOnly([arg], prefix);
  }

  /** A lone option whose key normalises to `name` parses as that one entry. */
  lemma LoneOptionParses(arg: string, prefix: char, name: string)
    requires arg != "" && arg[0] == prefix && IsPrefixChar(prefix) && ':' !in arg && !IsSectionEnd(arg, prefix)
    requires NormalizeKey(arg, prefix) == Success(name)
    ensures ParseGroups(Some([arg]), None) == Success([Entry(name, None)])
  {
    assert !IsUrlInvocation(None, [arg]);
    assert ArgsToTokenize([arg], None) == Success([arg]);
    assert FindPrefix([arg]) == Success(prefix);
    TokenizeLoneOption(arg, prefix);
    NormalizeAllOfEach([Entry(arg, None)], [Entry(name, None)], prefix);
  }

  /** `-Name` and `/Name` parse alike, as the entry `Name`. */
  lemma WindowsAndCmdStylesParseAlike(name: string)
    requires |name| >= 2 && !IsPrefixChar(name[0]) && ':' !in name
    ensures ParseGroups(Some(["-" + name]), None) == Success([Entry(name, None)])
    ensures ParseGroups(Some(["/" + name]), None) == Success([Entry(name, None)])
  {
    PrefixedStylesAgree(name);
    assert ("-" + name)[0] == '-' && ("/" + name)[0] == '/';
    assert ':' !in "-" + name && ':' !in "/" + name by {
      assert forall k :: 0 < k < |name| + 1 ==> ("-" + name)[k] == name[k - 1] && ("/" + name)[k] == name[k - 1];
    }
    LoneOptionParses("-" + name, '-', name);
    LoneOptionParses("/" + name, '/', name);
  }

  /** `--kebab-words` parses as the entry `KebabWords`. */
  lemma LinuxStyleParsesAsPascal(words: seq<string>)
    requires |words| >= 1 && words[0] != ""
    requires forall k :: 0 <= k < |words| ==> '-' !in words[k]
    requires ':' !in Join("-", words)
    ensures ParseGroups(Some([['-', '-'] + Join("-", words)]), None) == Success([Entry(PascalWords(words), None)])
  {
    var arg := ['-', '-'] + Join("-", words);
    KebabKeyNormalizes(words, '-');
    KebabArgIsLoneOption(words);
    LoneOptionParses(arg, '-', PascalWords(words));
  }

  lemma KebabArgIsLoneOption(words: seq<string>)
    requires |words| >= 1 && words[0] != ""
    requires ':' !in Join("-", words)
    ensures var arg := ['-', '-'] + Join("-", words);
      arg != "" && arg[0] == '-' && ':' !in arg && !IsSectionEnd(arg, '-')
  {
    var joined := Join("-", words);
    var arg := ['-', '-'] + joined;
    assert ':' !in arg by {
      assert forall k :: 2 <= k < |arg| ==> arg[k] == joined[k - 2];
    }
    if |words| > 1 {
      JoinCons(words[0], words[1..], "-");
      assert words == [words[0]] + words[1..];
    }
    assert |joined| >= 1;
  }

  // ---------------------------------------------------------------- As: from entries to setter calls

  /**
   * The typed argument for a named entry: no values is the switch `true`;
   * one value is a `bool` when it parses as one and a `string` otherwise;
   * several values are passed as the list.
   */
  function TypedArgument(values: Option<seq<string>>): (r: Argument)
    requires values.Some? ==> |values.value| >= 1
    ensures values.None? ==> r == BoolArg(true)
    ensures values.Some? && |values.value| == 1 ==>
      (r.BoolArg? <==> BoolTryParse(values.value[0]).Some?)
      && (r.BoolArg? ==> BoolTryParse(values.value[0]) == Some(r.b))
      && (!r.BoolArg? ==> r == StringArg(values.value[0]))
    ensures values.Some? && |values.value| > 1 ==> r == ListArg(values.value)
  {
    if values.None? then BoolArg(true)
    else if |values.value| == 1 then
      match BoolTryParse(values.value[0])
      case Some(b) => BoolArg(b)
      case None => StringArg(values.value[0])
    else ListArg(values.value)
  }

  /**
   * The setter call one entry makes: an empty key with values is positional
   * (without its first value, the verb, when the parser has a verb); an
   * empty key without values makes no call; a one-character key goes to a
   * short-name setter and a longer key to a long-name setter, raw or typed.
   */
  function GroupCall(g: Group, hasVerb: bool, isRaw: bool): (r: Option<SetterCall>)
    requires ValuesNonEmpty(g)
    ensures r.Some? ==> r.value.Valid()
    ensures r.None? <==> g.key == "" && g.value.None?
    ensures r.Some? && r.value.Positional? <==> g.key == "" && g.value.Some?
    ensures r.Some? && r.value.Positional? ==>
      r.value.values.items == (if hasVerb then g.value.value[1..] else g.value.value)
    ensures |g.key| == 1 ==> r == Some(if isRaw then ShortRaw(g.key[0], g.value) else ShortTyped(g.key[0], TypedArgument(g.value)))
    ensures |g.key| > 1 ==> r == Some(if isRaw then LongRaw(g.key, g.value) else LongTyped(g.key, TypedArgument(g.value)))
  {
    if g.key == "" then
      if g.value.None? then None
      else if hasVerb then Some(Positional(AfterVerb(g.value.value[1..])))
      else Some(Positional(WholeGroup(g.value.value)))
    else if |g.key| == 1 then
      Some(if isRaw then ShortRaw(g.key[0], g.value) else ShortTyped(g.key[0], TypedArgument(g.value)))
    else
      Some(if isRaw then LongRaw(g.key, g.value) else LongTyped(g.key, TypedArgument(g.value)))
  }

  lemma PrefixValuesNonEmpty(groups: seq<Group>, i: nat)
    requires AllValuesNonEmpty(groups) && i <= |groups|
    ensures AllValuesNonEmpty(groups[..i])
  {
    assert forall j :: 0 <= j < i ==> groups[..i][j] == groups[j];
  }

  /**
   * A switch or a single non-boolean value reaches a `CommandLineOptionParser`
   * handler the same way whether it is passed raw or typed.
   */
  lemma RawAgreesWithTyped<K>(table: map<(ActionKind, K), nat>, name: K, v: string, joinAll: bool)
    ensures RawCall(table, name, None, joinAll) == TypedCall(table, name, TypedArgument(None))
    ensures (BoolAction, name) !in table && BoolTryParse(v).None? && ((StringAction, name) in table || (ListAction, name) !in table) ==>
      RawCall(table, name, Some([v]), joinAll) == TypedCall(table, name, TypedArgument(Some([v])))
  {
    if (BoolAction, name) !in table && BoolTryParse(v).None? && ((StringAction, name) in table || (ListAction, name) !in table) {
      assert [v][0] == v;
      JoinOne(v);
    }
  }

  lemma JoinOne(v: string)
    ensures Join(" ", [v]) == v
  {
  }

  // ---------------------------------------------------------------- As on each parser: the runs

  /** The actions a `CommandLineOptionParser` invokes for one entry. */
  function EntryActions(indexes: map<int, nat>, shortNames: map<(ActionKind, char), nat>, longNames: map<(ActionKind, string), nat>, g: Group, hasVerb: bool): seq<Call>
    requires ValuesNonEmpty(g)
  {
    match GroupCall(g, hasVerb, true)
    case None => []
    case Some(c) => SetterCalls(indexes, shortNames, longNames, c)
  }

  /** The actions a `CommandLineOptionParser` invokes for all the entries, in order. */
  function OptionRun(indexes: map<int, nat>, shortNames: map<(ActionKind, char), nat>, longNames: map<(ActionKind, string), nat>, groups: seq<Group>, hasVerb: bool): (r: seq<Call>)
    requires AllValuesNonEmpty(groups)
  {
    if groups == [] then []
    else
      var n := |groups| - 1;
      PrefixValuesNonEmpty(groups, n);
      OptionRun(indexes, shortNames, longNames, groups[..n], hasVerb) + EntryActions(indexes, shortNames, longNames, groups[n], hasVerb)
  }

  lemma OptionRunSnoc(indexes: map<int, nat>, shortNames: map<(ActionKind, char), nat>, longNames: map<(ActionKind, string), nat>, groups: seq<Group>, i: nat, hasVerb: bool)
    requires AllValuesNonEmpty(groups) && i < |groups|
    ensures AllValuesNonEmpty(groups[..i]) && AllValuesNonEmpty(groups[..i + 1])
    ensures OptionRun(indexes, shortNames, longNames, groups[..i + 1], hasVerb)
      == OptionRun(indexes, shortNames, longNames, groups[..i], hasVerb) + EntryActions(indexes, shortNames, longNames, groups[i], hasVerb)
  {
    PrefixValuesNonEmpty(groups, i);
    PrefixValuesNonEmpty(groups, i + 1);
    assert groups[..i + 1][..i] == groups[..i];
  }

  /** A parser with no handler registered invokes nothing, whatever the command line. */
  lemma {:induction false} OptionRunWithoutHandlers(groups: seq<Group>, hasVerb: bool)
    requires AllValuesNonEmpty(groups)
    ensures OptionRun(map[], map[], map[], groups, hasVerb) == []
  {
    if groups != [] {
      var n := |groups| - 1;
      PrefixValuesNonEmpty(groups, n);
      OptionRunWithoutHandlers(groups[..n], hasVerb);
      var c := GroupCall(groups[n], hasVerb, true);
      if c.Some? && c.value.Positional? {
        PositionalCallsNoneWithoutIndexes(c.value.values.items);
      }
    }
  }

  /** With a verb, the leading positional value is the verb and never reaches an index handler: the handlers see the values after it. */
  lemma VerbSkippedByIndexHandlers(indexes: map<int, nat>, shortNames: map<(ActionKind, char), nat>, longNames: map<(ActionKind, string), nat>, verb: string, rest: seq<string>)
    ensures OptionRun(indexes, shortNames, longNames, [Entry("", Some([verb] + rest))], true) == PositionalCalls(indexes, rest)
  {
    var groups := [Entry("", Some([verb] + rest))];
    assert groups[..0] == [];
    assert ([verb] + rest)[1..] == rest;
  }

  /** The effect of one entry on a `RuntimeOptionParser`'s instance. */
  function MutableEntry(convert: Converter, props: seq<PropertyInfo>, names: map<Name, nat>, slots: SlotList, written: map<nat, Value>, g: Group, hasVerb: bool): (r: (Outcome, map<nat, Value>))
    requires ValuesNonEmpty(g) && PropertiesInRange(slots, names, |props|)
  {
    match GroupCall(g, hasVerb, true)
    case None => (Pass, written)
    case Some(c) => MutableEffect(convert, props, names, slots, written, c)
  }

  /** What a `RuntimeOptionParser` does with the entries: each in turn, the first failure ending the run with the instance as it then is. */
  function MutableRun(convert: Converter, props: seq<PropertyInfo>, names: map<Name, nat>, slots: SlotList, written: map<nat, Value>, groups: seq<Group>, hasVerb: bool): (r: (Outcome, map<nat, Value>))
    requires AllValuesNonEmpty(groups) && PropertiesInRange(slots, names, |props|)
  {
    if groups == [] then (Pass, written)
    else
      var n := |groups| - 1;
      PrefixValuesNonEmpty(groups, n);
      var before := MutableRun(convert, props, names, slots, written, groups[..n], hasVerb);
      if before.0.Fail? then before else MutableEntry(convert, props, names, slots, before.1, groups[n], hasVerb)
  }

  lemma MutableRunSnoc(convert: Converter, props: seq<PropertyInfo>, names: map<Name, nat>, slots: SlotList, written: map<nat, Value>, groups: seq<Group>, i: nat, hasVerb: bool)
    requires AllValuesNonEmpty(groups) && PropertiesInRange(slots, names, |props|) && i < |groups|
    ensures AllValuesNonEmpty(groups[..i]) && AllValuesNonEmpty(groups[..i + 1])
    ensures var before := MutableRun(convert, props, names, slots, written, groups[..i], hasVerb);
      MutableRun(convert, props, names, slots, written, groups[..i + 1], hasVerb)
      == if before.0.Fail? then before else MutableEntry(convert, props, names, slots, before.1, groups[i], hasVerb)
  {
    PrefixValuesNonEmpty(groups, i);
    PrefixValuesNonEmpty(groups, i + 1);
    assert groups[..i + 1][..i] == groups[..i];
  }

  lemma {:induction false} MutableRunStops(convert: Converter, props: seq<PropertyInfo>, names: map<Name, nat>, slots: SlotList, written: map<nat, Value>, groups: seq<Group>, i: nat, hasVerb: bool)
    requires AllValuesNonEmpty(groups) && PropertiesInRange(slots, names, |props|) && i <= |groups|
    requires AllValuesNonEmpty(groups[..i]) && MutableRun(convert, props, names, slots, written, groups[..i], hasVerb).0.Fail?
    ensures MutableRun(convert, props, names, slots, written, groups, hasVerb) == MutableRun(convert, props, names, slots, written, groups[..i], hasVerb)
    decreases |groups| - i
  {
    if i < |groups| {
      MutableRunSnoc(convert, props, names, slots, written, groups, i, hasVerb);
      MutableRunStops(convert, props, names, slots, written, groups, i + 1, hasVerb);
    } else {
      assert groups[..i] == groups;
    }
  }

  /** Entries naming no registered property leave the mutable instance untouched. */
  lemma {:induction false} MutableIgnoresUnknownNames(props: seq<PropertyInfo>, names: map<Name, nat>, slots: SlotList, written: map<nat, Value>, groups: seq<Group>, hasVerb: bool)
    requires AllValuesNonEmpty(groups) && PropertiesInRange(slots, names, |props|)
    requires forall i :: 0 <= i < |groups| ==> groups[i].key != ""
    requires forall i :: 0 <= i < |groups| ==> ShortName(groups[i].key[0]) !in names && LongName(groups[i].key) !in names
    ensures MutableRun(ToAssignableValue, props, names, slots, written, groups, hasVerb) == (Pass, written)
  {
    if groups != [] {
      var n := |groups| - 1;
      PrefixValuesNonEmpty(groups, n);
      assert forall i :: 0 <= i < n ==> groups[..n][i] == groups[i];
      MutableIgnoresUnknownNames(props, names, slots, written, groups[..n], hasVerb);
      UnknownNameIgnored(props, names, slots, written, GroupCall(groups[n], hasVerb, true).value);
    }
  }

  /** The effect of one entry on an `ImmutableRuntimeOptionParser`'s buffer. */
  function ImmutableEntry(convert: Converter, props: seq<PropertyInfo>, names: map<Name, nat>, slots: SlotList, buffer: Buffer, g: Group, hasVerb: bool): (r: (Outcome, Buffer))
    requires ValuesNonEmpty(g) && PropertiesInRange(slots, names, |props|) && |buffer| == |props|
    ensures |r.1| == |buffer|
  {
    match GroupCall(g, hasVerb, true)
    case None => (Pass, buffer)
    case Some(c) => ImmutableEffect(convert, props, names, slots, buffer, c)
  }

  /** What an `ImmutableRuntimeOptionParser` does with the entries: each in turn on the buffer, the first failure ending the run. */
  function ImmutableRun(convert: Converter, props: seq<PropertyInfo>, names: map<Name, nat>, slots: SlotList, buffer: Buffer, groups: seq<Group>, hasVerb: bool): (r: (Outcome, Buffer))
    requires AllValuesNonEmpty(groups) && PropertiesInRange(slots, names, |props|) && |buffer| == |props|
    ensures |r.1| == |buffer|
  {
    if groups == [] then (Pass, buffer)
    else
      var n := |groups| - 1;
      PrefixValuesNonEmpty(groups, n);
      var before := ImmutableRun(convert, props, names, slots, buffer, groups[..n], hasVerb);
      if before.0.Fail? then before else ImmutableEntry(convert, props, names, slots, before.1, groups[n], hasVerb)
  }

  lemma ImmutableRunSnoc(convert: Converter, props: seq<PropertyInfo>, names: map<Name, nat>, slots: SlotList, buffer: Buffer, groups: seq<Group>, i: nat, hasVerb: bool)
    requires AllValuesNonEmpty(groups) && PropertiesInRange(slots, names, |props|) && |buffer| == |props| && i < |groups|
    ensures AllValuesNonEmpty(groups[..i]) && AllValuesNonEmpty(groups[..i + 1])
    ensures var before := ImmutableRun(convert, props, names, slots, buffer, groups[..i], hasVerb);
      ImmutableRun(convert, props, names, slots, buffer, groups[..i + 1], hasVerb)
      == if before.0.Fail? then before else ImmutableEntry(convert, props, names, slots, before.1, groups[i], hasVerb)
  {
    PrefixValuesNonEmpty(groups, i);
    PrefixValuesNonEmpty(groups, i + 1);
    assert groups[..i + 1][..i] == groups[..i];
  }

  lemma {:induction false} ImmutableRunStops(convert: Converter, props: seq<PropertyInfo>, names: map<Name, nat>, slots: SlotList, buffer: Buffer, groups: seq<Group>, i: nat, hasVerb: bool)
    requires AllValuesNonEmpty(groups) && PropertiesInRange(slots, names, |props|) && |buffer| == |props| && i <= |groups|
    requires AllValuesNonEmpty(groups[..i]) && ImmutableRun(convert, props, names, slots, buffer, groups[..i], hasVerb).0.Fail?
    ensures ImmutableRun(convert, props, names, slots, buffer, groups, hasVerb) == ImmutableRun(convert, props, names, slots, buffer, groups[..i], hasVerb)
    decreases |groups| - i
  {
    if i < |groups| {
      ImmutableRunSnoc(convert, props, names, slots, buffer, groups, i, hasVerb);
      ImmutableRunStops(convert, props, names, slots, buffer, groups, i + 1, hasVerb);
    } else {
      assert groups[..i] == groups;
    }
  }

  /** Unlike the mutable parser, the immutable one rejects a leading entry whose name no property registered, and writes nothing. */
  lemma ImmutableRejectsUnknownName(convert: Converter, props: seq<PropertyInfo>, names: map<Name, nat>, slots: SlotList, buffer: Buffer, groups: seq<Group>, hasVerb: bool)
    requires AllValuesNonEmpty(groups) && PropertiesInRange(slots, names, |props|) && |buffer| == |props|
    requires groups != [] && groups[0].key != ""
    requires ShortName(groups[0].key[0]) !in names && LongName(groups[0].key) !in names
    ensures ImmutableRun(convert, props, names, slots, buffer, groups, hasVerb) == (Fail(KeyNotFound), buffer)
  {
    ImmutableRunSnoc(convert, props, names, slots, buffer, groups, 0, hasVerb);
    assert groups[..0] == [];
    NamedCallWritesOneSlot(convert, props, names, slots, buffer, GroupCall(groups[0], hasVerb, true).value);
    ImmutableRunStops(convert, props, names, slots, buffer, groups, 1, hasVerb);
  }

  lemma AppendStep<T>(start: seq<T>, prev: seq<T>, now: seq<T>, done: seq<T>, step: seq<T>)
    requires prev == start + done && now == prev + step
    ensures now == start + (done + step)
  {
  }

  /** One entry of `As` on a `CommandLineOptionParser`: its raw call, if it has one. */
  method FeedOptionParser(parser: CommandLineOptionParser, g: Group, hasVerb: bool)
    requires ValuesNonEmpty(g)
    modifies parser
    ensures parser.calls == old(parser.calls) + EntryActions(parser.indexes, parser.shortNames, parser.longNames, g, hasVerb)
    ensures parser.indexes == old(parser.indexes) && parser.shortNames == old(parser.shortNames) && parser.longNames == old(parser.longNames)
    ensures parser.verb == old(parser.verb) && parser.commit == old(parser.commit)
  {
    var call := GroupCall(g, hasVerb, true);
    if call.Some? {
      parser.Perform(call.value);
    } else {
      assert parser.calls == parser.calls + [];
    }
  }

  /** One entry of `As` on a `RuntimeOptionParser`: its raw call, if it has one. */
  method FeedMutable(parser: RuntimeOptionParser, g: Group, hasVerb: bool) returns (r: Outcome)
    requires ValuesNonEmpty(g) && parser.Valid()
    modifies parser.options
    ensures (r, parser.options.values) == MutableEntry(parser.convert, parser.properties, parser.names, parser.slots, old(parser.options.values), g, hasVerb)
  {
    var call := GroupCall(g, hasVerb, true);
    if call.Some? {
      r := parser.Perform(call.value);
    } else {
      r := Pass;
    }
  }

  /** One entry of `As` on an `ImmutableRuntimeOptionParser`: its raw call, if it has one. */
  method FeedImmutable(parser: ImmutableRuntimeOptionParser, g: Group, hasVerb: bool) returns (r: Outcome)
    requires ValuesNonEmpty(g) && parser.Valid()
    modifies parser.values
    ensures (r, parser.values[..]) == ImmutableEntry(parser.convert, parser.properties, parser.names, parser.slots, old(parser.values[..]), g, hasVerb)
  {
    var call := GroupCall(g, hasVerb, true);
    if call.Some? {
      r := parser.Perform(call.value);
    } else {
      r := Pass;
    }
  }

  // ---------------------------------------------------------------- ToDictionary

  /** The text of one entry in `ToDictionary`: empty for a switch, the values joined by single spaces otherwise. */
  function DictionaryText(values: Option<seq<string>>): (r: string)
    ensures values.None? ==> r == ""
  {
    if values.None? then "" else Join(" ", values.value)
  }

  /** Values without spaces can be read back from their dictionary text. */
  lemma DictionaryTextReadsBack(values: seq<string>)
    requires |values| >= 1 && forall k :: 0 <= k < |values| ==> ' ' !in values[k]
    ensures Split(DictionaryText(Some(values)), ' ') == values
  {
    SplitOfJoin(values, ' ');
  }

  function DictionaryPairs(groups: seq<Group>): (r: seq<(string, string)>)
    ensures |r| == |groups|
    ensures forall i :: 0 <= i < |groups| ==> r[i] == (groups[i].key, DictionaryText(groups[i].value))
  {
    seq(|groups|, i requires 0 <= i < |groups| => (groups[i].key, DictionaryText(groups[i].value)))
  }

  lemma DistinctPairKeys(groups: seq<Group>)
    ensures DistinctKeysIgnoreCase(DictionaryPairs(groups))
      <==> forall i, j :: 0 <= i < j < |groups| ==> !EqualsIgnoreCase(groups[i].key, groups[j].key)
  {
    var pairs := DictionaryPairs(groups);
    assert forall i :: 0 <= i < |groups| ==> pairs[i].0 == groups[i].key;
  }

  // ---------------------------------------------------------------- the command line

  /**
   * A registered filter: its type, the factory that creates it, and the
   * outcome of the `commandLine.As(parser)` call that factory makes, which
   * fails when the filter's options cannot be bound.
   */
  datatype FilterMatch = FilterMatch(filterType: TypeId, creator: nat, creation: Outcome)

  class CommandLine {
    /** The normalised entries, fixed once `Parse` has built them. */
    const groups: seq<Group>
    /** The filters and verb handlers registered so far, in registration order. */
    var filters: seq<FilterMatch>
    var matchers: seq<Matcher>

    constructor (groups: seq<Group>)
      requires AllValuesNonEmpty(groups)
      ensures this.groups == groups && filters == [] && matchers == []
    {
      this.groups := groups;
      filters := [];
      matchers := [];
    }

    /** `Parse(args, protocolName)`: the pipeline run on the real tokenizer and normaliser, each step's failure ending it. */
    static method Parse(args: Option<seq<string>>, protocol: Option<string>) returns (r: Result<CommandLine>)
      ensures match ParseGroups(args, protocol)
        case Failure(e) => r == Failure(e)
        case Success(gs) => r.Success? && fresh(r.value) && r.value.groups == gs && r.value.filters == [] && r.value.matchers == []
    {
      if args.None? || args.value == [] {
        var empty := new CommandLine([]);
        return Success(empty);
      }
      var a := args.value;
      if IsUrlInvocation(protocol, a) {
        var converted := ConvertUrlToArgs(a[0]);
        if converted.Failure? {
          return Failure(converted.error);
        }
        a := converted.value;
      }
      var prefix := AutoFindPrefix(a);
      if prefix.Failure? {
        return Failure(prefix.error);
      }
      var stateMachine := new CommandLineStateMachine(a, prefix.value);
      var parsedArgs := stateMachine.Run();
      var normalized := NormalizeParsedArgs(parsedArgs, prefix.value);
      if normalized.Fail? {
        return Failure(normalized.error);
      }
      NormalizedValuesNonEmpty(a, prefix.value);
      var commandLine := new CommandLine(parsedArgs.Items());
      r := Success(commandLine);
    }

    /** `AddMatch(filterCreator)`. */
    method AddFilter(f: FilterMatch)
      modifies this
      ensures filters == old(filters) + [f] && matchers == old(matchers)
    {
      filters := filters + [f];
    }

    /** `AddMatch<TVerb>(matcher)`. */
    method AddVerb(m: Matcher)
      modifies this
      ensures matchers == old(matchers) + [m] && filters == old(filters)
    {
      matchers := matchers + [m];
    }

    /**
     * `ToDictionary()`: every entry's key with its text, keys compared
     * ignoring case; two keys equal in that sense throw.
     */
    function ToDictionary(): (r: Result<seq<(string, string)>>)
      ensures r.Success? <==> forall i, j :: 0 <= i < j < |groups| ==> !EqualsIgnoreCase(groups[i].key, groups[j].key)
      ensures r.Failure? ==> r.error == Argument(DuplicateKey)
      ensures r.Success? ==>
        |r.value| == |groups| && forall i :: 0 <= i < |groups| ==> r.value[i] == (groups[i].key, DictionaryText(groups[i].value))
    {
      DistinctPairKeys(groups);
      ToDictionaryIgnoreCase(DictionaryPairs(groups))
    }

    /** `As(parser)` on a `CommandLineOptionParser`: a null parser throws; otherwise every entry's raw call, then `Commit`. */
    method AsOptionParser(parser: CommandLineOptionParser?) returns (r: Result<nat>)
      requires AllValuesNonEmpty(groups)
      modifies parser
      ensures parser == null ==> r == Failure(ArgumentNull)
      ensures parser != null ==>
        parser.indexes == old(parser.indexes) && parser.shortNames == old(parser.shortNames) && parser.longNames == old(parser.longNames)
        && parser.verb == old(parser.verb) && parser.commit == old(parser.commit)
      ensures parser != null ==>
        var run := OptionRun(parser.indexes, parser.shortNames, parser.longNames, groups, parser.verb.Some?);
        (parser.commit.None? ==> r == Failure(InvalidOperation) && parser.calls == old(parser.calls) + run)
        && (parser.commit.Some? ==> r == Success(parser.commit.value) && parser.calls == old(parser.calls) + run + [CommitCall(parser.commit.value)])
    {
      if parser == null {
        return Failure(ArgumentNull);
      }
      var hasVerb := parser.verb.Some?;
      var i := 0;
      while i < |groups|
        invariant 0 <= i <= |groups|
        invariant parser.indexes == old(parser.indexes) && parser.shortNames == old(parser.shortNames) && parser.longNames == old(parser.longNames)
        invariant parser.verb == old(parser.verb) && parser.commit == old(parser.commit)
        invariant AllValuesNonEmpty(groups[..i])
        invariant parser.calls == old(parser.calls) + OptionRun(parser.indexes, parser.shortNames, parser.longNames, groups[..i], hasVerb)
      {
        OptionRunSnoc(parser.indexes, parser.shortNames, parser.longNames, groups, i, hasVerb);
        ghost var prev := parser.calls;
        FeedOptionParser(parser, groups[i], hasVerb);
        AppendStep(old(parser.calls), prev, parser.calls,
          OptionRun(parser.indexes, parser.shortNames, parser.longNames, groups[..i], hasVerb),
          EntryActions(parser.indexes, parser.shortNames, parser.longNames, groups[i], hasVerb));
        i := i + 1;
      }
      assert groups[..|groups|] == groups;
      r := parser.Commit();
    }

    /** `As(parser)` on a `RuntimeOptionParser`: a null parser throws; otherwise each entry's raw call until one throws, then `Commit`. */
    method AsMutable(parser: RuntimeOptionParser?) returns (r: Result<OptionsInstance>)
      requires AllValuesNonEmpty(groups)
      requires parser != null ==> parser.Valid()
      modifies if parser == null then {} else {parser.options}
      ensures parser == null ==> r == Failure(ArgumentNull)
      ensures parser != null ==>
        var run := MutableRun(parser.convert, parser.properties, parser.names, parser.slots, old(parser.options.values), groups, parser.verb.Some?);
        parser.options.values == run.1
        && (run.0.Fail? ==> r == Failure(run.0.error))
        && (run.0.Pass? ==> r == Success(parser.options))
    {
      if parser == null {
        return Failure(ArgumentNull);
      }
      var hasVerb := parser.verb.Some?;
      ghost var start := parser.options.values;
      var i := 0;
      while i < |groups|
        invariant 0 <= i <= |groups|
        invariant AllValuesNonEmpty(groups[..i])
        invariant (Pass, parser.options.values) == MutableRun(parser.convert, parser.properties, parser.names, parser.slots, start, groups[..i], hasVerb)
      {
        MutableRunSnoc(parser.convert, parser.properties, parser.names, parser.slots, start, groups, i, hasVerb);
        var done := FeedMutable(parser, groups[i], hasVerb);
        if done.Fail? {
          MutableRunStops(parser.convert, parser.properties, parser.names, parser.slots, start, groups, i + 1, hasVerb);
          return Failure(done.error);
        }
        i := i + 1;
      }
      assert groups[..|groups|] == groups;
      var instance := parser.Commit();
      r := Success(instance);
    }

    /** `As(parser)` on an `ImmutableRuntimeOptionParser`: a null parser throws; otherwise each entry's raw call until one throws, then the buffer goes to the constructor. */
    method AsImmutable(parser: ImmutableRuntimeOptionParser?) returns (r: Result<seq<Option<Value>>>)
      requires AllValuesNonEmpty(groups)
      requires parser != null ==> parser.Valid()
      modifies if parser == null then {} else {parser.values}
      ensures parser == null ==> r == Failure(ArgumentNull)
      ensures parser != null ==>
        var run := ImmutableRun(parser.convert, parser.properties, parser.names, parser.slots, old(parser.values[..]), groups, parser.verb.Some?);
        parser.values[..] == run.1
        && (run.0.Fail? ==> r == Failure(run.0.error))
        && (run.0.Pass? ==> r == Success(parser.values[..]))
    {
      if parser == null {
        return Failure(ArgumentNull);
      }
      var hasVerb := parser.verb.Some?;
      ghost var start := parser.values[..];
      var i := 0;
      while i < |groups|
        invariant 0 <= i <= |groups|
        invariant parser.Valid()
        invariant AllValuesNonEmpty(groups[..i])
        invariant (Pass, parser.values[..]) == ImmutableRun(parser.convert, parser.properties, parser.names, parser.slots, start, groups[..i], hasVerb)
      {
        ImmutableRunSnoc(parser.convert, parser.properties, parser.names, parser.slots, start, groups, i, hasVerb);
        var done := FeedImmutable(parser, groups[i], hasVerb);
        if done.Fail? {
          ImmutableRunStops(parser.convert, parser.properties, parser.names, parser.slots, start, groups, i + 1, hasVerb);
          return Failure(done.error);
        }
        i := i + 1;
      }
      assert groups[..|groups|] == groups;
      var arguments := parser.Commit();
      r := Success(arguments);
    }
  }
}
