# dotnetCampus.CommandLine: a verified model of the parsing and dispatch core

dotnetCampus.CommandLine is a .NET command-line engine. It works in four stages:

- It turns `string[] args` into an ordered list of (option, values) groups.
- It normalises the option keys. Three spellings are accepted: `-Pascal`, `--kebab` and `/Windows`.
- It binds the groups onto an options object. The object is either a hand-written `CommandLineOptionParser<T>` or one of two reflection-driven runtime parsers.
- It dispatches to exactly one registered verb handler, and that dispatch runs inside a pipeline of pre- and post-filters.

This project models that core in Dafny and proves what the code promises.

Files and modules follow the source, one module per source component:

- `optimized_list.dfy`: `SingleOptimizedList`.
- `list_group.dfy`: `ListGroup`.
- `tokenizer.dfy`: `CommandLineStateMachine`.
- `url_args.dfy`, `key_normalizer.dfy` and `command_line.dfy`: the parts of `CommandLine`.
- `naming_helper.dfy`: `NamingHelper`.
- `option_parser.dfy`: `CommandLineOptionParser`.
- `coercion.dfy`: `ToAssignableValue`.
- `registration.dfy`, `runtime_parser.dfy`, `immutable_parser.dfy` and `parser_factory.dfy`: the runtime parsers.
- `match_result.dfy`, `helpers.dfy` and `verb_router.dfy`: verb matching.
- `filter_context.dfy`: `CommandLineFilterContext`.
- `runner.dfy`: `CommandLineRunner`.
- `attributes.dfy`: the three attribute classes.
- Support modules:
  - `wrappers.dfy`: `Option`, `Result`, `Outcome` and exception kinds;
  - `dotnet.dfy`: the parts of `string`, `bool.TryParse` and integer `TryParse` that the code relies on;
  - `reflection.dfy`: properties and attributes as plain records;
  - `parser_interface.dfy`: the setter calls `As` makes.

How the model is built:

- Code that mutates state is modelled imperatively.
  - The list containers, the state machine, the option parsers, the filter context and `CommandLine` are Dafny classes.
  - Their methods are proved against specification functions, for example `Tokenize`, `PositionalCalls`, `MutableWalk`, `CorrectedWalk`, `OptionRun` and `RunSpec`.
  - What the source promises is then proved about those functions.
- Exceptions become `Result`/`Outcome` values that carry the exception kind.
- Handlers and filters are opaque ids.
- A matched result carries the delegate `() => handler(commandLine.As(parser))` as a `Delegate`: the outcome of binding the options, then the handler. A filter registration carries the outcome of the `As` call its factory makes.
- The effects of a hand-written parser are recorded as a log of action calls.

## Model

| member | source | states |
|---|---|---|
| OptimizedList.SingleOptimizedList.constructor | src/dotnetCampus.CommandLine/Core/SingleOptimizedList.cs:25-28 | a new list holds exactly its first value: `Count() == 1` and `Items() == [firstValue]` |
| OptimizedList.SingleOptimizedList.Items | src/dotnetCampus.CommandLine/Core/SingleOptimizedList.cs:54-65 | enumeration yields the first value, then the added values; it is never empty |
| OptimizedList.SingleOptimizedList.Add | src/dotnetCampus.CommandLine/Core/SingleOptimizedList.cs:34-52 | null throws `ArgumentNullException` and changes nothing; otherwise the value is appended at the end, Count grows by one and earlier items are kept; the overflow list is null or non-empty (`Valid`) |
| OptimizedList.SingleOptimizedList.Count | src/dotnetCampus.CommandLine/Core/SingleOptimizedList.cs:72 | Count is at least 1 and equals the number of enumerated items |
| OptimizedList.SingleOptimizedList.At | src/dotnetCampus.CommandLine/Core/SingleOptimizedList.cs:77 | the indexer succeeds exactly for `0 <= index < Count` and returns the enumerated item there; out of range it fails with NullReference (no overflow list) or ArgumentOutOfRange |
| OptimizedList.ElementAt | src/dotnetCampus.CommandLine/Core/SingleOptimizedList.cs:77 | the indexer's meaning on the item sequence, including which exception an out-of-range index raises |
| Groups.ListGroup.constructor | src/dotnetCampus.CommandLine/Core/ListGroup.cs:18-23 | a new group is empty and keys and values have equal length |
| Groups.ListGroup.Items | src/dotnetCampus.CommandLine/Core/ListGroup.cs:80-86 | item i pairs key i with value i |
| Groups.ListGroup.Add | src/dotnetCampus.CommandLine/Core/ListGroup.cs:30-39 | a null key throws and adds nothing; otherwise (key, value) is appended, a null value included, and the two lists stay the same length |
| Groups.ListGroup.ReplaceKey | src/dotnetCampus.CommandLine/Core/ListGroup.cs:46-54 | only key `index` changes; all values and the count are kept; a null key throws, and so does an index out of range, both leaving the keys unchanged |
| Groups.ListGroup.ForIndexes | src/dotnetCampus.CommandLine/Core/ListGroup.cs:59-75 | yields `(i, key_i)` for every i in order |
| Groups.ListGroup.ForOptions | src/dotnetCampus.CommandLine/Core/ListGroup.cs:64-86 | yields `(key_i, value_i)` in insertion order |
| Tokenizer.SplitInlineValue | src/dotnetCampus.CommandLine/StateMachine/CommandLineStateMachine.cs:149-161 | an option splits into key and inline value exactly when its first `:` is not its last character; the parts rebuild the option, and otherwise the whole argument is the key |
| Tokenizer.SectionEndIsDashDash | src/dotnetCampus.CommandLine/StateMachine/CommandLineStateMachine.cs:94 | the section terminator is exactly `--`, and only with the `-` prefix |
| Tokenizer.NotEndedBeforeTerminator | src/dotnetCampus.CommandLine/StateMachine/CommandLineStateMachine.cs:82-99 | under the `-` prefix, arguments that contain no `--` never close the option section |
| Tokenizer.ValuesAfterEnd | src/dotnetCampus.CommandLine/StateMachine/CommandLineStateMachine.cs:82-86 | once the section is closed, every later argument (prefixed ones included) is appended to the pending values |
| Tokenizer.TokenizeAfterSectionEnd | src/dotnetCampus.CommandLine/StateMachine/CommandLineStateMachine.cs:82-99 | `pre -- post` gives pre's groups followed by one bare-value group holding all of post (nothing when post is empty) |
| Tokenizer.TokenizeOptionsOnly | src/dotnetCampus.CommandLine/StateMachine/CommandLineStateMachine.cs:103-137 | arguments that are all prefixed, colon-free and not `--` give one value-less group each, in order |
| Tokenizer.TokenizeInlineValue | src/dotnetCampus.CommandLine/StateMachine/CommandLineStateMachine.cs:149-161 | `-k:v` gives the single group (k, [v]) |
| Tokenizer.EmittedOnlyGrows | src/dotnetCampus.CommandLine/StateMachine/CommandLineStateMachine.cs:80-115 | groups are emitted in argument order: the groups emitted after a prefix of the arguments are a prefix of those emitted later |
| Tokenizer.TokenizeProvenance | src/dotnetCampus.CommandLine/StateMachine/CommandLineStateMachine.cs:66-160 | every emitted group has a non-empty key or a non-empty value list; its key is a prefix of some argument and each value is an argument or a tail of one |
| Tokenizer.CommandLineStateMachine.constructor | src/dotnetCampus.CommandLine/StateMachine/CommandLineStateMachine.cs:51-62 | stores the arguments and the prefix; no option is pending and the section is open |
| Tokenizer.CommandLineStateMachine.Create | src/dotnetCampus.CommandLine/StateMachine/CommandLineStateMachine.cs:51-62 | null arguments throw `ArgumentNullException`; a prefix other than `-` or `/` throws `NotSupportedException`; it succeeds exactly otherwise |
| Tokenizer.CommandLineStateMachine.Run | src/dotnetCampus.CommandLine/StateMachine/CommandLineStateMachine.cs:69-138 | the groups produced are exactly `Tokenize(args, prefix)`, and all run state is reset afterwards, including the section flag, so running again is allowed and gives the same groups |
| Tokenizer.CommandLineStateMachine.FeedAll | src/dotnetCampus.CommandLine/StateMachine/CommandLineStateMachine.cs:80-113 | the argument loop leaves the machine in the state of the step function folded over all arguments |
| Tokenizer.CommandLineStateMachine.Feed | src/dotnetCampus.CommandLine/StateMachine/CommandLineStateMachine.cs:82-112 | one argument moves the machine through one transition of the step function |
| Tokenizer.CommandLineStateMachine.SetOption | src/dotnetCampus.CommandLine/StateMachine/CommandLineStateMachine.cs:140-162 | null clears the pending option and values; otherwise they become the `SplitInlineValue` of the option |
| Tokenizer.CommandLineStateMachine.AppendValueTo | src/dotnetCampus.CommandLine/StateMachine/CommandLineStateMachine.cs:164-174 | appends to the pending values, creating the list when absent |
| Tokenizer.CommandLineStateMachine.Commit | src/dotnetCampus.CommandLine/StateMachine/CommandLineStateMachine.cs:127-179 | emits the pending group under the emission rule (values present, or a non-empty key) |
| UrlArgs.Capitalize | src/dotnetCampus.CommandLine/CommandLine.cs:356-366 | same length; the first character upper-cased, the rest unchanged |
| UrlArgs.FormatShellLongName | src/dotnetCampus.CommandLine/CommandLine.cs:356-366 | `-` followed by the name with its first character upper-cased; an empty name throws IndexOutOfRange |
| UrlArgs.UrlPair | src/dotnetCampus.CommandLine/CommandLine.cs:290-302 | a piece succeeds exactly when it has an `=` after a non-empty key; the result is `[-Key, part1]`, where part1 is the text up to the next `=` |
| UrlArgs.UrlPairs | src/dotnetCampus.CommandLine/CommandLine.cs:290-304 | the pieces' pairs are flattened in order; it succeeds exactly when every piece is well formed; each piece contributes two arguments |
| UrlArgs.ConvertUrlToArgs | src/dotnetCampus.CommandLine/CommandLine.cs:284-305 | a URL without `?` gives no arguments; otherwise it succeeds exactly when every non-empty `&`-piece has a key before its `=`, with two arguments per piece; the only failure is IndexOutOfRange |
| UrlArgs.UrlRoundTrip | src/dotnetCampus.CommandLine/CommandLine.cs:284-305 | a URL `base?k1=v1&k2=v2...` written from separator-free pairs converts to `-K1 v1 -K2 v2 ...` |
| UrlArgs.UrlExample | src/dotnetCampus.CommandLine/CommandLine.cs:284-305 | `walterlv://open/?cloud=true&mode=Display` becomes `-Cloud true -Mode Display` |
| UrlArgs.BarePieceFails | src/dotnetCampus.CommandLine/CommandLine.cs:290-302 | a query piece without `=` makes the conversion throw IndexOutOfRange |
| KeyNormalizer.FindPrefix | src/dotnetCampus.CommandLine/CommandLine.cs:415-432 | the chosen prefix is always `-` or `/`; the only failure is IndexOutOfRange |
| KeyNormalizer.FindPrefixIsFirst | src/dotnetCampus.CommandLine/CommandLine.cs:415-432 | scanning in order, the first argument that starts with `-` or `/` decides; an empty argument reached first throws; no such argument gives `-` |
| KeyNormalizer.AutoFindPrefix | src/dotnetCampus.CommandLine/CommandLine.cs:415-432 | the scan loop computes `FindPrefix` |
| KeyNormalizer.CoreLetters | src/dotnetCampus.CommandLine/CommandLine.cs:380-404 | the `FormatCoreLongName` letter pass never lengthens its input |
| KeyNormalizer.FormatCoreLongName | src/dotnetCampus.CommandLine/CommandLine.cs:374-408 | the builder loop computes `CoreLongName`: the first two characters are dropped, the remaining characters go through the letter pass |
| KeyNormalizer.CoreLettersDropPrefix | src/dotnetCampus.CommandLine/CommandLine.cs:388-392 | no prefix character survives in the result |
| KeyNormalizer.CoreLettersOfWord | src/dotnetCampus.CommandLine/CommandLine.cs:393-403 | a prefix-free word is copied, and capitalised when it starts a word |
| KeyNormalizer.CoreLettersAfterWord | src/dotnetCampus.CommandLine/CommandLine.cs:388-403 | a prefix character is a word boundary: the letters before and after it are handled independently |
| KeyNormalizer.KebabBecomesPascal | src/dotnetCampus.CommandLine/CommandLine.cs:374-408 | words joined by the prefix become the concatenation of the capitalised words |
| KeyNormalizer.NormalizeKey | src/dotnetCampus.CommandLine/CommandLine.cs:312-345 | a blank key is kept; a key fails exactly when it is not blank and is shorter than 2 or does not start with the prefix, and then `NotSupportedException` names it; a normalised key is shorter; `-x...` with a single prefix becomes `Substring(1)`, which covers the one-character short name `key[1]` |
| KeyNormalizer.NormalizeAll | src/dotnetCampus.CommandLine/CommandLine.cs:308-349 | normalising keeps the number of groups |
| KeyNormalizer.NormalizeAllKeepsValues | src/dotnetCampus.CommandLine/CommandLine.cs:310-341 | on success every value list is unchanged and every key is the `NormalizeKey` of the old key |
| KeyNormalizer.NormalizeAllFailsAtFirstBadKey | src/dotnetCampus.CommandLine/CommandLine.cs:310-347 | the first key that cannot be normalised is the one the exception names |
| KeyNormalizer.NormalizeAllSucceeds | src/dotnetCampus.CommandLine/CommandLine.cs:310-347 | normalisation succeeds when every key does |
| KeyNormalizer.NormalizeAllOfEach | src/dotnetCampus.CommandLine/CommandLine.cs:310-347 | a group list whose keys are the normalised keys, with values kept, is the result |
| KeyNormalizer.NormalizeParsedArgs | src/dotnetCampus.CommandLine/CommandLine.cs:308-349 | the in-place loop over `ReplaceKey` keeps every value and the count, and leaves the groups that `NormalizeAll` computes, or fails with its error |
| KeyNormalizer.PrefixedStylesAgree | src/dotnetCampus.CommandLine/CommandLine.cs:335-340 | `-Name` under the `-` prefix and `/Name` under the `/` prefix both become `Name` |
| KeyNormalizer.KebabKeyNormalizes | src/dotnetCampus.CommandLine/CommandLine.cs:330-408 | `--w1-w2-...` becomes the PascalCase concatenation of the words |
| KeyNormalizer.KebabStyleExample | src/dotnetCampus.CommandLine/CommandLine.cs:374-408 | `--startup-session` becomes `StartupSession` |
| KeyNormalizer.ThreeStylesAgree | src/dotnetCampus.CommandLine/CommandLine.cs:308-349 | `-StartupSession`, `/StartupSession` and `--startup-session` normalise alike |
| KeyNormalizer.ShellLongNameReadsBack | src/dotnetCampus.CommandLine/CommandLine.cs:296-366 | a key produced by the URL form normalises back to the capitalised name |
| CommandLines.ArgsToTokenize | src/dotnetCampus.CommandLine/CommandLine.cs:261-268 | the URL form applies exactly when the protocol is not blank and the first argument starts with `protocol://` (case-insensitively); then only that argument is converted |
| CommandLines.ParseGroups | src/dotnetCampus.CommandLine/CommandLine.cs:254-276 | null or no arguments give no groups; every group of a parse has a non-empty value list or none |
| CommandLines.NormalizedValuesNonEmpty | src/dotnetCampus.CommandLine/CommandLine.cs:270-275 | tokenising then normalising never produces an empty value list |
| CommandLines.ParseKeepsEveryValue | src/dotnetCampus.CommandLine/CommandLine.cs:254-276 | outside the URL form, `Parse` has one group per tokenised group, with the value lists unchanged and each key normalised |
| CommandLines.UrlDiscardsOtherArgs | src/dotnetCampus.CommandLine/CommandLine.cs:261-268 | in the URL form the arguments after the URL are ignored |
| CommandLines.UrlParsesAsShellArgs | src/dotnetCampus.CommandLine/CommandLine.cs:261-305 | a protocol URL parses exactly like its `-Key value` arguments |
| CommandLines.LoneOptionParses | src/dotnetCampus.CommandLine/CommandLine.cs:254-276 | a single option argument parses to one value-less group under its normalised key |
| CommandLines.WindowsAndCmdStylesParseAlike | src/dotnetCampus.CommandLine/CommandLine.cs:254-432 | `-Name` and `/Name` parse to the same group |
| CommandLines.LinuxStyleParsesAsPascal | src/dotnetCampus.CommandLine/CommandLine.cs:254-408 | `--w1-w2` parses to one group keyed by the PascalCase name |
| CommandLines.TypedArgument | src/dotnetCampus.CommandLine/CommandLine.cs:125-174 | for a non-raw parser: no values means `true`; one value is passed as a bool exactly when it parses as one and otherwise as the string; several values are passed as the list |
| CommandLines.GroupCall | src/dotnetCampus.CommandLine/CommandLine.cs:94-177 | an empty key without values calls nothing; an empty key with values is positional, minus the first value when the parser has a verb; a 1-character key goes to the short-name setter; longer keys go to the long-name setter; a raw parser receives the raw values |
| CommandLines.RawAgreesWithTyped | src/dotnetCampus.CommandLine/CommandLine.cs:119-143 | for a switch without values, the raw and typed routes call the same handler; so they do for one non-boolean value, when no bool handler is registered and either a string handler is registered or no list handler is |
| CommandLines.OptionRunWithoutHandlers | src/dotnetCampus.CommandLine/CommandLine.cs:94-177 | a parser with no registered handlers receives no calls from any command line |
| CommandLines.VerbSkippedByIndexHandlers | src/dotnetCampus.CommandLine/CommandLine.cs:103-113 | for a parser with a verb, the positional handlers see the values after the verb |
| CommandLines.MutableIgnoresUnknownNames | src/dotnetCampus.CommandLine/CommandLine.cs:94-177 | a mutable runtime parser given only unregistered names is left unchanged and does not fail |
| CommandLines.ImmutableRejectsUnknownName | src/dotnetCampus.CommandLine/CommandLine.cs:94-177 | an immutable parser given an unregistered name first throws KeyNotFound and keeps its buffer |
| CommandLines.MutableRunStops | src/dotnetCampus.CommandLine/CommandLine.cs:94-177 | after the first exception no further group is bound |
| CommandLines.ImmutableRunStops | src/dotnetCampus.CommandLine/CommandLine.cs:94-177 | after the first exception no further group is bound |
| CommandLines.ImmutableRun | src/dotnetCampus.CommandLine/CommandLine.cs:94-177 | binding never changes the buffer length |
| CommandLines.FeedOptionParser | src/dotnetCampus.CommandLine/CommandLine.cs:94-177 | one group appends exactly its handler calls and changes no table |
| CommandLines.FeedMutable | src/dotnetCampus.CommandLine/CommandLine.cs:94-177 | one group changes the options instance as the group's setter call specifies |
| CommandLines.FeedImmutable | src/dotnetCampus.CommandLine/CommandLine.cs:94-177 | one group changes the slot buffer as the group's setter call specifies |
| CommandLines.DictionaryTextReadsBack | src/dotnetCampus.CommandLine/CommandLine.cs:195-197 | the space-joined text of space-free values splits back into them |
| CommandLines.DictionaryPairs | src/dotnetCampus.CommandLine/CommandLine.cs:195-197 | one pair per group: the key and the space-joined values ("" for none) |
| CommandLines.CommandLine.constructor | src/dotnetCampus.CommandLine/CommandLine.cs:44-48 | holds the groups, with no filters and no verbs registered |
| CommandLines.CommandLine.Parse | src/dotnetCampus.CommandLine/CommandLine.cs:254-276 | a fresh command line over `ParseGroups`, or its error |
| CommandLines.CommandLine.AddFilter | src/dotnetCampus.CommandLine/CommandLine.cs:182-183 | appends to the filter list only |
| CommandLines.CommandLine.AddVerb | src/dotnetCampus.CommandLine/CommandLine.cs:185-186 | appends to the verb list only |
| CommandLines.CommandLine.ToDictionary | src/dotnetCampus.CommandLine/CommandLine.cs:195-197 | succeeds exactly when no two keys are equal ignoring case, and otherwise throws ArgumentException; on success it holds one entry per group, in order, with the space-joined values |
| CommandLines.CommandLine.AsOptionParser | src/dotnetCampus.CommandLine/CommandLine.cs:87-180 | a null parser throws; otherwise every group's handler calls are made in order, then `Commit`: without `SetResult` it throws InvalidOperation, and otherwise the commit function is called last and its result returned; the tables are unchanged |
| CommandLines.CommandLine.AsMutable | src/dotnetCampus.CommandLine/CommandLine.cs:87-180 | a null parser throws; otherwise the instance ends as the fold of the groups' setter effects; the first failure is returned; on success the same instance is returned |
| CommandLines.CommandLine.AsImmutable | src/dotnetCampus.CommandLine/CommandLine.cs:87-180 | a null parser throws; otherwise the buffer ends as the fold of the groups' setter effects; the first failure is returned; on success the whole buffer is passed to the constructor |
| NamingHelper.CheckIsPascalCase | src/dotnetCampus.CommandLine/Utils/NamingHelper.cs:16-42 | an empty value throws IndexOutOfRange; otherwise the result is true exactly for an upper-case first character, only letters and digits, and not all-capitals when three or more long |
| NamingHelper.MakePascalCase | src/dotnetCampus.CommandLine/Utils/NamingHelper.cs:44-104 | the builder loop computes `PascalState(oldName).out` |
| NamingHelper.PascalFlags | src/dotnetCampus.CommandLine/Utils/NamingHelper.cs:52-100 | the loop's `isFirstLetter` flag means "no letter yet" and `isWordStart` means "after a separator or a digit"; the output equals the independent per-character rule |
| NamingHelper.MakePascalCaseFollowsRule | src/dotnetCampus.CommandLine/Utils/NamingHelper.cs:59-100 | drop non-letters and digits before the first letter and separators; upper-case a letter that starts a word; keep the others |
| NamingHelper.MakePascalCaseShape | src/dotnetCampus.CommandLine/Utils/NamingHelper.cs:52-100 | never longer than the input; only letters and digits; starts upper-case; no lower-case letter after a digit |
| NamingHelper.MakePascalCaseIdempotent | src/dotnetCampus.CommandLine/Utils/NamingHelper.cs:44-104 | applying it twice gives the same as once |
| NamingHelper.MakePascalCasePassesCheck | src/dotnetCampus.CommandLine/Utils/NamingHelper.cs:16-104 | a non-empty result that is not an all-capitals word of three or more characters passes `CheckIsPascalCase` |
| NamingHelper.MakeKebabCase | src/dotnetCampus.CommandLine/Utils/NamingHelper.cs:106-172 | the builder loop computes `KebabState(oldName).out` |
| NamingHelper.KebabFlags | src/dotnetCampus.CommandLine/Utils/NamingHelper.cs:112-167 | the loop flags mean "no letter yet" and "after a separator or digit"; the output equals the per-character rule |
| NamingHelper.MakeKebabCaseFollowsRule | src/dotnetCampus.CommandLine/Utils/NamingHelper.cs:144-167 | `-` is emitted only before a letter that starts a word; letters are lower-cased |
| NamingHelper.MakeKebabCaseShape | src/dotnetCampus.CommandLine/Utils/NamingHelper.cs:112-167 | only lower-case letters, digits and `-`; starts with a letter, never ends with `-`, and every `-` sits between a non-hyphen and a lower-case letter |
| NamingHelper.KebabCaseChangeIsNoBoundary | src/dotnetCampus.CommandLine/Utils/NamingHelper.cs:144-167 | a change of case alone inserts no hyphen: `FooBar` gives `foobar` |
| NamingHelper.KebabSeparatorIsBoundary | src/dotnetCampus.CommandLine/Utils/NamingHelper.cs:144-167 | a separator becomes one hyphen: `foo_bar` gives `foo-bar` |
| NamingHelper.KebabDigitIsBoundary | src/dotnetCampus.CommandLine/Utils/NamingHelper.cs:144-167 | a digit ends a word: `Foo2Bar` gives `foo2-bar` |
| OptionParser.PositionalCalls | src/dotnetCampus.CommandLine/CommandLineOptionParser.cs:146-155 | at most one call per value |
| OptionParser.PositionalCallsExactly | src/dotnetCampus.CommandLine/CommandLineOptionParser.cs:146-155 | handler a is called with v exactly when some registered index i below Count has handler a and value v |
| OptionParser.PositionalCallsNoneWithoutIndexes | src/dotnetCampus.CommandLine/CommandLineOptionParser.cs:146-155 | with no index handlers, no positional calls are made |
| OptionParser.TypedCall | src/dotnetCampus.CommandLine/CommandLineOptionParser.cs:157-203 | a typed setter calls the handler of its argument's kind exactly when one is registered for the name |
| OptionParser.RawCall | src/dotnetCampus.CommandLine/CommandLineOptionParser.cs:205-235 | a registered bool handler is tried first; otherwise null values call nothing; otherwise a string handler is tried, then a list handler |
| OptionParser.RawSwitchWithoutValues | src/dotnetCampus.CommandLine/CommandLineOptionParser.cs:207-227 | a switch without values calls only a bool handler, with `true` |
| OptionParser.RawBoolOfNonBoolean | src/dotnetCampus.CommandLine/CommandLineOptionParser.cs:207-211 | a raw bool handler receives `false` for a non-boolean word, and `true` for `True` |
| OptionParser.RawStringValues | src/dotnetCampus.CommandLine/CommandLineOptionParser.cs:212-232 | a long-name string handler gets the single value or the space-joined list; a short-name string handler gets the first value |
| OptionParser.SetterCalls | src/dotnetCampus.CommandLine/CommandLineOptionParser.cs:146-235 | a named setter makes at most one call, a positional one at most one per value |
| OptionParser.CommandLineOptionParser.constructor | src/dotnetCampus.CommandLine/CommandLineOptionParser.cs:27-33 | all tables are empty, with no verb, no commit function and no calls |
| OptionParser.CommandLineOptionParser.AddIndexMatch | src/dotnetCampus.CommandLine/CommandLineOptionParser.cs:40-46 | a null action throws; otherwise the index entry is set, overwriting an earlier one; nothing else changes |
| OptionParser.CommandLineOptionParser.AddShortMatch | src/dotnetCampus.CommandLine/CommandLineOptionParser.cs:48-70 | a null action throws; otherwise the (kind, short name) entry is set, overwriting; nothing else changes |
| OptionParser.CommandLineOptionParser.AddLongMatch | src/dotnetCampus.CommandLine/CommandLineOptionParser.cs:72-94 | a null action or name throws; otherwise the (kind, long name) entry is set, overwriting; nothing else changes |
| OptionParser.CommandLineOptionParser.AddShortLongMatch | src/dotnetCampus.CommandLine/CommandLineOptionParser.cs:97-125 | installs the same action under the short and the long name; a null action throws |
| OptionParser.CommandLineOptionParser.SetResult | src/dotnetCampus.CommandLine/CommandLineOptionParser.cs:132-133 | a null commit function throws; otherwise it is stored |
| OptionParser.CommandLineOptionParser.SetVerb | src/dotnetCampus.CommandLine/CommandLineOptionParser.cs:138-142 | a null, empty or white-space verb is stored as null; any other is stored as given |
| OptionParser.CommandLineOptionParser.SetPositional | src/dotnetCampus.CommandLine/CommandLineOptionParser.cs:146-155 | the calls made are `PositionalCalls(indexes, values)` |
| OptionParser.CommandLineOptionParser.SetShort | src/dotnetCampus.CommandLine/CommandLineOptionParser.cs:157-179 | calls the registered handler of the argument's kind, or nothing |
| OptionParser.CommandLineOptionParser.SetLong | src/dotnetCampus.CommandLine/CommandLineOptionParser.cs:181-203 | calls the registered handler of the argument's kind, or nothing |
| OptionParser.CommandLineOptionParser.SetShortRaw | src/dotnetCampus.CommandLine/CommandLineOptionParser.cs:205-219 | makes the raw-priority call for a short name |
| OptionParser.CommandLineOptionParser.SetLongRaw | src/dotnetCampus.CommandLine/CommandLineOptionParser.cs:221-235 | makes the raw-priority call for a long name, joining several values for a string handler |
| OptionParser.CommandLineOptionParser.Perform | src/dotnetCampus.CommandLine/CommandLineOptionParser.cs:146-235 | one setter call makes exactly its specified calls and changes no table |
| OptionParser.CommandLineOptionParser.Commit | src/dotnetCampus.CommandLine/CommandLineOptionParser.cs:237-246 | without a commit function it throws InvalidOperation; otherwise it calls the function and returns its result |
| Coercion.FirstProbe | src/dotnetCampus.CommandLine/Utils/CommandLineAssigningExtensions.cs:33-114 | the conversion chosen is one the target type is assignable from |
| Coercion.FirstProbeFollowsOrder | src/dotnetCampus.CommandLine/Utils/CommandLineAssigningExtensions.cs:33-119 | the branch taken is the earliest probed type the property type is assignable from; no branch applies exactly when it is assignable from none |
| Coercion.BoolConversion | src/dotnetCampus.CommandLine/Utils/CommandLineAssigningExtensions.cs:21-28 | a bool target is false exactly when a first value parses as false; null is true |
| Coercion.StringConversion | src/dotnetCampus.CommandLine/Utils/CommandLineAssigningExtensions.cs:33-156 | a string target gets "" for null, the value for one, the values joined by single spaces for more |
| Coercion.ObjectTakesStringBranch | src/dotnetCampus.CommandLine/Utils/CommandLineAssigningExtensions.cs:33-36 | earlier branches win: an `object` target gets the merged string |
| Coercion.IntegerOf | src/dotnetCampus.CommandLine/Utils/CommandLineAssigningExtensions.cs:37-71 | an integral result always lies in the target type's range |
| Coercion.ConvertInteger | src/dotnetCampus.CommandLine/Utils/CommandLineAssigningExtensions.cs:37-71 | the result is an integer of the probed kind, within range |
| Coercion.IntegerConversion | src/dotnetCampus.CommandLine/Utils/CommandLineAssigningExtensions.cs:37-71 | an integral target gets the parsed in-range value, or 0 on failure |
| Coercion.Int32Conversion | src/dotnetCampus.CommandLine/Utils/CommandLineAssigningExtensions.cs:52-56 | an `int` written out reads back as itself |
| Coercion.Int32Fallback | src/dotnetCampus.CommandLine/Utils/CommandLineAssigningExtensions.cs:52-56 | unparsable text gives 0 |
| Coercion.Int64Conversion | src/dotnetCampus.CommandLine/Utils/CommandLineAssigningExtensions.cs:62-66 | a `long` written out reads back as itself |
| Coercion.FileConversion | src/dotnetCampus.CommandLine/Utils/CommandLineAssigningExtensions.cs:87-94 | a file target gets the merged text trimmed at both ends |
| Coercion.ListConversion | src/dotnetCampus.CommandLine/Utils/CommandLineAssigningExtensions.cs:95-106 | array and list-interface targets get the values in order; null values throw |
| Coercion.DictionaryConversion | src/dotnetCampus.CommandLine/Utils/CommandLineAssigningExtensions.cs:107-152 | a dictionary target succeeds exactly when the parsed keys are distinct ignoring case, and then holds the parsed pairs |
| Coercion.KeyValuePairConversion | src/dotnetCampus.CommandLine/Utils/CommandLineAssigningExtensions.cs:111-114 | a pair target gets the first parsed entry, or the default pair when there is none |
| Coercion.UnsupportedTypeRefused | src/dotnetCampus.CommandLine/Utils/CommandLineAssigningExtensions.cs:115-119 | any other type throws `NotSupportedException` |
| Coercion.EntryPairs | src/dotnetCampus.CommandLine/Utils/CommandLineAssigningExtensions.cs:148-152 | at most one pair per piece |
| Coercion.PieceEntries | src/dotnetCampus.CommandLine/Utils/CommandLineAssigningExtensions.cs:150-152 | a piece yields a pair only when it splits into exactly two parts, and the pair is those parts trimmed |
| Coercion.EntryPairsFromPieces | src/dotnetCampus.CommandLine/Utils/CommandLineAssigningExtensions.cs:148-152 | every parsed pair comes from some piece of the text |
| Coercion.PiecesGiveEntries | src/dotnetCampus.CommandLine/Utils/CommandLineAssigningExtensions.cs:148-152 | conversely, every piece with exactly two `=`-parts gives its trimmed pair |
| Coercion.MalformedPieceSkipped | src/dotnetCampus.CommandLine/Utils/CommandLineAssigningExtensions.cs:148-152 | a piece with no `=` or with several is filtered out, not an error: removing it changes no pair |
| Coercion.SingleEntryDictionary | src/dotnetCampus.CommandLine/Utils/CommandLineAssigningExtensions.cs:148-152 | `key=value` parses to the one trimmed pair |
| Coercion.SpacedEntryExample | src/dotnetCampus.CommandLine/Utils/CommandLineAssigningExtensions.cs:148-152 | `a = 1` parses to ("a", "1") |
| DotNet.ToDictionaryIgnoreCase | src/dotnetCampus.CommandLine/Utils/CommandLineAssigningExtensions.cs:152 | building a case-insensitive dictionary succeeds exactly when keys are distinct ignoring case, keeps the pairs in order, and otherwise throws ArgumentException |
| DotNet.BoolTryParseRoundTrip | src/dotnetCampus.CommandLine/CommandLine.cs:131-162 | `bool.TryParse` reads back `True`/`False`, also padded with white space |
| DotNet.Wrap32 | src/dotnetCampus.CommandLine/Parsers/RuntimeOptionParser.cs:49-67 | 32-bit wrap-around of the index arithmetic; the identity in range |
| ParserFactory.VerbOf | src/dotnetCampus.CommandLine/Parsers/RuntimeCommandLineOptionParser.cs:33-35 | the verb is the type's `VerbAttribute.VerbName`, or null |
| ParserFactory.AttributedProperties | src/dotnetCampus.CommandLine/Parsers/RuntimeCommandLineOptionParser.cs:37-39 | exactly the public instance properties with an Option or Value attribute |
| ParserFactory.SelectStrategy | src/dotnetCampus.CommandLine/Parsers/RuntimeCommandLineOptionParser.cs:40-61 | no properties throws; immutable exactly when all are read-only; mutable exactly when all have public setters; any mix throws `NotSupportedException` |
| ParserFactory.StrategiesExclusive | src/dotnetCampus.CommandLine/Parsers/RuntimeCommandLineOptionParser.cs:50-51 | no property set is both all read-only and all publicly writable |
| ParserFactory.PrivateSetterRejected | src/dotnetCampus.CommandLine/Parsers/RuntimeCommandLineOptionParser.cs:45-61 | a property with a non-public setter makes the choice throw |
| ParserFactory.Create | src/dotnetCampus.CommandLine/Parsers/RuntimeCommandLineOptionParser.cs:31-62 | builds the chosen parser over the attributed properties and verb, or throws as the choice does, or as the immutable constructor does; its outcome is the one `CreatedVerb` reports to routing |
| ParserFactory.CreatedVerb | src/dotnetCampus.CommandLine/Parsers/RuntimeCommandLineOptionParser.cs:31-62 | what the router sees of `Create()`: it throws exactly when the strategy choice throws or the immutable type lacks the constructor (NotSupported for a type with no attributed property, InvalidOperation for the constructor); otherwise it gives the type's verb |
| Registration.RegisterNames | src/dotnetCampus.CommandLine/Parsers/RuntimeOptionParser.cs:23-39 | a property is registered under its short name, and under its long name or the property name when the long name is blank; earlier entries are kept otherwise |
| Registration.NameTableDomain | src/dotnetCampus.CommandLine/Parsers/RuntimeOptionParser.cs:18-47 | a name is in the table exactly when some property registers it |
| Registration.NameTableLastWins | src/dotnetCampus.CommandLine/Parsers/RuntimeOptionParser.cs:18-47 | a name maps to the last property registering it |
| Registration.RegisteredByLast | src/dotnetCampus.CommandLine/Parsers/RuntimeOptionParser.cs:18-47 | a name registered by a property and by no later one looks up that property |
| Registration.DeclaredOptionNamesResolve | src/dotnetCampus.CommandLine/Parsers/RuntimeOptionParser.cs:22-38 | an `[Option(shortName, longName)]` the constructor accepts makes both names look up its property |
| Registration.DeclaredLongNameResolves | src/dotnetCampus.CommandLine/Parsers/RuntimeOptionParser.cs:22-38 | an accepted `[Option(longName)]` makes that name look up its property, with no short name |
| Registration.BareOptionUsesPropertyName | src/dotnetCampus.CommandLine/Parsers/RuntimeOptionParser.cs:30-33 | a bare `[Option]` registers the property name as the long name |
| Registration.Lookup | src/dotnetCampus.CommandLine/Parsers/ImmutableRuntimeOptionParser.cs:71 | a slot is found exactly when its key is present |
| Registration.SortedSlots | src/dotnetCampus.CommandLine/Parsers/RuntimeOptionParser.cs:14-45 | the mutable parser's Value slots are kept sorted by Index |
| Registration.OrderedSlots | src/dotnetCampus.CommandLine/Parsers/ImmutableRuntimeOptionParser.cs:19-58 | the immutable parser's Value slots have distinct keys |
| Registration.SlotsLastWins | src/dotnetCampus.CommandLine/Parsers/RuntimeOptionParser.cs:41-45 | a later duplicate Index overwrites an earlier one in both tables |
| Registration.DeclaredValueSlot | src/dotnetCampus.CommandLine/Parsers/RuntimeOptionParser.cs:41-45 | a `[Value(index, length)]` the constructor accepts puts its length and property at that index in both tables |
| Registration.OrderedSlotsFollowDeclaration | src/dotnetCampus.CommandLine/Parsers/ImmutableRuntimeOptionParser.cs:31-58 | with distinct indexes, the immutable table iterates in declaration order |
| Registration.SlotsInRange | src/dotnetCampus.CommandLine/Parsers/RuntimeOptionParser.cs:41-45 | every slot names a property of the type |
| Registration.LookupFindsFirst | src/dotnetCampus.CommandLine/Parsers/ImmutableRuntimeOptionParser.cs:71 | looking up a present key returns its slot |
| Registration.LookupIsEntry | src/dotnetCampus.CommandLine/Parsers/ImmutableRuntimeOptionParser.cs:71 | a found slot is an entry of the table |
| RuntimeParser.StringValues | src/dotnetCampus.CommandLine/Parsers/RuntimeOptionParser.cs:134-135 | a string is passed as no values when empty, else as the one value |
| RuntimeParser.Assign | src/dotnetCampus.CommandLine/Parsers/RuntimeOptionParser.cs:134-141 | writing a property changes that property only |
| RuntimeParser.AssignWrites | src/dotnetCampus.CommandLine/Parsers/RuntimeOptionParser.cs:137-141 | the written value is `ToAssignableValue` of the values for the property type, and its failure is the write's failure |
| RuntimeParser.SlotValues | src/dotnetCampus.CommandLine/Parsers/RuntimeOptionParser.cs:58-65 | only a Length-1 slot past the end of the values throws |
| RuntimeParser.NamedEffect | src/dotnetCampus.CommandLine/Parsers/RuntimeOptionParser.cs:77-132 | an unregistered name changes nothing |
| RuntimeParser.UnknownNameIgnored | src/dotnetCampus.CommandLine/Parsers/RuntimeOptionParser.cs:69-132 | every setter ignores an unregistered name |
| RuntimeParser.ShortFlagIgnoresValue | src/dotnetCampus.CommandLine/Parsers/RuntimeOptionParser.cs:69-75 | the short bool setter ignores its flag and writes the coercion of no values (`true` for a bool property) |
| RuntimeParser.LongFlagOnlyForBool | src/dotnetCampus.CommandLine/Parsers/RuntimeOptionParser.cs:93-100 | the long bool setter writes only a registered bool property, with the flag, and never fails |
| RuntimeParser.SingleStringSlot | src/dotnetCampus.CommandLine/Parsers/RuntimeOptionParser.cs:49-67 | a Length-1 slot at its own position binds that one value |
| RuntimeParser.SingleSlotsTakeTheirOwnValue | src/dotnetCampus.CommandLine/Parsers/RuntimeOptionParser.cs:49-67 | Length-1 slots at indexes 0..n-1 each bind the value at their index |
| RuntimeParser.StringsKept | src/dotnetCampus.CommandLine/Utils/CommandLineAssigningExtensions.cs:33-36 | a single string converts to itself |
| RuntimeParser.ValueOptionsWalk | src/dotnetCampus.CommandLine/Parsers/RuntimeOptionParser.cs:49-67 | `8 x y 2` against Value(0), Value(1, 2), Value(2) binds 8, [x, y] and 2 |
| RuntimeParser.RuntimeOptionParser.constructor | src/dotnetCampus.CommandLine/Parsers/RuntimeOptionParser.cs:18-47 | one fresh, empty instance; name and slot tables as registered |
| RuntimeParser.RuntimeOptionParser.SetValueCore | src/dotnetCampus.CommandLine/Parsers/RuntimeOptionParser.cs:134-141 | writes the converted value of one property, or fails and writes nothing |
| RuntimeParser.RuntimeOptionParser.SetSlot | src/dotnetCampus.CommandLine/Parsers/RuntimeOptionParser.cs:54-66 | one loop iteration: the slot's position is Index plus the offset; the offset grows by Length-1 |
| RuntimeParser.RuntimeOptionParser.SetPositional | src/dotnetCampus.CommandLine/Parsers/RuntimeOptionParser.cs:49-67 | the loop computes `MutableWalk` over the slots in ascending Index |
| RuntimeParser.RuntimeOptionParser.Perform | src/dotnetCampus.CommandLine/Parsers/RuntimeOptionParser.cs:49-132 | one setter call has exactly its specified effect |
| RuntimeParser.RuntimeOptionParser.SetNamed | src/dotnetCampus.CommandLine/Parsers/RuntimeOptionParser.cs:77-132 | a registered name writes its property; an unregistered one changes nothing |
| RuntimeParser.RuntimeOptionParser.Commit | src/dotnetCampus.CommandLine/Parsers/RuntimeOptionParser.cs:143-146 | returns the same instance the setters mutated |
| ImmutableParser.PropertyTypes | src/dotnetCampus.CommandLine/Parsers/ImmutableRuntimeOptionParser.cs:28 | the property types in declaration order |
| ImmutableParser.Store | src/dotnetCampus.CommandLine/Parsers/ImmutableRuntimeOptionParser.cs:124-131 | a store writes its slot and no other |
| ImmutableParser.AsWrittenWalk | src/dotnetCampus.CommandLine/Parsers/ImmutableRuntimeOptionParser.cs:62-82 | the positional loop as written never changes the buffer length |
| ImmutableParser.AsWrittenLosesSecondValue | src/dotnetCampus.CommandLine/Parsers/ImmutableRuntimeOptionParser.cs:62-82 | as written, two Value(i) properties given `a b` throw KeyNotFound at the second |
| ImmutableParser.CorrectedWalk | src/dotnetCampus.CommandLine/Parsers/ImmutableRuntimeOptionParser.cs:62-82 | the corrected loop never changes the buffer length |
| ImmutableParser.CorrectedAgreesWithMutable | src/dotnetCampus.CommandLine/Parsers/ImmutableRuntimeOptionParser.cs:62-82 | the corrected slot walk has the same offset, error and written values as the mutable parser's |
| ImmutableParser.CorrectedBindsBothValues | src/dotnetCampus.CommandLine/Parsers/ImmutableRuntimeOptionParser.cs:62-82 | corrected, `a b` binds a and b |
| ImmutableParser.ImmutableNamed | src/dotnetCampus.CommandLine/Parsers/ImmutableRuntimeOptionParser.cs:89-122 | an unregistered name throws KeyNotFound and changes nothing; a registered one fails exactly when conversion fails |
| ImmutableParser.NamedCallWritesOneSlot | src/dotnetCampus.CommandLine/Parsers/ImmutableRuntimeOptionParser.cs:84-122 | a named setter writes only the slot mapped from the name; an unregistered name throws KeyNotFound |
| ImmutableParser.FlagStoredRaw | src/dotnetCampus.CommandLine/Parsers/ImmutableRuntimeOptionParser.cs:84-102 | the bool setters store the raw bool |
| ImmutableParser.ImmutableRuntimeOptionParser.constructor | src/dotnetCampus.CommandLine/Parsers/ImmutableRuntimeOptionParser.cs:23-60 | the buffer has one empty slot per property; the tables are as registered |
| ImmutableParser.ImmutableRuntimeOptionParser.Create | src/dotnetCampus.CommandLine/Parsers/ImmutableRuntimeOptionParser.cs:27-30 | throws InvalidOperation exactly when no constructor takes the property types in order |
| ImmutableParser.ImmutableRuntimeOptionParser.SetValueCore | src/dotnetCampus.CommandLine/Parsers/ImmutableRuntimeOptionParser.cs:124-131 | stores the converted value in one slot, or fails and stores nothing |
| ImmutableParser.ImmutableRuntimeOptionParser.SetSlot | src/dotnetCampus.CommandLine/Parsers/ImmutableRuntimeOptionParser.cs:64-81 | one corrected loop iteration |
| ImmutableParser.ImmutableRuntimeOptionParser.SetPositional | src/dotnetCampus.CommandLine/Parsers/ImmutableRuntimeOptionParser.cs:62-82 | the loop computes `CorrectedWalk` |
| ImmutableParser.ImmutableRuntimeOptionParser.SetNamed | src/dotnetCampus.CommandLine/Parsers/ImmutableRuntimeOptionParser.cs:89-122 | the buffer changes as `ImmutableNamed` specifies |
| ImmutableParser.ImmutableRuntimeOptionParser.SetFlag | src/dotnetCampus.CommandLine/Parsers/ImmutableRuntimeOptionParser.cs:84-102 | the buffer changes as `ImmutableFlag` specifies |
| ImmutableParser.ImmutableRuntimeOptionParser.Perform | src/dotnetCampus.CommandLine/Parsers/ImmutableRuntimeOptionParser.cs:62-122 | one setter call has exactly its specified effect |
| ImmutableParser.ImmutableRuntimeOptionParser.Commit | src/dotnetCampus.CommandLine/Parsers/ImmutableRuntimeOptionParser.cs:133-136 | passes the whole buffer, one slot per property in order, unwritten slots null |
| MatchResults.Default | src/dotnetCampus.CommandLine/StateMachine/VerbMatchingResult.cs:11 | the default result is NotMatch with no handler and no type |
| MatchResults.NewUnmatched | src/dotnetCampus.CommandLine/StateMachine/CommandLineTypeMatchResult.cs:39-49 | accepts only NotMatch, otherwise ArgumentException; a null type throws ArgumentNull |
| MatchResults.NewWithHandler | src/dotnetCampus.CommandLine/StateMachine/CommandLineTypeMatchResult.cs:51-61 | accepts only Matched or FallbackMatched; a null type or handler throws ArgumentNull |
| MatchResults.ValidResultsAreConstructed | src/dotnetCampus.CommandLine/StateMachine/CommandLineTypeMatchResult.cs:37-61 | every result satisfying the invariant (handler present exactly when not NotMatch) comes from a constructor |
| Helpers.FindPossibleVerb | src/dotnetCampus.CommandLine/Utils/CommandLineHelpers.cs:45-54 | the first value of the first group when its key is blank, otherwise null |
| Helpers.MatchWithHandler | src/dotnetCampus.CommandLine/Utils/CommandLineHelpers.cs:83-157 | a null handler throws; then a parser lookup that throws is the match's exception; otherwise Matched exactly when the verbs are equal ignoring case (both null included); FallbackMatched exactly when not and the parser has no verb; NotMatch otherwise, without handler |
| Helpers.NoVerbMatchesVerbless | src/dotnetCampus.CommandLine/Utils/CommandLineHelpers.cs:95-99 | no verb matches a verbless parser |
| Helpers.VerbMatchIgnoresCase | src/dotnetCampus.CommandLine/Utils/CommandLineHelpers.cs:95-99 | `edit` matches `Edit` |
| Helpers.Invoke | src/dotnetCampus.CommandLine/Utils/CommandLineHelpers.cs:68-203 | action- and task-style handlers return 0, the others their own exit code; a null handler throws |
| Helpers.CallDelegate | src/dotnetCampus.CommandLine/Utils/CommandLineHelpers.cs:95-105 | the matched delegate binds the options first: a binding exception is its result and the handler is not reached; otherwise the handler's exit code |
| Helpers.ThrowIfVerbNotMatched | src/dotnetCampus.CommandLine/Utils/CommandLineHelpers.cs:209-225 | always throws ArgumentException, with a separate reason when there is no verb |
| VerbRouter.Match | src/dotnetCampus.CommandLine/StateMachine/CommandLineTypeMatcher.cs:28-32 | a registered type's result: its parser lookup's exception when that throws, otherwise the three-way rule on the parser's verb |
| VerbRouter.FirstMatched | src/dotnetCampus.CommandLine/StateMachine/HandleVerbStateMachine.cs:61-80 | the first Matched binding in registration order, and none before it |
| VerbRouter.LastFallback | src/dotnetCampus.CommandLine/StateMachine/HandleVerbStateMachine.cs:72-75 | the last FallbackMatched binding wins |
| VerbRouter.FirstLookupFailure | src/dotnetCampus.CommandLine/Utils/CommandLineHelpers.cs:92 | the first registration whose parser lookup throws, with every lookup before it succeeding |
| VerbRouter.Routed | src/dotnetCampus.CommandLine/StateMachine/HandleVerbStateMachine.cs:55-90 | routing throws exactly when a parser lookup throws among the types tried (up to and including the first match), with the first such exception; otherwise the single pick is a valid, non-NotMatch result of some registration, and there is none only when every registration is NotMatch |
| VerbRouter.Find | src/dotnetCampus.CommandLine/StateMachine/HandleVerbStateMachine.cs:55-90 | the loop computes `Routed`: it stops at the first lookup that throws, with that exception, or yields the first match, else the last fallback, else nothing, and stops trying bindings after the first match |
| VerbRouter.FirstMatchedAfterPrefix | src/dotnetCampus.CommandLine/StateMachine/HandleVerbStateMachine.cs:76-80 | bindings after the first match do not affect the result |
| VerbRouter.FirstMatchedBeyondPrefix | src/dotnetCampus.CommandLine/StateMachine/HandleVerbStateMachine.cs:61-80 | a scanned prefix without a match leaves the first match beyond it |
| VerbRouter.FirstLookupFailureAfterPrefix | src/dotnetCampus.CommandLine/StateMachine/HandleVerbStateMachine.cs:61-63 | a lookup that throws in a scanned prefix is the first of the whole list |
| VerbRouter.FirstLookupFailureBeyondPrefix | src/dotnetCampus.CommandLine/StateMachine/HandleVerbStateMachine.cs:61-63 | a scanned prefix without a failing lookup leaves the first one beyond it |
| VerbRouter.VerbPicksItsType | src/dotnetCampus.CommandLine/StateMachine/HandleVerbStateMachine.cs:6-21 | A[a], B[b], C[c] with `b` picks B |
| VerbRouter.UnknownVerbPicksNothing | src/dotnetCampus.CommandLine/StateMachine/HandleVerbStateMachine.cs:6-90 | A[a], B[b], C[c] with `d` yields nothing |
| VerbRouter.VerblessTypeIsFallback | src/dotnetCampus.CommandLine/StateMachine/HandleVerbStateMachine.cs:6-89 | A[a], B, C[c] with `x` picks the verbless B |
| VerbRouter.PropertylessTypeFailsRouting | src/dotnetCampus.CommandLine/Parsers/RuntimeCommandLineOptionParser.cs:40-43 | a `[Verb("version")]` type without properties makes routing throw NotSupported for every verb once it is tried; behind B[b] it throws exactly when the verb is not `b` |
| FilterContexts.Suppress | src/dotnetCampus.CommandLine/Core/CommandLineFilterContext.cs:65-76 | the counter rises by one; the call succeeds exactly from zero, and then records the code and is suppressed; otherwise it throws InvalidOperation and keeps the exit code |
| FilterContexts.SecondSuppressRejected | src/dotnetCampus.CommandLine/Core/CommandLineFilterContext.cs:35-76 | a second suppression is rejected, keeps the first exit code and leaves the flag reading false |
| FilterContexts.RoutedType | src/dotnetCampus.CommandLine/Core/CommandLineFilterContext.cs:55-62 | the type of the router's pick: returned only for a registration that does not NotMatch; none only when every registration is NotMatch; an exception only from a registration's parser lookup |
| FilterContexts.CommandLineFilterContext.constructor | src/dotnetCampus.CommandLine/Core/CommandLineFilterContext.cs:20-24 | not suppressed, exit code 0, verb stored as given |
| FilterContexts.CommandLineFilterContext.SuppressFurtherHandlers | src/dotnetCampus.CommandLine/Core/CommandLineFilterContext.cs:65-76 | the state moves as `Suppress` specifies |
| FilterContexts.CommandLineFilterContext.RelatedTypes | src/dotnetCampus.CommandLine/Core/CommandLineFilterContext.cs:46-49 | the filter types, then the verb types, each in registration order |
| FilterContexts.CommandLineFilterContext.GetVerbType | src/dotnetCampus.CommandLine/Core/CommandLineFilterContext.cs:55-62 | the type the router selects, or null, or the exception a parser lookup throws while routing |
| FilterContexts.NewContext | src/dotnetCampus.CommandLine/Core/CommandLineFilterContext.cs:20-24 | a null command line throws; otherwise a fresh context at counter 0 and exit code 0 |
| Runner.FilterEffect | src/dotnetCampus.CommandLine/Core/CommandLineFilterContext.cs:65-76 | a filter's suppressions only raise the counter, and fail only with InvalidOperation |
| Runner.FilterEffectFromFresh | src/dotnetCampus.CommandLine/Core/CommandLineFilterContext.cs:65-76 | from a fresh context: no call changes nothing, one call suppresses with its code, a second throws and keeps the first code |
| Runner.ApplyFilter | src/dotnetCampus.CommandLine/Utils/CommandLineRunner.cs:35-54 | running a filter moves the context as `FilterEffect` specifies, stopping at the first exception |
| Runner.RunTrace | src/dotnetCampus.CommandLine/Utils/CommandLineRunner.cs:23-63 | the events of a run: only the pre-phase when a pre-filter stopped it or routing threw; otherwise the pre-phase and then the pick's handler when there is one, or, when there is none, the post-phase with every filter created exactly once and no handler |
| Runner.UnroutedTrace | src/dotnetCampus.CommandLine/Utils/CommandLineRunner.cs:49-58 | with no pick after a complete pre-phase, the post-phase creates nothing more and calls no handler |
| Runner.AtMostOneHandler | src/dotnetCampus.CommandLine/Utils/CommandLineRunner.cs:14-47 | a handler invocation is always the last event, so at most one handler runs |
| Runner.HandlerRunsIffRouted | src/dotnetCampus.CommandLine/Utils/CommandLineRunner.cs:31-47 | a handler runs exactly when no pre-filter stopped the run and the router has a pick, no parser lookup having thrown |
| Runner.HandlerIsThePick | src/dotnetCampus.CommandLine/Utils/CommandLineRunner.cs:43-47 | the delegate run is the one built for a registered matcher: its failed binding is the run's error, otherwise its handler's exit code is the run's; the type run is the one `GetVerbType` reports |
| Runner.BindingFailureEndsRun | src/dotnetCampus.CommandLine/Utils/CommandLineHelpers.cs:95-98 | when the matched type's options cannot be bound and every lookup before it succeeded, the run ends with that exception |
| Runner.ParserLookupFailureEndsRun | src/dotnetCampus.CommandLine/Utils/CommandLineRunner.cs:42-47 | a parser lookup that throws in a type the router reaches (every earlier type looked up and not matching) ends the run with that exception after the pre-phase, with no handler and no post-filter |
| Runner.ImmutableUnknownNameEndsRun | src/dotnetCampus.CommandLine/Utils/CommandLineHelpers.cs:95-98 | an immutable options type given an unregistered option name makes the run throw KeyNotFound |
| Runner.FilterCreationFailureEndsRun | src/dotnetCampus.CommandLine/Utils/CommandLineRunner.cs:31-35 | a pre-filter whose creation throws ends the run with that exception, with only earlier filters created |
| Runner.PostFiltersOnlyWhenUnrouted | src/dotnetCampus.CommandLine/Utils/CommandLineRunner.cs:43-58 | post-filters run only when nothing stopped the pre-phase and the router has no pick |
| Runner.FiltersCreatedOnce | src/dotnetCampus.CommandLine/Utils/CommandLineRunner.cs:29-52 | filters are created at most once each, in order, and all of them when the pre-phase is not stopped |
| Runner.PreSuppressionStopsPhase | src/dotnetCampus.CommandLine/Utils/CommandLineRunner.cs:31-40 | the first pre-filter that suppresses ends the phase, with only the filters up to it created and run |
| Runner.PreSuppressionEndsRun | src/dotnetCampus.CommandLine/Utils/CommandLineRunner.cs:31-40 | that filter's exit code is the run's result, and no handler or post-filter runs |
| Runner.QuietUnmatchedRunThrows | src/dotnetCampus.CommandLine/Utils/CommandLineRunner.cs:50-62 | with no pick and no suppression the run throws the unmatched-verb error |
| Runner.RoutedWithoutFilters | src/dotnetCampus.CommandLine/Utils/CommandLineRunner.cs:43-47 | without filters, a pick is invoked directly |
| Runner.PrePhaseComplete | src/dotnetCampus.CommandLine/Utils/CommandLineRunner.cs:31-40 | an unstopped pre-phase created and cached every filter without suppressing |
| Runner.PostPhaseCache | src/dotnetCampus.CommandLine/Utils/CommandLineRunner.cs:50-58 | the post-phase never adds to the cache |
| Runner.RunPreFilters | src/dotnetCampus.CommandLine/Utils/CommandLineRunner.cs:31-40 | the pre-filter loop computes the pre-phase of the specification |
| Runner.RunPostFilters | src/dotnetCampus.CommandLine/Utils/CommandLineRunner.cs:50-58 | the post-filter loop computes the post-phase of the specification |
| Runner.RunCore | src/dotnetCampus.CommandLine/Utils/CommandLineRunner.cs:23-63 | the run computes `RunSpec` with the candidate verb found once from the command line, including the failures of filter creation, of a parser lookup while routing, and of the matched delegate's binding |
| Attributes.NewValueAttribute | src/dotnetCampus.CommandLine/ValueAttribute.cs:32-36 | Index as given and Length 1, unvalidated |
| Attributes.NewValueAttributeRange | src/dotnetCampus.CommandLine/ValueAttribute.cs:49-63 | succeeds exactly for index >= 0 and length >= 1, storing both; a negative index is reported before a bad length |
| Attributes.NewOptionAttribute | src/dotnetCampus.CommandLine/OptionAttribute.cs:29-31 | no short and no long name |
| Attributes.NewOptionAttributeLong | src/dotnetCampus.CommandLine/OptionAttribute.cs:37-45 | a blank long name throws; otherwise the long name is set and the short name is null |
| Attributes.NewOptionAttributeShortLong | src/dotnetCampus.CommandLine/OptionAttribute.cs:52-61 | a blank long name throws; otherwise both are set |
| Attributes.NewVerbAttribute | src/dotnetCampus.CommandLine/VerbAttribute.cs:22-35 | null throws ArgumentNull before the blank check; blank throws ArgumentException; otherwise the name is stored verbatim |

## Left out

- `HttpUtility.UrlDecode` (CommandLine.cs:288) is the identity: URLs are taken as already decoded. Its percent-decoding is section 2.1 of RFC 3986, with `+` read as a space.
- Floating-point targets (`float`, `double`, `decimal`) keep their merged text: culture-specific number parsing is not modelled.
- `FileInfo` and `DirectoryInfo` are the trimmed path text. Full-path resolution is file-system I/O.
- Reflection and activation are not modelled. This covers `Activator.CreateInstance`, `PropertyInfo.SetValue` and `ConstructorInfo.Invoke`.
  - `FindParser` is its outcome, `Matcher.parser`: the verb of the parser given to `AddHandler` or found as a generated `{Type}Parser`, or, without either, `ParserFactory.CreatedVerb`. Each `Match` runs the lookup again; it gives the same outcome each time.
  - Properties and attributes are plain records.
  - An options instance is a map from property position to value.
  - The immutable parser's `Commit` returns the argument buffer; which constructor then runs is not modelled.
- `Task<int>` is `int`: handlers and filters are synchronous.
  - A user handler is opaque: its exit code is given and it does not throw.
  - A filter's own `Filter`/`PostFilter` code throws only through a second `SuppressFurtherHandlers`.
  - The exceptions the run does propagate are those of binding (`As`), of filter creation, of a parser lookup while routing, of a second suppression and of an unmatched verb.
- `Runner.RunSpec`, `Runner.RunCore`: the outcome of `commandLine.As(parser)` is carried by each registration (`Matcher.binding`, `FilterMatch.creation`) rather than computed when the delegate runs. The groups are fixed after `Parse` and each delegate binds a parser of its own, so the outcome is the same. `Runner.ImmutableUnknownNameEndsRun` ties it to `ImmutableRun`.
- A filter is an opaque creator id. Its behaviour is given as the list of exit codes it passes to `SuppressFurtherHandlers` in each phase.
  - What else a filter does is not visible.
  - A filter that catches the InvalidOperation of a second suppression is not modelled: the exception always ends the run.
- `Interlocked.Increment` is a plain counter with no 32-bit wrap-around: the engine has no concurrency.
- Null elements inside the argument array are not modelled. The array itself may be null.
- Character classes and case folding are ASCII only. `IsWhiteSpace` follows the .NET list.
- `CommandLine.As` uses the typed setter path only for parsers that are not raw. Every parser in the repository is raw.
  - That path is modelled in the routing function `GroupCall` (non-raw).
  - `RawAgreesWithTyped` relates it to the raw path.
  - No class drives it.
- `CommandLine` keeps its parsed groups as an immutable list once `Parse` has produced them; the `ListGroup` itself is used only inside `Parse`.
- Left out as outside the core:
  - the help, usage and version output of `GnuFilter`;
  - the Roslyn analyzers;
  - `SingleOptimizedListExtensions`;
  - the debugger display (CommandLine.cs:434-450);
  - the obsolete dispatch classes (`CommandLineVerbHandlers`, `CommandLineAsyncHandlerBuilder`, `MatchHandleResult`, `CommandLineVerbMatch`);
  - the registration overload plumbing that only wraps `AddMatch`.
- `ImmutableParser.ImmutableRuntimeOptionParser.SetPositional` uses the corrected positional walk, not the one written in the source (see Findings). The as-written walk is modelled separately as `AsWrittenWalk`.
- `ImmutableParser.ImmutableEffect`, `ImmutableParser.ImmutableRuntimeOptionParser.SetSlot`, `ImmutableParser.ImmutableRuntimeOptionParser.Perform`, `CommandLines.FeedImmutable`, `CommandLines.ImmutableRun` and `CommandLines.CommandLine.AsImmutable` bind positional values through the same corrected walk. For example, `a b` on two `[Value(i)]` properties binds both values, where the source throws `KeyNotFoundException`.

## Findings

| source | as written | input that shows it | evidently intended | confidence | as-written member | corrected member |
|---|---|---|---|---|---|---|
| src/dotnetCampus.CommandLine/Parsers/ImmutableRuntimeOptionParser.cs:62-82 | the positional loop adds each slot's full Length to the offset, then looks the slot up again at the shifted index | an immutable options type with `[Value(0)]` and `[Value(1)]` properties, given `a b`: the second slot is looked up at index 2, which is not registered, so `KeyNotFoundException` is thrown | as in the mutable parser (RuntimeOptionParser.cs:49-67): add Length-1 and bind the slot's own property at Index plus the offset, so `a b` binds both | not executed | ImmutableParser.AsWrittenLosesSecondValue | ImmutableParser.CorrectedBindsBothValues, ImmutableParser.CorrectedAgreesWithMutable |
