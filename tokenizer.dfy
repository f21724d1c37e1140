/**
 * The command-line state machine: it groups the raw arguments into
 * (option, values) entries without changing any character of them.
 *
 * An argument that starts with the option prefix opens a new option (and
 * closes the pending one); `-k:v` carries its first value inline; any other
 * argument, the empty one included, is a value of the pending option, or a
 * bare value when no option is pending.  With the '-' prefix a standalone
 * `--` ends the option section: every later argument is a value.
 *
 * `Tokenize` is the specification; `CommandLineStateMachine.Run` is the
 * step-by-step machine, proved to compute it.
 */
module Tokenizer {
  import opened Wrappers
  import opened DotNet
  import opened OptimizedList
  import opened Groups

  /** One parsed entry: an option key (empty for bare values) and its values, if any. */
  type Group = Entry<seq<string>>

  /** The machine's state between two arguments, with what it has emitted so far. */
  datatype MachineState = MachineState(option: Option<string>, values: Option<seq<string>>, ended: bool, out: seq<Group>)

  /**
   * `OnOptionCollected`: a non-empty value list is emitted under its option
   * (the empty key when there is none); an option without values is emitted
   * only when its name is not empty; anything else is dropped.
   */
  function Collect(out: seq<Group>, option: Option<string>, values: Option<seq<string>>): seq<Group>
  {
    if values.Some? && |values.value| > 0 then out + [Entry(option.GetOr(""), values)]
    else if !IsNullOrEmpty(option) then out + [Entry(option.value, values)]
    else out
  }

  /**
   * `SetOption` for an option argument: `-k:v` with a non-empty `v` splits at
   * the first ':' into the key `-k` and the first value `v`; anything else is
   * the key as it stands, with no value yet.
   */
  function SplitInlineValue(option: string): (r: (string, Option<seq<string>>))
    ensures r.1.Some? <==> (':' in option && IndexOf(option, ':') < |option| - 1)
    ensures r.1.None? ==> r.0 == option
    ensures r.1.Some? ==>
      |r.1.value| == 1 && r.0 + ":" + r.1.value[0] == option && ':' !in r.0 && r.1.value[0] != ""
  {
    var i := IndexOf(option, ':');
    if i < 0 || i >= |option| - 1 then (option, None)
    else
      assert option == option[..i] + ":" + option[i + 1..];
      assert ':' !in option[..i] by {
        forall k | 0 <= k < i ensures option[..i][k] != ':' { }
      }
      (option[..i], Some([option[i + 1..]]))
  }

  /** `AppendValue`: the value joins the pending list, starting one if there is none. */
  function AppendValue(values: Option<seq<string>>, v: string): Option<seq<string>>
  {
    Some(values.GetOr([]) + [v])
  }

  /** Whether `arg` is the standalone option-section terminator for this prefix. */
  predicate IsSectionEnd(arg: string, prefix: char)
  {
    prefix == '-' && |arg| == 2 && arg[0] == prefix && arg[1] == prefix
  }

  /** One turn of the loop in `Run`. */
  function Step(st: MachineState, arg: string, prefix: char): MachineState
  {
    if st.ended || arg == "" || arg[0] != prefix then
      st.(values := AppendValue(st.values, arg))
    else if IsSectionEnd(arg, prefix) then
      MachineState(None, None, true, Collect(st.out, st.option, st.values))
    else
      var kv := SplitInlineValue(arg);
      MachineState(Some(kv.0), kv.1, st.ended, Collect(st.out, st.option, st.values))
  }

  function Initial(): MachineState
  {
    MachineState(None, None, false, [])
  }

  function StateAfter(args: seq<string>, prefix: char): MachineState
    decreases |args|
  {
    if args == [] then Initial()
    else Step(StateAfter(args[..|args| - 1], prefix), args[|args| - 1], prefix)
  }

  lemma StateAfterSnoc(args: seq<string>, i: nat, prefix: char)
    requires i < |args|
    ensures StateAfter(args[..i + 1], prefix) == Step(StateAfter(args[..i], prefix), args[i], prefix)
  {
    assert args[..i + 1][..i] == args[..i];
  }

  /** The entries `Run` returns: the state after the last argument, with the pending option collected. */
  function Tokenize(args: seq<string>, prefix: char): seq<Group>
  {
    var st := StateAfter(args, prefix);
    Collect(st.out, st.option, st.values)
  }

  // ---------------------------------------------------------------- properties

  lemma {:induction false} NotEndedBeforeTerminator(args: seq<string>)
    requires "--" !in args
    ensures !StateAfter(args, '-').ended
    decreases |args|
  {
    if args != [] {
      var init := args[..|args| - 1];
      assert forall a :: a in init ==> a in args;
      NotEndedBeforeTerminator(init);
      var last := args[|args| - 1];
      assert last in args;
      SectionEndIsDashDash(last, '-');
    }
  }

  lemma SectionEndIsDashDash(arg: string, prefix: char)
    ensures IsSectionEnd(arg, prefix) <==> prefix == '-' && arg == "--"
  {
  }

  lemma {:induction false} ValuesAfterEnd(base: seq<string>, post: seq<string>, prefix: char)
    requires StateAfter(base, prefix).ended
    ensures var st := StateAfter(base, prefix);
      StateAfter(base + post, prefix)
        == st.(values := if post == [] then st.values else Some(st.values.GetOr([]) + post))
    decreases |post|
  {
    if post == [] {
      assert base + post == base;
    } else {
      var st := StateAfter(base, prefix);
      var init := post[..|post| - 1];
      var last := post[|post| - 1];
      assert (base + post)[..|base + post| - 1] == base + init;
      assert (base + post)[|base + post| - 1] == last;
      ValuesAfterEnd(base, init, prefix);
      var mid := StateAfter(base + init, prefix);
      assert mid.ended;
      assert StateAfter(base + post, prefix) == mid.(values := Some(mid.values.GetOr([]) + [last]));
      assert init + [last] == post;
      if init == [] {
        assert mid.values == st.values;
        assert st.values.GetOr([]) + [last] == st.values.GetOr([]) + post;
      } else {
        assert mid.values.GetOr([]) + [last] == st.values.GetOr([]) + init + [last];
        assert st.values.GetOr([]) + init + [last] == st.values.GetOr([]) + post;
      }
    }
  }

  /**
   * After the first standalone `--` (prefix '-'), the arguments before it
   * tokenize as if it were the end of the command line, and all the
   * arguments after it, whatever they look like, form one bare-value entry.
   */
  lemma {:induction false} TokenizeAfterSectionEnd(pre: seq<string>, post: seq<string>)
    requires "--" !in pre
    ensures Tokenize(pre + ["--"] + post, '-')
      == Tokenize(pre, '-') + (if post == [] then [] else [Entry("", Some(post))])
  {
    NotEndedBeforeTerminator(pre);
    var base := pre + ["--"];
    assert base[..|base| - 1] == pre;
    assert IsSectionEnd("--", '-');
    assert StateAfter(base, '-') == MachineState(None, None, true, Tokenize(pre, '-'));
    ValuesAfterEnd(base, post, '-');
    assert pre + ["--"] + post == base + post;
    assert [] + post == post;
  }

  /** Option arguments without inline values come out one entry each, in argument order. */
  lemma {:induction false} TokenizeOptionsOnly(args: seq<string>, prefix: char)
    requires forall i :: 0 <= i < |args| ==> args[i] != "" && args[i][0] == prefix && ':' !in args[i] && !IsSectionEnd(args[i], prefix)
    ensures Tokenize(args, prefix) == seq(|args|, i requires 0 <= i < |args| => Entry(args[i], None))
  {
    OptionsOnlyState(args, prefix);
  }

  lemma {:induction false} OptionsOnlyState(args: seq<string>, prefix: char)
    requires forall i :: 0 <= i < |args| ==> args[i] != "" && args[i][0] == prefix && ':' !in args[i] && !IsSectionEnd(args[i], prefix)
    ensures var st := StateAfter(args, prefix);
      !st.ended && st.values.None?
      && (args == [] ==> st.option.None? && st.out == [])
      && (args != [] ==>
            st.option == Some(args[|args| - 1])
            && st.out == seq(|args| - 1, i requires 0 <= i < |args| - 1 => Entry(args[i], None)))
    ensures Tokenize(args, prefix) == seq(|args|, i requires 0 <= i < |args| => Entry(args[i], None))
    decreases |args|
  {
    if args != [] {
      var init := args[..|args| - 1];
      OptionsOnlyState(init, prefix);
      var last := args[|args| - 1];
      assert SplitInlineValue(last) == (last, None);
    }
  }

  lemma IndexOfAfterClean(a: string, b: string, c: char)
    requires c !in a
    ensures IndexOf(a + [c] + b, c) == |a|
  {
    var s := a + [c] + b;
    assert s[|a|] == c;
    assert forall k :: 0 <= k < |a| ==> s[k] == a[k];
  }

  /** `-k:v` alone gives the single entry `-k` with the value `v`. */
  lemma TokenizeInlineValue(k: string, v: string, prefix: char)
    requires k != "" && k[0] == prefix && ':' !in k && v != ""
    ensures Tokenize([k + ":" + v], prefix) == [Entry(k, Some([v]))]
  {
    var arg := k + ":" + v;
    IndexOfAfterClean(k, v, ':');
    assert arg[..|k|] == k && arg[|k| + 1..] == v;
    var one := [arg];
    assert one[..0] == [];
    assert arg[0] == prefix && !IsSectionEnd(arg, prefix);
    assert SplitInlineValue(arg) == (k, Some([v]));
    assert StateAfter([arg], prefix) == Step(Initial(), arg, prefix);
    assert StateAfter([arg], prefix) == MachineState(Some(k), Some([v]), false, []);
  }

  lemma StepGrows(st: MachineState, arg: string, prefix: char)
    ensures st.out <= Step(st, arg, prefix).out
  {
  }

  /** What has been emitted is never taken back: later arguments only append entries. */
  lemma {:induction false} EmittedOnlyGrows(a: seq<string>, b: seq<string>, prefix: char)
    ensures StateAfter(a, prefix).out <= StateAfter(a + b, prefix).out
    decreases |b|
  {
    if b == [] {
      assert a + b == a;
    } else {
      var init := b[..|b| - 1];
      assert (a + b)[..|a + b| - 1] == a + init;
      EmittedOnlyGrows(a, init, prefix);
      StepGrows(StateAfter(a + init, prefix), (a + b)[|a + b| - 1], prefix);
    }
  }

  /** An entry is never empty: it has a non-empty key or at least one value, and a value list is never empty. */
  predicate WellFormed(g: Group)
  {
    (g.value.Some? ==> |g.value.value| > 0) && (g.key != "" || g.value.Some?)
  }

  /** Every key is a prefix of some argument, and every value is an argument or a tail of one. */
  predicate FromArgs(g: Group, args: seq<string>)
  {
    (g.key == "" || exists a :: a in args && g.key <= a)
    && (g.value.Some? ==> forall v :: v in g.value.value ==> exists a :: a in args && IsTailOf(v, a))
  }

  predicate IsTailOf(v: string, a: string)
  {
    |v| <= |a| && a[|a| - |v|..] == v
  }

  predicate StateFromArgs(st: MachineState, args: seq<string>)
  {
    (forall g :: g in st.out ==> WellFormed(g) && FromArgs(g, args))
    && (st.option.Some? ==> exists a :: a in args && st.option.value <= a)
    && (st.values.Some? ==> |st.values.value| > 0 && forall v :: v in st.values.value ==> exists a :: a in args && IsTailOf(v, a))
  }

  lemma StateFromArgsWidens(st: MachineState, args: seq<string>, more: seq<string>)
    requires StateFromArgs(st, args)
    requires forall a :: a in args ==> a in more
    ensures StateFromArgs(st, more)
  {
    forall g | g in st.out ensures FromArgs(g, more) {
      assert FromArgs(g, args);
    }
  }

  lemma CollectKeepsProvenance(st: MachineState, args: seq<string>)
    requires StateFromArgs(st, args)
    ensures forall g :: g in Collect(st.out, st.option, st.values) ==> WellFormed(g) && FromArgs(g, args)
  {
  }

  /** One step keeps the provenance of the state, for an argument from the same list. */
  lemma StepFromArgs(st: MachineState, arg: string, args: seq<string>, prefix: char)
    requires StateFromArgs(st, args) && arg in args
    ensures StateFromArgs(Step(st, arg, prefix), args)
  {
    assert IsTailOf(arg, arg) by { assert arg[|arg| - |arg|..] == arg; }
    CollectKeepsProvenance(st, args);
    if !(st.ended || arg == "" || arg[0] != prefix) && !IsSectionEnd(arg, prefix) {
      var kv := SplitInlineValue(arg);
      assert kv.0 <= arg by {
        if kv.1.Some? { assert arg == kv.0 + (":" + kv.1.value[0]); }
      }
      if kv.1.Some? {
        var v := kv.1.value[0];
        assert arg == (kv.0 + ":") + v;
        assert IsTailOf(v, arg);
      }
    }
  }

  lemma {:induction false} StateAfterFromArgs(args: seq<string>, prefix: char)
    ensures StateFromArgs(StateAfter(args, prefix), args)
    decreases |args|
  {
    if args != [] {
      var init := args[..|args| - 1];
      StateAfterFromArgs(init, prefix);
      assert forall a :: a in init ==> a in args;
      StateFromArgsWidens(StateAfter(init, prefix), init, args);
      StepFromArgs(StateAfter(init, prefix), args[|args| - 1], args, prefix);
    }
  }

  /** Every entry `Tokenize` returns is non-empty and made of the arguments' own characters. */
  lemma {:induction false} TokenizeProvenance(args: seq<string>, prefix: char)
    ensures forall g :: g in Tokenize(args, prefix) ==> WellFormed(g) && FromArgs(g, args)
  {
    StateAfterFromArgs(args, prefix);
    CollectKeepsProvenance(StateAfter(args, prefix), args);
  }

  // ---------------------------------------------------------------- the machine

  class CommandLineStateMachine {
    const commandLineArgs: seq<string>
    const optionPrefix: char
    var isOptionSectionEnded: bool
    var currentOption: Option<string>
    var currentValues: SingleOptimizedList?

    /** Between runs the section flag is down: `Run` lowers it when it finishes. */
    ghost predicate Valid()
      reads this
    {
      (optionPrefix == '-' || optionPrefix == '/') && !isOptionSectionEnded
    }

    function CurrentValues(): Option<seq<string>>
      reads this, currentValues
    {
      if currentValues == null then None else Some(currentValues.Items())
    }

    constructor (args: seq<string>, optionPrefix: char)
      requires optionPrefix == '-' || optionPrefix == '/'
      ensures Valid() && commandLineArgs == args && this.optionPrefix == optionPrefix
      ensures currentOption.None? && currentValues == null
    {
      commandLineArgs := args;
      this.optionPrefix := optionPrefix;
      isOptionSectionEnded := false;
      currentOption := None;
      currentValues := null;
    }

    /** The constructor with its checks: null arguments and any prefix other than '-' or '/' throw. */
    static method Create(args: Option<seq<string>>, optionPrefix: char) returns (r: Result<CommandLineStateMachine>)
      ensures args.None? ==> r == Failure(ArgumentNull)
      ensures args.Some? && optionPrefix != '-' && optionPrefix != '/' ==> r == Failure(NotSupported(BadOptionPrefix))
      ensures r.Success? ==>
        fresh(r.value) && r.value.Valid() && r.value.commandLineArgs == args.value && r.value.optionPrefix == optionPrefix
      ensures r.Success? <==> args.Some? && (optionPrefix == '-' || optionPrefix == '/')
    {
      if args.None? {
        return Failure(ArgumentNull);
      }
      if optionPrefix != '-' && optionPrefix != '/' {
        return Failure(NotSupported(BadOptionPrefix));
      }
      var m := new CommandLineStateMachine(args.value, optionPrefix);
      r := Success(m);
    }

    /** Runs the machine over every argument; the result is exactly `Tokenize`, and the run state is reset. */
    method Run() returns (parsedArgs: ListGroup<seq<string>>)
      requires Valid()
      modifies this
      ensures Valid() && fresh(parsedArgs) && parsedArgs.Valid()
      ensures parsedArgs.Items() == Tokenize(commandLineArgs, optionPrefix)
      ensures currentOption.None? && currentValues == null
    {
      parsedArgs := new ListGroup<seq<string>>();
      currentOption := None;
      currentValues := null;
      FeedAll(parsedArgs);
      Commit(parsedArgs);
      currentOption := None;
      currentValues := null;
      isOptionSectionEnded := false;
    }

    /** The loop of `Run`: every argument in turn, from the start state. */
    method FeedAll(parsedArgs: ListGroup<seq<string>>)
      requires Valid() && parsedArgs.Valid() && parsedArgs.Items() == [] && currentOption.None? && currentValues == null
      modifies this, parsedArgs
      ensures parsedArgs.Valid() && (currentValues != null ==> fresh(currentValues) && currentValues.Valid())
      ensures State(parsedArgs) == StateAfter(commandLineArgs, optionPrefix)
    {
      var i := 0;
      while i < |commandLineArgs|
        invariant 0 <= i <= |commandLineArgs|
        invariant parsedArgs.Valid()
        invariant currentValues != null ==> fresh(currentValues) && currentValues.Valid()
        invariant State(parsedArgs) == StateAfter(commandLineArgs[..i], optionPrefix)
      {
        StateAfterSnoc(commandLineArgs, i, optionPrefix);
        Feed(parsedArgs, commandLineArgs[i]);
        i := i + 1;
      }
      assert commandLineArgs[..i] == commandLineArgs;
    }

    /** The machine's state, with what it has emitted into `parsedArgs`. */
    function State(parsedArgs: ListGroup<seq<string>>): MachineState
      reads this, currentValues, parsedArgs
      requires parsedArgs.Valid()
    {
      MachineState(currentOption, CurrentValues(), isOptionSectionEnded, parsedArgs.Items())
    }

    /** One turn of the loop in `Run`. */
    method Feed(parsedArgs: ListGroup<seq<string>>, arg: string)
      requires parsedArgs.Valid() && (currentValues != null ==> currentValues.Valid())
      modifies this, currentValues, parsedArgs
      ensures parsedArgs.Valid() && (currentValues != null ==> currentValues.Valid())
      ensures currentValues != null ==> currentValues == old(currentValues) || fresh(currentValues)
      ensures State(parsedArgs) == Step(old(State(parsedArgs)), arg, optionPrefix)
    {
      if isOptionSectionEnded {
        AppendValueTo(arg);
      } else if arg == "" {
        AppendValueTo(arg);
      } else if arg[0] == optionPrefix {
        if optionPrefix == '-' && |arg| == 2 && arg[1] == optionPrefix {
          isOptionSectionEnded := true;
          Commit(parsedArgs);
          SetOption(None);
        } else {
          Commit(parsedArgs);
          SetOption(Some(arg));
        }
      } else {
        AppendValueTo(arg);
      }
    }

    method SetOption(option: Option<string>)
      modifies this
      ensures isOptionSectionEnded == old(isOptionSectionEnded)
      ensures currentValues != null ==> fresh(currentValues) && currentValues.Valid()
      ensures option.None? ==> currentOption.None? && currentValues == null
      ensures option.Some? ==> currentOption.Some? && (currentOption.value, CurrentValues()) == SplitInlineValue(option.value)
    {
      if option.None? {
        currentOption := None;
        currentValues := null;
        return;
      }
      var s := option.value;
      var i := IndexOf(s, ':');
      if i < 0 || i >= |s| - 1 {
        currentOption := Some(s);
        currentValues := null;
      } else {
        currentOption := Some(s[..i]);
        currentValues := new SingleOptimizedList(s[i + 1..]);
      }
    }

    method AppendValueTo(value: string)
      requires currentValues != null ==> currentValues.Valid()
      modifies this, currentValues
      ensures currentOption == old(currentOption) && isOptionSectionEnded == old(isOptionSectionEnded)
      ensures currentValues != null && currentValues.Valid()
      ensures old(currentValues) != null ==> currentValues == old(currentValues)
      ensures old(currentValues) == null ==> fresh(currentValues)
      ensures CurrentValues() == AppendValue(old(CurrentValues()), value)
    {
      if currentValues == null {
        currentValues := new SingleOptimizedList(value);
        assert [] + [value] == [value];
      } else {
        var _ := currentValues.Add(Some(value));
      }
    }

    method Commit(parsedArgs: ListGroup<seq<string>>)
      requires parsedArgs.Valid()
      modifies parsedArgs
      ensures parsedArgs.Valid()
      ensures parsedArgs.Items() == Collect(old(parsedArgs.Items()), currentOption, CurrentValues())
    {
      var values := CurrentValues();
      if values.Some? && |values.value| > 0 {
        var _ := parsedArgs.Add(Some(currentOption.GetOr("")), values);
      } else if !IsNullOrEmpty(currentOption) {
        var _ := parsedArgs.Add(currentOption, values);
      }
    }
  }
}
