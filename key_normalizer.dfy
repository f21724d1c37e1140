/**
 * The key half of `CommandLine.Parse`: choosing the option prefix from the
 * arguments, and rewriting every key the tokenizer produced into its
 * canonical form: a short name is its one character, a long name its
 * PascalCase form, whatever style (`-LongName`, `/LongName`,
 * `--long-name`) the user wrote it in.
 */
module KeyNormalizer {
  import opened Wrappers
  import opened DotNet
  import opened Groups
  import opened Tokenizer
  import opened UrlArgs

  predicate IsPrefixChar(c: char) { c == '-' || c == '/' }

  // ---------------------------------------------------------------- AutoFindPrefix

  /**
   * The prefix the scan settles on: the first character of the first
   * argument that starts with `-` or `/`, and `-` when none does.  Reading
   * the first character of an empty argument reached on the way throws.
   */
  function FindPrefix(args: seq<string>): (r: Result<char>)
    ensures r.Success? ==> IsPrefixChar(r.value)
    ensures r.Failure? ==> r.error == IndexOutOfRange
  {
    if args == [] then Success('-')
    else if args[0] == "" then Failure(IndexOutOfRange)
    else if IsPrefixChar(args[0][0]) then Success(args[0][0])
    else FindPrefix(args[1..])
  }

  /** The scan stops at position `j`: every earlier argument is non-empty and starts with neither prefix character. */
  predicate ScannedPast(args: seq<string>, j: nat)
    requires j <= |args|
  {
    forall k :: 0 <= k < j ==> args[k] != "" && !IsPrefixChar(args[k][0])
  }

  /** `FindPrefix` is decided by the first argument that is empty or prefixed, and is `-` when there is none. */
  lemma {:induction false} FindPrefixIsFirst(args: seq<string>, j: nat)
    requires j <= |args| && ScannedPast(args, j)
    ensures j == |args| ==> FindPrefix(args) == Success('-')
    ensures j < |args| && args[j] == "" ==> FindPrefix(args) == Failure(IndexOutOfRange)
    ensures j < |args| && args[j] != "" && IsPrefixChar(args[j][0]) ==> FindPrefix(args) == Success(args[j][0])
  {
    if j > 0 {
      assert args[0] != "" && !IsPrefixChar(args[0][0]);
      assert forall k :: 0 <= k < j - 1 ==> args[1..][k] == args[k + 1];
      FindPrefixIsFirst(args[1..], j - 1);
    }
  }

  /** `AutoFindPrefix(args)`: the scan loop. */
  method AutoFindPrefix(args: seq<string>) returns (r: Result<char>)
    ensures r == FindPrefix(args)
  {
    var i := 0;
    while i < |args|
      invariant 0 <= i <= |args|
      invariant FindPrefix(args[i..]) == FindPrefix(args)
    {
      var arg := args[i];
      assert args[i..][0] == arg && args[i..][1..] == args[i + 1..];
      if arg == "" {
        return Failure(IndexOutOfRange);
      }
      if IsPrefixChar(arg[0]) {
        return Success(arg[0]);
      }
      i := i + 1;
    }
    r := Success('-');
  }

  // ---------------------------------------------------------------- FormatCoreLongName

  /**
   * The characters `FormatCoreLongName` appends: prefix characters are
   * dropped and mark the start of a word; the first character of each word
   * is upper-cased and the others are copied.
   */
  function CoreLetters(s: string, prefix: char, wordStart: bool): (r: string)
    ensures |r| <= |s|
  {
    if s == [] then []
    else if s[0] == prefix then CoreLetters(s[1..], prefix, true)
    else (if wordStart then [ToUpper(s[0])] else [s[0]]) + CoreLetters(s[1..], prefix, false)
  }

  /** The long name a `--long-name` key stands for: the letters after the two leading characters. */
  function CoreLongName(option: string, prefix: char): string
    requires |option| >= 2
  {
    CoreLetters(option[2..], prefix, true)
  }

  /** `FormatCoreLongName(option, prefix)`: the builder loop with its word-start flag. */
  method FormatCoreLongName(option: string, prefix: char) returns (name: string)
    requires |option| >= 2
    ensures name == CoreLongName(option, prefix)
  {
    var builder := "";
    var isWordFirstLetter := true;
    var i := 2;
    while i < |option|
      invariant 2 <= i <= |option|
      invariant builder + CoreLetters(option[i..], prefix, isWordFirstLetter) == CoreLongName(option, prefix)
    {
      var current := option[i];
      CoreLettersAt(option, i, prefix, isWordFirstLetter);
      if current == prefix {
        isWordFirstLetter := true;
      } else if isWordFirstLetter {
        isWordFirstLetter := false;
        assert builder + [ToUpper(current)] + CoreLetters(option[i + 1..], prefix, false) == builder + ([ToUpper(current)] + CoreLetters(option[i + 1..], prefix, false));
        builder := builder + [ToUpper(current)];
      } else {
        assert builder + [current] + CoreLetters(option[i + 1..], prefix, false) == builder + ([current] + CoreLetters(option[i + 1..], prefix, false));
        builder := builder + [current];
      }
      i := i + 1;
    }
    name := builder;
  }

  /** One character of the builder loop: what `CoreLetters` makes of the suffix from position `i`. */
  lemma CoreLettersAt(option: string, i: nat, prefix: char, wordStart: bool)
    requires i < |option|
    ensures option[i] == prefix ==> CoreLetters(option[i..], prefix, wordStart) == CoreLetters(option[i + 1..], prefix, true)
    ensures option[i] != prefix ==>
      CoreLetters(option[i..], prefix, wordStart) == (if wordStart then [ToUpper(option[i])] else [option[i]]) + CoreLetters(option[i + 1..], prefix, false)
  {
    assert option[i..][0] == option[i] && option[i..][1..] == option[i + 1..];
  }

  /** No prefix character survives, since upper-casing never turns a character into `-` or `/`. */
  lemma {:induction false} CoreLettersDropPrefix(s: string, prefix: char, wordStart: bool)
    requires IsPrefixChar(prefix)
    ensures prefix !in CoreLetters(s, prefix, wordStart)
  {
    if s != [] {
      CoreLettersDropPrefix(s[1..], prefix, true);
      CoreLettersDropPrefix(s[1..], prefix, false);
    }
  }

  /** Inside a word the letters are copied, except the first one of the word. */
  lemma {:induction false} CoreLettersOfWord(w: string, prefix: char)
    requires prefix !in w
    ensures CoreLetters(w, prefix, false) == w
    ensures CoreLetters(w, prefix, true) == Capitalize(w)
  {
    if w != [] {
      CoreLettersOfWord(w[1..], prefix);
    }
  }

  /** A word followed by a prefix character: the rest starts a new word. */
  lemma {:induction false} CoreLettersAfterWord(w: string, rest: string, prefix: char, wordStart: bool)
    requires prefix !in w
    ensures CoreLetters(w + [prefix] + rest, prefix, wordStart) == CoreLetters(w, prefix, wordStart) + CoreLetters(rest, prefix, true)
  {
    if w == [] {
      assert w + [prefix] + rest == [prefix] + rest;
    } else {
      assert (w + [prefix] + rest)[1..] == w[1..] + [prefix] + rest;
      CoreLettersAfterWord(w[1..], rest, prefix, false);
    }
  }

  /** The words of a kebab-case name, each capitalized, run together. */
  function PascalWords(words: seq<string>): string
  {
    if words == [] then "" else Capitalize(words[0]) + PascalWords(words[1..])
  }

  /** `--startup-session` style: the words joined by the prefix become the capitalized words run together. */
  lemma {:induction false} KebabBecomesPascal(words: seq<string>, prefix: char)
    requires |words| >= 1 && forall k :: 0 <= k < |words| ==> prefix !in words[k]
    ensures CoreLetters(Join([prefix], words), prefix, true) == PascalWords(words)
  {
    CoreLettersOfWord(words[0], prefix);
    if |words| == 1 {
      assert PascalWords(words[1..]) == "";
    } else {
      JoinCons(words[0], words[1..], [prefix]);
      CoreLettersAfterWord(words[0], Join([prefix], words[1..]), prefix, true);
      KebabBecomesPascal(words[1..], prefix);
    }
  }

  // ---------------------------------------------------------------- NormalizeParsedArgs

  /**
   * How one key is rewritten: a blank key stays; `-n` becomes `n`; `--long-name`
   * becomes its PascalCase long name; `-LongName` loses its prefix; anything
   * else (a key without the prefix, or the bare prefix) is not supported.
   */
  function NormalizeKey(key: string, prefix: char): (r: Result<string>)
    ensures IsNullOrWhiteSpace(Some(key)) ==> r == Success(key)
    ensures r.Failure? <==> !IsNullOrWhiteSpace(Some(key)) && (|key| < 2 || key[0] != prefix)
    ensures r.Failure? ==> r.error == NotSupported(BadOptionName(key))
    ensures !IsNullOrWhiteSpace(Some(key)) && r.Success? ==> |r.value| < |key|
    ensures !IsNullOrWhiteSpace(Some(key)) && |key| >= 2 && key[0] == prefix && key[1] != prefix ==> r == Success(key[1..])
  {
    if IsNullOrWhiteSpace(Some(key)) then Success(key)
    else if |key| == 2 && key[0] == prefix then
      assert [key[1]] == key[1..];
      Success([key[1]])
    else if |key| > 2 && key[0] == prefix then Success(if key[1] == prefix then CoreLongName(key, prefix) else key[1..])
    else Failure(NotSupported(BadOptionName(key)))
  }

  /** Every key rewritten in order, values untouched; the first unsupported key fails the whole list. */
  function NormalizeAll(groups: seq<Group>, prefix: char): (r: Result<seq<Group>>)
    ensures r.Success? ==> |r.value| == |groups|
  {
    if groups == [] then Success([])
    else
      var n := |groups| - 1;
      match NormalizeAll(groups[..n], prefix)
      case Failure(e) => Failure(e)
      case Success(done) =>
        match NormalizeKey(groups[n].key, prefix)
        case Failure(e) => Failure(e)
        case Success(k) => Success(done + [Entry(k, groups[n].value)])
  }

  /** Normalisation rewrites keys only: the list keeps its length and every value, and each key is its rewritten form. */
  lemma {:induction false} NormalizeAllKeepsValues(groups: seq<Group>, prefix: char)
    requires NormalizeAll(groups, prefix).Success?
    ensures var gs := NormalizeAll(groups, prefix).value;
      forall i :: 0 <= i < |groups| ==>
        gs[i].value == groups[i].value && NormalizeKey(groups[i].key, prefix) == Success(gs[i].key)
  {
    if groups != [] {
      var n := |groups| - 1;
      NormalizeAllKeepsValues(groups[..n], prefix);
    }
  }

  /** The list is rejected exactly when some key is unsupported, and then with the first such key's error. */
  lemma {:induction false} NormalizeAllFailsAtFirstBadKey(groups: seq<Group>, prefix: char, j: nat)
    requires j < |groups| && NormalizeKey(groups[j].key, prefix).Failure?
    requires forall k :: 0 <= k < j ==> NormalizeKey(groups[k].key, prefix).Success?
    ensures NormalizeAll(groups, prefix) == Failure(NotSupported(BadOptionName(groups[j].key)))
  {
    var n := |groups| - 1;
    if j < n {
      assert groups[..n][j] == groups[j];
      assert forall k :: 0 <= k < j ==> groups[..n][k] == groups[k];
      NormalizeAllFailsAtFirstBadKey(groups[..n], prefix, j);
    } else {
      NormalizeAllSucceeds(groups[..n], prefix);
    }
  }

  lemma {:induction false} NormalizeAllSucceeds(groups: seq<Group>, prefix: char)
    requires forall k :: 0 <= k < |groups| ==> NormalizeKey(groups[k].key, prefix).Success?
    ensures NormalizeAll(groups, prefix).Success?
  {
    if groups != [] {
      var n := |groups| - 1;
      assert forall k :: 0 <= k < n ==> groups[..n][k] == groups[k];
      NormalizeAllSucceeds(groups[..n], prefix);
    }
  }

  lemma NormalizeAllSnoc(groups: seq<Group>, i: nat, prefix: char)
    requires i < |groups|
    ensures NormalizeAll(groups[..i + 1], prefix) ==
      match NormalizeAll(groups[..i], prefix)
      case Failure(e) => Failure(e)
      case Success(done) =>
        match NormalizeKey(groups[i].key, prefix)
        case Failure(e) => Failure(e)
        case Success(k) => Success(done + [Entry(k, groups[i].value)])
  {
    assert groups[..i + 1][..i] == groups[..i];
  }

  /**
   * `NormalizeParsedArgs(parsedArgs, prefix)`: each key in turn is replaced
   * by its rewritten form; an unsupported key throws, leaving the earlier
   * replacements made.  Values and the number of entries never change.
   */
  method NormalizeParsedArgs(parsedArgs: ListGroup<seq<string>>, prefix: char) returns (r: Outcome)
    requires parsedArgs.Valid()
    modifies parsedArgs
    ensures parsedArgs.Valid() && parsedArgs.values == old(parsedArgs.values) && |parsedArgs.keys| == old(|parsedArgs.keys|)
    ensures match NormalizeAll(old(parsedArgs.Items()), prefix)
      case Failure(e) => r == Fail(e)
      case Success(gs) => r == Pass && parsedArgs.Items() == gs
  {
    ghost var before := parsedArgs.Items();
    ghost var oldKeys := parsedArgs.keys;
    var n := |parsedArgs.keys|;
    var i := 0;
    while i < n
      invariant 0 <= i <= n && parsedArgs.Valid() && |parsedArgs.keys| == n
      invariant parsedArgs.values == old(parsedArgs.values)
      invariant forall j :: i <= j < n ==> parsedArgs.keys[j] == oldKeys[j]
      invariant forall j :: 0 <= j < i ==> NormalizeKey(oldKeys[j], prefix) == Success(parsedArgs.keys[j])
    {
      var option := parsedArgs.keys[i];
      var k := NormalizeKey(option, prefix);
      if k.Failure? {
        NormalizeAllFailsAtFirstBadKey(before, prefix, i);
        return Fail(k.error);
      }
      var replaced := parsedArgs.ReplaceKey(i, Some(k.value));
      i := i + 1;
    }
    NormalizeAllOfEach(before, parsedArgs.Items(), prefix);
    r := Pass;
  }

  /** A list whose every entry is the rewritten form of the matching entry of another is that list's normalisation. */
  lemma {:induction false} NormalizeAllOfEach(groups: seq<Group>, gs: seq<Group>, prefix: char)
    requires |groups| == |gs|
    requires forall j :: 0 <= j < |gs| ==> gs[j].value == groups[j].value && NormalizeKey(groups[j].key, prefix) == Success(gs[j].key)
    ensures NormalizeAll(groups, prefix) == Success(gs)
  {
    if groups != [] {
      var n := |groups| - 1;
      assert forall j :: 0 <= j < n ==> groups[..n][j] == groups[j] && gs[..n][j] == gs[j];
      NormalizeAllOfEach(groups[..n], gs[..n], prefix);
      assert gs == gs[..n] + [Entry(gs[n].key, groups[n].value)];
    }
  }

  // ---------------------------------------------------------------- the three styles

  /** A name in PascalCase written in Windows style, in Cmd style, or (when it has no `-`) as itself after `-`, all read back as that name. */
  lemma PrefixedStylesAgree(name: string)
    requires |name| >= 2 && !IsPrefixChar(name[0])
    ensures NormalizeKey("-" + name, '-') == Success(name)
    ensures NormalizeKey("/" + name, '/') == Success(name)
  {
    assert ("-" + name)[1..] == name && ("/" + name)[1..] == name;
    assert ("-" + name)[0] == '-' && ("/" + name)[0] == '/';
  }

  /** Linux style in general: `--` and words joined by `-` read back as the capitalized words run together. */
  lemma KebabKeyNormalizes(words: seq<string>, prefix: char)
    requires IsPrefixChar(prefix) && |words| >= 1 && words[0] != ""
    requires forall k :: 0 <= k < |words| ==> prefix !in words[k]
    ensures NormalizeKey([prefix, prefix] + Join([prefix], words), prefix) == Success(PascalWords(words))
  {
    var joined := Join([prefix], words);
    var key := [prefix, prefix] + joined;
    if |words| > 1 {
      JoinCons(words[0], words[1..], [prefix]);
      assert words == [words[0]] + words[1..];
    }
    assert |joined| >= 1;
    assert key[0] == prefix && key[1] == prefix && key[2..] == joined;
    assert !IsWhiteSpace(key[0]);
    KebabBecomesPascal(words, prefix);
  }

  lemma StartupSessionWords()
    ensures Join("-", ["startup", "session"]) == "startup" + "-" + "session"
    ensures PascalWords(["startup", "session"]) == "StartupSession"
  {
    var words := ["startup", "session"];
    JoinCons("startup", ["session"], "-");
    assert words == ["startup"] + ["session"];
    assert ToUpper('s') == 'S';
    assert Capitalize("startup") == "Startup" && Capitalize("session") == "Session";
    assert words[1..] == ["session"] && words[1..][1..] == [];
    assert PascalWords(["session"]) == "Session" + PascalWords([]);
    assert PascalWords(words) == "Startup" + PascalWords(["session"]);
  }

  /** Linux style: `--startup-session` reads back as `StartupSession`. */
  lemma KebabStyleExample()
    ensures NormalizeKey("--" + "startup" + "-" + "session", '-') == Success("StartupSession")
  {
    var words := ["startup", "session"];
    StartupSessionWords();
    KebabKeyNormalizes(words, '-');
    var key := ['-', '-'] + Join("-", words);
    assert key == "--" + "startup" + "-" + "session";
  }

  /** The same option in the three styles reads back as the same key. */
  lemma ThreeStylesAgree()
    ensures NormalizeKey("-" + "StartupSession", '-') == NormalizeKey("/" + "StartupSession", '/') == NormalizeKey("--" + "startup" + "-" + "session", '-')
  {
    PrefixedStylesAgree("StartupSession");
    KebabStyleExample();
  }

  /** A URL query key reads back as itself with its first letter upper-cased: `FormatShellLongName` and normalisation undo each other. */
  lemma ShellLongNameReadsBack(key: string)
    requires key != "" && key[0] != '-'
    ensures NormalizeKey(FormatShellLongName(key).value, '-') == Success(Capitalize(key))
  {
    var s := FormatShellLongName(key).value;
    assert s == "-" + Capitalize(key) && s[1..] == Capitalize(key);
    assert s[0] == '-' && !IsWhiteSpace(s[0]);
    assert s[1] == ToUpper(key[0]) != '-';
  }
}
