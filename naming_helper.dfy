/**
 * Naming conventions for option names: the PascalCase check, and the
 * conversions to PascalCase and to kebab-case.  Each conversion walks the
 * name once with two flags, "no letter emitted yet" and "at a word start";
 * `PascalState`/`KebabState` are that walk as functions, and the methods
 * are the loops.
 */
module NamingHelper {
  import opened Wrappers
  import opened DotNet

  // ---------------------------------------------------------------- CheckIsPascalCase

  predicate AllLettersOrDigits(s: string) { forall i :: 0 <= i < |s| ==> IsLetterOrDigit(s[i]) }
  predicate AllUpper(s: string) { forall i :: 0 <= i < |s| ==> IsUpper(s[i]) }

  /** PascalCase: an upper-case first letter, only letters and digits, and not an all-capitals word of three or more letters. */
  predicate IsPascalCase(value: string)
  {
    value != "" && IsUpper(value[0]) && AllLettersOrDigits(value) && !(|value| >= 3 && AllUpper(value))
  }

  /** `CheckIsPascalCase`; reading the first character of an empty string throws. */
  method CheckIsPascalCase(value: string) returns (r: Result<bool>)
    ensures r.Failure? <==> value == ""
    ensures r.Failure? ==> r.error == IndexOutOfRange
    ensures r.Success? ==> (r.value <==> IsPascalCase(value))
  {
    if |value| == 0 {
      return Failure(IndexOutOfRange);
    }
    var first := value[0];
    if !IsUpper(first) {
      return Success(false);
    }
    var i := 0;
    while i < |value|
      invariant 0 <= i <= |value|
      invariant forall k :: 0 <= k < i ==> IsLetterOrDigit(value[k])
    {
      if !IsLetterOrDigit(value[i]) {
        return Success(false);
      }
      i := i + 1;
    }
    if |value| >= 3 {
      var allUpper := true;
      var j := 0;
      while j < |value|
        invariant 0 <= j <= |value|
        invariant allUpper <==> forall k :: 0 <= k < j ==> IsUpper(value[k])
      {
        if !IsUpper(value[j]) {
          allUpper := false;
        }
        j := j + 1;
      }
      if allUpper {
        return Success(false);
      }
    }
    r := Success(true);
  }

  // ---------------------------------------------------------------- the walk's context

  /** No letter occurs in `s`: the walk is still looking for the first letter. */
  predicate NoLetter(s: string) { forall i :: 0 <= i < |s| ==> !IsUpper(s[i]) && !IsLower(s[i]) }

  /** The next character starts a word: nothing came before it, or a separator or a digit did. */
  predicate WordStart(before: string)
  {
    before == [] || !IsLetterOrDigit(before[|before| - 1]) || IsDigit(before[|before| - 1])
  }

  datatype Walk = Walk(out: string, isFirstLetter: bool, isWordStart: bool)

  // ---------------------------------------------------------------- MakePascalCase

  /** One iteration of the `MakePascalCase` loop. */
  function PascalStep(w: Walk, c: char): Walk
  {
    if !IsLetterOrDigit(c) then w.(isWordStart := true)
    else if w.isFirstLetter then
      if IsDigit(c) then w.(isWordStart := true)
      else if !IsUpper(c) then Walk(w.out + [ToUpper(c)], false, false)
      else Walk(w.out + [c], false, false)
    else
      if IsDigit(c) then Walk(w.out + [c], w.isFirstLetter, true)
      else if !IsUpper(c) then Walk(w.out + [if w.isWordStart then ToUpper(c) else c], w.isFirstLetter, false)
      else Walk(w.out + [c], w.isFirstLetter, false)
  }

  function PascalState(s: string): Walk
    decreases |s|
  {
    if s == [] then Walk([], true, true) else PascalStep(PascalState(s[..|s| - 1]), s[|s| - 1])
  }

  /** `MakePascalCase`. */
  method MakePascalCase(oldName: string) returns (r: string)
    ensures r == PascalState(oldName).out
  {
    var builder := "";
    var isFirstLetter := true;
    var isWordStart := true;
    var i := 0;
    while i < |oldName|
      invariant 0 <= i <= |oldName|
      invariant Walk(builder, isFirstLetter, isWordStart) == PascalState(oldName[..i])
    {
      var c := oldName[i];
      assert oldName[..i + 1][..i] == oldName[..i];
      if !IsLetterOrDigit(c) {
        isWordStart := true;
      } else if isFirstLetter {
        if IsDigit(c) {
          isWordStart := true;
        } else if !IsUpper(c) {
          isFirstLetter := false;
          isWordStart := false;
          builder := builder + [ToUpper(c)];
        } else {
          isFirstLetter := false;
          isWordStart := false;
          builder := builder + [c];
        }
      } else {
        if IsDigit(c) {
          isWordStart := true;
          builder := builder + [c];
        } else if !IsUpper(c) {
          builder := builder + [if isWordStart then ToUpper(c) else c];
          isWordStart := false;
        } else {
          isWordStart := false;
          builder := builder + [c];
        }
      }
      i := i + 1;
    }
    assert oldName[..i] == oldName;
    r := builder;
  }

  /**
   * The PascalCase rule stated per input character, without flags: a
   * separator is dropped, a digit before the first letter is dropped, the
   * first letter and any lower-case letter at a word start are upper-cased,
   * every other letter or digit is copied.
   */
  function PascalPiece(before: string, c: char): string
  {
    if !IsLetterOrDigit(c) then []
    else if IsDigit(c) then (if NoLetter(before) then [] else [c])
    else if IsLower(c) && (NoLetter(before) || WordStart(before)) then [ToUpper(c)]
    else [c]
  }

  function PascalReference(s: string): string
    decreases |s|
  {
    if s == [] then [] else PascalReference(s[..|s| - 1]) + PascalPiece(s[..|s| - 1], s[|s| - 1])
  }

  lemma {:induction false} PascalFlags(s: string)
    ensures PascalState(s).isFirstLetter == NoLetter(s)
    ensures PascalState(s).isWordStart == WordStart(s)
    ensures PascalState(s).out == PascalReference(s)
    decreases |s|
  {
    if s != [] {
      var init := s[..|s| - 1];
      PascalFlags(init);
      assert s == init + [s[|s| - 1]];
      assert NoLetter(s) == (NoLetter(init) && !IsUpper(s[|s| - 1]) && !IsLower(s[|s| - 1]));
    }
  }

  /** `MakePascalCase` applies the per-character rule. */
  lemma MakePascalCaseFollowsRule(s: string)
    ensures PascalState(s).out == PascalReference(s)
  {
    PascalFlags(s);
  }

  /** The shape of a PascalCase conversion's output. */
  predicate PascalShaped(r: string)
  {
    AllLettersOrDigits(r) && (r != [] ==> IsUpper(r[0]))
    && forall i :: 0 < i < |r| ==> IsDigit(r[i - 1]) ==> !IsLower(r[i])
  }

  lemma {:induction false} PascalStateShape(s: string)
    ensures var w := PascalState(s);
      PascalShaped(w.out) && |w.out| <= |s|
      && (w.isFirstLetter <==> w.out == [])
      && (w.out != [] && IsDigit(w.out[|w.out| - 1]) ==> w.isWordStart)
    decreases |s|
  {
    if s != [] {
      PascalStateShape(s[..|s| - 1]);
    }
  }

  /**
   * `MakePascalCase` never lengthens a name; its result has only letters and
   * digits, starts with an upper-case letter, and has no lower-case letter
   * right after a digit.
   */
  lemma MakePascalCaseShape(s: string)
    ensures var r := PascalState(s).out;
      |r| <= |s| && AllLettersOrDigits(r) && (r != [] ==> IsUpper(r[0]))
      && (forall i :: 0 < i < |r| ==> IsDigit(r[i - 1]) ==> !IsLower(r[i]))
  {
    PascalStateShape(s);
  }

  lemma {:induction false} PascalFixesShaped(t: string)
    requires PascalShaped(t)
    ensures PascalState(t) == Walk(t, t == [], t == [] || IsDigit(t[|t| - 1]))
    decreases |t|
  {
    if t != [] {
      var init := t[..|t| - 1];
      assert PascalShaped(init);
      PascalFixesShaped(init);
      assert t == init + [t[|t| - 1]];
    }
  }

  /** Converting to PascalCase twice is converting once. */
  lemma MakePascalCaseIdempotent(s: string)
    ensures PascalState(PascalState(s).out).out == PascalState(s).out
  {
    PascalStateShape(s);
    PascalFixesShaped(PascalState(s).out);
  }

  /** A conversion's non-empty result passes the PascalCase check unless it is an all-capitals word of three or more letters. */
  lemma MakePascalCasePassesCheck(s: string)
    ensures var r := PascalState(s).out;
      r != "" && !(|r| >= 3 && AllUpper(r)) ==> IsPascalCase(r)
  {
    PascalStateShape(s);
  }

  // ---------------------------------------------------------------- MakeKebabCase

  /** One iteration of the `MakeKebabCase` loop. */
  function KebabStep(w: Walk, c: char): Walk
  {
    if !IsLetterOrDigit(c) then w.(isWordStart := true)
    else if w.isFirstLetter then
      if IsDigit(c) then w.(isWordStart := true)
      else if IsUpper(c) then Walk(w.out + [ToLower(c)], false, false)
      else Walk(w.out + [c], false, false)
    else
      if IsDigit(c) then Walk(w.out + [c], w.isFirstLetter, true)
      else if IsUpper(c) then Walk(w.out + (if w.isWordStart then "-" else "") + [ToLower(c)], w.isFirstLetter, false)
      else Walk(w.out + (if w.isWordStart then "-" else "") + [c], w.isFirstLetter, false)
  }

  function KebabState(s: string): Walk
    decreases |s|
  {
    if s == [] then Walk([], true, true) else KebabStep(KebabState(s[..|s| - 1]), s[|s| - 1])
  }

  /** `MakeKebabCase`. */
  method MakeKebabCase(oldName: string) returns (r: string)
    ensures r == KebabState(oldName).out
  {
    var builder := "";
    var isFirstLetter := true;
    var isWordStart := true;
    var i := 0;
    while i < |oldName|
      invariant 0 <= i <= |oldName|
      invariant Walk(builder, isFirstLetter, isWordStart) == KebabState(oldName[..i])
    {
      var c := oldName[i];
      assert oldName[..i + 1][..i] == oldName[..i];
      if !IsLetterOrDigit(c) {
        isWordStart := true;
      } else if isFirstLetter {
        if IsDigit(c) {
          isWordStart := true;
        } else if IsUpper(c) {
          isFirstLetter := false;
          isWordStart := false;
          builder := builder + [ToLower(c)];
        } else {
          isFirstLetter := false;
          isWordStart := false;
          builder := builder + [c];
        }
      } else {
        if IsDigit(c) {
          isWordStart := true;
          builder := builder + [c];
        } else if IsUpper(c) {
          if isWordStart {
            builder := builder + "-";
          }
          builder := builder + [ToLower(c)];
          isWordStart := false;
        } else {
          if isWordStart {
            builder := builder + "-";
          }
          builder := builder + [c];
          isWordStart := false;
        }
      }
      i := i + 1;
    }
    assert oldName[..i] == oldName;
    r := builder;
  }

  /**
   * The kebab-case rule stated per input character: separators and digits
   * before the first letter are dropped, letters are lower-cased, and a
   * letter other than the first gets a '-' in front exactly when it starts
   * a word (after a separator or a digit).  A change of case alone is not a
   * word start.
   */
  function KebabPiece(before: string, c: char): string
  {
    if !IsLetterOrDigit(c) then []
    else if IsDigit(c) then (if NoLetter(before) then [] else [c])
    else if NoLetter(before) then [ToLower(c)]
    else (if WordStart(before) then "-" else "") + [ToLower(c)]
  }

  function KebabReference(s: string): string
    decreases |s|
  {
    if s == [] then [] else KebabReference(s[..|s| - 1]) + KebabPiece(s[..|s| - 1], s[|s| - 1])
  }

  lemma {:induction false} KebabFlags(s: string)
    ensures KebabState(s).isFirstLetter == NoLetter(s)
    ensures KebabState(s).isWordStart == WordStart(s)
    ensures KebabState(s).out == KebabReference(s)
    decreases |s|
  {
    if s != [] {
      var init := s[..|s| - 1];
      KebabFlags(init);
      assert s == init + [s[|s| - 1]];
      KebabFlagsStep(KebabState(init), init, s[|s| - 1]);
    }
  }

  /** One step keeps the flags in line with the input read so far and appends the character's piece. */
  lemma KebabFlagsStep(w: Walk, before: string, c: char)
    requires w.isFirstLetter == NoLetter(before) && w.isWordStart == WordStart(before)
    ensures KebabStep(w, c).isFirstLetter == NoLetter(before + [c])
    ensures KebabStep(w, c).isWordStart == WordStart(before + [c])
    ensures KebabStep(w, c).out == w.out + KebabPiece(before, c)
  {
    var s := before + [c];
    assert s[|s| - 1] == c;
    assert forall i :: 0 <= i < |before| ==> s[i] == before[i];
    assert NoLetter(s) == (NoLetter(before) && !IsUpper(c) && !IsLower(c));
    if IsLower(c) { assert ToLower(c) == c; }
  }

  /** `MakeKebabCase` applies the per-character rule. */
  lemma MakeKebabCaseFollowsRule(s: string)
    ensures KebabState(s).out == KebabReference(s)
  {
    KebabFlags(s);
  }

  /** The shape of a kebab-case conversion's output. */
  predicate KebabShaped(r: string)
  {
    (forall i :: 0 <= i < |r| ==> IsLower(r[i]) || IsDigit(r[i]) || r[i] == '-')
    && (r != [] ==> IsLower(r[0]) && r[|r| - 1] != '-')
    && (forall i :: 0 <= i < |r| && r[i] == '-' ==> 0 < i < |r| - 1 && r[i - 1] != '-' && IsLower(r[i + 1]))
  }

  lemma ShapedAppend(out: string, x: char)
    requires KebabShaped(out) && out != [] && (IsLower(x) || IsDigit(x))
    ensures KebabShaped(out + [x])
  {
    var r := out + [x];
    assert forall i :: 0 <= i < |out| ==> r[i] == out[i];
  }

  lemma ShapedHyphen(out: string, x: char)
    requires KebabShaped(out) && out != [] && IsLower(x)
    ensures KebabShaped(out + "-" + [x])
  {
    var r := out + "-" + [x];
    assert forall i :: 0 <= i < |out| ==> r[i] == out[i];
    assert r[|out|] == '-' && r[|out| + 1] == x;
  }

  lemma KebabStepShape(w: Walk, c: char)
    requires KebabShaped(w.out) && (w.isFirstLetter <==> w.out == [])
    ensures var v := KebabStep(w, c); KebabShaped(v.out) && (v.isFirstLetter <==> v.out == [])
  {
    if IsLetterOrDigit(c) && w.isFirstLetter && !IsDigit(c) {
      FirstLetterShaped(c);
    } else if IsLetterOrDigit(c) && !w.isFirstLetter {
      LaterStepShape(w, c);
    }
  }

  lemma FirstLetterShaped(c: char)
    requires IsLetterOrDigit(c) && !IsDigit(c)
    ensures KebabShaped([if IsUpper(c) then ToLower(c) else c])
  {
    assert IsLower(if IsUpper(c) then ToLower(c) else c);
  }

  /** After the first letter, a letter or digit appends to a non-empty shaped output. */
  lemma LaterStepShape(w: Walk, c: char)
    requires KebabShaped(w.out) && w.out != [] && !w.isFirstLetter && IsLetterOrDigit(c)
    ensures KebabShaped(KebabStep(w, c).out) && !KebabStep(w, c).isFirstLetter
  {
    var x := if IsUpper(c) then ToLower(c) else c;
    assert IsLower(x) || IsDigit(x);
    if IsDigit(c) {
      ShapedAppend(w.out, c);
    } else if w.isWordStart {
      ShapedHyphen(w.out, x);
    } else {
      ShapedAppend(w.out, x);
    }
  }

  lemma {:induction false} KebabStateShape(s: string)
    ensures var w := KebabState(s); KebabShaped(w.out) && (w.isFirstLetter <==> w.out == [])
    decreases |s|
  {
    if s != [] {
      KebabStateShape(s[..|s| - 1]);
      KebabStepShape(KebabState(s[..|s| - 1]), s[|s| - 1]);
    }
  }

  /**
   * `MakeKebabCase` yields only lower-case letters, digits and '-'; it starts
   * with a letter; and every '-' sits between a non-hyphen and a letter.
   */
  lemma MakeKebabCaseShape(s: string)
    ensures var r := KebabState(s).out;
      (forall i :: 0 <= i < |r| ==> IsLower(r[i]) || IsDigit(r[i]) || r[i] == '-')
      && (r != [] ==> IsLower(r[0]) && r[|r| - 1] != '-')
      && (forall i :: 0 <= i < |r| && r[i] == '-' ==> 0 < i < |r| - 1 && r[i - 1] != '-' && IsLower(r[i + 1]))
  {
    KebabStateShape(s);
  }

  lemma KebabStateSnoc(s: string, c: char)
    ensures KebabState(s + [c]) == KebabStep(KebabState(s), c)
  {
    assert (s + [c])[..|s + [c]| - 1] == s;
  }

  lemma KebabCaseChangeIsNoBoundaryPrefix()
    ensures KebabState("Foo") == Walk("foo", false, false)
  {
    KebabStateSnoc("", 'F');
    assert "" + ['F'] == "F";
    assert KebabState("F") == Walk("f", false, false);
    KebabStateSnoc("F", 'o');
    assert "F" + ['o'] == "Fo";
    assert KebabState("Fo") == Walk("fo", false, false);
    KebabStateSnoc("Fo", 'o');
    assert "Fo" + ['o'] == "Foo";
    assert KebabState("Foo") == Walk("foo", false, false);
  }

  /** A change of letter case does not start a word: `FooBar` becomes `foobar`. */
  lemma KebabCaseChangeIsNoBoundary()
    ensures KebabState("FooBar").out == "foobar"
  {
    KebabCaseChangeIsNoBoundaryPrefix();
    KebabStateSnoc("Foo", 'B');
    assert "Foo" + ['B'] == "FooB";
    assert KebabState("FooB") == Walk("foob", false, false);
    KebabStateSnoc("FooB", 'a');
    assert "FooB" + ['a'] == "FooBa";
    assert KebabState("FooBa") == Walk("fooba", false, false);
    KebabStateSnoc("FooBa", 'r');
    assert "FooBa" + ['r'] == "FooBar";
    assert KebabState("FooBar") == Walk("foobar", false, false);
  }

  lemma KebabSeparatorIsBoundaryPrefix()
    ensures KebabState("foo_") == Walk("foo", false, true)
  {
    KebabStateSnoc("", 'f');
    assert "" + ['f'] == "f";
    assert KebabState("f") == Walk("f", false, false);
    KebabStateSnoc("f", 'o');
    assert "f" + ['o'] == "fo";
    assert KebabState("fo") == Walk("fo", false, false);
    KebabStateSnoc("fo", 'o');
    assert "fo" + ['o'] == "foo";
    assert KebabState("foo") == Walk("foo", false, false);
    KebabStateSnoc("foo", '_');
    assert "foo" + ['_'] == "foo_";
    assert KebabState("foo_") == Walk("foo", false, true);
  }

  /** A separator starts a word: `foo_bar` becomes `foo-bar`. */
  lemma KebabSeparatorIsBoundary()
    ensures KebabState("foo_bar").out == "foo-bar"
  {
    KebabSeparatorIsBoundaryPrefix();
    KebabStateSnoc("foo_", 'b');
    assert "foo_" + ['b'] == "foo_b";
    assert KebabState("foo_b") == Walk("foo-b", false, false);
    KebabStateSnoc("foo_b", 'a');
    assert "foo_b" + ['a'] == "foo_ba";
    assert KebabState("foo_ba") == Walk("foo-ba", false, false);
    KebabStateSnoc("foo_ba", 'r');
    assert "foo_ba" + ['r'] == "foo_bar";
    assert KebabState("foo_bar") == Walk("foo-bar", false, false);
  }

  lemma KebabDigitIsBoundaryPrefix()
    ensures KebabState("Foo2") == Walk("foo2", false, true)
  {
    KebabCaseChangeIsNoBoundaryPrefix();
    KebabStateSnoc("Foo", '2');
    assert "Foo" + ['2'] == "Foo2";
    assert KebabState("Foo2") == Walk("foo2", false, true);
  }

  /** A digit ends a word: `Foo2Bar` becomes `foo2-bar`. */
  lemma KebabDigitIsBoundary()
    ensures KebabState("Foo2Bar").out == "foo2-bar"
  {
    KebabDigitIsBoundaryPrefix();
    KebabStateSnoc("Foo2", 'B');
    assert "Foo2" + ['B'] == "Foo2B";
    assert KebabState("Foo2B") == Walk("foo2-b", false, false);
    KebabStateSnoc("Foo2B", 'a');
    assert "Foo2B" + ['a'] == "Foo2Ba";
    assert KebabState("Foo2Ba") == Walk("foo2-ba", false, false);
    KebabStateSnoc("Foo2Ba", 'r');
    assert "Foo2Ba" + ['r'] == "Foo2Bar";
    assert KebabState("Foo2Bar") == Walk("foo2-bar", false, false);
  }
}
