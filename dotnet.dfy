/**
 * The behaviour of the .NET base library that the command-line library
 * relies on: character classes, `string.Trim`, `string.Join`,
 * `string.Split`, `string.IndexOf`, ordinal case-insensitive comparison,
 * `bool.TryParse`, integer `TryParse` with `NumberStyles.Integer` and the
 * invariant culture, LINQ `Skip`/`Take`, and `ToDictionary` with a
 * case-insensitive key comparer.
 *
 * Letter classification and case mapping are ASCII only.
 */
module DotNet {
  import opened Wrappers

  // ---------------------------------------------------------------- integers

  /** `int` (System.Int32). */
  newtype int32 = x: int | -0x8000_0000 <= x < 0x8000_0000

  /** Two's-complement wrap-around of unchecked 32-bit arithmetic. */
  function Wrap32(x: int): (r: int32)
    ensures -0x8000_0000 <= x < 0x8000_0000 ==> r as int == x
  {
    ((x + 0x8000_0000) % 0x1_0000_0000 - 0x8000_0000) as int32
  }

  /** The wrapped value differs from the exact one by a multiple of 2^32. */
  lemma Wrap32Congruent(x: int)
    ensures (Wrap32(x) as int - x) % 0x1_0000_0000 == 0
  {
  }

  // ---------------------------------------------------------------- chars

  predicate IsUpper(c: char) { 'A' <= c <= 'Z' }
  predicate IsLower(c: char) { 'a' <= c <= 'z' }
  predicate IsDigit(c: char) { '0' <= c <= '9' }
  predicate IsLetterOrDigit(c: char) { IsUpper(c) || IsLower(c) || IsDigit(c) }

  /** `char.ToUpperInvariant`. */
  function ToUpper(c: char): char
  {
    if IsLower(c) then (c as int - 32) as char else c
  }

  /** `char.ToLowerInvariant`. */
  function ToLower(c: char): char
  {
    if IsUpper(c) then (c as int + 32) as char else c
  }

  /** `char.IsWhiteSpace`: the Unicode space separators, line and paragraph separators and U+0009..U+000D, U+0085. */
  predicate IsWhiteSpace(c: char)
  {
    c == ' ' || ('\t' <= c <= '\r') || c == '\U{0085}' || c == '\U{00A0}' || c == '\U{1680}'
    || ('\U{2000}' <= c <= '\U{200A}') || c == '\U{2028}' || c == '\U{2029}'
    || c == '\U{202F}' || c == '\U{205F}' || c == '\U{3000}'
  }

  /** `string.IsNullOrEmpty`. */
  predicate IsNullOrEmpty(s: Option<string>) { s.None? || s.value == "" }

  /** `string.IsNullOrWhiteSpace`. */
  predicate IsNullOrWhiteSpace(s: Option<string>)
  {
    s.None? || forall i :: 0 <= i < |s.value| ==> IsWhiteSpace(s.value[i])
  }

  // ---------------------------------------------------------------- trimming

  /** The character sets the library trims. */
  datatype TrimSet =
    | WhiteSpace          // `string.Trim()`
    | WhiteSpaceAndNul    // what `bool.TryParse` ignores around its input
    | NumberWhite         // what `NumberStyles.Integer` allows around a number

  predicate Drops(which: TrimSet, c: char)
  {
    match which
    case WhiteSpace => IsWhiteSpace(c)
    case WhiteSpaceAndNul => IsWhiteSpace(c) || c == '\0'
    case NumberWhite => c == ' ' || ('\t' <= c <= '\r')
  }

  /** How many characters `TrimStart` drops: the longest prefix of dropped characters. */
  function LeadingDrops(s: string, drop: TrimSet): (n: nat)
    ensures n <= |s|
    ensures forall k :: 0 <= k < n ==> Drops(drop, s[k])
    ensures n < |s| ==> !Drops(drop, s[n])
    decreases |s|
  {
    if |s| > 0 && Drops(drop, s[0]) then
      var m := LeadingDrops(s[1..], drop);
      assert forall k :: 1 <= k < m + 1 ==> s[k] == s[1..][k - 1];
      m + 1
    else 0
  }

  /** How many characters `TrimEnd` drops: the longest suffix of dropped characters. */
  function TrailingDrops(s: string, drop: TrimSet): (n: nat)
    ensures n <= |s|
    ensures forall k :: |s| - n <= k < |s| ==> Drops(drop, s[k])
    ensures n < |s| ==> !Drops(drop, s[|s| - 1 - n])
    decreases |s|
  {
    if |s| > 0 && Drops(drop, s[|s| - 1]) then
      var m := TrailingDrops(s[..|s| - 1], drop);
      assert forall k :: |s| - 1 - m <= k < |s| - 1 ==> s[k] == s[..|s| - 1][k];
      m + 1
    else 0
  }

  function TrimStart(s: string, drop: TrimSet): string
  {
    s[LeadingDrops(s, drop)..]
  }

  function TrimEnd(s: string, drop: TrimSet): string
  {
    s[..|s| - TrailingDrops(s, drop)]
  }

  /** `string.Trim()`. */
  function Trim(s: string): string
  {
    TrimEnd(TrimStart(s, WhiteSpace), WhiteSpace)
  }

  /** A prefix of a suffix is a middle slice. */
  lemma PrefixOfSuffix(s: string, t: string, r: string, i: int)
    requires 0 <= i <= |s| && t == s[i..] && |r| <= |t| && r == t[..|r|]
    ensures r == s[i..i + |r|]
    ensures forall k :: i + |r| <= k < |s| ==> s[k] == t[k - i]
  {
  }

  /** `Trim` removes exactly the white space at both ends: the result is the slice of `s` between a white-space prefix and a white-space suffix, and it neither starts nor ends with white space. */
  lemma TrimIsFramedSlice(s: string)
    ensures var r := Trim(s); var i := LeadingDrops(s, WhiteSpace);
      i + |r| <= |s| && r == s[i..i + |r|]
      && (forall k :: 0 <= k < i ==> IsWhiteSpace(s[k]))
      && (forall k :: i + |r| <= k < |s| ==> IsWhiteSpace(s[k]))
      && (r != [] ==> !IsWhiteSpace(r[0]) && !IsWhiteSpace(r[|r| - 1]))
  {
    var i := LeadingDrops(s, WhiteSpace);
    var t := TrimStart(s, WhiteSpace);
    var j := TrailingDrops(t, WhiteSpace);
    var r := Trim(s);
    assert r == t[..|t| - j];
    PrefixOfSuffix(s, t, r, i);
    forall k | i + |r| <= k < |s|
      ensures IsWhiteSpace(s[k])
    {
      assert Drops(WhiteSpace, t[k - i]);
    }
    if r != [] {
      assert r[0] == t[0];
      assert !Drops(WhiteSpace, t[0]);
      assert r[|r| - 1] == t[|t| - 1 - j];
      assert !Drops(WhiteSpace, t[|t| - 1 - j]);
    }
  }

  /** Trimming twice is trimming once. */
  lemma TrimIdempotent(s: string)
    ensures Trim(Trim(s)) == Trim(s)
  {
    var r := Trim(s);
    TrimIsFramedSlice(s);
    if r != [] {
      assert LeadingDrops(r, WhiteSpace) == 0;
      assert TrimStart(r, WhiteSpace) == r;
      assert TrailingDrops(r, WhiteSpace) == 0;
    }
  }

  // ---------------------------------------------------------------- search, join, split

  /** `string.IndexOf(char)`: the first position of `c`, or -1. */
  function IndexOf(s: string, c: char): (r: int)
    ensures -1 <= r < |s|
    ensures r >= 0 ==> s[r] == c && forall k :: 0 <= k < r ==> s[k] != c
    ensures r == -1 <==> c !in s
  {
    if |s| == 0 then -1
    else if s[0] == c then 0
    else
      var t := IndexOf(s[1..], c);
      assert c in s[1..] ==> c in s;
      assert c in s && s[0] != c ==> c in s[1..];
      if t < 0 then -1 else t + 1
  }

  /** `string.Join(sep, parts)`. */
  function Join(sep: string, parts: seq<string>): string
  {
    if |parts| == 0 then ""
    else if |parts| == 1 then parts[0]
    else parts[0] + sep + Join(sep, parts[1..])
  }

  /** `string.Split(c)`: every piece between separators, empty pieces included. */
  function Split(s: string, c: char): (r: seq<string>)
    ensures |r| >= 1
    decreases |s|
  {
    var i := IndexOf(s, c);
    if i < 0 then [s] else [s[..i]] + Split(s[i + 1..], c)
  }

  lemma JoinCons(head: string, tail: seq<string>, sep: string)
    requires |tail| >= 1
    ensures Join(sep, [head] + tail) == head + sep + Join(sep, tail)
  {
    assert ([head] + tail)[1..] == tail;
  }

  /** One step of `Split`: the piece before the first separator, then the split of the rest. */
  lemma SplitStep(s: string, c: char, i: int)
    requires i == IndexOf(s, c) && i >= 0
    ensures Split(s, c) == [s[..i]] + Split(s[i + 1..], c)
    ensures s == s[..i] + [c] + s[i + 1..]
  {
  }

  /** `Split` is undone by joining with the separator. */
  lemma {:induction false} SplitJoinRoundTrip(s: string, c: char)
    ensures Join([c], Split(s, c)) == s
    decreases |s|
  {
    var i := IndexOf(s, c);
    if i >= 0 {
      var rest := s[i + 1..];
      SplitJoinRoundTrip(rest, c);
      SplitStep(s, c, i);
      JoinCons(s[..i], Split(rest, c), [c]);
    }
  }

  /** No piece that `Split` returns contains the separator. */
  lemma {:induction false} SplitPiecesLackSeparator(s: string, c: char)
    ensures forall p :: p in Split(s, c) ==> c !in p
    decreases |s|
  {
    var i := IndexOf(s, c);
    if i >= 0 {
      SplitPiecesLackSeparator(s[i + 1..], c);
      assert c !in s[..i] by {
        forall k | 0 <= k < i ensures s[..i][k] != c { }
      }
      assert Split(s, c) == [s[..i]] + Split(s[i + 1..], c);
    }
  }

  /** A string without the separator is its own single piece. */
  lemma SplitAbsent(s: string, c: char)
    requires c !in s
    ensures Split(s, c) == [s]
  {
  }

  /** Joining pieces that lack the separator and splitting again gives the pieces back. */
  lemma {:induction false} SplitOfJoin(parts: seq<string>, c: char)
    requires |parts| >= 1
    requires forall k :: 0 <= k < |parts| ==> c !in parts[k]
    ensures Split(Join([c], parts), c) == parts
  {
    if |parts| == 1 {
      SplitAbsent(parts[0], c);
    } else {
      var head := parts[0];
      var rest := Join([c], parts[1..]);
      var s := head + [c] + rest;
      assert Join([c], parts) == s;
      var i := IndexOf(s, c);
      assert s[|head|] == c;
      assert i == |head| by {
        assert forall k :: 0 <= k < |head| ==> s[k] == head[k];
      }
      assert s[..i] == head;
      assert s[i + 1..] == rest;
      SplitOfJoin(parts[1..], c);
      assert Split(s, c) == [head] + parts[1..];
    }
  }

  /** `Split(c, StringSplitOptions.RemoveEmptyEntries)`. */
  function SplitNonEmpty(s: string, c: char): (r: seq<string>)
    ensures forall p :: p in r ==> p != "" && c !in p
  {
    SplitPiecesLackSeparator(s, c);
    NonEmpty(Split(s, c))
  }

  function NonEmpty(parts: seq<string>): (r: seq<string>)
    ensures forall p :: p in r ==> p != "" && p in parts
  {
    if |parts| == 0 then []
    else if parts[0] == "" then NonEmpty(parts[1..])
    else [parts[0]] + NonEmpty(parts[1..])
  }

  // ---------------------------------------------------------------- case-insensitive comparison

  function FoldCase(s: string): (r: string)
    ensures |r| == |s|
  {
    seq(|s|, i requires 0 <= i < |s| => ToUpper(s[i]))
  }

  /** `StringComparison.OrdinalIgnoreCase` equality. */
  predicate EqualsIgnoreCase(a: string, b: string)
  {
    FoldCase(a) == FoldCase(b)
  }

  /** `s.StartsWith(prefix, StringComparison.OrdinalIgnoreCase)`. */
  predicate StartsWithIgnoreCase(s: string, prefix: string)
  {
    |prefix| <= |s| && EqualsIgnoreCase(s[..|prefix|], prefix)
  }

  /** Two strings equal under case folding have the same length and agree wherever neither is a letter. */
  lemma {:induction false} EqualsIgnoreCaseAgreesOnNonLetters(a: string, b: string, k: int)
    requires EqualsIgnoreCase(a, b) && 0 <= k < |a|
    requires !IsUpper(a[k]) && !IsLower(a[k])
    ensures |a| == |b| && a[k] == b[k]
  {
    assert FoldCase(a)[k] == FoldCase(b)[k];
  }

  // ---------------------------------------------------------------- bool.TryParse

  /** `bool.TryParse`: "true" or "false" in any letter case, optionally surrounded by white space and NUL characters. */
  function BoolTryParse(s: string): (r: Option<bool>)
  {
    var t := TrimEnd(TrimStart(s, WhiteSpaceAndNul), WhiteSpaceAndNul);
    if EqualsIgnoreCase(t, "true") then Some(true)
    else if EqualsIgnoreCase(t, "false") then Some(false)
    else None
  }

  /** `bool.ToString()`. */
  function FormatBool(b: bool): string { if b then "True" else "False" }

  /** `bool.TryParse` reads back what `bool.ToString` writes, also when padded with white space. */
  lemma {:induction false} BoolTryParseRoundTrip(b: bool, pad: string)
    requires forall i :: 0 <= i < |pad| ==> IsWhiteSpace(pad[i])
    ensures BoolTryParse(pad + FormatBool(b) + pad) == Some(b)
  {
    var core := FormatBool(b);
    var s := pad + FormatBool(b) + pad;
    assert s == pad + (core + pad);
    assert !Drops(WhiteSpaceAndNul, core[0]);
    TrimStartSkips(pad, core + pad, WhiteSpaceAndNul);
    assert !Drops(WhiteSpaceAndNul, core[|core| - 1]);
    TrimEndSkips(core, pad, WhiteSpaceAndNul);
    var t := TrimEnd(TrimStart(s, WhiteSpaceAndNul), WhiteSpaceAndNul);
    assert t == core;
    BoolWordsFold();
  }

  lemma BoolWordsFold()
    ensures EqualsIgnoreCase("True", "true") && EqualsIgnoreCase("False", "false")
    ensures !EqualsIgnoreCase("False", "true")
  {
    assert FoldCase("True") == "TRUE" == FoldCase("true");
    assert FoldCase("False") == "FALSE" == FoldCase("false");
  }

  /** `TrimStart` drops a padding of dropped characters and stops at the first kept one. */
  lemma TrimStartSkips(pad: string, rest: string, drop: TrimSet)
    requires forall i :: 0 <= i < |pad| ==> Drops(drop, pad[i])
    requires rest != [] && !Drops(drop, rest[0])
    ensures TrimStart(pad + rest, drop) == rest
  {
    var s := pad + rest;
    assert s[|pad|] == rest[0];
    assert forall k :: 0 <= k < |pad| ==> s[k] == pad[k];
    assert LeadingDrops(s, drop) == |pad|;
    assert s[|pad|..] == rest;
  }

  /** `TrimEnd` drops a trailing padding of dropped characters and stops at the last kept one. */
  lemma TrimEndSkips(rest: string, pad: string, drop: TrimSet)
    requires forall i :: 0 <= i < |pad| ==> Drops(drop, pad[i])
    requires rest != [] && !Drops(drop, rest[|rest| - 1])
    ensures TrimEnd(rest + pad, drop) == rest
  {
    var s := rest + pad;
    assert s[|rest| - 1] == rest[|rest| - 1];
    assert forall k :: |rest| <= k < |s| ==> s[k] == pad[k - |rest|];
    assert TrailingDrops(s, drop) == |pad|;
    assert s[..|rest|] == rest;
  }

  // ---------------------------------------------------------------- integer TryParse

  predicate AllDigits(s: string) { forall i :: 0 <= i < |s| ==> IsDigit(s[i]) }

  function DigitsValue(ds: string): nat
    requires AllDigits(ds)
  {
    if |ds| == 0 then 0 else DigitsValue(ds[..|ds| - 1]) * 10 + (ds[|ds| - 1] as int - '0' as int)
  }

  /**
   * `T.TryParse(s, out v)` for an integral type whose range is `lo..hi`:
   * optional white space, an optional '+' or '-', at least one decimal
   * digit, optional white space, and a value inside the range.
   */
  function ParseInteger(s: string, lo: int, hi: int): (r: Option<int>)
    ensures r.Some? ==> lo <= r.value <= hi
  {
    var t := TrimEnd(TrimStart(s, NumberWhite), NumberWhite);
    var negative := |t| > 0 && t[0] == '-';
    var digits := if |t| > 0 && (t[0] == '-' || t[0] == '+') then t[1..] else t;
    if |digits| == 0 || !AllDigits(digits) then None
    else
      var v: int := if negative then 0 - DigitsValue(digits) else DigitsValue(digits);
      if lo <= v <= hi then Some(v) else None
  }

  function DigitChar(d: int): char
    requires 0 <= d < 10
  {
    ('0' as int + d) as char
  }

  function NatDigits(n: nat): (r: string)
    ensures |r| > 0 && AllDigits(r)
  {
    if n < 10 then [DigitChar(n)] else NatDigits(n / 10) + [DigitChar(n % 10)]
  }

  /** The decimal text of an integer, as `ToString()` writes it in the invariant culture. */
  function FormatInteger(n: int): string
  {
    if n < 0 then "-" + NatDigits(-n) else NatDigits(n)
  }

  lemma {:induction false} NatDigitsValue(n: nat)
    ensures DigitsValue(NatDigits(n)) == n
  {
    if n >= 10 {
      NatDigitsValue(n / 10);
      var ds := NatDigits(n);
      assert ds[..|ds| - 1] == NatDigits(n / 10);
    }
  }

  /** Parsing reads back every in-range integer that `FormatInteger` writes. */
  lemma {:induction false} ParseFormatRoundTrip(n: int, lo: int, hi: int)
    requires lo <= n <= hi
    ensures ParseInteger(FormatInteger(n), lo, hi) == Some(n)
  {
    var s := FormatInteger(n);
    var m: nat := if n < 0 then -n else n;
    var ds := NatDigits(m);
    NatDigitsValue(m);
    assert !Drops(NumberWhite, s[0]);
    assert TrimStart(s, NumberWhite) == s;
    assert s[|s| - 1] == ds[|ds| - 1];
    assert !Drops(NumberWhite, s[|s| - 1]);
    assert TrimEnd(s, NumberWhite) == s;
    if n < 0 {
      assert s[0] == '-' && s[1..] == ds;
    } else {
      assert s == ds && IsDigit(s[0]);
    }
  }

  // ---------------------------------------------------------------- LINQ

  /** `Enumerable.Skip`: a count of zero or less skips nothing. */
  function Skip<T>(s: seq<T>, n: int): (r: seq<T>)
    ensures |r| == if n <= 0 then |s| else if n >= |s| then 0 else |s| - n
  {
    if n <= 0 then s else if n >= |s| then [] else s[n..]
  }

  /** `Enumerable.Take`: a count of zero or less takes nothing, a count beyond the end takes everything. */
  function Take<T>(s: seq<T>, n: int): (r: seq<T>)
    ensures |r| == if n <= 0 then 0 else if n >= |s| then |s| else n
  {
    if n <= 0 then [] else if n >= |s| then s else s[..n]
  }

  /** `Skip(from).Take(count)` is the slice of `s` that starts at `from` and is at most `count` long. */
  lemma {:induction false} SkipTakeIsSlice<T>(s: seq<T>, from: int, count: int)
    requires 0 <= from <= |s| && 0 < count
    ensures var e := if from + count <= |s| then from + count else |s|;
      Take(Skip(s, from), count) == s[from..e]
  {
  }

  // ---------------------------------------------------------------- dictionaries

  predicate HasKeyIgnoreCase(pairs: seq<(string, string)>, key: string)
  {
    exists i :: 0 <= i < |pairs| && EqualsIgnoreCase(pairs[i].0, key)
  }

  predicate DistinctKeysIgnoreCase(pairs: seq<(string, string)>)
  {
    forall i, j :: 0 <= i < j < |pairs| ==> !EqualsIgnoreCase(pairs[i].0, pairs[j].0)
  }

  /**
   * `ToDictionary(..., StringComparer.OrdinalIgnoreCase)`: the pairs are
   * added one by one and the first key equal (ignoring case) to an earlier
   * one throws.  A dictionary that was only ever added to enumerates in
   * insertion order, so the result is the pair sequence itself.
   */
  function ToDictionaryIgnoreCase(pairs: seq<(string, string)>): (r: Result<seq<(string, string)>>)
    ensures r.Success? <==> DistinctKeysIgnoreCase(pairs)
    ensures r.Success? ==> r.value == pairs
    ensures r.Failure? ==> r.error == Argument(DuplicateKey)
    decreases |pairs|
  {
    if pairs == [] then Success([])
    else
      var last := pairs[|pairs| - 1];
      match ToDictionaryIgnoreCase(pairs[..|pairs| - 1])
      case Failure(e) => Failure(e)
      case Success(dict) =>
        if HasKeyIgnoreCase(dict, last.0) then
          assert !DistinctKeysIgnoreCase(pairs) by {
            var i :| 0 <= i < |dict| && EqualsIgnoreCase(dict[i].0, last.0);
            assert pairs[i] == dict[i];
          }
          Failure(Argument(DuplicateKey))
        else
          assert pairs == dict + [last];
          Success(dict + [last])
  }
}
