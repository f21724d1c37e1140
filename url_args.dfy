/**
 * The URL form of a command line: `{protocol}://...?key=value&key=value`.
 * When the first argument is such a URL, the query is turned into
 * `-Key value` argument pairs and every other argument is dropped.
 * Percent-decoding is the identity here: the URL is taken as decoded.
 */
module UrlArgs {
  import opened Wrappers
  import opened DotNet

  /** The URL form applies only for a non-blank protocol name that the first argument starts with, followed by `://`, in any letter case. */
  predicate IsUrlInvocation(protocol: Option<string>, args: seq<string>)
  {
    !IsNullOrWhiteSpace(protocol) && |args| > 0 && StartsWithIgnoreCase(args[0], protocol.value + "://")
  }

  /** Upper-case the first character of a word; the empty word stays empty. */
  function Capitalize(w: string): (r: string)
    ensures |r| == |w|
    ensures w != "" ==> r[0] == ToUpper(w[0]) && r[1..] == w[1..]
  {
    if w == "" then "" else [ToUpper(w[0])] + w[1..]
  }

  /**
   * `FormatShellLongName`: `-` followed by the name with its first character
   * upper-cased; reading the first character of an empty name throws.
   */
  function FormatShellLongName(option: string): (r: Result<string>)
    ensures r.Success? <==> option != ""
    ensures r.Failure? ==> r.error == IndexOutOfRange
    ensures r.Success? ==> r.value == "-" + Capitalize(option)
  {
    if option == "" then Failure(IndexOutOfRange)
    else if IsUpper(option[0]) then Success("-" + option)
    else
      assert [ToUpper(option[0])] + option[1..] == Capitalize(option);
      Success("-" + [ToUpper(option[0])] + option[1..])
  }

  /**
   * One `key=value` piece of the query: its first two `=`-separated parts
   * become `[FormatShellLongName(key), value]`.  A piece without `=` has no
   * second part, and a piece whose key is empty has no first character:
   * both throw.
   */
  function UrlPair(piece: string): (r: Result<seq<string>>)
    ensures r.Success? <==> IndexOf(piece, '=') > 0
    ensures r.Failure? ==> r.error == IndexOutOfRange
    ensures r.Success? ==>
      var i := IndexOf(piece, '=');
      r.value == ["-" + Capitalize(piece[..i]), Split(piece[i + 1..], '=')[0]]
  {
    SplitAtFirst(piece, '=');
    var kv := Split(piece, '=');
    if |kv| < 2 then Failure(IndexOutOfRange)
    else
      match FormatShellLongName(kv[0])
      case Failure(e) => Failure(e)
      case Success(key) => Success([key, kv[1]])
  }

  lemma SplitAtFirst(s: string, c: char)
    ensures var i := IndexOf(s, c);
      (i >= 0 ==> Split(s, c) == [s[..i]] + Split(s[i + 1..], c)) && (i < 0 ==> Split(s, c) == [s])
  {
    var i := IndexOf(s, c);
    if i >= 0 {
      SplitStep(s, c, i);
    } else {
      SplitAbsent(s, c);
    }
  }

  /** Every piece has a non-empty key before its first `=`. */
  predicate WellFormedPieces(pieces: seq<string>)
  {
    pieces == [] || (IndexOf(pieces[0], '=') > 0 && WellFormedPieces(pieces[1..]))
  }

  lemma {:induction false} WellFormedPiecesEach(pieces: seq<string>)
    ensures WellFormedPieces(pieces) <==> forall k :: 0 <= k < |pieces| ==> IndexOf(pieces[k], '=') > 0
  {
    if pieces != [] {
      WellFormedPiecesEach(pieces[1..]);
      assert forall k :: 0 < k < |pieces| ==> pieces[1..][k - 1] == pieces[k];
    }
  }

  /** Every piece of the query in order, each as its argument pair, flattened; the first bad piece throws. */
  function UrlPairs(pieces: seq<string>): (r: Result<seq<string>>)
    ensures r.Success? <==> WellFormedPieces(pieces)
    ensures r.Failure? ==> r.error == IndexOutOfRange
    ensures r.Success? ==> |r.value| == 2 * |pieces|
  {
    if pieces == [] then Success([])
    else
      match UrlPair(pieces[0])
      case Failure(e) => Failure(e)
      case Success(head) =>
        match UrlPairs(pieces[1..])
        case Failure(e) =>
          Failure(e)
        case Success(tail) =>
          Success(head + tail)
  }

  /**
   * `ConvertUrlToArgs`: no `?` gives no arguments; otherwise the text after
   * the first `?` is split on `&`, empty pieces are dropped, and each piece
   * becomes its argument pair.
   */
  function ConvertUrlToArgs(url: string): (r: Result<seq<string>>)
    ensures '?' !in url ==> r == Success([])
    ensures r.Failure? ==> r.error == IndexOutOfRange
    ensures '?' in url ==>
      var pieces := SplitNonEmpty(url[IndexOf(url, '?') + 1..], '&');
      (r.Success? <==> WellFormedPieces(pieces)) && (r.Success? ==> |r.value| == 2 * |pieces|)
  {
    var start := IndexOf(url, '?');
    if start < 0 then Success([])
    else
      var pieces := SplitNonEmpty(url[start + 1..], '&');
      UrlPairs(pieces)
  }

  // ---------------------------------------------------------------- the round trip

  /** A query written from key/value pairs. */
  function QueryPieces(pairs: seq<(string, string)>): (r: seq<string>)
    ensures |r| == |pairs|
  {
    seq(|pairs|, k requires 0 <= k < |pairs| => pairs[k].0 + "=" + pairs[k].1)
  }

  /** The arguments the pairs stand for: `-Key value` for each pair, in order. */
  function ShellArgs(pairs: seq<(string, string)>): (r: seq<string>)
    ensures |r| == 2 * |pairs|
  {
    if pairs == [] then [] else ["-" + Capitalize(pairs[0].0), pairs[0].1] + ShellArgs(pairs[1..])
  }

  /** Keys and values that can be written into a query: no separator inside, and a key is never empty. */
  predicate QuerySafe(pairs: seq<(string, string)>)
  {
    forall k :: 0 <= k < |pairs| ==>
      pairs[k].0 != "" && '=' !in pairs[k].0 && '&' !in pairs[k].0 && '=' !in pairs[k].1 && '&' !in pairs[k].1
  }

  lemma NonEmptyKeepsFilled(parts: seq<string>)
    requires forall k :: 0 <= k < |parts| ==> parts[k] != ""
    ensures NonEmpty(parts) == parts
  {
    if parts != [] {
      NonEmptyKeepsFilled(parts[1..]);
    }
  }

  lemma QueryPieceReadsBack(key: string, value: string)
    requires key != "" && '=' !in key && '=' !in value
    ensures UrlPair(key + "=" + value) == Success(["-" + Capitalize(key), value])
  {
    var piece := key + "=" + value;
    assert piece == key + ['='] + value;
    IndexOfAfterSeparator(key, value, '=');
    assert piece[..|key|] == key && piece[|key| + 1..] == value;
    SplitAbsent(value, '=');
  }

  lemma {:induction false} UrlPairsOfQuery(pairs: seq<(string, string)>)
    requires QuerySafe(pairs)
    ensures UrlPairs(QueryPieces(pairs)) == Success(ShellArgs(pairs))
  {
    if pairs != [] {
      var pieces := QueryPieces(pairs);
      QueryPieceReadsBack(pairs[0].0, pairs[0].1);
      assert pieces[1..] == QueryPieces(pairs[1..]);
      UrlPairsOfQuery(pairs[1..]);
    }
  }

  lemma IndexOfAfterSeparator(a: string, b: string, c: char)
    requires c !in a
    ensures IndexOf(a + [c] + b, c) == |a|
  {
    assert (a + [c] + b)[|a|] == c;
    forall k | 0 <= k < |a|
      ensures (a + [c] + b)[k] != c
    {
      assert (a + [c] + b)[k] == a[k];
    }
  }

  /**
   * The round trip: a URL `{base}?{k1}={v1}&{k2}={v2}...` with `?` only
   * after its base and no separator inside a key or value is converted to
   * `-K1 v1 -K2 v2 ...`.
   */
  lemma UrlRoundTrip(base: string, pairs: seq<(string, string)>)
    requires '?' !in base && QuerySafe(pairs)
    ensures ConvertUrlToArgs(base + "?" + Join("&", QueryPieces(pairs))) == Success(ShellArgs(pairs))
  {
    var query := Join("&", QueryPieces(pairs));
    var url := base + "?" + query;
    assert url == base + ['?'] + query;
    IndexOfAfterSeparator(base, query, '?');
    assert url[|base| + 1..] == query;
    var pieces := QueryPieces(pairs);
    if pairs == [] {
      assert query == "";
      assert Split(query, '&') == [""];
    } else {
      forall k | 0 <= k < |pieces|
        ensures '&' !in pieces[k] && pieces[k] != ""
      {
        assert pieces[k] == pairs[k].0 + "=" + pairs[k].1;
      }
      SplitOfJoin(pieces, '&');
      NonEmptyKeepsFilled(pieces);
    }
    UrlPairsOfQuery(pairs);
  }

  lemma ExampleQuery()
    ensures Join("&", QueryPieces([("cloud", "true"), ("mode", "Display")])) == "cloud=true&mode=Display"
  {
    var q := QueryPieces([("cloud", "true"), ("mode", "Display")]);
    assert q[0] == "cloud" + "=" + "true" == "cloud=true";
    assert q[1] == "mode" + "=" + "Display" == "mode=Display";
    assert q == ["cloud=true", "mode=Display"];
    assert q[1..] == ["mode=Display"];
  }

  lemma ExampleArgs()
    ensures ShellArgs([("cloud", "true"), ("mode", "Display")]) == ["-Cloud", "true", "-Mode", "Display"]
  {
    var pairs := [("cloud", "true"), ("mode", "Display")];
    assert ToUpper('c') == 'C' && ToUpper('m') == 'M';
    assert Capitalize("cloud") == "Cloud" && Capitalize("mode") == "Mode";
    var rest := [("mode", "Display")];
    assert pairs[1..] == rest && rest[1..] == [];
    assert ShellArgs(rest) == ["-" + Capitalize("mode"), "Display"] + ShellArgs([]);
    assert "-" + Capitalize("mode") == "-Mode";
    assert ShellArgs(pairs) == ["-" + Capitalize("cloud"), "true"] + ShellArgs(rest);
    assert "-" + Capitalize("cloud") == "-Cloud";
  }

  /** `walterlv://open/?cloud=true&mode=Display` becomes `-Cloud true -Mode Display`. */
  lemma UrlExample()
    ensures ConvertUrlToArgs("walterlv://open/" + "?" + "cloud=true&mode=Display") == Success(["-Cloud", "true", "-Mode", "Display"])
  {
    var pairs := [("cloud", "true"), ("mode", "Display")];
    UrlRoundTrip("walterlv://open/", pairs);
    ExampleQuery();
    ExampleArgs();
  }

  /** A piece without `=` ends the conversion with an error. */
  lemma BarePieceFails(base: string, key: string)
    requires '?' !in base && key != "" && '=' !in key && '&' !in key
    ensures ConvertUrlToArgs(base + "?" + key) == Failure(IndexOutOfRange)
  {
    var url := base + "?" + key;
    assert url == base + ['?'] + key;
    IndexOfAfterSeparator(base, key, '?');
    assert url[|base| + 1..] == key;
    SplitAbsent(key, '&');
    NonEmptyKeepsFilled([key]);
  }

  lemma BarePieceExample()
    ensures ConvertUrlToArgs("walterlv://open/" + "?" + "silence") == Failure(IndexOutOfRange)
  {
    BarePieceFails("walterlv://open/", "silence");
  }
}
