/**
 * `ToAssignableValue`: turns the raw values of one option into the value a
 * property of a given type receives.  `bool` is matched first by identity;
 * then the probe types are tried in a fixed order and the first one the
 * property type is assignable from decides the conversion.
 */
module Coercion {
  import opened Wrappers
  import opened DotNet
  import opened Reflection

  /** A converted value. Floating-point targets keep their text: their parsing is not modelled. */
  datatype Value =
    | BoolValue(b: bool)
    | StringValue(s: string)
    | IntegerValue(kind: Probe, n: int)
    | FloatText(kind: Probe, text: string)
    | FileValue(path: string)
    | DirectoryValue(path: string)
    | StringArrayValue(items: seq<string>)
    | ListValue(items: seq<string>)
    | CollectionValue(items: seq<string>)
    | DictionaryValue(pairs: seq<(string, string)>)
    | PairValue(key: Option<string>, val: Option<string>)

  /** `MergeList`: null is "", one value is itself, several are joined with single spaces. */
  function MergeList(values: Option<seq<string>>): string
  {
    match values
    case None => ""
    case Some(vs) => if |vs| == 1 then vs[0] else Join(" ", vs)
  }

  /** The range of each integral probe type. */
  function IntegerRange(p: Probe): (int, int)
  {
    match p
    case PByte => (0, 0xFF)
    case PInt16 => (-0x8000, 0x7FFF)
    case PUInt16 => (0, 0xFFFF)
    case PInt32 => (-0x8000_0000, 0x7FFF_FFFF)
    case PUInt32 => (0, 0xFFFF_FFFF)
    case PInt64 => (-0x8000_0000_0000_0000, 0x7FFF_FFFF_FFFF_FFFF)
    case PUInt64 => (0, 0xFFFF_FFFF_FFFF_FFFF)
    case _ => (0, 0)
  }

  predicate IsIntegerProbe(p: Probe)
  {
    p in {PByte, PInt16, PUInt16, PInt32, PUInt32, PInt64, PUInt64}
  }

  /** The first probe type, in probing order, that a type assignable from `accepts` matches. */
  function FirstProbe(accepts: set<Probe>): (r: Option<Probe>)
    ensures r.Some? ==> r.value in accepts
  {
    if PString in accepts then Some(PString)
    else if PByte in accepts then Some(PByte)
    else if PInt16 in accepts then Some(PInt16)
    else if PUInt16 in accepts then Some(PUInt16)
    else if PInt32 in accepts then Some(PInt32)
    else if PUInt32 in accepts then Some(PUInt32)
    else if PInt64 in accepts then Some(PInt64)
    else if PUInt64 in accepts then Some(PUInt64)
    else if PSingle in accepts then Some(PSingle)
    else if PDouble in accepts then Some(PDouble)
    else if PDecimal in accepts then Some(PDecimal)
    else if PFileInfo in accepts then Some(PFileInfo)
    else if PDirectoryInfo in accepts then Some(PDirectoryInfo)
    else if PStringArray in accepts then Some(PStringArray)
    else if PList in accepts then Some(PList)
    else if PCollection in accepts then Some(PCollection)
    else if PDictionary in accepts then Some(PDictionary)
    else if PKeyValuePair in accepts then Some(PKeyValuePair)
    else None
  }

  /** The place of a probe type in the probing order. */
  function Rank(p: Probe): (i: nat)
    ensures i < |ProbeOrder| && ProbeOrder[i] == p
  {
    match p
    case PString => 0 case PByte => 1 case PInt16 => 2 case PUInt16 => 3
    case PInt32 => 4 case PUInt32 => 5 case PInt64 => 6 case PUInt64 => 7
    case PSingle => 8 case PDouble => 9 case PDecimal => 10 case PFileInfo => 11
    case PDirectoryInfo => 12 case PStringArray => 13 case PList => 14
    case PCollection => 15 case PDictionary => 16 case PKeyValuePair => 17
  }

  /** A type assignable from probe type `p` gets a probe, and one no later than `p`. */
  lemma FirstProbeFindsAny(accepts: set<Probe>, p: Probe)
    requires p in accepts
    ensures FirstProbe(accepts).Some? && Rank(FirstProbe(accepts).value) <= Rank(p)
  {
  }

  /**
   * The probe chosen is the earliest one in `ProbeOrder` that the type is
   * assignable from, and none is chosen exactly when the type is
   * assignable from no probe type at all.
   */
  lemma FirstProbeFollowsOrder(accepts: set<Probe>)
    ensures FirstProbe(accepts).None? <==> accepts == {}
    ensures FirstProbe(accepts).Some? ==>
      exists i :: 0 <= i < |ProbeOrder| && ProbeOrder[i] == FirstProbe(accepts).value
        && forall j :: 0 <= j < i ==> ProbeOrder[j] !in accepts
  {
    if accepts != {} {
      var p :| p in accepts;
      FirstProbeFindsAny(accepts, p);
      var i := Rank(FirstProbe(accepts).value);
      assert forall j :: 0 <= j < i ==> ProbeOrder[j] !in accepts;
    }
  }

  /** The `;`-separated `key=value` entries: pieces with exactly two `=`-parts, both trimmed. */
  function EntryPairs(pieces: seq<string>): (r: seq<(string, string)>)
    ensures |r| <= |pieces|
  {
    if pieces == [] then []
    else
      PieceEntries(pieces[0]) + EntryPairs(pieces[1..])
  }

  /** `ParseArgsToDictionary`; equal keys (ignoring case) throw. */
  function ParseArgsToDictionary(values: Option<seq<string>>): Result<seq<(string, string)>>
  {
    ToDictionaryIgnoreCase(EntryPairs(Split(MergeList(values), ';')))
  }

  /** `ToAssignableValue(values, type)`. */
  function ToAssignableValue(values: Option<seq<string>>, t: TypeTag): (r: Result<Value>)
  {
    if t.BoolType? then
      if values.Some? && |values.value| == 0 then Failure(ArgumentOutOfRange)
      else
        var parsed := if values.Some? then BoolTryParse(values.value[0]) else None;
        Success(BoolValue(parsed != Some(false)))
    else
      match FirstProbe(t.assignableFrom)
      case None => Failure(NotSupported(UnsupportedTargetType))
      case Some(p) => ConvertTo(values, p)
  }

  /** A conversion from the raw values of an option to the value a property of the given type receives. */
  type Converter = (Option<seq<string>>, TypeTag) -> Result<Value>

  function ConvertTo(values: Option<seq<string>>, p: Probe): Result<Value>
  {
    var merged := MergeList(values);
    match p
    case PString => Success(StringValue(merged))
    case PSingle => Success(FloatText(p, merged))
    case PDouble => Success(FloatText(p, merged))
    case PDecimal => Success(FloatText(p, merged))
    case PFileInfo => Success(FileValue(Trim(merged)))
    case PDirectoryInfo => Success(DirectoryValue(Trim(merged)))
    case PStringArray => if values.None? then Failure(ArgumentNull) else Success(StringArrayValue(values.value))
    case PList => if values.None? then Failure(ArgumentNull) else Success(ListValue(values.value))
    case PCollection => if values.None? then Failure(ArgumentNull) else Success(CollectionValue(values.value))
    case PDictionary => DictionaryOf(ParseArgsToDictionary(values))
    case PKeyValuePair => FirstPair(ParseArgsToDictionary(values))
    case _ => Success(ConvertInteger(merged, p))
  }

  /** A parsed dictionary as a value. */
  function DictionaryOf(d: Result<seq<(string, string)>>): Result<Value>
  {
    match d
    case Failure(e) => Failure(e)
    case Success(pairs) => Success(DictionaryValue(pairs))
  }

  /** `FirstOrDefault()` of a parsed dictionary: its first entry, or the default pair of two nulls. */
  function FirstPair(d: Result<seq<(string, string)>>): Result<Value>
  {
    match d
    case Failure(e) => Failure(e)
    case Success(pairs) => Success(if pairs == [] then PairValue(None, None) else PairValue(Some(pairs[0].0), Some(pairs[0].1)))
  }

  /** An integral conversion: the parsed value when the text is an in-range integer, otherwise 0; always within the type's range. */
  function IntegerOf(text: string, p: Probe): (r: int)
    ensures IntegerRange(p).0 <= r <= IntegerRange(p).1
  {
    var (lo, hi) := IntegerRange(p);
    match ParseInteger(text, lo, hi)
    case Some(v) => v
    case None => 0
  }

  function ConvertInteger(text: string, p: Probe): (r: Value)
    ensures r.IntegerValue? && r.kind == p
    ensures IntegerRange(p).0 <= r.n <= IntegerRange(p).1
  {
    IntegerValue(p, IntegerOf(text, p))
  }

  // ---------------------------------------------------------------- properties

  /** A non-`bool` type converts by its first probe type. */
  lemma ViaProbe(values: Option<seq<string>>, t: TypeTag, p: Probe)
    requires t.ClrType? && FirstProbe(t.assignableFrom) == Some(p)
    ensures ToAssignableValue(values, t) == ConvertTo(values, p)
  {
  }

  /** An integral type converts a single value to its parsed value when that is in range, and to 0 otherwise. */
  lemma IntegerConversion(t: TypeTag, p: Probe, text: string)
    requires t.ClrType? && FirstProbe(t.assignableFrom) == Some(p) && IsIntegerProbe(p)
    ensures ToAssignableValue(Some([text]), t)
      == Success(IntegerValue(p, ParseInteger(text, IntegerRange(p).0, IntegerRange(p).1).GetOr(0)))
  {
    ViaProbe(Some([text]), t, p);
  }

  /** A switch is on unless its first value reads as `false`: no value, `true` and any non-boolean text all give `true`. */
  lemma BoolConversion(values: Option<seq<string>>)
    requires values.Some? ==> |values.value| > 0
    ensures ToAssignableValue(values, BoolType).Success?
    ensures ToAssignableValue(values, BoolType).value == BoolValue(false)
      <==> values.Some? && BoolTryParse(values.value[0]) == Some(false)
  {
  }

  /** A string target receives the merged text: "" for no values, the value itself for one, and the values joined with single spaces for several. */
  lemma StringConversion(values: Option<seq<string>>)
    ensures ToAssignableValue(values, StringType) == Success(StringValue(MergeList(values)))
    ensures values.None? ==> MergeList(values) == ""
    ensures values.Some? && |values.value| == 1 ==> MergeList(values) == values.value[0]
    ensures values.Some? && |values.value| >= 2 ==>
      MergeList(values) == values.value[0] + " " + MergeList(Some(values.value[1..]))
  {
    assert FirstProbe({PString}) == Some(PString);
  }

  /** `object` accepts a string, so an `object` property gets the merged text: the earliest probe wins. */
  lemma ObjectTakesStringBranch(values: Option<seq<string>>)
    ensures ToAssignableValue(values, ObjectType) == Success(StringValue(MergeList(values)))
  {
    assert PString in ObjectType.assignableFrom;
  }

  /** An `int` target reads back any in-range integer written in decimal. */
  lemma Int32Conversion(n: int)
    requires -0x8000_0000 <= n <= 0x7FFF_FFFF
    ensures ToAssignableValue(Some([FormatInteger(n)]), Int32Type) == Success(IntegerValue(PInt32, n))
  {
    assert FirstProbe({PInt32}) == Some(PInt32);
    ParseFormatRoundTrip(n, -0x8000_0000, 0x7FFF_FFFF);
    IntegerConversion(Int32Type, PInt32, FormatInteger(n));
  }

  /** Text that is not an in-range `int` converts to 0 rather than failing. */
  lemma Int32Fallback(text: string)
    requires ParseInteger(text, -0x8000_0000, 0x7FFF_FFFF).None?
    ensures ToAssignableValue(Some([text]), Int32Type) == Success(IntegerValue(PInt32, 0))
  {
    assert FirstProbe({PInt32}) == Some(PInt32);
    IntegerConversion(Int32Type, PInt32, text);
  }

  /** A `long` target reads back any in-range integer written in decimal. */
  lemma Int64Conversion(n: int)
    requires -0x8000_0000_0000_0000 <= n <= 0x7FFF_FFFF_FFFF_FFFF
    ensures ToAssignableValue(Some([FormatInteger(n)]), Int64Type) == Success(IntegerValue(PInt64, n))
  {
    assert FirstProbe({PInt64}) == Some(PInt64);
    ParseFormatRoundTrip(n, -0x8000_0000_0000_0000, 0x7FFF_FFFF_FFFF_FFFF);
    IntegerConversion(Int64Type, PInt64, FormatInteger(n));
  }

  /** Array, list and collection targets (and the list interfaces) receive the values in order; null values throw. */
  lemma ListConversion(values: Option<seq<string>>)
    ensures values.Some? ==> ToAssignableValue(values, StringArrayType) == Success(StringArrayValue(values.value))
    ensures values.Some? ==> ToAssignableValue(values, StringListInterface) == Success(StringArrayValue(values.value))
    ensures values.None? ==> ToAssignableValue(values, StringArrayType) == Failure(ArgumentNull)
  {
    assert FirstProbe({PStringArray}) == Some(PStringArray);
    assert FirstProbe({PStringArray, PList, PCollection}) == Some(PStringArray);
  }

  /** File and directory targets receive the merged text trimmed at both ends. */
  lemma FileConversion(values: Option<seq<string>>)
    ensures ToAssignableValue(values, FileInfoType) == Success(FileValue(Trim(MergeList(values))))
  {
    assert FirstProbe({PFileInfo}) == Some(PFileInfo);
    ViaProbe(values, FileInfoType, PFileInfo);
  }

  /** A key/value pair target receives the first parsed dictionary entry, or the default pair when there is none. */
  lemma KeyValuePairConversion(values: Option<seq<string>>)
    ensures var d := ParseArgsToDictionary(values);
      var r := ToAssignableValue(values, StringPairType);
      (d.Failure? ==> r == Failure(d.error))
      && (d.Success? && d.value == [] ==> r == Success(PairValue(None, None)))
      && (d.Success? && d.value != [] ==> r == Success(PairValue(Some(d.value[0].0), Some(d.value[0].1))))
  {
    FirstProbeFindsAny({PKeyValuePair}, PKeyValuePair);
    ViaProbe(values, StringPairType, PKeyValuePair);
  }

  /** A type assignable from none of the probe types is refused. */
  lemma UnsupportedTypeRefused(values: Option<seq<string>>, name: string)
    ensures ToAssignableValue(values, ClrType(name, {})) == Failure(NotSupported(UnsupportedTargetType))
  {
  }

  /** `e` is the trimmed key and value of `piece`, which '=' splits into exactly two parts. */
  predicate EntryOf(piece: string, e: (string, string))
  {
    var kv := Split(piece, '=');
    |kv| == 2 && e == (Trim(kv[0]), Trim(kv[1]))
  }

  /** The entries of one piece: none, or its trimmed key and value. */
  function PieceEntries(piece: string): (r: seq<(string, string)>)
    ensures |r| <= 1
    ensures |r| == 1 <==> |Split(piece, '=')| == 2
    ensures |r| == 1 ==> EntryOf(piece, r[0])
  {
    var kv := Split(piece, '=');
    if |kv| == 2 then [(Trim(kv[0]), Trim(kv[1]))] else []
  }

  /** Each dictionary entry comes from some piece that '=' splits into exactly two parts, trimmed. */
  lemma {:induction false} EntryPairsFromPieces(pieces: seq<string>)
    ensures forall e :: e in EntryPairs(pieces) ==> exists i :: 0 <= i < |pieces| && EntryOf(pieces[i], e)
  {
    if pieces != [] {
      EntryPairsFromPieces(pieces[1..]);
      assert EntryPairs(pieces) == PieceEntries(pieces[0]) + EntryPairs(pieces[1..]);
      forall e | e in EntryPairs(pieces)
        ensures exists i :: 0 <= i < |pieces| && EntryOf(pieces[i], e)
      {
        if e in PieceEntries(pieces[0]) {
          assert e == PieceEntries(pieces[0])[0];
        } else {
          var j :| 0 <= j < |pieces| - 1 && EntryOf(pieces[1..][j], e);
          assert pieces[1..][j] == pieces[j + 1];
        }
      }
    }
  }

  /** Conversely, each piece that '=' splits into exactly two parts gives its trimmed entry. */
  lemma {:induction false} PiecesGiveEntries(pieces: seq<string>, i: nat)
    requires i < |pieces| && |Split(pieces[i], '=')| == 2
    ensures (Trim(Split(pieces[i], '=')[0]), Trim(Split(pieces[i], '=')[1])) in EntryPairs(pieces)
  {
    assert EntryPairs(pieces) == PieceEntries(pieces[0]) + EntryPairs(pieces[1..]);
    if i > 0 {
      assert pieces[1..][i - 1] == pieces[i];
      PiecesGiveEntries(pieces[1..], i - 1);
    }
  }

  lemma {:induction false} EntryPairsAppend(a: seq<string>, b: seq<string>)
    ensures EntryPairs(a + b) == EntryPairs(a) + EntryPairs(b)
  {
    if a != [] {
      assert (a + b)[0] == a[0] && (a + b)[1..] == a[1..] + b;
      EntryPairsAppend(a[1..], b);
    } else {
      assert a + b == b;
    }
  }

  /** Any other piece (no '=', or more than one) is skipped, not an error: removing it changes no entry. */
  lemma MalformedPieceSkipped(before: seq<string>, piece: string, after: seq<string>)
    requires |Split(piece, '=')| != 2
    ensures EntryPairs(before + [piece] + after) == EntryPairs(before + after)
  {
    var single := [piece];
    assert single[0] == piece && single[1..] == [];
    assert EntryPairs(single) == PieceEntries(piece) + EntryPairs([]);
    assert EntryPairs(single) == [];
    EntryPairsAppend(before + single, after);
    EntryPairsAppend(before, single);
    EntryPairsAppend(before, after);
  }

  /** One `key=value` value, with neither part holding '=' or ';', gives the one entry of its trimmed key and value. */
  lemma SingleEntryDictionary(key: string, val: string)
    requires '=' !in key && '=' !in val && ';' !in key && ';' !in val
    ensures ParseArgsToDictionary(Some([key + "=" + val])) == Success([(Trim(key), Trim(val))])
  {
    var text := key + "=" + val;
    assert MergeList(Some([text])) == text;
    assert text == Join([';'], [text]);
    SplitAbsent(text, ';');
    assert text == Join(['='], [key, val]);
    SplitOfJoin([key, val], '=');
    assert Split(MergeList(Some([text])), ';') == [text];
    assert Split(text, '=') == [key, val];
    assert PieceEntries(text) == [(Trim(key), Trim(val))];
    assert [text][1..] == [];
    assert EntryPairs([text]) == [(Trim(key), Trim(val))];
    var pairs := [(Trim(key), Trim(val))];
    assert DistinctKeysIgnoreCase(pairs);
  }

  lemma TrimmedExampleKey()
    ensures Trim("a ") == "a"
  {
    TrimStartSkips("", "a ", WhiteSpace);
    assert "a " == "a" + " ";
    TrimEndSkips("a", " ", WhiteSpace);
  }

  lemma TrimmedExampleValue()
    ensures Trim(" 1") == "1"
  {
    TrimStartSkips(" ", "1", WhiteSpace);
    assert "1" == "1" + "";
    TrimEndSkips("1", "", WhiteSpace);
  }

  /** The white space around '=' is dropped: `-a "a = 1"` gives the entry ("a", "1"). */
  lemma SpacedEntryExample()
    ensures ParseArgsToDictionary(Some(["a = 1"])) == Success([("a", "1")])
  {
    assert "a = 1" == "a " + "=" + " 1";
    assert '=' !in "a " && '=' !in " 1" && ';' !in "a " && ';' !in " 1";
    SingleEntryDictionary("a ", " 1");
    TrimmedExampleKey();
    TrimmedExampleValue();
  }

  /** A dictionary target fails exactly when two entries have keys equal ignoring case; otherwise it holds the entries in order. */
  lemma DictionaryConversion(values: Option<seq<string>>)
    ensures var pairs := EntryPairs(Split(MergeList(values), ';'));
      (ToAssignableValue(values, StringDictionaryType).Success? <==> DistinctKeysIgnoreCase(pairs))
      && (DistinctKeysIgnoreCase(pairs) ==> ToAssignableValue(values, StringDictionaryType) == Success(DictionaryValue(pairs)))
  {
    FirstProbeFindsAny({PDictionary}, PDictionary);
    ViaProbe(values, StringDictionaryType, PDictionary);
  }
}
