/**
 * `RuntimeOptionParser<T>`: the reflection-driven parser for options types
 * whose properties all have public setters.  One options instance is
 * created up front; every setter converts the values for the target
 * property and writes it into that instance.  The instance's property
 * values are a map from property position to converted value.
 */
module RuntimeParser {
  import opened Wrappers
  import opened DotNet
  import opened Attributes
  import opened Reflection
  import opened Coercion
  import opened Registration
  import opened ParserInterface

  /** `SetValueCore(property, string)`: an empty string is passed on as no values. */
  function StringValues(s: string): (r: Option<seq<string>>)
    ensures r.None? <==> s == ""
    ensures r.Some? ==> r.value == [s]
  {
    if s == "" then None else Some([s])
  }

  /** The values a typed setter argument is converted from; a flag carries none. */
  function ArgumentValues(arg: Argument): Option<seq<string>>
  {
    match arg
    case BoolArg(_) => None
    case StringArg(s) => StringValues(s)
    case ListArg(items) => Some(items)
  }

  predicate PropertiesInRange(slots: SlotList, names: map<Name, nat>, count: nat)
  {
    (forall j :: 0 <= j < |slots| ==> slots[j].1.property < count)
    && (forall n :: n in names ==> names[n] < count)
  }

  /** `SetValueCore(property, values)`: convert for the property's type and store, or fail with the converter's error. */
  function Assign(convert: Converter, props: seq<PropertyInfo>, written: map<nat, Value>, prop: nat, vals: Option<seq<string>>): (r: Result<map<nat, Value>>)
    requires prop < |props|
    ensures r.Success? ==> r.value.Keys == written.Keys + {prop}
    ensures r.Success? ==> forall q :: q in written && q != prop ==> r.value[q] == written[q]
  {
    match convert(vals, props[prop].propertyType)
    case Failure(e) => Failure(e)
    case Success(v) => Success(written[prop := v])
  }

  /** The state of the positional walk: the accumulated index offset, the values written so far, and the error that stopped it. */
  datatype Walk = Walk(offset: int32, written: map<nat, Value>, error: Option<Error>)

  function Stored(w: Walk, r: Result<map<nat, Value>>, offset: int32): Walk
  {
    match r
    case Failure(e) => Walk(offset, w.written, Some(e))
    case Success(m) => Walk(offset, m, None)
  }

  /**
   * One slot of `SetValue(values)`: the position is the slot's index plus
   * the offset so far (32-bit addition), the offset grows by the slot's
   * length minus one, a length-1 slot takes the one value at the position
   * and a longer slot takes up to `length` values from the position on.
   */
  function MutableStep(convert: Converter, props: seq<PropertyInfo>, values: PositionalValues, w: Walk, e: (int32, Slot)): Walk
    requires values.Valid() && e.1.property < |props|
  {
    if w.error.Some? then w
    else
      var index := Wrap32(e.0 as int + w.offset as int);
      var offset := Wrap32(w.offset as int + e.1.length as int - 1);
      match SlotValues(values, index, e.1.length)
      case Failure(err) => Walk(offset, w.written, Some(err))
      case Success(vals) => Stored(w, Assign(convert, props, w.written, e.1.property, vals), offset)
  }

  /** The values a slot takes at `index`: the one value there for length 1 (which must exist), otherwise up to `length` values from there on. */
  function SlotValues(values: PositionalValues, index: int32, length: int32): (r: Result<Option<seq<string>>>)
    requires values.Valid()
    ensures r.Failure? ==> length == 1 && !(0 <= index as int < |values.items|)
  {
    if length == 1 then
      match Element(values, index as int)
      case Failure(err) => Failure(err)
      case Success(v) => Success(StringValues(v))
    else Success(Some(Take(Skip(values.items, index as int), length as int)))
  }

  function MutableWalk(convert: Converter, props: seq<PropertyInfo>, values: PositionalValues, slots: SlotList, start: map<nat, Value>): Walk
    requires values.Valid()
    requires forall j :: 0 <= j < |slots| ==> slots[j].1.property < |props|
  {
    if slots == [] then Walk(0, start, None)
    else
      var n := |slots| - 1;
      MutableStep(convert, props, values, MutableWalk(convert, props, values, slots[..n], start), slots[n])
  }

  /**
   * The effect of one setter call on the instance's values.  Unknown names
   * are ignored.  A short-name flag converts "" (that is, no values) and so
   * ignores the flag's value; a long-name flag is written as it is, and only
   * into a `bool` property.
   */
  function MutableEffect(convert: Converter, props: seq<PropertyInfo>, names: map<Name, nat>, slots: SlotList, written: map<nat, Value>, call: SetterCall): (r: (Outcome, map<nat, Value>))
    requires call.Valid() && PropertiesInRange(slots, names, |props|)
  {
    match call
    case Positional(values) =>
      var w := MutableWalk(convert, props, values, slots, written);
      (if w.error.Some? then Fail(w.error.value) else Pass, w.written)
    case ShortTyped(c, arg) => NamedEffect(convert, props, names, written, ShortName(c), ArgumentValues(arg))
    case LongTyped(l, arg) =>
      if arg.BoolArg? then
        if LongName(l) in names && props[names[LongName(l)]].propertyType == BoolType
        then (Pass, written[names[LongName(l)] := BoolValue(arg.b)])
        else (Pass, written)
      else NamedEffect(convert, props, names, written, LongName(l), ArgumentValues(arg))
    case ShortRaw(c, raw) => NamedEffect(convert, props, names, written, ShortName(c), raw)
    case LongRaw(l, raw) => NamedEffect(convert, props, names, written, LongName(l), raw)
  }

  function NamedEffect(convert: Converter, props: seq<PropertyInfo>, names: map<Name, nat>, written: map<nat, Value>, n: Name, vals: Option<seq<string>>): (r: (Outcome, map<nat, Value>))
    requires forall m :: m in names ==> names[m] < |props|
    ensures n !in names ==> r == (Pass, written)
  {
    if n !in names then (Pass, written)
    else
      match Assign(convert, props, written, names[n], vals)
      case Failure(e) => (Fail(e), written)
      case Success(m) => (Pass, m)
  }

  /** The options instance `Activator.CreateInstance<T>()` makes; the setters write its properties. */
  class OptionsInstance {
    var values: map<nat, Value>

    constructor ()
      ensures values == map[]
    {
      values := map[];
    }
  }

  class RuntimeOptionParser {
    const verb: Option<string>
    const properties: seq<PropertyInfo>
    const names: map<Name, nat>
    const slots: SlotList
    const options: OptionsInstance
    /** The conversion every setter applies; the constructor fixes it to `ToAssignableValue`. */
    const convert: Converter

    ghost predicate Valid()
      reads this
    {
      names == NameTable(properties) && slots == SortedSlots(properties)
      && PropertiesInRange(slots, names, |properties|)
    }

    /** The constructor walks the attributed properties once and fills the name and index tables. */
    constructor (verb: Option<string>, properties: seq<PropertyInfo>)
      ensures Valid() && this.verb == verb && this.properties == properties
      ensures fresh(options) && options.values == map[]
      ensures convert == ToAssignableValue
    {
      var instance := new OptionsInstance();
      var ns: map<Name, nat> := map[];
      var ss: SlotList := [];
      for i := 0 to |properties|
        invariant ns == NameTable(properties[..i]) && ss == SortedSlots(properties[..i])
      {
        assert properties[..i + 1][..i] == properties[..i];
        var p := properties[i];
        if p.option.Some? {
          if p.option.value.shortName.Some? {
            ns := ns[ShortName(p.option.value.shortName.value) := i];
          }
          ns := ns[LongName(LongKey(p)) := i];
        }
        if p.value.Some? {
          ss := SortedPut(ss, p.value.value.index, Slot(p.value.value.length, i));
        }
      }
      assert properties[..|properties|] == properties;
      SlotsInRange(properties);
      forall n | n in ns
        ensures ns[n] < |properties|
      {
        NameTableLastWins(properties, n);
      }
      this.verb := verb;
      this.properties := properties;
      names := ns;
      slots := ss;
      options := instance;
      convert := ToAssignableValue;
    }

    /** `SetValueCore(property, values)`. */
    method SetValueCore(prop: nat, vals: Option<seq<string>>) returns (r: Outcome)
      requires prop < |properties|
      modifies options
      ensures var a := Assign(convert, properties, old(options.values), prop, vals);
        (a.Failure? ==> r == Fail(a.error) && options.values == old(options.values))
        && (a.Success? ==> r == Pass && options.values == a.value)
    {
      var a := Assign(convert, properties, options.values, prop, vals);
      if a.Failure? {
        return Fail(a.error);
      }
      options.values := a.value;
      r := Pass;
    }

    /** One slot of `SetValue(values)`. */
    method SetSlot(values: PositionalValues, offset: int32, e: (int32, Slot)) returns (next: int32, r: Outcome)
      requires values.Valid() && e.1.property < |properties|
      modifies options
      ensures MutableStep(convert, properties, values, Walk(offset, old(options.values), None), e)
        == Walk(next, options.values, if r.Fail? then Some(r.error) else None)
    {
      var index := Wrap32(e.0 as int + offset as int);
      next := Wrap32(offset as int + e.1.length as int - 1);
      var vals := SlotValues(values, index, e.1.length);
      if vals.Failure? {
        return next, Fail(vals.error);
      }
      r := SetValueCore(e.1.property, vals.value);
    }

    /** `SetValue(values)`: the slots in ascending index order, stopping at the first failure. */
    method SetPositional(values: PositionalValues) returns (r: Outcome)
      requires values.Valid() && forall j :: 0 <= j < |slots| ==> slots[j].1.property < |properties|
      modifies options
      ensures var w := MutableWalk(convert, properties, values, slots, old(options.values));
        options.values == w.written && r == (if w.error.Some? then Fail(w.error.value) else Pass)
    {
      var offset: int32 := 0;
      for i := 0 to |slots|
        invariant MutableWalk(convert, properties, values, slots[..i], old(options.values)) == Walk(offset, options.values, None)
      {
        MutableWalkSnoc(convert, properties, values, slots, i, old(options.values));
        offset, r := SetSlot(values, offset, slots[i]);
        if r.Fail? {
          MutableWalkStops(convert, properties, values, slots, i + 1, old(options.values));
          return r;
        }
      }
      assert slots[..|slots|] == slots;
      r := Pass;
    }

    /** Every `SetValue` overload: the named setters look their name up and ignore unknown names. */
    method Perform(call: SetterCall) returns (r: Outcome)
      requires Valid() && call.Valid()
      modifies options
      ensures (r, options.values) == MutableEffect(convert, properties, names, slots, old(options.values), call)
    {
      match call
      case Positional(values) =>
        r := SetPositional(values);
      case ShortTyped(c, arg) =>
        r := SetNamed(ShortName(c), ArgumentValues(arg));
      case LongTyped(l, arg) =>
        if arg.BoolArg? {
          if LongName(l) in names && properties[names[LongName(l)]].propertyType == BoolType {
            options.values := options.values[names[LongName(l)] := BoolValue(arg.b)];
          }
          r := Pass;
        } else {
          r := SetNamed(LongName(l), ArgumentValues(arg));
        }
      case ShortRaw(c, raw) =>
        r := SetNamed(ShortName(c), raw);
      case LongRaw(l, raw) =>
        r := SetNamed(LongName(l), raw);
    }

    method SetNamed(n: Name, vals: Option<seq<string>>) returns (r: Outcome)
      requires forall m :: m in names ==> names[m] < |properties|
      modifies options
      ensures (r, options.values) == NamedEffect(convert, properties, names, old(options.values), n, vals)
    {
      if n !in names {
        return Pass;
      }
      r := SetValueCore(names[n], vals);
    }

    /** `Commit()` hands back the one instance the setters wrote into. */
    method Commit() returns (instance: OptionsInstance)
      ensures instance == options
    {
      instance := options;
    }
  }

  lemma MutableWalkSnoc(convert: Converter, props: seq<PropertyInfo>, values: PositionalValues, slots: SlotList, i: nat, start: map<nat, Value>)
    requires values.Valid()
    requires forall j :: 0 <= j < |slots| ==> slots[j].1.property < |props|
    requires i < |slots|
    ensures MutableWalk(convert, props, values, slots[..i + 1], start) == MutableStep(convert, props, values, MutableWalk(convert, props, values, slots[..i], start), slots[i])
  {
    assert slots[..i + 1][..i] == slots[..i];
  }

  /** Once a slot has failed, the later slots change nothing. */
  lemma {:induction false} MutableWalkStops(convert: Converter, props: seq<PropertyInfo>, values: PositionalValues, slots: SlotList, i: nat, start: map<nat, Value>)
    requires values.Valid()
    requires forall j :: 0 <= j < |slots| ==> slots[j].1.property < |props|
    requires i <= |slots| && MutableWalk(convert, props, values, slots[..i], start).error.Some?
    ensures MutableWalk(convert, props, values, slots, start).error == MutableWalk(convert, props, values, slots[..i], start).error
    ensures MutableWalk(convert, props, values, slots, start).written == MutableWalk(convert, props, values, slots[..i], start).written
    decreases |slots| - i
  {
    if i < |slots| {
      assert slots[..i + 1][..i] == slots[..i];
      MutableWalkStops(convert, props, values, slots, i + 1, start);
    } else {
      assert slots[..i] == slots;
    }
  }

  /** A named setter whose name no property registered changes nothing and does not fail. */
  lemma UnknownNameIgnored(props: seq<PropertyInfo>, names: map<Name, nat>, slots: SlotList, written: map<nat, Value>, call: SetterCall)
    requires call.Valid() && PropertiesInRange(slots, names, |props|)
    requires call.ShortTyped? || call.ShortRaw? ==> ShortName(call.shortName) !in names
    requires call.LongTyped? || call.LongRaw? ==> LongName(call.longName) !in names
    requires !call.Positional?
    ensures MutableEffect(ToAssignableValue, props, names, slots, written, call) == (Pass, written)
  {
  }

  /**
   * A short-name flag never looks at its value: `-f` on a `bool` property
   * always writes `true`, whatever value the flag carries.
   */
  lemma ShortFlagIgnoresValue(props: seq<PropertyInfo>, names: map<Name, nat>, slots: SlotList, written: map<nat, Value>, c: char, b: bool)
    requires PropertiesInRange(slots, names, |props|)
    ensures MutableEffect(ToAssignableValue, props, names, slots, written, ShortTyped(c, BoolArg(b)))
      == MutableEffect(ToAssignableValue, props, names, slots, written, ShortTyped(c, BoolArg(true)))
    ensures ShortName(c) in names && props[names[ShortName(c)]].propertyType == BoolType ==>
      MutableEffect(ToAssignableValue, props, names, slots, written, ShortTyped(c, BoolArg(b))) == (Pass, written[names[ShortName(c)] := BoolValue(true)])
  {
    if ShortName(c) in names && props[names[ShortName(c)]].propertyType == BoolType {
      BoolConversion(None);
    }
  }

  /** A long-name flag never fails, writes its value as given, and writes only into a registered `bool` property. */
  lemma LongFlagOnlyForBool(props: seq<PropertyInfo>, names: map<Name, nat>, slots: SlotList, written: map<nat, Value>, l: string, b: bool)
    requires PropertiesInRange(slots, names, |props|)
    ensures var (r, after) := MutableEffect(ToAssignableValue, props, names, slots, written, LongTyped(l, BoolArg(b)));
      r == Pass
      && (after != written ==> LongName(l) in names && props[names[LongName(l)]].propertyType == BoolType)
      && (LongName(l) in names && props[names[LongName(l)]].propertyType == BoolType ==>
          after == written[names[LongName(l)] := BoolValue(b)])
  {
  }

  /** `Assign` writes the converted value into the property and leaves the others alone. */
  lemma AssignWrites(props: seq<PropertyInfo>, written: map<nat, Value>, prop: nat, vals: Option<seq<string>>)
    requires prop < |props|
    ensures var a := Assign(ToAssignableValue, props, written, prop, vals);
      var c := ToAssignableValue(vals, props[prop].propertyType);
      (a.Success? <==> c.Success?)
      && (a.Success? ==> a.value == written[prop := c.value])
      && (a.Failure? ==> a.error == c.error)
  {
  }

  /** A single-value slot at the walk's own position, on a property whose conversion keeps the one string, stores that string and keeps the offset. */
  lemma SingleStringSlot(convert: Converter, props: seq<PropertyInfo>, items: seq<string>, w: Walk, e: (int32, Slot))
    requires |items| >= 1 && w.error == None && w.offset == 0
    requires e.1.length == 1 && 0 <= e.0 as int < |items| && items[e.0] != ""
    requires e.1.property < |props| && convert(Some([items[e.0]]), props[e.1.property].propertyType) == Success(StringValue(items[e.0]))
    ensures MutableStep(convert, props, WholeGroup(items), w, e) == Walk(0, w.written[e.1.property := StringValue(items[e.0])], None)
  {
    assert Element(WholeGroup(items), e.0 as int) == Success(items[e.0]);
  }

  /** No later slot than `j` names the same property. */
  predicate LastSlotFor(slots: SlotList, j: int)
    requires 0 <= j < |slots|
  {
    forall k :: j < k < |slots| ==> slots[k].1.property != slots[j].1.property
  }

  /** Every slot's property is written, and the last slot naming a property put the string at its own index there. */
  predicate OwnValuesWritten(slots: SlotList, items: seq<string>, m: map<nat, Value>)
  {
    (forall j :: 0 <= j < |slots| ==> slots[j].1.property in m)
    && (forall j :: 0 <= j < |slots| && j < |items| && LastSlotFor(slots, j) ==>
          slots[j].1.property in m && m[slots[j].1.property] == StringValue(items[j]))
  }

  lemma OwnValuesWrittenSnoc(slots: SlotList, items: seq<string>, m: map<nat, Value>)
    requires |slots| >= 1 && |slots| <= |items|
    requires OwnValuesWritten(slots[..|slots| - 1], items, m)
    ensures OwnValuesWritten(slots, items, m[slots[|slots| - 1].1.property := StringValue(items[|slots| - 1])])
  {
    var n := |slots| - 1;
    var pre := slots[..n];
    var m' := m[slots[n].1.property := StringValue(items[n])];
    forall j | 0 <= j < |slots|
      ensures slots[j].1.property in m'
    {
      if j < n { assert pre[j] == slots[j]; }
    }
    forall j | 0 <= j < |slots| && j < |items| && LastSlotFor(slots, j)
      ensures slots[j].1.property in m' && m'[slots[j].1.property] == StringValue(items[j])
    {
      if j < n {
        assert pre[j] == slots[j];
        assert slots[n].1.property != slots[j].1.property;
        assert LastSlotFor(pre, j) by {
          forall k | j < k < |pre|
            ensures pre[k].1.property != pre[j].1.property
          {
            assert pre[k] == slots[k];
          }
        }
      }
    }
  }

  /**
   * With one single-value slot per index `0 .. n-1`, the walk never shifts:
   * the last slot to name a property leaves `values[k]` of its own index
   * `k` there (here for string properties).
   */
  lemma {:induction false} SingleSlotsTakeTheirOwnValue(convert: Converter, props: seq<PropertyInfo>, items: seq<string>, slots: SlotList, start: map<nat, Value>)
    requires |items| >= 1 && |slots| <= |items|
    requires forall j :: 0 <= j < |slots| ==> slots[j].0 as int == j && slots[j].1.length == 1 && items[j] != ""
    requires forall j :: 0 <= j < |slots| ==> slots[j].1.property < |props| && props[slots[j].1.property].propertyType == StringType
    requires forall s :: convert(Some([s]), StringType) == Success(StringValue(s))
    ensures var w := MutableWalk(convert, props, WholeGroup(items), slots, start);
      w.error == None && w.offset == 0 && OwnValuesWritten(slots, items, w.written)
  {
    if slots != [] {
      var n := |slots| - 1;
      var pre := slots[..n];
      assert forall j :: 0 <= j < n ==> pre[j] == slots[j];
      SingleSlotsTakeTheirOwnValue(convert, props, items, pre, start);
      assert props[slots[n].1.property].propertyType == StringType;
      SingleSlotsStep(convert, props, items, slots, start);
    }
  }

  /** The step of the lemma above: the last slot takes the value at its own index. */
  lemma SingleSlotsStep(convert: Converter, props: seq<PropertyInfo>, items: seq<string>, slots: SlotList, start: map<nat, Value>)
    requires 1 <= |slots| <= |items|
    requires forall j :: 0 <= j < |slots| ==> slots[j].1.property < |props|
    requires var n := |slots| - 1;
      slots[n].0 as int == n && slots[n].1.length == 1 && items[n] != ""
      && convert(Some([items[n]]), props[slots[n].1.property].propertyType) == Success(StringValue(items[n]))
    requires var w := MutableWalk(convert, props, WholeGroup(items), slots[..|slots| - 1], start);
      w.error == None && w.offset == 0 && OwnValuesWritten(slots[..|slots| - 1], items, w.written)
    ensures var w := MutableWalk(convert, props, WholeGroup(items), slots, start);
      w.error == None && w.offset == 0 && OwnValuesWritten(slots, items, w.written)
  {
    var n := |slots| - 1;
    var w := MutableWalk(convert, props, WholeGroup(items), slots[..n], start);
    SingleStringSlot(convert, props, items, w, slots[n]);
    OwnValuesWrittenSnoc(slots, items, w.written);
  }

  /** `ToAssignableValue` keeps a single string on a `string` property, so the lemma above applies to the parser's own converter. */
  lemma StringsKept()
    ensures forall s :: ToAssignableValue(Some([s]), StringType) == Success(StringValue(s))
  {
    forall s {
      StringConversion(Some([s]));
    }
  }

  /** The `ValueOptions` shape: `Foo` on `-f`, a `long` at index 0, two strings at index 1 and an `int` at index 2. */
  function ValueOptionsProperties(): seq<PropertyInfo>
  {
    [ PropertyInfo("Foo", StringType, true, PublicSetter, Some(OptionAttribute(Some('f'), Some("Foo"))), None),
      PropertyInfo("LongValue", Int64Type, true, PublicSetter, None, Some(ValueAttribute(0, 1))),
      PropertyInfo("Values", StringListInterface, true, PublicSetter, None, Some(ValueAttribute(1, 2))),
      PropertyInfo("Int32Value", Int32Type, true, PublicSetter, None, Some(ValueAttribute(2, 1))) ]
  }

  /** The sorted index table of `ValueOptions`. */
  lemma ValueOptionsSlots()
    ensures SortedSlots(ValueOptionsProperties()) == [(0, Slot(1, 1)), (1, Slot(2, 2)), (2, Slot(1, 3))]
  {
    var props := ValueOptionsProperties();
    assert props[..1][..0] == [];
    assert props[..2][..1] == props[..1];
    assert props[..3][..2] == props[..2];
    assert props[..4][..3] == props[..3];
    assert props[..4] == props;
    var s1: SlotList := [(0, Slot(1, 1))];
    var s2: SlotList := [(0, Slot(1, 1)), (1, Slot(2, 2))];
    assert SortedSlots(props[..1]) == [];
    assert SortedSlots(props[..2]) == s1;
    assert s1[1..] == [];
    assert SortedPut(s1, 1, Slot(2, 2)) == s2;
    assert SortedSlots(props[..3]) == s2;
    assert s2[1..] == [(1, Slot(2, 2))] && s2[1..][1..] == [];
    assert SortedPut(s2[1..], 2, Slot(1, 3)) == [(1, Slot(2, 2)), (2, Slot(1, 3))];
  }

  /** What the `8 x y 2` walk needs of the converter. */
  predicate ReadsValueOptions(convert: Converter)
  {
    convert(Some(["8"]), Int64Type) == Success(IntegerValue(PInt64, 8))
    && convert(Some(["x", "y"]), StringListInterface) == Success(StringArrayValue(["x", "y"]))
    && convert(Some(["2"]), Int32Type) == Success(IntegerValue(PInt32, 2))
  }

  lemma ValueOptionsConversions()
    ensures ReadsValueOptions(ToAssignableValue)
  {
    assert FormatInteger(8) == "8";
    Int64Conversion(8);
    ListConversion(Some(["x", "y"]));
    assert FormatInteger(2) == "2";
    Int32Conversion(2);
  }

  lemma ValueOptionsFirstSlot(convert: Converter, start: map<nat, Value>)
    requires ReadsValueOptions(convert)
    ensures MutableStep(convert, ValueOptionsProperties(), WholeGroup(["8", "x", "y", "2"]), Walk(0, start, None), (0, Slot(1, 1)))
      == Walk(0, start[1 := IntegerValue(PInt64, 8)], None)
  {
    assert Element(WholeGroup(["8", "x", "y", "2"]), 0) == Success("8");
  }

  lemma ValueOptionsSecondSlot(convert: Converter, m: map<nat, Value>)
    requires ReadsValueOptions(convert)
    ensures MutableStep(convert, ValueOptionsProperties(), WholeGroup(["8", "x", "y", "2"]), Walk(0, m, None), (1, Slot(2, 2)))
      == Walk(1, m[2 := StringArrayValue(["x", "y"])], None)
  {
    assert Take(Skip(["8", "x", "y", "2"], 1), 2) == ["x", "y"];
  }

  lemma ValueOptionsThirdSlot(convert: Converter, m: map<nat, Value>)
    requires ReadsValueOptions(convert)
    ensures MutableStep(convert, ValueOptionsProperties(), WholeGroup(["8", "x", "y", "2"]), Walk(1, m, None), (2, Slot(1, 3)))
      == Walk(1, m[3 := IntegerValue(PInt32, 2)], None)
  {
    assert Element(WholeGroup(["8", "x", "y", "2"]), 3) == Success("2");
  }

  lemma ValueOptionsFirstWalk(convert: Converter, start: map<nat, Value>)
    requires ReadsValueOptions(convert)
    ensures MutableWalk(convert, ValueOptionsProperties(), WholeGroup(["8", "x", "y", "2"]), [(0, Slot(1, 1))], start)
      == Walk(0, start[1 := IntegerValue(PInt64, 8)], None)
  {
    var slots: SlotList := [(0, Slot(1, 1))];
    assert slots[..0] == [];
    ValueOptionsFirstSlot(convert, start);
  }

  lemma ValueOptionsSecondWalk(convert: Converter, start: map<nat, Value>)
    requires ReadsValueOptions(convert)
    ensures MutableWalk(convert, ValueOptionsProperties(), WholeGroup(["8", "x", "y", "2"]), [(0, Slot(1, 1)), (1, Slot(2, 2))], start)
      == Walk(1, start[1 := IntegerValue(PInt64, 8)][2 := StringArrayValue(["x", "y"])], None)
  {
    var slots: SlotList := [(0, Slot(1, 1)), (1, Slot(2, 2))];
    assert slots[..1] == [(0, Slot(1, 1))];
    ValueOptionsFirstWalk(convert, start);
    ValueOptionsSecondSlot(convert, start[1 := IntegerValue(PInt64, 8)]);
  }

  lemma ValueOptionsWalkWith(convert: Converter, start: map<nat, Value>)
    requires ReadsValueOptions(convert)
    ensures MutableWalk(convert, ValueOptionsProperties(), WholeGroup(["8", "x", "y", "2"]),
                        [(0, Slot(1, 1)), (1, Slot(2, 2)), (2, Slot(1, 3))], start)
      == Walk(1, start[1 := IntegerValue(PInt64, 8)][2 := StringArrayValue(["x", "y"])][3 := IntegerValue(PInt32, 2)], None)
  {
    var slots: SlotList := [(0, Slot(1, 1)), (1, Slot(2, 2)), (2, Slot(1, 3))];
    assert slots[..2] == [(0, Slot(1, 1)), (1, Slot(2, 2))];
    ValueOptionsSecondWalk(convert, start);
    ValueOptionsThirdSlot(convert, start[1 := IntegerValue(PInt64, 8)][2 := StringArrayValue(["x", "y"])]);
  }

  /**
   * `8 x y 2`: the two-value slot at index 1 shifts the `int` at index 2 to
   * the fourth value, so `LongValue` is 8, `Values` is `x y` and
   * `Int32Value` is 2.
   */
  lemma ValueOptionsWalk(start: map<nat, Value>)
    ensures var w := MutableWalk(ToAssignableValue, ValueOptionsProperties(), WholeGroup(["8", "x", "y", "2"]),
                                 [(0, Slot(1, 1)), (1, Slot(2, 2)), (2, Slot(1, 3))], start);
      w.error == None && {1, 2, 3} <= w.written.Keys
      && w.written[1] == IntegerValue(PInt64, 8)
      && w.written[2] == StringArrayValue(["x", "y"])
      && w.written[3] == IntegerValue(PInt32, 2)
  {
    ValueOptionsConversions();
    ValueOptionsWalkWith(ToAssignableValue, start);
  }
}
