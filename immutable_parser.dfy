/**
 * `ImmutableRuntimeOptionParser<T>`: the reflection-driven parser for
 * options types whose properties are all read-only.  The setters fill a
 * buffer with one slot per attributed property, in declaration order, and
 * `Commit` passes the whole buffer to the constructor whose parameter types
 * are the property types in that order.  Slots never written stay null.
 *
 * The positional setter as the source writes it cannot bind two value
 * properties (see `AsWrittenWalk`); the parser itself uses the corrected
 * walk, which binds exactly as the mutable parser does.
 */
module ImmutableParser {
  import opened Wrappers
  import opened DotNet
  import opened Attributes
  import opened Reflection
  import opened Coercion
  import opened Registration
  import opened ParserInterface
  import opened RuntimeParser

  /** The `_values` buffer: slot `i` belongs to the `i`-th property; `None` is an unwritten (null) slot. */
  type Buffer = seq<Option<Value>>

  function PropertyTypes(props: seq<PropertyInfo>): (r: seq<TypeTag>)
    ensures |r| == |props| && forall i :: 0 <= i < |props| ==> r[i] == props[i].propertyType
  {
    seq(|props|, i requires 0 <= i < |props| => props[i].propertyType)
  }

  /** `SetValueCore(index, values)`: convert for the slot's property type and write that slot, or fail with the converter's error. */
  function Store(convert: Converter, props: seq<PropertyInfo>, buffer: Buffer, prop: nat, vals: Option<seq<string>>): (r: Result<Buffer>)
    requires prop < |props| && |buffer| == |props|
    ensures r.Success? ==> |r.value| == |buffer| && r.value[prop].Some?
    ensures r.Success? ==> forall q :: 0 <= q < |buffer| && q != prop ==> r.value[q] == buffer[q]
  {
    match convert(vals, props[prop].propertyType)
    case Failure(e) => Failure(e)
    case Success(v) => Success(buffer[prop := Some(v)])
  }

  /** The state of a positional walk over the buffer: the accumulated offset, the buffer, and the error that stopped it. */
  datatype Fill = Fill(offset: int32, buffer: Buffer, error: Option<Error>)

  function Filled(f: Fill, r: Result<Buffer>, offset: int32): Fill
  {
    match r
    case Failure(e) => Fill(offset, f.buffer, Some(e))
    case Success(b) => Fill(offset, b, None)
  }

  // ---------------------------------------------------------------- SetValue(values) as written

  /**
   * One pair of `SetValue(values)` as the source writes it: the position is
   * the pair's index plus the offset, the offset grows by the pair's whole
   * length, and the slot written is the one the index table holds at the
   * shifted position; no entry there throws `KeyNotFoundException`.
   */
  function AsWrittenStep(convert: Converter, props: seq<PropertyInfo>, table: SlotList, values: PositionalValues, f: Fill, e: (int32, Slot)): (r: Fill)
    requires values.Valid() && |f.buffer| == |props|
    requires forall j :: 0 <= j < |table| ==> table[j].1.property < |props|
    ensures |r.buffer| == |f.buffer|
  {
    if f.error.Some? then f
    else
      var index := Wrap32(e.0 as int + f.offset as int);
      var offset := Wrap32(f.offset as int + e.1.length as int);
      LookupIsEntry(table, index);
      match Lookup(table, index)
      case None => Fill(offset, f.buffer, Some(KeyNotFound))
      case Some(found) =>
        match SlotValues(values, index, e.1.length)
        case Failure(err) => Fill(offset, f.buffer, Some(err))
        case Success(vals) => Filled(f, Store(convert, props, f.buffer, found.property, vals), offset)
  }

  /** The loop of `SetValue(values)` as written, over the pairs `pairs` of the index table `table`. */
  function AsWrittenWalk(convert: Converter, props: seq<PropertyInfo>, table: SlotList, values: PositionalValues, pairs: SlotList, start: Buffer): (r: Fill)
    requires values.Valid() && |start| == |props|
    requires forall j :: 0 <= j < |table| ==> table[j].1.property < |props|
    ensures |r.buffer| == |start|
  {
    if pairs == [] then Fill(0, start, None)
    else
      var n := |pairs| - 1;
      AsWrittenStep(convert, props, table, values, AsWrittenWalk(convert, props, table, values, pairs[..n], start), pairs[n])
  }

  // ---------------------------------------------------------------- SetValue(values) corrected

  /** One pair of the corrected walk: the offset grows by the length minus one and the pair's own property is written, as in the mutable parser. */
  function CorrectedStep(convert: Converter, props: seq<PropertyInfo>, values: PositionalValues, f: Fill, e: (int32, Slot)): (r: Fill)
    requires values.Valid() && e.1.property < |props| && |f.buffer| == |props|
    ensures |r.buffer| == |f.buffer|
  {
    if f.error.Some? then f
    else
      var index := Wrap32(e.0 as int + f.offset as int);
      var offset := Wrap32(f.offset as int + e.1.length as int - 1);
      match SlotValues(values, index, e.1.length)
      case Failure(err) => Fill(offset, f.buffer, Some(err))
      case Success(vals) => Filled(f, Store(convert, props, f.buffer, e.1.property, vals), offset)
  }

  function CorrectedWalk(convert: Converter, props: seq<PropertyInfo>, values: PositionalValues, slots: SlotList, start: Buffer): (r: Fill)
    requires values.Valid() && |start| == |props|
    requires forall j :: 0 <= j < |slots| ==> slots[j].1.property < |props|
    ensures |r.buffer| == |start|
  {
    if slots == [] then Fill(0, start, None)
    else
      var n := |slots| - 1;
      CorrectedStep(convert, props, values, CorrectedWalk(convert, props, values, slots[..n], start), slots[n])
  }

  lemma CorrectedWalkSnoc(convert: Converter, props: seq<PropertyInfo>, values: PositionalValues, slots: SlotList, i: nat, start: Buffer)
    requires values.Valid() && |start| == |props|
    requires forall j :: 0 <= j < |slots| ==> slots[j].1.property < |props|
    requires i < |slots|
    ensures CorrectedWalk(convert, props, values, slots[..i + 1], start)
      == CorrectedStep(convert, props, values, CorrectedWalk(convert, props, values, slots[..i], start), slots[i])
  {
    assert slots[..i + 1][..i] == slots[..i];
  }

  /** Once a pair has failed, the later pairs change nothing. */
  lemma {:induction false} CorrectedWalkStops(convert: Converter, props: seq<PropertyInfo>, values: PositionalValues, slots: SlotList, i: nat, start: Buffer)
    requires values.Valid() && |start| == |props|
    requires forall j :: 0 <= j < |slots| ==> slots[j].1.property < |props|
    requires i <= |slots| && CorrectedWalk(convert, props, values, slots[..i], start).error.Some?
    ensures CorrectedWalk(convert, props, values, slots, start).error == CorrectedWalk(convert, props, values, slots[..i], start).error
    ensures CorrectedWalk(convert, props, values, slots, start).buffer == CorrectedWalk(convert, props, values, slots[..i], start).buffer
    decreases |slots| - i
  {
    if i < |slots| {
      CorrectedWalkSnoc(convert, props, values, slots, i, start);
      CorrectedWalkStops(convert, props, values, slots, i + 1, start);
    } else {
      assert slots[..i] == slots;
    }
  }

  // ---------------------------------------------------------------- agreement with the mutable parser

  /** The buffer holds what the map holds, and nothing where the map has no entry. */
  predicate Mirrors(buffer: Buffer, written: map<nat, Value>)
  {
    (forall q :: q in written ==> q < |buffer|)
    && forall q :: 0 <= q < |buffer| ==> buffer[q] == if q in written then Some(written[q]) else None
  }

  lemma MirrorsStore(convert: Converter, props: seq<PropertyInfo>, buffer: Buffer, written: map<nat, Value>, prop: nat, vals: Option<seq<string>>)
    requires prop < |props| && |buffer| == |props| && Mirrors(buffer, written)
    ensures var s := Store(convert, props, buffer, prop, vals);
      var a := Assign(convert, props, written, prop, vals);
      s.Success? == a.Success? && (s.Failure? ==> s.error == a.error) && (s.Success? ==> Mirrors(s.value, a.value))
  {
  }

  lemma MirrorsStep(convert: Converter, props: seq<PropertyInfo>, values: PositionalValues, f: Fill, w: RuntimeParser.Walk, e: (int32, Slot))
    requires values.Valid() && e.1.property < |props| && |f.buffer| == |props|
    requires f.offset == w.offset && f.error == w.error && Mirrors(f.buffer, w.written)
    ensures var g := CorrectedStep(convert, props, values, f, e);
      var v := MutableStep(convert, props, values, w, e);
      g.offset == v.offset && g.error == v.error && Mirrors(g.buffer, v.written)
  {
    if f.error.None? {
      var index := Wrap32(e.0 as int + f.offset as int);
      var sv := SlotValues(values, index, e.1.length);
      if sv.Success? {
        MirrorsStore(convert, props, f.buffer, w.written, e.1.property, sv.value);
      }
    }
  }

  /**
   * The corrected walk binds exactly as the mutable parser's walk over the
   * same pairs: the same offsets, the same error, and the buffer holds what
   * the options instance holds.
   */
  lemma {:induction false} CorrectedAgreesWithMutable(convert: Converter, props: seq<PropertyInfo>, values: PositionalValues, slots: SlotList, start: Buffer, written: map<nat, Value>)
    requires values.Valid() && |start| == |props|
    requires forall j :: 0 <= j < |slots| ==> slots[j].1.property < |props|
    requires Mirrors(start, written)
    ensures var f := CorrectedWalk(convert, props, values, slots, start);
      var w := MutableWalk(convert, props, values, slots, written);
      f.offset == w.offset && f.error == w.error && Mirrors(f.buffer, w.written)
  {
    if slots != [] {
      var n := |slots| - 1;
      CorrectedAgreesWithMutable(convert, props, values, slots[..n], start, written);
      MirrorsStep(convert, props, values, CorrectedWalk(convert, props, values, slots[..n], start),
                  MutableWalk(convert, props, values, slots[..n], written), slots[n]);
    }
  }

  // ---------------------------------------------------------------- two single values

  /** Two string properties bound to the single values at indexes 0 and 1. */
  function TwoValueProperties(): seq<PropertyInfo>
  {
    [ PropertyInfo("First", StringType, true, NoSetter, None, Some(ValueAttribute(0, 1))),
      PropertyInfo("Second", StringType, true, NoSetter, None, Some(ValueAttribute(1, 1))) ]
  }

  lemma TwoValueSlots()
    ensures OrderedSlots(TwoValueProperties()) == [(0, Slot(1, 0)), (1, Slot(1, 1))]
  {
    var props := TwoValueProperties();
    assert props[..1][..0] == [];
    assert props[..2] == props && props[..2][..1] == props[..1];
    assert OrderedSlots(props[..1]) == [(0, Slot(1, 0))];
  }

  lemma AsWrittenFirstPair(convert: Converter)
    requires convert(Some(["a"]), StringType) == Success(StringValue("a"))
    ensures AsWrittenWalk(convert, TwoValueProperties(), [(0, Slot(1, 0)), (1, Slot(1, 1))], WholeGroup(["a", "b"]), [(0, Slot(1, 0))], [None, None])
      == Fill(1, [Some(StringValue("a")), None], None)
  {
    var pairs: SlotList := [(0, Slot(1, 0))];
    assert pairs[..0] == [];
    assert Element(WholeGroup(["a", "b"]), 0) == Success("a");
  }

  /**
   * As written, `a b` on two single-value properties at indexes 0 and 1
   * throws: after the first pair the offset is 1, so the second pair looks
   * up index 2, which the index table does not have.
   */
  lemma AsWrittenLosesSecondValue(convert: Converter)
    requires convert(Some(["a"]), StringType) == Success(StringValue("a"))
    ensures AsWrittenWalk(convert, TwoValueProperties(), [(0, Slot(1, 0)), (1, Slot(1, 1))], WholeGroup(["a", "b"]),
                          [(0, Slot(1, 0)), (1, Slot(1, 1))], [None, None]).error == Some(KeyNotFound)
  {
    var table: SlotList := [(0, Slot(1, 0)), (1, Slot(1, 1))];
    assert table[..1] == [(0, Slot(1, 0))];
    AsWrittenFirstPair(convert);
    assert Lookup(table[1..], 2) == None by { assert table[1..][1..] == []; }
  }

  lemma CorrectedFirstPair(convert: Converter)
    requires convert(Some(["a"]), StringType) == Success(StringValue("a"))
    ensures CorrectedWalk(convert, TwoValueProperties(), WholeGroup(["a", "b"]), [(0, Slot(1, 0))], [None, None])
      == Fill(0, [Some(StringValue("a")), None], None)
  {
    var pairs: SlotList := [(0, Slot(1, 0))];
    assert pairs[..0] == [];
    assert Element(WholeGroup(["a", "b"]), 0) == Success("a");
  }

  /** Corrected, the same call binds `a` to the first property and `b` to the second. */
  lemma CorrectedBindsBothValues(convert: Converter)
    requires convert(Some(["a"]), StringType) == Success(StringValue("a"))
    requires convert(Some(["b"]), StringType) == Success(StringValue("b"))
    ensures CorrectedWalk(convert, TwoValueProperties(), WholeGroup(["a", "b"]), [(0, Slot(1, 0)), (1, Slot(1, 1))], [None, None])
      == Fill(0, [Some(StringValue("a")), Some(StringValue("b"))], None)
  {
    var pairs: SlotList := [(0, Slot(1, 0)), (1, Slot(1, 1))];
    assert pairs[..1] == [(0, Slot(1, 0))];
    CorrectedFirstPair(convert);
    assert Element(WholeGroup(["a", "b"]), 1) == Success("b");
  }

  // ---------------------------------------------------------------- named setters

  /** A typed or raw named setter: look the name up (unguarded) and store the converted values in its slot. */
  function ImmutableNamed(convert: Converter, props: seq<PropertyInfo>, names: map<Name, nat>, buffer: Buffer, n: Name, vals: Option<seq<string>>): (r: (Outcome, Buffer))
    requires (forall m :: m in names ==> names[m] < |props|) && |buffer| == |props|
    ensures |r.1| == |buffer|
    ensures n !in names ==> r == (Fail(KeyNotFound), buffer)
    ensures n in names ==> r.0.Pass? == convert(vals, props[names[n]].propertyType).Success?
  {
    if n !in names then (Fail(KeyNotFound), buffer)
    else
      match Store(convert, props, buffer, names[n], vals)
      case Failure(e) => (Fail(e), buffer)
      case Success(b) => (Pass, b)
  }

  /** A `bool` setter: look the name up (unguarded) and store the flag as it is, whatever the property's type. */
  function ImmutableFlag(names: map<Name, nat>, buffer: Buffer, n: Name, b: bool): (r: (Outcome, Buffer))
    requires forall m :: m in names ==> names[m] < |buffer|
    ensures |r.1| == |buffer|
  {
    if n !in names then (Fail(KeyNotFound), buffer)
    else (Pass, buffer[names[n] := Some(BoolValue(b))])
  }

  /** The effect of one setter call on the buffer. */
  function ImmutableEffect(convert: Converter, props: seq<PropertyInfo>, names: map<Name, nat>, slots: SlotList, buffer: Buffer, call: SetterCall): (r: (Outcome, Buffer))
    requires call.Valid() && PropertiesInRange(slots, names, |props|) && |buffer| == |props|
    ensures |r.1| == |buffer|
  {
    match call
    case Positional(values) =>
      var f := CorrectedWalk(convert, props, values, slots, buffer);
      (if f.error.Some? then Fail(f.error.value) else Pass, f.buffer)
    case ShortTyped(c, arg) =>
      if arg.BoolArg? then ImmutableFlag(names, buffer, ShortName(c), arg.b)
      else ImmutableNamed(convert, props, names, buffer, ShortName(c), ArgumentValues(arg))
    case LongTyped(l, arg) =>
      if arg.BoolArg? then ImmutableFlag(names, buffer, LongName(l), arg.b)
      else ImmutableNamed(convert, props, names, buffer, LongName(l), ArgumentValues(arg))
    case ShortRaw(c, raw) => ImmutableNamed(convert, props, names, buffer, ShortName(c), raw)
    case LongRaw(l, raw) => ImmutableNamed(convert, props, names, buffer, LongName(l), raw)
  }

  /** The name a named setter call looks up. */
  function CallName(call: SetterCall): Name
    requires !call.Positional?
  {
    match call
    case ShortTyped(c, _) => ShortName(c)
    case ShortRaw(c, _) => ShortName(c)
    case LongTyped(l, _) => LongName(l)
    case LongRaw(l, _) => LongName(l)
  }

  /**
   * A named setter whose name no property registered throws
   * `KeyNotFoundException` and writes nothing; one whose name is registered
   * writes that name's slot and no other.
   */
  lemma NamedCallWritesOneSlot(convert: Converter, props: seq<PropertyInfo>, names: map<Name, nat>, slots: SlotList, buffer: Buffer, call: SetterCall)
    requires call.Valid() && PropertiesInRange(slots, names, |props|) && |buffer| == |props|
    requires !call.Positional?
    ensures var (r, after) := ImmutableEffect(convert, props, names, slots, buffer, call);
      (CallName(call) !in names ==> r == Fail(KeyNotFound) && after == buffer)
      && (CallName(call) in names ==> forall q :: 0 <= q < |buffer| && q != names[CallName(call)] ==> after[q] == buffer[q])
  {
  }

  /** Unlike the mutable parser, a flag is stored as given, on either name, whatever the property's type. */
  lemma FlagStoredRaw(convert: Converter, props: seq<PropertyInfo>, names: map<Name, nat>, slots: SlotList, buffer: Buffer, c: char, l: string, b: bool)
    requires PropertiesInRange(slots, names, |props|) && |buffer| == |props|
    ensures ShortName(c) in names ==>
      ImmutableEffect(convert, props, names, slots, buffer, ShortTyped(c, BoolArg(b))) == (Pass, buffer[names[ShortName(c)] := Some(BoolValue(b))])
    ensures LongName(l) in names ==>
      ImmutableEffect(convert, props, names, slots, buffer, LongTyped(l, BoolArg(b))) == (Pass, buffer[names[LongName(l)] := Some(BoolValue(b))])
  {
  }

  // ---------------------------------------------------------------- the parser

  class ImmutableRuntimeOptionParser {
    const verb: Option<string>
    const properties: seq<PropertyInfo>
    const names: map<Name, nat>
    const slots: SlotList
    /** The conversion every setter applies; `Create` fixes it to `ToAssignableValue`. */
    const convert: Converter
    /** The `_values` buffer, one slot per property. */
    const values: array<Option<Value>>

    ghost predicate Valid()
      reads this
    {
      names == NameTable(properties) && slots == OrderedSlots(properties)
      && PropertiesInRange(slots, names, |properties|) && values.Length == |properties|
    }

    constructor (verb: Option<string>, properties: seq<PropertyInfo>)
      ensures Valid() && this.verb == verb && this.properties == properties && convert == ToAssignableValue
      ensures fresh(values) && values[..] == seq(|properties|, _ => None)
    {
      var buffer := new Option<Value>[|properties|](_ => None);
      var ns: map<Name, nat> := map[];
      var ss: SlotList := [];
      for i := 0 to |properties|
        invariant ns == NameTable(properties[..i]) && ss == OrderedSlots(properties[..i])
      {
        assert properties[..i + 1][..i] == properties[..i];
        var p := properties[i];
        if p.option.Some? {
          if p.option.value.shortName.Some? {
            ns := ns[ShortName(p.option.value.shortName.value) := i];
          }
          ns := ns[LongName(LongKey(p)) := i];
        }
        if p.value.Some? {
          ss := OrderedPut(ss, p.value.value.index, Slot(p.value.value.length, i));
        }
      }
      assert properties[..|properties|] == properties;
      SlotsInRange(properties);
      forall n | n in ns
        ensures ns[n] < |properties|
      {
        NameTableLastWins(properties, n);
      }
      this.verb := verb;
      this.properties := properties;
      names := ns;
      slots := ss;
      convert := ToAssignableValue;
      values := buffer;
    }

    /** The constructor's check: the options type must have a constructor taking exactly the property types, in order. */
    static method Create(verb: Option<string>, properties: seq<PropertyInfo>, constructors: seq<seq<TypeTag>>) returns (r: Result<ImmutableRuntimeOptionParser>)
      ensures r.Failure? <==> PropertyTypes(properties) !in constructors
      ensures r.Failure? ==> r.error == InvalidOperation
      ensures r.Success? ==> fresh(r.value) && fresh(r.value.values) && r.value.Valid()
      ensures r.Success? ==> r.value.verb == verb && r.value.properties == properties && r.value.convert == ToAssignableValue
      ensures r.Success? ==> r.value.values[..] == seq(|properties|, _ => None)
    {
      if PropertyTypes(properties) !in constructors {
        return Failure(InvalidOperation);
      }
      var parser := new ImmutableRuntimeOptionParser(verb, properties);
      r := Success(parser);
    }

    /** `SetValueCore(index, values)`. */
    method SetValueCore(prop: nat, vals: Option<seq<string>>) returns (r: Outcome)
      requires prop < |properties| && values.Length == |properties|
      modifies values
      ensures var s := Store(convert, properties, old(values[..]), prop, vals);
        (s.Failure? ==> r == Fail(s.error) && values[..] == old(values[..]))
        && (s.Success? ==> r == Pass && values[..] == s.value)
    {
      var c := convert(vals, properties[prop].propertyType);
      if c.Failure? {
        return Fail(c.error);
      }
      values[prop] := Some(c.value);
      r := Pass;
    }

    /** One pair of the corrected `SetValue(values)`. */
    method SetSlot(positional: PositionalValues, offset: int32, e: (int32, Slot)) returns (next: int32, r: Outcome)
      requires positional.Valid() && e.1.property < |properties| && values.Length == |properties|
      modifies values
      ensures CorrectedStep(convert, properties, positional, Fill(offset, old(values[..]), None), e)
        == Fill(next, values[..], if r.Fail? then Some(r.error) else None)
    {
      var index := Wrap32(e.0 as int + offset as int);
      next := Wrap32(offset as int + e.1.length as int - 1);
      var vals := SlotValues(positional, index, e.1.length);
      if vals.Failure? {
        return next, Fail(vals.error);
      }
      ghost var before := Fill(offset, values[..], None);
      assert CorrectedStep(convert, properties, positional, before, e)
        == Filled(before, Store(convert, properties, values[..], e.1.property, vals.value), next);
      r := SetValueCore(e.1.property, vals.value);
    }

    /** The corrected `SetValue(values)`: the pairs in insertion order, stopping at the first failure. */
    method SetPositional(positional: PositionalValues) returns (r: Outcome)
      requires positional.Valid() && values.Length == |properties|
      requires forall j :: 0 <= j < |slots| ==> slots[j].1.property < |properties|
      modifies values
      ensures var f := CorrectedWalk(convert, properties, positional, slots, old(values[..]));
        values[..] == f.buffer && r == (if f.error.Some? then Fail(f.error.value) else Pass)
    {
      var offset: int32 := 0;
      for i := 0 to |slots|
        invariant CorrectedWalk(convert, properties, positional, slots[..i], old(values[..])) == Fill(offset, values[..], None)
      {
        CorrectedWalkSnoc(convert, properties, positional, slots, i, old(values[..]));
        offset, r := SetSlot(positional, offset, slots[i]);
        if r.Fail? {
          CorrectedWalkStops(convert, properties, positional, slots, i + 1, old(values[..]));
          return r;
        }
      }
      assert slots[..|slots|] == slots;
      r := Pass;
    }

    method SetNamed(n: Name, vals: Option<seq<string>>) returns (r: Outcome)
      requires (forall m :: m in names ==> names[m] < |properties|) && values.Length == |properties|
      modifies values
      ensures (r, values[..]) == ImmutableNamed(convert, properties, names, old(values[..]), n, vals)
    {
      if n !in names {
        return Fail(KeyNotFound);
      }
      r := SetValueCore(names[n], vals);
    }

    method SetFlag(n: Name, b: bool) returns (r: Outcome)
      requires (forall m :: m in names ==> names[m] < |properties|) && values.Length == |properties|
      modifies values
      ensures (r, values[..]) == ImmutableFlag(names, old(values[..]), n, b)
    {
      if n !in names {
        return Fail(KeyNotFound);
      }
      values[names[n]] := Some(BoolValue(b));
      r := Pass;
    }

    /** Every `SetValue` overload. */
    method Perform(call: SetterCall) returns (r: Outcome)
      requires Valid() && call.Valid()
      modifies values
      ensures (r, values[..]) == ImmutableEffect(convert, properties, names, slots, old(values[..]), call)
    {
      match call
      case Positional(positional) =>
        r := SetPositional(positional);
      case ShortTyped(c, arg) =>
        if arg.BoolArg? {
          r := SetFlag(ShortName(c), arg.b);
        } else {
          r := SetNamed(ShortName(c), ArgumentValues(arg));
        }
      case LongTyped(l, arg) =>
        if arg.BoolArg? {
          r := SetFlag(LongName(l), arg.b);
        } else {
          r := SetNamed(LongName(l), ArgumentValues(arg));
        }
      case ShortRaw(c, raw) =>
        r := SetNamed(ShortName(c), raw);
      case LongRaw(l, raw) =>
        r := SetNamed(LongName(l), raw);
    }

    /** `Commit()`: the constructor receives the whole buffer, in slot order. */
    method Commit() returns (arguments: seq<Option<Value>>)
      requires Valid()
      ensures arguments == values[..] && |arguments| == |properties|
    {
      arguments := values[..];
    }
  }
}
