/**
 * The three attributes an options type is declared with, and the checks
 * their constructors make.
 */
module Attributes {
  import opened Wrappers
  import opened DotNet

  /** `[Value(index)]` / `[Value(index, length)]`: a positional value slot. */
  datatype ValueAttribute = ValueAttribute(index: int32, length: int32)

  /** `[Option]`, `[Option(longName)]`, `[Option(shortName, longName)]`. */
  datatype OptionAttribute = OptionAttribute(shortName: Option<char>, longName: Option<string>)

  /** `[Verb(verbName)]`. */
  datatype VerbAttribute = VerbAttribute(verbName: string)

  /** `ValueAttribute(index)`: one value at `index`; the index is not checked. */
  function NewValueAttribute(index: int32): (a: ValueAttribute)
    ensures a.index == index && a.length == 1
  {
    ValueAttribute(index, 1)
  }

  /** `ValueAttribute(index, length)`: a negative index is rejected first, then a length below 1. */
  function NewValueAttributeRange(index: int32, length: int32): (r: Result<ValueAttribute>)
    ensures r.Success? <==> index >= 0 && length >= 1
    ensures index < 0 ==> r == Failure(Argument(NegativeIndex))
    ensures index >= 0 && length <= 0 ==> r == Failure(Argument(NonPositiveLength))
    ensures r.Success? ==> r.value.index == index && r.value.length == length
  {
    if index < 0 then Failure(Argument(NegativeIndex))
    else if length <= 0 then Failure(Argument(NonPositiveLength))
    else Success(ValueAttribute(index, length))
  }

  /** `OptionAttribute()`: neither name is set; the property name is used later. */
  function NewOptionAttribute(): (a: OptionAttribute)
    ensures a.shortName.None? && a.longName.None?
  {
    OptionAttribute(None, None)
  }

  /** `OptionAttribute(longName)`: a null or blank long name is rejected. */
  function NewOptionAttributeLong(longName: Option<string>): (r: Result<OptionAttribute>)
    ensures r.Success? <==> !IsNullOrWhiteSpace(longName)
    ensures r.Failure? ==> r.error == Argument(BlankName)
    ensures r.Success? ==> r.value.shortName.None? && r.value.longName == longName
  {
    if IsNullOrWhiteSpace(longName) then Failure(Argument(BlankName))
    else Success(OptionAttribute(None, longName))
  }

  /** `OptionAttribute(shortName, longName)`: a null or blank long name is rejected; otherwise both are set. */
  function NewOptionAttributeShortLong(shortName: char, longName: Option<string>): (r: Result<OptionAttribute>)
    ensures r.Success? <==> !IsNullOrWhiteSpace(longName)
    ensures r.Failure? ==> r.error == Argument(BlankName)
    ensures r.Success? ==> r.value.shortName == Some(shortName) && r.value.longName == longName
  {
    if IsNullOrWhiteSpace(longName) then Failure(Argument(BlankName))
    else Success(OptionAttribute(Some(shortName), longName))
  }

  /** `VerbAttribute(verbName)`: null is rejected with `ArgumentNullException` before blank names are rejected with `ArgumentException`; anything else is kept verbatim. */
  function NewVerbAttribute(verbName: Option<string>): (r: Result<VerbAttribute>)
    ensures verbName.None? ==> r == Failure(ArgumentNull)
    ensures verbName.Some? && IsNullOrWhiteSpace(verbName) ==> r == Failure(Argument(BlankName))
    ensures r.Success? <==> !IsNullOrWhiteSpace(verbName)
    ensures r.Success? ==> r.value.verbName == verbName.value
  {
    if verbName.None? then Failure(ArgumentNull)
    else if IsNullOrWhiteSpace(verbName) then Failure(Argument(BlankName))
    else Success(VerbAttribute(verbName.value))
  }
}
