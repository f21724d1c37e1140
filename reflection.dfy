/**
 * Plain descriptor records that stand in for the reflection data the
 * runtime parsers read: the property types, the attributes on each
 * property, the setter's accessibility, and the constructors of an options
 * type.
 */
module Reflection {
  import opened Wrappers
  import opened Attributes

  /**
   * The concrete types the value converter probes, in the order it probes
   * them (`assignableType.IsAssignableFrom(typeof(...))`).
   */
  datatype Probe =
    | PString | PByte | PInt16 | PUInt16 | PInt32 | PUInt32 | PInt64 | PUInt64
    | PSingle | PDouble | PDecimal | PFileInfo | PDirectoryInfo
    | PStringArray | PList | PCollection | PDictionary | PKeyValuePair

  const ProbeOrder: seq<Probe> := [
    PString, PByte, PInt16, PUInt16, PInt32, PUInt32, PInt64, PUInt64,
    PSingle, PDouble, PDecimal, PFileInfo, PDirectoryInfo,
    PStringArray, PList, PCollection, PDictionary, PKeyValuePair
  ]

  /**
   * A property type.  `bool` is recognised by identity; every other type
   * matters to the converter only through the probe types it is assignable
   * from, and to constructor matching only through its identity (`name`).
   */
  datatype TypeTag = BoolType | ClrType(name: string, assignableFrom: set<Probe>)

  const StringType: TypeTag := ClrType("System.String", {PString})
  const ObjectType: TypeTag := ClrType("System.Object", set p: Probe | p in ProbeOrder)
  const Int32Type: TypeTag := ClrType("System.Int32", {PInt32})
  const Int64Type: TypeTag := ClrType("System.Int64", {PInt64})
  const StringArrayType: TypeTag := ClrType("System.String[]", {PStringArray})
  /** `IEnumerable<string>`, `IReadOnlyList<string>`, `IList<string>`, `ICollection<string>`: arrays, lists and collections all implement them. */
  const StringListInterface: TypeTag := ClrType("System.Collections.Generic.IList`1", {PStringArray, PList, PCollection})
  const StringDictionaryType: TypeTag := ClrType("System.Collections.Generic.Dictionary`2", {PDictionary})
  const FileInfoType: TypeTag := ClrType("System.IO.FileInfo", {PFileInfo})
  const StringPairType: TypeTag := ClrType("System.Collections.Generic.KeyValuePair`2", {PKeyValuePair})

  datatype SetterAccess = NoSetter | PublicSetter | NonPublicSetter

  datatype PropertyInfo = PropertyInfo(
    name: string,
    propertyType: TypeTag,
    isPublicInstance: bool,
    setter: SetterAccess,
    option: Option<OptionAttribute>,
    value: Option<ValueAttribute>)
  {
    predicate CanWrite() { setter != NoSetter }
  }

  /** An options type: its optional verb attribute, its properties in declaration order, and the parameter types of each public constructor. */
  datatype OptionsType = OptionsType(
    name: string,
    verb: Option<VerbAttribute>,
    properties: seq<PropertyInfo>,
    constructors: seq<seq<TypeTag>>)
}
