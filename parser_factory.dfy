/**
 * `RuntimeCommandLineOptionParser<T>.Create()`: read the options type's
 * verb, keep its public instance properties that carry an `Option` or a
 * `Value` attribute, and choose the parser strategy from their setters:
 * all read-only gives the immutable parser, all publicly writable gives
 * the mutable parser, and anything else is not supported.
 */
module ParserFactory {
  import opened Wrappers
  import opened Attributes
  import opened Reflection
  import opened RuntimeParser
  import opened ImmutableParser

  /** A property the runtime parsers bind: public, per instance, and attributed. */
  predicate Attributed(p: PropertyInfo)
  {
    p.isPublicInstance && (p.option.Some? || p.value.Some?)
  }

  /** The `GetProperties(Instance | Public).Where(...)` filter, in declaration order. */
  function AttributedProperties(props: seq<PropertyInfo>): (r: seq<PropertyInfo>)
    ensures forall p :: p in r <==> p in props && Attributed(p)
    ensures |r| <= |props|
  {
    if props == [] then []
    else (if Attributed(props[0]) then [props[0]] else []) + AttributedProperties(props[1..])
  }

  /** The type's `VerbAttribute.VerbName`, or null when it has none. */
  function VerbOf(t: OptionsType): (r: Option<string>)
    ensures r.Some? <==> t.verb.Some?
    ensures r.Some? ==> r.value == t.verb.value.verbName
  {
    if t.verb.Some? then Some(t.verb.value.verbName) else None
  }

  datatype Strategy = MutableStrategy | ImmutableStrategy

  predicate AllReadOnly(props: seq<PropertyInfo>)
  {
    forall p :: p in props ==> !p.CanWrite()
  }

  predicate AllPubliclyWritable(props: seq<PropertyInfo>)
  {
    forall p :: p in props ==> p.setter == PublicSetter
  }

  /** For a non-empty property list, the two strategy conditions exclude each other. */
  lemma StrategiesExclusive(props: seq<PropertyInfo>)
    requires props != []
    ensures !(AllReadOnly(props) && AllPubliclyWritable(props))
  {
    assert props[0] in props;
  }

  /** The strategy choice: no property, or a mix of setters, is not supported. */
  function SelectStrategy(props: seq<PropertyInfo>): (r: Result<Strategy>)
    ensures props == [] ==> r == Failure(NotSupported(NoOptionProperties))
    ensures r == Success(ImmutableStrategy) <==> props != [] && AllReadOnly(props)
    ensures r == Success(MutableStrategy) <==> props != [] && AllPubliclyWritable(props)
    ensures r.Failure? && props != [] ==> r.error == NotSupported(MixedMutability)
  {
    if props == [] then Failure(NotSupported(NoOptionProperties))
    else
      StrategiesExclusive(props);
      if AllReadOnly(props) then Success(ImmutableStrategy)
      else if AllPubliclyWritable(props) then Success(MutableStrategy)
      else Failure(NotSupported(MixedMutability))
  }

  /** A property with a private setter rules out both strategies. */
  lemma PrivateSetterRejected(props: seq<PropertyInfo>, j: nat)
    requires j < |props| && props[j].setter == NonPublicSetter
    ensures SelectStrategy(props) == Failure(NotSupported(MixedMutability))
  {
    assert props[j] in props;
  }

  /**
   * What a parser lookup that falls back on `Create()` shows the router:
   * the verb of the parser built, or the exception thrown on the way, the
   * strategy choice's or the immutable constructor lookup's.
   */
  function CreatedVerb(t: OptionsType): (r: Result<Option<string>>)
    ensures var props := AttributedProperties(t.properties);
      r.Failure? <==> SelectStrategy(props).Failure? || (SelectStrategy(props) == Success(ImmutableStrategy) && PropertyTypes(props) !in t.constructors)
    ensures AttributedProperties(t.properties) == [] ==> r == Failure(NotSupported(NoOptionProperties))
    ensures r.Failure? && SelectStrategy(AttributedProperties(t.properties)).Success? ==> r.error == InvalidOperation
    ensures r.Success? ==> r.value == VerbOf(t)
  {
    var props := AttributedProperties(t.properties);
    match SelectStrategy(props)
    case Failure(e) => Failure(e)
    case Success(ImmutableStrategy) => if PropertyTypes(props) in t.constructors then Success(VerbOf(t)) else Failure(InvalidOperation)
    case Success(MutableStrategy) => Success(VerbOf(t))
  }

  /** The parser `Create` returns: one of the two runtime strategies. */
  datatype Chosen = ChosenMutable(mutable: RuntimeOptionParser) | ChosenImmutable(immutable: ImmutableRuntimeOptionParser)

  /**
   * `Create()`: the verb and the attributed properties of `t` are handed to
   * the chosen parser; the immutable parser's own constructor still fails
   * when `t` has no constructor taking the property types in order.
   */
  method Create(t: OptionsType) returns (r: Result<Chosen>)
    ensures var props := AttributedProperties(t.properties);
      match SelectStrategy(props)
      case Failure(e) => r == Failure(e)
      case Success(MutableStrategy) =>
        r.Success? && r.value.ChosenMutable? && fresh(r.value.mutable) && r.value.mutable.Valid()
        && r.value.mutable.verb == VerbOf(t) && r.value.mutable.properties == props
      case Success(ImmutableStrategy) =>
        (r.Failure? <==> PropertyTypes(props) !in t.constructors)
        && (r.Failure? ==> r.error == InvalidOperation)
        && (r.Success? ==>
              r.value.ChosenImmutable? && fresh(r.value.immutable) && r.value.immutable.Valid()
              && r.value.immutable.verb == VerbOf(t) && r.value.immutable.properties == props)
    ensures r.Failure? ==> CreatedVerb(t) == Failure(r.error)
    ensures r.Success? ==> CreatedVerb(t) == Success(VerbOf(t))
  {
    var verb := VerbOf(t);
    var props := AttributedProperties(t.properties);
    var strategy := SelectStrategy(props);
    if strategy.Failure? {
      return Failure(strategy.error);
    }
    if strategy.value == ImmutableStrategy {
      var p := ImmutableRuntimeOptionParser.Create(verb, props, t.constructors);
      if p.Failure? {
        return Failure(p.error);
      }
      r := Success(ChosenImmutable(p.value));
    } else {
      var p := new RuntimeOptionParser(verb, props);
      r := Success(ChosenMutable(p));
    }
  }
}
