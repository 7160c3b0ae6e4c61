/**
 * The binder's extension points (options.go): the registries of setters,
 * instantiators and flexible factories, the name converter, the variable
 * resolver chain and the post-bind wirings, with the builder methods that fill
 * them in place.
 */
module Configuration {
  import opened Wrappers
  import opened Model

  /** A setter registered for a destination type: one of the builtin scalar
      setters, or a caller's own, modelled as the conversion from raw data to the
      stored value (or an error message). */
  datatype Setter =
    | IntSetter | Int8Setter | Uint8Setter | Int16Setter | Uint16Setter
    | Int32Setter | Uint32Setter | Int64Setter | Uint64Setter
    | Float64Setter | BoolSetter | StringSetter | TimeDurationSetter
    | CustomSetter(convert: Data -> Result<Value, string>)

  /** Builds the instance for a polymorphic slot from the raw data node. */
  type FlexibleSetter = Data -> Result<Value, string>

  /** Derives a field's external name from the whole struct field (its Go
      name, tag and type), as `func(reflect.StructField) string` does. */
  type NameConverter = FieldDesc -> string

  /** Looks a variable name up: `Some(value)` when found. */
  type VariableResolver = string -> Option<Data>

  /** A post-bind callback run on the populated target; `Some(message)` is a failure. */
  type Wiring = Value -> Option<string>

  /** The destination type each builtin setter is written for. */
  function SetterTarget(s: Setter): Ty
    requires !s.CustomSetter?
  {
    match s
    case IntSetter => TInt(Int)
    case Int8Setter => TInt(Int8)
    case Uint8Setter => TInt(Uint8)
    case Int16Setter => TInt(Int16)
    case Uint16Setter => TInt(Uint16)
    case Int32Setter => TInt(Int32)
    case Uint32Setter => TInt(Uint32)
    case Int64Setter => TInt(Int64)
    case Uint64Setter => TInt(Uint64)
    case Float64Setter => TFloat64
    case BoolSetter => TBool
    case StringSetter => TString
    case TimeDurationSetter => TDuration
  }

  /** The thirteen types with a builtin setter: every integer width except `uint`,
      `float64`, `bool`, `string` and `time.Duration`. */
  predicate IsBuiltinScalar(t: Ty)
  {
    (t.TInt? && t.kind != Uint) || t == TFloat64 || t == TBool || t == TString || t == TDuration
  }

  /** The setter table of `DefaultOptions`: every builtin setter, each registered
      under the type it is written for, and nothing else (so `uint` has none). */
  function DefaultSetters(): (m: map<Ty, Setter>)
    ensures forall t :: t in m <==> IsBuiltinScalar(t)
    ensures forall t | t in m :: !m[t].CustomSetter? && SetterTarget(m[t]) == t
  {
    map[
      TInt(Int) := IntSetter, TInt(Int8) := Int8Setter, TInt(Uint8) := Uint8Setter,
      TInt(Int16) := Int16Setter, TInt(Uint16) := Uint16Setter, TInt(Int32) := Int32Setter,
      TInt(Uint32) := Uint32Setter, TInt(Int64) := Int64Setter, TInt(Uint64) := Uint64Setter,
      TFloat64 := Float64Setter, TBool := BoolSetter, TString := StringSetter,
      TDuration := TimeDurationSetter]
  }

  /** `resolveVariable`: the answer of the first resolver in chain order that
      finds the name; `None` when none does (in particular on an empty chain). */
  function ResolveVariable(chain: seq<VariableResolver>, name: string): (r: Option<Data>)
    ensures r.None? <==> forall k :: 0 <= k < |chain| ==> chain[k](name).None?
    ensures r.Some? ==> exists k :: 0 <= k < |chain| && chain[k](name) == r
                                  && forall j :: 0 <= j < k ==> chain[j](name).None?
    decreases |chain|
  {
    if chain == [] then None
    else if chain[0](name).Some? then chain[0](name)
    else
      var r := ResolveVariable(chain[1..], name);
      assert forall k :: 1 <= k < |chain| ==> chain[k] == chain[1..][k - 1];
      r
  }

  /** Appending a resolver leaves every name the chain already resolves as it
      was; a name it did not resolve is now answered by the new resolver. Nothing
      is cached, so a lookup that failed succeeds once a resolver that knows the
      name has been added. */
  lemma {:induction false} ResolveAfterAppend(chain: seq<VariableResolver>, vr: VariableResolver, name: string)
    ensures ResolveVariable(chain + [vr], name)
         == if ResolveVariable(chain, name).Some? then ResolveVariable(chain, name) else vr(name)
    decreases |chain|
  {
    if chain != [] {
      assert (chain + [vr])[1..] == chain[1..] + [vr];
      ResolveAfterAppend(chain[1..], vr, name);
    }
  }

  /** A lookup result that is not a string holding a `$`. */
  predicate NoDollarIn(r: Option<Data>)
  {
    r.Some? && r.value.DStr? ==> '$' !in r.value.s
  }

  /** A resolver none of whose string answers contains a `$`. */
  ghost predicate YieldsNoDollar(vr: VariableResolver)
  {
    forall n :: NoDollarIn(vr(n))
  }

  /** The condition under which inline interpolation is known to terminate:
      no resolver of the chain answers with text containing `$`. */
  ghost predicate NoDollarChain(chain: seq<VariableResolver>)
  {
    forall k | 0 <= k < |chain| :: YieldsNoDollar(chain[k])
  }

  /** Under the termination condition, whatever the chain resolves is free of `$`. */
  lemma ResolvedHasNoDollar(chain: seq<VariableResolver>, name: string)
    requires NoDollarChain(chain)
    ensures NoDollarIn(ResolveVariable(chain, name))
  {
    var r := ResolveVariable(chain, name);
    if r.Some? {
      var k :| 0 <= k < |chain| && chain[k](name) == r;
      assert YieldsNoDollar(chain[k]);
    }
  }

  /** The `Options` struct. A registry map that Go leaves nil is `None`; a lookup
      in it finds nothing (`Entries`), and reading the flexible-setter registry
      distinguishes nil from a map without the key. */
  class Options {
    var instantiators: Option<map<Ty, Value>>
    var setters: Option<map<Ty, Setter>>
    var flexibleSetters: Option<map<string, FlexibleSetter>>
    var nameConverter: NameConverter
    var variableResolverChain: seq<VariableResolver>
    var wirings: Option<map<Ty, seq<Wiring>>>

    /** What binding relies on: each instantiator yields an instance of the type
        it is registered for (otherwise Go's reflection panics on assignment), and
        the resolver chain satisfies the termination condition of interpolation. */
    ghost predicate Valid()
      reads this
    {
      && (forall t | t in Entries(instantiators) :: Fits(Entries(instantiators)[t], t))
      && NoDollarChain(variableResolverChain)
    }

    /** The struct literal `&Options{Setters: setters, NameConverter: nc}`: every
        field it does not name is nil. */
    constructor Literal(setters: Option<map<Ty, Setter>>, nc: NameConverter)
      ensures this.setters == setters && nameConverter == nc
      ensures instantiators == None && flexibleSetters == None && wirings == None
      ensures variableResolverChain == []
      ensures Valid()
    {
      this.setters := setters;
      nameConverter := nc;
      instantiators := None;
      flexibleSetters := None;
      variableResolverChain := [];
      wirings := None;
    }

    /** `AddInstantiator`: creates the map on first use and registers `i` for
        `t`, overwriting a previous entry; every other key keeps its entry. */
    method AddInstantiator(t: Ty, i: Value) returns (self: Options)
      modifies this
      ensures self == this
      ensures instantiators == Some(Entries(old(instantiators))[t := i])
      ensures setters == old(setters) && flexibleSetters == old(flexibleSetters)
      ensures nameConverter == old(nameConverter) && wirings == old(wirings)
      ensures variableResolverChain == old(variableResolverChain)
      ensures old(Valid()) && Fits(i, t) ==> Valid()
    {
      if instantiators.None? {
        instantiators := Some(map[]);
      }
      instantiators := Some(instantiators.value[t := i]);
      self := this;
    }

    /** `AddSetter`: creates the map on first use and registers `s` for `t`,
        overwriting a previous entry; every other key keeps its entry. */
    method AddSetter(t: Ty, s: Setter) returns (self: Options)
      modifies this
      ensures self == this
      ensures setters == Some(Entries(old(setters))[t := s])
      ensures instantiators == old(instantiators) && flexibleSetters == old(flexibleSetters)
      ensures nameConverter == old(nameConverter) && wirings == old(wirings)
      ensures variableResolverChain == old(variableResolverChain)
      ensures old(Valid()) ==> Valid()
    {
      if setters.None? {
        setters := Some(map[]);
      }
      setters := Some(setters.value[t := s]);
      self := this;
    }

    /** `AddFlexibleSetter`: creates the map on first use and registers `fs` for
        the discriminator `typeName`, overwriting a previous entry. */
    method AddFlexibleSetter(typeName: string, fs: FlexibleSetter) returns (self: Options)
      modifies this
      ensures self == this
      ensures flexibleSetters == Some(Entries(old(flexibleSetters))[typeName := fs])
      ensures instantiators == old(instantiators) && setters == old(setters)
      ensures nameConverter == old(nameConverter) && wirings == old(wirings)
      ensures variableResolverChain == old(variableResolverChain)
      ensures old(Valid()) ==> Valid()
    {
      if flexibleSetters.None? {
        flexibleSetters := Some(map[]);
      }
      flexibleSetters := Some(flexibleSetters.value[typeName := fs]);
      self := this;
    }

    /** `SetNameConverter`: replaces the converter and nothing else. */
    method SetNameConverter(nc: NameConverter) returns (self: Options)
      modifies this
      ensures self == this
      ensures nameConverter == nc
      ensures instantiators == old(instantiators) && setters == old(setters)
      ensures flexibleSetters == old(flexibleSetters) && wirings == old(wirings)
      ensures variableResolverChain == old(variableResolverChain)
      ensures old(Valid()) ==> Valid()
    {
      nameConverter := nc;
      self := this;
    }

    /** `AddVariableResolver`: appends `vr` at the end of the chain, so existing
        resolvers keep their positions and their precedence. */
    method AddVariableResolver(vr: VariableResolver) returns (self: Options)
      modifies this
      ensures self == this
      ensures variableResolverChain == old(variableResolverChain) + [vr]
      ensures instantiators == old(instantiators) && setters == old(setters)
      ensures flexibleSetters == old(flexibleSetters) && wirings == old(wirings)
      ensures nameConverter == old(nameConverter)
      ensures old(Valid()) && YieldsNoDollar(vr) ==> Valid()
    {
      variableResolverChain := variableResolverChain + [vr];
      self := this;
    }
  }

  /** `DefaultOptions`: the builtin setters and the given converter (the
      repository's snake-case converter); no instantiators, no flexible setters,
      an empty resolver chain and no wirings. */
  method DefaultOptions(snakeCase: NameConverter) returns (opt: Options)
    ensures fresh(opt) && opt.Valid()
    ensures opt.setters == Some(DefaultSetters()) && opt.nameConverter == snakeCase
    ensures opt.instantiators == None && opt.flexibleSetters == None && opt.wirings == None
    ensures opt.variableResolverChain == []
  {
    opt := new Options.Literal(Some(DefaultSetters()), snakeCase);
  }
}
