/**
 * The builtin scalar setters (setters.go). Each checks the dynamic kind of the
 * raw value and writes the converted value into the field handle, through the
 * pointer when the handle holds one; on a kind it does not accept it writes
 * nothing and reports the expected type. `Coerce` is the conversion each setter
 * performs; the setter methods are proved to write exactly its result.
 */
module Setters {
  import opened Wrappers
  import opened Model
  import C = Configuration
  import opened Strings
  import opened Variables
  import opened Duration

  /** Whether an integer setter also takes a generic `int`: every width but
      `uint16` (for `int` itself the generic kind is the exact one). */
  predicate AcceptsGenericInt(k: IntKind)
  {
    k != Uint16
  }

  /** The value a builtin setter stores when successful, or why it refuses. */
  function Coerce(s: C.Setter, v: Data, chain: seq<C.VariableResolver>): (r: Result<Value, BindError>)
    requires s.StringSetter? ==> C.NoDollarChain(chain)
    ensures r.Ok? && !s.CustomSetter? ==> HasType(r.value, C.SetterTarget(s))
    ensures r.Err? && !s.CustomSetter? && !s.StringSetter? && !(s.TimeDurationSetter? && v.DStr?)
            ==> r.error == TypeMismatch(C.SetterTarget(s))
  {
    if s.CustomSetter? then
      match s.convert(v)
      case Ok(x) => Ok(x)
      case Err(m) => Err(SetterFailure(m))
    else if s.StringSetter? then
      if !v.DStr? then Err(TypeMismatch(TString))
      else if InlineVariablesFound(v.s) then
        match Interpolate(TrimSpace(v.s), chain)
        case Ok(t) => Ok(VStr(t))
        case Err(e) => Err(e)
      else Ok(VStr(v.s))
    else if s.TimeDurationSetter? then
      if !v.DStr? then Err(TypeMismatch(TDuration))
      else
        match ParseDuration(v.s)
        case None => Err(InvalidDuration(v.s))
        case Some(d) => Ok(VDuration(d))
    else if s.BoolSetter? then
      if v.DBool? then Ok(VBool(v.b)) else Err(TypeMismatch(TBool))
    else if s.Float64Setter? then
      if v.DFloat? then Ok(VFloat(v.x))
      else if v.DInt? && v.kind == Int then Ok(VFloat(v.n as real))
      else Err(TypeMismatch(TFloat64))
    else
      var k := C.SetterTarget(s).kind;
      if v.DInt? && (v.kind == k || (v.kind == Int && AcceptsGenericInt(k))) then Ok(VInt(k, Wrap(k, v.n)))
      else Err(TypeMismatch(TInt(k)))
  }

  /** `intSetter` takes only `int` and `boolSetter` only `bool`. */
  lemma {:induction false} StrictSetters(v: Data, chain: seq<C.VariableResolver>)
    ensures Coerce(C.IntSetter, v, chain).Ok? <==> v.DInt? && v.kind == Int
    ensures Coerce(C.BoolSetter, v, chain).Ok? <==> v.DBool?
    ensures v.DBool? ==> Coerce(C.BoolSetter, v, chain) == Ok(VBool(v.b))
  {
  }

  /** The widths other than `int` and `uint16` take their exact kind or a
      generic `int`, and nothing else. */
  lemma {:induction false} WideningSetters(s: C.Setter, v: Data, chain: seq<C.VariableResolver>)
    requires s in {C.Int8Setter, C.Uint8Setter, C.Int16Setter, C.Int32Setter, C.Uint32Setter, C.Int64Setter, C.Uint64Setter}
    ensures Coerce(s, v, chain).Ok? <==> v.DInt? && (v.kind == C.SetterTarget(s).kind || v.kind == Int)
  {
  }

  /** `uint16Setter` takes only a `uint16`: a generic `int` is refused. */
  lemma {:induction false} Uint16SetterExact(v: Data, chain: seq<C.VariableResolver>)
    ensures Coerce(C.Uint16Setter, v, chain).Ok? <==> v.DInt? && v.kind == Uint16
    ensures Coerce(C.Uint16Setter, DInt(Int, 7), chain) == Err(TypeMismatch(TInt(Uint16)))
  {
  }

  /** A generic `int` is never refused for its size: it is stored converted to
      the field's width, and unchanged when it fits. A value of the exact kind is
      stored as it is. */
  lemma {:induction false} GenericIntStored(s: C.Setter, n: int, chain: seq<C.VariableResolver>)
    requires !s.CustomSetter? && C.SetterTarget(s).TInt? && AcceptsGenericInt(C.SetterTarget(s).kind)
    ensures Coerce(s, DInt(Int, n), chain) == Ok(VInt(C.SetterTarget(s).kind, Wrap(C.SetterTarget(s).kind, n)))
    ensures InRange(C.SetterTarget(s).kind, n) ==> Coerce(s, DInt(Int, n), chain) == Ok(VInt(C.SetterTarget(s).kind, n))
    ensures InRange(C.SetterTarget(s).kind, n)
            ==> Coerce(s, DInt(C.SetterTarget(s).kind, n), chain) == Ok(VInt(C.SetterTarget(s).kind, n))
  {
  }

  /** A generic `int` 300 stored into an `int8` field wraps to 44, and -1 into a
      `uint8` field to 255. */
  lemma NarrowingExamples(chain: seq<C.VariableResolver>)
    ensures Coerce(C.Int8Setter, DInt(Int, 300), chain) == Ok(VInt(Int8, 44))
    ensures Coerce(C.Uint8Setter, DInt(Int, -1), chain) == Ok(VInt(Uint8, 255))
  {
    assert Wrap(Int8, 300) == 44;
    assert Wrap(Uint8, -1) == 255;
  }

  /** `float64Setter` takes a float or a generic `int` n, stored as n. */
  lemma {:induction false} Float64SetterAccepts(v: Data, chain: seq<C.VariableResolver>)
    ensures Coerce(C.Float64Setter, v, chain).Ok? <==> v.DFloat? || (v.DInt? && v.kind == Int)
    ensures v.DInt? && v.kind == Int ==> Coerce(C.Float64Setter, v, chain) == Ok(VFloat(v.n as real))
    ensures v.DFloat? ==> Coerce(C.Float64Setter, v, chain) == Ok(VFloat(v.x))
  {
  }

  /** `stringSetter`: a string without occurrences is stored unchanged, even
      untrimmed; one with occurrences is stored interpolated (after trimming),
      and an interpolation error is the setter's error. Anything but a string is
      refused. */
  lemma {:induction false} StringSetterStores(v: Data, chain: seq<C.VariableResolver>)
    requires C.NoDollarChain(chain)
    ensures !v.DStr? ==> Coerce(C.StringSetter, v, chain) == Err(TypeMismatch(TString))
    ensures v.DStr? && !HasOccurrence(v.s) ==> Coerce(C.StringSetter, v, chain) == Ok(VStr(v.s))
    ensures v.DStr? && HasOccurrence(v.s) ==>
              match Interpolate(TrimSpace(v.s), chain)
              case Ok(t) => Coerce(C.StringSetter, v, chain) == Ok(VStr(t))
              case Err(e) => Coerce(C.StringSetter, v, chain) == Err(e)
    ensures Coerce(C.StringSetter, v, chain).Ok? ==> !HasOccurrence(Coerce(C.StringSetter, v, chain).value.s)
  {
    if v.DStr? && HasOccurrence(v.s) {
      TrimKeepsOccurrences(v.s);
    }
  }

  /** `timeDurationSetter` takes only a string, and only one that parses. */
  lemma {:induction false} DurationSetterParses(v: Data, chain: seq<C.VariableResolver>)
    ensures !v.DStr? ==> Coerce(C.TimeDurationSetter, v, chain) == Err(TypeMismatch(TDuration))
    ensures v.DStr? ==> (Coerce(C.TimeDurationSetter, v, chain).Ok? <==> ParseDuration(v.s).Some?)
    ensures v.DStr? && ParseDuration(v.s).None? ==> Coerce(C.TimeDurationSetter, v, chain) == Err(InvalidDuration(v.s))
  {
  }

  /** The `reflect.Value` a setter writes: a field, or the pointer to a fresh
      slice element. */
  class Handle {
    var value: Value

    constructor (v: Value)
      ensures value == v
    {
      value := v;
    }

    /** `f.SetX(x)`, or `f.Elem().SetX(x)` when the handle holds a pointer. */
    method Write(x: Value)
      modifies this
      ensures value == Through(old(value), x)
    {
      if value.VPtr? {
        value := VPtr(x);
      } else {
        value := x;
      }
    }
  }

  /** The effect a setter must have: on success exactly the converted value is
      written (through the pointer), on failure nothing is written. */
  ghost predicate Wrote(r: Result<Value, BindError>, before: Value, after: Value, err: Option<BindError>)
  {
    match r
    case Ok(x) => err == None && after == Through(before, x)
    case Err(e) => err == Some(e) && after == before
  }

  method IntSetter(v: Data, f: Handle, opt: C.Options) returns (err: Option<BindError>)
    modifies f
    ensures Wrote(Coerce(C.IntSetter, v, opt.variableResolverChain), old(f.value), f.value, err)
  {
    if v.DInt? && v.kind == Int {
      f.Write(VInt(Int, Wrap(Int, v.n)));
      return None;
    }
    return Some(TypeMismatch(TInt(Int)));
  }

  method Int8Setter(v: Data, f: Handle, opt: C.Options) returns (err: Option<BindError>)
    modifies f
    ensures Wrote(Coerce(C.Int8Setter, v, opt.variableResolverChain), old(f.value), f.value, err)
  {
    if v.DInt? && v.kind == Int8 {
      f.Write(VInt(Int8, Wrap(Int8, v.n)));
      return None;
    }
    if v.DInt? && v.kind == Int {
      f.Write(VInt(Int8, Wrap(Int8, v.n)));
      return None;
    }
    return Some(TypeMismatch(TInt(Int8)));
  }

  method Uint8Setter(v: Data, f: Handle, opt: C.Options) returns (err: Option<BindError>)
    modifies f
    ensures Wrote(Coerce(C.Uint8Setter, v, opt.variableResolverChain), old(f.value), f.value, err)
  {
    if v.DInt? && v.kind == Uint8 {
      f.Write(VInt(Uint8, Wrap(Uint8, v.n)));
      return None;
    }
    if v.DInt? && v.kind == Int {
      f.Write(VInt(Uint8, Wrap(Uint8, v.n)));
      return None;
    }
    return Some(TypeMismatch(TInt(Uint8)));
  }

  method Int16Setter(v: Data, f: Handle, opt: C.Options) returns (err: Option<BindError>)
    modifies f
    ensures Wrote(Coerce(C.Int16Setter, v, opt.variableResolverChain), old(f.value), f.value, err)
  {
    if v.DInt? && v.kind == Int16 {
      f.Write(VInt(Int16, Wrap(Int16, v.n)));
      return None;
    }
    if v.DInt? && v.kind == Int {
      f.Write(VInt(Int16, Wrap(Int16, v.n)));
      return None;
    }
    return Some(TypeMismatch(TInt(Int16)));
  }

  method Uint16Setter(v: Data, f: Handle, opt: C.Options) returns (err: Option<BindError>)
    modifies f
    ensures Wrote(Coerce(C.Uint16Setter, v, opt.variableResolverChain), old(f.value), f.value, err)
  {
    if v.DInt? && v.kind == Uint16 {
      f.Write(VInt(Uint16, Wrap(Uint16, v.n)));
      return None;
    }
    return Some(TypeMismatch(TInt(Uint16)));
  }

  method Int32Setter(v: Data, f: Handle, opt: C.Options) returns (err: Option<BindError>)
    modifies f
    ensures Wrote(Coerce(C.Int32Setter, v, opt.variableResolverChain), old(f.value), f.value, err)
  {
    if v.DInt? && v.kind == Int32 {
      f.Write(VInt(Int32, Wrap(Int32, v.n)));
      return None;
    }
    if v.DInt? && v.kind == Int {
      f.Write(VInt(Int32, Wrap(Int32, v.n)));
      return None;
    }
    return Some(TypeMismatch(TInt(Int32)));
  }

  method Uint32Setter(v: Data, f: Handle, opt: C.Options) returns (err: Option<BindError>)
    modifies f
    ensures Wrote(Coerce(C.Uint32Setter, v, opt.variableResolverChain), old(f.value), f.value, err)
  {
    if v.DInt? && v.kind == Uint32 {
      f.Write(VInt(Uint32, Wrap(Uint32, v.n)));
      return None;
    }
    if v.DInt? && v.kind == Int {
      f.Write(VInt(Uint32, Wrap(Uint32, v.n)));
      return None;
    }
    return Some(TypeMismatch(TInt(Uint32)));
  }

  method Int64Setter(v: Data, f: Handle, opt: C.Options) returns (err: Option<BindError>)
    modifies f
    ensures Wrote(Coerce(C.Int64Setter, v, opt.variableResolverChain), old(f.value), f.value, err)
  {
    if v.DInt? && v.kind == Int64 {
      f.Write(VInt(Int64, Wrap(Int64, v.n)));
      return None;
    }
    if v.DInt? && v.kind == Int {
      f.Write(VInt(Int64, Wrap(Int64, v.n)));
      return None;
    }
    return Some(TypeMismatch(TInt(Int64)));
  }

  method Uint64Setter(v: Data, f: Handle, opt: C.Options) returns (err: Option<BindError>)
    modifies f
    ensures Wrote(Coerce(C.Uint64Setter, v, opt.variableResolverChain), old(f.value), f.value, err)
  {
    if v.DInt? && v.kind == Uint64 {
      f.Write(VInt(Uint64, Wrap(Uint64, v.n)));
      return None;
    }
    if v.DInt? && v.kind == Int {
      f.Write(VInt(Uint64, Wrap(Uint64, v.n)));
      return None;
    }
    return Some(TypeMismatch(TInt(Uint64)));
  }

  method Float64Setter(v: Data, f: Handle, opt: C.Options) returns (err: Option<BindError>)
    modifies f
    ensures Wrote(Coerce(C.Float64Setter, v, opt.variableResolverChain), old(f.value), f.value, err)
  {
    if v.DFloat? {
      f.Write(VFloat(v.x));
      return None;
    } else if v.DInt? && v.kind == Int {
      f.Write(VFloat(v.n as real));
      return None;
    }
    return Some(TypeMismatch(TFloat64));
  }

  method BoolSetter(v: Data, f: Handle, opt: C.Options) returns (err: Option<BindError>)
    modifies f
    ensures Wrote(Coerce(C.BoolSetter, v, opt.variableResolverChain), old(f.value), f.value, err)
  {
    if v.DBool? {
      f.Write(VBool(v.b));
      return None;
    }
    return Some(TypeMismatch(TBool));
  }

  method StringSetter(v: Data, f: Handle, opt: C.Options) returns (err: Option<BindError>)
    requires C.NoDollarChain(opt.variableResolverChain)
    modifies f
    ensures Wrote(Coerce(C.StringSetter, v, opt.variableResolverChain), old(f.value), f.value, err)
  {
    if v.DStr? {
      var vt := v.s;
      if InlineVariablesFound(vt) {
        var replaced, e := ReplaceInlineVariables(vt, opt);
        if e.Some? {
          return e;
        }
        vt := replaced;
      }
      f.Write(VStr(vt));
      return None;
    }
    return Some(TypeMismatch(TString));
  }

  method TimeDurationSetter(v: Data, f: Handle, opt: C.Options) returns (err: Option<BindError>)
    modifies f
    ensures Wrote(Coerce(C.TimeDurationSetter, v, opt.variableResolverChain), old(f.value), f.value, err)
  {
    if v.DStr? {
      var duration := ParseDuration(v.s);
      if duration.None? {
        return Some(InvalidDuration(v.s));
      }
      f.Write(VDuration(duration.value));
      return None;
    }
    return Some(TypeMismatch(TDuration));
  }

  /** Calls the setter registered for a type: a builtin one, or a caller's own,
      which writes the converted value through the handle in the same way. */
  method Apply(s: C.Setter, v: Data, f: Handle, opt: C.Options) returns (err: Option<BindError>)
    requires C.NoDollarChain(opt.variableResolverChain)
    modifies f
    ensures Wrote(Coerce(s, v, opt.variableResolverChain), old(f.value), f.value, err)
  {
    if s.IntSetter? {
      err := IntSetter(v, f, opt);
    } else if s.Int8Setter? {
      err := Int8Setter(v, f, opt);
    } else if s.Uint8Setter? {
      err := Uint8Setter(v, f, opt);
    } else if s.Int16Setter? {
      err := Int16Setter(v, f, opt);
    } else if s.Uint16Setter? {
      err := Uint16Setter(v, f, opt);
    } else if s.Int32Setter? {
      err := Int32Setter(v, f, opt);
    } else if s.Uint32Setter? {
      err := Uint32Setter(v, f, opt);
    } else if s.Int64Setter? {
      err := Int64Setter(v, f, opt);
    } else if s.Uint64Setter? {
      err := Uint64Setter(v, f, opt);
    } else if s.Float64Setter? {
      err := Float64Setter(v, f, opt);
    } else if s.BoolSetter? {
      err := BoolSetter(v, f, opt);
    } else if s.StringSetter? {
      err := StringSetter(v, f, opt);
    } else if s.TimeDurationSetter? {
      err := TimeDurationSetter(v, f, opt);
    } else {
      var r := s.convert(v);
      if r.Err? {
        return Some(SetterFailure(r.error));
      }
      f.Write(r.value);
      err := None;
    }
  }
}
