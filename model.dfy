/**
 * The values the binder works on, written out as data: the decoded tree it reads,
 * the field-descriptor schema that stands for Go's reflected struct types, the
 * values it stores into fields, and the error conditions it reports.
 */
module Model {
  import opened Wrappers

  /** Go's integer types; `Int` is the platform `int` (taken to be 64 bits wide),
      which is what a YAML decoder produces for a bare number. */
  datatype IntKind = Int | Int8 | Int16 | Int32 | Int64 | Uint | Uint8 | Uint16 | Uint32 | Uint64

  predicate IsSigned(k: IntKind)
  {
    k == Int || k == Int8 || k == Int16 || k == Int32 || k == Int64
  }

  /** Two to the number of bits of the kind. */
  function Modulus(k: IntKind): (m: int)
    ensures m >= 0x100 && m % 2 == 0
  {
    match k
    case Int8 | Uint8 => 0x100
    case Int16 | Uint16 => 0x1_0000
    case Int32 | Uint32 => 0x1_0000_0000
    case Int | Int64 | Uint | Uint64 => 0x1_0000_0000_0000_0000
  }

  /** The integers a variable of kind `k` can hold. */
  predicate InRange(k: IntKind, n: int)
  {
    if IsSigned(k) then -(Modulus(k) / 2) <= n < Modulus(k) / 2 else 0 <= n < Modulus(k)
  }

  /** What a conversion of `n` to kind `k` stores (`int8(n)`, `uint64(n)`): the
      value of kind `k` congruent to `n` modulo two to the width. */
  function Wrap(k: IntKind, n: int): (r: int)
    ensures InRange(k, r)
    ensures InRange(k, n) ==> r == n
    ensures (r - n) % Modulus(k) == 0
  {
    var m := Modulus(k);
    if IsSigned(k) then
      var h := m / 2;
      ModFacts(n + h, k);
      (n + h) % m - h
    else
      ModFacts(n, k);
      n % m
  }

  /** The Euclidean remainder by the kind's modulus lies in `[0, m)`, differs
      from its operand by a multiple of `m`, and is the operand itself when that is
      already in range. Each case has a literal modulus, so the arithmetic is linear. */
  lemma ModFacts(x: int, k: IntKind)
    ensures 0 <= x % Modulus(k) < Modulus(k)
    ensures (x % Modulus(k) - x) % Modulus(k) == 0
    ensures 0 <= x < Modulus(k) ==> x % Modulus(k) == x
  {
    match k
    case Int8 | Uint8 =>
    case Int16 | Uint16 =>
    case Int32 | Uint32 =>
    case Int | Int64 | Uint | Uint64 =>
  }

  /** The decoded, untyped tree: `map[string]interface{}`, slices and scalars. The
      integer constructor keeps the dynamic width so that an `int8` can be told apart
      from an `int`; a float64 is represented by a real. */
  datatype Data =
    | DMap(entries: map<string, Data>)
    | DSeq(items: seq<Data>)
    | DStr(s: string)
    | DInt(kind: IntKind, n: int)
    | DFloat(x: real)
    | DBool(b: bool)
    | DNil

  /** A destination type, as the binder sees it through reflection. Struct types
      carry their field descriptors in declared order. `TNamed` stands for every
      other declared type (a named scalar such as an enum, a map, a channel), which
      can be bound only through a setter registered for it. */
  datatype Ty =
    | TInt(kind: IntKind)
    | TFloat64
    | TBool
    | TString
    | TDuration
    | TNamed(name: string)
    | TStruct(name: string, fields: seq<FieldDesc>)
    | TPtr(elem: Ty)
    | TSlice(elem: Ty)
    | TInterface

  /** One declared struct field: its Go name, the content of its `cf` tag ("" when
      there is none), its type, and the two reflection answers the binder consults:
      `CanInterface` (the field is exported) and `CanSet`. */
  datatype FieldDesc = FieldDesc(name: string, tag: string, ty: Ty, canInterface: bool, canSet: bool)

  /** A value held by a field. `VNil` is the zero value of pointers, slices,
      interfaces and named types. Nested struct instances are values: a pointer
      field holds `VPtr` of the instance. */
  datatype Value =
    | VInt(kind: IntKind, n: int)
    | VFloat(x: real)
    | VBool(b: bool)
    | VStr(s: string)
    | VDuration(nanos: int)
    | VStruct(tname: string, fields: seq<Value>)
    | VPtr(target: Value)
    | VSlice(elems: seq<Value>)
    | VNil

  /** The conditions under which binding fails. Leaf errors carry the external
      name of the field they arose in when the source's message names it;
      `InField` and `InFlexibleSetter` are the breadcrumbs added by wrapping. */
  datatype BindError =
    | NotAStruct
    | MissingRequiredField(field: string)
    | NonSettableField(field: string)
    | InvalidSubMap(field: string)
    | InvalidSliceData(field: string)
    | NotDataMap(field: string)
    | MissingDiscriminator(field: string)
    | NonStringDiscriminator(field: string)
    | NoFlexibleSetters(field: string)
    | UnknownDiscriminator(field: string)
    | NoSetterAvailable(field: string)
    | InField(field: string, cause: BindError)
    | InFlexibleSetter(field: string, cause: BindError)
    | TypeMismatch(expected: Ty)
    | UnresolvedVariable(name: string)
    | NonStringVariableValue(name: string)
    | InvalidDuration(text: string)
    | SetterFailure(message: string)
    | FactoryFailure(message: string)
    | WiringFailure(typeName: string, message: string)
    | Panic(reason: string)

  /** `v` is a value a Go variable of type `t` can hold: a scalar of its kind
      and range, a struct of that type with one well-typed entry per field, a nil
      or well-typed pointer or slice. A named type or an interface holds anything. */
  predicate HasType(v: Value, t: Ty)
    decreases t
  {
    match t
    case TInt(k) => v.VInt? && v.kind == k && InRange(k, v.n)
    case TFloat64 => v.VFloat?
    case TBool => v.VBool?
    case TString => v.VStr?
    case TDuration => v.VDuration? && InRange(Int64, v.nanos)
    case TNamed(_) => true
    case TInterface => true
    case TStruct(n, fs) =>
      && v.VStruct? && v.tname == n && |v.fields| == |fs|
      && forall i :: 0 <= i < |fs| ==> HasType(v.fields[i], fs[i].ty)
    case TPtr(e) => v == VNil || (v.VPtr? && HasType(v.target, e))
    case TSlice(e) => v == VNil || (v.VSlice? && forall i :: 0 <= i < |v.elems| ==> HasType(v.elems[i], e))
  }

  /** The zero value of a type, as `reflect.New` allocates it. */
  function Zero(t: Ty): (v: Value)
    ensures t.TStruct? ==> v.VStruct? && |v.fields| == |t.fields|
  {
    match t
    case TInt(k) => VInt(k, 0)
    case TFloat64 => VFloat(0.0)
    case TBool => VBool(false)
    case TString => VStr("")
    case TDuration => VDuration(0)
    case TStruct(n, fs) => VStruct(n, seq(|fs|, i requires 0 <= i < |fs| => Zero(fs[i].ty)))
    case _ => VNil
  }

  /** What `reflect.New` allocates can be stored in a variable of the type. */
  lemma {:induction false} ZeroHasType(t: Ty)
    ensures HasType(Zero(t), t)
    decreases t
  {
    match t
    case TStruct(n, fs) =>
      forall i | 0 <= i < |fs|
        ensures HasType(Zero(t).fields[i], fs[i].ty)
      {
        ZeroHasType(fs[i].ty);
      }
    case _ =>
  }

  /** `valueFromPtr`: the pointed-to type of a pointer type, any other type itself. */
  function ValueFromPtr(t: Ty): (b: Ty)
    ensures b == t || t == TPtr(b)
    ensures b == t <==> !t.TPtr?
  {
    if t.TPtr? then
      assert t.elem < t;
      t.elem
    else t
  }

  /** A struct type, by value or behind one pointer. */
  predicate IsStructLike(t: Ty)
  {
    t.TStruct? || (t.TPtr? && t.elem.TStruct?)
  }

  /** What a write through a field handle leaves in it: a handle that holds a
      pointer is written through (`f.Elem().SetX`), any other is overwritten. */
  function Through(handle: Value, x: Value): Value
  {
    if handle.VPtr? then VPtr(x) else x
  }

  /** The elements of a slice value; a nil slice has none. */
  function SliceElems(v: Value): seq<Value>
  {
    if v.VSlice? then v.elems else []
  }

  /** `reflect.Append`: the slice with one more element at the end. */
  function Append(v: Value, x: Value): (r: Value)
    ensures SliceElems(r) == SliceElems(v) + [x]
  {
    VSlice(SliceElems(v) + [x])
  }

  /** The shape a value must have to stand for an instance of `t`: a struct value
      has one entry per declared field. */
  predicate Fits(v: Value, t: Ty)
  {
    t.TStruct? ==> v.VStruct? && |v.fields| == |t.fields|
  }
}
