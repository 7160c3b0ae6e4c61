/**
 * The binder (cf.go). `Bind` walks the destination's fields in declared order;
 * for each exported field it parses the `cf` directive, looks the external name
 * up in the data map and dispatches on the field's static type: a setter
 * registered for exactly that type, then a nested struct (by value or pointer),
 * then a slice, then an interface slot filled by a flexible factory; any other
 * type is an error. The first error stops the walk and earlier writes stay in
 * place. After every field has succeeded, the wirings registered for the type
 * run in order.
 *
 * The functions `BindSpec` … `ElementSpec` state on values what binding does;
 * the methods of `Dest` perform it in place, field by field and element by
 * element, and are proved to agree with them.
 */
module Binder {
  import opened Wrappers
  import opened Model
  import opened Strings
  import C = Configuration
  import S = Setters

  /** `fieldData`: the external name and the two directive flags. */
  datatype FieldData = FieldData(name: string, skip: bool, required: bool)

  /** What binding one field leaves in it, and its error if any. */
  datatype Step = Step(value: Value, err: Option<BindError>)

  /** What binding a struct leaves in its fields, and its error if any. */
  datatype Outcome = Outcome(fields: seq<Value>, err: Option<BindError>)

  /** The directive's tokens: none for an empty tag, otherwise the tag split at
      every comma. */
  function Tokens(tag: string): (ts: seq<string>)
    ensures tag == "" ==> ts == []
    ensures tag != "" ==> |ts| >= 1 && Join(ts, ',') == tag
  {
    if tag == "" then [] else
      JoinSplit(tag, ',');
      Split(tag, ',')
  }

  /** A token that is not one of the two flags, and so names the field. */
  predicate IsBare(t: string)
  {
    t != "+required" && t != "+skip"
  }

  /** The last bare token, or `d` when there is none. */
  function LastBare(ts: seq<string>, d: string): string
  {
    if ts == [] then d
    else if IsBare(ts[|ts| - 1]) then ts[|ts| - 1]
    else LastBare(ts[..|ts| - 1], d)
  }

  /** `LastBare` is the default exactly when no token is bare, and otherwise a
      bare token after which no token is bare. */
  lemma {:induction false} LastBareIsLast(ts: seq<string>, d: string)
    ensures (forall i :: 0 <= i < |ts| ==> !IsBare(ts[i])) ==> LastBare(ts, d) == d
    ensures (exists i :: 0 <= i < |ts| && IsBare(ts[i])) ==>
              exists i :: 0 <= i < |ts| && IsBare(ts[i]) && LastBare(ts, d) == ts[i]
                          && forall j :: i < j < |ts| ==> !IsBare(ts[j])
    decreases |ts|
  {
    if ts != [] {
      var k := |ts| - 1;
      if IsBare(ts[k]) {
        assert IsBare(ts[k]) && LastBare(ts, d) == ts[k];
      } else {
        var p := ts[..k];
        assert forall i :: 0 <= i < |p| ==> p[i] == ts[i];
        LastBareIsLast(p, d);
        if exists i :: 0 <= i < |ts| && IsBare(ts[i]) {
          var i :| 0 <= i < |ts| && IsBare(ts[i]);
          assert IsBare(p[i]);
          var w :| 0 <= w < |p| && IsBare(p[w]) && LastBare(p, d) == p[w] && forall j :: w < j < |p| ==> !IsBare(p[j]);
          assert IsBare(ts[w]) && LastBare(ts, d) == ts[w] && forall j :: w < j < |ts| ==> !IsBare(ts[j]);
        }
      }
    }
  }

  /** What `parseFieldData` yields for a field. */
  function FieldDataOf(f: FieldDesc, nc: C.NameConverter): FieldData
  {
    var ts := Tokens(f.tag);
    FieldData(LastBare(ts, nc(f)), "+skip" in ts, "+required" in ts)
  }

  /** `parseFieldData`: starts from the converter's name for the field and walks the tokens,
      the flags setting themselves and every other token replacing the name. */
  method ParseFieldData(f: FieldDesc, opt: C.Options) returns (fd: FieldData)
    ensures fd == FieldDataOf(f, opt.nameConverter)
  {
    fd := FieldData(opt.nameConverter(f), false, false);
    var data := f.tag;
    if data != "" {
      var tokens := Split(data, ',');
      for i := 0 to |tokens|
        invariant fd == FieldData(LastBare(tokens[..i], opt.nameConverter(f)),
                                  "+skip" in tokens[..i], "+required" in tokens[..i])
      {
        assert tokens[..i + 1] == tokens[..i] + [tokens[i]];
        var token := tokens[i];
        if token == "+required" {
          fd := fd.(required := true);
        } else if token == "+skip" {
          fd := fd.(skip := true);
        } else {
          fd := fd.(name := token);
        }
      }
      assert tokens[..|tokens|] == tokens;
    }
  }

  /** The directive in full: the name is the last bare token, or the converter's
      name for the whole field when there is none; each flag is set exactly when its token occurs. */
  lemma {:induction false} FieldDataMeaning(f: FieldDesc, nc: C.NameConverter)
    ensures FieldDataOf(f, nc).skip <==> f.tag != "" && "+skip" in Split(f.tag, ',')
    ensures FieldDataOf(f, nc).required <==> f.tag != "" && "+required" in Split(f.tag, ',')
    ensures (f.tag == "" || forall t | t in Split(f.tag, ',') :: !IsBare(t)) ==> FieldDataOf(f, nc).name == nc(f)
    ensures f.tag != "" && (exists t :: t in Split(f.tag, ',') && IsBare(t)) ==>
              var ts := Split(f.tag, ',');
              exists i :: 0 <= i < |ts| && IsBare(ts[i]) && FieldDataOf(f, nc).name == ts[i]
                          && forall j :: i < j < |ts| ==> !IsBare(ts[j])
  {
    var ts := Tokens(f.tag);
    LastBareIsLast(ts, nc(f));
    if f.tag != "" && exists t :: t in Split(f.tag, ',') && IsBare(t) {
      var t :| t in ts && IsBare(t);
      var i :| 0 <= i < |ts| && ts[i] == t;
      assert IsBare(ts[i]);
    }
  }

  /** The directive of a renamed, required field. */
  lemma RenamedRequiredField(nc: C.NameConverter)
    ensures FieldDataOf(FieldDesc("SomeInt", "some_int_,+required", TInt(Int), true, true), nc)
            == FieldData("some_int_", false, true)
  {
    var ts := ["some_int_", "+required"];
    assert Join(ts, ',') == "some_int_,+required";
    SplitJoin(ts, ',');
    assert Tokens("some_int_,+required") == ts;
    assert "+skip" !in ts && "+required" in ts;
    assert !IsBare(ts[1]);
    assert IsBare("some_int_") by {
      assert "some_int_"[0] != "+required"[0] && "some_int_"[0] != "+skip"[0];
    }
    assert ts[..1] == ["some_int_"];
    assert LastBare(ts, nc(FieldDesc("SomeInt", "some_int_,+required", TInt(Int), true, true))) == LastBare(["some_int_"], nc(FieldDesc("SomeInt", "some_int_,+required", TInt(Int), true, true)));
  }

  /** `instantiateAsPtr`: the instance a pointer to which is created for `t`
      (itself or, for a pointer type, its element type): the registered
      instantiator's result, or else the zero value. */
  function Instantiate(t: Ty, opt: C.Options): (v: Value)
    reads opt
    requires opt.Valid()
    ensures Fits(v, ValueFromPtr(t))
    ensures ValueFromPtr(t) !in Entries(opt.instantiators) ==> v == Zero(ValueFromPtr(t))
    ensures ValueFromPtr(t) in Entries(opt.instantiators) ==> v == Entries(opt.instantiators)[ValueFromPtr(t)]
  {
    var it := ValueFromPtr(t);
    if it in Entries(opt.instantiators) then Entries(opt.instantiators)[it] else Zero(it)
  }

  /** The setter registered for exactly the type `t`, if any. */
  function SetterFor(t: Ty, opt: C.Options): Option<C.Setter>
    reads opt
  {
    if t in Entries(opt.setters) then Some(Entries(opt.setters)[t]) else None
  }

  /** The wirings registered for a type, in registration order. */
  function WiringsFor(t: Ty, opt: C.Options): seq<C.Wiring>
    reads opt
  {
    if opt.wirings.Some? && t in opt.wirings.value then opt.wirings.value[t] else []
  }

  /** An interface slot: `node` must be a map whose `"type"` entry is a string
      naming a registered flexible factory, which is then applied to `arg`. Each
      way of failing is its own error. */
  function Flexible(node: Data, arg: Data, field: string, opt: C.Options): (r: Result<Value, BindError>)
    reads opt
    ensures r == Err(NotDataMap(field)) <==> !node.DMap?
    ensures r == Err(MissingDiscriminator(field)) <==> node.DMap? && "type" !in node.entries
    ensures r == Err(NonStringDiscriminator(field))
            <==> node.DMap? && "type" in node.entries && !node.entries["type"].DStr?
    ensures r == Err(NoFlexibleSetters(field))
            <==> node.DMap? && "type" in node.entries && node.entries["type"].DStr? && opt.flexibleSetters.None?
    ensures r == Err(UnknownDiscriminator(field))
            <==> node.DMap? && "type" in node.entries && node.entries["type"].DStr? && opt.flexibleSetters.Some?
                 && node.entries["type"].s !in opt.flexibleSetters.value
    ensures r.Ok? ==> node.DMap? && "type" in node.entries && node.entries["type"].DStr?
                      && opt.flexibleSetters.Some? && node.entries["type"].s in opt.flexibleSetters.value
                      && opt.flexibleSetters.value[node.entries["type"].s](arg) == Ok(r.value)
  {
    if !node.DMap? then Err(NotDataMap(field))
    else if "type" !in node.entries then Err(MissingDiscriminator(field))
    else if !node.entries["type"].DStr? then Err(NonStringDiscriminator(field))
    else if opt.flexibleSetters.None? then Err(NoFlexibleSetters(field))
    else if node.entries["type"].s !in opt.flexibleSetters.value then Err(UnknownDiscriminator(field))
    else
      match opt.flexibleSetters.value[node.entries["type"].s](arg)
      case Ok(x) => Ok(x)
      case Err(m) => Err(InFlexibleSetter(field, FactoryFailure(m)))
  }

  /** The wirings in order on the bound target: the first failure, named after
      the type, or `None` when every wiring succeeds. */
  function RunWirings(ws: seq<C.Wiring>, target: Value, tname: string): (r: Option<BindError>)
    ensures r.None? <==> forall k :: 0 <= k < |ws| ==> ws[k](target).None?
    ensures r.Some? ==> exists k :: 0 <= k < |ws| && ws[k](target).Some?
                                    && r == Some(WiringFailure(tname, ws[k](target).value))
                                    && forall j :: 0 <= j < k ==> ws[j](target).None?
    decreases |ws|
  {
    if ws == [] then None
    else if ws[0](target).Some? then Some(WiringFailure(tname, ws[0](target).value))
    else
      assert forall k :: 1 <= k < |ws| ==> ws[k] == ws[1..][k - 1];
      RunWirings(ws[1..], target, tname)
  }

  /** The wirings as cf.go:190 runs them: the error message is built by calling
      `Elem` on the struct value itself, which reflection refuses with a panic. */
  function RunWiringsAsWritten(ws: seq<C.Wiring>, target: Value): (r: Option<BindError>)
    ensures r.None? <==> forall k :: 0 <= k < |ws| ==> ws[k](target).None?
    ensures r.Some? ==> r.value.Panic?
    decreases |ws|
  {
    if ws == [] then None
    else if ws[0](target).Some? then Some(Panic("reflect: call of reflect.Value.Elem on struct Value"))
    else
      assert forall k :: 1 <= k < |ws| ==> ws[k] == ws[1..][k - 1];
      RunWiringsAsWritten(ws[1..], target)
  }

  /** A wiring that fails makes the code as written panic instead of reporting
      its error; the corrected loop reports it, wrapped with the type's name. */
  lemma WiringErrorPanicsAsWritten(target: Value)
    ensures RunWiringsAsWritten([(x: Value) => Some("no database")], target).value.Panic?
    ensures RunWirings([(x: Value) => Some("no database")], target, "config")
         == Some(WiringFailure("config", "no database"))
  {
  }

  /** Binding the struct type `t` from the map `data`, starting from the field
      values `cur`. */
  function BindSpec(t: Ty, cur: seq<Value>, data: map<string, Data>, opt: C.Options): (o: Outcome)
    reads opt
    requires opt.Valid()
    requires t.TStruct? ==> |cur| == |t.fields|
    ensures t.TStruct? ==> |o.fields| == |t.fields|
    ensures !t.TStruct? ==> o == Outcome(cur, Some(NotAStruct))
    decreases t, 3, 0
  {
    if !t.TStruct? then Outcome(cur, Some(NotAStruct))
    else
      var o := FieldsSpec(t, cur, 0, data, opt);
      if o.err.Some? then o
      else Outcome(o.fields, RunWirings(WiringsFor(t, opt), VStruct(t.name, o.fields), t.name))
  }

  /** The field loop from field `i` on: each field in turn, stopping at the
      first error. */
  function FieldsSpec(t: Ty, cur: seq<Value>, i: nat, data: map<string, Data>, opt: C.Options): (o: Outcome)
    reads opt
    requires opt.Valid()
    requires t.TStruct? && |cur| == |t.fields| && i <= |t.fields|
    ensures |o.fields| == |t.fields|
    ensures forall j :: 0 <= j < i ==> o.fields[j] == cur[j]
    decreases t, 2, |t.fields| - i
  {
    if i == |t.fields| then Outcome(cur, None)
    else
      var s := FieldStep(t.fields[i], cur[i], data, opt);
      if s.err.Some? then Outcome(cur[i := s.value], s.err)
      else FieldsSpec(t, cur[i := s.value], i + 1, data, opt)
  }

  /** One field: unexported and skipped fields are left alone; an absent name is
      an error only for a required field; a present one needs a settable field
      and is dispatched on the field's type. */
  function FieldStep(f: FieldDesc, cur: Value, data: map<string, Data>, opt: C.Options): (s: Step)
    reads opt
    requires opt.Valid()
    ensures s.err.None? && f.canInterface && !FieldDataOf(f, opt.nameConverter).skip
            ==> (FieldDataOf(f, opt.nameConverter).required ==> FieldDataOf(f, opt.nameConverter).name in data)
    ensures (|| !f.canInterface || FieldDataOf(f, opt.nameConverter).skip
             || FieldDataOf(f, opt.nameConverter).name !in data) ==> s.value == cur
    decreases f.ty, 6, 0
  {
    if !f.canInterface then Step(cur, None)
    else
      var fd := FieldDataOf(f, opt.nameConverter);
      if fd.skip then Step(cur, None)
      else if fd.name !in data then
        if fd.required then Step(cur, Some(MissingRequiredField(fd.name))) else Step(cur, None)
      else if !f.canSet then Step(cur, Some(NonSettableField(fd.name)))
      else Dispatch(f.ty, cur, data[fd.name], fd.name, opt)
  }

  /** The four rules in order: exact setter, nested struct, slice, interface. */
  function Dispatch(ft: Ty, cur: Value, v: Data, name: string, opt: C.Options): (s: Step)
    reads opt
    requires opt.Valid()
    ensures s.err.Some? ==> s.value == cur || ft.TSlice?
    decreases ft, 5, 0
  {
    match SetterFor(ft, opt)
    case Some(setter) =>
      (match S.Coerce(setter, v, opt.variableResolverChain)
       case Ok(x) => Step(Through(cur, x), None)
       case Err(e) => Step(cur, Some(InField(name, e))))
    case None =>
      if IsStructLike(ft) then NestedStep(ft, cur, v, name, opt)
      else if ft.TSlice? then
        if v.DSeq? then SliceSpec(ft, cur, v.items, 0, name, opt)
        else Step(cur, Some(InvalidSliceData(name)))
      else if ft.TInterface? then
        match Flexible(v, v, name, opt)
        case Ok(x) => Step(x, None)
        case Err(e) => Step(cur, Some(e))
      else Step(cur, Some(NoSetterAvailable(name)))
  }

  /** A struct field, by value or by pointer: a fresh instance is bound from the
      sub-map and stored (behind a new pointer for a pointer field); the field
      keeps its value when the data is not a map or the nested bind fails. */
  function NestedStep(ft: Ty, cur: Value, v: Data, name: string, opt: C.Options): (s: Step)
    reads opt
    requires opt.Valid() && IsStructLike(ft)
    ensures s.err.Some? ==> s.value == cur
    ensures s.err.None? ==> v.DMap? && (if ft.TPtr? then s.value.VPtr? && s.value.target.VStruct?
                                        else s.value.VStruct?)
    decreases ft, 4, 0
  {
    var st := ValueFromPtr(ft);
    var inst := Instantiate(ft, opt);
    if !v.DMap? then Step(cur, Some(InvalidSubMap(name)))
    else
      var o := BindSpec(st, inst.fields, v.entries, opt);
      if o.err.Some? then Step(cur, Some(InField(name, o.err.value)))
      else
        var bound := VStruct(st.name, o.fields);
        Step(if ft.TPtr? then VPtr(bound) else bound, None)
  }

  /** A slice field from element `j` on: one element appended per input element,
      stopping at the first error with the elements appended so far left in
      place. */
  function SliceSpec(ft: Ty, cur: Value, items: seq<Data>, j: nat, name: string, opt: C.Options): (s: Step)
    reads opt
    requires opt.Valid() && ft.TSlice? && j <= |items|
    decreases ft, 4, |items| - j
  {
    if j == |items| then Step(cur, None)
    else
      match ElementSpec(ft, items[j], DSeq(items), name, opt)
      case Err(e) => Step(cur, Some(e))
      case Ok(x) => SliceSpec(ft, Append(cur, x), items, j + 1, name, opt)
  }

  /** One slice element. An interface element is made by the flexible factory,
      which is handed the whole input sequence `whole` (as cf.go:116 does).
      Otherwise a fresh element is filled by the setter registered for the
      element type, or bound from a sub-map when it is a struct, or else left as
      created; it is appended behind its pointer when the slice holds pointers. */
  function ElementSpec(ft: Ty, item: Data, whole: Data, name: string, opt: C.Options): (r: Result<Value, BindError>)
    reads opt
    requires opt.Valid() && ft.TSlice?
    ensures r.Ok? && ft.elem.TPtr? && !ValueFromPtr(ft.elem).TInterface? ==> r.value.VPtr?
    decreases ft, 3, 0
  {
    var et := ValueFromPtr(ft.elem);
    if et.TInterface? then Flexible(item, whole, name, opt)
    else
      match Filled(et, item, name, opt)
      case Ok(q) => Ok(if ft.elem.TPtr? then VPtr(q) else q)
      case Err(e) => Err(e)
  }

  /** A fresh instance of the element type `et`, filled by the setter registered
      for it, or bound from a sub-map when it is a struct, or else left as created. */
  function Filled(et: Ty, item: Data, name: string, opt: C.Options): (r: Result<Value, BindError>)
    reads opt
    requires opt.Valid()
    decreases et, 4, 0
  {
    var p := Instantiate(et, opt);
    match SetterFor(et, opt)
    case Some(setter) =>
      (match S.Coerce(setter, item, opt.variableResolverChain)
       case Ok(x) => Ok(x)
       case Err(e) => Err(InField(name, e)))
    case None =>
      if et.TStruct? then
        if !item.DMap? then Err(InvalidSubMap(name))
        else
          var o := BindSpec(et, p.fields, item.entries, opt);
          if o.err.Some? then Err(InField(name, o.err.value)) else Ok(VStruct(et.name, o.fields))
      else Ok(p)
  }

  /** The destination of a bind: an instance of the struct type `ty`, whose
      field values the methods update one at a time. */
  class Dest {
    const ty: Ty
    var fields: seq<Value>

    ghost predicate Valid()
      reads this
    {
      ty.TStruct? ==> |fields| == |ty.fields|
    }

    constructor (ty: Ty, start: seq<Value>)
      requires ty.TStruct? ==> |start| == |ty.fields|
      ensures this.ty == ty && fields == start && Valid()
    {
      this.ty := ty;
      fields := start;
    }

    /** `Bind`: the field loop in declared order, then the wirings. */
    method Bind(data: map<string, Data>, opt: C.Options) returns (err: Option<BindError>)
      requires opt.Valid() && Valid()
      modifies this
      ensures Valid()
      ensures Outcome(fields, err) == BindSpec(ty, old(fields), data, opt)
      decreases ty, 3, 0
    {
      if !ty.TStruct? {
        return Some(NotAStruct);
      }
      var i := 0;
      while i < |ty.fields|
        invariant 0 <= i <= |ty.fields| && |fields| == |ty.fields|
        invariant FieldsSpec(ty, fields, i, data, opt) == FieldsSpec(ty, old(fields), 0, data, opt)
      {
        err := BindField(i, data, opt);
        if err.Some? {
          return;
        }
        i := i + 1;
      }
      var ws := WiringsFor(ty, opt);
      var target := VStruct(ty.name, fields);
      for k := 0 to |ws|
        invariant RunWirings(ws[k..], target, ty.name) == RunWirings(ws, target, ty.name)
      {
        assert ws[k..][1..] == ws[k + 1..];
        var failure := ws[k](target);
        if failure.Some? {
          return Some(WiringFailure(ty.name, failure.value));
        }
      }
      return None;
    }

    /** One iteration of the field loop: updates field `i` and no other. */
    method BindField(i: nat, data: map<string, Data>, opt: C.Options) returns (err: Option<BindError>)
      requires opt.Valid() && Valid() && ty.TStruct? && i < |ty.fields|
      modifies this
      ensures |fields| == |old(fields)| && fields == old(fields)[i := fields[i]]
      ensures Step(fields[i], err) == FieldStep(ty.fields[i], old(fields[i]), data, opt)
      decreases ty.fields[i].ty, 6, 0
    {
      var f := ty.fields[i];
      if !f.canInterface {
        return None;
      }
      var fd := ParseFieldData(f, opt);
      if fd.skip {
        return None;
      }
      if fd.name !in data {
        if fd.required {
          return Some(MissingRequiredField(fd.name));
        }
        return None;
      }
      if !f.canSet {
        return Some(NonSettableField(fd.name));
      }
      var v := data[fd.name];
      var nestedType := f.ty;
      assert FieldStep(f, fields[i], data, opt) == Dispatch(nestedType, fields[i], v, fd.name, opt);
      var handler := SetterFor(nestedType, opt);
      if handler.Some? {
        var h := new S.Handle(fields[i]);
        var e := S.Apply(handler.value, v, h, opt);
        if e.Some? {
          return Some(InField(fd.name, e.value));
        }
        fields := fields[i := h.value];
        return None;
      } else if IsStructLike(nestedType) {
        assert Dispatch(nestedType, fields[i], v, fd.name, opt) == NestedStep(nestedType, fields[i], v, fd.name, opt);
        var st := ValueFromPtr(nestedType);
        var inst := Instantiate(nestedType, opt);
        if !v.DMap? {
          return Some(InvalidSubMap(fd.name));
        }
        var nested := new Dest(st, inst.fields);
        var e := nested.Bind(v.entries, opt);
        if e.Some? {
          return Some(InField(fd.name, e.value));
        }
        var bound := VStruct(st.name, nested.fields);
        fields := fields[i := if nestedType.TPtr? then VPtr(bound) else bound];
        return None;
      } else if nestedType.TSlice? {
        if !v.DSeq? {
          return Some(InvalidSliceData(fd.name));
        }
        err := BindSliceField(i, v.items, fd.name, opt);
      } else if nestedType.TInterface? {
        var r := Flexible(v, v, fd.name, opt);
        if r.Err? {
          return Some(r.error);
        }
        fields := fields[i := r.value];
        return None;
      } else {
        return Some(NoSetterAvailable(fd.name));
      }
    }

    /** The element loop of a slice field: appends to field `i` one element at
        a time. */
    method BindSliceField(i: nat, items: seq<Data>, name: string, opt: C.Options) returns (err: Option<BindError>)
      requires opt.Valid() && Valid() && ty.TStruct? && i < |ty.fields| && ty.fields[i].ty.TSlice?
      modifies this
      ensures |fields| == |old(fields)| && fields == old(fields)[i := fields[i]]
      ensures Step(fields[i], err) == SliceSpec(ty.fields[i].ty, old(fields[i]), items, 0, name, opt)
      decreases ty.fields[i].ty, 5, 0
    {
      var ft := ty.fields[i].ty;
      var j := 0;
      while j < |items|
        invariant 0 <= j <= |items| && |fields| == |old(fields)| && fields == old(fields)[i := fields[i]]
        invariant SliceSpec(ft, fields[i], items, j, name, opt) == SliceSpec(ft, old(fields[i]), items, 0, name, opt)
      {
        var elem := BindElement(ft, items[j], DSeq(items), name, opt);
        if elem.Err? {
          return Some(elem.error);
        }
        fields := fields[i := Append(fields[i], elem.value)];
        j := j + 1;
      }
      return None;
    }
  }

  /** One element of a slice field: created, filled, and returned ready to be
      appended. */
  method BindElement(ft: Ty, item: Data, whole: Data, name: string, opt: C.Options) returns (r: Result<Value, BindError>)
    requires opt.Valid() && ft.TSlice?
    ensures r == ElementSpec(ft, item, whole, name, opt)
    decreases ft, 4, 0
  {
    var et := ValueFromPtr(ft.elem);
    if et.TInterface? {
      return Flexible(item, whole, name, opt);
    }
    var filled := FillElement(et, item, name, opt);
    if filled.Err? {
      return Err(filled.error);
    }
    return Ok(if ft.elem.TPtr? then VPtr(filled.value) else filled.value);
  }

  /** Creates an instance of `et` and fills it, exactly as `Filled` says. */
  method FillElement(et: Ty, item: Data, name: string, opt: C.Options) returns (r: Result<Value, BindError>)
    requires opt.Valid()
    ensures r == Filled(et, item, name, opt)
    decreases et, 4, 0
  {
    var p := Instantiate(et, opt);
    var handler := SetterFor(et, opt);
    if handler.Some? {
      var h := new S.Handle(VPtr(p));
      var e := S.Apply(handler.value, item, h, opt);
      if e.Some? {
        return Err(InField(name, e.value));
      }
      return Ok(h.value.target);
    } else if et.TStruct? {
      if !item.DMap? {
        return Err(InvalidSubMap(name));
      }
      var elem := new Dest(et, p.fields);
      var e := elem.Bind(item.entries, opt);
      if e.Some? {
        return Err(InField(name, e.value));
      }
      return Ok(VStruct(et.name, elem.fields));
    }
    return Ok(p);
  }
}
