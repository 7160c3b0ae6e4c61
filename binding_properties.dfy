/**
 * What binding promises, stated about the functions of `Binder`: the field loop
 * is a walk in declared order that stops at the first error without rolling
 * back, required fields must be present, absent and skipped fields keep their
 * values, the dispatch rules apply in their order, nested structs overlay only
 * the keys present, slices grow by one element per input element in order, and
 * wirings run only once every field has been bound.
 */
module BindingProperties {
  import opened Wrappers
  import opened Model
  import C = Configuration
  import S = Setters
  import opened Binder
  import Variables

  /** The step field `j` takes when the loop reaches it with the values `cur`. */
  function StepAt(t: Ty, cur: seq<Value>, j: nat, data: map<string, Data>, opt: C.Options): Step
    reads opt
    requires opt.Valid() && t.TStruct? && |cur| == |t.fields| && j < |t.fields|
  {
    FieldStep(t.fields[j], cur[j], data, opt)
  }

  /** The loop from field `i` on ended with the error of field `k`: every field
      before `k` took its step successfully, field `k` took its failing step, and
      every field after `k` is untouched. */
  ghost predicate StoppedAt(o: Outcome, t: Ty, cur: seq<Value>, i: nat, k: nat, data: map<string, Data>, opt: C.Options)
    reads opt
    requires opt.Valid() && t.TStruct? && |cur| == |t.fields| && |o.fields| == |t.fields|
  {
    && i <= k < |t.fields|
    && StepAt(t, cur, k, data, opt).err.Some? && o.err == StepAt(t, cur, k, data, opt).err
    && o.fields[k] == StepAt(t, cur, k, data, opt).value
    && (forall j :: i <= j < k ==> StepAt(t, cur, j, data, opt).err.None? && o.fields[j] == StepAt(t, cur, j, data, opt).value)
    && (forall j :: k < j < |t.fields| ==> o.fields[j] == cur[j])
  }

  /** The field loop, described field by field: each field's outcome depends
      only on its own starting value; on success every field took its step, and
      on failure the loop stopped at one field, with the earlier writes kept (no
      rollback) and the later fields never visited. */
  lemma FieldsInOrder(t: Ty, cur: seq<Value>, i: nat, data: map<string, Data>, opt: C.Options)
    requires opt.Valid() && t.TStruct? && |cur| == |t.fields| && i <= |t.fields|
    ensures var o := FieldsSpec(t, cur, i, data, opt);
            o.err.None? ==> forall j :: i <= j < |t.fields| ==>
                              StepAt(t, cur, j, data, opt).err.None? && o.fields[j] == StepAt(t, cur, j, data, opt).value
    ensures var o := FieldsSpec(t, cur, i, data, opt);
            o.err.Some? ==> exists k :: StoppedAt(o, t, cur, i, k, data, opt)
  {
    AllFieldsStepped(t, cur, i, data, opt);
    StoppedAtField(t, cur, i, data, opt);
  }

  /** The success half of `FieldsInOrder`. */
  lemma {:induction false} AllFieldsStepped(t: Ty, cur: seq<Value>, i: nat, data: map<string, Data>, opt: C.Options)
    requires opt.Valid() && t.TStruct? && |cur| == |t.fields| && i <= |t.fields|
    ensures var o := FieldsSpec(t, cur, i, data, opt);
            o.err.None? ==> forall j :: i <= j < |t.fields| ==>
                              StepAt(t, cur, j, data, opt).err.None? && o.fields[j] == StepAt(t, cur, j, data, opt).value
    decreases |t.fields| - i
  {
    if i < |t.fields| {
      var s := StepAt(t, cur, i, data, opt);
      if s.err.None? {
        var next := cur[i := s.value];
        assert FieldsSpec(t, cur, i, data, opt) == FieldsSpec(t, next, i + 1, data, opt);
        AllFieldsStepped(t, next, i + 1, data, opt);
        forall j | i < j < |t.fields|
          ensures StepAt(t, next, j, data, opt) == StepAt(t, cur, j, data, opt)
        {
          assert next[j] == cur[j];
        }
      } else {
        assert FieldsSpec(t, cur, i, data, opt).err == s.err;
      }
    }
  }

  /** The failure half of `FieldsInOrder`. */
  lemma {:induction false} StoppedAtField(t: Ty, cur: seq<Value>, i: nat, data: map<string, Data>, opt: C.Options)
    requires opt.Valid() && t.TStruct? && |cur| == |t.fields| && i <= |t.fields|
    ensures var o := FieldsSpec(t, cur, i, data, opt);
            o.err.Some? ==> exists k :: StoppedAt(o, t, cur, i, k, data, opt)
    decreases |t.fields| - i
  {
    if i < |t.fields| {
      var o := FieldsSpec(t, cur, i, data, opt);
      var s := StepAt(t, cur, i, data, opt);
      if s.err.Some? {
        assert StoppedAt(o, t, cur, i, i, data, opt);
      } else {
        var next := cur[i := s.value];
        StoppedAtField(t, next, i + 1, data, opt);
        assert o == FieldsSpec(t, next, i + 1, data, opt);
        if o.err.Some? {
          var k :| StoppedAt(o, t, next, i + 1, k, data, opt);
          StoppedAtShift(o, t, cur, i, k, data, opt);
        }
      }
    }
  }

  /** A stop at field `k` of the loop run from `i + 1`, after field `i` took its
      step successfully, is a stop at `k` of the loop run from `i`. */
  lemma StoppedAtShift(o: Outcome, t: Ty, cur: seq<Value>, i: nat, k: nat, data: map<string, Data>, opt: C.Options)
    requires opt.Valid() && t.TStruct? && |cur| == |t.fields| && |o.fields| == |t.fields| && i < |t.fields|
    requires StepAt(t, cur, i, data, opt).err.None? && o.fields[i] == StepAt(t, cur, i, data, opt).value
    requires StoppedAt(o, t, cur[i := StepAt(t, cur, i, data, opt).value], i + 1, k, data, opt)
    ensures StoppedAt(o, t, cur, i, k, data, opt)
  {
    var next := cur[i := StepAt(t, cur, i, data, opt).value];
    forall j | i < j < |t.fields|
      ensures StepAt(t, next, j, data, opt) == StepAt(t, cur, j, data, opt)
    {
      assert next[j] == cur[j];
    }
  }

  /** Field `j` is one the loop looks up in the data: exported and not skipped. */
  predicate Visible(f: FieldDesc, nc: C.NameConverter)
  {
    f.canInterface && !FieldDataOf(f, nc).skip
  }

  /** A visible `+required` field whose name is absent makes binding fail;
      when binding succeeds, every visible required field was present. */
  lemma RequiredFieldsPresent(t: Ty, cur: seq<Value>, data: map<string, Data>, opt: C.Options)
    requires opt.Valid() && t.TStruct? && |cur| == |t.fields|
    ensures BindSpec(t, cur, data, opt).err.None? ==>
              forall j :: 0 <= j < |t.fields| && Visible(t.fields[j], opt.nameConverter)
                          && FieldDataOf(t.fields[j], opt.nameConverter).required
                          ==> FieldDataOf(t.fields[j], opt.nameConverter).name in data
    ensures (exists j :: 0 <= j < |t.fields| && Visible(t.fields[j], opt.nameConverter)
                         && FieldDataOf(t.fields[j], opt.nameConverter).required
                         && FieldDataOf(t.fields[j], opt.nameConverter).name !in data)
            ==> BindSpec(t, cur, data, opt).err.Some?
  {
    FieldsInOrder(t, cur, 0, data, opt);
    var o := FieldsSpec(t, cur, 0, data, opt);
    if BindSpec(t, cur, data, opt).err.None? {
      assert o.err.None?;
      forall j | 0 <= j < |t.fields| && Visible(t.fields[j], opt.nameConverter)
                 && FieldDataOf(t.fields[j], opt.nameConverter).required
        ensures FieldDataOf(t.fields[j], opt.nameConverter).name in data
      {
        assert StepAt(t, cur, j, data, opt).err.None?;
      }
    }
  }

  /** Fields the loop does not write keep their values: an unexported field, a
      skipped one, or one whose name is absent from the data, whether the bind
      succeeds or fails (a missing required field is left as it was, too). */
  lemma UntouchedFieldsKeepValue(t: Ty, cur: seq<Value>, data: map<string, Data>, opt: C.Options)
    requires opt.Valid() && t.TStruct? && |cur| == |t.fields|
    ensures forall j :: 0 <= j < |t.fields|
                        && (!Visible(t.fields[j], opt.nameConverter) || FieldDataOf(t.fields[j], opt.nameConverter).name !in data)
                        ==> BindSpec(t, cur, data, opt).fields[j] == cur[j]
  {
    var f := FieldsSpec(t, cur, 0, data, opt);
    assert BindSpec(t, cur, data, opt).fields == f.fields;
    FieldsInOrder(t, cur, 0, data, opt);
    forall j | 0 <= j < |t.fields|
               && (!Visible(t.fields[j], opt.nameConverter) || FieldDataOf(t.fields[j], opt.nameConverter).name !in data)
      ensures f.fields[j] == cur[j]
    {
      UntouchedFieldKeepsValue(t, cur, j, data, opt);
    }
  }

  /** One field of `UntouchedFieldsKeepValue`: its step leaves it as it was, and
      the loop either took that step or never reached the field. */
  lemma UntouchedFieldKeepsValue(t: Ty, cur: seq<Value>, j: nat, data: map<string, Data>, opt: C.Options)
    requires opt.Valid() && t.TStruct? && |cur| == |t.fields| && j < |t.fields|
    requires !Visible(t.fields[j], opt.nameConverter) || FieldDataOf(t.fields[j], opt.nameConverter).name !in data
    ensures FieldsSpec(t, cur, 0, data, opt).fields[j] == cur[j]
  {
    var f := FieldsSpec(t, cur, 0, data, opt);
    FieldsInOrder(t, cur, 0, data, opt);
    assert StepAt(t, cur, j, data, opt).value == cur[j];
    if f.err.Some? {
      var k :| StoppedAt(f, t, cur, 0, k, data, opt);
    }
  }

  /** Two data maps that agree on the names of the visible fields: same
      presence, same value. */
  ghost predicate AgreeOnFields(t: Ty, d1: map<string, Data>, d2: map<string, Data>, nc: C.NameConverter)
    requires t.TStruct?
  {
    forall j :: 0 <= j < |t.fields| && Visible(t.fields[j], nc) ==>
      var n := FieldDataOf(t.fields[j], nc).name;
      (n in d1 <==> n in d2) && (n in d1 ==> d1[n] == d2[n])
  }

  /** A skipped field is never looked up, assigned or required: whatever the
      data holds under its name, or under any name no visible field has, the
      bind ends the same way. */
  lemma {:induction false} SkippedNamesIgnored(t: Ty, cur: seq<Value>, i: nat, d1: map<string, Data>, d2: map<string, Data>, opt: C.Options)
    requires opt.Valid() && t.TStruct? && |cur| == |t.fields| && i <= |t.fields|
    requires AgreeOnFields(t, d1, d2, opt.nameConverter)
    ensures FieldsSpec(t, cur, i, d1, opt) == FieldsSpec(t, cur, i, d2, opt)
    ensures i == 0 ==> BindSpec(t, cur, d1, opt) == BindSpec(t, cur, d2, opt)
    decreases |t.fields| - i
  {
    if i < |t.fields| {
      assert FieldStep(t.fields[i], cur[i], d1, opt) == FieldStep(t.fields[i], cur[i], d2, opt);
      var s := FieldStep(t.fields[i], cur[i], d1, opt);
      SkippedNamesIgnored(t, cur[i := s.value], i + 1, d1, d2, opt);
    }
  }

  /** A field marked `+skip` is left alone even when its name is present. */
  lemma SkipLeavesField(f: FieldDesc, cur: Value, data: map<string, Data>, opt: C.Options)
    requires opt.Valid() && FieldDataOf(f, opt.nameConverter).skip
    ensures FieldStep(f, cur, data, opt) == Step(cur, None)
  {
  }

  /** A setter registered for the field's exact type comes before the struct
      rule: a struct type with its own setter binds from data that is not a
      map, which the struct rule would refuse. */
  lemma SetterBeforeStructRule(ft: Ty, cur: Value, v: Data, x: Value, name: string, opt: C.Options,
                               conv: Data -> Result<Value, string>)
    requires opt.Valid() && IsStructLike(ft) && !v.DMap?
    requires SetterFor(ft, opt) == Some(C.CustomSetter(conv)) && conv(v) == Ok(x)
    ensures Dispatch(ft, cur, v, name, opt) == Step(Through(cur, x), None)
    ensures NestedStep(ft, cur, v, name, opt) == Step(cur, Some(InvalidSubMap(name)))
  {
  }

  /** A type no rule covers is an error; with the default setters that includes
      `uint`, which has no builtin setter. */
  lemma NoRuleIsAnError(ft: Ty, cur: Value, v: Data, name: string, opt: C.Options)
    requires opt.Valid() && SetterFor(ft, opt).None?
    requires !IsStructLike(ft) && !ft.TSlice? && !ft.TInterface?
    ensures Dispatch(ft, cur, v, name, opt) == Step(cur, Some(NoSetterAvailable(name)))
  {
  }

  lemma UintHasNoDefaultSetter(cur: Value, v: Data, name: string, opt: C.Options)
    requires opt.Valid() && opt.setters == Some(C.DefaultSetters())
    ensures Dispatch(TInt(Uint), cur, v, name, opt) == Step(cur, Some(NoSetterAvailable(name)))
  {
    assert !C.IsBuiltinScalar(TInt(Uint));
  }

  /** A nested struct field is bound onto a fresh instance from the instantiator
      (or the zero value): the keys present in the sub-map overlay it, and every
      other field of the instance keeps the instantiator's value. */
  lemma NestedOverlay(ft: Ty, cur: Value, v: Data, name: string, opt: C.Options)
    requires opt.Valid() && IsStructLike(ft) && SetterFor(ft, opt).None?
    ensures var s := Dispatch(ft, cur, v, name, opt);
            var st := ValueFromPtr(ft);
            var inst := Instantiate(ft, opt).fields;
            var bound := if s.value.VPtr? then s.value.target else s.value;
            s.err.None? ==>
              v.DMap? && (ft.TPtr? <==> s.value.VPtr?) && bound == VStruct(st.name, BindSpec(st, inst, v.entries, opt).fields)
              && forall j :: 0 <= j < |st.fields|
                             && (!Visible(st.fields[j], opt.nameConverter)
                                 || FieldDataOf(st.fields[j], opt.nameConverter).name !in v.entries)
                             ==> bound.fields[j] == inst[j]
  {
    var s := Dispatch(ft, cur, v, name, opt);
    if s.err.None? {
      UntouchedFieldsKeepValue(ValueFromPtr(ft), Instantiate(ft, opt).fields, v.entries, opt);
    }
  }

  /** A pointer-to-struct and a struct of the same type start from the same
      instance: `valueFromPtr` strips the pointer before the instantiator
      lookup. */
  lemma PointerAndValueSameInstance(st: Ty, opt: C.Options)
    requires opt.Valid() && st.TStruct?
    ensures Instantiate(TPtr(st), opt) == Instantiate(st, opt)
  {
  }

  /** A pointer-to-struct field is bound exactly like a struct field of the same
      type, and then holds a new pointer to the bound instance. */
  lemma PointerFieldWrapsValue(st: Ty, cur: Value, v: Data, name: string, opt: C.Options)
    requires opt.Valid() && st.TStruct?
    ensures NestedStep(TPtr(st), cur, v, name, opt).err == NestedStep(st, cur, v, name, opt).err
    ensures NestedStep(st, cur, v, name, opt).err.None?
            ==> NestedStep(TPtr(st), cur, v, name, opt).value == VPtr(NestedStep(st, cur, v, name, opt).value)
  {
    PointerAndValueSameInstance(st, opt);
  }

  /** `[]*T` and `[]T` make their elements alike, from the same instance and
      through the same element setter; the pointer slice appends each behind a
      pointer. */
  lemma PointerSliceWrapsElements(et: Ty, item: Data, whole: Data, name: string, opt: C.Options)
    requires opt.Valid() && !et.TPtr? && !et.TInterface?
    ensures var r := ElementSpec(TSlice(et), item, whole, name, opt);
            && (r.Ok? ==> ElementSpec(TSlice(TPtr(et)), item, whole, name, opt) == Ok(VPtr(r.value)))
            && (r.Err? ==> ElementSpec(TSlice(TPtr(et)), item, whole, name, opt) == Err(r.error))
  {
  }

  /** What one slice element is made of (cf.go:84-116), case by case. A pointer
      slice holds each element behind a pointer; `Wrapped` says so. */
  function Wrapped(ft: Ty, q: Value): Value
    requires ft.TSlice?
  {
    if ft.elem.TPtr? then VPtr(q) else q
  }

  /** An interface element comes from the flexible factory. */
  lemma ElementFromFactory(ft: Ty, item: Data, whole: Data, name: string, opt: C.Options)
    requires opt.Valid() && ft.TSlice? && ValueFromPtr(ft.elem).TInterface?
    ensures ElementSpec(ft, item, whole, name, opt) == Flexible(item, whole, name, opt)
  {
  }

  /** An element type with a setter gets the setter's converted value, or fails
      with the setter's error wrapped with the field name. */
  lemma ElementBySetter(ft: Ty, item: Data, whole: Data, name: string, opt: C.Options)
    requires opt.Valid() && ft.TSlice?
    requires !ValueFromPtr(ft.elem).TInterface? && SetterFor(ValueFromPtr(ft.elem), opt).Some?
    ensures var c := S.Coerce(SetterFor(ValueFromPtr(ft.elem), opt).value, item, opt.variableResolverChain);
            && (c.Ok? ==> ElementSpec(ft, item, whole, name, opt) == Ok(Wrapped(ft, c.value)))
            && (c.Err? ==> ElementSpec(ft, item, whole, name, opt) == Err(InField(name, c.error)))
  {
    FilledBySetter(ValueFromPtr(ft.elem), item, name, opt);
  }

  /** A struct element without a setter needs map data. */
  lemma ElementNeedsSubMap(ft: Ty, item: Data, whole: Data, name: string, opt: C.Options)
    requires opt.Valid() && ft.TSlice?
    requires ValueFromPtr(ft.elem).TStruct? && SetterFor(ValueFromPtr(ft.elem), opt).None? && !item.DMap?
    ensures ElementSpec(ft, item, whole, name, opt) == Err(InvalidSubMap(name))
  {
    FilledStruct(ValueFromPtr(ft.elem), item, name, opt);
  }

  /** A struct element without a setter, given map data, is its instance
      overlaid by the sub-map: the nested bind's error is reported, and on
      success every field the sub-map does not name keeps the instance's value. */
  lemma ElementOverlay(ft: Ty, item: Data, whole: Data, name: string, opt: C.Options)
    requires opt.Valid() && ft.TSlice?
    requires ValueFromPtr(ft.elem).TStruct? && SetterFor(ValueFromPtr(ft.elem), opt).None? && item.DMap?
    ensures var et := ValueFromPtr(ft.elem);
            var inst := Instantiate(et, opt).fields;
            var o := BindSpec(et, inst, item.entries, opt);
            && (o.err.Some? ==> ElementSpec(ft, item, whole, name, opt) == Err(InField(name, o.err.value)))
            && (o.err.None? ==>
                  && ElementSpec(ft, item, whole, name, opt) == Ok(Wrapped(ft, VStruct(et.name, o.fields)))
                  && forall j :: 0 <= j < |et.fields|
                                 && (!Visible(et.fields[j], opt.nameConverter)
                                     || FieldDataOf(et.fields[j], opt.nameConverter).name !in item.entries)
                                 ==> o.fields[j] == inst[j])
  {
    FilledStruct(ValueFromPtr(ft.elem), item, name, opt);
  }

  /** Any other element without a setter is its fresh instance. */
  lemma ElementIsInstance(ft: Ty, item: Data, whole: Data, name: string, opt: C.Options)
    requires opt.Valid() && ft.TSlice?
    requires !ValueFromPtr(ft.elem).TInterface? && !ValueFromPtr(ft.elem).TStruct?
    requires SetterFor(ValueFromPtr(ft.elem), opt).None?
    ensures ElementSpec(ft, item, whole, name, opt) == Ok(Wrapped(ft, Instantiate(ValueFromPtr(ft.elem), opt)))
  {
    FilledPlain(ValueFromPtr(ft.elem), item, name, opt);
  }

  /** An element type with a setter is filled with the setter's value. */
  lemma FilledBySetter(et: Ty, item: Data, name: string, opt: C.Options)
    requires opt.Valid() && SetterFor(et, opt).Some?
    ensures var c := S.Coerce(SetterFor(et, opt).value, item, opt.variableResolverChain);
            && (c.Ok? ==> Filled(et, item, name, opt) == Ok(c.value))
            && (c.Err? ==> Filled(et, item, name, opt) == Err(InField(name, c.error)))
  {
  }

  /** A struct element type without a setter is bound from a sub-map onto its
      instance, the fields the sub-map does not name keeping their values. */
  lemma FilledStruct(et: Ty, item: Data, name: string, opt: C.Options)
    requires opt.Valid() && et.TStruct? && SetterFor(et, opt).None?
    ensures !item.DMap? ==> Filled(et, item, name, opt) == Err(InvalidSubMap(name))
    ensures item.DMap? ==>
              var inst := Instantiate(et, opt).fields;
              var o := BindSpec(et, inst, item.entries, opt);
              && (o.err.Some? ==> Filled(et, item, name, opt) == Err(InField(name, o.err.value)))
              && (o.err.None? ==>
                    && Filled(et, item, name, opt) == Ok(VStruct(et.name, o.fields))
                    && forall j :: 0 <= j < |et.fields|
                                   && (!Visible(et.fields[j], opt.nameConverter)
                                       || FieldDataOf(et.fields[j], opt.nameConverter).name !in item.entries)
                                   ==> o.fields[j] == inst[j])
  {
    if item.DMap? {
      UntouchedFieldsKeepValue(et, Instantiate(et, opt).fields, item.entries, opt);
    }
  }

  /** Any other element type without a setter is its fresh instance. */
  lemma FilledPlain(et: Ty, item: Data, name: string, opt: C.Options)
    requires opt.Valid() && !et.TStruct? && SetterFor(et, opt).None?
    ensures Filled(et, item, name, opt) == Ok(Instantiate(et, opt))
  {
  }

  /** A field the loop looks up, finds in the data and may set: the case in
      which cf.go:53-173 dispatches on its type. */
  predicate Reached(f: FieldDesc, data: map<string, Data>, nc: C.NameConverter)
  {
    Visible(f, nc) && f.canSet && FieldDataOf(f, nc).name in data
  }

  /** A reached field is dispatched on its static type with the data found
      under its name. */
  lemma FieldStepDispatches(f: FieldDesc, cur: Value, data: map<string, Data>, opt: C.Options)
    requires opt.Valid() && Reached(f, data, opt.nameConverter)
    ensures var n := FieldDataOf(f, opt.nameConverter).name;
            FieldStep(f, cur, data, opt) == Dispatch(f.ty, cur, data[n], n, opt)
  {
  }

  /** A setter registered for the field's exact type decides the field,
      whatever the type (struct, slice, interface or scalar): its converted value
      is written through the field, or its error is reported for the field. */
  lemma SetterFirst(f: FieldDesc, cur: Value, data: map<string, Data>, opt: C.Options)
    requires opt.Valid() && Reached(f, data, opt.nameConverter) && SetterFor(f.ty, opt).Some?
    ensures var n := FieldDataOf(f, opt.nameConverter).name;
            var c := S.Coerce(SetterFor(f.ty, opt).value, data[n], opt.variableResolverChain);
            && (c.Ok? ==> FieldStep(f, cur, data, opt) == Step(Through(cur, c.value), None))
            && (c.Err? ==> FieldStep(f, cur, data, opt) == Step(cur, Some(InField(n, c.error))))
  {
    FieldStepDispatches(f, cur, data, opt);
  }

  /** A slice field without a setter needs sequence data: anything else is an
      error that leaves the field alone; a sequence runs the element loop. */
  lemma SliceNeedsSequence(f: FieldDesc, cur: Value, data: map<string, Data>, opt: C.Options)
    requires opt.Valid() && Reached(f, data, opt.nameConverter) && f.ty.TSlice? && SetterFor(f.ty, opt).None?
    ensures var n := FieldDataOf(f, opt.nameConverter).name;
            !data[n].DSeq? ==> FieldStep(f, cur, data, opt) == Step(cur, Some(InvalidSliceData(n)))
    ensures var n := FieldDataOf(f, opt.nameConverter).name;
            data[n].DSeq? ==> FieldStep(f, cur, data, opt) == SliceSpec(f.ty, cur, data[n].items, 0, n, opt)
  {
    FieldStepDispatches(f, cur, data, opt);
  }

  /** An interface field without a setter stores what the flexible factory
      makes from the data, or reports why no factory could be used. */
  lemma InterfaceStoresFactoryValue(f: FieldDesc, cur: Value, data: map<string, Data>, opt: C.Options)
    requires opt.Valid() && Reached(f, data, opt.nameConverter) && f.ty.TInterface? && SetterFor(f.ty, opt).None?
    ensures var n := FieldDataOf(f, opt.nameConverter).name;
            var r := Flexible(data[n], data[n], n, opt);
            && (r.Ok? ==> FieldStep(f, cur, data, opt) == Step(r.value, None))
            && (r.Err? ==> FieldStep(f, cur, data, opt) == Step(cur, Some(r.error)))
  {
    FieldStepDispatches(f, cur, data, opt);
  }

  /** The elements the slice loop makes from element `j` on, up to the first
      one that fails. */
  function Produced(ft: Ty, items: seq<Data>, j: nat, name: string, opt: C.Options): seq<Value>
    reads opt
    requires opt.Valid() && ft.TSlice? && j <= |items|
    decreases |items| - j
  {
    if j == |items| then []
    else
      match ElementSpec(ft, items[j], DSeq(items), name, opt)
      case Err(_) => []
      case Ok(x) => [x] + Produced(ft, items, j + 1, name, opt)
  }

  /** A slice field ends up holding what it held before followed by the
      elements made, error or not (earlier appends are not rolled back). */
  lemma {:induction false} SliceAppends(ft: Ty, cur: Value, items: seq<Data>, j: nat, name: string, opt: C.Options)
    requires opt.Valid() && ft.TSlice? && j <= |items|
    ensures SliceElems(SliceSpec(ft, cur, items, j, name, opt).value) == SliceElems(cur) + Produced(ft, items, j, name, opt)
    decreases |items| - j, 1
  {
    if j < |items| {
      if ElementSpec(ft, items[j], DSeq(items), name, opt).Ok? {
        SliceAppendsMade(ft, cur, items, j, name, opt);
      } else {
        SliceAppendsFailed(ft, cur, items, j, name, opt);
      }
    }
  }

  /** `SliceAppends` when element `j` is made: it is appended, and the rest
      follows by induction. */
  lemma {:induction false} SliceAppendsMade(ft: Ty, cur: Value, items: seq<Data>, j: nat, name: string, opt: C.Options)
    requires opt.Valid() && ft.TSlice? && j < |items|
    requires ElementSpec(ft, items[j], DSeq(items), name, opt).Ok?
    ensures SliceElems(SliceSpec(ft, cur, items, j, name, opt).value) == SliceElems(cur) + Produced(ft, items, j, name, opt)
    decreases |items| - j, 0
  {
    var x := ElementSpec(ft, items[j], DSeq(items), name, opt).value;
    var rest := Produced(ft, items, j + 1, name, opt);
    assert Produced(ft, items, j, name, opt) == [x] + rest;
    SliceAppends(ft, Append(cur, x), items, j + 1, name, opt);
    assert SliceElems(cur) + [x] + rest == SliceElems(cur) + ([x] + rest);
  }

  /** `SliceAppends` when element `j` fails: the loop stops with the field as
      it was, and nothing more is made. */
  lemma SliceAppendsFailed(ft: Ty, cur: Value, items: seq<Data>, j: nat, name: string, opt: C.Options)
    requires opt.Valid() && ft.TSlice? && j < |items|
    requires ElementSpec(ft, items[j], DSeq(items), name, opt).Err?
    ensures SliceSpec(ft, cur, items, j, name, opt).value == cur
    ensures Produced(ft, items, j, name, opt) == []
  {
  }

  /** The elements are made one per input element, in input order: on success
      every input element was made into the element at its position; on
      failure the loop stopped at one input element, whose error it reports,
      after making the elements before it. */
  lemma ElementsInOrder(ft: Ty, cur: Value, items: seq<Data>, j: nat, name: string, opt: C.Options)
    requires opt.Valid() && ft.TSlice? && j <= |items|
    ensures var s := SliceSpec(ft, cur, items, j, name, opt);
            var es := Produced(ft, items, j, name, opt);
            s.err.None? ==>
              |es| == |items| - j
              && forall m :: j <= m < |items| ==>
                   ElementSpec(ft, items[m], DSeq(items), name, opt).Ok?
                   && es[m - j] == ElementSpec(ft, items[m], DSeq(items), name, opt).value
    ensures var s := SliceSpec(ft, cur, items, j, name, opt);
            var es := Produced(ft, items, j, name, opt);
            s.err.Some? ==>
              exists m :: j <= m < |items| && |es| == m - j
                          && ElementSpec(ft, items[m], DSeq(items), name, opt).Err?
                          && s.err == Some(ElementSpec(ft, items[m], DSeq(items), name, opt).error)
  {
    AllElementsMade(ft, cur, items, j, name, opt);
    StoppedAtElement(ft, cur, items, j, name, opt);
  }

  /** `es` holds, in order, the elements made from input elements `j` on, none
      of which failed. */
  ghost predicate MadeFrom(ft: Ty, items: seq<Data>, j: nat, name: string, opt: C.Options, es: seq<Value>)
    reads opt
    requires opt.Valid() && ft.TSlice? && j <= |items|
  {
    && |es| == |items| - j
    && forall m :: j <= m < |items| ==>
         var e := ElementSpec(ft, items[m], DSeq(items), name, opt);
         e.Ok? && es[m - j] == e.value
  }

  /** Prepending the element made from input `j` extends `MadeFrom` by one. */
  lemma MadeFromStep(ft: Ty, items: seq<Data>, j: nat, name: string, opt: C.Options, x: Value, es: seq<Value>)
    requires opt.Valid() && ft.TSlice? && j < |items|
    requires ElementSpec(ft, items[j], DSeq(items), name, opt) == Ok(x)
    requires MadeFrom(ft, items, j + 1, name, opt, es)
    ensures MadeFrom(ft, items, j, name, opt, [x] + es)
  {
    var all := [x] + es;
    assert forall i :: 0 <= i < |es| ==> all[i + 1] == es[i];
  }

  /** The success half of `ElementsInOrder`. */
  lemma {:induction false} AllElementsMade(ft: Ty, cur: Value, items: seq<Data>, j: nat, name: string, opt: C.Options)
    requires opt.Valid() && ft.TSlice? && j <= |items|
    ensures SliceSpec(ft, cur, items, j, name, opt).err.None? ==> MadeFrom(ft, items, j, name, opt, Produced(ft, items, j, name, opt))
    decreases |items| - j
  {
    if j < |items| {
      var r := ElementSpec(ft, items[j], DSeq(items), name, opt);
      if r.Ok? {
        assert SliceSpec(ft, cur, items, j, name, opt) == SliceSpec(ft, Append(cur, r.value), items, j + 1, name, opt);
        assert Produced(ft, items, j, name, opt) == [r.value] + Produced(ft, items, j + 1, name, opt);
        AllElementsMade(ft, Append(cur, r.value), items, j + 1, name, opt);
        if SliceSpec(ft, cur, items, j, name, opt).err.None? {
          MadeFromStep(ft, items, j, name, opt, r.value, Produced(ft, items, j + 1, name, opt));
        }
      } else {
        assert SliceSpec(ft, cur, items, j, name, opt).err == Some(r.error);
      }
    }
  }

  /** The failure half of `ElementsInOrder`. */
  lemma {:induction false} StoppedAtElement(ft: Ty, cur: Value, items: seq<Data>, j: nat, name: string, opt: C.Options)
    requires opt.Valid() && ft.TSlice? && j <= |items|
    ensures var s := SliceSpec(ft, cur, items, j, name, opt);
            s.err.Some? ==>
              exists m :: j <= m < |items| && |Produced(ft, items, j, name, opt)| == m - j
                          && ElementSpec(ft, items[m], DSeq(items), name, opt).Err?
                          && s.err == Some(ElementSpec(ft, items[m], DSeq(items), name, opt).error)
    decreases |items| - j
  {
    if j < |items| {
      var r := ElementSpec(ft, items[j], DSeq(items), name, opt);
      if r.Ok? {
        StoppedAtElement(ft, Append(cur, r.value), items, j + 1, name, opt);
      } else {
        assert j <= j < |items| && |Produced(ft, items, j, name, opt)| == j - j;
      }
    }
  }

  /** The flexible factory of a slice element is handed the whole input
      sequence, not the element: two elements with the same discriminator
      become the same value. */
  lemma FactorySeesWholeSequence(ft: Ty, items: seq<Data>, m1: nat, m2: nat, name: string, opt: C.Options)
    requires opt.Valid() && ft.TSlice? && ValueFromPtr(ft.elem).TInterface?
    requires m1 < |items| && m2 < |items|
    requires items[m1].DMap? && items[m2].DMap? && "type" in items[m1].entries && "type" in items[m2].entries
    requires items[m1].entries["type"] == items[m2].entries["type"]
    ensures ElementSpec(ft, items[m1], DSeq(items), name, opt) == ElementSpec(ft, items[m2], DSeq(items), name, opt)
  {
  }

  /** Wirings run last: a field error ends binding before any wiring runs, and
      a successful bind means every wiring registered for the type accepted the
      bound value. */
  lemma WiringsRunLast(t: Ty, cur: seq<Value>, data: map<string, Data>, opt: C.Options)
    requires opt.Valid() && t.TStruct? && |cur| == |t.fields|
    ensures FieldsSpec(t, cur, 0, data, opt).err.Some? ==> BindSpec(t, cur, data, opt) == FieldsSpec(t, cur, 0, data, opt)
    ensures BindSpec(t, cur, data, opt).err.None? ==>
              && FieldsSpec(t, cur, 0, data, opt).err.None?
              && BindSpec(t, cur, data, opt).fields == FieldsSpec(t, cur, 0, data, opt).fields
              && forall w | w in WiringsFor(t, opt) :: w(VStruct(t.name, BindSpec(t, cur, data, opt).fields)).None?
  {
  }

  /** The nested type of the examples: `Name string; Count int`. */
  const NestedType: Ty :=
    TStruct("nestedType", [FieldDesc("Name", "", TString, true, true), FieldDesc("Count", "", TInt(Int), true, true)])

  /** A root with an `Id string` and a `Nested *nestedType`. */
  const RootType: Ty :=
    TStruct("root", [FieldDesc("Id", "", TString, true, true), FieldDesc("Nested", "", TPtr(NestedType), true, true)])

  /** Options under which `nestedType` binds with the default setters, with
      no wirings and with `Name` and `Count` converted to snake case. */
  ghost predicate NestedConverts(opt: C.Options)
    reads opt
  {
    && opt.Valid() && opt.setters == Some(C.DefaultSetters()) && opt.wirings == None
    && opt.nameConverter(NestedType.fields[0]) == "name" && opt.nameConverter(NestedType.fields[1]) == "count"
  }

  /** The options of the nested examples: those, one instantiator for the
      nested type, and the root's names converted to snake case. */
  ghost predicate ExampleOptions(opt: C.Options)
    reads opt
  {
    && NestedConverts(opt)
    && opt.instantiators == Some(map[NestedType := VStruct("nestedType", [VStr("oh, wow!"), VInt(Int, 33)])])
    && opt.nameConverter(RootType.fields[0]) == "id" && opt.nameConverter(RootType.fields[1]) == "nested"
  }

  /** A string without `$` is stored as it is by the default string setter. */
  lemma PlainStringStored(text: string, cur: Value, name: string, opt: C.Options)
    requires opt.Valid() && opt.setters == Some(C.DefaultSetters()) && '$' !in text && !cur.VPtr?
    ensures Dispatch(TString, cur, DStr(text), name, opt) == Step(VStr(text), None)
  {
    Variables.NoDollarNoOccurrence(text);
    S.StringSetterStores(DStr(text), opt.variableResolverChain);
    assert SetterFor(TString, opt) == Some(C.StringSetter);
  }

  /** `nestedType`'s `Name` takes the `name` entry of the sub-map. */
  lemma NameFieldStep(s0: string, text: string, opt: C.Options)
    requires NestedConverts(opt) && '$' !in text
    ensures FieldStep(NestedType.fields[0], VStr(s0), map["name" := DStr(text)], opt) == Step(VStr(text), None)
  {
    PlainStringStored(text, VStr(s0), "name", opt);
    assert FieldDataOf(NestedType.fields[0], opt.nameConverter) == FieldData("name", false, false);
  }

  /** `nestedType`'s `Count`, absent from a sub-map holding only `name`, keeps
      its value. */
  lemma CountFieldKept(c: int, text: string, opt: C.Options)
    requires NestedConverts(opt)
    ensures FieldStep(NestedType.fields[1], VInt(Int, c), map["name" := DStr(text)], opt) == Step(VInt(Int, c), None)
  {
    assert FieldDataOf(NestedType.fields[1], opt.nameConverter) == FieldData("count", false, false);
  }

  /** Binding `{name: text}` onto a `nestedType` instance overlays `Name` and
      keeps `Count`. */
  lemma NameOverlays(s0: string, text: string, c: int, opt: C.Options)
    requires NestedConverts(opt) && '$' !in text
    ensures BindSpec(NestedType, [VStr(s0), VInt(Int, c)], map["name" := DStr(text)], opt)
         == Outcome([VStr(text), VInt(Int, c)], None)
  {
    var sub := map["name" := DStr(text)];
    var inst := [VStr(s0), VInt(Int, c)];
    var bound := [VStr(text), VInt(Int, c)];
    NameFieldStep(s0, text, opt);
    CountFieldKept(c, text, opt);
    assert inst[0 := VStr(text)] == bound;
    assert FieldsSpec(NestedType, bound, 2, sub, opt) == Outcome(bound, None);
    assert FieldsSpec(NestedType, bound, 1, sub, opt) == Outcome(bound, None);
    assert FieldsSpec(NestedType, inst, 0, sub, opt) == Outcome(bound, None);
    assert WiringsFor(NestedType, opt) == [];
  }

  /** The nested bind of the example: `name` overlays the instance's `Name`,
      `Count` is absent from the sub-map and keeps 33. */
  lemma NestedPartOverlaid(opt: C.Options)
    requires ExampleOptions(opt)
    ensures BindSpec(NestedType, [VStr("oh, wow!"), VInt(Int, 33)], map["name" := DStr("Different")], opt)
         == Outcome([VStr("Different"), VInt(Int, 33)], None)
  {
    NameOverlays("oh, wow!", "Different", 33, opt);
  }

  /** The root's `Nested` field of the example is bound through the pointer
      rule onto the instantiated instance. */
  lemma NestedFieldBound(opt: C.Options)
    requires ExampleOptions(opt)
    ensures FieldStep(RootType.fields[1], VNil,
                      map["id" := DStr("TestNested"), "nested" := DMap(map["name" := DStr("Different")])], opt)
         == Step(VPtr(VStruct("nestedType", [VStr("Different"), VInt(Int, 33)])), None)
  {
    var sub := map["name" := DStr("Different")];
    var bound := [VStr("Different"), VInt(Int, 33)];
    NestedPartOverlaid(opt);
    assert !C.IsBuiltinScalar(TPtr(NestedType));
    assert SetterFor(TPtr(NestedType), opt) == None;
    assert Instantiate(TPtr(NestedType), opt).fields == [VStr("oh, wow!"), VInt(Int, 33)];
    assert FieldDataOf(RootType.fields[1], opt.nameConverter) == FieldData("nested", false, false);
    assert NestedStep(TPtr(NestedType), VNil, DMap(sub), "nested", opt) == Step(VPtr(VStruct("nestedType", bound)), None);
  }

  /** The root's `Id` field of the example is bound by the string setter. */
  lemma IdFieldBound(opt: C.Options)
    requires ExampleOptions(opt)
    ensures FieldStep(RootType.fields[0], VStr(""),
                      map["id" := DStr("TestNested"), "nested" := DMap(map["name" := DStr("Different")])], opt)
         == Step(VStr("TestNested"), None)
  {
    PlainStringStored("TestNested", VStr(""), "id", opt);
    assert FieldDataOf(RootType.fields[0], opt.nameConverter) == FieldData("id", false, false);
  }

  /** A pointer-to-struct field starts from the instantiator's instance, and
      only the keys present are overlaid: `Name` becomes `Different` while
      `Count` keeps the default 33. */
  lemma NestedDefaultsKept(opt: C.Options)
    requires ExampleOptions(opt)
    ensures BindSpec(RootType, [VStr(""), VNil],
                     map["id" := DStr("TestNested"), "nested" := DMap(map["name" := DStr("Different")])], opt)
         == Outcome([VStr("TestNested"), VPtr(VStruct("nestedType", [VStr("Different"), VInt(Int, 33)]))], None)
  {
    var data := map["id" := DStr("TestNested"), "nested" := DMap(map["name" := DStr("Different")])];
    var result := [VStr("TestNested"), VPtr(VStruct("nestedType", [VStr("Different"), VInt(Int, 33)]))];
    var start := [VStr(""), VNil];
    var afterId := [VStr("TestNested"), VNil];
    NestedFieldBound(opt);
    IdFieldBound(opt);
    assert start[0 := VStr("TestNested")] == afterId;
    assert afterId[1 := result[1]] == result;
    assert FieldsSpec(RootType, result, 2, data, opt) == Outcome(result, None);
    assert FieldsSpec(RootType, afterId, 1, data, opt) == FieldsSpec(RootType, result, 2, data, opt);
    assert FieldsSpec(RootType, start, 0, data, opt) == FieldsSpec(RootType, afterId, 1, data, opt);
    assert WiringsFor(RootType, opt) == [];
  }

  /** The options of the slice example: those of `NestedConverts` and no
      instantiators, so elements start from the zero value. */
  ghost predicate ArrayOptions(opt: C.Options)
    reads opt
  {
    NestedConverts(opt) && opt.instantiators == None
  }

  /** One `{name: text}` element of a `[]*nestedType`: a pointer to a zero
      instance whose `Name` is overlaid and whose `Count` stays 0. */
  lemma NestedElementBound(text: string, whole: Data, opt: C.Options)
    requires ArrayOptions(opt) && '$' !in text
    ensures ElementSpec(TSlice(TPtr(NestedType)), DMap(map["name" := DStr(text)]), whole, "nesteds", opt)
         == Ok(VPtr(VStruct("nestedType", [VStr(text), VInt(Int, 0)])))
  {
    var item := DMap(map["name" := DStr(text)]);
    assert Zero(NestedType).fields == [VStr(""), VInt(Int, 0)];
    assert Instantiate(NestedType, opt) == Zero(NestedType);
    assert !C.IsBuiltinScalar(NestedType);
    assert SetterFor(NestedType, opt) == None;
    NameOverlays("", text, 0, opt);
    assert Filled(NestedType, item, "nesteds", opt) == Ok(VStruct("nestedType", [VStr(text), VInt(Int, 0)]));
  }

  /** A `[]*nestedType` field bound from `[{name: a}, {name: b}]`: two
      elements, in input order, each a pointer to its own instance. */
  lemma StructTypeArray(opt: C.Options)
    requires ArrayOptions(opt)
    ensures Dispatch(TSlice(TPtr(NestedType)), VNil,
                     DSeq([DMap(map["name" := DStr("a")]), DMap(map["name" := DStr("b")])]), "nesteds", opt)
         == Step(VSlice([VPtr(VStruct("nestedType", [VStr("a"), VInt(Int, 0)])),
                         VPtr(VStruct("nestedType", [VStr("b"), VInt(Int, 0)]))]), None)
  {
    var ft := TSlice(TPtr(NestedType));
    var items := [DMap(map["name" := DStr("a")]), DMap(map["name" := DStr("b")])];
    var ea := VPtr(VStruct("nestedType", [VStr("a"), VInt(Int, 0)]));
    var eb := VPtr(VStruct("nestedType", [VStr("b"), VInt(Int, 0)]));
    NestedElementBound("a", DSeq(items), opt);
    NestedElementBound("b", DSeq(items), opt);
    assert ElementSpec(ft, items[0], DSeq(items), "nesteds", opt) == Ok(ea);
    assert ElementSpec(ft, items[1], DSeq(items), "nesteds", opt) == Ok(eb);
    assert Append(VNil, ea) == VSlice([ea]);
    assert Append(VSlice([ea]), eb) == VSlice([ea, eb]);
    assert SliceSpec(ft, VSlice([ea, eb]), items, 2, "nesteds", opt) == Step(VSlice([ea, eb]), None);
    assert SliceSpec(ft, VSlice([ea]), items, 1, "nesteds", opt) == Step(VSlice([ea, eb]), None);
    assert SliceSpec(ft, VNil, items, 0, "nesteds", opt) == Step(VSlice([ea, eb]), None);
    assert !C.IsBuiltinScalar(ft);
    assert SetterFor(ft, opt) == None;
  }
}
