# cf: a verified model of the configuration binder

`cf` binds an untyped tree of decoded configuration data (maps, sequences and scalars, as a YAML
decoder produces them) onto a typed Go struct. A `cf` struct tag controls each field: it can rename
the field, mark it `+required`, or mark it `+skip`. Binding is driven by an `Options` registry,
which holds:

- setters for scalar types;
- instantiators that supply defaulted instances of nested structs;
- "flexible" factories for interface slots, chosen by a `"type"` discriminator;
- a name converter;
- a chain of variable resolvers for `${name}` interpolation in strings;
- wirings, callbacks that run on the bound struct.

This project models the binder (`cf.go`), the scalar setters (`setters.go`), the registry and its
builders (`options.go`) and variable interpolation (`variables.go`) in Dafny, and proves what they
promise.

Go reflection is replaced by explicit data:

- `Model.Data` is the decoded tree. Its integers carry their Go kind, so an `int8` can be told
  apart from an `int`.
- `Model.Ty` is a destination type. A struct type lists `FieldDesc`s: the Go name, the tag, the
  field type, and the exported (`CanInterface`) and settable (`CanSet`) flags.
- `Model.Value` is a stored value.

Each piece keeps the source's own form:

- The destination is the class `Binder.Dest`, whose field values `Bind` updates one at a time.
  A slice field grows one element at a time.
- The field handle a setter writes is the class `Setters.Handle`.
- `Configuration.Options` is a class whose builder methods update its maps in place.
- `parseFieldData` and `replaceInlineVariables` are methods with loops.

Each method is proved equal to a pure specification function (`BindSpec`, `FieldStep`,
`SliceSpec`, `ElementSpec`, `FieldDataOf`, `Coerce`, `Interpolate`). The properties are lemmas
about those functions.

Where the code and its own declarations disagree, the model does the following:

- `cf.go:57` calls a setter with two arguments, but `Setter` takes three (`options.go:25`). The
  model passes the options, which the string setter needs for interpolation.
- `cf.go:186-194` reads `opt.Wirings`, but the `Options` struct (`options.go:30-36`) declares no
  such field. The model adds `wirings`, a map from a type to its sequence of callbacks.
- `cf.go:116` hands the flexible factory the whole input sequence `v`, not the current element.
  The model reproduces this (`BindingProperties.FactorySeesWholeSequence`).
- `variableReference` is defined (`variables.go:17-24`) but nothing in the core calls it. The string
  setter only uses inline interpolation, so a whole-value `${name}` is handled as an inline one.
- A string with no `${name}` is stored untrimmed. A string with an occurrence is trimmed before
  interpolation (`setters.go:222-227`, `variables.go:32`). The model keeps this asymmetry.
- `SetInt`/`SetUint` silently truncate a generic `int` to the field's width. The model writes this
  out as two's-complement wrap-around (`Model.Wrap`).
- `time.ParseDuration` is modelled concretely, with the grammar and unit table of Go's `time`
  package (module `Duration`), using exact integer arithmetic.

## Model

| member | source | states |
|---|---|---|
| Model.Wrap | setters.go:25-187 | the value `SetInt`/`SetUint` store for an integer: always in the field's range, unchanged when already in range, and congruent to the input modulo 2^width |
| Model.HasType | cf.go:60-79 | what a variable of a type can hold: a scalar of its kind and range, a struct of that type with a well-typed entry per field, a nil or well-typed pointer or slice |
| Model.Zero | cf.go:229-239 | the zero value `reflect.New` gives a struct type has one entry per declared field; that it is well-typed is stated by `Model.ZeroHasType` |
| Model.ZeroHasType | cf.go:229-239 | the zero value of every type has that type (`HasType`): a struct's entries have their fields' types, and a pointer or slice is nil |
| Model.ValueFromPtr | cf.go:222-227 | the result is the type itself or its pointee, and it is the type itself exactly when the type is not a pointer; what callers rely on is stated by `BindingProperties.PointerAndValueSameInstance` and `BindingProperties.PointerSliceWrapsElements` |
| Model.Append | cf.go:101-105 | `reflect.Append`: the elements before, followed by the new element |
| Strings.TrimSpace | variables.go:19-32 | strips the Unicode white space from both ends and no more: the result is a slice of the input with no white space at either end |
| Strings.Split | cf.go:208 | `strings.Split` on a comma: at least one piece, none containing the separator |
| Strings.JoinSplit | cf.go:208 | joining the pieces of a split gives back the tag |
| Strings.SplitJoin | cf.go:208 | splitting a join of separator-free pieces gives back the pieces |
| Configuration.DefaultSetters | options.go:41-55 | a setter is registered for exactly the 13 listed types (every integer width but `uint`, plus `float64`, `bool`, `string` and `time.Duration`), each under the type it writes |
| Configuration.ResolveVariable | options.go:95-102 | the answer of the first resolver in chain order that finds the name; not found exactly when no resolver finds it, including on an empty chain |
| Configuration.ResolveAfterAppend | options.go:90-102 | after a resolver is appended, every name the chain already resolved resolves as before, and any other name is answered by the new resolver, so nothing is cached |
| Configuration.ResolvedHasNoDollar | options.go:95-102 | when no resolver answers with `$`-text, nothing resolved through the chain contains `$` |
| Configuration.Options.Literal | options.go:40-57 | the struct literal: the given setters and converter; no instantiators, flexible setters or wirings; an empty chain |
| Configuration.Options.AddInstantiator | options.go:61-67 | creates the map on first use and registers the instantiator for the type, overwriting; every other key and every other field is unchanged, and the same `Options` is returned |
| Configuration.Options.AddSetter | options.go:69-75 | creates the map on first use and registers the setter for the type, overwriting; all else is unchanged, and the same `Options` is returned |
| Configuration.Options.AddFlexibleSetter | options.go:77-83 | creates the map on first use and registers the factory under the discriminator, overwriting; all else is unchanged, and the same `Options` is returned |
| Configuration.Options.SetNameConverter | options.go:85-88 | replaces only the converter, and returns the same `Options` |
| Configuration.Options.AddVariableResolver | options.go:90-93 | the chain becomes the old chain followed by the new resolver, so existing resolvers keep their positions; all else is unchanged |
| Configuration.DefaultOptions | options.go:38-59 | a fresh `Options` with exactly the default setters and the snake-case converter, no instantiators, no flexible setters, no wirings and an empty chain |
| Variables.NameEnd | variables.go:10-11 | the end of the run of name characters `[A-Za-z0-9_.]` that starts at a position |
| Variables.OccurrenceAt | variables.go:11 | the end of the `${name}` occurrence that starts at a position, or none exactly when no occurrence starts there |
| Variables.OccurrenceEndUnique | variables.go:11 | where an occurrence starts fixes where it ends, because `}` is not a name character |
| Variables.NoDollarNoOccurrence | variables.go:11 | text without `$` holds no occurrence |
| Variables.FindOccurrence | variables.go:33 | the leftmost occurrence at or after a position, or none exactly when there is none |
| Variables.VariableReference | variables.go:17-24 | `(name, true)` if and only if the value is a string whose trimmed form is exactly `${name}`, with name one or more name characters; `("", false)` otherwise, including for any value that is not a string |
| Variables.VariableReferenceExamples | variables_test.go:8-15 | `"${oh.wow}"` gives `("oh.wow", true)`; an `int16` gives `("", false)` |
| Variables.OccurrenceSurvivesTrim | variables.go:26-32 | an occurrence lies inside the trimmed middle, because `$` and `}` are not white space, and stays an occurrence after trimming |
| Variables.OccurrenceBeforeTrim | variables.go:26-32 | an occurrence of the trimmed text is an occurrence of the original, shifted by the trimmed prefix |
| Variables.TrimKeepsOccurrences | variables.go:26-29 | trimming neither creates nor destroys occurrences |
| Variables.InlineVariablesFound | variables.go:26-29 | true if and only if the string holds at least one `${name}` occurrence |
| Variables.SpliceRemovesDollar | variables.go:44 | replacing an occurrence by `$`-free text lowers the count of `$` by one, which is the loop's termination measure |
| Variables.Interpolate | variables.go:31-49 | the rescanning interpolation: on success the result holds no occurrence; input without occurrences comes back as it is; every failure is an unresolved or non-string variable with a well-formed name |
| Variables.InterpolateReplacesLeftmost | variables.go:33-46 | one round replaces exactly the leftmost occurrence by its resolved text, with the prefix before it and the suffix after it unchanged, and continues on the result |
| Variables.InterpolateFailsAtLeftmost | variables.go:36-43 | when the leftmost occurrence's name is unresolved, or resolves to a non-string, interpolation fails with that error naming exactly that variable |
| Variables.NoOccurrenceOnlyTrimmed | variables.go:32-34 | input without occurrences comes back trimmed and otherwise unchanged |
| Variables.LoopRound | variables.go:35-46 | one round of the loop: an unresolved or non-string leftmost variable is the interpolation's error; a resolved string spliced in gives text with the same interpolation and one `$` fewer |
| Variables.ReplaceOccurrence | variables.go:35-46 | the loop body returns the round's error, or the spliced text, whose interpolation is that of the input and which holds fewer `$` |
| Variables.ReplaceInlineVariables | variables.go:31-49 | the loop's result is that of `Interpolate` on the trimmed input; on an error the empty string is returned with that error |
| Variables.ExampleChainNoDollar | cf_test.go:382-390 | the test's resolver never answers with `$` |
| Variables.InlineFirstStep | cf_test.go:372-394 | the first round replaces `${a}` by `oh` |
| Variables.InlineSecondStep | cf_test.go:372-394 | the second round replaces `${b}` by `wow` and stops |
| Variables.InlineExample | cf_test.go:372-394 | `"/hello/world/${a}/and/${b}"` interpolates to `"/hello/world/oh/and/wow"` |
| Variables.RescanChainNoDollar | variables.go:46 | the rescan example's resolver never answers with `$` |
| Variables.RescanFirstStep | variables.go:44-46 | in `"${${a}}"` only the inner `${a}` is an occurrence, and resolving it to `b` forms the new occurrence `${b}` |
| Variables.RescanSecondStep | variables.go:44-46 | `"${b}"` resolves to `"done"` |
| Variables.RescanExample | variables.go:34-46 | because the loop rescans from the start, the occurrence formed by the first splice is expanded too: `"${${a}}"` gives `"done"` |
| Duration.DigitsEnd | setters.go:241 | the end of a run of decimal digits |
| Duration.UnitEnd | setters.go:241 | the end of a unit name: the run up to the next digit or `.` |
| Duration.UnitValue | setters.go:241 | the unit table `ns`, `us`, `µs`, `μs`, `ms`, `s`, `m`, `h`, each worth between 1 ns and one hour |
| Duration.Group | setters.go:241 | one number-and-unit group: at most 2^63 ns, and it consumes input |
| Duration.Scale | setters.go:241 | the value of a group with its fraction, refused beyond 2^63 ns |
| Duration.Groups | setters.go:241 | the sum of the groups, never beyond 2^63 ns |
| Duration.ParseDuration | setters.go:241 | `time.ParseDuration`: a result always fits `int64`, and the empty string is refused |
| Duration.MissingOrUnknownUnit | setters.go:241 | `"5"` (no unit) and `"3d"` (unknown unit) are refused, and a bare `"0"` is zero |
| Duration.ThirtySeconds | cf_test.go:252-264 | `"30s"` is 30·10^9 ns |
| Duration.HourAndHalf | setters.go:241 | `"1h30m"` is 5.4·10^12 ns |
| Duration.NegativeFraction | setters.go:241 | `"-1.5ms"` is -1.5·10^6 ns |
| Setters.Coerce | setters.go:25-253 | a builtin setter's successful value always has the setter's own type and range; every refusal of a kind is a type mismatch naming the expected type |
| Setters.StrictSetters | setters.go:25-35 | `intSetter` accepts exactly a generic `int`, and `boolSetter` exactly a `bool`, storing it unchanged |
| Setters.WideningSetters | setters.go:37-95 | the `int8`, `uint8`, `int16`, `int32`, `uint32`, `int64` and `uint64` setters accept exactly their own kind or a generic `int` |
| Setters.Uint16SetterExact | setters.go:97-107 | `uint16Setter` accepts exactly a `uint16`, and refuses a generic `int` |
| Setters.GenericIntStored | setters.go:66-72 | a generic `int` is never refused for its size: it is stored converted to the width, and unchanged when it fits; a value of the exact kind is stored as it is |
| Setters.NarrowingExamples | setters.go:37-75 | a generic `int` 300 becomes 44 in an `int8`, and -1 becomes 255 in a `uint8` |
| Setters.Float64SetterAccepts | setters.go:189-206 | accepts exactly a float or a generic `int`, an `int` n being stored as n |
| Setters.StringSetterStores | setters.go:220-237 | refuses a non-string; stores a string without occurrences unchanged (untrimmed); stores the interpolated, trimmed text otherwise, or fails with the interpolation's error; a stored string never holds an occurrence |
| Setters.DurationSetterParses | setters.go:239-253 | refuses a non-string; succeeds exactly when the text parses, and otherwise reports the text |
| Setters.Handle.constructor | setters.go:27-31 | a handle holding the given value |
| Setters.Handle.Write | setters.go:27-31 | `SetX` overwrites the handle, and `Elem().SetX` writes through it when it holds a pointer |
| Setters.IntSetter | setters.go:25-35 | writes exactly `Coerce`'s value through the handle on success, and leaves it untouched on failure |
| Setters.Int8Setter | setters.go:37-55 | as `IntSetter`, for `int8` |
| Setters.Uint8Setter | setters.go:57-75 | as `IntSetter`, for `uint8` |
| Setters.Int16Setter | setters.go:77-95 | as `IntSetter`, for `int16` |
| Setters.Uint16Setter | setters.go:97-107 | as `IntSetter`, for `uint16` |
| Setters.Int32Setter | setters.go:109-127 | as `IntSetter`, for `int32` |
| Setters.Uint32Setter | setters.go:129-147 | as `IntSetter`, for `uint32` |
| Setters.Int64Setter | setters.go:149-167 | as `IntSetter`, for `int64` |
| Setters.Uint64Setter | setters.go:169-187 | as `IntSetter`, for `uint64` |
| Setters.Float64Setter | setters.go:189-206 | as `IntSetter`, for `float64` |
| Setters.BoolSetter | setters.go:208-218 | as `IntSetter`, for `bool` |
| Setters.StringSetter | setters.go:220-237 | as `IntSetter`, for `string`, with interpolation; an interpolation error writes nothing |
| Setters.TimeDurationSetter | setters.go:239-253 | as `IntSetter`, for `time.Duration`; a parse error writes nothing |
| Setters.Apply | cf.go:55-59 | calling the registered setter, builtin or custom, writes exactly its converted value or nothing |
| Binder.Tokens | cf.go:206-208 | no tokens for an empty tag; otherwise the comma-separated pieces, which join back to the tag |
| Binder.LastBareIsLast | cf.go:209-217 | the name `parseFieldData` keeps is the default exactly when no token is bare (neither `+required` nor `+skip`), and otherwise a bare token after which no token is bare |
| Binder.ParseFieldData | cf.go:204-220 | the token loop yields the converted name replaced by the last bare token, and the flags of the tokens present |
| Binder.FieldDataMeaning | cf.go:204-220 | each flag is set exactly when its token occurs; the name is the converter's result on the whole struct field (name, tag and type) when no bare token occurs, and the last bare token otherwise |
| Binder.RenamedRequiredField | cf_test.go:41-52 | the tag `some_int_,+required` renames the field to `some_int_` and marks it required |
| Binder.Instantiate | cf.go:229-239 | the instance for a type or its pointed-to type has that type's shape; it is exactly the registered instance when an instantiator is registered for the pointed-to type, and the zero value otherwise |
| Binder.Flexible | cf.go:144-170 | each way an interface slot fails is its own error, exactly when its condition holds (not a map, no `"type"`, a non-string `"type"`, no registry, an unregistered name); on success the factory registered for the discriminator produced the stored value |
| Binder.RunWirings | cf.go:185-194 | the wirings run in order; success exactly when every wiring accepts; otherwise the first failure, wrapped with the type's name |
| Binder.RunWiringsAsWritten | cf.go:189-190 | as written, any wiring failure ends in a panic |
| Binder.WiringErrorPanicsAsWritten | cf.go:190 | a failing wiring panics the code as written, while the corrected loop reports it |
| Binder.BindSpec | cf.go:39-196 | binding a non-struct is an error that changes nothing; binding a struct yields one value per field |
| Binder.FieldsSpec | cf.go:47-184 | the field loop from field `i` leaves every earlier field as it was |
| Binder.FieldStep | cf.go:48-59 | a field that succeeds and is exported and not skipped has its name present when it is required; an unexported, skipped or absent field keeps its value |
| Binder.Dispatch | cf.go:55-173 | on an error the field keeps its value, unless it is a slice field; the rules themselves are stated by `SetterFirst`, `SliceNeedsSequence`, `InterfaceStoresFactoryValue`, `NestedOverlay` and `SliceAppends` |
| Binder.NestedStep | cf.go:60-79 | a nested struct field needs map data; on an error it keeps its value; on success it holds a struct, behind a new pointer exactly for a pointer field |
| Binder.ElementSpec | cf.go:84-137 | a made element of a pointer-element slice is a pointer; the element rules are stated by `BindingProperties.ElementFromFactory`, `ElementBySetter`, `ElementNeedsSubMap`, `ElementOverlay` and `ElementIsInstance` |
| Binder.SliceSpec | cf.go:84-107 | the element loop; its meaning is stated by `BindingProperties.SliceAppends` and `BindingProperties.ElementsInOrder` |
| Binder.FieldDataOf | cf.go:204-220 | what `parseFieldData` yields; its meaning is stated by `Binder.FieldDataMeaning` |
| Binder.SetterFor | cf.go:55 | the setter registered for exactly the field's type; its use is stated by `BindingProperties.SetterFirst` and `BindingProperties.SetterBeforeStructRule` |
| Binder.WiringsFor | cf.go:186-187 | the wirings registered for the struct's type, in order; their use is stated by `Binder.RunWirings` and `BindingProperties.WiringsRunLast` |
| Binder.Dest.constructor | cf.go:39-46 | a destination with the given type and field values |
| Binder.Dest.Bind | cf.go:39-196 | the in-place bind leaves in the fields exactly what `BindSpec` computes, and returns its error |
| Binder.Dest.BindField | cf.go:47-184 | one loop iteration changes field `i` and no other, exactly as `FieldStep` says |
| Binder.Dest.BindSliceField | cf.go:80-107 | the element loop appends to field `i` alone, exactly as `SliceSpec` says |
| Binder.BindElement | cf.go:84-106 | an element is created, filled and returned exactly as `ElementSpec` says |
| Binder.FillElement | cf.go:85-99 | the fresh instance is filled by the setter, or bound from a sub-map when it is a struct, or left as created, exactly as `Filled` (whose cases are stated by the `BindingProperties.Filled*` lemmas) says |
| BindingProperties.FieldsInOrder | cf.go:47-184 | fields are bound in declared order: on success each field took its own step; on failure the loop stopped at one field, the earlier writes stay (no rollback) and the later fields are never visited |
| BindingProperties.RequiredFieldsPresent | cf.go:177-181 | a visible `+required` field whose name is absent makes binding fail, and a successful bind had every visible required name present |
| BindingProperties.UntouchedFieldsKeepValue | cf.go:47-181 | an unexported, skipped or absent field keeps its prior value, whether the bind succeeds or fails, even when it is the missing required field that stopped it |
| BindingProperties.UntouchedFieldKeepsValue | cf.go:47-181 | the same for one field: the loop either took its step, which leaves it alone, or never reached it |
| BindingProperties.SkippedNamesIgnored | cf.go:50 | what the data holds under a skipped field's name, or under any name no visible field uses, does not change the bind |
| BindingProperties.SkipLeavesField | cf.go:50 | a `+skip` field is left alone without error, even when its name is present |
| BindingProperties.SetterBeforeStructRule | cf.go:55-60 | a setter registered for a struct type is used before the struct rule, even where that rule would fail |
| BindingProperties.NoRuleIsAnError | cf.go:171-173 | a type no rule covers is an error that leaves the field alone |
| BindingProperties.UintHasNoDefaultSetter | cf.go:171-173 | with the default setters, a `uint` field is such a type |
| BindingProperties.NestedOverlay | cf.go:60-79 | a nested field is bound onto the instantiator's instance (or the zero value), by pointer exactly for a pointer field, and the instance's fields the sub-map does not name keep their values |
| BindingProperties.PointerAndValueSameInstance | cf.go:222-239 | a pointer-to-struct type and its struct type get the same instance, because the lookup is on the pointed-to type |
| BindingProperties.PointerFieldWrapsValue | cf.go:60-79 | a `*T` field fails exactly as a `T` field would, and on success holds a pointer to the value the `T` field would hold |
| BindingProperties.PointerSliceWrapsElements | cf.go:81-106 | `[]*T` and `[]T` make their elements by the same rule, the `[]*T` element being a pointer to the `[]T` one, and fail with the same error |
| BindingProperties.ElementFromFactory | cf.go:108-137 | an interface element comes from the flexible factory, with its errors |
| BindingProperties.ElementBySetter | cf.go:85-90 | an element type with a setter gets the setter's converted value, behind a pointer exactly for a pointer-element slice, or fails with the setter's error wrapped with the field name |
| BindingProperties.ElementNeedsSubMap | cf.go:91-98 | a struct element without a setter fails with `InvalidSubMap` when its data is not a map |
| BindingProperties.ElementOverlay | cf.go:91-105 | a struct element without a setter, given a map, is its instance overlaid by the sub-map: the nested bind's error is reported wrapped with the field name, and on success the element's fields the sub-map does not name keep the instance's values |
| BindingProperties.ElementIsInstance | cf.go:85-105 | any other element without a setter is the fresh instance itself, behind a pointer exactly for a pointer-element slice |
| BindingProperties.FilledBySetter | cf.go:87-90 | filling by a setter stores the setter's value or reports its error wrapped with the field name |
| BindingProperties.FilledStruct | cf.go:91-98 | filling a struct needs a map; it is the nested bind onto the instance, the fields the map does not name keeping the instance's values |
| BindingProperties.FilledPlain | cf.go:85-99 | an element that is neither set nor a struct is left as created |
| BindingProperties.FieldStepDispatches | cf.go:48-59 | a visible, settable field whose name is present takes the rule of its type applied to that name's data |
| BindingProperties.SetterFirst | cf.go:55-59 | a field whose type has a setter stores exactly the setter's converted value, or keeps its value and reports the setter's error wrapped with the field name |
| BindingProperties.SliceNeedsSequence | cf.go:80-82 | a slice field without a setter fails with `InvalidSliceData` on non-sequence data, and otherwise runs the element loop from its current value |
| BindingProperties.InterfaceStoresFactoryValue | cf.go:144-170 | an interface field without a setter stores the flexible factory's value, or keeps its value and reports the factory's error |
| BindingProperties.SliceAppends | cf.go:80-107 | a slice field ends up holding its earlier elements followed by the elements made, error or not |
| BindingProperties.ElementsInOrder | cf.go:84-107 | elements are made one per input element, in input order; on failure the loop reports the error of the one element where it stopped |
| BindingProperties.FactorySeesWholeSequence | cf.go:116 | the factory of a slice element is handed the whole sequence, so two elements with the same discriminator become the same value |
| BindingProperties.WiringsRunLast | cf.go:185-194 | a field error ends the bind before any wiring runs; a successful bind means every wiring of the type accepted the bound struct |
| BindingProperties.PlainStringStored | setters.go:220-237 | with the default setters a `$`-free string is stored as it is |
| BindingProperties.NameOverlays | cf_test.go:102-123 | binding `{name: text}` onto a `nestedType` replaces `Name` and keeps `Count`, without error |
| BindingProperties.NestedPartOverlaid | cf_test.go:102-123 | in the nested test, `name` overlays the instance's `Name` and `Count` keeps 33 |
| BindingProperties.NestedFieldBound | cf_test.go:102-123 | the test's `Nested` field becomes a pointer to that overlaid instance |
| BindingProperties.IdFieldBound | cf_test.go:102-123 | the test's `Id` field is bound to `TestNested` |
| BindingProperties.NestedDefaultsKept | cf_test.go:102-123 | the whole test: `Id` is `TestNested`, and `Nested` points to `Name` `Different` with `Count` still 33 |
| BindingProperties.NestedElementBound | cf_test.go:192-212 | one `{name: ...}` element of a `[]*nestedType` is a pointer to a fresh zero instance with that `Name` and `Count` 0 |
| BindingProperties.StructTypeArray | cf_test.go:192-212 | `[{name: a}, {name: b}]` binds a nil `[]*nestedType` to two pointers, `a` then `b`, in input order |

## Left out

- `BindYaml` (cf.go:27-37) reads a file and calls a YAML parser, so it is I/O and a foreign library. The model starts from the decoded tree.
- Reflection mechanics are not modelled: type identity, `reflect.New`, and whether a value can be interfaced or set. They become the explicit schema, with the `canInterface`/`canSet` flags of each field descriptor.
- Self-referential struct types cannot be written as `Ty` values, because types are finite trees.
- Instantiator aliasing is not modelled. An instantiator is the value it returns, and nested instances are values. Two fields bound from one instantiator that returns a shared pointer therefore do not alias in the model.
- Wirings are checks on the bound value (`Value -> Option<string>`). A wiring that mutates its target is not modelled.
- Custom setters and flexible factories are pure conversions of the raw data. They are not given the `Options` and cannot write anything but the field they fill.
- Nil-pointer writes are not modelled. When a setter is registered for a pointer type and the field holds a nil pointer, Go's `Elem().SetX` panics. The model (`Through(VNil, x) == x`) instead replaces the nil pointer with the bare converted value, so the field no longer holds a pointer.
- `float64` is an exact real. The rounding of a large `int` converted to `float64` is not modelled.
- Duration.ParseDuration: uses exact arithmetic. It does not model the float rounding Go applies to fractions, nor its truncation of fractions longer than 18 digits.
- `SnakeCaseNameConverter` is not part of this model. The name converter is a function parameter of `DefaultOptions`.
- registry.go (a global put/get map), options2.go (type declarations) and the dump code are not part of this model.
- Interface elements of a pointer slice: for a `[]*interface{}` field, cf.go:81 strips the pointer, so the element takes the flexible branch, and cf.go:120 appends the factory's value to the `[]*interface{}`, which Go's reflection refuses with a panic unless the factory returned a `*interface{}`. Type identity is not modelled, so the model appends the factory's value as it is.
- Variables.Interpolate: requires that no resolver answers with text containing `$`. A resolver that does can make the Go loop run forever, and that non-terminating behaviour is not modelled.
- Error message text is not modelled. Errors are a datatype of conditions, with the breadcrumb of field names.
- Strings.TrimSpace: trims Unicode white space over characters. Go strings are bytes, so invalid UTF-8 and byte offsets are not modelled.
- Configuration.Options.Valid: requires every registered instance to Fit its type. Go accepts any instantiator at registration and then panics at the `Set` in cf.go:60-79 when the instance has the wrong type; that panic is not modelled.
- Binder.Dest.Bind: requires, through `Options.Valid`, that no resolver answers with `$`-text, on every bind, even of a struct with no string field. Go needs this only when a string is interpolated.
- Binder.Dest.Valid: keeps only the number of field values, not that each value has its field's type (`HasType`). Custom setters and flexible factories are arbitrary conversions in the model and may produce any value.
- Binder.BindSpec: binding a struct passed by value, rather than through a pointer, is not distinguished. In Go its fields are not settable. In the model the destination is always addressable.

## Findings

| source | as written | input that shows it | evidently intended | confidence | as-written member | corrected member |
|---|---|---|---|---|---|---|
| cf.go:190 | when a wiring fails, the error message is built with `cfV.Elem().Type().Name()`, but `cfV` was already dereferenced to the struct at cf.go:42, and `Elem` on a struct `reflect.Value` panics | any registered wiring that returns an error, e.g. one returning "no database" | report the wiring's error, wrapped with the struct type's name | not executed | Binder.RunWiringsAsWritten, Binder.WiringErrorPanicsAsWritten | Binder.RunWirings |
