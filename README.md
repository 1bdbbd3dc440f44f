# Enum-Cycles in Dafny

A model of the two crates of Enum-Cycles: the runtime trait `EnumState` and the
`#[derive(EnumState)]` macro.

- `EnumState` (`enum_cycles/src/lib.rs`) lets a Rust enum value cycle through its
  variants. `skip(n)` and `skip_backward(n)` follow a two-tier policy. A step that
  overshoots clamps to the boundary. Only a step taken *from* the boundary wraps to
  the other end. `next` and `previous` are steps of one. `from_index` is a
  bounds-checked lookup in the `_VALUES` table.
- The derive macro (`enum_cycles_derive/src/lib.rs`) reads the enum's attributes
  (`default(..)`, `auto`, `first`, `last`) at variant level and at top level. It
  rejects a variant with fields that has no usable attribute. It then builds the
  implementation: `_NAMES`, `_VALUES`, `_FIRST`, `_LAST`, `_DEFAULT`, `_SIZE`, and
  the `index`/`name` match arms.

Files:

- `wrappers.dfy`: `Option` and `Result`.
- `enum_cycles.dfy`: module `EnumCycles`. It has the index arithmetic of `skip`
  and `skip_backward` as functions (`SkipIndex`, `SkipBackwardIndex`) and
  lemmas about them. It also has class `EnumState<T>`, a value held in a mutable
  place. The class's methods `Skip`, `SkipBackward`, `Next` and `Previous`
  overwrite the held value with the table's representative of the new
  variant, as `*self = Self::from_index(index).unwrap()` does
  (`skip_backward(0)` changes nothing). The generated
  `index` dispatch is a constructor parameter (`indexOf`), because the trait
  leaves it to each implementation.
- `enum_cycles_derive.dfy`: module `EnumCyclesDerive`. The macro works on abstract
  syntax: attributes (a path that is an identifier or not, tokens, a span),
  variants (a name, field types, attributes, a span) and the derive input.
  The implementation is a record `Impl`. Each representative value is a `Ctor`:
  `Unit`, `Explicit` (the variant applied verbatim to `default(..)` tokens), or
  `PerField` (one `FirstOf`/`LastOf`/`DefaultOf` constant per field). The
  first-match loops are recursive functions, and so are the two tables of
  `get_arrays`. The field and match-arm pipelines are sequence comprehensions.
- `fixtures.dfy`: module `Fixtures`. It states the regression traces and the
  `Numbers`/`Letters`/`Outer` expectations of `enum_cycles/src/test.rs` as
  lemmas about the model.

A step of one from the last index goes to 0, and every other step of one adds
one. So `next` is the cyclic successor, and `size` calls of `next` return to the
start (`NextIsSuccessor`, `NextCycleReturns`).

## Model

| member | source | states |
|---|---|---|
| `EnumCycles.SkipIndex` | enum_cycles/src/lib.rs:73-87 | the new index of `skip` is always below `size`, so the `unwrap` at line 86 cannot fail |
| `EnumCycles.SkipBackwardIndex` | enum_cycles/src/lib.rs:93-107 | the new index of `skip_backward` is always below `size`, so the `unwrap` at line 106 cannot fail |
| `EnumCycles.SkipSaturates` | enum_cycles/src/lib.rs:79-85 | away from the last index, `skip(n)` lands on `index + n` when that is in range and clamps to `size - 1` otherwise; it never wraps (the `% size` never takes effect) |
| `EnumCycles.SkipFromLastWraps` | enum_cycles/src/lib.rs:79-80 | from the last index, `skip(n)` goes to 0 for every `n`, 0 included |
| `EnumCycles.SkipBackwardSaturates` | enum_cycles/src/lib.rs:97-105 | away from index 0, `skip_backward(n)` subtracts `n` when `index >= n` and clamps to 0 otherwise |
| `EnumCycles.SkipBackwardFromFirstWraps` | enum_cycles/src/lib.rs:97-102 | `skip_backward(0)` leaves the index unchanged; from index 0, any `n >= 1` goes to `size - 1` |
| `EnumCycles.NextStep` | enum_cycles/src/lib.rs:59-61 | a step of one moves to the next index, or from the last index to 0 |
| `EnumCycles.NextIsSuccessor` | enum_cycles/src/lib.rs:59-61 | `next` is `(index + 1) % size`: for a step of one, the two-tier policy agrees with modular arithmetic |
| `EnumCycles.PreviousIsPredecessor` | enum_cycles/src/lib.rs:64-66 | `previous` is `(index + size - 1) % size` |
| `EnumCycles.NextPreviousInverse` | enum_cycles/src/lib.rs:59-66 | `previous` undoes `next`, and `next` undoes `previous` |
| `EnumCycles.NextTimes` | enum_cycles/src/lib.rs:59-61 | repeated `next` stays in range |
| `EnumCycles.NextTimesAdvances` | enum_cycles/src/lib.rs:59-61 | `k` calls of `next` advance the index by `k` around the cycle |
| `EnumCycles.NextCycleReturns` | enum_cycles/src/lib.rs:59-61 | `size` calls of `next` return to the starting index |
| `EnumCycles.EnumState.FromIndex` | enum_cycles/src/lib.rs:111-117 | `from_index(i)` is `Some(values[i])` exactly when `i < size`, and `None` otherwise |
| `EnumCycles.EnumState.Names` | enum_cycles/src/lib.rs:120-122 | `names()` has one entry per variant |
| `EnumCycles.EnumState.Values` | enum_cycles/src/lib.rs:125-127 | `values()` has one entry per variant, and starts with `first()` and ends with `last()` |
| `EnumCycles.EnumState.First` | enum_cycles/src/lib.rs:135-137 | `first()` is `values()[0]` |
| `EnumCycles.EnumState.Last` | enum_cycles/src/lib.rs:140-142 | `last()` is `values()[size - 1]` |
| `EnumCycles.EnumState.Size` | enum_cycles/src/lib.rs:145-147 | `size()` is at least 1 and equals the lengths of `names()` and `values()` |
| `EnumCycles.EnumState.Skip` | enum_cycles/src/lib.rs:73-87 | the new index is `SkipIndex(old index, num, size)`; the held value becomes the table's value at that index; the object invariant is kept |
| `EnumCycles.EnumState.SkipBackward` | enum_cycles/src/lib.rs:93-107 | the new index is `SkipBackwardIndex(old index, num, size)`; `num == 0` leaves the value itself untouched; otherwise the value becomes the table's value at the new index |
| `EnumCycles.EnumState.Next` | enum_cycles/src/lib.rs:59-61 | `next()` is `skip(1)` and moves to `(index + 1) % size` |
| `EnumCycles.EnumState.Previous` | enum_cycles/src/lib.rs:64-66 | `previous()` is `skip_backward(1)` and moves to `(index + size - 1) % size` |
| `EnumCyclesDerive.TryFrom` | enum_cycles_derive/src/lib.rs:268-286 | a path that is not one identifier gives `InvalidPath`; an unregistered name gives `NoneFound`; `default` with no tokens gives `MissingDefault`, and with tokens gives `Default(tokens)`; `auto`/`first`/`last` give `Auto`/`First`/`Last`, each as an if-and-only-if |
| `EnumCyclesDerive.GetFirst` | enum_cycles_derive/src/lib.rs:251-259 | `NoneFound` exactly when no attribute is recognised; otherwise the outcome (errors included) of the first attribute that is not `NoneFound` |
| `EnumCyclesDerive.FirstTopLevel` | enum_cycles_derive/src/lib.rs:113-119 | the first top-level outcome that is neither `NoneFound` nor `Ok(Default(_))`, with errors propagated; `NoneFound` exactly when every top-level attribute is one of those two; never `Ok(Default(_))` |
| `EnumCyclesDerive.GetAttrType` | enum_cycles_derive/src/lib.rs:108-120 | a variant-level outcome wins; otherwise the top-level lookup decides. `NoneFound` exactly when nothing usable is found at either level. A `Default` result always comes from the variant's own attributes |
| `EnumCyclesDerive.GetMessage` | enum_cycles_derive/src/lib.rs:300-306 | path and argument errors are reported at the attribute with their messages; `NoneFound` is reported at the variant with the non-unit message |
| `EnumCyclesDerive.Resolves` | enum_cycles_derive/src/lib.rs:89-101 | a variant that passes validation can be built without the `unwrap` at line 186 failing |
| `EnumCyclesDerive.ValidateEnum` | enum_cycles_derive/src/lib.rs:89-101 | succeeds exactly when every variant resolves to `Ok`, or to `NoneFound` with no fields; otherwise it reports the first failing variant, in declaration order, with that variant's error message |
| `EnumCyclesDerive.GetConstant` | enum_cycles_derive/src/lib.rs:199-205 | a field's constant belongs to the field's own type: `_FIRST` for `first`, `_LAST` for `last`, `_DEFAULT` otherwise |
| `EnumCyclesDerive.GetConstructor` | enum_cycles_derive/src/lib.rs:179-194 | a fieldless variant is exactly a bare `Parent::Name`, whatever its attributes. A resolved `Default(tokens)` applies the variant to those tokens verbatim. Otherwise there is one constant per field, in field order |
| `EnumCyclesDerive.VariantNames` | enum_cycles_derive/src/lib.rs:168-170 | the `_NAMES` table has one entry per variant, the i-th being the i-th variant's identifier |
| `EnumCyclesDerive.VariantValues` | enum_cycles_derive/src/lib.rs:171-173 | the `_VALUES` table has one entry per variant, the i-th being the i-th variant's constructor |
| `EnumCyclesDerive.GetArrays` | enum_cycles_derive/src/lib.rs:167-175 | `names[i]` is the i-th variant's identifier and `values[i]` is its constructor, whose parent is the enum and whose name is `names[i]` |
| `EnumCyclesDerive.GetEnds` | enum_cycles_derive/src/lib.rs:207-209 | on a non-empty table, `first` and `last` are its first and last entries |
| `EnumCyclesDerive.FirstDefaultShift` | enum_cycles_derive/src/lib.rs:125-129 | one iteration of the `get_default` loop: past an attribute that is not a `default(..)`, "no default" and "first default at position `i`" carry over to the rest of the list |
| `EnumCyclesDerive.GetDefault` | enum_cycles_derive/src/lib.rs:124-131 | the tokens of the first top-level attribute that classifies as `Ok(Default(_))`, or the given fallback when there is none |
| `EnumCyclesDerive.GetMap` | enum_cycles_derive/src/lib.rs:229-237 | a match arm for the variant yielding `t`, with one wildcard per field, and no parentheses for a fieldless variant |
| `EnumCyclesDerive.GetIndexMap` | enum_cycles_derive/src/lib.rs:215-219 | the i-th `index` arm matches the i-th variant and yields `i` |
| `EnumCyclesDerive.GetNameMap` | enum_cycles_derive/src/lib.rs:221-225 | the i-th `name` arm matches the i-th variant and yields its name |
| `EnumCyclesDerive.ImplEnumCycle` | enum_cycles_derive/src/lib.rs:133-163 | `size` is the variant count, which is the length of both tables; `first`/`last` are `values[0]`/`values[size-1]`; `_DEFAULT` is `get_default` with `first` as the fallback; there is one `index`/`name` arm per variant |
| `EnumCyclesDerive.ImplEnumCycleTables` | enum_cycles_derive/src/lib.rs:134-144 | `_NAMES[i]` is the i-th variant's identifier and `_VALUES[i]` its constructor |
| `EnumCyclesDerive.ImplEnumCycleDefault` | enum_cycles_derive/src/lib.rs:137-145 | `_DEFAULT` is `first` when no top-level attribute is a `default(..)`, and otherwise the tokens of the first one that is |
| `EnumCyclesDerive.ImplEnumCycleArms` | enum_cycles_derive/src/lib.rs:150-160 | the i-th `index` arm yields `i` and the i-th `name` arm yields `_NAMES[i]` |
| `EnumCyclesDerive.DeriveEnumCycle` | enum_cycles_derive/src/lib.rs:70-83 | input that is not an enum gives the "only enum" diagnostic; an enum gives an implementation exactly when every variant passes validation, and otherwise gives the validation error |
| `EnumCyclesDerive.DispatchReaches` | enum_cycles_derive/src/lib.rs:150-160 | a generated `match` yields the result of the first arm whose pattern matches |
| `EnumCyclesDerive.ArmsReach` | enum_cycles_derive/src/lib.rs:150-160 | when variant names are distinct and the i-th arm names the i-th variant, a value of variant `i` reaches arm `i` |
| `EnumCyclesDerive.DispatchInvertsTables` | enum_cycles_derive/src/lib.rs:150-160 | when variant names are distinct, the generated `index` sends `values[i]` to `i`, and `name` sends it to `names[i]` |
| `EnumCyclesDerive.ImplTableIsValid` | enum_cycles_derive/src/lib.rs:134-148 | the constants `impl_enum_cycle` emits satisfy the runtime table invariant, and its `index` inverts `_VALUES` |
| `EnumCyclesDerive.GeneratedTableIsValid` | enum_cycles_derive/src/lib.rs:70-83 | every successful derive yields an implementation on which `skip`/`skip_backward` are well defined (`EnumCycles.Table.Valid`, `IndexConsistent`) |
| `EnumCyclesDerive.TopLevelDefaultIgnored` | enum_cycles_derive/src/lib.rs:113-118 | inserting a top-level `default(..)` anywhere does not change how any variant is built |
| `EnumCyclesDerive.FirstTopLevelCons` | enum_cycles_derive/src/lib.rs:113-118 | one iteration of the top-level loop |
| `EnumCyclesDerive.FirstTopLevelAppend` | enum_cycles_derive/src/lib.rs:113-118 | the top-level loop over `a + b` returns the outcome from `a` if `a` decides, and otherwise the outcome from `b` |
| `EnumCyclesDerive.TopLevelErrorFailsValidation` | enum_cycles_derive/src/lib.rs:89-120 | an erroneous top-level attribute (such as a path `a::b`) met before any usable one makes validation fail once any variant lacks its own attribute, even a fieldless variant |
| `Fixtures.SkipRegressionTrace` | enum_cycles/src/test.rs:43-68 | from index 0 of a ten-value enum, five `skip(k)` calls for each `k = 1..5` visit `1,2,3,4,5,7,9,0,2,4,7,9,0,3,6,9,0,4,8,9,0,5,9,0,5` |
| `Fixtures.SkipBackwardRegressionTrace` | enum_cycles/src/test.rs:83-108 | from index 9, five `skip_backward(k)` calls for each `k = 1..5` visit `8,7,6,5,4,2,0,9,7,5,2,0,9,6,3,0,9,5,1,0,9,4,0,9,4` |
| `Fixtures.NumbersTables` | enum_cycles/src/test.rs:122-138 | deriving `Numbers` gives its ten names in order, its ten values `Numbers::Zero` to `Numbers::Nine` in order, `first` `Zero`, `last` `Nine`, `size` 10, and the default `(One)` from its top-level attribute |
| `Fixtures.LettersTables` | enum_cycles/src/test.rs:24-29 | without a top-level `default`, `Letters`' default is its first value `A` |
| `Fixtures.OuterValues` | enum_cycles/src/test.rs:140-150 | `#[last]` and `#[default(B)]` on variants override the enum's `#[auto]`; `#[auto]` takes each field type's `_DEFAULT` |
| `Fixtures.OuterDerives` | enum_cycles/src/test.rs:140-150 | every variant of `Outer` resolves, so deriving it succeeds with the implementation `impl_enum_cycle` builds |
| `Fixtures.NextThenPrevious` | enum_cycles/src/lib.rs:59-66 | on an `EnumState` object, `previous()` after `next()` restores the index |

## Left out

- Parsing: `syn` parsing, `DeriveInput` unwrapping and `TokenStream` conversion are foreign library calls. The model takes an already parsed `DeriveInput`.
- Token streams: tokens are opaque strings, carried verbatim. A `default(..)` argument keeps its parentheses as part of its tokens, as `attr.tokens` does.
- Output text: the `quote!` output, the `compile_error!` emission and span handling in `error` are not modelled. A diagnostic is a record of an abstract location and the message string.
- `debug`: it prints the generated tokens behind a cargo feature, which is I/O.
- `EnumCycles.SkipIndex`: indices and steps are unbounded naturals, so the `usize` overflow of `index + num` at `enum_cycles/src/lib.rs:77` is not modelled.
- `EnumCyclesDerive.ImplEnumCycle`: requires at least one variant, so the panic of `get_ends` and of `size - 1` on an empty enum is not modelled. `DeriveEnumCycle` carries the same requirement.
- `EnumCycles.EnumState.Default`: `default()` is a projection of `_DEFAULT` with no property of its own in the runtime crate, so it has no contract there. Its value is stated by the derive side (`ImplEnumCycle`, `GetDefault`).
- `index()` and `name()` are generated, not part of the trait's default methods. The runtime class takes `index` as a function. The derive side models the generated arms (`Dispatch`), and `DispatchInvertsTables` ties them to the tables. Verbatim `default(..)` tokens are not interpreted, so `IndexOf` gives them 0. No property depends on that value.
- Struct-like variants: the source emits tuple syntax (`Parent::Name(..)`) for every variant with fields, named fields included. The model records only the field types, so it cannot tell the two kinds apart.
- Type checking of what the macro emits, such as a `default(..)` argument that fits the variant's fields or a field type that implements `EnumState`, belongs to the Rust compiler and is not modelled.
- `test_skip_range` and `test_skip_backward_range` only check that 1000 steps do not panic. `SkipIndex` and `SkipBackwardIndex` state this for every input (the result is below `size`).
