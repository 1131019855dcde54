# strictvec in Dafny

A model of strictvec's runtime-typed vector. `AbstractVec` holds two things:

- a list of values that is always contiguous (keys 0 to count - 1);
- an iteration cursor.

Every value that enters the list passes through `validateValue`. That method calls the concrete class's `validateValueType` and raises TypeError when it refuses; the two unsigned classes override `validateValue` to add a sign check after it. The concrete classes come in two families:

- **Dynamic:** `Vec`, `OptionalVec`, `LenientVec` and `LenientOptionalVec`. These bind a kind lazily, and for objects also a class or a shrinking "profile" of shared class names.
- **Fixed:** the scalar, optional-scalar and unsigned vectors, plus the two object traits. These are stateless predicates. The two unsigned classes add a sign check.

Files and modules:

- `values.dfy` (`Values`): the host values, `gettype` kinds, the exceptions and the class table.
- `type_state.dfy` (`TypeStates`): the lazily bound fields of the dynamic classes.
- `vec.dfy`, `optional_vec.dfy`, `lenient_vec.dfy`, `lenient_optional_vec.dfy`: one module per dynamic class. Each has a pure `Step` that gives the verdict and the type-state left behind.
- `scalar.dfy`, `optional_scalar.dfy`, `traits.dfy`: the fixed classes.
- `strategies.dfy` (`Strategies`):
  - the `Policy` datatype, which names the concrete class (this project has no subclassing);
  - `Validate`, the pure `validateValue`, and `ValidateAll`, the loop that validates a batch;
  - the invariants those preserve.
- `php_arrays.dfy` (`PhpArrays`): index resolution, `isset`, `array_slice`, `unset` followed by `array_values`, and `array_diff`/`array_intersect`.
- `placement.dfy` (`Placement`): where `offsetSet`, `offsetUnset` and `insert` put or take values.
- `abstract_vec.dfy` (`Engine`): the class `Vector`, with the fields `vec`, `position`, `valueType`, `valueClass` and `valueClassProfile`.
  - The queries (`Count`, `Current`, `Key`, `CursorValid`, `OffsetExists`, `OffsetGet`) are functions on the fields. The operations that change the fields are methods, each proved equal to the pure functions above. Every public operation among them (`Next`, `Rewind`, `OffsetSet`, `OffsetUnset`, `Push`, `Pop`, `Unshift`, `Shift`, `Remove`, `Insert`) requires and keeps `Valid()`: the cursor stays at or above -1, the type-state has its class's shape, and every stored value is accepted again by the current type-state. The protected helpers (`VecValueType` to `ValidateValueType`, and `ValidateValue`) are only proved equal to the pure `Step`, `ValueType` and `Validate`; `ValidateEach`, the loop that calls them, keeps `Valid()` by `Strategies.ValidatePreserves`.
- `scenarios.dfy` (`Scenarios`): the repository's test runs and the source's corner cases, stated on the model.

Behaviour of the source that the model keeps as written:

- Existence is `isset`, so a stored null counts as missing. `valid` stops at a stored null. `offsetSet` cannot overwrite one. `offsetUnset`, `pop` and `shift` leave it in place. `remove` raises at it; so does `insert`, except at an index that resolves to 0, which prepends.
- Validation runs value by value. A binding or narrowing made before a later value raises is kept, even though nothing is stored (`Engine.Vector.Push`, `Scenarios.BindingSurvivesRefusedBatch`). `offsetSet` validates before it checks the offset.
- `insert` resolves a negative index and then tests the resolved offset with `offsetExists`, which resolves negatives a second time. The splice then uses the raw index. As a result, an index from -2n to -n-1 prepends whenever the element at 2n + index is not null (`Placement.InsertedBelowStart`).
- `offsetUnset` steps the cursor back whenever it is at or after the removed element, so the cursor can reach -1 (`Scenarios.CursorBelowStart`).

## Model

| member | source | states |
|---|---|---|
| Values.ClassProfile | src/LenientVec.php:86-93 | the profile holds the class itself and exactly the ancestors and interfaces the class table lists for it |
| StrictDynamic.Bind | src/Vec.php:23-29 | a bound state is left as it was; an unbound one binds the value's kind and, for an object, its class |
| StrictDynamic.Step | src/Vec.php:21-61 | an unbound state binds to the value's kind (and class) and accepts it; a bound state never changes; a non-object kind accepts exactly values of that kind (a closed-resource binding also takes open resources); an object binding accepts exactly objects of the bound class |
| StrictDynamic.KindAcceptsOwnKind | src/Vec.php:31-60 | the switch accepts every value of its own kind, so the value that binds is always accepted |
| StrictDynamic.KindAccepts | src/Vec.php:31-60 | a bound scalar, array or resource kind accepts exactly values of that kind; a closed-resource binding accepts open and closed resources; an object binding accepts exactly objects of the bound class |
| OptionalDynamic.Step | src/OptionalVec.php:21-67 | null is accepted with the state untouched; otherwise as Vec, and the state never binds to the null kind |
| LenientDynamic.Bind | src/LenientVec.php:25-32 | a bound state is left as it was; an unbound one binds the value's kind and, for an object, the profile of its class |
| LenientDynamic.Step | src/LenientVec.php:23-77 | a refusal leaves the state unchanged; scalar kinds need an exact kind match; an object is accepted iff the profile meets its class profile, and the profile becomes that intersection; the profile only shrinks |
| LenientOptionalDynamic.Step | src/LenientOptionalVec.php:24-84 | null is accepted with the state untouched; a refusal keeps the state; an unbound state binds to a non-null value and accepts it; a bound scalar kind accepts exactly its kind and leaves the state alone; an object is accepted iff the profile meets its class profile, and the profile becomes that intersection |
| Scalar.UIntVecValidateValue | src/Scalar/UIntVec.php:16-34 | passes iff the value is a non-negative integer; TypeError iff the value is not an integer; ValueError iff it is a negative integer |
| Scalar.UIntVecValueType | src/Scalar/UIntVec.php:31-34 | accepts exactly the integers, negatives included: the sign is left to `validateValue` |
| Scalar.BoolVecValueType | src/Scalar/BoolVec.php:16-19 | accepts a value iff its kind is boolean |
| Scalar.IntVecValueType | src/Scalar/IntVec.php:16-19 | accepts a value iff its kind is integer |
| Scalar.FloatVecValueType | src/Scalar/FloatVec.php:16-19 | accepts a value iff its kind is double |
| Scalar.StringVecValueType | src/Scalar/StringVec.php:16-19 | accepts a value iff its kind is string |
| Scalar.BoolVecAcceptsBooleans | src/Scalar/BoolVec.php:16-19 | accepts exactly the booleans; 0, 1 and null are refused |
| Scalar.IntVecAcceptsIntegers | src/Scalar/IntVec.php:16-19 | accepts exactly the integers, negatives included; null, booleans, strings and floats are refused |
| Scalar.FloatVecAcceptsFloats | src/Scalar/FloatVec.php:16-19 | accepts exactly the floats; integers and null are refused |
| Scalar.StringVecAcceptsStrings | src/Scalar/StringVec.php:16-19 | accepts exactly the strings; integers and null are refused |
| OptionalScalar.OptionalUIntVecValidateValue | src/OptionalScalar/OptionalUIntVec.php:16-34 | passes iff null or a non-negative integer; TypeError iff neither integer nor null; ValueError iff a negative integer |
| OptionalScalar.OptionalUIntVecValueType | src/OptionalScalar/OptionalUIntVec.php:31-34 | accepts exactly integers, negatives included, and null |
| OptionalScalar.OptionalBoolVecValueType | src/OptionalScalar/OptionalBoolVec.php:16-19 | accepts a value iff its kind is boolean or null |
| OptionalScalar.OptionalIntVecValueType | src/OptionalScalar/OptionalIntVec.php:16-19 | accepts a value iff its kind is integer or null |
| OptionalScalar.OptionalFloatVecValueType | src/OptionalScalar/OptionalFloatVec.php:16-19 | accepts a value iff its kind is double or null |
| OptionalScalar.OptionalStringVecValueType | src/OptionalScalar/OptionalStringVec.php:16-19 | accepts a value iff its kind is string or null |
| OptionalScalar.OptionalBoolVecAcceptsBooleansAndNull | src/OptionalScalar/OptionalBoolVec.php:16-19 | accepts exactly booleans and null |
| OptionalScalar.OptionalIntVecAcceptsIntegersAndNull | src/OptionalScalar/OptionalIntVec.php:16-19 | accepts exactly integers and null |
| OptionalScalar.OptionalFloatVecAcceptsFloatsAndNull | src/OptionalScalar/OptionalFloatVec.php:16-19 | accepts exactly floats and null |
| OptionalScalar.OptionalStringVecAcceptsStringsAndNull | src/OptionalScalar/OptionalStringVec.php:16-19 | accepts exactly strings and null |
| Traits.ObjectValueTypeIsExactClass | src/Traits/ObjectValueType.php:25-29 | accepts exactly objects of the declared class; a subclass instance is refused even though the lenient trait accepts it; null is refused |
| Traits.LenientOptionalObjectValueTypeIsA | src/Traits/LenientOptionalObjectValueType.php:25-30 | null passes; an object passes iff the declared name is its class, an ancestor or an interface; every other value fails |
| Traits.ObjectValueType | src/Traits/ObjectValueType.php:25-29 | accepts a value iff it is an object whose class is exactly the declared one; null is refused |
| Traits.LenientOptionalObjectValueType | src/Traits/LenientOptionalObjectValueType.php:25-30 | null is accepted; any other value iff it is an object whose class is the declared one or lists it as an ancestor or interface |
| Strategies.Validate | src/AbstractVec.php:390-398 | a raised exception leaves the type-state as it was; fixed classes never change state; an unbound dynamic class always passes; the only errors are TypeError and ValueError, and ValueError only from the unsigned classes on a negative integer |
| Strategies.ValueType | src/AbstractVec.php:392 | a refusal leaves the type-state unchanged; a fixed class never changes it; an unbound dynamic class accepts anything; a bound dynamic class keeps its kind and class |
| Strategies.FixedValueType | src/AbstractVec.php:392 | null is accepted iff the class is an optional one; any other accepted value has the one kind the class admits, and for the scalar classes every value of that kind is accepted |
| Strategies.ValidateAll | src/AbstractVec.php:290-292 | an empty batch passes with no change; a batch can only raise TypeError or ValueError |
| Strategies.ValidateRefines | src/Vec.php:23-29 | one validation keeps the fields well formed and only refines the type-state: a binding is kept, a profile only shrinks |
| Strategies.ValidateKeepsConformance | src/AbstractVec.php:390-398 | an accepted value is accepted again by the state it left, and a value accepted before is still accepted afterwards |
| Strategies.StrictKeepsConformance | src/Vec.php:23-60 | for Vec and OptionalVec an accepted value is accepted again, and a binding never invalidates an earlier accepted value |
| Strategies.LenientOptionalKeepsConformance | src/LenientOptionalVec.php:24-84 | for LenientOptionalVec an accepted value is accepted again, and a narrowing never invalidates an earlier accepted value |
| Strategies.FixedKeepsConformance | src/Scalar/UIntVec.php:11-35 | for a fixed class an accepted value stays accepted and acceptance never changes |
| Strategies.LenientKeepsConformance | src/LenientVec.php:47-62 | narrowing the profile never makes an earlier accepted object or the new one unacceptable |
| Strategies.ValidatePreserves | src/AbstractVec.php:127-129 | one validation keeps the fields well formed and every stored value conforming, and an accepted value conforms |
| Strategies.ValidateAllPreserves | src/AbstractVec.php:287-295 | a batch keeps the fields well formed, only refines the state and keeps the stored values conforming; on success every batch value conforms |
| Strategies.ValidateAllAppend | src/AbstractVec.php:254-262 | validating a + b is validating a and then, if it passed, b from the state a left |
| Strategies.StableBatch | src/AbstractVec.php:290-292 | when no validation can change the state, a batch passes iff each value passes alone, and the state stays put |
| Strategies.FixedVerdictIgnoresHistory | src/Scalar/UIntVec.php:11-35 | a fixed class's verdict does not depend on its history, and a batch is all or nothing over per-value checks |
| Strategies.BoundStrictBatch | src/Vec.php:23-60 | a bound Vec or OptionalVec never changes its binding; a batch passes iff every value matches the bound kind and class (or is null, for OptionalVec) |
| PhpArrays.HasOffsetResolves | src/AbstractVec.php:96-102 | the offset test (`PhpArrays.HasOffset`) holds iff the offset lies in -n..n-1 and the element at its resolved position is not null, i.e. `isset` at the resolved index; -k and n - k agree |
| PhpArrays.Resolve | src/AbstractVec.php:99-101 | a non-negative index is kept; a negative index counts back from the count; the result is a position of the list iff the index is in -n..n-1 |
| PhpArrays.SliceBounds | src/AbstractVec.php:339-341 | the clamped start and end of `array_slice` satisfy 0 <= start <= end <= n |
| PhpArrays.ArraySlice | src/AbstractVec.php:339-341 | a slice is no longer than the list and holds only its values |
| PhpArrays.ArraySliceIsClampedRange | src/AbstractVec.php:339-341 | `array_slice` is the contiguous range from the clamped start to the clamped end, or empty |
| PhpArrays.SliceSplit | src/AbstractVec.php:212-216 | the two raw slices insert takes put the list back together, for every integer index |
| PhpArrays.SliceAroundResolved | src/AbstractVec.php:212-216 | for an index resolving into the list, the raw slices are the prefix before and the suffix from the resolved position |
| PhpArrays.SliceBeforeStart | src/AbstractVec.php:212-216 | an index below minus the count gives an empty prefix and the whole list as suffix |
| PhpArrays.RemoveAt | src/AbstractVec.php:156-157 | one element fewer; earlier ones stay, later ones move down by one |
| PhpArrays.Difference | src/AbstractVec.php:184 | a value survives iff it is in the list and absent from every argument |
| PhpArrays.Intersection | src/AbstractVec.php:242 | a value survives iff it is in the list and present in every argument |
| PhpArrays.DifferenceAppend | src/AbstractVec.php:184 | difference distributes over concatenation, so the list's order is kept |
| PhpArrays.IntersectionAppend | src/AbstractVec.php:242 | intersection distributes over concatenation, so the list's order is kept |
| PhpArrays.DifferenceIntersectionPartition | src/AbstractVec.php:171-245 | against one argument, every occurrence lands in exactly one of difference and intersection |
| Placement.SetAt | src/AbstractVec.php:131-140 | a null offset appends; TypeError iff the offset is neither null nor an integer; otherwise either an append or an in-place overwrite of a non-null element, which holds the new value and nothing foreign |
| Placement.SetAtAddresses | src/AbstractVec.php:133-139 | an integer offset overwrites iff it resolves to a non-null element, appends iff it equals the count, and is out of range otherwise |
| Placement.UnsetAt | src/AbstractVec.php:148-162 | TypeError iff the offset is not an integer; at most one element goes; no value is invented; a cursor at or above -1 stays so |
| Placement.UnsetRemovesOne | src/AbstractVec.php:152-160 | a non-null element at the resolved offset is removed (one occurrence) and the cursor steps back iff it was at or after it; otherwise nothing changes |
| Placement.UnsetKeepsCursorInStep | src/AbstractVec.php:158-160 | a cursor on another element still points at it; a cursor on the removed element moves back so the next step lands on its successor |
| Placement.UnsetLastRestores | src/AbstractVec.php:270-295 | popping right after pushing a non-null value restores the list |
| Placement.UnsetFirstRestores | src/AbstractVec.php:321-363 | shifting right after unshifting a non-null value restores the list |
| Placement.Inserted | src/AbstractVec.php:197-220 | an accepted insert splices the values into the list at one position, as a permutation of list plus values |
| Placement.RawSlicesAround | src/AbstractVec.php:212-216 | the raw slices are the prefix and suffix at the resolved index, or around the start when it resolves below it |
| Placement.InsertedAtResolved | src/AbstractVec.php:199-219 | at the count, at zero, or at a non-null element the values go in before the resolved position; at a null element or past the end it is out of range |
| Placement.InsertedAtSeam | src/AbstractVec.php:199-219 | inserting at the boundary of a + b, in front of a non-null element, gives a + values + b |
| Placement.InsertedBelowStart | src/AbstractVec.php:199-216 | an index from -2n to -n-1 prepends when the element at 2n + index is non-null, and is out of range otherwise or below -2n |
| Engine.Vector.Empty | src/AbstractVec.php:25-27 | a new vector is empty, cursor 0, type-state unset |
| Engine.Vector.Copy | src/AbstractVec.php:183 | a clone copies every field, the type-state included |
| Engine.Vector.Create | src/AbstractVec.php:34-37 | construction is push of the arguments: it raises what the batch raises, else holds exactly the arguments |
| Engine.Vector.Count | src/AbstractVec.php:42-45 | the count is the list's length; every offset from -count to count - 1 reads a stored value, and only those can exist |
| Engine.Vector.Current | src/AbstractVec.php:52-55 | the element at the cursor, or null off the list |
| Engine.Vector.Key | src/AbstractVec.php:62-65 | the cursor, never below -1 in a valid vector |
| Engine.Vector.Next | src/AbstractVec.php:70-73 | the cursor advances by one |
| Engine.Vector.Rewind | src/AbstractVec.php:78-81 | the cursor returns to 0 |
| Engine.Vector.CursorValid | src/AbstractVec.php:86-89 | valid iff the element at the cursor is not null |
| Engine.Vector.ValidateOffset | src/AbstractVec.php:371-379 | passes iff the offset is an integer, else TypeError |
| Engine.Vector.OffsetExists | src/AbstractVec.php:96-102 | TypeError iff not an integer; true iff the offset is in -count to count - 1 and the element there is not null |
| Engine.Vector.OffsetGet | src/AbstractVec.php:110-119 | TypeError for a non-integer; the resolved element for an in-range offset; null out of range |
| Engine.Vector.VecValueType | src/Vec.php:21-61 | the verdict and the fields left behind are those of StrictDynamic.Step |
| Engine.Vector.OptionalVecValueType | src/OptionalVec.php:21-67 | the verdict and the fields left behind are those of OptionalDynamic.Step |
| Engine.Vector.LenientVecValueType | src/LenientVec.php:23-77 | the verdict and the fields left behind are those of LenientDynamic.Step |
| Engine.Vector.LenientOptionalVecValueType | src/LenientOptionalVec.php:24-84 | the verdict and the fields left behind are those of LenientOptionalDynamic.Step |
| Engine.Vector.ValidateValueType | src/AbstractVec.php:392 | the vector's class decides, as the pure dispatch does |
| Engine.Vector.ValidateValue | src/AbstractVec.php:390-398 | completion and fields are those of Strategies.Validate |
| Engine.Vector.ValidateEach | src/AbstractVec.php:290-292 | completion and fields are those of Strategies.ValidateAll; on success every value conforms |
| Engine.Vector.Push | src/AbstractVec.php:287-295 | raises what the batch raises with the list unchanged; else appends the batch in order; the type-state is the batch's either way |
| Engine.Vector.Unshift | src/AbstractVec.php:355-363 | as push, but the batch is prepended in order |
| Engine.Vector.OffsetSet | src/AbstractVec.php:127-141 | the value is validated first (its type-state kept); if it passes, the list becomes what SetAt gives, or the error SetAt names is raised with the list unchanged |
| Engine.Vector.OffsetUnset | src/AbstractVec.php:148-162 | the list and cursor become what UnsetAt gives, or TypeError with nothing changed |
| Engine.Vector.Pop | src/AbstractVec.php:270-280 | Underflow on an empty list; else the last element, removed through offsetUnset |
| Engine.Vector.Shift | src/AbstractVec.php:321-330 | Underflow on an empty list; else the first element, removed through offsetUnset |
| Engine.Vector.Remove | src/AbstractVec.php:304-313 | out of range unless the index designates a non-null element; else that element, removed through offsetUnset |
| Engine.Vector.Insert | src/AbstractVec.php:197-220 | out of range with nothing changed where Inserted has no result; else the batch's completion and type-state, and on success the list Inserted gives |
| Engine.Vector.Slice | src/AbstractVec.php:339-348 | a fresh vector of the same class and type-state holding array_slice of the list, cursor 0 |
| Engine.Vector.Difference | src/AbstractVec.php:171-187 | a fresh vector of the same class and type-state holding the difference, cursor 0; this vector is unchanged |
| Engine.Vector.Intersection | src/AbstractVec.php:229-245 | a fresh vector of the same class and type-state holding the intersection, cursor 0; this vector is unchanged |
| Engine.Vector.Merge | src/AbstractVec.php:254-262 | raises what validating all arguments in order raises; else a fresh vector holding this list followed by every argument, cursor 0; this vector is unchanged |
| Scenarios.NullMixedWithIntegers | tests/VecTest.php:41-55 | null and an integer, in either order, are refused by Vec and LenientVec and accepted by the optional vectors |
| Scenarios.NullBesideInteger | tests/VecTest.php:41-55 | for one dynamic class, both orders of null and an integer pass and bind to integers if the class is optional, and raise TypeError otherwise |
| Scenarios.BindingSurvivesRefusedBatch | src/AbstractVec.php:290-292 | a batch [3, "moo"] refused by Vec or OptionalVec keeps the integer binding its first value made |
| Scenarios.BadTypeRun | tests/VecTest.php:71-78 | each dynamic vector built from 3 reads 3 back and refuses to append "moo" with TypeError, keeping its list and its integer binding |
| Scenarios.VecExactClass | tests/VecTest.php:57-69 | three Ok objects bind the class Ok; an Err object is refused |
| Scenarios.LenientSharedInterface | tests/LenientVecTest.php:57-73 | Ok, Ok, Ok, Err narrow the profile to the shared interface; a stdClass object is refused without narrowing |
| Scenarios.LenientSteps | tests/LenientVecTest.php:57-73 | the single LenientVec verdicts of that run: each Ok keeps {Ok, Result}, Err narrows to {Result}, stdClass is refused |
| Scenarios.LenientOptionalSharedInterface | tests/LenientOptionalVecTest.php:61-82 | the same with a null in between, which neither binds nor narrows |
| Scenarios.LenientOptionalSteps | tests/LenientOptionalVecTest.php:61-82 | the single LenientOptionalVec verdicts of that run, null included |
| Scenarios.UnsignedChecks | src/Scalar/UIntVec.php:16-26 | negative integers raise ValueError, non-integers TypeError, zero and null (optional) pass |
| Scenarios.SliceExamples | tests/ManipulationTest.php:306-337 | the four slices of the test give the expected elements |
| Scenarios.DifferenceExample | tests/ManipulationTest.php:24-26 | the difference of [1, 2, 5] with [1, 2, 3] is [5] |
| Scenarios.IntersectionExample | tests/ManipulationTest.php:117-125 | the intersection of [1, 2, 5] with [1, 2, 3] is [1, 2], in order |
| Scenarios.InsertInMiddleExample | tests/ManipulationTest.php:37-49 | inserting two values at 2 of four puts them between the second and third |
| Scenarios.InsertPastCountExample | tests/ManipulationTest.php:51-57 | inserting at 4 on three values is out of range |
| Scenarios.InsertFromEndExample | tests/ManipulationTest.php:73-83 | inserting at -1 into three values goes before the last element, whenever that element is not null |
| Scenarios.InsertBelowStartExamples | src/AbstractVec.php:199-216 | inserting at -5 on three values prepends; at -7 it is out of range |
| Scenarios.NegativeOffsetMirrors | tests/NegativeIndexTest.php:8-19 | get(-k) is get(n - k) for 1 <= k <= n |
| Scenarios.PushThenPop | src/AbstractVec.php:270-295 | push of a non-null value then pop returns it and restores the list |
| Scenarios.UnshiftThenShift | src/AbstractVec.php:321-363 | unshift of a non-null value then shift returns it and restores the list |
| Scenarios.NegativeIndexRun | tests/NegativeIndexTest.php:28-40 | negative reads, a write at -1, null below the start, and out of range writing at -4 |
| Scenarios.UnsetUnderCursor | tests/SequentialIndexTest.php:34-47 | unsetting odd keys while iterating [1, 2, 4, 8] sees keys 0, 1, 1, 1 and leaves [1] |
| Scenarios.StepAndUnset | tests/SequentialIndexTest.php:38-45 | one step to key 1 and its unset put the cursor back on the first element |
| Scenarios.CursorBelowStart | src/AbstractVec.php:158-160 | unsetting the first element under a cursor at 0 puts it at -1, where valid is false |

## Left out

- src/Result/ResultVec.php is not part of this model. Its helpers wrap external libraries, and its validation comes from the LenientObjectValueType trait, which is outside the modelled core.
- The parameter types of `remove`, `insert` and `slice` (and the argument lists of the other operations) are the model's Dafny types. They take the place of PHP's own parameter-type checks under `strict_types`, so the TypeError PHP raises for an argument of the wrong type is not modelled.
- Reflection (`gettype`, `get_class`, `class_parents`, `class_implements`, `is_a`) is abstracted. Each value carries its kind, each object its class name, and a class table gives each class's ancestors and interfaces. Class names are compared case-sensitively, whereas PHP's class names and `is_a` are case-insensitive.
- When `get_class` receives a non-object in the object branches, PHP raises a TypeError of its own. The model treats that as a plain refusal, which raises the same error kind.
- PhpArrays.Difference and PhpArrays.Intersection compare by equality of values, whereas `array_diff` and `array_intersect` compare string casts. Values that differ but cast to the same string, such as 1 and "1", are therefore not identified.
- Engine.Vector.Difference and Engine.Vector.Intersection do not model the errors of the string casts. PHP raises an Error when it casts an object without `__toString` (so whenever either side holds an object without `__toString`), and it warns and compares "Array" for arrays. The model returns a vector in both cases.
- Resources closed while stored: a resource closed after it was stored changes kind in PHP ("resource (closed)"), so a resource-bound vector can hold a value it would now refuse. The model's resources never change state once stored, so the invariant that every stored value is accepted again does not hold for PHP resources closed behind the vector's back.
- Traversable arguments and `iterator_to_array` are left out: every argument list is a `seq<Value>`.
- The `ArrayAccess`/`Iterator`/`Countable` wiring, the exception class hierarchy (replaced by the `Error` datatype) and the mechanics of `clone` (replaced by the `Copy` constructor) are left out.
- The `CompileError` stub of the base `validateValueType` is left out, because every concrete class overrides it.
- The switch's "float" case and its default case are left out, because `gettype` never returns a kind that reaches them.
- Integers are unbounded. PHP's 64-bit integers are not modelled, because no operation here does arithmetic that could overflow, apart from index resolution on lists far larger than memory.
- Floats are opaque tokens, because only their kind matters here. Resources are a handle plus a closed flag.
- Engine.Vector.Current: reading an undefined key gives null. PHP's accompanying warning is not modelled.
- The concrete traits' `getValueType()` is a class name fixed in the vector's policy.
- Exception messages are left out.
