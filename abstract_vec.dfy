/** The vector engine: one contiguous list of values indexed from zero, an
    iteration cursor, and the type-state of the concrete vector class. Every
    public operation that stores values validates all of them first and
    stores them only when none raised; the type-state changes that
    validation made are kept either way. */
module Engine {
  import opened Values
  import opened TypeStates
  import opened PhpArrays
  import opened Placement
  import opened Strategies
  import StrictDynamic
  import LenientDynamic

  class Vector {
    /** The concrete class (its validateValueType and validateValue). */
    const policy: Policy
    /** The runtime's class table, which `get_class`, `is_a` and the class
        profile consult. */
    const classes: ClassTable
    /** The type-state fields of the dynamic classes (unset in the others). */
    var valueType: Option<Kind>
    var valueClass: Option<ClassName>
    var valueClassProfile: Option<set<ClassName>>
    /** `$vec`: always a list, keys 0 to count - 1. */
    var vec: seq<Value>
    /** `$position`: the iteration cursor. */
    var position: int

    function State(): TypeState
      reads this
    {
      TypeState(valueType, valueClass, valueClassProfile)
    }

    /** The cursor never drops below -1, the type-state has its class's
        shape, and every stored value conforms to it. */
    ghost predicate Valid()
      reads this
    {
      position >= -1 &&
      WellFormed(policy, State()) &&
      AllConform(policy, classes, State(), vec)
    }

    /** A vector of the given class with nothing in it yet. */
    constructor Empty(policy: Policy, classes: ClassTable)
      ensures Valid()
      ensures this.policy == policy && this.classes == classes
      ensures vec == [] && position == 0 && State() == Unbound
    {
      this.policy := policy;
      this.classes := classes;
      valueType, valueClass, valueClassProfile := None, None, None;
      vec := [];
      position := 0;
    }

    /** `clone`: every field copied, the type-state included. */
    constructor Copy(source: Vector)
      requires source.Valid()
      ensures Valid()
      ensures policy == source.policy && classes == source.classes
      ensures vec == source.vec && position == source.position && State() == source.State()
    {
      policy := source.policy;
      classes := source.classes;
      valueType, valueClass, valueClassProfile := source.valueType, source.valueClass, source.valueClassProfile;
      vec := source.vec;
      position := source.position;
    }

    /** The public constructor: a new vector and `push(...$values)`. A value
        that raises makes the construction raise. */
    static method Create(policy: Policy, classes: ClassTable, values: seq<Value>) returns (r: Result<Vector>)
      ensures var c := ValidateAll(policy, classes, Unbound, values);
              (c.outcome.Fail? ==> r == Err(c.outcome.error)) &&
              (c.outcome.Pass? ==> r.Ok? && fresh(r.value) && r.value.Valid() &&
                                   r.value.policy == policy && r.value.classes == classes &&
                                   r.value.vec == values && r.value.position == 0 &&
                                   r.value.State() == c.state)
    {
      var v := new Vector.Empty(policy, classes);
      var o := v.Push(values);
      if o.Fail? {
        return Err(o.error);
      }
      assert [] + values == values;
      r := Ok(v);
    }

    /** count. */
    function Count(): (n: nat)
      reads this
      ensures n == |vec|
      ensures forall i: int :: -|vec| <= i < |vec| ==> OffsetGet(Int(i)).Ok? && OffsetGet(Int(i)).value in vec
      ensures forall i: int :: OffsetExists(Int(i)) == Ok(true) ==> -|vec| <= i < |vec|
    {
      |vec|
    }

    /** current: the element at the cursor, and null (PHP's undefined-key
        read) when the cursor is off the list. */
    function Current(): (v: Value)
      reads this
      ensures 0 <= position < |vec| ==> v == vec[position]
      ensures !(0 <= position < |vec|) ==> v == Null
      ensures v != Null ==> v in vec
    {
      if 0 <= position < |vec| then vec[position] else Null
    }

    /** key. */
    function Key(): (k: int)
      reads this
      ensures k == position
      ensures Valid() ==> k >= -1
    {
      position
    }

    /** next. */
    method Next()
      requires Valid()
      modifies this`position
      ensures Valid()
      ensures position == old(position) + 1
    {
      position := position + 1;
    }

    /** rewind. */
    method Rewind()
      requires Valid()
      modifies this`position
      ensures Valid()
      ensures position == 0
    {
      position := 0;
    }

    /** valid: `isset` on the cursor, so iteration stops at the first stored
        null as well as at the end of the list. */
    function CursorValid(): (r: bool)
      reads this
      ensures r <==> Current() != Null
      ensures r ==> 0 <= position < |vec|
    {
      IsSet(vec, position)
    }

    /** validateOffset: only integers index a vector. */
    function ValidateOffset(offset: Value): (o: Outcome)
      ensures o == Pass <==> TypeOf(offset) == Integer
      ensures o.Fail? ==> o.error == TypeError
    {
      if !offset.Int? then Fail(TypeError) else Pass
    }

    /** offsetExists: an integer offset, counted from the end when negative,
        that designates a non-null element. */
    function OffsetExists(offset: Value): (r: Result<bool>)
      reads this
      ensures r.Err? <==> !offset.Int?
      ensures r.Err? ==> r.error == TypeError
      ensures offset.Int? ==> (r == Ok(true) <==>
                                 -|vec| <= offset.i < |vec| && vec[Resolve(|vec|, offset.i)] != Null)
    {
      if ValidateOffset(offset).Fail? then Err(TypeError)
      else Ok(HasOffset(vec, offset.i))
    }

    /** offsetGet: the element an in-range offset designates (null if no
        element exists there), counting from the end when negative. */
    function OffsetGet(offset: Value): (r: Result<Value>)
      reads this
      ensures !offset.Int? ==> r == Err(TypeError)
      ensures offset.Int? && -|vec| <= offset.i < |vec| ==> r == Ok(vec[Resolve(|vec|, offset.i)])
      ensures offset.Int? && !(-|vec| <= offset.i < |vec|) ==> r == Ok(Null)
    {
      match OffsetExists(offset)
      case Err(e) => Err(e)
      case Ok(present) =>
        if !present then Ok(Null)
        else Ok(if offset.i >= 0 then vec[offset.i] else vec[|vec| + offset.i])
    }

    /** Vec::validateValueType, on the vector's own fields. */
    method VecValueType(value: Value) returns (ok: bool)
      modifies this`valueType, this`valueClass
      ensures Verdict(ok, State()) == StrictDynamic.Step(old(State()), value)
    {
      if valueType.None? {
        valueType := Some(TypeOf(value));
        if value.Obj? {
          valueClass := Some(value.cls);
        }
      }
      ok := StrictDynamic.KindAccepts(valueType.value, valueClass, value);
    }

    /** OptionalVec::validateValueType: null passes without binding; any
        other value goes through Vec's binding and switch. */
    method OptionalVecValueType(value: Value) returns (ok: bool)
      modifies this`valueType, this`valueClass
      ensures Verdict(ok, State()) == OptionalDynamic.Step(old(State()), value)
    {
      if value == Null {
        return true;
      }
      ok := VecValueType(value);
    }

    /** LenientVec::validateValueType, on the vector's own fields. */
    method LenientVecValueType(value: Value) returns (ok: bool)
      modifies this`valueType, this`valueClassProfile
      ensures Verdict(ok, State()) == LenientDynamic.Step(classes, old(State()), value)
    {
      if valueType.None? {
        valueType := Some(TypeOf(value));
        if value.Obj? {
          valueClassProfile := Some(ClassProfile(classes, value.cls));
        }
      }
      if valueType.value == Object {
        if !value.Obj? {
          return false;
        }
        var current := if valueClassProfile.Some? then valueClassProfile.value else {};
        var newProfile := current * ClassProfile(classes, value.cls);
        if newProfile == {} {
          return false;
        }
        valueClassProfile := Some(newProfile);
        ok := true;
      } else {
        ok := StrictDynamic.KindAccepts(valueType.value, None, value);
      }
    }

    /** LenientOptionalVec::validateValueType: null passes without binding or
        narrowing; any other value is judged as LenientVec judges it. */
    method LenientOptionalVecValueType(value: Value) returns (ok: bool)
      modifies this`valueType, this`valueClassProfile
      ensures Verdict(ok, State()) == LenientOptionalDynamic.Step(classes, old(State()), value)
    {
      if value == Null {
        return true;
      }
      ok := LenientVecValueType(value);
    }

    /** validateValueType of the vector's class. */
    method ValidateValueType(value: Value) returns (ok: bool)
      modifies this`valueType, this`valueClass, this`valueClassProfile
      ensures Verdict(ok, State()) == ValueType(policy, classes, old(State()), value)
    {
      match policy
      case Vec => ok := VecValueType(value);
      case OptionalVec => ok := OptionalVecValueType(value);
      case LenientVec => ok := LenientVecValueType(value);
      case LenientOptionalVec => ok := LenientOptionalVecValueType(value);
      case _ => ok := FixedValueType(policy, classes, value);
    }

    /** validateValue: TypeError for a refused type; the two unsigned classes
        then raise ValueError for a negative integer. */
    method ValidateValue(value: Value) returns (o: Outcome)
      modifies this`valueType, this`valueClass, this`valueClassProfile
      ensures Checked(o, State()) == Validate(policy, classes, old(State()), value)
    {
      var ok := ValidateValueType(value);
      if !ok {
        return Fail(TypeError);
      }
      o := Pass;
      if (policy == UIntVec || policy == OptionalUIntVec) && value.Int? && value.i < 0 {
        o := Fail(ValueError);
      }
    }

    /** The validation loop shared by push, unshift and insert: every value
        in order, up to the first that raises. */
    method ValidateEach(values: seq<Value>) returns (o: Outcome)
      requires Valid()
      modifies this`valueType, this`valueClass, this`valueClassProfile
      ensures Valid()
      ensures Checked(o, State()) == ValidateAll(policy, classes, old(State()), values)
      ensures o.Pass? ==> AllConform(policy, classes, State(), values)
    {
      var i := 0;
      while i < |values|
        invariant 0 <= i <= |values|
        invariant Valid()
        invariant ValidateAll(policy, classes, old(State()), values) == ValidateAll(policy, classes, State(), values[i..])
        invariant AllConform(policy, classes, State(), values[..i])
      {
        ValidatePreserves(policy, classes, State(), values[i], vec + values[..i]);
        assert values[i..][0] == values[i] && values[i..][1..] == values[i + 1..];
        o := ValidateValue(values[i]);
        if o.Fail? {
          return;
        }
        assert values[..i + 1] == values[..i] + [values[i]];
        i := i + 1;
      }
      assert values[..i] == values;
      o := Pass;
    }

    /** push: validates every value, then appends them all. */
    method Push(values: seq<Value>) returns (o: Outcome)
      requires Valid()
      modifies this`valueType, this`valueClass, this`valueClassProfile, this`vec
      ensures Valid()
      ensures var c := ValidateAll(policy, classes, old(State()), values);
              o == c.outcome && State() == c.state &&
              vec == if o.Pass? then old(vec) + values else old(vec)
    {
      o := ValidateEach(values);
      if o.Pass? {
        vec := vec + values;
      }
    }

    /** unshift: validates every value, then prepends them all, in order. */
    method Unshift(values: seq<Value>) returns (o: Outcome)
      requires Valid()
      modifies this`valueType, this`valueClass, this`valueClassProfile, this`vec
      ensures Valid()
      ensures var c := ValidateAll(policy, classes, old(State()), values);
              o == c.outcome && State() == c.state &&
              vec == if o.Pass? then values + old(vec) else old(vec)
    {
      o := ValidateEach(values);
      if o.Pass? {
        vec := values + vec;
      }
    }

    /** offsetSet: the value is validated first, whatever the offset; then a
        null offset appends, an existing offset is overwritten, an offset
        equal to the count appends, and any other offset raises. */
    method OffsetSet(offset: Value, value: Value) returns (o: Outcome)
      requires Valid()
      modifies this`valueType, this`valueClass, this`valueClassProfile, this`vec
      ensures Valid()
      ensures var c := Validate(policy, classes, old(State()), value);
              State() == c.state &&
              (c.outcome.Fail? ==> o == c.outcome && vec == old(vec)) &&
              (c.outcome.Pass? ==>
                 var r := SetAt(old(vec), offset, value);
                 (r.Err? ==> o == Fail(r.error) && vec == old(vec)) &&
                 (r.Ok? ==> o == Pass && vec == r.value))
    {
      ValidatePreserves(policy, classes, State(), value, vec);
      o := ValidateValue(value);
      if o.Fail? {
        return;
      }
      if offset == Null {
        vec := vec + [value];
        return;
      }
      var present := OffsetExists(offset);
      if present.Err? {
        return Fail(present.error);
      }
      if present.value || offset.i == |vec| {
        var realOffset := if offset.i >= 0 then offset.i else |vec| + offset.i;
        if realOffset == |vec| {
          vec := vec + [value];
        } else {
          UpdateMembers(vec, realOffset, value);
          vec := vec[realOffset := value];
        }
      } else {
        o := Fail(OutOfRange);
      }
    }

    /** offsetUnset: an existing element is removed, the list closed up, and
        a cursor at or after it stepped back. */
    method OffsetUnset(offset: Value) returns (o: Outcome)
      requires Valid()
      modifies this`vec, this`position
      ensures Valid()
      ensures var r := UnsetAt(old(vec), old(position), offset);
              (r.Err? ==> o == Fail(r.error) && vec == old(vec) && position == old(position)) &&
              (r.Ok? ==> o == Pass && vec == r.value.0 && position == r.value.1)
    {
      var present := OffsetExists(offset);
      if present.Err? {
        return Fail(present.error);
      }
      o := Pass;
      if present.value {
        var realOffset := if offset.i >= 0 then offset.i else |vec| + offset.i;
        vec := RemoveAt(vec, realOffset);
        if position >= realOffset {
          position := position - 1;
        }
      }
    }

    /** pop: the last element, removed through offsetUnset (which leaves a
        stored null in place). */
    method Pop() returns (r: Result<Value>)
      requires Valid()
      modifies this`vec, this`position
      ensures Valid()
      ensures old(vec) == [] ==> r == Err(Underflow) && vec == old(vec) && position == old(position)
      ensures old(vec) != [] ==>
                r == Ok(old(vec)[|old(vec)| - 1]) &&
                UnsetAt(old(vec), old(position), Int(|old(vec)| - 1)) == Ok((vec, position))
    {
      var lastIndex := |vec| - 1;
      if lastIndex == -1 {
        return Err(Underflow);
      }
      var lastValue := vec[lastIndex];
      var _ := OffsetUnset(Int(lastIndex));
      r := Ok(lastValue);
    }

    /** shift: the first element, removed through offsetUnset. */
    method Shift() returns (r: Result<Value>)
      requires Valid()
      modifies this`vec, this`position
      ensures Valid()
      ensures old(vec) == [] ==> r == Err(Underflow) && vec == old(vec) && position == old(position)
      ensures old(vec) != [] ==>
                r == Ok(old(vec)[0]) &&
                UnsetAt(old(vec), old(position), Int(0)) == Ok((vec, position))
    {
      if |vec| == 0 {
        return Err(Underflow);
      }
      var firstValue := vec[0];
      var _ := OffsetUnset(Int(0));
      r := Ok(firstValue);
    }

    /** remove: the element an existing index designates, removed through
        offsetUnset; any other index raises. */
    method Remove(index: int) returns (r: Result<Value>)
      requires Valid()
      modifies this`vec, this`position
      ensures Valid()
      ensures var k := Resolve(|old(vec)|, index);
              (!(0 <= k < |old(vec)| && old(vec)[k] != Null) ==>
                 r == Err(OutOfRange) && vec == old(vec) && position == old(position)) &&
              (0 <= k < |old(vec)| && old(vec)[k] != Null ==>
                 r == Ok(old(vec)[k]) && UnsetAt(old(vec), old(position), Int(index)) == Ok((vec, position)))
    {
      var present := OffsetExists(Int(index));
      if !present.value {
        return Err(OutOfRange);
      }
      var value := OffsetGet(Int(index));
      var _ := OffsetUnset(Int(index));
      r := Ok(value.value);
    }

    /** insert: the index is resolved once; the count appends, zero
        prepends, and an existing (non-null) position splices the values in
        with the two slices taken at the unresolved index. */
    method Insert(index: int, values: seq<Value>) returns (o: Outcome)
      requires Valid()
      modifies this`valueType, this`valueClass, this`valueClassProfile, this`vec
      ensures Valid()
      ensures Inserted(old(vec), index, values).None? ==>
                o == Fail(OutOfRange) && vec == old(vec) && State() == old(State())
      ensures Inserted(old(vec), index, values).Some? ==>
                var c := ValidateAll(policy, classes, old(State()), values);
                o == c.outcome && State() == c.state &&
                vec == if o.Pass? then Inserted(old(vec), index, values).value else old(vec)
    {
      var offset := if index >= 0 then index else |vec| + index;
      if offset == |vec| {
        o := Push(values);
      } else if offset == 0 {
        o := Unshift(values);
      } else {
        var present := OffsetExists(Int(offset));
        if present.value {
          o := ValidateEach(values);
          if o.Pass? {
            vec := ArraySlice(vec, 0, Some(index)) + values + ArraySlice(vec, index, None);
          }
        } else {
          o := Fail(OutOfRange);
        }
      }
    }

    /** slice: a copy holding `array_slice` of the list, cursor at zero. */
    method Slice(index: int, length: Option<int>) returns (r: Vector)
      requires Valid()
      ensures fresh(r) && r.Valid()
      ensures r.policy == policy && r.classes == classes && r.State() == State()
      ensures r.vec == ArraySlice(vec, index, length) && r.position == 0
    {
      var values := ArraySlice(vec, index, length);
      r := new Vector.Copy(this);
      r.vec := values;
      r.position := 0;
    }

    /** difference: a copy holding the values absent from every argument
        list, in their order, cursor rewound. */
    method Difference(others: seq<seq<Value>>) returns (r: Vector)
      requires Valid()
      ensures fresh(r) && r.Valid()
      ensures r.policy == policy && r.classes == classes && r.State() == State()
      ensures r.vec == PhpArrays.Difference(vec, others) && r.position == 0
    {
      r := new Vector.Copy(this);
      r.vec := PhpArrays.Difference(vec, others);
      r.Rewind();
    }

    /** intersection: a copy holding the values present in every argument
        list, in their order, cursor rewound. */
    method Intersection(others: seq<seq<Value>>) returns (r: Vector)
      requires Valid()
      ensures fresh(r) && r.Valid()
      ensures r.policy == policy && r.classes == classes && r.State() == State()
      ensures r.vec == PhpArrays.Intersection(vec, others) && r.position == 0
    {
      r := new Vector.Copy(this);
      r.vec := PhpArrays.Intersection(vec, others);
      r.Rewind();
    }

    /** merge: a copy that pushes each argument list in turn, cursor rewound.
        A list that raises makes merge raise; this vector is untouched either
        way. */
    method Merge(others: seq<seq<Value>>) returns (r: Result<Vector>)
      requires Valid()
      ensures var c := ValidateAll(policy, classes, State(), Concat(others));
              (c.outcome.Fail? ==> r == Err(c.outcome.error)) &&
              (c.outcome.Pass? ==> r.Ok? && fresh(r.value) && r.value.Valid() &&
                                   r.value.policy == policy && r.value.classes == classes &&
                                   r.value.vec == vec + Concat(others) && r.value.position == 0 &&
                                   r.value.State() == c.state)
    {
      var copy := new Vector.Copy(this);
      var k := 0;
      while k < |others|
        invariant 0 <= k <= |others|
        invariant fresh(copy) && copy.Valid()
        invariant copy.policy == policy && copy.classes == classes
        invariant copy.vec + Concat(others[k..]) == vec + Concat(others)
        invariant ValidateAll(policy, classes, State(), Concat(others)) ==
                  ValidateAll(policy, classes, copy.State(), Concat(others[k..]))
      {
        ConcatFrom(others, k);
        ghost var before, stored := copy.State(), copy.vec;
        ValidateAllAppend(policy, classes, before, others[k], Concat(others[k + 1..]));
        var o := copy.Push(others[k]);
        if o.Fail? {
          return Err(o.error);
        }
        assert copy.vec + Concat(others[k + 1..]) == stored + (others[k] + Concat(others[k + 1..]));
        k := k + 1;
      }
      assert others[k..] == [];
      copy.Rewind();
      r := Ok(copy);
    }
  }
}
