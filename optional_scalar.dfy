/** The fixed optional scalar vectors (OptionalBoolVec, OptionalIntVec,
    OptionalUIntVec, OptionalFloatVec, OptionalStringVec): the scalar
    predicates widened by null. */
module OptionalScalar {
  import opened Values

  /** OptionalBoolVec::validateValueType: `is_bool($value) || $value === null`. */
  function OptionalBoolVecValueType(v: Value): (r: bool)
    ensures r <==> TypeOf(v) == Boolean || TypeOf(v) == NullType
  {
    v.Bool? || v == Null
  }

  /** OptionalIntVec::validateValueType. */
  function OptionalIntVecValueType(v: Value): (r: bool)
    ensures r <==> TypeOf(v) == Integer || TypeOf(v) == NullType
  {
    v.Int? || v == Null
  }

  /** OptionalFloatVec::validateValueType. */
  function OptionalFloatVecValueType(v: Value): (r: bool)
    ensures r <==> TypeOf(v) == Double || TypeOf(v) == NullType
  {
    v.Float? || v == Null
  }

  /** OptionalStringVec::validateValueType. */
  function OptionalStringVecValueType(v: Value): (r: bool)
    ensures r <==> TypeOf(v) == String || TypeOf(v) == NullType
  {
    v.Str? || v == Null
  }

  /** OptionalUIntVec::validateValueType. */
  function OptionalUIntVecValueType(v: Value): (r: bool)
    ensures r <==> TypeOf(v) == Integer || TypeOf(v) == NullType
  {
    v.Int? || v == Null
  }

  /** OptionalUIntVec::validateValue: the inherited type check, then a sign
      check that null skips. */
  function OptionalUIntVecValidateValue(v: Value): (o: Outcome)
    ensures o == Pass <==> v == Null || (v.Int? && v.i >= 0)
    ensures o == Fail(TypeError) <==> TypeOf(v) != Integer && TypeOf(v) != NullType
    ensures o == Fail(ValueError) <==> v.Int? && v.i < 0
  {
    if !OptionalUIntVecValueType(v) then Fail(TypeError)
    else if v != Null && v.i < 0 then Fail(ValueError)
    else Pass
  }

  lemma OptionalBoolVecAcceptsBooleansAndNull()
    ensures forall v :: OptionalBoolVecValueType(v) <==> TypeOf(v) in {Boolean, NullType}
    ensures OptionalBoolVecValueType(Bool(true)) && OptionalBoolVecValueType(Null)
    ensures !OptionalBoolVecValueType(Int(0)) && !OptionalBoolVecValueType(Str(""))
  {
  }

  lemma OptionalIntVecAcceptsIntegersAndNull()
    ensures forall v :: OptionalIntVecValueType(v) <==> TypeOf(v) in {Integer, NullType}
    ensures forall i :: OptionalIntVecValueType(Int(i))
    ensures OptionalIntVecValueType(Null)
    ensures !OptionalIntVecValueType(Bool(false)) && !OptionalIntVecValueType(Str("1"))
  {
  }

  lemma OptionalFloatVecAcceptsFloatsAndNull()
    ensures forall v :: OptionalFloatVecValueType(v) <==> TypeOf(v) in {Double, NullType}
    ensures OptionalFloatVecValueType(Null)
    ensures forall i :: !OptionalFloatVecValueType(Int(i))
  {
  }

  lemma OptionalStringVecAcceptsStringsAndNull()
    ensures forall v :: OptionalStringVecValueType(v) <==> TypeOf(v) in {String, NullType}
    ensures OptionalStringVecValueType(Null) && OptionalStringVecValueType(Str("asdf"))
    ensures !OptionalStringVecValueType(Int(5))
  {
  }
}
