/** The fixed scalar vectors (BoolVec, IntVec, UIntVec, FloatVec, StringVec):
    stateless acceptance predicates on a single value. */
module Scalar {
  import opened Values

  /** BoolVec::validateValueType: `is_bool`. */
  function BoolVecValueType(v: Value): (r: bool)
    ensures r <==> TypeOf(v) == Boolean
  {
    v.Bool?
  }

  /** IntVec::validateValueType: `is_int`. */
  function IntVecValueType(v: Value): (r: bool)
    ensures r <==> TypeOf(v) == Integer
  {
    v.Int?
  }

  /** FloatVec::validateValueType: `is_float`. */
  function FloatVecValueType(v: Value): (r: bool)
    ensures r <==> TypeOf(v) == Double
  {
    v.Float?
  }

  /** StringVec::validateValueType: `is_string`. */
  function StringVecValueType(v: Value): (r: bool)
    ensures r <==> TypeOf(v) == String
  {
    v.Str?
  }

  /** UIntVec::validateValueType: `is_int`. */
  function UIntVecValueType(v: Value): (r: bool)
    ensures r <==> TypeOf(v) == Integer
  {
    v.Int?
  }

  /** UIntVec::validateValue: the inherited type check, which raises
      TypeError, and only then the sign check, which raises ValueError. */
  function UIntVecValidateValue(v: Value): (o: Outcome)
    ensures o == Pass <==> v.Int? && v.i >= 0
    ensures o == Fail(TypeError) <==> TypeOf(v) != Integer
    ensures o == Fail(ValueError) <==> v.Int? && v.i < 0
  {
    if !UIntVecValueType(v) then Fail(TypeError)
    else if v.i < 0 then Fail(ValueError)
    else Pass
  }

  lemma BoolVecAcceptsBooleans()
    ensures forall v :: BoolVecValueType(v) <==> TypeOf(v) == Boolean
    ensures BoolVecValueType(Bool(true)) && BoolVecValueType(Bool(false))
    ensures !BoolVecValueType(Int(0)) && !BoolVecValueType(Int(1)) && !BoolVecValueType(Null)
  {
  }

  lemma IntVecAcceptsIntegers()
    ensures forall v :: IntVecValueType(v) <==> TypeOf(v) == Integer
    ensures forall i :: IntVecValueType(Int(i))
    ensures !IntVecValueType(Null) && !IntVecValueType(Bool(true)) && !IntVecValueType(Str("1"))
    ensures forall t :: !IntVecValueType(Float(t))
  {
  }

  lemma FloatVecAcceptsFloats()
    ensures forall v :: FloatVecValueType(v) <==> TypeOf(v) == Double
    ensures forall i :: !FloatVecValueType(Int(i))
    ensures !FloatVecValueType(Null)
  {
  }

  lemma StringVecAcceptsStrings()
    ensures forall v :: StringVecValueType(v) <==> TypeOf(v) == String
    ensures forall s :: StringVecValueType(Str(s))
    ensures forall i :: !StringVecValueType(Int(i))
    ensures !StringVecValueType(Null)
  {
  }
}
