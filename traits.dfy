/** The two object-vector traits: a declared class (`getValueType()`, fixed
    per concrete vector) and a stateless check against it. */
module Traits {
  import opened Values

  /** ObjectValueType::validateValueType: an object of exactly the declared class. */
  function ObjectValueType(declared: ClassName, v: Value): (r: bool)
    ensures r <==> TypeOf(v) == Object && v.cls == declared
  {
    v.Obj? && v.cls == declared
  }

  /** LenientOptionalObjectValueType::validateValueType: null, or an object
      that `is_a` the declared class or interface. */
  function LenientOptionalObjectValueType(classes: ClassTable, declared: ClassName, v: Value): (r: bool)
    ensures v == Null ==> r
    ensures v != Null ==> (r <==> TypeOf(v) == Object && (v.cls == declared || (v.cls in classes && declared in classes[v.cls])))
  {
    v == Null || IsA(classes, v, declared)
  }

  /** The exact-class check: a subclass instance, null and every non-object
      are rejected, even where the lenient trait would accept. */
  lemma ObjectValueTypeIsExactClass(classes: ClassTable, declared: ClassName)
    ensures forall v :: ObjectValueType(declared, v) <==> TypeOf(v) == Object && v.cls == declared
    ensures forall sub, id :: sub != declared ==> !ObjectValueType(declared, Obj(sub, id))
    ensures forall sub, id :: sub in classes && declared in classes[sub] ==>
              LenientOptionalObjectValueType(classes, declared, Obj(sub, id))
    ensures !ObjectValueType(declared, Null)
  {
  }

  /** The lenient check: null always passes; an object passes exactly when the
      declared name is its class, an ancestor, or an implemented interface;
      every other value fails. */
  lemma LenientOptionalObjectValueTypeIsA(classes: ClassTable, declared: ClassName)
    ensures LenientOptionalObjectValueType(classes, declared, Null)
    ensures forall c, id :: LenientOptionalObjectValueType(classes, declared, Obj(c, id)) <==>
              c == declared || (c in classes && declared in classes[c])
    ensures forall v :: v != Null && !v.Obj? ==> !LenientOptionalObjectValueType(classes, declared, v)
  {
  }
}
