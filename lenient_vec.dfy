/** LenientVec: like Vec for scalar kinds, but objects need only share a class,
    ancestor or interface with every object accepted before; the shared set
    (the profile) shrinks by intersection and never grows. */
module LenientDynamic {
  import opened Values
  import opened TypeStates
  import StrictDynamic

  /** The first use: `$valueType = gettype($value)` and, for an object,
      `$valueClassProfile = getClassProfile(get_class($value))`. */
  function Bind(classes: ClassTable, ts: TypeState, v: Value): (b: TypeState)
    ensures b.valueType.Some?
    ensures ts.valueType.Some? ==> b == ts
    ensures ts.valueType.None? ==> b.valueType == Some(TypeOf(v))
    ensures ts.valueType.None? && v.Obj? ==> b.profile == Some(ClassProfile(classes, v.cls))
  {
    if ts.valueType.Some? then ts
    else ts.(valueType := Some(TypeOf(v)),
             profile := if v.Obj? then Some(ClassProfile(classes, v.cls)) else ts.profile)
  }

  /** LenientVec::validateValueType. The object case intersects the profile
      with the value's own profile (`array_intersect_key`) and, when the
      intersection is not empty, keeps it. An unset profile behaves as the
      empty one: the intersection is empty and the value is refused. */
  function Step(classes: ClassTable, ts: TypeState, v: Value): (r: Verdict)
    ensures !r.ok ==> r.next == ts
    ensures ts.valueType.Some? ==> r.next.valueType == ts.valueType && r.next.valueClass == ts.valueClass
    ensures ts.valueType.Some? && ts.valueType.value != Object ==>
              r.next == ts &&
              (r.ok <==> TypeOf(v) == ts.valueType.value ||
                         (ts.valueType.value == ClosedResource && TypeOf(v) == Resource))
    ensures ts.valueType.None? ==> r.ok && r.next.valueType == Some(TypeOf(v))
    ensures ts.valueType.None? && v.Obj? ==> r.next.profile == Some(ClassProfile(classes, v.cls))
    ensures ts.valueType == Some(Object) ==>
              (r.ok <==> v.Obj? && ts.profile.Some? && ts.profile.value * ClassProfile(classes, v.cls) != {})
    ensures ts.valueType == Some(Object) && r.ok ==>
              r.next.profile == Some(ts.profile.value * ClassProfile(classes, v.cls))
    ensures ts.valueType.Some? && ts.profile.Some? ==> r.next.profile.Some? && r.next.profile.value <= ts.profile.value
  {
    var b := Bind(classes, ts, v);
    match b.valueType.value
    case Object =>
      if !v.Obj? then Verdict(false, b)
      else
        var newProfile := (if b.profile.Some? then b.profile.value else {}) * ClassProfile(classes, v.cls);
        assert ts.valueType.None? ==> newProfile == ClassProfile(classes, v.cls);
        if newProfile == {} then Verdict(false, b)
        else Verdict(true, b.(profile := Some(newProfile)))
    case _ =>
      Verdict(StrictDynamic.KindAccepts(b.valueType.value, None, v), b)
  }
}
