/** LenientOptionalVec: null is always accepted and neither binds nor narrows;
    every non-null value is judged as in LenientVec. */
module LenientOptionalDynamic {
  import opened Values
  import opened TypeStates
  import LenientDynamic

  /** LenientOptionalVec::validateValueType. Past the early return for null
      its code is LenientVec's; its switch lacks the "NULL" case, which a
      non-null value fails in LenientVec too. */
  function Step(classes: ClassTable, ts: TypeState, v: Value): (r: Verdict)
    ensures v == Null ==> r == Verdict(true, ts)
    ensures !r.ok ==> r.next == ts
    ensures ts.valueType.Some? ==> r.next.valueType == ts.valueType && r.next.valueClass == ts.valueClass
    ensures ts.valueType.None? ==> r.ok
    ensures ts.valueType.None? && v != Null ==> r.next.valueType == Some(TypeOf(v))
    ensures ts.valueType.None? && v.Obj? ==> r.next.profile == Some(ClassProfile(classes, v.cls))
    ensures ts.valueType.Some? && ts.valueType.value != Object && v != Null ==>
              r.next == ts &&
              (r.ok <==> TypeOf(v) == ts.valueType.value ||
                         (ts.valueType.value == ClosedResource && TypeOf(v) == Resource))
    ensures ts.valueType == Some(Object) && v != Null ==>
              (r.ok <==> v.Obj? && ts.profile.Some? && ts.profile.value * ClassProfile(classes, v.cls) != {})
    ensures ts.valueType == Some(Object) && v != Null && r.ok ==>
              r.next.profile == Some(ts.profile.value * ClassProfile(classes, v.cls))
    ensures ts.valueType.Some? && ts.profile.Some? ==> r.next.profile.Some? && r.next.profile.value <= ts.profile.value
  {
    if v == Null then Verdict(true, ts) else LenientDynamic.Step(classes, ts, v)
  }
}
