/** OptionalVec: null is always accepted and never binds; the first non-null
    value binds the kind (and class) as in Vec. */
module OptionalDynamic {
  import opened Values
  import opened TypeStates
  import StrictDynamic

  /** OptionalVec::validateValueType. Past the early return for null its
      binding and switch are Vec's; the switch has no "NULL" case, which a
      non-null value fails in Vec's switch too. */
  function Step(ts: TypeState, v: Value): (r: Verdict)
    ensures v == Null ==> r == Verdict(true, ts)
    ensures ts.valueType.Some? ==> r.next == ts
    ensures ts.valueType.None? ==> r.ok
    ensures ts.valueType.None? && v != Null ==> r.next.valueType == Some(TypeOf(v))
    ensures ts.valueType.None? && v.Obj? ==> r.next.valueClass == Some(v.cls)
    ensures ts.valueType != Some(NullType) ==> r.next.valueType != Some(NullType)
    ensures ts.valueType.Some? && ts.valueType.value != Object && v != Null ==>
              (r.ok <==> TypeOf(v) == ts.valueType.value ||
                         (ts.valueType.value == ClosedResource && TypeOf(v) == Resource))
    ensures ts.valueType == Some(Object) ==> (r.ok <==> v == Null || (v.Obj? && ts.valueClass == Some(v.cls)))
  {
    if v == Null then Verdict(true, ts)
    else
      var b := StrictDynamic.Bind(ts, v);
      Verdict(StrictDynamic.KindAccepts(b.valueType.value, b.valueClass, v), b)
  }
}
