/** Vec: the kind (and, for objects, the exact class) of the first value ever
    validated is bound for good; every later value must match it exactly. */
module StrictDynamic {
  import opened Values
  import opened TypeStates

  /** The kind switch of validateValueType once a kind is bound. `get_class`
      on a non-object raises a TypeError of its own; it counts as a rejection.
      The closed-resource case (`is_resource` or any other non-null,
      non-scalar, non-array, non-object value) admits every resource. */
  function KindAccepts(valueType: Kind, valueClass: Option<ClassName>, v: Value): (r: bool)
    ensures valueType != Object && valueType != ClosedResource ==> (r <==> TypeOf(v) == valueType)
    ensures valueType == ClosedResource ==> (r <==> TypeOf(v) == Resource || TypeOf(v) == ClosedResource)
    ensures valueType == Object ==> (r <==> TypeOf(v) == Object && valueClass == Some(v.cls))
  {
    match valueType
    case Boolean => v.Bool?
    case Integer => v.Int?
    case Double => v.Float?
    case String => v.Str?
    case Array => v.Arr?
    case Object => v.Obj? && valueClass == Some(v.cls)
    case Resource => v.Res? && !v.closed
    case ClosedResource => v.Res?
    case NullType => v == Null
  }

  /** The first use: `$valueType = gettype($value)` and, for an object,
      `$valueClass = get_class($value)`. A bound state is left alone. */
  function Bind(ts: TypeState, v: Value): (b: TypeState)
    ensures b.valueType.Some?
    ensures ts.valueType.Some? ==> b == ts
    ensures ts.valueType.None? ==> b.valueType == Some(TypeOf(v))
    ensures ts.valueType.None? && v.Obj? ==> b.valueClass == Some(v.cls)
  {
    if ts.valueType.Some? then ts
    else ts.(valueType := Some(TypeOf(v)), valueClass := if v.Obj? then Some(v.cls) else ts.valueClass)
  }

  /** Vec::validateValueType. */
  function Step(ts: TypeState, v: Value): (r: Verdict)
    ensures ts.valueType.Some? ==> r.next == ts
    ensures ts.valueType.None? ==> r.ok && r.next.valueType == Some(TypeOf(v))
    ensures ts.valueType.None? && v.Obj? ==> r.next.valueClass == Some(v.cls)
    ensures ts.valueType.Some? && ts.valueType.value != Object ==>
              (r.ok <==> TypeOf(v) == ts.valueType.value ||
                         (ts.valueType.value == ClosedResource && TypeOf(v) == Resource))
    ensures ts.valueType == Some(Object) ==> (r.ok <==> v.Obj? && ts.valueClass == Some(v.cls))
  {
    var b := Bind(ts, v);
    Verdict(KindAccepts(b.valueType.value, b.valueClass, v), b)
  }

  /** The switch accepts every value of the kind it is bound to, so the value
      that binds the state is always accepted. */
  lemma KindAcceptsOwnKind(v: Value, valueClass: Option<ClassName>)
    requires v.Obj? ==> valueClass == Some(v.cls)
    ensures KindAccepts(TypeOf(v), valueClass, v)
  {
  }
}
