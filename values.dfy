/** Runtime values of the host language, their kinds (what `gettype` reports),
    the exceptions the vectors raise, and the class hierarchy that object
    values live in. */
module Values {

  datatype Option<T> = None | Some(value: T)

  /** TypeError, ValueError, OutOfRangeException and UnderflowException. */
  datatype Error = TypeError | ValueError | OutOfRange | Underflow

  /** Completion of an operation that returns nothing: a normal return, or an exception. */
  datatype Outcome = Pass | Fail(error: Error)

  /** Completion of an operation that returns a value. */
  datatype Result<T> = Ok(value: T) | Err(error: Error)

  type ClassName = string

  /** The runtime's class table: for each declared class, the names of its
      ancestor classes and of the interfaces it implements (what
      `class_parents` and `class_implements` report). A class missing from
      the table has neither. */
  type ClassTable = map<ClassName, set<ClassName>>

  /** A host value. Floats only ever matter as a kind, so a float is an opaque
      token; an object is its exact class plus an identity; a resource is a
      handle that may have been closed. */
  datatype Value =
    | Bool(b: bool)
    | Int(i: int)
    | Float(token: nat)
    | Str(s: string)
    | Arr(items: seq<Value>)
    | Obj(cls: ClassName, id: nat)
    | Res(handle: nat, closed: bool)
    | Null

  /** The answers of `gettype`: "boolean", "integer", "double", "string",
      "array", "object", "resource", "resource (closed)" and "NULL". */
  datatype Kind =
    | Boolean | Integer | Double | String | Array | Object | Resource | ClosedResource | NullType

  /** `gettype($v)`. */
  function TypeOf(v: Value): Kind {
    match v
    case Bool(_) => Boolean
    case Int(_) => Integer
    case Float(_) => Double
    case Str(_) => String
    case Arr(_) => Array
    case Obj(_, _) => Object
    case Res(_, closed) => if closed then ClosedResource else Resource
    case Null => NullType
  }

  /** getClassProfile: the class itself, its ancestors and its interfaces. */
  function ClassProfile(classes: ClassTable, cls: ClassName): (p: set<ClassName>)
    ensures cls in p
    ensures cls in classes ==> classes[cls] <= p
    ensures forall c :: c in p && c != cls ==> cls in classes && c in classes[cls]
  {
    {cls} + if cls in classes then classes[cls] else {}
  }

  /** `is_object($v) && is_a($v, $cls)`: `cls` is the object's class, one of
      its ancestors or one of its interfaces. */
  predicate IsA(classes: ClassTable, v: Value, cls: ClassName) {
    v.Obj? && cls in ClassProfile(classes, v.cls)
  }
}
