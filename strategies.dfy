/** The validation strategy of each concrete vector class, as the engine's
    `validateValue` sees it: the class's `validateValueType` (which the
    dynamic classes let update their type-state), the TypeError that a
    refusal raises, and the sign check that the two unsigned classes add.
    Batches are validated value by value and stop at the first refusal. */
module Strategies {
  import opened Values
  import opened TypeStates
  import StrictDynamic
  import OptionalDynamic
  import LenientDynamic
  import LenientOptionalDynamic
  import Scalar
  import OptionalScalar
  import Traits

  /** The concrete vector class. An object vector built on one of the two
      traits carries the class or interface its `getValueType()` names. */
  datatype Policy =
    | Vec | OptionalVec | LenientVec | LenientOptionalVec
    | BoolVec | IntVec | UIntVec | FloatVec | StringVec
    | OptionalBoolVec | OptionalIntVec | OptionalUIntVec | OptionalFloatVec | OptionalStringVec
    | ObjectVec(declared: ClassName)
    | LenientOptionalObjectVec(declared: ClassName)
  {
    /** The classes whose type-state binds lazily. */
    predicate IsDynamic() {
      Vec? || OptionalVec? || LenientVec? || LenientOptionalVec?
    }
  }

  /** What `validateValue` does with one value: its completion, and the
      type-state left behind (whether or not it raised). */
  datatype Checked = Checked(outcome: Outcome, state: TypeState)

  /** The one kind a fixed class admits besides null. */
  function FixedKind(p: Policy): Kind
    requires !p.IsDynamic()
  {
    match p
    case BoolVec => Boolean
    case OptionalBoolVec => Boolean
    case IntVec => Integer
    case UIntVec => Integer
    case OptionalIntVec => Integer
    case OptionalUIntVec => Integer
    case FloatVec => Double
    case OptionalFloatVec => Double
    case StringVec => String
    case OptionalStringVec => String
    case ObjectVec(_) => Object
    case LenientOptionalObjectVec(_) => Object
  }

  /** The fixed classes that also admit null. */
  predicate AdmitsNull(p: Policy) {
    p.OptionalBoolVec? || p.OptionalIntVec? || p.OptionalUIntVec? || p.OptionalFloatVec? ||
    p.OptionalStringVec? || p.LenientOptionalObjectVec?
  }

  /** validateValueType of the classes without state. */
  function FixedValueType(p: Policy, classes: ClassTable, v: Value): (r: bool)
    requires !p.IsDynamic()
    ensures v == Null ==> (r <==> AdmitsNull(p))
    ensures v != Null && r ==> TypeOf(v) == FixedKind(p)
    ensures v != Null && FixedKind(p) != Object ==> (r <==> TypeOf(v) == FixedKind(p))
  {
    match p
    case BoolVec => Scalar.BoolVecValueType(v)
    case IntVec => Scalar.IntVecValueType(v)
    case UIntVec => Scalar.UIntVecValueType(v)
    case FloatVec => Scalar.FloatVecValueType(v)
    case StringVec => Scalar.StringVecValueType(v)
    case OptionalBoolVec => OptionalScalar.OptionalBoolVecValueType(v)
    case OptionalIntVec => OptionalScalar.OptionalIntVecValueType(v)
    case OptionalUIntVec => OptionalScalar.OptionalUIntVecValueType(v)
    case OptionalFloatVec => OptionalScalar.OptionalFloatVecValueType(v)
    case OptionalStringVec => OptionalScalar.OptionalStringVecValueType(v)
    case ObjectVec(declared) => Traits.ObjectValueType(declared, v)
    case LenientOptionalObjectVec(declared) => Traits.LenientOptionalObjectValueType(classes, declared, v)
  }

  /** validateValueType of the concrete class. */
  function ValueType(p: Policy, classes: ClassTable, ts: TypeState, v: Value): (r: Verdict)
    ensures !r.ok ==> r.next == ts
    ensures !p.IsDynamic() ==> r.next == ts
    ensures p.IsDynamic() && ts.valueType.None? ==> r.ok
    ensures p.IsDynamic() && ts.valueType.Some? ==> r.next.valueType == ts.valueType && r.next.valueClass == ts.valueClass
  {
    match p
    case Vec => StrictDynamic.Step(ts, v)
    case OptionalVec => OptionalDynamic.Step(ts, v)
    case LenientVec => LenientDynamic.Step(classes, ts, v)
    case LenientOptionalVec => LenientOptionalDynamic.Step(classes, ts, v)
    case _ => Verdict(FixedValueType(p, classes, v), ts)
  }

  /** validateValue: a refused type raises TypeError; UIntVec and
      OptionalUIntVec override it to add their sign check. */
  function Validate(p: Policy, classes: ClassTable, ts: TypeState, v: Value): (c: Checked)
    ensures c.outcome.Fail? ==> c.state == ts
    ensures !p.IsDynamic() ==> c.state == ts
    ensures p.IsDynamic() && ts.valueType.None? ==> c.outcome == Pass
    ensures c.outcome.Fail? ==> c.outcome.error == TypeError || c.outcome.error == ValueError
    ensures c.outcome == Fail(ValueError) ==> (p == UIntVec || p == OptionalUIntVec) && v.Int? && v.i < 0
  {
    match p
    case UIntVec => Checked(Scalar.UIntVecValidateValue(v), ts)
    case OptionalUIntVec => Checked(OptionalScalar.OptionalUIntVecValidateValue(v), ts)
    case _ =>
      var r := ValueType(p, classes, ts, v);
      Checked(if r.ok then Pass else Fail(TypeError), r.next)
  }

  /** The shape of the fields: a class is recorded exactly when Vec or
      OptionalVec is bound to objects, a profile (never empty) exactly when a
      lenient vector is, the optional vectors never bind to null, and the
      fixed vectors have no type-state at all. */
  predicate WellFormed(p: Policy, ts: TypeState) {
    match p
    case Vec =>
      ts.profile.None? && (ts.valueClass.Some? <==> ts.valueType == Some(Object))
    case OptionalVec =>
      ts.profile.None? && (ts.valueClass.Some? <==> ts.valueType == Some(Object)) &&
      ts.valueType != Some(NullType)
    case LenientVec =>
      ts.valueClass.None? && (ts.profile.Some? <==> ts.valueType == Some(Object)) &&
      (ts.profile.Some? ==> ts.profile.value != {})
    case LenientOptionalVec =>
      ts.valueClass.None? && (ts.profile.Some? <==> ts.valueType == Some(Object)) &&
      (ts.profile.Some? ==> ts.profile.value != {}) && ts.valueType != Some(NullType)
    case _ => ts == Unbound
  }

  /** `later` is `earlier` or a refinement of it: a binding, once made, is
      kept, and a class profile, once set, only shrinks. */
  predicate Refines(later: TypeState, earlier: TypeState) {
    (earlier.valueType.Some? ==> later.valueType == earlier.valueType && later.valueClass == earlier.valueClass) &&
    (earlier.profile.Some? ==> later.profile.Some? && later.profile.value <= earlier.profile.value)
  }

  /** A stored value is one the current type-state accepts again without
      changing. */
  predicate Conforms(p: Policy, classes: ClassTable, ts: TypeState, v: Value) {
    Validate(p, classes, ts, v) == Checked(Pass, ts)
  }

  predicate AllConform(p: Policy, classes: ClassTable, ts: TypeState, s: seq<Value>) {
    forall x :: x in s ==> Conforms(p, classes, ts, x)
  }

  /** The validation loop of push and unshift: value by value, in argument
      order, stopping at the first value that raises. */
  function ValidateAll(p: Policy, classes: ClassTable, ts: TypeState, vs: seq<Value>): (c: Checked)
    ensures c.outcome.Fail? ==> c.outcome.error == TypeError || c.outcome.error == ValueError
    ensures vs == [] ==> c == Checked(Pass, ts)
    decreases |vs|
  {
    if vs == [] then Checked(Pass, ts)
    else
      var c := Validate(p, classes, ts, vs[0]);
      if c.outcome.Fail? then c else ValidateAll(p, classes, c.state, vs[1..])
  }

  /** One validation keeps the fields well formed and only refines the type-state. */
  lemma ValidateRefines(p: Policy, classes: ClassTable, ts: TypeState, v: Value)
    requires WellFormed(p, ts)
    ensures WellFormed(p, Validate(p, classes, ts, v).state)
    ensures Refines(Validate(p, classes, ts, v).state, ts)
  {
  }

  /** An accepted value conforms to the type-state it leaves behind, and a
      value that conformed before still conforms afterwards: a binding or a
      narrowing made for one value never invalidates the values stored
      earlier. */
  lemma ValidateKeepsConformance(p: Policy, classes: ClassTable, ts: TypeState, v: Value, u: Value)
    requires WellFormed(p, ts)
    ensures Validate(p, classes, ts, v).outcome.Pass? ==> Conforms(p, classes, Validate(p, classes, ts, v).state, v)
    ensures Conforms(p, classes, ts, u) ==> Conforms(p, classes, Validate(p, classes, ts, v).state, u)
  {
    match p
    case Vec => StrictKeepsConformance(p, classes, ts, v, u);
    case OptionalVec => StrictKeepsConformance(p, classes, ts, v, u);
    case LenientVec => LenientKeepsConformance(classes, ts, v, u);
    case LenientOptionalVec => LenientOptionalKeepsConformance(classes, ts, v, u);
    case _ => FixedKeepsConformance(p, classes, ts, v, u);
  }

  /** Vec and OptionalVec: a binding is made once and then only compared with. */
  lemma StrictKeepsConformance(p: Policy, classes: ClassTable, ts: TypeState, v: Value, u: Value)
    requires p == Vec || p == OptionalVec
    requires WellFormed(p, ts)
    ensures Validate(p, classes, ts, v).outcome.Pass? ==> Conforms(p, classes, Validate(p, classes, ts, v).state, v)
    ensures Conforms(p, classes, ts, u) ==> Conforms(p, classes, Validate(p, classes, ts, v).state, u)
  {
  }

  /** LenientOptionalVec: null conforms always; any other value as in LenientVec. */
  lemma LenientOptionalKeepsConformance(classes: ClassTable, ts: TypeState, v: Value, u: Value)
    requires WellFormed(LenientOptionalVec, ts)
    ensures var c := Validate(LenientOptionalVec, classes, ts, v);
            (c.outcome.Pass? ==> Conforms(LenientOptionalVec, classes, c.state, v)) &&
            (Conforms(LenientOptionalVec, classes, ts, u) ==> Conforms(LenientOptionalVec, classes, c.state, u))
  {
    var c := Validate(LenientOptionalVec, classes, ts, v);
    if v != Null {
      LenientKeepsConformance(classes, ts, v, u);
    }
    if u != Null && c.outcome.Pass? {
      assert LenientOptionalDynamic.Step(classes, c.state, u) == LenientDynamic.Step(classes, c.state, u);
    }
  }

  /** Without a type-state, conformance is acceptance and nothing changes. */
  lemma FixedKeepsConformance(p: Policy, classes: ClassTable, ts: TypeState, v: Value, u: Value)
    requires !p.IsDynamic()
    ensures Validate(p, classes, ts, v).outcome.Pass? ==> Conforms(p, classes, Validate(p, classes, ts, v).state, v)
    ensures Conforms(p, classes, ts, u) ==> Conforms(p, classes, Validate(p, classes, ts, v).state, u)
  {
  }

  lemma LenientKeepsConformance(classes: ClassTable, ts: TypeState, v: Value, u: Value)
    requires ts.valueClass.None? && (ts.profile.Some? <==> ts.valueType == Some(Object))
    requires ts.profile.Some? ==> ts.profile.value != {}
    ensures var r := LenientDynamic.Step(classes, ts, v);
            (r.ok ==> LenientDynamic.Step(classes, r.next, v) == Verdict(true, r.next)) &&
            (u != Null && LenientDynamic.Step(classes, ts, u) == Verdict(true, ts) ==>
               LenientDynamic.Step(classes, r.next, u) == Verdict(true, r.next))
  {
    var r := LenientDynamic.Step(classes, ts, v);
    if r.ok && r.next.valueType == Some(Object) {
      var p := r.next.profile.value;
      assert p <= ClassProfile(classes, v.cls);
      assert p * ClassProfile(classes, v.cls) == p;
    }
    if u != Null && LenientDynamic.Step(classes, ts, u) == Verdict(true, ts) && ts.valueType == Some(Object) {
      var p0 := ts.profile.value;
      assert p0 * ClassProfile(classes, u.cls) == p0;
      var p := r.next.profile.value;
      assert p <= p0;
      assert p * ClassProfile(classes, u.cls) == p;
    }
  }

  /** One validation, seen from a vector: the fields stay well formed, the
      stored values keep conforming, and an accepted value conforms too. */
  lemma ValidatePreserves(p: Policy, classes: ClassTable, ts: TypeState, v: Value, stored: seq<Value>)
    requires WellFormed(p, ts) && AllConform(p, classes, ts, stored)
    ensures var c := Validate(p, classes, ts, v);
            WellFormed(p, c.state) && Refines(c.state, ts) && AllConform(p, classes, c.state, stored) &&
            (c.outcome.Pass? ==> Conforms(p, classes, c.state, v))
  {
    ValidateRefines(p, classes, ts, v);
    ValidateKeepsConformance(p, classes, ts, v, v);
    forall u | u in stored ensures Conforms(p, classes, Validate(p, classes, ts, v).state, u) {
      ValidateKeepsConformance(p, classes, ts, v, u);
    }
  }

  lemma RefinesTransitive(a: TypeState, b: TypeState, c: TypeState)
    requires Refines(b, a) && Refines(c, b)
    ensures Refines(c, a)
  {
  }

  /** Validating a batch keeps the fields well formed, only refines the
      type-state, keeps every stored value conforming, and on success leaves
      every value of the batch conforming as well. */
  lemma {:induction false} ValidateAllPreserves(p: Policy, classes: ClassTable, ts: TypeState, vs: seq<Value>, stored: seq<Value>)
    requires WellFormed(p, ts) && AllConform(p, classes, ts, stored)
    ensures var c := ValidateAll(p, classes, ts, vs);
            WellFormed(p, c.state) && Refines(c.state, ts) && AllConform(p, classes, c.state, stored) &&
            (c.outcome.Pass? ==> AllConform(p, classes, c.state, vs))
    decreases |vs|
  {
    if vs != [] {
      var c0 := Validate(p, classes, ts, vs[0]);
      ValidateRefines(p, classes, ts, vs[0]);
      var more := stored + [vs[0]];
      forall u | u in stored ensures Conforms(p, classes, c0.state, u) {
        ValidateKeepsConformance(p, classes, ts, vs[0], u);
      }
      if c0.outcome.Pass? {
        ValidateKeepsConformance(p, classes, ts, vs[0], vs[0]);
        assert AllConform(p, classes, c0.state, more);
        ValidateAllPreserves(p, classes, c0.state, vs[1..], more);
        var c := ValidateAll(p, classes, c0.state, vs[1..]);
        RefinesTransitive(ts, c0.state, c.state);
        assert forall x :: x in stored ==> x in more;
        if c.outcome.Pass? {
          assert vs[0] in more;
          assert forall x :: x in vs ==> x == vs[0] || x in vs[1..];
        }
      }
    }
  }

  /** Validating `a + b` is validating `a` and, if that passed, validating
      `b` from the type-state `a` left: the argument lists of merge can be
      checked one after the other or all at once. */
  lemma {:induction false} ValidateAllAppend(p: Policy, classes: ClassTable, ts: TypeState, a: seq<Value>, b: seq<Value>)
    ensures ValidateAll(p, classes, ts, a + b) ==
            var c := ValidateAll(p, classes, ts, a);
            if c.outcome.Fail? then c else ValidateAll(p, classes, c.state, b)
    decreases |a|
  {
    if a == [] {
      assert a + b == b;
    } else {
      assert (a + b)[0] == a[0];
      assert (a + b)[1..] == a[1..] + b;
      var c0 := Validate(p, classes, ts, a[0]);
      if c0.outcome.Pass? {
        ValidateAllAppend(p, classes, c0.state, a[1..], b);
      }
    }
  }

  /** While no validation can change the type-state, a batch passes exactly
      when every value of it passes on its own, and the state stays put. */
  lemma {:induction false} StableBatch(p: Policy, classes: ClassTable, ts: TypeState, vs: seq<Value>)
    requires forall v :: Validate(p, classes, ts, v).state == ts
    ensures ValidateAll(p, classes, ts, vs).state == ts
    ensures ValidateAll(p, classes, ts, vs).outcome.Pass? <==>
            forall v :: v in vs ==> Validate(p, classes, ts, v).outcome.Pass?
    decreases |vs|
  {
    if vs != [] {
      StableBatch(p, classes, ts, vs[1..]);
      assert forall x :: x in vs <==> x == vs[0] || x in vs[1..];
    }
  }

  /** The fixed vectors have no fields: a verdict never depends on earlier
      insertions, and a batch is all-or-nothing on per-value checks. */
  lemma FixedVerdictIgnoresHistory(p: Policy, classes: ClassTable, ts1: TypeState, ts2: TypeState, v: Value, vs: seq<Value>)
    requires !p.IsDynamic()
    ensures Validate(p, classes, ts1, v).outcome == Validate(p, classes, ts2, v).outcome
    ensures ValidateAll(p, classes, ts1, vs).state == ts1
    ensures ValidateAll(p, classes, ts1, vs).outcome.Pass? <==>
            forall x :: x in vs ==> Validate(p, classes, ts1, x).outcome.Pass?
  {
    StableBatch(p, classes, ts1, vs);
  }

  /** Once Vec or OptionalVec is bound, its binding never changes and a batch
      passes exactly when all of its values match the bound kind (and class). */
  lemma BoundStrictBatch(p: Policy, classes: ClassTable, ts: TypeState, vs: seq<Value>)
    requires (p == Vec || p == OptionalVec) && ts.valueType.Some?
    ensures ValidateAll(p, classes, ts, vs).state == ts
    ensures ValidateAll(p, classes, ts, vs).outcome.Pass? <==>
            forall x :: x in vs ==> (p == OptionalVec && x == Null) ||
                                    StrictDynamic.KindAccepts(ts.valueType.value, ts.valueClass, x)
  {
    StableBatch(p, classes, ts, vs);
  }
}
