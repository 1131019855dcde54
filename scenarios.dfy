/** The behaviour the repository's test suite describes, stated on the model:
    the validation runs of the dynamic vectors, the index, insert, slice and
    set-operation examples, the cursor behaviour under removal, and the
    push/pop and unshift/shift round trips. */
module Scenarios {
  import opened Values
  import opened TypeStates
  import opened PhpArrays
  import opened Placement
  import opened Strategies
  import opened Engine

  /** Two result classes that share the interface they implement, and a
      class that shares nothing with them. */
  const ResultClasses: ClassTable := map["Ok" := {"Result"}, "Err" := {"Result"}, "stdClass" := {}]

  /** Vec and LenientVec bind on null as on anything else, so null cannot be
      mixed with integers in either order; the optional vectors accept both
      orders and bind to the integer kind. */
  lemma NullMixedWithIntegers()
    ensures ValidateAll(Vec, map[], Unbound, [Null, Int(5678)]).outcome == Fail(TypeError)
    ensures ValidateAll(Vec, map[], Unbound, [Int(5678), Null]).outcome == Fail(TypeError)
    ensures ValidateAll(LenientVec, map[], Unbound, [Null, Int(5678)]).outcome == Fail(TypeError)
    ensures ValidateAll(LenientVec, map[], Unbound, [Int(5678), Null]).outcome == Fail(TypeError)
    ensures ValidateAll(OptionalVec, map[], Unbound, [Null, Int(5678)]) ==
            Checked(Pass, TypeState(Some(Integer), None, None))
    ensures ValidateAll(OptionalVec, map[], Unbound, [Int(5678), Null]) ==
            Checked(Pass, TypeState(Some(Integer), None, None))
    ensures ValidateAll(LenientOptionalVec, map[], Unbound, [Null, Int(5678)]).outcome == Pass
    ensures ValidateAll(LenientOptionalVec, map[], Unbound, [Int(5678), Null]).outcome == Pass
  {
    NullBesideInteger(Vec);
    NullBesideInteger(LenientVec);
    NullBesideInteger(OptionalVec);
    NullBesideInteger(LenientOptionalVec);
  }

  /** One dynamic class on both orders of null and an integer. */
  lemma NullBesideInteger(p: Policy)
    requires p.IsDynamic()
    ensures var optional := p == OptionalVec || p == LenientOptionalVec;
            var c1, c2 := ValidateAll(p, map[], Unbound, [Null, Int(5678)]), ValidateAll(p, map[], Unbound, [Int(5678), Null]);
            (optional ==> c1 == c2 == Checked(Pass, TypeState(Some(Integer), None, None))) &&
            (!optional ==> c1.outcome == c2.outcome == Fail(TypeError))
  {
    ValidateAllPair(p, map[], Unbound, Null, Int(5678));
    ValidateAllPair(p, map[], Unbound, Int(5678), Null);
  }

  /** A batch of two values, unfolded. */
  function ValidatePair(p: Policy, classes: ClassTable, ts: TypeState, a: Value, b: Value): Checked {
    var c := Validate(p, classes, ts, a);
    if c.outcome.Fail? then c else Validate(p, classes, c.state, b)
  }

  lemma ValidateAllPair(p: Policy, classes: ClassTable, ts: TypeState, a: Value, b: Value)
    ensures ValidateAll(p, classes, ts, [a, b]) == ValidatePair(p, classes, ts, a, b)
  {
    assert [a, b][1..] == [b];
    assert [b][1..] == [];
  }

  /** A failing batch keeps the binding it made: a Vec that refuses
      `[3, "moo"]` stays bound to integers although nothing was stored. */
  lemma BindingSurvivesRefusedBatch()
    ensures ValidateAll(Vec, map[], Unbound, [Int(3), Str("moo")]) ==
            Checked(Fail(TypeError), TypeState(Some(Integer), None, None))
    ensures ValidateAll(OptionalVec, map[], Unbound, [Int(3), Str("moo")]) ==
            Checked(Fail(TypeError), TypeState(Some(Integer), None, None))
  {
    assert [Int(3), Str("moo")][1..] == [Str("moo")];
  }

  /** The bad-type runs of the four dynamic vectors: built from 3, each
      reads 3 back and refuses to append "moo", with the list left as it was
      and the integer binding kept. */
  method BadTypeRun(p: Policy) returns (read: Result<Value>, refused: Outcome, stored: seq<Value>, state: TypeState)
    requires p.IsDynamic()
    ensures read == Ok(Int(3)) && refused == Fail(TypeError) && stored == [Int(3)]
    ensures state == TypeState(Some(Integer), None, None)
  {
    var values := [Int(3)];
    assert values[1..] == [];
    var r := Vector.Create(p, map[], values);
    var v := r.value;
    read := v.OffsetGet(Int(0));
    refused := v.OffsetSet(Null, Str("moo"));
    stored := v.vec;
    state := v.State();
  }

  /** Vec binds the exact class of the first object: three `Ok` are taken,
      an `Err` is refused although both implement `Result`. */
  lemma VecExactClass()
    ensures var c := ValidateAll(Vec, ResultClasses, Unbound, [Obj("Ok", 1), Obj("Ok", 2), Obj("Ok", 4)]);
            c == Checked(Pass, TypeState(Some(Object), Some("Ok"), None)) &&
            Validate(Vec, ResultClasses, c.state, Obj("Err", 5)).outcome == Fail(TypeError)
  {
    var vs := [Obj("Ok", 1), Obj("Ok", 2), Obj("Ok", 4)];
    assert vs[1..] == [Obj("Ok", 2), Obj("Ok", 4)];
    assert vs[1..][1..] == [Obj("Ok", 4)];
  }

  /** LenientVec narrows to what the objects share: after three `Ok` the
      profile is {Ok, Result}; an `Err` is taken and narrows it to {Result};
      a `stdClass` shares nothing and is refused, leaving {Result}. */
  lemma LenientSharedInterface()
    ensures var c := ValidateAll(LenientVec, ResultClasses, Unbound,
                                 [Obj("Ok", 1), Obj("Ok", 2), Obj("Ok", 4), Obj("Err", 8)]);
            c == Checked(Pass, TypeState(Some(Object), None, Some({"Result"}))) &&
            Validate(LenientVec, ResultClasses, c.state, Obj("stdClass", 9)) == Checked(Fail(TypeError), c.state)
  {
    var bound := TypeState(Some(Object), None, Some({"Ok", "Result"}));
    var narrowed := TypeState(Some(Object), None, Some({"Result"}));
    LenientSteps(bound, narrowed);
    var a, b, c, e := Obj("Ok", 1), Obj("Ok", 2), Obj("Ok", 4), Obj("Err", 8);
    ValidateAllCons(LenientVec, ResultClasses, bound, e, []);
    ValidateAllCons(LenientVec, ResultClasses, bound, c, [e]);
    ValidateAllCons(LenientVec, ResultClasses, bound, b, [c, e]);
    ValidateAllCons(LenientVec, ResultClasses, Unbound, a, [b, c, e]);
  }

  /** The single validations of the run above. */
  lemma LenientSteps(bound: TypeState, narrowed: TypeState)
    requires bound == TypeState(Some(Object), None, Some({"Ok", "Result"}))
    requires narrowed == TypeState(Some(Object), None, Some({"Result"}))
    ensures Validate(LenientVec, ResultClasses, Unbound, Obj("Ok", 1)) == Checked(Pass, bound)
    ensures Validate(LenientVec, ResultClasses, bound, Obj("Ok", 2)) == Checked(Pass, bound)
    ensures Validate(LenientVec, ResultClasses, bound, Obj("Ok", 4)) == Checked(Pass, bound)
    ensures Validate(LenientVec, ResultClasses, bound, Obj("Err", 8)) == Checked(Pass, narrowed)
    ensures Validate(LenientVec, ResultClasses, narrowed, Obj("stdClass", 9)) == Checked(Fail(TypeError), narrowed)
  {
    assert ClassProfile(ResultClasses, "Ok") == {"Ok", "Result"};
    assert ClassProfile(ResultClasses, "Err") == {"Err", "Result"};
    assert {"Ok", "Result"} * {"Err", "Result"} == {"Result"};
    assert ClassProfile(ResultClasses, "stdClass") == {"stdClass"};
    assert {"Result"} * {"stdClass"} == {};
  }

  /** LenientOptionalVec does the same, and a null in between neither binds
      nor narrows. */
  lemma LenientOptionalSharedInterface()
    ensures var c := ValidateAll(LenientOptionalVec, ResultClasses, Unbound,
                                 [Obj("Ok", 1), Obj("Ok", 2), Obj("Ok", 4), Null, Obj("Err", 8)]);
            c == Checked(Pass, TypeState(Some(Object), None, Some({"Result"}))) &&
            Validate(LenientOptionalVec, ResultClasses, c.state, Obj("stdClass", 9)) == Checked(Fail(TypeError), c.state)
  {
    var bound := TypeState(Some(Object), None, Some({"Ok", "Result"}));
    var narrowed := TypeState(Some(Object), None, Some({"Result"}));
    LenientOptionalSteps(bound, narrowed);
    var a, b, c, d, e := Obj("Ok", 1), Obj("Ok", 2), Obj("Ok", 4), Null, Obj("Err", 8);
    ValidateAllCons(LenientOptionalVec, ResultClasses, bound, e, []);
    ValidateAllCons(LenientOptionalVec, ResultClasses, bound, d, [e]);
    ValidateAllCons(LenientOptionalVec, ResultClasses, bound, c, [d, e]);
    ValidateAllCons(LenientOptionalVec, ResultClasses, bound, b, [c, d, e]);
    ValidateAllCons(LenientOptionalVec, ResultClasses, Unbound, a, [b, c, d, e]);
  }

  /** The single validations of the run above. */
  lemma LenientOptionalSteps(bound: TypeState, narrowed: TypeState)
    requires bound == TypeState(Some(Object), None, Some({"Ok", "Result"}))
    requires narrowed == TypeState(Some(Object), None, Some({"Result"}))
    ensures Validate(LenientOptionalVec, ResultClasses, Unbound, Obj("Ok", 1)) == Checked(Pass, bound)
    ensures Validate(LenientOptionalVec, ResultClasses, bound, Obj("Ok", 2)) == Checked(Pass, bound)
    ensures Validate(LenientOptionalVec, ResultClasses, bound, Obj("Ok", 4)) == Checked(Pass, bound)
    ensures Validate(LenientOptionalVec, ResultClasses, bound, Null) == Checked(Pass, bound)
    ensures Validate(LenientOptionalVec, ResultClasses, bound, Obj("Err", 8)) == Checked(Pass, narrowed)
    ensures Validate(LenientOptionalVec, ResultClasses, narrowed, Obj("stdClass", 9)) == Checked(Fail(TypeError), narrowed)
  {
    assert ClassProfile(ResultClasses, "Ok") == {"Ok", "Result"};
    assert ClassProfile(ResultClasses, "Err") == {"Err", "Result"};
    assert {"Ok", "Result"} * {"Err", "Result"} == {"Result"};
    assert ClassProfile(ResultClasses, "stdClass") == {"stdClass"};
    assert {"Result"} * {"stdClass"} == {};
  }

  /** A passing first element hands its type-state on to the rest of the batch. */
  lemma ValidateAllCons(p: Policy, classes: ClassTable, ts: TypeState, v: Value, rest: seq<Value>)
    requires Validate(p, classes, ts, v).outcome == Pass
    ensures ValidateAll(p, classes, ts, [v] + rest) == ValidateAll(p, classes, Validate(p, classes, ts, v).state, rest)
  {
    assert ([v] + rest)[1..] == rest;
  }

  /** The unsigned vectors: a negative integer is a ValueError, a non-integer
      a TypeError, and zero passes. */
  lemma UnsignedChecks()
    ensures ValidateAll(UIntVec, map[], Unbound, [Int(1), Int(0), Int(-1)]).outcome == Fail(ValueError)
    ensures ValidateAll(UIntVec, map[], Unbound, [Int(1), Str("1")]).outcome == Fail(TypeError)
    ensures ValidateAll(OptionalUIntVec, map[], Unbound, [Null, Int(0), Null]).outcome == Pass
    ensures ValidateAll(OptionalUIntVec, map[], Unbound, [Null, Int(-3)]).outcome == Fail(ValueError)
  {
    var xs := [Int(1), Int(0), Int(-1)];
    assert xs == [Int(1), Int(0), Int(-1)];
    assert xs[1..] == [Int(0), Int(-1)];
    assert xs[1..][1..] == [Int(-1)];
    assert [Int(1), Str("1")][1..] == [Str("1")];
    assert [Null, Int(0), Null][1..] == [Int(0), Null];
    assert [Null, Int(0), Null][1..][1..] == [Null];
    assert [Null, Int(-3)][1..] == [Int(-3)];
  }

  /** The slice examples: `slice(4, 2)`, `slice(6)`, `slice(-2)` and
      `slice(4, -2)` of [1, 2, 4, ..., 128]. */
  lemma SliceExamples()
    ensures ArraySlice([Int(1), Int(2), Int(4), Int(8), Int(16), Int(32), Int(64), Int(128)], 4, Some(2)) == [Int(16), Int(32)]
    ensures ArraySlice([Int(1), Int(2), Int(4), Int(8), Int(16), Int(32), Int(64), Int(128)], 6, None) == [Int(64), Int(128)]
    ensures ArraySlice([Int(1), Int(2), Int(4), Int(8), Int(16), Int(32), Int(64), Int(128)], -2, None) == [Int(64), Int(128)]
    ensures ArraySlice([Int(1), Int(2), Int(4), Int(8), Int(16), Int(32), Int(64), Int(128)], 4, Some(-2)) == [Int(16), Int(32)]
  {
    var s := [Int(1), Int(2), Int(4), Int(8), Int(16), Int(32), Int(64), Int(128)];
    assert s[4..6] == [Int(16), Int(32)];
    assert s[6..8] == [Int(64), Int(128)];
  }

  /** difference of [1, 2, 5] with [1, 2, 3]: only 5 survives. */
  lemma DifferenceExample()
    ensures Difference([Int(1), Int(2), Int(5)], [[Int(1), Int(2), Int(3)]]) == [Int(5)]
  {
    var o := [Int(1), Int(2), Int(3)];
    assert Int(1) in o && Int(2) in o && Int(5) !in o;
    var s := [Int(1), Int(2), Int(5)];
    assert s[1..] == [Int(2), Int(5)] && s[1..][1..] == [Int(5)] && s[1..][1..][1..] == [];
  }

  /** intersection of [1, 2, 5] with [1, 2, 3]: 1 and 2 survive, in order. */
  lemma IntersectionExample()
    ensures Intersection([Int(1), Int(2), Int(5)], [[Int(1), Int(2), Int(3)]]) == [Int(1), Int(2)]
  {
    var o := [Int(1), Int(2), Int(3)];
    assert Int(1) in o && Int(2) in o && Int(5) !in o;
    var s := [Int(1), Int(2), Int(5)];
    assert s[1..] == [Int(2), Int(5)] && s[1..][1..] == [Int(5)] && s[1..][1..][1..] == [];
  }

  /** insert in the middle: `insert(2, "e", "r")` on q, w, t, y, stated for
      any four values whose third is not null. */
  lemma InsertInMiddleExample(q: Value, w: Value, t: Value, y: Value, e: Value, r: Value)
    requires t != Null
    ensures Inserted([q, w] + [t, y], 2, [e, r]) == Some([q, w] + [e, r] + [t, y])
  {
    InsertedAtSeam([q, w], [t, y], [e, r]);
  }

  /** insert past the count: `insert(4, "!")` on three values raises. */
  lemma InsertPastCountExample()
    ensures Inserted([Str("just"), Str("some"), Str("data")], 4, [Str("!")]).None?
  {
    InsertedAtResolved([Str("just"), Str("some"), Str("data")], 4, [Str("!")]);
  }

  /** insert from the end: `insert(-1, x)` puts `x` before the last element
      (the suite inserts 3 into [1, 3, 7]). */
  lemma InsertFromEndExample(a: Value, b: Value, c: Value, x: Value)
    requires c != Null
    ensures Inserted([a, b, c], -1, [x]) == Some([a, b] + [x] + [c])
  {
    var t := [a, b, c];
    InsertedAtResolved(t, -1, [x]);
    assert t[..2] == [a, b];
    assert t[2..] == [c];
  }

  /** An index below minus the count: the double resolution turns -5 on a
      three-element list into a prepend, and -7 is out of range. */
  lemma InsertBelowStartExamples()
    ensures Inserted([Int(1), Int(3), Int(7)], -5, [Int(0)]) == Some([Int(0), Int(1), Int(3), Int(7)])
    ensures Inserted([Int(1), Int(3), Int(7)], -7, [Int(0)]).None?
  {
    var s := [Int(1), Int(3), Int(7)];
    assert |s| == 3 && s[1] == Int(3);
    InsertedBelowStart(s, -5, [Int(0)]);
    assert [Int(0)] + s == [Int(0), Int(1), Int(3), Int(7)];
    InsertedBelowStart(s, -7, [Int(0)]);
  }

  /** Offsets count from the end when negative: `get(-k)` is `get(n - k)`. */
  lemma NegativeOffsetMirrors(v: Vector, k: int)
    requires 1 <= k <= |v.vec|
    ensures v.OffsetGet(Int(-k)) == v.OffsetGet(Int(|v.vec| - k))
    ensures v.OffsetGet(Int(-k)).Ok?
  {
  }

  /** `push(x)` then `pop()` hands back x and restores the list, for any
      value the vector accepts that is not null. The cursor steps back when it
      stood on the popped element or beyond. */
  method PushThenPop(v: Vector, x: Value) returns (pushed: Outcome, popped: Result<Value>)
    requires v.Valid() && x != Null
    modifies v
    ensures v.Valid()
    ensures pushed.Pass? ==> popped == Ok(x) && v.vec == old(v.vec)
    ensures pushed.Pass? ==> v.position == if old(v.position) >= |old(v.vec)| then old(v.position) - 1 else old(v.position)
  {
    pushed := v.Push([x]);
    popped := v.Pop();
    if pushed.Pass? {
      UnsetLastRestores(old(v.vec), x, old(v.position));
    }
  }

  /** `unshift(x)` then `shift()` hands back x and restores the list. */
  method UnshiftThenShift(v: Vector, x: Value) returns (unshifted: Outcome, shifted: Result<Value>)
    requires v.Valid() && x != Null
    modifies v
    ensures v.Valid()
    ensures unshifted.Pass? ==> shifted == Ok(x) && v.vec == old(v.vec)
  {
    unshifted := v.Unshift([x]);
    shifted := v.Shift();
    if unshifted.Pass? {
      UnsetFirstRestores(old(v.vec), x, old(v.position));
    }
  }

  /** Reads and writes through negative offsets, and a write one past the
      start that is out of range. */
  method NegativeIndexRun() returns (first: Result<Value>, last: Result<Value>, beyond: Result<Value>,
                                    written: seq<Value>, tooFar: Outcome)
    ensures first == Ok(Int(19567)) && last == Ok(Int(80)) && beyond == Ok(Null)
    ensures written == [Int(19567), Int(21541), Int(8000)] && tooFar == Fail(OutOfRange)
  {
    var values := [Int(19567), Int(21541), Int(80)];
    assert values == [Int(19567), Int(21541), Int(80)];
    assert values[1..] == [Int(21541), Int(80)] && values[1..][1..] == [Int(80)];
    var r := Vector.Create(Vec, map[], values);
    var v := r.value;
    first := v.OffsetGet(Int(-3));
    last := v.OffsetGet(Int(-1));
    beyond := v.OffsetGet(Int(-4));
    var o := v.OffsetSet(Int(-1), Int(8000));
    written := v.vec;
    tooFar := v.OffsetSet(Int(-4), Int(1337));
  }

  /** Unsetting the element under the cursor moves the cursor back, so the
      next step lands on the element that followed it: a loop that unsets
      every odd key of [1, 2, 4, 8] sees the keys 0, 1, 1, 1 and leaves [1]. */
  method UnsetUnderCursor() returns (keys: seq<int>, remaining: seq<Value>)
    ensures keys == [0, 1, 1, 1] && remaining == [Int(1)]
  {
    var values := [Int(1), Int(2), Int(4), Int(8)];
    assert values[1..] == [Int(2), Int(4), Int(8)] && values[1..][1..] == [Int(4), Int(8)];
    assert values[1..][1..][1..] == [Int(8)];
    var r := Vector.Create(Vec, map[], values);
    var v := r.value;
    v.Rewind();
    keys := [v.Key()];
    var k := StepAndUnset(v);
    assert v.vec == [Int(1), Int(4), Int(8)];
    keys := keys + [k];
    k := StepAndUnset(v);
    assert v.vec == [Int(1), Int(8)];
    keys := keys + [k];
    k := StepAndUnset(v);
    keys := keys + [k];
    v.Next();
    remaining := v.vec;
  }

  /** One turn of that loop from the first element: step to key 1 and unset
      it; the cursor is back on the first element. */
  method StepAndUnset(v: Vector) returns (k: int)
    requires v.Valid() && v.position == 0 && |v.vec| >= 2 && v.vec[1] != Null
    modifies v
    ensures v.Valid() && k == 1 && v.position == 0
    ensures v.vec == [old(v.vec)[0]] + old(v.vec)[2..]
  {
    v.Next();
    k := v.Key();
    var o := v.OffsetUnset(Int(k));
  }

  /** Unsetting the first element under a cursor at zero puts the cursor at
      -1, where `valid` is false; the next step lands on the new first
      element. */
  method CursorBelowStart() returns (below: int, valid: bool, next: Value)
    ensures below == -1 && !valid && next == Int(2)
  {
    var values := [Int(1), Int(2)];
    assert values[1..] == [Int(2)];
    var r := Vector.Create(IntVec, map[], values);
    var v := r.value;
    var o := v.OffsetUnset(Int(0));
    below := v.Key();
    valid := v.CursorValid();
    v.Next();
    next := v.Current();
  }
}
