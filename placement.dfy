/** Where the engine's positional operations put or take values, once the
    values themselves have been accepted: `offsetSet`, `offsetUnset` (with
    the cursor adjustment that follows it) and `insert`. */
module Placement {
  import opened Values
  import opened PhpArrays

  /** The list offsetSet leaves behind for an accepted value: a null offset
      appends; an integer offset overwrites an element that `isset` sees, and
      an offset equal to the count appends; any other integer is out of
      range; any other offset is refused by validateOffset. */
  function SetAt(s: seq<Value>, offset: Value, value: Value): (r: Result<seq<Value>>)
    ensures offset == Null ==> r == Ok(s + [value])
    ensures r.Err? ==> r.error == TypeError || r.error == OutOfRange
    ensures r.Err? && r.error == TypeError <==> offset != Null && !offset.Int?
    ensures r.Ok? ==> r.value == s + [value] ||
                      exists k :: 0 <= k < |s| && s[k] != Null && r.value == s[k := value]
    ensures r.Ok? ==> value in r.value && forall x :: x in r.value ==> x in s || x == value
  {
    if offset == Null then Ok(s + [value])
    else if !offset.Int? then Err(TypeError)
    else if HasOffset(s, offset.i) then
      var k := Resolve(|s|, offset.i);
      UpdateMembers(s, k, value);
      Ok(s[k := value])
    else if offset.i == |s| then Ok(s + [value])
    else Err(OutOfRange)
  }

  lemma UpdateMembers(s: seq<Value>, k: nat, value: Value)
    requires k < |s|
    ensures value in s[k := value]
    ensures forall x :: x in s[k := value] ==> x in s || x == value
  {
    assert s[k := value][k] == value;
    forall x | x in s[k := value] ensures x in s || x == value {
      var j :| 0 <= j < |s| && s[k := value][j] == x;
      if j != k {
        assert s[j] == x;
      }
    }
  }

  /** Both directions for an integer offset: it overwrites exactly when it
      resolves to a non-null element, appends exactly when it equals the
      count, and is out of range otherwise. In particular a stored null can
      never be overwritten in place. */
  lemma SetAtAddresses(s: seq<Value>, i: int, value: Value)
    ensures var k := Resolve(|s|, i);
            (0 <= k < |s| && s[k] != Null ==> SetAt(s, Int(i), value) == Ok(s[k := value])) &&
            (i == |s| ==> SetAt(s, Int(i), value) == Ok(s + [value])) &&
            (!(0 <= k < |s| && s[k] != Null) && i != |s| ==> SetAt(s, Int(i), value) == Err(OutOfRange))
  {
    HasOffsetResolves(s, i);
  }

  /** offsetUnset on the list and the cursor: an offset `isset` sees is
      removed and the rest closed up, and a cursor at or after it steps
      back by one; a null or missing element leaves both alone. */
  function UnsetAt(s: seq<Value>, position: int, offset: Value): (r: Result<(seq<Value>, int)>)
    ensures r.Err? <==> !offset.Int?
    ensures r.Err? ==> r.error == TypeError
    ensures r.Ok? ==> |s| - 1 <= |r.value.0| <= |s|
    ensures r.Ok? ==> forall x :: x in r.value.0 ==> x in s
    ensures r.Ok? && position >= -1 ==> r.value.1 >= -1
  {
    if !offset.Int? then Err(TypeError)
    else if HasOffset(s, offset.i) then
      var k := Resolve(|s|, offset.i);
      Ok((RemoveAt(s, k), if position >= k then position - 1 else position))
    else Ok((s, position))
  }

  /** A non-null element at the resolved offset is removed, and only one
      occurrence of it, and the cursor steps back exactly when it was at or
      after that element; anything else changes nothing. */
  lemma UnsetRemovesOne(s: seq<Value>, position: int, i: int)
    ensures var k := Resolve(|s|, i);
            (0 <= k < |s| && s[k] != Null ==>
               UnsetAt(s, position, Int(i)).value.0 == s[..k] + s[k + 1..] &&
               multiset(UnsetAt(s, position, Int(i)).value.0) + multiset{s[k]} == multiset(s) &&
               (UnsetAt(s, position, Int(i)).value.1 == position - 1 <==> position >= k) &&
               (position < k ==> UnsetAt(s, position, Int(i)).value.1 == position)) &&
            (!(0 <= k < |s| && s[k] != Null) ==> UnsetAt(s, position, Int(i)) == Ok((s, position)))
  {
    HasOffsetResolves(s, i);
    var k := Resolve(|s|, i);
    if 0 <= k < |s| && s[k] != Null {
      assert s == s[..k] + [s[k]] + s[k + 1..];
      assert multiset(s) == multiset(s[..k]) + multiset{s[k]} + multiset(s[k + 1..]);
    }
  }

  /** The cursor adjustment keeps iteration in step: a cursor on another
      element still designates that element, and a cursor on the removed
      element moves back so that `next` lands on the element that followed
      it. */
  lemma UnsetKeepsCursorInStep(s: seq<Value>, position: int, i: int)
    requires HasOffset(s, i) && 0 <= position < |s|
    ensures var k := Resolve(|s|, i);
            var r := UnsetAt(s, position, Int(i)).value;
            (position != k ==> 0 <= r.1 < |r.0| && r.0[r.1] == s[position]) &&
            (position == k ==> r.1 == k - 1 && (k + 1 < |s| ==> r.0[r.1 + 1] == s[k + 1]))
  {
  }

  /** Popping right after pushing a non-null value restores the list. */
  lemma UnsetLastRestores(s: seq<Value>, x: Value, position: int)
    requires x != Null
    ensures UnsetAt(s + [x], position, Int(|s|)) ==
            Ok((s, if position >= |s| then position - 1 else position))
  {
    assert (s + [x])[..|s|] + (s + [x])[|s| + 1..] == s;
  }

  /** Shifting right after unshifting a non-null value restores the list. */
  lemma UnsetFirstRestores(s: seq<Value>, x: Value, position: int)
    requires x != Null
    ensures UnsetAt([x] + s, position, Int(0)) ==
            Ok((s, if position >= 0 then position - 1 else position))
  {
    assert ([x] + s)[..0] + ([x] + s)[1..] == s;
  }

  /** `r` is `s` with `values` spliced in before position `k`. */
  predicate SplicedAt(s: seq<Value>, values: seq<Value>, k: int, r: seq<Value>) {
    0 <= k <= |s| && r == s[..k] + values + s[k..]
  }

  /** The list insert leaves behind once its values are accepted, or None
      where it raises OutOfRangeException. The index is resolved once for the
      push and unshift cases and for the test, which `offsetExists` resolves
      a second time, but the two slices receive the index unresolved. */
  function Inserted(s: seq<Value>, index: int, values: seq<Value>): (r: Option<seq<Value>>)
    ensures r.Some? ==> exists k :: SplicedAt(s, values, k, r.value)
    ensures r.Some? ==> multiset(r.value) == multiset(s) + multiset(values)
  {
    var n := |s|;
    var offset := Resolve(n, index);
    if offset == n then
      assert SplicedAt(s, values, n, s + values);
      Some(s + values)
    else if offset == 0 then
      assert SplicedAt(s, values, 0, values + s);
      Some(values + s)
    else if HasOffset(s, offset) then
      var k := if index < -n then 0 else Resolve(n, index);
      RawSlicesAround(s, index);
      var r := ArraySlice(s, 0, Some(index)) + values + ArraySlice(s, index, None);
      assert SplicedAt(s, values, k, r);
      assert s == s[..k] + s[k..];
      Some(r)
    else None
  }

  /** The two raw slices insert takes are the prefix before and the suffix
      from the resolved index, or from the start when it resolves below it. */
  lemma RawSlicesAround(s: seq<Value>, index: int)
    requires Resolve(|s|, index) <= |s|
    ensures var k := if index < -|s| then 0 else Resolve(|s|, index);
            ArraySlice(s, 0, Some(index)) == s[..k] && ArraySlice(s, index, None) == s[k..]
  {
    if index < -|s| {
      SliceBeforeStart(s, index);
    } else {
      SliceAroundResolved(s, index);
    }
  }

  /** For an index that resolves into the list (or just past it), insert
      splices the values in before the resolved position, unless a null sits
      there: `isset` does not see it, and the insert is out of range. An
      index that resolves past the end is out of range. */
  lemma InsertedAtResolved(s: seq<Value>, index: int, values: seq<Value>)
    requires Resolve(|s|, index) >= 0
    ensures var k := Resolve(|s|, index);
            (k == 0 || k == |s| || (k < |s| && s[k] != Null) ==> Inserted(s, index, values) == Some(s[..k] + values + s[k..])) &&
            (0 < k < |s| && s[k] == Null ==> Inserted(s, index, values).None?) &&
            (k > |s| ==> Inserted(s, index, values).None?)
  {
    var k := Resolve(|s|, index);
    if k == |s| {
      assert s[..k] + values + s[k..] == s + values;
    } else if k == 0 {
      assert s[..k] + values + s[k..] == values + s;
    } else if k < |s| && s[k] != Null {
      SliceAroundResolved(s, index);
    }
  }

  /** Inserting at the seam of a + b, in front of a non-null element, gives a + values + b. */
  lemma InsertedAtSeam(a: seq<Value>, b: seq<Value>, values: seq<Value>)
    requires b != [] && b[0] != Null
    ensures Inserted(a + b, |a|, values) == Some(a + values + b)
  {
    var s := a + b;
    InsertedAtResolved(s, |a|, values);
    assert s[..|a|] == a && s[|a|..] == b;
  }

  /** An index below minus the count is resolved twice on the way to the
      existence test: between -2n and -n-1 it passes whenever the element at
      2n + index is not null, and the untouched index then makes both slices
      put the values in front of the whole list. Below -2n it is out of
      range. */
  lemma InsertedBelowStart(s: seq<Value>, index: int, values: seq<Value>)
    requires index < -|s|
    ensures -2 * |s| <= index && s[2 * |s| + index] != Null ==> Inserted(s, index, values) == Some(values + s)
    ensures (index < -2 * |s| || s[2 * |s| + index] == Null) ==> Inserted(s, index, values).None?
  {
    SliceBeforeStart(s, index);
    assert ArraySlice(s, 0, Some(index)) + values + ArraySlice(s, index, None) == values + s;
  }
}
