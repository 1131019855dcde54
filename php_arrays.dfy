/** The host-array operations the vector engine is built from, on the engine's
    always-contiguous lists: index resolution, `isset`, `array_slice`,
    `unset` followed by `array_values`, `array_diff` and `array_intersect`
    followed by `array_values`, and the flattening of several argument lists. */
module PhpArrays {
  import opened Values

  /** A negative index counts from the end; it is not bounds-checked. */
  function Resolve(n: nat, index: int): (k: int)
    ensures index >= 0 ==> k == index
    ensures index < 0 ==> k < n && k == n + index
    ensures 0 <= k < n <==> -(n as int) <= index < n
  {
    if index >= 0 then index else n + index
  }

  /** `isset($s[k])`: `k` is a key of the list and the element there is not null. */
  predicate IsSet(s: seq<Value>, k: int) {
    0 <= k < |s| && s[k] != Null
  }

  /** The test of `offsetExists` on an integer offset. */
  predicate HasOffset(s: seq<Value>, offset: int) {
    if offset >= 0 then IsSet(s, offset) else IsSet(s, |s| + offset)
  }

  lemma HasOffsetResolves(s: seq<Value>, offset: int)
    ensures HasOffset(s, offset) <==> IsSet(s, Resolve(|s|, offset))
    ensures HasOffset(s, offset) <==> -(|s| as int) <= offset < |s| && s[Resolve(|s|, offset)] != Null
    ensures 1 <= -offset <= |s| ==> (HasOffset(s, offset) <==> HasOffset(s, |s| + offset))
  {
  }

  /** The clamping rules of `array_slice($s, $offset, $length)`: an offset
      beyond the end selects nothing, a negative offset counts from the end
      (and stops at the start), a missing length runs to the end, a negative
      length stops that many elements before the end, and a length that
      reaches past the end stops at the end. */
  function SliceBounds(n: nat, offset: int, length: Option<int>): (b: (nat, nat))
    ensures b.0 <= b.1 <= n
  {
    var len := if length.None? then n else length.value;
    if offset > n then (0, 0)
    else
      var start := if offset >= 0 then offset else if n + offset < 0 then 0 else n + offset;
      var count := if len < 0 then n - start + len
                   else if start + len > n then n - start
                   else len;
      if count <= 0 then (0, 0) else (start, start + count)
  }

  /** `array_slice($s, $offset, $length, false)`. */
  function ArraySlice(s: seq<Value>, offset: int, length: Option<int>): (r: seq<Value>)
    ensures |r| <= |s|
    ensures forall x :: x in r ==> x in s
  {
    var b := SliceBounds(|s|, offset, length);
    assert forall x :: x in s[b.0..b.1] ==> x in s by {
      forall x | x in s[b.0..b.1] ensures x in s {
        var j :| 0 <= j < b.1 - b.0 && s[b.0..b.1][j] == x;
        assert s[b.0 + j] == x;
      }
    }
    s[b.0..b.1]
  }

  function Clamp(x: int, n: nat): nat {
    if x < 0 then 0 else if x > n then n else x
  }

  /** The same selection described independently: the start is the offset
      (from the end when negative) clamped into the list; the end is the start
      plus the length, or the length counted from the end when negative, or
      the end of the list when there is no length, clamped likewise. */
  lemma ArraySliceIsClampedRange(s: seq<Value>, offset: int, length: Option<int>)
    ensures var n := |s|;
            var lo := Clamp(if offset >= 0 then offset else n + offset, n);
            var hi := match length
                      case None => n
                      case Some(l) => Clamp(if l >= 0 then lo + l else n + l, n);
            ArraySlice(s, offset, length) == if lo <= hi then s[lo..hi] else []
  {
  }

  /** Slicing off a prefix of any (raw) length and slicing from that same
      offset to the end always puts the list back together. This holds for
      every integer, including the negative ones that `insert` passes
      through unresolved. */
  lemma SliceSplit(s: seq<Value>, index: int)
    ensures ArraySlice(s, 0, Some(index)) + ArraySlice(s, index, None) == s
  {
    var n := |s|;
    if index > n {
      assert ArraySlice(s, 0, Some(index)) == s[0..n];
    } else if index >= 0 {
      assert ArraySlice(s, 0, Some(index)) == s[..index];
      assert ArraySlice(s, index, None) == s[index..];
    } else if n + index >= 0 {
      assert ArraySlice(s, 0, Some(index)) == s[..n + index];
      assert ArraySlice(s, index, None) == s[n + index..];
    } else {
      assert ArraySlice(s, 0, Some(index)) == [];
      assert ArraySlice(s, index, None) == s[0..n];
    }
  }

  /** For an index that resolves inside the list, the two raw slices are the
      prefix before and the suffix from the resolved position. */
  lemma SliceAroundResolved(s: seq<Value>, index: int)
    requires 0 <= Resolve(|s|, index) <= |s|
    ensures ArraySlice(s, 0, Some(index)) == s[..Resolve(|s|, index)]
    ensures ArraySlice(s, index, None) == s[Resolve(|s|, index)..]
  {
    var k := Resolve(|s|, index);
    if index >= 0 {
      assert SliceBounds(|s|, index, None) == (if k < |s| then (k, |s|) else (0, 0));
    }
  }

  /** An index more negative than the length selects an empty prefix and the
      whole list as suffix. */
  lemma SliceBeforeStart(s: seq<Value>, index: int)
    requires index < -|s|
    ensures ArraySlice(s, 0, Some(index)) == []
    ensures ArraySlice(s, index, None) == s
  {
    if |s| > 0 {
      assert SliceBounds(|s|, index, None) == (0, |s|);
    }
  }

  /** `unset($s[k])` followed by `array_values`: the element at `k` is removed
      and the ones after it move down by one. */
  function RemoveAt(s: seq<Value>, k: nat): (r: seq<Value>)
    requires k < |s|
    ensures |r| == |s| - 1
    ensures forall j :: 0 <= j < k ==> r[j] == s[j]
    ensures forall j :: k <= j < |r| ==> r[j] == s[j + 1]
    ensures forall x :: x in r ==> x in s
  {
    s[..k] + s[k + 1..]
  }

  predicate AbsentFromAll(x: Value, others: seq<seq<Value>>) {
    forall o :: o in others ==> x !in o
  }

  predicate PresentInAll(x: Value, others: seq<seq<Value>>) {
    forall o :: o in others ==> x in o
  }

  /** `array_values(array_diff($s, ...$others))`, comparing by value. */
  function Difference(s: seq<Value>, others: seq<seq<Value>>): (r: seq<Value>)
    ensures |r| <= |s|
    ensures forall x :: x in r <==> x in s && AbsentFromAll(x, others)
  {
    if s == [] then []
    else
      var rest := Difference(s[1..], others);
      assert forall x :: x in s <==> x == s[0] || x in s[1..];
      if AbsentFromAll(s[0], others) then [s[0]] + rest else rest
  }

  /** `array_values(array_intersect($s, ...$others))`, comparing by value. */
  function Intersection(s: seq<Value>, others: seq<seq<Value>>): (r: seq<Value>)
    ensures |r| <= |s|
    ensures forall x :: x in r <==> x in s && PresentInAll(x, others)
  {
    if s == [] then []
    else
      var rest := Intersection(s[1..], others);
      assert forall x :: x in s <==> x == s[0] || x in s[1..];
      if PresentInAll(s[0], others) then [s[0]] + rest else rest
  }

  /** The difference keeps the order of `s`: it distributes over
      concatenation, so each element's place among the survivors is its
      place in `s`. */
  lemma {:induction false} DifferenceAppend(a: seq<Value>, b: seq<Value>, others: seq<seq<Value>>)
    ensures Difference(a + b, others) == Difference(a, others) + Difference(b, others)
  {
    if a == [] {
      assert a + b == b;
    } else {
      assert (a + b)[1..] == a[1..] + b;
      DifferenceAppend(a[1..], b, others);
    }
  }

  /** The intersection keeps the order of `s` in the same way. */
  lemma {:induction false} IntersectionAppend(a: seq<Value>, b: seq<Value>, others: seq<seq<Value>>)
    ensures Intersection(a + b, others) == Intersection(a, others) + Intersection(b, others)
  {
    if a == [] {
      assert a + b == b;
    } else {
      assert (a + b)[1..] == a[1..] + b;
      IntersectionAppend(a[1..], b, others);
    }
  }

  /** Against a single argument, difference and intersection split `s`:
      every occurrence lands in exactly one of them. */
  lemma {:induction false} DifferenceIntersectionPartition(s: seq<Value>, o: seq<Value>)
    ensures multiset(Difference(s, [o])) + multiset(Intersection(s, [o])) == multiset(s)
  {
    if s != [] {
      var x, t := s[0], s[1..];
      DifferenceIntersectionPartition(t, o);
      assert s == [x] + t;
      assert multiset(s) == multiset{x} + multiset(t);
      var d, i := Difference(t, [o]), Intersection(t, [o]);
      if x in o {
        assert !AbsentFromAll(x, [o]);
        assert PresentInAll(x, [o]);
        assert Difference(s, [o]) == d;
        assert Intersection(s, [o]) == [x] + i;
        assert multiset([x] + i) == multiset{x} + multiset(i);
      } else {
        assert AbsentFromAll(x, [o]);
        assert !PresentInAll(x, [o]);
        assert Difference(s, [o]) == [x] + d;
        assert Intersection(s, [o]) == i;
        assert multiset([x] + d) == multiset{x} + multiset(d);
      }
    }
  }

  /** The values of all argument lists, one list after the other. */
  function Concat(others: seq<seq<Value>>): seq<Value> {
    if others == [] then [] else others[0] + Concat(others[1..])
  }

  lemma ConcatFrom(others: seq<seq<Value>>, k: nat)
    requires k < |others|
    ensures Concat(others[k..]) == others[k] + Concat(others[k + 1..])
  {
    assert others[k..][1..] == others[k + 1..];
  }
}
