/** The few JavaScript array operations the board relies on (`splice`,
    `filter`, `indexOf`, `includes`), stated on immutable sequences. */
module JsArray {
  import opened Wrappers

  /** The position at which `splice(start, …)` acts on an array of length
      `len`: a negative start counts back from the end, and the position is
      clamped to [0, len]. (`splice(null, …)` starts at 0.) */
  function SpliceStart(start: int, len: nat): (k: nat)
    ensures k <= len
    ensures 0 <= start <= len ==> k == start
    ensures start >= len ==> k == len
    ensures start < 0 ==> k == (if len + start < 0 then 0 else len + start)
  {
    if start < 0 then (if len + start < 0 then 0 else len + start)
    else if start > len then len
    else start
  }

  /** `a.splice(start, 0, x)` on a copy of `a`: `x` goes in front of the
      element at the splice position, everything else keeps its order. */
  function Insert<T>(a: seq<T>, start: int, x: T): (r: seq<T>)
    ensures |r| == |a| + 1
    ensures var k := SpliceStart(start, |a|);
      r[k] == x
      && (forall j :: 0 <= j < k ==> r[j] == a[j])
      && (forall j :: k < j < |r| ==> r[j] == a[j - 1])
    ensures multiset(r) == multiset(a) + multiset{x}
  {
    var k := SpliceStart(start, |a|);
    assert a == a[..k] + a[k..];
    a[..k] + [x] + a[k..]
  }

  /** `const [removed] = a.splice(start, 1)` on a copy of `a`: the array
      that is left and the element taken out, `None` (JavaScript's
      `undefined`) when the splice position is past the end. */
  function RemoveAt<T>(a: seq<T>, start: int): (r: (seq<T>, Option<T>))
    ensures var k := SpliceStart(start, |a|);
      if k < |a| then
        && |r.0| == |a| - 1
        && r.1 == Some(a[k])
        && (forall j :: 0 <= j < k ==> r.0[j] == a[j])
        && (forall j :: k <= j < |r.0| ==> r.0[j] == a[j + 1])
        && multiset(r.0) + multiset{a[k]} == multiset(a)
      else
        r.0 == a && r.1 == None
  {
    var k := SpliceStart(start, |a|);
    if k < |a| then
      assert a == a[..k] + [a[k]] + a[k + 1..];
      (a[..k] + a[k + 1..], Some(a[k]))
    else
      (a, None)
  }

  /** `a.filter((y) => y !== x)`: every occurrence of `x` dropped. */
  function Without<T(==,!new)>(a: seq<T>, x: T): (r: seq<T>)
    ensures x !in r
    ensures forall y :: y != x ==> (y in r <==> y in a)
    ensures multiset(r) == multiset(a)[x := 0]
    ensures |r| == |a| - multiset(a)[x]
  {
    if a == [] then []
    else
      assert a == [a[0]] + a[1..];
      (if a[0] == x then [] else [a[0]]) + Without(a[1..], x)
  }

  /** Filtering distributes over concatenation, so it keeps the relative
      order of everything it does not drop. */
  lemma {:induction false} WithoutAppend<T(!new)>(a: seq<T>, b: seq<T>, x: T)
    ensures Without(a + b, x) == Without(a, x) + Without(b, x)
  {
    if a == [] {
      assert a + b == b;
    } else {
      assert (a + b)[1..] == a[1..] + b;
      WithoutAppend(a[1..], b, x);
    }
  }

  /** Filtering out a value that does not occur returns the same list. */
  lemma {:induction false} WithoutAbsent<T(!new)>(a: seq<T>, x: T)
    requires x !in a
    ensures Without(a, x) == a
  {
    if a != [] {
      WithoutAbsent(a[1..], x);
      assert a == [a[0]] + a[1..];
    }
  }

  /** Removing the one occurrence of `x` closes the gap it leaves:
      the elements before and after it stay in order. */
  lemma WithoutSingle<T(!new)>(p: seq<T>, x: T, q: seq<T>)
    requires x !in p && x !in q
    ensures Without(p + [x] + q, x) == p + q
  {
    var px := p + [x];
    assert Without([x], x) == [];
    WithoutAppend(p, [x], x);
    WithoutAbsent(p, x);
    assert Without(px, x) == p;
    WithoutAppend(px, q, x);
    WithoutAbsent(q, x);
  }

  /** `a.indexOf(x)`: the first position holding `x`, or -1. */
  function IndexOf<T(==)>(a: seq<T>, x: T): (i: int)
    ensures i == -1 <==> x !in a
    ensures i != -1 ==> 0 <= i < |a| && a[i] == x && x !in a[..i]
  {
    if a == [] then -1
    else if a[0] == x then 0
    else
      var j := IndexOf(a[1..], x);
      assert j != -1 ==> a[1..][..j] == a[1..j + 1];
      if j == -1 then -1 else j + 1
  }

  /** No value occurs twice. */
  ghost predicate NoDuplicates<T(!new)>(a: seq<T>) {
    forall x :: multiset(a)[x] <= 1
  }

  /** `a` with the elements at positions `i` and `j` exchanged. */
  function Swap<T>(a: seq<T>, i: nat, j: nat): (r: seq<T>)
    requires i < |a| && j < |a|
    ensures |r| == |a| && r[i] == a[j] && r[j] == a[i]
    ensures forall k :: 0 <= k < |a| && k != i && k != j ==> r[k] == a[k]
    ensures multiset(r) == multiset(a)
  {
    a[i := a[j]][j := a[i]]
  }
}
