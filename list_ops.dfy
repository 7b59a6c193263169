// The three System.Collections.Generic.List<T> operations the tracked-image list
// uses, on sequences: IndexOf, RemoveAt, and Remove (first occurrence only), and the
// order-keeping filter that a backward RemoveAt loop performs.
module ListOps {

  /** List<T>.IndexOf: the first index holding x, or -1 when x is absent. */
  function IndexOf<T(==)>(s: seq<T>, x: T): (k: int)
    ensures -1 <= k < |s|
    ensures k == -1 <==> x !in s
    ensures 0 <= k ==> s[k] == x && x !in s[..k]
  {
    if |s| == 0 then -1
    else if s[0] == x then 0
    else
      var k := IndexOf(s[1..], x);
      if k == -1 then -1
      else
        assert s[..k + 1] == [s[0]] + s[1..][..k];
        k + 1
  }

  /** List<T>.RemoveAt: drops index i; the others keep their order. */
  function RemoveAt<T>(s: seq<T>, i: nat): (r: seq<T>)
    requires i < |s|
    ensures |r| == |s| - 1
    ensures multiset(r) == multiset(s) - multiset{s[i]}
    ensures forall j :: 0 <= j < i ==> r[j] == s[j]
    ensures forall j :: i <= j < |r| ==> r[j] == s[j + 1]
  {
    assert s == s[..i] + [s[i]] + s[i + 1..];
    s[..i] + s[i + 1..]
  }

  /** List<T>.Remove: removes the first occurrence of x and only that one;
      a list without x is left as it is. */
  function RemoveFirst<T(==)>(s: seq<T>, x: T): (r: seq<T>)
    ensures x !in s ==> r == s
    ensures x in s ==> |r| == |s| - 1 && multiset(r) == multiset(s) - multiset{x}
    ensures x in s ==> r == s[..IndexOf(s, x)] + s[IndexOf(s, x) + 1..]
  {
    var k := IndexOf(s, x);
    if k == -1 then s else RemoveAt(s, k)
  }

  /** s with every element of drop removed; the others keep their order. */
  function Without<T>(s: seq<T>, drop: set<T>): (r: seq<T>)
    ensures |r| <= |s|
  {
    if s == [] then []
    else (if s[0] in drop then [] else [s[0]]) + Without(s[1..], drop)
  }

  /** One step of the filter: the head is dropped when it is in drop and kept otherwise. */
  lemma WithoutCons<T>(x: T, tail: seq<T>, drop: set<T>)
    ensures Without([x] + tail, drop) == (if x in drop then [] else [x]) + Without(tail, drop)
  {
    assert ([x] + tail)[1..] == tail;
  }

  /** Filtering distributes over concatenation, so survivors keep their relative order. */
  lemma {:induction false} WithoutAppend<T>(a: seq<T>, b: seq<T>, drop: set<T>)
    ensures Without(a + b, drop) == Without(a, drop) + Without(b, drop)
  {
    if a == [] {
      assert a + b == b;
    } else {
      assert a + b == [a[0]] + (a[1..] + b);
      assert a == [a[0]] + a[1..];
      WithoutCons(a[0], a[1..] + b, drop);
      WithoutCons(a[0], a[1..], drop);
      WithoutAppend(a[1..], b, drop);
    }
  }

  /** Every occurrence of a dropped element goes and every occurrence of any other stays. */
  lemma {:induction false} WithoutCount<T>(s: seq<T>, drop: set<T>, x: T)
    ensures multiset(Without(s, drop))[x] == if x in drop then 0 else multiset(s)[x]
  {
    if s != [] {
      assert s == [s[0]] + s[1..];
      WithoutCons(s[0], s[1..], drop);
      WithoutCount(s[1..], drop, x);
    }
  }

  /** What remains comes from s and is not in drop. */
  lemma WithoutWithin<T>(s: seq<T>, drop: set<T>)
    ensures forall x :: x in Without(s, drop) ==> x in s && x !in drop
  {
    forall x | x in Without(s, drop)
      ensures x in s && x !in drop
    {
      WithoutCount(s, drop, x);
    }
  }

  /** Index arithmetic for one step of a filter that walks s backward: index i of
      s[..i + 1] + rest is s[i], and removing it leaves s[..i] + rest. */
  lemma SliceStep<T>(s: seq<T>, i: int, rest: seq<T>)
    requires 0 <= i < |s|
    ensures s[i..] == [s[i]] + s[i + 1..]
    ensures (s[..i + 1] + rest)[i] == s[i]
    ensures (s[..i + 1] + rest)[..i] + (s[..i + 1] + rest)[i + 1..] == s[..i] + rest
  {
    assert (s[..i + 1] + rest)[i + 1..] == rest;
  }

  /** Extending a suffix by one element to the left counts that element once more. */
  lemma CountStep<T>(s: seq<T>, i: int)
    requires 0 <= i < |s|
    ensures forall x :: multiset(s[i..])[x] == multiset(s[i + 1..])[x] + (if x == s[i] then 1 else 0)
  {
    assert s[i..] == [s[i]] + s[i + 1..];
  }

  /** One step of a backward filter at index i: if s[i] is dropped, removing index i from
      the list built so far extends the filtered suffix by one; if it is kept, the list
      already is that extension. */
  lemma WithoutStep<T>(s: seq<T>, i: int, drop: set<T>, current: seq<T>)
    requires 0 <= i < |s|
    requires current == s[..i + 1] + Without(s[i + 1..], drop)
    ensures i < |current| && current[i] == s[i]
    ensures s[i] in drop ==> RemoveAt(current, i) == s[..i] + Without(s[i..], drop)
    ensures s[i] !in drop ==> current == s[..i] + Without(s[i..], drop)
  {
    SliceStep(s, i, Without(s[i + 1..], drop));
    WithoutCons(s[i], s[i + 1..], drop);
  }
}
