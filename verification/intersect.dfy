/** `util.Intersect` and `util.HasIntersection`: the common elements of two
    slices, without duplicates, in the order they first occur in the second. */
module Intersection {

  /** The position of the first occurrence of `x` in `s`. */
  function FirstIndex<T(==)>(s: seq<T>, x: T): (i: nat)
    requires x in s
    ensures i < |s| && s[i] == x && x !in s[..i]
  {
    if s[0] == x then 0 else 1 + FirstIndex(s[1..], x)
  }

  predicate NoDuplicates<T(==)>(s: seq<T>) {
    forall i, j :: 0 <= i < j < |s| ==> s[i] != s[j]
  }

  method Intersect<T(==)>(slice1: seq<T>, slice2: seq<T>) returns (result: seq<T>)
    ensures forall x :: x in result <==> x in slice1 && x in slice2
    ensures NoDuplicates(result)
    ensures forall i, j :: 0 <= i < j < |result| ==>
              FirstIndex(slice2, result[i]) < FirstIndex(slice2, result[j])
  {
    var hash := MarkAll(slice1);
    result := [];
    var k := 0;
    while k < |slice2|
      invariant 0 <= k <= |slice2|
      invariant forall x :: x in hash <==> x in slice1
      invariant forall x :: x in hash ==> (hash[x] <==> x in result)
      invariant forall x :: x in result <==> x in slice1 && x in slice2[..k]
      invariant NoDuplicates(result)
      invariant forall i :: 0 <= i < |result| ==> result[i] in slice2 && FirstIndex(slice2, result[i]) < k
      invariant forall i, j :: 0 <= i < j < |result| ==>
                  FirstIndex(slice2, result[i]) < FirstIndex(slice2, result[j])
    {
      var e := slice2[k];
      assert slice2[..k + 1] == slice2[..k] + [e];
      if e in hash && !hash[e] {
        assert e !in slice2[..k];
        assert FirstIndex(slice2, e) == k;
        result := result + [e];
        hash := hash[e := true];
      }
      k := k + 1;
    }
    assert slice2[..k] == slice2;
  }

  /** The first loop: `hash[e]` exists for every element of `slice1`, and
      records whether `e` was added, which it has not been yet. */
  method MarkAll<T(==)>(slice1: seq<T>) returns (hash: map<T, bool>)
    ensures forall x :: x in hash <==> x in slice1
    ensures forall x :: x in hash ==> !hash[x]
  {
    hash := map[];
    var k := 0;
    while k < |slice1|
      invariant 0 <= k <= |slice1|
      invariant forall x :: x in hash <==> x in slice1[..k]
      invariant forall x :: x in hash ==> !hash[x]
    {
      hash := hash[slice1[k] := false];
      k := k + 1;
    }
    assert slice1[..k] == slice1;
  }

  method HasIntersection<T(==)>(slice1: seq<T>, slice2: seq<T>) returns (b: bool)
    ensures b <==> exists x :: x in slice1 && x in slice2
  {
    var common := Intersect(slice1, slice2);
    b := |common| > 0;
    if b {
      assert common[0] in common;
    }
  }
}
