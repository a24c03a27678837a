/** The sorts of the gateway: any rearrangement of a list into an order given by a comparison. */
module Sorting {

  /** Of any two items the comparison puts one no later than the other, consistently. */
  ghost predicate TotalPreorder<T(!new)>(before: (T, T) -> bool)
  {
    && (forall a, b :: before(a, b) || before(b, a))
    && forall a, b, c :: before(a, b) && before(b, c) ==> before(a, c)
  }

  ghost predicate SortedBy<T>(list: seq<T>, before: (T, T) -> bool)
  {
    forall i, j :: 0 <= i < j < |list| ==> before(list[i], list[j])
  }

  lemma InsertedSorted<T>(sorted: seq<T>, j: nat, x: T, before: (T, T) -> bool)
    requires SortedBy(sorted, before) && j <= |sorted|
    requires forall k :: 0 <= k < j ==> before(sorted[k], x)
    requires forall k :: j <= k < |sorted| ==> before(x, sorted[k])
    ensures SortedBy(sorted[..j] + [x] + sorted[j..], before)
    ensures multiset(sorted[..j] + [x] + sorted[j..]) == multiset(sorted) + multiset{x}
  {
    assert sorted == sorted[..j] + sorted[j..];
  }

  method Insert<T(!new)>(sorted: seq<T>, x: T, before: (T, T) -> bool) returns (r: seq<T>)
    requires TotalPreorder(before) && SortedBy(sorted, before)
    ensures SortedBy(r, before) && multiset(r) == multiset(sorted) + multiset{x}
  {
    var j := 0;
    while j < |sorted| && !before(x, sorted[j])
      invariant 0 <= j <= |sorted|
      invariant forall k :: 0 <= k < j ==> before(sorted[k], x)
    {
      j := j + 1;
    }
    r := sorted[..j] + [x] + sorted[j..];
    InsertedSorted(sorted, j, x, before);
  }

  method Sort<T(!new)>(list: seq<T>, before: (T, T) -> bool) returns (sorted: seq<T>)
    requires TotalPreorder(before)
    ensures SortedBy(sorted, before) && multiset(sorted) == multiset(list)
    ensures forall x :: x in sorted <==> x in list
  {
    sorted := [];
    for i := 0 to |list|
      invariant SortedBy(sorted, before) && multiset(sorted) == multiset(list[..i])
    {
      sorted := Insert(sorted, list[i], before);
      assert list[..i+1] == list[..i] + [list[i]];
    }
    assert list[..|list|] == list;
    forall x ensures x in sorted <==> x in list {
      assert x in sorted <==> x in multiset(sorted);
    }
  }
}
