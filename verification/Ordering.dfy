/**
  `std::multiset` as a sorted sequence: insertion goes after every element that is not greater.
 */
module Ordering {
  import opened Sequences

  ghost predicate Transitive<T(!new)>(less: (T, T) -> bool) {
    forall a, b, c :: less(a, b) && less(b, c) ==> less(a, c)
  }

  ghost predicate Sorted<T>(less: (T, T) -> bool, s: seq<T>) {
    forall i, j :: 0 <= i < j < |s| ==> less(s[i], s[j])
  }

  /** The first position, at or after `from`, whose element is greater than `e`. */
  function UpperBound<T>(less: (T, T) -> bool, s: seq<T>, e: T, from: nat := 0): (u: nat)
    requires from <= |s|
    ensures from <= u <= |s|
    ensures forall i :: from <= i < u ==> !less(e, s[i])
    ensures u < |s| ==> less(e, s[u])
    decreases |s| - from
  {
    if from == |s| || less(e, s[from]) then from else UpperBound(less, s, e, from + 1)
  }

  function Insert<T>(less: (T, T) -> bool, s: seq<T>, e: T): seq<T> {
    InsertAt(s, UpperBound(less, s, e), e)
  }

  lemma InsertSorted<T(!new)>(less: (T, T) -> bool, s: seq<T>, e: T)
    requires Transitive(less) && Sorted(less, s)
    requires forall x <- s :: less(x, e) || less(e, x)
    ensures Sorted(less, Insert(less, s, e))
  {
  }

  lemma InsertAtEnd<T>(less: (T, T) -> bool, s: seq<T>, e: T)
    requires forall j :: 0 <= j < |s| ==> !less(e, s[j])
    ensures UpperBound(less, s, e) == |s| && Insert(less, s, e) == s + [e]
  {
  }

  lemma InsertAddsOne<T>(less: (T, T) -> bool, s: seq<T>, e: T)
    ensures multiset(Insert(less, s, e)) == multiset(s) + multiset{e}
  {
    var u := UpperBound(less, s, e);
    assert s == s[..u] + s[u..];
  }

  lemma InsertMembers<T(!new)>(less: (T, T) -> bool, s: seq<T>, e: T)
    ensures forall x :: x in Insert(less, s, e) <==> x in s || x == e
  {
    var u := UpperBound(less, s, e);
    assert s == s[..u] + s[u..];
  }
}
