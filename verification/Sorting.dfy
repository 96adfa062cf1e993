/** Stable sorting by a strict weak order, as the standard library's
    `sort_by` and `sort_by_key` do it. */
module Sorting {

  ghost predicate StrictWeak<T(!new)>(less: (T, T) -> bool) {
    (forall x, y :: less(x, y) ==> !less(y, x)) &&
    (forall x, y, z :: !less(y, x) && !less(z, y) ==> !less(z, x))
  }

  ghost predicate Ordered<T>(s: seq<T>, less: (T, T) -> bool) {
    forall i, j :: 0 <= i < j < |s| ==> !less(s[j], s[i])
  }

  /** Puts `x` behind every element that is not greater. */
  function Place<T>(s: seq<T>, x: T, less: (T, T) -> bool): seq<T> {
    if s != [] && less(x, s[|s| - 1]) then Place(s[..|s| - 1], x, less) + [s[|s| - 1]] else s + [x]
  }

  function StableSort<T>(s: seq<T>, less: (T, T) -> bool): seq<T> {
    if s == [] then [] else Place(StableSort(s[..|s| - 1], less), s[|s| - 1], less)
  }

  lemma {:induction false} PlaceMembers<T>(s: seq<T>, x: T, less: (T, T) -> bool)
    ensures multiset(Place(s, x, less)) == multiset(s) + multiset{x}
  {
    if s != [] && less(x, s[|s| - 1]) {
      PlaceMembers(s[..|s| - 1], x, less);
      assert s == s[..|s| - 1] + [s[|s| - 1]];
    }
  }

  lemma {:induction false} PlaceOrdered<T(!new)>(s: seq<T>, x: T, less: (T, T) -> bool)
    requires StrictWeak(less) && Ordered(s, less)
    ensures Ordered(Place(s, x, less), less)
  {
    if s != [] {
      var init, last := s[..|s| - 1], s[|s| - 1];
      if less(x, last) {
        PlaceOrdered(init, x, less);
        PlaceMembers(init, x, less);
        var out := Place(init, x, less);
        forall i | 0 <= i < |out|
          ensures !less(last, out[i])
        {
          assert out[i] in multiset(out);
          if out[i] != x {
            assert out[i] in multiset(init);
            var k :| 0 <= k < |init| && init[k] == out[i];
            assert s[k] == init[k];
          }
        }
      } else {
        forall i | 0 <= i < |s|
          ensures !less(x, s[i])
        {
          assert i < |s| - 1 ==> !less(last, s[i]);
          assert !less(x, x);
        }
      }
    }
  }

  lemma {:induction false} SortPermutes<T(!new)>(s: seq<T>, less: (T, T) -> bool)
    ensures multiset(StableSort(s, less)) == multiset(s)
  {
    hide Place;
    if s != [] {
      var init := s[..|s| - 1];
      SortPermutes(init, less);
      PlaceMembers(StableSort(init, less), s[|s| - 1], less);
      assert s == init + [s[|s| - 1]];
    }
  }

  lemma {:induction false} SortOrders<T(!new)>(s: seq<T>, less: (T, T) -> bool)
    requires StrictWeak(less)
    ensures Ordered(StableSort(s, less), less)
  {
    hide Place, StrictWeak;
    if s != [] {
      SortOrders(s[..|s| - 1], less);
      PlaceOrdered(StableSort(s[..|s| - 1], less), s[|s| - 1], less);
    }
  }

  /** The result is an ordered permutation. */
  lemma SortIs<T(!new)>(s: seq<T>, less: (T, T) -> bool)
    requires StrictWeak(less)
    ensures Ordered(StableSort(s, less), less)
    ensures multiset(StableSort(s, less)) == multiset(s)
  {
    SortOrders(s, less);
    SortPermutes(s, less);
  }

  lemma SortMembers<T(!new)>(s: seq<T>, less: (T, T) -> bool)
    requires StrictWeak(less)
    ensures |StableSort(s, less)| == |s|
    ensures forall x :: x in StableSort(s, less) <==> x in s
  {
    SortIs(s, less);
    assert |multiset(StableSort(s, less))| == |multiset(s)|;
    assert forall x :: x in StableSort(s, less) <==> x in multiset(StableSort(s, less));
  }
}
