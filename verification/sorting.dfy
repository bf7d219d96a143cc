/** Stable insertion sort by any total order. */
module Sorting {

  ghost predicate TotalOrder<T(!new)>(leq: (T, T) -> bool) {
    && (forall a, b :: leq(a, b) || leq(b, a))
    && (forall a, b, c :: leq(a, b) && leq(b, c) ==> leq(a, c))
  }

  ghost predicate SortedBy<T>(s: seq<T>, leq: (T, T) -> bool) {
    forall i, j :: 0 <= i < j < |s| ==> leq(s[i], s[j])
  }

  /** Put `x` after everything that does not sort later. */
  function Place<T>(s: seq<T>, x: T, leq: (T, T) -> bool): (r: seq<T>)
    ensures |r| == |s| + 1
  {
    if s == [] || leq(s[|s| - 1], x) then s + [x] else Place(s[..|s| - 1], x, leq) + [s[|s| - 1]]
  }

  function SortBy<T>(s: seq<T>, leq: (T, T) -> bool): (r: seq<T>)
    ensures |r| == |s|
  {
    if s == [] then [] else Place(SortBy(s[..|s| - 1], leq), s[|s| - 1], leq)
  }

  lemma {:induction false} PlaceElements<T>(s: seq<T>, x: T, leq: (T, T) -> bool)
    ensures multiset(Place(s, x, leq)) == multiset(s) + multiset{x}
  {
    if s != [] && !leq(s[|s| - 1], x) {
      PlaceElements(s[..|s| - 1], x, leq);
      assert s == s[..|s| - 1] + [s[|s| - 1]];
    }
  }

  lemma {:induction false} SortByElements<T>(s: seq<T>, leq: (T, T) -> bool)
    ensures multiset(SortBy(s, leq)) == multiset(s)
  {
    if s != [] {
      SortByElements(s[..|s| - 1], leq);
      PlaceElements(SortBy(s[..|s| - 1], leq), s[|s| - 1], leq);
      assert s == s[..|s| - 1] + [s[|s| - 1]];
    }
  }

  lemma PlacedIn<T>(s: seq<T>, x: T, leq: (T, T) -> bool)
    ensures forall y :: y in Place(s, x, leq) <==> y in s || y == x
  {
    PlaceElements(s, x, leq);
    forall y ensures y in Place(s, x, leq) <==> y in s || y == x {
      assert y in Place(s, x, leq) <==> y in multiset(Place(s, x, leq));
    }
  }

  lemma {:induction false} PlaceKeepsSorted<T(!new)>(s: seq<T>, x: T, leq: (T, T) -> bool)
    requires TotalOrder(leq) && SortedBy(s, leq)
    ensures SortedBy(Place(s, x, leq), leq)
  {
    if s != [] {
      var init, z := s[..|s| - 1], s[|s| - 1];
      if leq(z, x) {
        assert forall i :: 0 <= i < |init| ==> leq(s[i], z);
      } else {
        PlaceKeepsSorted(init, x, leq);
        PlacedBelow(init, x, leq, z);
      }
    }
  }

  lemma {:induction false} PlacedBelow<T(!new)>(s: seq<T>, x: T, leq: (T, T) -> bool, z: T)
    requires leq(x, z) && forall i :: 0 <= i < |s| ==> leq(s[i], z)
    ensures forall i :: 0 <= i <= |s| ==> leq(Place(s, x, leq)[i], z)
  {
    if s != [] && !leq(s[|s| - 1], x) {
      PlacedBelow(s[..|s| - 1], x, leq, z);
    }
  }

  ghost predicate Apart<T(!new)>(s: seq<T>) {
    forall i, j :: 0 <= i < j < |s| ==> s[i] != s[j]
  }

  lemma {:induction false} PlaceKeepsApart<T(!new)>(s: seq<T>, x: T, leq: (T, T) -> bool)
    requires Apart(s) && x !in s
    ensures Apart(Place(s, x, leq))
  {
    if s != [] && !leq(s[|s| - 1], x) {
      var init, z := s[..|s| - 1], s[|s| - 1];
      PlaceKeepsApart(init, x, leq);
      PlacedIn(init, x, leq);
      var r := Place(init, x, leq);
      forall i | 0 <= i < |r| ensures r[i] != z {
        assert r[i] in r;
      }
      assert Place(s, x, leq) == r + [z];
    }
  }

  lemma {:induction false} SortByIsSorted<T(!new)>(s: seq<T>, leq: (T, T) -> bool)
    requires TotalOrder(leq)
    ensures SortedBy(SortBy(s, leq), leq)
  {
    if s != [] {
      SortByIsSorted(s[..|s| - 1], leq);
      PlaceKeepsSorted(SortBy(s[..|s| - 1], leq), s[|s| - 1], leq);
    }
  }
}
