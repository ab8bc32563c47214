/** A stable sort, the order Python's sorted() and list.sort() give. */
module Sorting {

  ghost predicate IsOrder<T(!new)>(leq: (T, T) -> bool) {
    && (forall x, y :: leq(x, y) || leq(y, x))
    && (forall x, y, z :: leq(x, y) && leq(y, z) ==> leq(x, z))
  }

  ghost predicate Ordered<T>(s: seq<T>, leq: (T, T) -> bool) {
    forall i, j :: 0 <= i < j < |s| ==> leq(s[i], s[j])
  }

  // x stood before every element of s, so it stays before the ones it ties with.
  function Place<T>(x: T, s: seq<T>, leq: (T, T) -> bool): (r: seq<T>)
    ensures |r| == |s| + 1
  {
    if s == [] then [x] else if leq(x, s[0]) then [x] + s else [s[0]] + Place(x, s[1..], leq)
  }

  function Sort<T>(s: seq<T>, leq: (T, T) -> bool): (r: seq<T>)
    ensures |r| == |s|
  {
    if s == [] then [] else Place(s[0], Sort(s[1..], leq), leq)
  }

  lemma {:induction false} PlacePermutes<T>(x: T, s: seq<T>, leq: (T, T) -> bool)
    ensures multiset(Place(x, s, leq)) == multiset{x} + multiset(s)
    decreases |s|
  {
    if s != [] {
      PlacePermutes(x, s[1..], leq);
      assert s == [s[0]] + s[1..];
    }
  }

  lemma {:induction false} SortPermutes<T>(s: seq<T>, leq: (T, T) -> bool)
    ensures multiset(Sort(s, leq)) == multiset(s)
    decreases |s|
  {
    if s != [] {
      SortPermutes(s[1..], leq);
      PlacePermutes(s[0], Sort(s[1..], leq), leq);
      assert s == [s[0]] + s[1..];
    }
  }

  lemma PlaceMembers<T>(x: T, s: seq<T>, leq: (T, T) -> bool, y: T)
    requires y in Place(x, s, leq)
    ensures y == x || y in s
  {
    PlacePermutes(x, s, leq);
    assert y in multiset(Place(x, s, leq));
    assert y in s <==> y in multiset(s);
  }

  lemma {:induction false} PlaceOrdered<T(!new)>(x: T, s: seq<T>, leq: (T, T) -> bool)
    requires IsOrder(leq) && Ordered(s, leq)
    ensures Ordered(Place(x, s, leq), leq)
    decreases |s|
  {
    if s != [] && !leq(x, s[0]) {
      var tail := Place(x, s[1..], leq);
      PlaceOrdered(x, s[1..], leq);
      forall j | 0 <= j < |tail|
        ensures leq(s[0], tail[j])
      {
        PlaceMembers(x, s[1..], leq, tail[j]);
      }
    } else if s != [] {
      forall j | 0 <= j < |s|
        ensures leq(x, s[j])
      {
        assert leq(s[0], s[j]) || j == 0;
      }
    }
  }

  lemma {:induction false} SortOrdered<T(!new)>(s: seq<T>, leq: (T, T) -> bool)
    requires IsOrder(leq)
    ensures Ordered(Sort(s, leq), leq)
  {
    if s != [] {
      SortOrdered(s[1..], leq);
      PlaceOrdered(s[0], Sort(s[1..], leq), leq);
    }
  }

  lemma SortMembers<T>(s: seq<T>, leq: (T, T) -> bool, x: T)
    ensures x in Sort(s, leq) <==> x in s
  {
    SortPermutes(s, leq);
    assert x in Sort(s, leq) <==> x in multiset(Sort(s, leq));
    assert x in s <==> x in multiset(s);
  }

  // The elements that tie with x, in their order
  function Tied<T>(s: seq<T>, x: T, leq: (T, T) -> bool): seq<T> {
    if s == [] then []
    else (if leq(s[0], x) && leq(x, s[0]) then [s[0]] else []) + Tied(s[1..], x, leq)
  }

  lemma TiedHead<T>(y: T, s: seq<T>, x: T, leq: (T, T) -> bool)
    ensures Tied([y] + s, x, leq) == (if leq(y, x) && leq(x, y) then [y] else []) + Tied(s, x, leq)
  {
    assert ([y] + s)[1..] == s;
  }

  lemma {:induction false} PlaceStable<T(!new)>(y: T, s: seq<T>, x: T, leq: (T, T) -> bool)
    requires IsOrder(leq)
    ensures Tied(Place(y, s, leq), x, leq) == (if leq(y, x) && leq(x, y) then [y] else []) + Tied(s, x, leq)
    decreases |s|
  {
    TiedHead(y, s, x, leq);
    if s == [] {
      assert [y] + s == [y];
    } else if !leq(y, s[0]) {
      assert !(leq(y, x) && leq(x, s[0]));
      hide IsOrder, Tied;
      PlaceStable(y, s[1..], x, leq);
      assert s == [s[0]] + s[1..];
      TiedHead(s[0], s[1..], x, leq);
      TiedHead(s[0], Place(y, s[1..], leq), x, leq);
    }
  }

  /** Elements that tie keep their order. */
  lemma {:induction false} SortStable<T(!new)>(s: seq<T>, x: T, leq: (T, T) -> bool)
    requires IsOrder(leq)
    ensures Tied(Sort(s, leq), x, leq) == Tied(s, x, leq)
    decreases |s|
  {
    if s != [] {
      SortStable(s[1..], x, leq);
      PlaceStable(s[0], Sort(s[1..], leq), x, leq);
    }
  }
}
