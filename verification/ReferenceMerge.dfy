/** Which objects reference an object, merged from two searches, sorted and paged. */
module ReferenceMerge {
  import opened Prelude
  import opened Documents
  import Sorting

  // An object as found: the sort attribute is None when the object lacks it
  datatype Found<K> = Found(publicId: int, key: Option<K>, document: Object)

  // ------------------------------------------------------------------ the rows that reference

  // The value compares equal to the id; true equals 1 and false equals 0 there
  predicate PointsAt(v: Option<Bson>, id: int) {
    v.Some? && (v.value == Num(id as real) || (v.value == Bool(true) && id == 1) || (v.value == Bool(false) && id == 0))
  }

  predicate EntryReferences(e: Entry, refNames: set<string>, id: int) {
    e.name in refNames && PointsAt(e.value, id)
  }

  ghost predicate SectionReferences(s: Section, refNames: set<string>, id: int) {
    exists r, e :: r in s.rows && e in r.data && EntryReferences(e, refNames, id)
  }

  ghost predicate References(o: Object, refNames: set<string>, id: int) {
    exists s :: s in o.sections && SectionReferences(s, refNames, id)
  }

  method MdsRowsReference(o: Object, refNames: set<string>, id: int) returns (found: bool)
    ensures found <==> References(o, refNames, id)
  {
    for i := 0 to |o.sections|
      invariant forall s :: s in o.sections[..i] ==> !SectionReferences(s, refNames, id)
    {
      var s := o.sections[i];
      for j := 0 to |s.rows|
        invariant forall r, e :: r in s.rows[..j] && e in r.data ==> !EntryReferences(e, refNames, id)
      {
        var r := s.rows[j];
        for k := 0 to |r.data|
          invariant forall e :: e in r.data[..k] ==> !EntryReferences(e, refNames, id)
        {
          if r.data[k].name in refNames && PointsAt(r.data[k].value, id) {
            assert r in s.rows && r.data[k] in r.data && EntryReferences(r.data[k], refNames, id);
            assert s in o.sections && SectionReferences(s, refNames, id);
            return true;
          }
        }
        assert r.data[..|r.data|] == r.data;
      }
      assert s.rows[..|s.rows|] == s.rows;
    }
    assert o.sections[..|o.sections|] == o.sections;
    found := false;
  }

  /** An object references an id when an entry of a row holds it, or the truth value equal to it, under one of the names. */
  lemma ReferencesIff(o: Object, refNames: set<string>, id: int)
    ensures References(o, refNames, id) <==>
            exists s, r, e :: s in o.sections && r in s.rows && e in r.data && e.name in refNames && EqualsId(e.value, id)
  {
    forall e
      ensures EntryReferences(e, refNames, id) <==> e.name in refNames && EqualsId(e.value, id)
    {
    }
    hide EntryReferences, EqualsId;
    if s, r, e :| s in o.sections && r in s.rows && e in r.data && e.name in refNames && EqualsId(e.value, id) {
      assert SectionReferences(s, refNames, id);
    }
  }

  predicate EqualsId(v: Option<Bson>, id: int) {
    v == Some(Num(id as real)) || (v == Some(Bool(true)) && id == 1) || (v == Some(Bool(false)) && id == 0)
  }

  function RefNamesOf(refNamesByType: map<int, set<string>>, typeId: int): set<string> {
    if typeId in refNamesByType then refNamesByType[typeId] else {}
  }

  ghost predicate Qualifies<K>(f: Found<K>, id: int, refNamesByType: map<int, set<string>>) {
    References(f.document, RefNamesOf(refNamesByType, f.document.typeId), id)
  }

  // Those that qualify, as often and in the order they stand; a type without an entry has no reference names
  ghost function Qualifying<K>(results: seq<Found<K>>, id: int, refNamesByType: map<int, set<string>>): seq<Found<K>> {
    if results == [] then []
    else
      var last := results[|results| - 1];
      var typeId := last.document.typeId;
      Qualifying(results[..|results| - 1], id, refNamesByType)
      + if typeId in refNamesByType && References(last.document, refNamesByType[typeId], id) then [last] else []
  }

  method FilterMdsResultsReferencing<K(==)>(results: seq<Found<K>>, id: int, refNamesByType: map<int, set<string>>)
    returns (matching: seq<Found<K>>)
    ensures forall f :: f in matching <==> f in results && Qualifies(f, id, refNamesByType)
    ensures multiset(matching) <= multiset(results)
    ensures matching == Qualifying(results, id, refNamesByType)
  {
    matching := [];
    for i := 0 to |results|
      invariant forall f :: f in matching <==> f in results[..i] && Qualifies(f, id, refNamesByType)
      invariant multiset(matching) <= multiset(results[..i])
      invariant matching == Qualifying(results[..i], id, refNamesByType)
    {
      assert results[..i + 1] == results[..i] + [results[i]] && results[..i + 1][..i] == results[..i];
      var names := RefNamesOf(refNamesByType, results[i].document.typeId);
      var references := MdsRowsReference(results[i].document, names, id);
      if references {
        matching := matching + [results[i]];
      }
    }
    assert results[..|results|] == results;
  }

  // ------------------------------------------------------------------ merging

  function Ids<K(==)>(found: seq<Found<K>>): set<int> {
    set f | f in found :: f.publicId
  }

  function Merged<K(==)>(results: seq<Found<K>>, mds: seq<Found<K>>): seq<Found<K>> {
    if mds == [] then results
    else
      var n := |mds| - 1;
      var before := Merged(results, mds[..n]);
      if mds[n].publicId in Ids(before) then before else before + [mds[n]]
  }

  ghost predicate DistinctIds<K>(found: seq<Found<K>>) {
    forall i, j :: 0 <= i < j < |found| ==> found[i].publicId != found[j].publicId
  }

  lemma {:induction false} MergedIds<K>(results: seq<Found<K>>, mds: seq<Found<K>>)
    ensures Ids(Merged(results, mds)) == Ids(results) + Ids(mds)
    ensures DistinctIds(results) ==> DistinctIds(Merged(results, mds))
    decreases |mds|
  {
    if mds == [] {
      assert Ids(mds) == {};
    } else {
      var n := |mds| - 1;
      var before := Merged(results, mds[..n]);
      MergedIds(results, mds[..n]);
      assert mds == mds[..n] + [mds[n]];
      assert Ids(mds) == Ids(mds[..n]) + {mds[n].publicId};
      assert Ids(before + [mds[n]]) == Ids(before) + {mds[n].publicId};
      assert forall f :: f in before ==> f.publicId in Ids(before);
    }
  }

  lemma {:induction false} MergedAppends<K>(results: seq<Found<K>>, mds: seq<Found<K>>)
    ensures results <= Merged(results, mds)
    ensures forall i :: |results| <= i < |Merged(results, mds)| ==>
              Merged(results, mds)[i] in mds && Merged(results, mds)[i].publicId !in Ids(results)
    decreases |mds|
  {
    if mds != [] {
      var n := |mds| - 1;
      var before := Merged(results, mds[..n]);
      MergedAppends(results, mds[..n]);
      assert mds == mds[..n] + [mds[n]];
      assert forall f :: f in results ==> f in before;
    }
  }

  /**
   The merged list is a union by public_id: what the first search found stays in front, an id of either search is
   there, no id is added twice, and whatever was added is something the second search found under a new id.
   */
  lemma MergedIsUnion<K>(results: seq<Found<K>>, mds: seq<Found<K>>)
    ensures results <= Merged(results, mds)
    ensures Ids(Merged(results, mds)) == Ids(results) + Ids(mds)
    ensures DistinctIds(results) ==> DistinctIds(Merged(results, mds)) && |Merged(results, mds)| == |Ids(results) + Ids(mds)|
    ensures forall i :: |results| <= i < |Merged(results, mds)| ==>
              Merged(results, mds)[i] in mds && Merged(results, mds)[i].publicId !in Ids(results)
  {
    MergedIds(results, mds);
    MergedAppends(results, mds);
    if DistinctIds(results) {
      CountIds(Merged(results, mds));
    }
  }

  lemma {:induction false} CountIds<K>(found: seq<Found<K>>)
    requires DistinctIds(found)
    ensures |Ids(found)| == |found|
  {
    if found == [] {
      assert Ids(found) == {};
    } else {
      CountIds(found[1..]);
      assert Ids(found) == {found[0].publicId} + Ids(found[1..]);
      assert found[0].publicId !in Ids(found[1..]);
    }
  }

  // ------------------------------------------------------------------ sorting

  // The order of the (is missing, value) pairs the sort compares
  predicate KeyLeq<K>(leq: (K, K) -> bool, a: Found<K>, b: Found<K>) {
    b.key.None? || (a.key.Some? && leq(a.key.value, b.key.value))
  }

  function ByKey<K>(leq: (K, K) -> bool, descending: bool): (Found<K>, Found<K>) -> bool {
    if descending then (a, b) => KeyLeq(leq, b, a) else (a, b) => KeyLeq(leq, a, b)
  }

  lemma ByKeyIsOrder<K(!new)>(leq: (K, K) -> bool, descending: bool)
    requires Sorting.IsOrder(leq)
    ensures Sorting.IsOrder(ByKey(leq, descending))
  {
  }

  // ------------------------------------------------------------------ paging

  // A place in a list, as a slice counts it: from the end when negative
  function Place<T>(items: seq<T>, at: int): (place: nat)
    ensures place <= |items|
  {
    if at < 0 then (if at + |items| < 0 then 0 else at + |items|)
    else if at < |items| then at else |items|
  }

  function Slice<T>(items: seq<T>, from: int, to: int): seq<T> {
    var low, high := Place(items, from), Place(items, to);
    if low < high then items[low..high] else []
  }

  function Page<T>(items: seq<T>, limit: int, skip: int): seq<T> {
    if limit <= 0 then items else Slice(items, skip, if limit + skip < |items| then limit + skip else |items|)
  }

  function Front<T>(items: seq<T>, n: nat): seq<T> {
    if n < |items| then items[..n] else items
  }

  lemma NextPage<T>(items: seq<T>, limit: nat, skip: nat)
    requires limit > 0
    ensures Front(items, skip) + Page(items, limit, skip) == Front(items, skip + limit)
  {
  }

  // Where the k-th page starts
  function Start(limit: nat, k: nat): nat {
    k * limit
  }

  function Pages<T>(items: seq<T>, limit: nat, n: nat): seq<seq<T>> {
    seq(n, k requires 0 <= k < n => Page(items, limit, Start(limit, k)))
  }

  lemma NextStart(limit: nat, m: nat)
    ensures Start(limit, m + 1) == Start(limit, m) + limit
  {
  }

  /** Without a limit the page is the whole list; with one, an item is on it by its place, counted from the end if negative. */
  lemma PageHolds<T>(items: seq<T>, limit: int, skip: int)
    ensures limit <= 0 ==> Page(items, limit, skip) == items
    ensures limit > 0 && 0 <= skip ==>
              && |Page(items, limit, skip)| == (if skip >= |items| then 0 else if skip + limit <= |items| then limit else |items| - skip)
              && forall i :: 0 <= i < |Page(items, limit, skip)| ==> Page(items, limit, skip)[i] == items[skip + i]
    ensures limit > 0 && -|items| <= skip < 0 && limit + skip < 0 ==>
              && |Page(items, limit, skip)| == limit
              && forall i :: 0 <= i < limit ==> Page(items, limit, skip)[i] == items[|items| + skip + i]
  {
  }

  lemma LastPage<T>(items: seq<T>, limit: nat, m: nat)
    ensures Pages(items, limit, m + 1) == Pages(items, limit, m) + [Page(items, limit, Start(limit, m))]
  {
    hide Start, Page;
  }

  /** The first n pages are the first n * limit items, so enough pages are the whole list. */
  lemma {:induction false} PagesConcatenate<T>(items: seq<T>, limit: nat, n: nat)
    requires limit > 0
    ensures Flatten(Pages(items, limit, n)) == Front(items, Start(limit, n))
  {
    if n == 0 {
      assert Pages(items, limit, 0) == [] && Front(items, 0) == [];
    } else {
      var m := n - 1;
      hide *;
      PagesConcatenate(items, limit, m);
      LastPage(items, limit, m);
      FlattenLast(Pages(items, limit, m), Page(items, limit, Start(limit, m)));
      NextPage(items, limit, Start(limit, m));
      NextStart(limit, m);
    }
  }

  // ------------------------------------------------------------------ the result of references()

  function Sorted<K(==)>(results: seq<Found<K>>, mds: seq<Found<K>>, leq: (K, K) -> bool, descending: bool): seq<Found<K>> {
    Sorting.Sort(Merged(results, mds), ByKey(leq, descending))
  }

  class IterationResult<K(==)> {
    var results: seq<Found<K>>
    var total: nat

    constructor (results: seq<Found<K>>)
      ensures this.results == results && total == |results|
    {
      this.results := results;
      total := |results|;
    }

    method MergeMdsReferences(mds: seq<Found<K>>, limit: int, skip: int, leq: (K, K) -> bool, order: int)
      modifies this
      ensures results == Page(Sorted(old(results), mds, leq, order == -1), limit, skip)
      ensures total == |Sorted(old(results), mds, leq, order == -1)|
    {
      hide Sorting.Sort;
      var referencedIds := Ids(results);
      for i := 0 to |mds|
        invariant results == Merged(old(results), mds[..i])
        invariant referencedIds == Ids(results)
      {
        assert mds[..i + 1][..i] == mds[..i];
        if mds[i].publicId !in referencedIds {
          ghost var before := results;
          results := results + [mds[i]];
          referencedIds := referencedIds + {mds[i].publicId};
          assert Ids(results) == Ids(before) + {mds[i].publicId};
        }
      }
      assert mds[..|mds|] == mds;
      total := |results|;
      results := Sorting.Sort(results, ByKey(leq, order == -1));
      if limit > 0 {
        var listLength := limit + skip;
        listLength := if listLength < |results| then listLength else |results|;
        results := Slice(results, skip, listLength);
      }
    }
  }

  ghost predicate KeysRunOneWay<K>(found: seq<Found<K>>, leq: (K, K) -> bool, descending: bool) {
    forall i, j :: 0 <= i < j < |found| ==>
      if descending
      then found[i].key.None? || (found[j].key.Some? && leq(found[j].key.value, found[i].key.value))
      else found[j].key.None? || (found[i].key.Some? && leq(found[i].key.value, found[j].key.value))
  }

  /**
   The whole list behind the pages: each id of either search once, the keys in the asked direction with the objects
   lacking the attribute at the far end (at the front when descending), ties in the order of the merge, and the
   total is the number of distinct ids whatever page is asked for.
   */
  lemma SortedUnion<K(!new)>(results: seq<Found<K>>, mds: seq<Found<K>>, leq: (K, K) -> bool, descending: bool)
    requires Sorting.IsOrder(leq) && DistinctIds(results)
    ensures var all := Sorted(results, mds, leq, descending);
            && Ids(all) == Ids(results) + Ids(mds)
            && |all| == |Ids(all)|
            && DistinctIds(all)
            && KeysRunOneWay(all, leq, descending)
            && forall x :: Sorting.Tied(all, x, ByKey(leq, descending))
                        == Sorting.Tied(Merged(results, mds), x, ByKey(leq, descending))
  {
    var merged := Merged(results, mds);
    var order := ByKey(leq, descending);
    var all := Sorting.Sort(merged, order);
    MergedIsUnion(results, mds);
    ByKeyIsOrder(leq, descending);
    Sorting.SortOrdered(merged, order);
    forall f
      ensures f in all <==> f in merged
    {
      Sorting.SortMembers(merged, order, f);
    }
    assert Ids(all) == Ids(merged);
    AsManyIdsAsItems(all);
    forall x
      ensures Sorting.Tied(all, x, order) == Sorting.Tied(merged, x, order)
    {
      Sorting.SortStable(merged, x, order);
    }
  }

  // A list with as many ids as items repeats none
  lemma {:induction false} AsManyIdsAsItems<K>(found: seq<Found<K>>)
    requires |Ids(found)| == |found|
    ensures DistinctIds(found)
  {
    if found != [] {
      var rest := Ids(found[1..]);
      assert Ids(found) == {found[0].publicId} + rest;
      IdsBound(found[1..]);
      AsManyIdsAsItems(found[1..]);
    }
  }

  lemma {:induction false} IdsBound<K>(found: seq<Found<K>>)
    ensures |Ids(found)| <= |found|
  {
    if found == [] {
      assert Ids(found) == {};
    } else {
      IdsBound(found[1..]);
      assert Ids(found) == {found[0].publicId} + Ids(found[1..]);
    }
  }
}
