/** The location tree below its synthetic root: deleting a node, searching, opening a path. */
module Locations {
  import opened Prelude
  import opened Forest
  import Sorting

  const ROOT: int := 1
  const NO_PARENT: int := 0

  // The stored parent may be missing, None or no id at all; none of those can be promoted to
  datatype Location = Location(parent: Option<int>, typeId: int, name: string)

  type Store = map<int, Location>

  function Links(docs: Store): Parents {
    map x | x in docs :: docs[x].parent
  }

  /** A tree rooted at the synthetic root: every other node has a stored parent and the root above it. */
  ghost predicate IsTree(m: Parents) {
    && ROOT in m && m[ROOT] == Some(NO_PARENT) && NO_PARENT !in m
    && (forall x :: x in m && x != ROOT ==> Up1(m, x).Some? && IsAncestor(m, ROOT, x))
  }

  // ------------------------------------------------------------------ deleting a node

  datatype DeleteResult = Refused | Finished(deleted: bool)

  predicate HasChildren(docs: Store, id: int) {
    exists x :: x in docs && docs[x].parent == Some(id)
  }

  // update_many: every child of `id` moves below `to`
  function Reparented(docs: Store, id: int, to: int): Store {
    map x | x in docs :: if docs[x].parent == Some(id) then docs[x].(parent := Some(to)) else docs[x]
  }

  function Deletion(docs: Store, id: int): (Store, DeleteResult) {
    if id == ROOT then (docs, Refused)
    else if id !in docs then (docs, Finished(false))
    else match docs[id].parent
      case None => if HasChildren(docs, id) then (docs, Refused) else (docs - {id}, Finished(true))
      case Some(to) => (Reparented(docs, id, to) - {id}, Finished(true))
  }

  // The links after the children of d have moved up to its parent and d is gone
  function Promoted(m: Parents, d: int): Parents
    requires d in m
  {
    map x | x in m && x != d :: if m[x] == Some(d) then m[d] else m[x]
  }

  lemma {:induction false} TreeAcyclic(m: Parents, x: int, n: nat)
    requires IsTree(m) && x in m && n > 0
    ensures Up(m, x, n) != Some(x)
  {
    if Up(m, x, n) == Some(x) {
      if x == ROOT {
        RootHasNoParent(m, n);
      } else {
        var k :| k > 0 && Up(m, x, k) == Some(ROOT);
        CyclePassing(m, x, ROOT, n, k);
        RootHasNoParent(m, n);
      }
    }
  }

  lemma {:induction false} RootHasNoParent(m: Parents, n: nat)
    requires IsTree(m) && n > 0
    ensures Up(m, ROOT, n) == None
  {
    if n > 1 {
      RootHasNoParent(m, n - 1);
    }
  }

  lemma PromotedUp1(m: Parents, d: int, x: int)
    requires IsTree(m) && d in m && d != ROOT && x != d
    ensures Up1(Promoted(m, d), x) == (if Up1(m, x) == Some(d) then Up1(m, d) else Up1(m, x))
    ensures Up1(m, d).Some? && Up1(m, d) != Some(d)
  {
    assert Up1(m, d).Some?;
    assert Up(m, d, 0) == Some(d) && Up(m, d, 1) == Up1(m, d);
    TreeAcyclic(m, d, 1);
  }

  // After n steps at a node other than d, the climb in the new tree is there too; at d, it is one step below
  lemma {:induction false} ClimbAfter(m: Parents, d: int, x: int, n: nat) returns (k: nat)
    requires IsTree(m) && d in m && d != ROOT && x in m && x != d && Up(m, x, n).Some?
    ensures Up(m, x, n) != Some(d) ==> Up(Promoted(m, d), x, k) == Up(m, x, n) && (n > 0 ==> k > 0)
    ensures Up(m, x, n) == Some(d) ==>
              n > 0 && Up(Promoted(m, d), x, k).Some? && Up(Promoted(m, d), x, k) != Some(d)
              && Up1(m, Up(Promoted(m, d), x, k).value) == Some(d)
  {
    k := 0;
    if n > 0 {
      var y := Up(m, x, n - 1).value;
      k := ClimbAfter(m, d, x, n - 1);
      PromotedUp1(m, d, if y == d then Up(Promoted(m, d), x, k).value else y);
      if y == d || Up(m, x, n) != Some(d) {
        k := k + 1;
      }
    }
  }

  lemma UpNext(m: Parents, x: int, n: nat)
    ensures Up(m, x, n + 1) == match Up(m, x, n) case None => None case Some(y) => Up1(m, y)
  {
  }

  // From a node of the new tree, one step up there is one or two in the old one
  lemma StepBefore(m: Parents, d: int, x: int, y: int, n: nat)
    requires IsTree(m) && d in m && d != ROOT && y != d && Up(m, x, n) == Some(y)
    ensures Up1(Promoted(m, d), y) == Up(m, x, if Up1(m, y) == Some(d) then n + 2 else n + 1)
  {
    PromotedUp1(m, d, y);
    UpNext(m, x, n);
    UpNext(m, x, n + 1);
  }

  lemma {:induction false} ClimbBefore(m: Parents, d: int, x: int, k: nat) returns (n: nat)
    requires IsTree(m) && d in m && d != ROOT && Up(Promoted(m, d), x, k).Some?
    ensures n >= k && Up(m, x, n) == Up(Promoted(m, d), x, k)
    decreases k
  {
    n := 0;
    if k > 0 {
      n := ClimbBefore(m, d, x, k - 1);
      var y := Up(Promoted(m, d), x, k - 1).value;
      UpStored(Promoted(m, d), x, k - 1);
      StepBefore(m, d, x, y, n);
      n := if Up1(m, y) == Some(d) then n + 2 else n + 1;
    }
  }

  /** Every surviving node keeps its ancestors, the deleted node excepted. */
  lemma AncestorsAfter(m: Parents, d: int, x: int, y: int)
    requires IsTree(m) && d in m && d != ROOT && x in m && x != d
    ensures IsAncestor(Promoted(m, d), y, x) <==> IsAncestor(m, y, x) && y != d
  {
    if n :| n > 0 && Up(m, x, n) == Some(y) && y != d {
      var k := ClimbAfter(m, d, x, n);
      assert Up(Promoted(m, d), x, k) == Some(y);
    }
    if k :| k > 0 && Up(Promoted(m, d), x, k) == Some(y) {
      var n := ClimbBefore(m, d, x, k);
      UpStored(Promoted(m, d), x, k);
      assert Up(m, x, n) == Some(y);
    }
  }

  lemma PromotedIsTree(m: Parents, d: int)
    requires IsTree(m) && d in m && d != ROOT
    ensures IsTree(Promoted(m, d))
  {
    var m' := Promoted(m, d);
    forall x | x in m' && x != ROOT
      ensures Up1(m', x).Some? && IsAncestor(m', ROOT, x)
    {
      assert Up1(m, x).Some? && IsAncestor(m, ROOT, x);
      AncestorsAfter(m, d, x, ROOT);
      PromotedUp1(m, d, x);
    }
  }

  // The nodes of the subtree below x, as $graphLookup collects them downwards
  function Descendants(m: Parents, x: int): set<int> {
    set y | y in m && x in Ancestors(m, y)
  }

  /**
   Deleting a node of a tree, other than the root, leaves a tree in which every surviving node has the
   ancestors it had and every surviving subtree the nodes it had, without the deleted one.
   */
  lemma DeletionKeepsTree(docs: Store, id: int)
    requires IsTree(Links(docs)) && id in docs && id != ROOT
    ensures var (after, result) := Deletion(docs, id);
            && result == Finished(true) && after.Keys == docs.Keys - {id}
            && IsTree(Links(after))
            && (forall x :: x in after ==> after[x].name == docs[x].name && after[x].typeId == docs[x].typeId)
            && (forall x :: x in after ==> ToSet(Ancestors(Links(after), x)) == ToSet(Ancestors(Links(docs), x)) - {id})
            && (forall x :: x in after ==> Descendants(Links(after), x) == Descendants(Links(docs), x) - {id})
  {
    var (after, _) := Deletion(docs, id);
    var m, m' := Links(docs), Links(after);
    assert Up1(m, id).Some?;
    assert m' == Promoted(m, id);
    PromotedIsTree(m, id);
    forall x, y | x in after
      ensures y in Ancestors(m', x) <==> y in Ancestors(m, x) && y != id
    {
      AncestorsAfter(m, id, x, y);
      AncestorsExact(m, x, y);
      AncestorsExact(m', x, y);
    }
  }

  /** A refused deletion changes nothing, and exactly these are refused: the root, and children without a new parent. */
  lemma RefusedIff(docs: Store, id: int)
    ensures Deletion(docs, id).1 == Refused <==>
            id == ROOT || (id in docs && docs[id].parent == None && HasChildren(docs, id))
    ensures Deletion(docs, id).1 == Refused ==> Deletion(docs, id).0 == docs
  {
  }

  /**
   In any store, a tree or not: what is not refused is answered by whether the node was there, it is gone, and no other
   node changes but its children, which move to its parent if it has one.
   */
  lemma DeletionAnywhere(docs: Store, id: int)
    ensures var (after, result) := Deletion(docs, id);
            result != Refused ==>
              && result == Finished(id in docs) && after.Keys == docs.Keys - {id}
              && forall x :: x in after ==>
                   after[x] == if id in docs && docs[x].parent == Some(id) && docs[id].parent.Some?
                               then docs[x].(parent := docs[id].parent) else docs[x]
  {
  }

  // ------------------------------------------------------------------ searching and opening a path

  // A node with everything above it
  function Chain(docs: Store, x: int): seq<int> {
    [x] + Ancestors(Links(docs), x)
  }

  // chain_is_hidden: some node of the chain is of a denied type
  ghost predicate Hidden(docs: Store, x: int, denied: set<int>) {
    exists y :: y in Chain(docs, x) && IsDenied(docs, y, denied)
  }

  predicate IsDenied(docs: Store, y: int, denied: set<int>) {
    y in docs && docs[y].typeId in denied
  }

  // What the search's first stage finds: the nodes but the root whose name passes, each once, in any order
  ghost predicate IsMatchList(docs: Store, test: string -> bool, matches: seq<int>) {
    && NoDuplicates(matches)
    && forall x :: x in matches <==> x in docs && x > ROOT && test(docs[x].name)
  }

  ghost predicate FoundBySearch(docs: Store, matches: seq<int>, denied: set<int>, y: int) {
    y != ROOT && exists x :: x in matches && !Hidden(docs, x, denied) && y in Chain(docs, x)
  }

  // The search as its reader sees it: the chains of the nodes whose name passes, unless hidden, without the root
  ghost predicate IsResult(docs: Store, test: string -> bool, denied: set<int>, y: int) {
    y != ROOT && exists x :: x in docs && x > ROOT && test(docs[x].name) && !Hidden(docs, x, denied) && y in Chain(docs, x)
  }

  lemma AncestorTransitive(m: Parents, x: int, y: int, z: int)
    requires IsAncestor(m, y, x) && IsAncestor(m, z, y)
    ensures IsAncestor(m, z, x)
  {
    var a :| a > 0 && Up(m, x, a) == Some(y);
    var b :| b > 0 && Up(m, y, b) == Some(z);
    UpAdds(m, x, a, b);
    assert Up(m, x, a + b) == Some(z);
  }

  lemma ChainClosed(docs: Store, x: int, y: int, z: int)
    requires y in Chain(docs, x) && z in Chain(docs, y)
    ensures z in Chain(docs, x)
  {
    var m := Links(docs);
    if y != x && z != y {
      AncestorsExact(m, x, y);
      AncestorsExact(m, y, z);
      AncestorTransitive(m, x, y, z);
      AncestorsExact(m, x, z);
    }
  }

  lemma ParentInChain(docs: Store, y: int)
    requires Up1(Links(docs), y).Some?
    ensures Up1(Links(docs), y).value in Chain(docs, y)
  {
    var m := Links(docs);
    var p := Up1(m, y).value;
    assert Up(m, y, 0) == Some(y) && Up(m, y, 1) == Some(p);
    AncestorsExact(m, y, p);
  }

  /**
   The search result is closed upward - each node's parent is the root or found as well - and no node is in
   it that is hidden itself or lies below a hidden one.
   */
  lemma SearchClosedUpward(docs: Store, test: string -> bool, denied: set<int>, y: int)
    requires IsTree(Links(docs)) && IsResult(docs, test, denied, y)
    ensures y in docs && !Hidden(docs, y, denied)
    ensures docs[y].parent == Some(ROOT) ||
            (docs[y].parent.Some? && IsResult(docs, test, denied, docs[y].parent.value))
  {
    var m := Links(docs);
    var x :| x in docs && x > ROOT && test(docs[x].name) && !Hidden(docs, x, denied) && y in Chain(docs, x);
    assert Up1(m, y).Some?;
    var p := Up1(m, y).value;
    ParentInChain(docs, y);
    ChainClosed(docs, x, y, p);
    if Hidden(docs, y, denied) {
      var z :| z in Chain(docs, y) && IsDenied(docs, z, denied);
      ChainClosed(docs, x, y, z);
      assert Hidden(docs, x, denied);
    }
  }

  /**
   Exactly what a search shows: the nodes other than the root that are, or lie above, a node whose name passes and
   that has no denied type at or above it. None of them is of a denied type.
   */
  lemma SearchMeans(docs: Store, test: string -> bool, denied: set<int>, y: int)
    requires IsTree(Links(docs))
    ensures IsResult(docs, test, denied, y) <==>
            && y != ROOT
            && exists x :: x in docs && x > 1 && test(docs[x].name) && (y == x || IsAncestor(Links(docs), y, x))
                           && forall z :: z in docs && (z == x || IsAncestor(Links(docs), z, x)) ==> docs[z].typeId !in denied
    ensures IsResult(docs, test, denied, y) ==> y in docs && docs[y].typeId !in denied
  {
    var m := Links(docs);
    forall x
      ensures forall z :: z in Chain(docs, x) <==> z == x || IsAncestor(m, z, x)
    {
      forall z
        ensures z in Ancestors(m, x) <==> IsAncestor(m, z, x)
      {
        AncestorsExact(m, x, z);
      }
    }
    hide Chain, IsAncestor, Links;
    if IsResult(docs, test, denied, y) {
      SearchClosedUpward(docs, test, denied, y);
      assert y in Chain(docs, y);
      assert IsDenied(docs, y, denied) ==> Hidden(docs, y, denied);
    }
  }

  // The levels opened to show a target: the root's children and those of each ancestor of the target
  ghost predicate OnPath(docs: Store, target: int, denied: set<int>, y: int) {
    && target in docs && y in docs && docs[y].typeId !in denied
    && docs[y].parent.Some?
    && (docs[y].parent.value == ROOT || docs[y].parent.value in Ancestors(Links(docs), target))
  }

  /** With nothing denied, the opened levels hold the target and all that is above it but the root, and are closed upward. */
  lemma PathHoldsTarget(docs: Store, target: int, y: int)
    requires IsTree(Links(docs)) && target in docs && target != ROOT
    ensures y in Chain(docs, target) && y != ROOT ==> OnPath(docs, target, {}, y)
    ensures OnPath(docs, target, {}, y) ==>
              docs[y].parent == Some(ROOT) || OnPath(docs, target, {}, docs[y].parent.value)
  {
    var m := Links(docs);
    if y in Chain(docs, target) && y != ROOT {
      assert Up1(m, y).Some?;
      ParentOfChainIsAncestor(docs, target, y);
    }
    if OnPath(docs, target, {}, y) && docs[y].parent != Some(ROOT) {
      var p := docs[y].parent.value;
      assert Up1(m, p).Some?;
      ParentOfChainIsAncestor(docs, target, p);
    }
  }

  /**
   Whatever is denied: the opened levels are the visible nodes below the root or below a proper ancestor of the target,
   so the target's own children are not among them.
   */
  lemma PathLevels(docs: Store, target: int, denied: set<int>, y: int)
    requires IsTree(Links(docs)) && target in docs && target != ROOT
    ensures OnPath(docs, target, denied, y) <==>
            && y in docs && docs[y].typeId !in denied && docs[y].parent.Some?
            && (docs[y].parent.value == ROOT || IsAncestor(Links(docs), docs[y].parent.value, target))
    ensures y in docs && docs[y].parent == Some(target) ==> !OnPath(docs, target, denied, y)
  {
    var m := Links(docs);
    if y in docs && docs[y].parent.Some? {
      AncestorsExact(m, target, docs[y].parent.value);
    }
    if IsAncestor(m, target, target) {
      var n :| n > 0 && Up(m, target, n) == Some(target);
      TreeAcyclic(m, target, n);
    }
  }

  lemma ParentOfChainIsAncestor(docs: Store, x: int, y: int)
    requires y in Chain(docs, x) && Up1(Links(docs), y).Some?
    ensures Up1(Links(docs), y).value in Ancestors(Links(docs), x)
  {
    var m := Links(docs);
    var p := Up1(m, y).value;
    assert Up(m, y, 0) == Some(y) && Up(m, y, 1) == Some(p);
    if y != x {
      AncestorsExact(m, x, y);
      AncestorTransitive(m, x, y, p);
    }
    AncestorsExact(m, x, p);
  }

  // ------------------------------------------------------------------ the manager

  class LocationsManager {
    var docs: Store

    constructor (docs: Store)
      ensures this.docs == docs
    {
      this.docs := docs;
    }

    method ReparentChildrenToGrandparent(id: int) returns (refused: bool)
      modifies this
      ensures refused == (id in old(docs) && old(docs)[id].parent == None && HasChildren(old(docs), id))
      ensures docs == if id in old(docs) && old(docs)[id].parent.Some?
                      then Reparented(old(docs), id, old(docs)[id].parent.value) else old(docs)
    {
      if id !in docs {
        return false;
      }
      var grandparent := docs[id].parent;
      if grandparent.None? {
        return HasChildren(docs, id);
      }
      docs := Reparented(docs, id, grandparent.value);
      refused := false;
    }

    method DeleteLocation(id: int) returns (result: DeleteResult)
      modifies this
      ensures (docs, result) == Deletion(old(docs), id)
    {
      if id == ROOT {
        return Refused;
      }
      var refused := ReparentChildrenToGrandparent(id);
      if refused {
        return Refused;
      }
      result := Finished(id in docs);
      assert id !in docs ==> docs - {id} == docs;
      docs := docs - {id};
    }

    // `matches` is what the first stage answers for the query's `test`; `order` compares by name
    method SearchLocationsWithAncestors(
      blank: bool, ghost test: string -> bool, matches: seq<int>, denied: set<int>, order: (int, int) -> bool)
      returns (found: seq<int>)
      requires IsMatchList(docs, test, matches) && Sorting.IsOrder(order)
      ensures blank ==> found == []
      ensures !blank ==> forall y :: y in found <==> IsResult(docs, test, denied, y)
      ensures NoDuplicates(found) && Sorting.Ordered(found, order)
    {
      if blank {
        return [];
      }
      var collected := [];
      for i := 0 to |matches|
        invariant NoDuplicates(collected)
        invariant forall y :: y in collected <==> FoundBySearch(docs, matches[..i], denied, y)
      {
        var chain := Chain(docs, matches[i]);
        var hidden := false;
        for j := 0 to |chain|
          invariant hidden <==> exists k :: 0 <= k < j && IsDenied(docs, chain[k], denied)
        {
          if IsDenied(docs, chain[j], denied) {
            hidden := true;
          }
        }
        assert chain[..|chain|] == chain;
        ghost var before := collected;
        if !hidden {
          for j := 0 to |chain|
            invariant NoDuplicates(collected)
            invariant forall y :: y in collected <==> y in before || (y in chain[..j] && y != ROOT)
          {
            assert chain[..j + 1] == chain[..j] + [chain[j]];
            if chain[j] != ROOT && chain[j] !in collected {
              collected := collected + [chain[j]];
            }
          }
        }
        MoreMatches(docs, matches, i, denied);
      }
      assert matches[..|matches|] == matches;
      found := Sorting.Sort(collected, order);
      Sorting.SortOrdered(collected, order);
      SortKeepsDistinct(collected, order);
      forall y
        ensures y in found <==> y in collected
      {
        Sorting.SortMembers(collected, order, y);
      }
    }
  }

  lemma MoreMatches(docs: Store, matches: seq<int>, i: nat, denied: set<int>)
    requires i < |matches|
    ensures forall y :: FoundBySearch(docs, matches[..i + 1], denied, y) <==>
              FoundBySearch(docs, matches[..i], denied, y)
              || (!Hidden(docs, matches[i], denied) && y != ROOT && y in Chain(docs, matches[i]))
  {
    assert matches[..i + 1] == matches[..i] + [matches[i]];
  }

  lemma SortKeepsDistinct(s: seq<int>, order: (int, int) -> bool)
    requires NoDuplicates(s)
    ensures NoDuplicates(Sorting.Sort(s, order))
  {
    DistinctMultiset(s);
    Sorting.SortPermutes(s, order);
    var sorted := Sorting.Sort(s, order);
    forall i, j | 0 <= i < j < |sorted|
      ensures sorted[i] != sorted[j]
    {
      if sorted[i] == sorted[j] {
        TwiceInMultiset(sorted, i, j);
      }
    }
  }

  lemma {:induction false} DistinctMultiset(s: seq<int>)
    requires NoDuplicates(s)
    ensures forall x :: multiset(s)[x] <= 1
  {
    if s != [] {
      DistinctMultiset(s[1..]);
      assert s == [s[0]] + s[1..];
      assert s[0] !in s[1..];
    }
  }

  lemma TwiceInMultiset(s: seq<int>, i: nat, j: nat)
    requires i < j < |s| && s[i] == s[j]
    ensures multiset(s)[s[i]] >= 2
  {
    assert s == s[..j] + s[j..];
    assert s[i] in s[..j] && s[j] in s[j..];
  }
}
