/** Reachability over stored parent links, for locations and categories alike. */
module Forest {
  import opened Prelude

  // Every stored document with its parent; None is a document without a usable one
  type Parents = map<int, Option<int>>

  // The parent, where it is stored itself
  function Up1(m: Parents, x: int): Option<int> {
    if x in m && m[x].Some? && m[x].value in m then m[x] else None
  }

  // The document n links above x
  function Up(m: Parents, x: int, n: nat): Option<int> {
    if n == 0 then (if x in m then Some(x) else None)
    else match Up(m, x, n - 1)
      case None => None
      case Some(y) => Up1(m, y)
  }

  ghost predicate IsAncestor(m: Parents, y: int, x: int) {
    exists n :: n > 0 && Up(m, x, n) == Some(y)
  }

  ghost predicate Acyclic(m: Parents) {
    forall x :: x in m ==> !IsAncestor(m, x, x)
  }

  ghost predicate NoDangling(m: Parents) {
    forall x :: x in m && m[x].Some? ==> m[x].value in m
  }

  /**
   $graphLookup along the parent links: climb from x, adding each document met, until there is none
   or it was met before - so the climb ends on stored cycles as well.
   */
  function ClimbFrom(m: Parents, x: int, met: seq<int>): (chain: seq<int>)
    requires NoDuplicates(met) && forall y :: y in met ==> y in m
    ensures NoDuplicates(chain) && forall y :: y in chain ==> y in m
    decreases m.Keys - ToSet(met)
  {
    match Up1(m, x)
    case None => met
    case Some(p) =>
      if p in met then met
      else
        assert p in m.Keys - ToSet(met) && p !in m.Keys - ToSet(met + [p]);
        ClimbFrom(m, p, met + [p])
  }

  function Ancestors(m: Parents, x: int): seq<int> {
    ClimbFrom(m, x, [])
  }

  lemma {:induction false} UpAdds(m: Parents, x: int, a: nat, b: nat)
    ensures Up(m, x, a + b) == match Up(m, x, a) case None => None case Some(y) => Up(m, y, b)
  {
    if b > 0 {
      UpAdds(m, x, a, b - 1);
      assert a + b - 1 == a + (b - 1);
    } else {
      UpStored(m, x, a);
    }
  }

  lemma {:induction false} UpStored(m: Parents, x: int, n: nat)
    ensures Up(m, x, n).Some? ==> Up(m, x, n).value in m && x in m
  {
    if n > 0 {
      UpStored(m, x, n - 1);
    }
  }

  // What has been met leads on only to what has been met, but for the last of it
  ghost predicate ClosedBut(m: Parents, met: seq<int>, last: int) {
    forall y :: y in met && y != last && Up1(m, y).Some? ==> Up1(m, y).value in met
  }

  lemma {:induction false} ClimbCloses(m: Parents, x: int, met: seq<int>)
    requires NoDuplicates(met) && forall y :: y in met ==> y in m
    requires ClosedBut(m, met, x)
    ensures var chain := ClimbFrom(m, x, met);
            && (forall y :: y in met ==> y in chain)
            && (forall y :: y in chain && Up1(m, y).Some? ==> Up1(m, y).value in chain)
            && (Up1(m, x).Some? ==> Up1(m, x).value in chain)
    decreases m.Keys - ToSet(met)
  {
    if Up1(m, x).Some? && Up1(m, x).value !in met {
      var p := Up1(m, x).value;
      assert p in m.Keys - ToSet(met) && p !in m.Keys - ToSet(met + [p]);
      ClimbCloses(m, p, met + [p]);
      assert p in met + [p];
    }
  }

  lemma {:induction false} ClimbIsSound(m: Parents, x: int, met: seq<int>, from: int)
    requires NoDuplicates(met) && forall y :: y in met ==> y in m && IsAncestor(m, y, from)
    requires x == from || IsAncestor(m, x, from)
    ensures forall y :: y in ClimbFrom(m, x, met) ==> IsAncestor(m, y, from)
    decreases m.Keys - ToSet(met)
  {
    if Up1(m, x).Some? && Up1(m, x).value !in met {
      var p := Up1(m, x).value;
      assert p in m.Keys - ToSet(met) && p !in m.Keys - ToSet(met + [p]);
      var n: nat :| (n == 0 && x == from) || (n > 0 && Up(m, from, n) == Some(x));
      assert x in m && Up(m, from, n) == Some(x);
      assert Up(m, from, n + 1) == Some(p);
      ClimbIsSound(m, p, met + [p], from);
    }
  }

  /** The lookup collects exactly the ancestors, cycles or not. */
  lemma AncestorsExact(m: Parents, x: int, y: int)
    ensures y in Ancestors(m, x) <==> IsAncestor(m, y, x)
  {
    ClimbIsSound(m, x, [], x);
    ClimbCloses(m, x, []);
    if n :| n > 0 && Up(m, x, n) == Some(y) {
      ReachedInClosed(m, x, Ancestors(m, x), n);
    }
  }

  lemma {:induction false} ReachedInClosed(m: Parents, x: int, chain: seq<int>, n: nat)
    requires n > 0 && Up(m, x, n).Some?
    requires forall y :: y in chain && Up1(m, y).Some? ==> Up1(m, y).value in chain
    requires Up1(m, x).Some? ==> Up1(m, x).value in chain
    ensures Up(m, x, n).value in chain
  {
    if n > 1 {
      ReachedInClosed(m, x, chain, n - 1);
    }
  }

  // ------------------------------------------------------------------ changing one link

  // The link of x changed, the climb from y is the same as long as it does not pass x
  lemma {:induction false} SameClimb(m: Parents, m': Parents, x: int, y: int, n: nat)
    requires x in m' && y in m && (forall z :: z in m && z != x ==> z in m' && m'[z] == m[z]) && m'.Keys == m.Keys + {x}
    requires NoDangling(m)
    requires forall k :: 0 <= k < n ==> Up(m, y, k) != Some(x)
    ensures Up(m', y, n) == Up(m, y, n)
  {
    if n > 0 {
      SameClimb(m, m', x, y, n - 1);
      assert Up(m, y, n - 1) != Some(x);
      UpStored(m, y, n - 1);
    }
  }

  // The first of the steps up to n that is at x
  lemma {:induction false} FirstAt(m: Parents, y: int, x: int, n: nat) returns (k: nat)
    requires Up(m, y, n) == Some(x)
    ensures k <= n && Up(m, y, k) == Some(x)
    ensures forall j :: 0 <= j < k ==> Up(m, y, j) != Some(x)
  {
    k := 0;
    while Up(m, y, k) != Some(x)
      invariant k <= n && forall j :: 0 <= j < k ==> Up(m, y, j) != Some(x)
      decreases n - k
    {
      k := k + 1;
    }
  }

  // A cycle through z passing x is a cycle through x
  lemma CyclePassing(m: Parents, z: int, x: int, n: nat, k: nat)
    requires n > 0 && Up(m, z, n) == Some(z) && Up(m, z, k) == Some(x)
    ensures Up(m, x, n) == Some(x)
  {
    UpAdds(m, z, k, n);
    UpAdds(m, z, n, k);
    assert k + n == n + k;
  }

  /**
   Re-pointing x at a stored document p other than x keeps the links acyclic exactly when x is not an
   ancestor of p.
   */
  lemma RelinkAcyclicIff(m: Parents, x: int, p: int)
    requires Acyclic(m) && NoDangling(m) && p in m && p != x
    ensures Acyclic(m[x := Some(p)]) <==> !IsAncestor(m, x, p)
  {
    var m' := m[x := Some(p)];
    assert Up(m', x, 0) == Some(x) && Up(m', x, 1) == Some(p);
    if IsAncestor(m, x, p) {
      var n :| n > 0 && Up(m, p, n) == Some(x);
      var k := FirstAt(m, p, x, n);
      SameClimb(m, m', x, p, k);
      UpAdds(m', x, 1, k);
      assert Up(m', x, 1 + k) == Some(x);
    } else {
      forall z | z in m'
        ensures !IsAncestor(m', z, z)
      {
        if n :| n > 0 && Up(m', z, n) == Some(z) {
          CycleMeansAncestor(m, x, p, z, n);
        }
      }
    }
  }

  lemma CycleMeansAncestor(m: Parents, x: int, p: int, z: int, n: nat)
    requires Acyclic(m) && NoDangling(m) && p in m && p != x
    requires n > 0 && Up(m[x := Some(p)], z, n) == Some(z)
    ensures IsAncestor(m, x, p)
  {
    var m' := m[x := Some(p)];
    if k :| 0 <= k < n && Up(m', z, k) == Some(x) {
      CyclePassing(m', z, x, n, k);
      UpAdds(m', x, 1, n - 1);
      var j := FirstAt(m', p, x, n - 1);
      SameClimbBack(m, m', x, p, j);
      assert j > 0;
    } else {
      UpStored(m', z, n);
      assert Up(m', z, 0) == Some(z) && z != x;
      SameClimbBack(m, m', x, z, n);
      assert IsAncestor(m, z, z);
    }
  }

  lemma {:induction false} SameClimbBack(m: Parents, m': Parents, x: int, y: int, n: nat)
    requires x in m' && y in m && (forall z :: z in m && z != x ==> z in m' && m'[z] == m[z]) && m'.Keys == m.Keys + {x}
    requires NoDangling(m)
    requires forall k :: 0 <= k < n ==> Up(m', y, k) != Some(x)
    ensures Up(m, y, n) == Up(m', y, n)
  {
    if n > 0 {
      SameClimbBack(m, m', x, y, n - 1);
      UpStored(m, y, n - 1);
    }
  }

  // Taking links away closes no cycle
  lemma {:induction false} FewerLinks(m: Parents, m': Parents, x: int, n: nat)
    requires m'.Keys <= m.Keys
    requires forall y :: Up1(m', y).Some? ==> Up1(m, y) == Up1(m', y)
    ensures Up(m', x, n).Some? ==> Up(m, x, n) == Up(m', x, n)
  {
    if n > 0 {
      FewerLinks(m, m', x, n - 1);
    }
  }

  lemma FewerLinksAcyclic(m: Parents, m': Parents)
    requires Acyclic(m) && m'.Keys <= m.Keys
    requires forall y :: Up1(m', y).Some? ==> Up1(m, y) == Up1(m', y)
    ensures Acyclic(m')
  {
    forall x | x in m'
      ensures !IsAncestor(m', x, x)
    {
      if n :| n > 0 && Up(m', x, n) == Some(x) {
        FewerLinks(m, m', x, n);
        assert IsAncestor(m, x, x);
      }
    }
  }
}
