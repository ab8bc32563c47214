/** The category tree: which parent assignments are let through, and what deleting a category does. */
module Categories {
  import opened Prelude
  import opened Forest

  datatype Refusal = OwnParent | ParentMissing | WouldCycle

  // None lets the assignment through. Without a publicId the category is new and has no id yet.
  function ValidateParentAssignment(m: Parents, publicId: Option<int>, parentId: Option<int>): Option<Refusal> {
    if parentId.None? then None
    else if publicId == parentId then Some(OwnParent)
    else if parentId.value !in m then Some(ParentMissing)
    else if publicId.None? then None
    else if publicId.value in Ancestors(m, parentId.value) then Some(WouldCycle)
    else None
  }

  // What the tree keeps: every parent is stored, and nothing is above itself
  ghost predicate Sane(m: Parents) {
    Acyclic(m) && NoDangling(m)
  }

  /** Sound and complete: an update is let through exactly when the tree stays sane with it. */
  lemma AcceptedIffSane(m: Parents, publicId: int, parentId: Option<int>)
    requires Sane(m)
    ensures ValidateParentAssignment(m, Some(publicId), parentId) == None <==> Sane(m[publicId := parentId])
  {
    var m' := m[publicId := parentId];
    match parentId
    case None =>
      FewerLinksStaySane(m, m', publicId);
    case Some(p) =>
      if p == publicId {
        assert Up(m', p, 0) == Some(p) && Up(m', p, 1) == Some(p);
        assert IsAncestor(m', p, p);
      } else if p in m {
        RelinkAcyclicIff(m, publicId, p);
        AncestorsExact(m, p, publicId);
      } else {
        assert m'[publicId].value !in m';
      }
  }

  // A category without a parent has no links of its own; it may be new, and nothing points at it then
  lemma FewerLinksStaySane(m: Parents, m': Parents, x: int)
    requires Sane(m) && m' == m[x := None]
    ensures Sane(m')
  {
    forall z | z in m'
      ensures !IsAncestor(m', z, z)
    {
      if n :| n > 0 && Up(m', z, n) == Some(z) {
        SameUnlessUnlinked(m, m', x, z, n);
        assert IsAncestor(m, z, z);
      }
    }
  }

  lemma {:induction false} SameUnlessUnlinked(m: Parents, m': Parents, x: int, z: int, n: nat)
    requires NoDangling(m) && m' == m[x := None]
    requires n > 0 && Up(m', z, n).Some?
    ensures Up(m, z, n) == Up(m', z, n)
  {
    if n > 1 {
      SameUnlessUnlinked(m, m', x, z, n - 1);
    }
  }

  /** An insert is let through exactly when the tree stays sane with it, whichever unused id it is given. */
  lemma NewAcceptedIffSane(m: Parents, unused: int, parentId: Option<int>)
    requires Sane(m) && unused !in m
    ensures ValidateParentAssignment(m, None, parentId) == None <==> Sane(m[unused := parentId])
  {
    AcceptedIffSane(m, unused, parentId);
    if parentId.Some? && parentId.value in m {
      AncestorsExact(m, parentId.value, unused);
      forall n
        ensures Up(m, parentId.value, n) != Some(unused)
      {
        UpStored(m, parentId.value, n);
      }
    }
  }

  /** Why an assignment is refused: the category itself, a parent that is not stored, or one of its own descendants. */
  lemma RefusedBecause(m: Parents, publicId: Option<int>, parentId: int)
    ensures ValidateParentAssignment(m, publicId, Some(parentId)) == Some(OwnParent) <==> publicId == Some(parentId)
    ensures ValidateParentAssignment(m, publicId, Some(parentId)) == Some(ParentMissing) <==>
            publicId != Some(parentId) && parentId !in m
    ensures ValidateParentAssignment(m, publicId, Some(parentId)) == Some(WouldCycle) <==>
            publicId.Some? && publicId.value != parentId && parentId in m && IsAncestor(m, publicId.value, parentId)
  {
    if publicId.Some? {
      AncestorsExact(m, parentId, publicId.value);
    }
  }

  class CategoriesManager {
    var parents: Parents

    constructor ()
      ensures parents == map[]
    {
      parents := map[];
    }

    // update_many: every child of the category loses its parent
    method RemoveCategoryAsParent(publicId: int)
      modifies this
      ensures parents.Keys == old(parents).Keys
      ensures forall x :: x in parents ==>
                parents[x] == if old(parents)[x] == Some(publicId) then None else old(parents)[x]
    {
      parents := map x | x in parents :: if parents[x] == Some(publicId) then None else parents[x];
    }

    method DeleteItem(publicId: int) returns (deleted: bool)
      modifies this
      ensures parents == old(parents) - {publicId} && deleted == (publicId in old(parents))
    {
      deleted := publicId in parents;
      parents := parents - {publicId};
    }

    /** Clearing a category from its children and deleting it keeps the tree sane. */
    method DeleteCategory(publicId: int) returns (deleted: bool)
      requires Sane(parents)
      modifies this
      ensures Sane(parents)
      ensures parents.Keys == old(parents).Keys - {publicId} && deleted == (publicId in old(parents))
      ensures forall x :: x in parents ==>
                parents[x] == if old(parents)[x] == Some(publicId) then None else old(parents)[x]
    {
      ghost var before := parents;
      RemoveCategoryAsParent(publicId);
      deleted := DeleteItem(publicId);
      FewerLinksAcyclic(before, parents);
    }
  }
}
