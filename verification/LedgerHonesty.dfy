/**
 The undo is honest: whatever calls of it fail, a document it leaves different from how the request
 found it is named by the residue it reports.
 */
module LedgerHonesty {
  import opened Prelude
  import opened LedgerStore
  import opened LedgerUndo
  import opened LedgerHistory
  import Sorting

  // The residue points at this document by its public_id, or through the description it lies in
  ghost predicate Pinned(residue: seq<Residue>, key: Key) {
    exists r :: r in residue && Pins(r, key)
  }

  predicate Pins(r: Residue, key: Key) {
    match r
    case DocumentLeft(collection, _, publicId) => key == Key(collection, Pub(publicId))
    case BatchLeft(_, _) => false
    case CompensationLeft(_, description) => key in description.documents
  }

  // The residue holds the criteria of a batch that this stored document matches
  ghost predicate Caught(residue: seq<Residue>, key: Key, doc: Stored) {
    exists r :: r in residue && Catches(r, key, doc)
  }

  predicate Catches(r: Residue, key: Key, doc: Stored) {
    r.BatchLeft? && key.collection == r.collection && Matches(r.criteria, key, doc.fields)
  }

  // What a caller who is told of the residue can find: named, or matched as it is now stored
  ghost predicate Named(residue: seq<Residue>, db: Db, key: Key) {
    Pinned(residue, key) || (key in db && Caught(residue, key, db[key]))
  }

  // Equal but for the `_id`, the comparison the read-back makes
  predicate SameButId(a: Option<Stored>, b: Option<Stored>) {
    match (a, b)
    case (Some(x), Some(y)) => x.fields == y.fields
    case (None, None) => true
    case _ => false
  }

  /**
   The undo's invariant once everything after the first i writes has been undone: a document is exactly
   as it was after those i writes, or the residue pins it, or it is gone and the request had created it, or it
   lives under an `_id` nothing used by then - and is then a batch's leftover that the residue's criteria catch,
   or equal but for that `_id`.
   */
  ghost predicate Settled(h: History, i: nat, db: Db, residue: seq<Residue>, key: Key)
    requires i < |h.states|
  {
    || At(db, key) == At(h.states[i], key)
    || Pinned(residue, key)
    || (key !in db && key !in Original(h))
    || (&& key in db
        && !Used(h.states, i, key.collection, db[key].oid)
        && if key in h.states[i] then db[key].fields == h.states[i][key].fields else Caught(residue, key, db[key]))
  }

  ghost predicate Sound(h: History, i: nat, w: World, residue: seq<Residue>)
    requires i < |h.states|
  {
    && Identified(w.db, h.owner, h.bound, w.next)
    && (forall k :: Settled(h, i, w.db, residue, k))
  }

  lemma MoreResidue(residue: seq<Residue>, more: seq<Residue>, key: Key)
    ensures Pinned(residue, key) ==> Pinned(residue + more, key)
    ensures Pinned(more, key) ==> Pinned(residue + more, key)
    ensures forall doc :: Caught(residue, key, doc) ==> Caught(residue + more, key, doc)
    ensures forall doc :: Caught(more, key, doc) ==> Caught(residue + more, key, doc)
  {
    assert forall r :: r in residue || r in more ==> r in residue + more;
  }

  // A document that neither the write nor its undo touched stays settled
  lemma UntouchedStaysSettled(
    h: History, i: nat, n: nat, db: Db, db': Db, residue: seq<Residue>, more: seq<Residue>, key: Key)
    requires i <= n < |h.states|
    requires Settled(h, n, db, residue, key)
    requires At(db', key) == At(db, key)
    requires At(h.states[i], key) == At(h.states[n], key)
    ensures Settled(h, i, db', residue + more, key)
  {
    MoreResidue(residue, more, key);
    if key in db {
      assert Used(h.states, i, key.collection, db[key].oid) ==> Used(h.states, n, key.collection, db[key].oid);
    }
  }

  // Fewer documents, or other contents, under the same `_id`s
  lemma FewerIdentified(db: Db, fewer: Db, owner: (string, Oid) -> Ref, bound: Oid, next: Oid)
    requires Identified(db, owner, bound, next)
    requires forall k :: k in fewer ==> k in db && fewer[k].oid == db[k].oid
    ensures Identified(fewer, owner, bound, next)
  {
  }

  // A single document pinned by its own residue is settled whatever it now holds
  lemma PinnedById(residue: seq<Residue>, collection: string, kind: WriteKind, publicId: int)
    ensures Pinned(residue + [DocumentLeft(collection, kind, publicId)], Key(collection, Pub(publicId)))
  {
    var r := DocumentLeft(collection, kind, publicId);
    assert r in residue + [r] && Pins(r, Key(collection, Pub(publicId)));
  }

  // ------------------------------------------------------------------ one kind of entry at a time

  // The updated document itself
  lemma UpdatedDocument(h: History, i: nat, w: World, residue: seq<Residue>)
    requires Faithful(h) && i < |h.entries| && h.entries[i].Update?
    requires Settled(h, i + 1, w.db, residue, KeyOf(h.entries[i].manager, h.entries[i].publicId))
    ensures var e := h.entries[i];
            var key, out := KeyOf(e.manager, e.publicId), UndoUpdate(e.manager, e.publicId, e.prior, w);
            Settled(h, i, out.world.db, residue + out.residue, key)
  {
    var e := h.entries[i];
    var key := KeyOf(e.manager, e.publicId);
    var out := UndoUpdate(e.manager, e.publicId, e.prior, w);
    assert Recorded(e, Original(h), h.states[i], h.states[i + 1]);
    hide Faithful, Recorded;
    if out.residue == [] {
      MoreResidue(residue, out.residue, key);
      assert key in out.world.db && out.world.db[key].fields == e.prior.fields;
      assert Used(h.states, i, key.collection, w.db[key].oid) ==> Used(h.states, i + 1, key.collection, w.db[key].oid);
    } else {
      PinnedById(residue, e.manager.collection, UpdateKind, e.publicId);
    }
  }

  lemma UpdateStepSound(h: History, i: nat, w: World, residue: seq<Residue>)
    requires Faithful(h) && i < |h.entries| && h.entries[i].Update?
    requires Sound(h, i + 1, w, residue)
    ensures var e := h.entries[i]; var out := UndoUpdate(e.manager, e.publicId, e.prior, w);
            Sound(h, i, out.world, residue + out.residue)
  {
    var e := h.entries[i];
    var key := KeyOf(e.manager, e.publicId);
    var out := UndoUpdate(e.manager, e.publicId, e.prior, w);
    var after := out.world.db;
    assert Recorded(e, Original(h), h.states[i], h.states[i + 1]);
    FewerIdentified(w.db, after, h.owner, h.bound, w.next);
    UpdatedDocument(h, i, w, residue);
    hide Faithful;
    forall k
      ensures Settled(h, i, after, residue + out.residue, k)
    {
      assert Settled(h, i + 1, w.db, residue, k);
      if k != key {
        UntouchedStaysSettled(h, i, i + 1, w.db, after, residue, out.residue, k);
      }
    }
  }

  // Inserting a snapshot of a document of the history, with its `_id` or under a new one
  lemma InsertPriorIdentified(w: World, key: Key, prior: Prior, owner: (string, Oid) -> Ref, bound: Oid)
    requires Identified(w.db, owner, bound, w.next)
    requires prior.oid.Some? ==> prior.oid.value < bound && owner(key.collection, prior.oid.value) == key.ref
    ensures var after := InsertPrior(w, key, prior); Identified(after.db, owner, bound, after.next)
  {
    var doc := Stored(if prior.oid.Some? then prior.oid.value else w.next, prior.fields);
    var after := InsertPrior(w, key, prior);
    InsertedHere(w.db, key, doc, owner, bound, w.next, after.next);
    MaybeInserted(w, key, prior);
    hide *;
    FewerIdentified(Inserted(w.db, key, doc), after.db, owner, bound, after.next);
  }

  lemma MaybeInserted(w: World, key: Key, prior: Prior)
    ensures var doc, after := Stored(if prior.oid.Some? then prior.oid.value else w.next, prior.fields), InsertPrior(w, key, prior);
            var all := Inserted(w.db, key, doc);
            forall k :: k in after.db ==> k in all && all[k].oid == after.db[k].oid
  {
    var doc, after := Stored(if prior.oid.Some? then prior.oid.value else w.next, prior.fields), InsertPrior(w, key, prior);
    var all := Inserted(w.db, key, doc);
    hide Inserted;
    assert forall k :: At(after.db, k) == At(all, k) || At(after.db, k) == At(w.db, k);
    assert forall k :: k in w.db ==> k in all && all[k] == w.db[k] by {
      InsertedKeeps(w.db, key, doc);
    }
  }

  lemma InsertedKeeps(db: Db, key: Key, doc: Stored)
    ensures forall k :: k in db ==> k in Inserted(db, key, doc) && Inserted(db, key, doc)[k] == db[k]
  {
  }

  lemma InsertedHere(db: Db, key: Key, doc: Stored, owner: (string, Oid) -> Ref, bound: Oid, next: Oid, later: Oid)
    requires Identified(db, owner, bound, next) && next <= later && doc.oid < later
    requires doc.oid < bound ==> owner(key.collection, doc.oid) == key.ref
    ensures Identified(Inserted(db, key, doc), owner, bound, later)
  {
    assert Insertable(db, key, doc) ==>
      forall k :: k in db && k.collection == key.collection ==> k !in OidsIn(db, key.collection, {doc.oid});
  }

  lemma SnapshotOfDeleted(h: History, i: nat)
    requires Faithful(h) && i < |h.entries| && h.entries[i].Delete?
    ensures var e := h.entries[i]; var key := KeyOf(e.manager, e.publicId);
            && key in h.states[i] && IsSnapshot(e.prior, h.states[i][key])
            && (At(h.states[i + 1], key) == At(h.states[i], key) || key !in h.states[i + 1])
  {
    assert Recorded(h.entries[i], Original(h), h.states[i], h.states[i + 1]);
  }

  // The deleted document itself: left alone, or stored again under its old `_id` or one that nothing carried
  lemma DeletedDocument(h: History, i: nat, w: World, residue: seq<Residue>)
    requires Faithful(h) && i < |h.entries| && h.entries[i].Delete? && h.bound <= w.next
    requires Settled(h, i + 1, w.db, residue, KeyOf(h.entries[i].manager, h.entries[i].publicId))
    ensures var e := h.entries[i];
            var key, out := KeyOf(e.manager, e.publicId), UndoDelete(e.manager, e.publicId, e.prior, w);
            Settled(h, i, out.world.db, residue + out.residue, key)
  {
    var e := h.entries[i];
    var key := KeyOf(e.manager, e.publicId);
    var out := UndoDelete(e.manager, e.publicId, e.prior, w);
    hide Faithful;
    SnapshotOfDeleted(h, i);
    NewIdUnused(h, i, key.collection, w.next);
    if out.residue == [] {
      MoreResidue(residue, out.residue, key);
      assert key in out.world.db && out.world.db[key].fields == h.states[i][key].fields;
      assert key in w.db && !Used(h.states, i + 1, key.collection, w.db[key].oid) ==>
        !Used(h.states, i, key.collection, w.db[key].oid);
    } else {
      PinnedById(residue, e.manager.collection, DeleteKind, e.publicId);
    }
  }

  // Neither the delete nor its undo touches another document
  lemma OnlyItsDocument(h: History, i: nat, w: World)
    requires Faithful(h) && i < |h.entries| && h.entries[i].Delete?
    ensures var e := h.entries[i];
            var key, out := KeyOf(e.manager, e.publicId), UndoDelete(e.manager, e.publicId, e.prior, w);
            forall k :: k != key ==>
              At(out.world.db, k) == At(w.db, k) && At(h.states[i], k) == At(h.states[i + 1], k)
  {
    assert Recorded(h.entries[i], Original(h), h.states[i], h.states[i + 1]);
    hide Faithful;
  }

  lemma DeleteStepSound(h: History, i: nat, w: World, residue: seq<Residue>)
    requires Faithful(h) && i < |h.entries| && h.entries[i].Delete?
    requires Sound(h, i + 1, w, residue)
    ensures var e := h.entries[i]; var out := UndoDelete(e.manager, e.publicId, e.prior, w);
            Sound(h, i, out.world, residue + out.residue)
  {
    var e := h.entries[i];
    var key := KeyOf(e.manager, e.publicId);
    var out := UndoDelete(e.manager, e.publicId, e.prior, w);
    assert Recorded(e, Original(h), h.states[i], h.states[i + 1]);
    assert OneOwner(h.states[i], h.owner) && Below(h.states[i], h.bound);
    InsertPriorIdentified(w.Next(), key, e.prior, h.owner, h.bound);
    DeletedDocument(h, i, w, residue);
    OnlyItsDocument(h, i, w);
    hide Faithful, Recorded, UndoDelete, Settled, Identified;
    forall k
      ensures Settled(h, i, out.world.db, residue + out.residue, k)
    {
      assert Settled(h, i + 1, w.db, residue, k);
      if k != key {
        UntouchedStaysSettled(h, i, i + 1, w.db, out.world.db, residue, out.residue, k);
      }
    }
  }

  // What the undo hands out, nothing in the history carried
  lemma NewIdUnused(h: History, i: nat, collection: string, oid: Oid)
    requires Faithful(h) && i < |h.states| && oid >= h.bound
    ensures !Used(h.states, i, collection, oid)
  {
    forall j | 0 <= j <= i
      ensures Below(h.states[j], h.bound)
    {
    }
  }

  lemma {:induction false} SurvivingMembers(db: Db, manager: Manager, ids: seq<int>, id: int)
    ensures id in Surviving(db, manager, ids) <==> id in ids && KeyOf(manager, id) in db
  {
    if ids != [] {
      SurvivingMembers(db, manager, ids[1..], id);
    }
  }

  // A run of like inserts, seen as one write
  lemma {:induction false} InsertRun(h: History, i: nat, n: nat, manager: Manager)
    requires Faithful(h) && i < n < |h.states|
    requires forall j :: i <= j < n ==> h.entries[j].Insert? && h.entries[j].manager == manager
    ensures forall k :: k in h.states[i] ==> At(h.states[n], k) == At(h.states[i], k)
    ensures forall k :: k in h.states[n] && k !in h.states[i] ==>
              exists j :: i <= j < n && k == KeyOf(manager, h.entries[j].publicId)
    ensures forall j :: i <= j < n ==> KeyOf(manager, h.entries[j].publicId) !in h.states[i]
    decreases n - i
  {
    assert Recorded(h.entries[n - 1], Original(h), h.states[n - 1], h.states[n]);
    if i < n - 1 {
      InsertRun(h, i, n - 1, manager);
    }
    forall k | k in h.states[n] && k !in h.states[i]
      ensures exists j :: i <= j < n && k == KeyOf(manager, h.entries[j].publicId)
    {
      if k !in h.states[n - 1] {
        assert k == KeyOf(manager, h.entries[n - 1].publicId);
      }
    }
  }

  lemma InsertResidueNames(manager: Manager, left: seq<int>, id: int, residue: seq<Residue>)
    requires id in left
    ensures Pinned(residue + DocumentsLeft(manager.collection, InsertKind, SortedIds(left)), KeyOf(manager, id))
  {
    Sorting.SortMembers(left, (a: int, b: int) => a <= b, id);
    var sorted := SortedIds(left);
    var at :| 0 <= at < |sorted| && sorted[at] == id;
    var r := DocumentsLeft(manager.collection, InsertKind, sorted)[at];
    assert r in residue + DocumentsLeft(manager.collection, InsertKind, sorted);
    assert Pins(r, KeyOf(manager, id));
  }

  lemma InsertStepSound(h: History, i: nat, n: nat, manager: Manager, ids: seq<int>, w: World, residue: seq<Residue>)
    requires Faithful(h) && i < n < |h.states|
    requires forall j :: i <= j < n ==> h.entries[j].Insert? && h.entries[j].manager == manager
    requires forall j :: i <= j < n ==> h.entries[j].publicId in ids
    requires forall id :: id in ids ==> exists j :: i <= j < n && h.entries[j].publicId == id
    requires Sound(h, n, w, residue)
    ensures var out := UndoInserts(manager, ids, w); Sound(h, i, out.world, residue + out.residue)
  {
    var out := UndoInserts(manager, ids, w);
    var deleted := DeleteMany(w, manager.collection, Ids(ToSet(ids)));
    var left := if deleted.Luck().Clean? then Surviving(deleted.db, manager, ids) else ids;
    InsertRun(h, i, n, manager);
    FewerIdentified(w.db, deleted.db, h.owner, h.bound, w.next);
    forall k
      ensures Settled(h, i, deleted.db, residue + out.residue, k)
    {
      assert Settled(h, n, w.db, residue, k);
      if k.collection == manager.collection && k.ref.Pub? && k.ref.id in ids {
        SurvivingMembers(deleted.db, manager, ids, k.ref.id);
        if k in deleted.db {
          InsertResidueNames(manager, left, k.ref.id, residue);
        }
      } else {
        UntouchedStaysSettled(h, i, n, w.db, deleted.db, residue, out.residue, k);
      }
    }
  }

  lemma InsertBatchStepSound(h: History, i: nat, w: World, residue: seq<Residue>)
    requires Faithful(h) && i < |h.entries| && h.entries[i].InsertBatch?
    requires Sound(h, i + 1, w, residue)
    ensures var e := h.entries[i]; var out := UndoInsertBatch(e.manager, e.criteria, w);
            Sound(h, i, out.world, residue + out.residue)
  {
    var e := h.entries[i];
    var out := UndoInsertBatch(e.manager, e.criteria, w);
    var after := out.world.db;
    assert Recorded(e, Original(h), h.states[i], h.states[i + 1]);
    assert FreshIds(h, i);
    FewerIdentified(w.db, after, h.owner, h.bound, w.next);
    forall k
      ensures Settled(h, i, after, residue + out.residue, k)
    {
      BatchDocument(h, i, w, residue, k);
    }
  }

  // One document through the undo of a batch
  lemma BatchDocument(h: History, i: nat, w: World, residue: seq<Residue>, k: Key)
    requires Faithful(h) && i < |h.entries| && h.entries[i].InsertBatch?
    requires Settled(h, i + 1, w.db, residue, k)
    ensures var e := h.entries[i]; var out := UndoInsertBatch(e.manager, e.criteria, w);
            Settled(h, i, out.world.db, residue + out.residue, k)
  {
    var e := h.entries[i];
    var out := UndoInsertBatch(e.manager, e.criteria, w);
    var after := out.world.db;
    assert Recorded(e, Original(h), h.states[i], h.states[i + 1]);
    assert FreshIds(h, i);
    MoreResidue(residue, out.residue, k);
    assert k in w.db && !Used(h.states, i + 1, k.collection, w.db[k].oid) ==> !Used(h.states, i, k.collection, w.db[k].oid);
    if k in after && k in Find(after, e.manager.collection, e.criteria) {
      assert out.residue == [BatchLeft(e.manager.collection, e.criteria)];
      assert Catches(out.residue[0], k, after[k]);
      assert Caught(out.residue, k, after[k]);
    }
    assert k in w.db ==>
      At(after, k) == At(w.db, k) || (At(after, k) == None && k in Find(w.db, e.manager.collection, e.criteria));
    assert k in h.states[i] && k in Original(h) ==> k !in Find(h.states[i], e.manager.collection, e.criteria);
  }

  // ------------------------------------------------------------------ batch deletes and custom inverses

  // A snapshot of a document of the history, under its `_id`
  predicate Owned(collection: string, s: Snapshot, owner: (string, Oid) -> Ref, bound: Oid) {
    s.doc.oid < bound && owner(collection, s.doc.oid) == s.ref
  }

  lemma {:induction false} InsertedAllKeeps(
    db: Db, collection: string, docs: seq<Snapshot>, owner: (string, Oid) -> Ref, bound: Oid, next: Oid)
    requires Identified(db, owner, bound, next)
    requires forall s :: s in docs ==> Owned(collection, s, owner, bound)
    ensures Identified(InsertedAll(db, collection, docs), owner, bound, next)
    ensures forall k :: k in db ==> At(InsertedAll(db, collection, docs), k) == At(db, k)
    ensures forall k :: k in InsertedAll(db, collection, docs) && k !in db ==>
              exists s :: s in docs && k == Key(collection, s.ref) && InsertedAll(db, collection, docs)[k] == s.doc
    decreases |docs|
  {
    if docs != [] {
      assert Owned(collection, docs[0], owner, bound);
      InsertedHere(db, Key(collection, docs[0].ref), docs[0].doc, owner, bound, next, next);
      hide Identified;
      InsertedAllKeeps(Inserted(db, Key(collection, docs[0].ref), docs[0].doc), collection, docs[1..], owner, bound, next);
    }
  }

  lemma {:induction false} MissingMembers(snapshots: seq<Snapshot>, found: set<Oid>)
    ensures forall s :: s in Missing(snapshots, found) <==> s in snapshots && s.doc.oid !in found
  {
    if snapshots != [] {
      MissingMembers(snapshots[1..], found);
    }
  }

  /**
   The cardinality argument of deleted_many: as no two documents share an `_id`, counting as many
   documents as there are snapshots means that every snapshot's `_id` is stored.
   */
  lemma CountMeansAll(
    manager: Manager, snapshots: seq<Snapshot>, db: Db, owner: (string, Oid) -> Ref, bound: Oid, next: Oid)
    requires Identified(db, owner, bound, next)
    requires AllStored(manager, snapshots, db)
    ensures forall s :: s in snapshots ==> exists k :: k in db && k.collection == manager.collection && db[k].oid == s.doc.oid
  {
    var oids := SnapshotOids(snapshots);
    var found := OidsIn(db, manager.collection, oids);
    var foundOids := set k | k in found :: db[k].oid;
    InjectiveImage(found, db);
    OidsBound(snapshots);
    SubsetCardinality(foundOids, oids);
    forall s | s in snapshots
      ensures exists k :: k in db && k.collection == manager.collection && db[k].oid == s.doc.oid
    {
      assert s.doc.oid in foundOids;
    }
  }

  lemma {:induction false} OidsBound(snapshots: seq<Snapshot>)
    ensures |SnapshotOids(snapshots)| <= |snapshots|
  {
    if snapshots == [] {
      assert SnapshotOids(snapshots) == {};
    } else {
      OidsBound(snapshots[1..]);
      assert SnapshotOids(snapshots) == {snapshots[0].doc.oid} + SnapshotOids(snapshots[1..]);
    }
  }

  lemma {:induction false} InjectiveImage(keys: set<Key>, db: Db)
    requires keys <= db.Keys
    requires forall k, k' :: k in keys && k' in keys && db[k].oid == db[k'].oid ==> k == k'
    ensures |set k | k in keys :: db[k].oid| == |keys|
    decreases |keys|
  {
    var image := set k | k in keys :: db[k].oid;
    if keys == {} {
      assert image == {};
    } else {
      var k :| k in keys;
      var rest := keys - {k};
      InjectiveImage(rest, db);
      var image' := set k' | k' in rest :: db[k'].oid;
      assert image == {db[k].oid} + image';
      assert db[k].oid !in image';
    }
  }

  lemma PinnedByDescription(residue: seq<Residue>, collection: string, description: Description, k: Key)
    requires k in description.documents
    ensures Pinned(residue + [CompensationLeft(collection, description)], k)
  {
    var left := CompensationLeft(collection, description);
    assert left in residue + [left] && Pins(left, k);
  }

  // What restoring a batch can do: store missing snapshots as they were, and nothing else
  lemma RestoreEffect(
    manager: Manager, snapshots: seq<Snapshot>, w: World, before: Db, owner: (string, Oid) -> Ref, bound: Oid)
    requires Identified(w.db, owner, bound, w.next) && OneOwner(before, owner) && Below(before, bound)
    requires forall s :: s in snapshots ==> At(before, Key(manager.collection, s.ref)) == Some(s.doc)
    ensures var after := RestoreSnapshots(manager, snapshots, w);
            && Identified(after.db, owner, bound, after.next)
            && (forall k :: k in w.db ==> At(after.db, k) == At(w.db, k))
            && (forall k :: k in after.db && k !in w.db ==>
                  (&& At(after.db, k) == At(before, k)
                   && exists s :: s in snapshots && k == Key(manager.collection, s.ref)))
  {
    hide RestoreSnapshots, Missing, SnapshotOids, OidsIn;
    RestoringOnlyInserts(manager, snapshots, w);
    var all := MissingInserted(manager, snapshots, w, before, owner, bound);
    var after := RestoreSnapshots(manager, snapshots, w);
    hide Identified, OneOwner, Below;
    forall k | k in after.db
      ensures k in all && all[k].oid == after.db[k].oid
    {
      assert At(after.db, k) == At(all, k) || At(after.db, k) == At(w.db, k);
      assert k in w.db ==> At(all, k) == At(w.db, k);
    }
    FewerIdentified(all, after.db, owner, bound, w.next);
  }

  function MissingOf(manager: Manager, snapshots: seq<Snapshot>, db: Db): seq<Snapshot> {
    Missing(snapshots, set k | k in OidsIn(db, manager.collection, SnapshotOids(snapshots)) :: db[k].oid)
  }

  // Whatever of the one insert took effect
  lemma RestoringOnlyInserts(manager: Manager, snapshots: seq<Snapshot>, w: World)
    ensures var all, after := InsertedAll(w.db, manager.collection, MissingOf(manager, snapshots, w.db)), RestoreSnapshots(manager, snapshots, w);
            after.next == w.next && forall k :: At(after.db, k) == At(all, k) || At(after.db, k) == At(w.db, k)
  {
    hide Missing, InsertedAll;
  }

  lemma MissingInserted(
    manager: Manager, snapshots: seq<Snapshot>, w: World, before: Db, owner: (string, Oid) -> Ref, bound: Oid) returns (all: Db)
    requires Identified(w.db, owner, bound, w.next) && OneOwner(before, owner) && Below(before, bound)
    requires forall s :: s in snapshots ==> At(before, Key(manager.collection, s.ref)) == Some(s.doc)
    ensures all == InsertedAll(w.db, manager.collection, MissingOf(manager, snapshots, w.db))
    ensures Identified(all, owner, bound, w.next)
    ensures forall k :: k in w.db ==> At(all, k) == At(w.db, k)
    ensures forall k :: k in all && k !in w.db ==>
              At(all, k) == At(before, k) && exists s :: s in snapshots && k == Key(manager.collection, s.ref)
  {
    var missing := MissingOf(manager, snapshots, w.db);
    MissingMembers(snapshots, set k | k in OidsIn(w.db, manager.collection, SnapshotOids(snapshots)) :: w.db[k].oid);
    assert forall s :: s in missing ==> s in snapshots && Key(manager.collection, s.ref) in before;
    all := InsertedAll(w.db, manager.collection, missing);
    hide Missing, OidsIn, SnapshotOids, MissingOf;
    InsertedAllKeeps(w.db, manager.collection, missing, owner, bound, w.next);
  }

  lemma RestoreStepSound(h: History, i: nat, w: World, residue: seq<Residue>)
    requires Faithful(h) && i < |h.entries| && h.entries[i].Compensated? && h.entries[i].inverse.RestoreMissing?
    requires Sound(h, i + 1, w, residue)
    ensures var e := h.entries[i]; var out := UndoCompensated(e.collection, e.description, e.inverse, w);
            Sound(h, i, out.world, residue + out.residue)
  {
    var e := h.entries[i];
    var RestoreMissing(manager, snapshots) := e.inverse;
    var out := UndoCompensated(e.collection, e.description, e.inverse, w);
    var after := out.world.db;
    var before := h.states[i];
    assert Recorded(e, Original(h), before, h.states[i + 1]);
    assert OneOwner(before, h.owner) && Below(before, h.bound);
    RestoreEffect(manager, snapshots, w, before, h.owner, h.bound);
    forall k
      ensures Settled(h, i, after, residue + out.residue, k)
    {
      assert Settled(h, i + 1, w.db, residue, k);
      if k !in e.description.documents {
        UntouchedStaysSettled(h, i, i + 1, w.db, after, residue, out.residue, k);
      } else if out.residue == [] {
        AllRestored(h, i, manager, snapshots, w, out.world, k);
        MoreResidue(residue, out.residue, k);
      } else {
        PinnedByDescription(residue, e.collection, e.description, k);
      }
    }
  }

  // A batch found complete has each of its documents back as it was, but for those the residue pins already
  lemma AllRestored(h: History, i: nat, manager: Manager, snapshots: seq<Snapshot>, w: World, after: World, k: Key)
    requires Faithful(h) && i < |h.entries| && Identified(after.db, h.owner, h.bound, after.next)
    requires forall s :: s in snapshots ==> At(h.states[i], Key(manager.collection, s.ref)) == Some(s.doc)
    requires exists s :: s in snapshots && k == Key(manager.collection, s.ref)
    requires h.states[i + 1].Keys <= h.states[i].Keys && forall x :: x in h.states[i + 1] ==> At(h.states[i + 1], x) == At(h.states[i], x)
    requires k in w.db ==> At(after.db, k) == At(w.db, k)
    requires k in after.db && k !in w.db ==> At(after.db, k) == At(h.states[i], k)
    requires AllStored(manager, snapshots, after.db)
    ensures k in after.db && k in h.states[i] && after.db[k].oid == h.states[i][k].oid
    ensures forall residue :: Settled(h, i + 1, w.db, residue, k) && !Pinned(residue, k) ==> At(after.db, k) == At(h.states[i], k)
  {
    CountMeansAll(manager, snapshots, after.db, h.owner, h.bound, after.next);
    assert OneOwner(h.states[i], h.owner) && Below(h.states[i], h.bound);
    var s :| s in snapshots && k == Key(manager.collection, s.ref);
    var k' :| k' in after.db && k'.collection == manager.collection && after.db[k'].oid == s.doc.oid;
    assert k' == k;
    assert Used(h.states, i, k.collection, after.db[k].oid);
    assert Used(h.states, i + 1, k.collection, after.db[k].oid);
  }

  lemma CustomStepSound(h: History, i: nat, w: World, residue: seq<Residue>)
    requires Faithful(h) && i < |h.entries| && h.entries[i].Compensated? && h.entries[i].inverse.Custom?
    requires Sound(h, i + 1, w, residue)
    ensures var e := h.entries[i]; var out := UndoCompensated(e.collection, e.description, e.inverse, w);
            Sound(h, i, out.world, residue + out.residue)
  {
    var e := h.entries[i];
    var out := UndoCompensated(e.collection, e.description, e.inverse, w);
    var after := out.world.db;
    assert Recorded(e, Original(h), h.states[i], h.states[i + 1]);
    assert OnlyParts(e.inverse.footprint, w.db, e.inverse.undo(w.db));
    FewerIdentified(w.db, after, h.owner, h.bound, w.next);
    hide Faithful, Identified, InPlay;
    forall k
      ensures Settled(h, i, after, residue + out.residue, k)
    {
      assert Settled(h, i + 1, w.db, residue, k);
      if k !in e.inverse.footprint {
        UntouchedStaysSettled(h, i, i + 1, w.db, after, residue, out.residue, k);
      } else if out.residue == [] {
        PartVerified(h, i, w, residue, k);
        MoreResidue(residue, out.residue, k);
      } else {
        PinnedByDescription(residue, e.collection, e.description, k);
      }
    }
  }

  // Beside its part a document was not touched, and the part is verified: so all of it is as it was
  lemma PartVerified(h: History, i: nat, w: World, residue: seq<Residue>, k: Key)
    requires Faithful(h) && i < |h.entries| && h.entries[i].Compensated? && h.entries[i].inverse.Custom?
    requires k in h.entries[i].inverse.footprint && Settled(h, i + 1, w.db, residue, k)
    requires h.entries[i].inverse.verify(RunInverse(h.entries[i].inverse, w).db)
    ensures Settled(h, i, RunInverse(h.entries[i].inverse, w).db, residue, k)
  {
    var e := h.entries[i];
    var Custom(footprint, undo, verify) := e.inverse;
    var before, past, now := h.states[i], h.states[i + 1], RunInverse(e.inverse, w).db;
    assert Recorded(e, Original(h), before, past);
    assert OnlyParts(footprint, w.db, undo(w.db)) && OnlyParts(footprint, before, past);
    hide Recorded, Faithful;
    if k in w.db && !Pinned(residue, k) {
      assert w.db[k].fields == past[k].fields;
      assert InPlay(footprint, past, k, w.db[k].fields) && InPlay(footprint, past, k, now[k].fields);
      assert Beside(now[k].fields, footprint[k].names) == Beside(before[k].fields, footprint[k].names);
      WholeOfParts(now[k].fields, before[k].fields, footprint[k].names);
      assert !Used(h.states, i + 1, k.collection, now[k].oid) ==> !Used(h.states, i, k.collection, now[k].oid);
    }
  }

  // ------------------------------------------------------------------ the whole undo

  // The groups left to undo are exactly the first n entries, newest first
  ghost predicate Covers(groups: seq<seq<Entry>>, entries: seq<Entry>, n: nat) {
    && n <= |entries|
    && Flatten(groups) == Reverse(entries[..n])
    && (forall i :: 0 <= i < |groups| ==> ValidGroup(groups[i]))
  }

  lemma NextGroup(groups: seq<seq<Entry>>, entries: seq<Entry>, n: nat)
    requires groups != [] && Covers(groups, entries, n)
    ensures forall i :: 0 <= i < |groups| ==> ValidGroup(groups[i])
    ensures 0 < |groups[0]| <= n
    ensures forall j :: 0 <= j < |groups[0]| ==> groups[0][j] == entries[n - 1 - j]
    ensures Covers(groups[1..], entries, n - |groups[0]|)
  {
    var g := groups[0];
    assert ValidGroup(g);
    var flat := Reverse(entries[..n]);
    assert flat == g + Flatten(groups[1..]);
    assert |flat| == n;
    forall j | 0 <= j < |g|
      ensures g[j] == entries[n - 1 - j]
    {
      assert g[j] == flat[j];
    }
    var rest := n - |g|;
    hide Flatten, Reverse, ValidGroup;
    assert Flatten(groups[1..]) == Reverse(entries[..rest]) by {
      forall j | 0 <= j < rest
        ensures Flatten(groups[1..])[j] == Reverse(entries[..rest])[j]
      {
        assert Flatten(groups[1..])[j] == flat[|g| + j];
      }
    }
  }

  lemma GroupOfInserts(h: History, n: nat, group: seq<Entry>, manager: Manager)
    requires n < |h.states| == |h.entries| + 1 && ValidGroup(group) && |group| <= n
    requires forall j :: 0 <= j < |group| ==> group[j] == h.entries[n - 1 - j]
    requires group[0].Insert? && group[0].manager == manager
    ensures forall j :: n - |group| <= j < n ==> h.entries[j].Insert? && h.entries[j].manager == manager
    ensures forall j :: n - |group| <= j < n ==> h.entries[j].publicId in GroupIds(group)
    ensures forall id :: id in GroupIds(group) ==> exists j :: n - |group| <= j < n && h.entries[j].publicId == id
  {
    var ids := GroupIds(group);
    forall j | n - |group| <= j < n
      ensures h.entries[j].Insert? && h.entries[j].manager == manager && h.entries[j].publicId in ids
    {
      assert group[n - 1 - j] == h.entries[j];
      assert |group| > 1 ==> InsertThrough(group[n - 1 - j], group[0]);
      assert ids[n - 1 - j] == h.entries[j].publicId;
    }
    forall id | id in ids
      ensures exists j :: n - |group| <= j < n && h.entries[j].publicId == id
    {
      var at :| 0 <= at < |ids| && ids[at] == id;
      assert h.entries[n - 1 - at].publicId == id;
    }
  }

  lemma GroupStepSound(h: History, n: nat, group: seq<Entry>, w: World, residue: seq<Residue>)
    requires Faithful(h) && n < |h.states| && ValidGroup(group) && |group| <= n
    requires forall j :: 0 <= j < |group| ==> group[j] == h.entries[n - 1 - j]
    requires Sound(h, n, w, residue)
    ensures var out := UndoGroup(group, w); Sound(h, n - |group|, out.world, residue + out.residue)
  {
    assert |h.states| == |h.entries| + 1;
    hide Sound, Faithful, UndoInserts, UndoInsertBatch, UndoUpdate, UndoDelete, UndoCompensated;
    var i := n - |group|;
    assert group[0] == h.entries[n - 1];
    assert !group[0].Insert? ==> |group| == 1 by {
      assert |group| > 1 ==> InsertThrough(group[0], group[0]);
    }
    match group[0]
    case Insert(manager, _) =>
      GroupOfInserts(h, n, group, manager);
      InsertStepSound(h, i, n, manager, GroupIds(group), w, residue);
    case InsertBatch(_, _) =>
      InsertBatchStepSound(h, i, w, residue);
    case Update(_, _, _) =>
      UpdateStepSound(h, i, w, residue);
    case Delete(_, _, _) =>
      DeleteStepSound(h, i, w, residue);
    case Compensated(_, _, inverse) =>
      if inverse.RestoreMissing? {
        RestoreStepSound(h, i, w, residue);
      } else {
        CustomStepSound(h, i, w, residue);
      }
  }

  lemma {:induction false} GroupsSound(h: History, n: nat, groups: seq<seq<Entry>>, w: World, residue: seq<Residue>)
    requires Faithful(h) && n < |h.states| && Covers(groups, h.entries, n)
    requires Sound(h, n, w, residue)
    ensures var out := UndoGroups(groups, w); Sound(h, 0, out.world, residue + out.residue)
    decreases |groups|
  {
    if groups == [] {
      assert n == |Reverse(h.entries[..n])| == 0;
      assert residue + [] == residue;
    } else {
      NextGroup(groups, h.entries, n);
      hide Faithful, Sound, UndoGroup, Flatten, Reverse;
      var first := UndoGroup(groups[0], w);
      GroupStepSound(h, n, groups[0], w, residue);
      GroupsSound(h, n - |groups[0]|, groups[1..], first.world, residue + first.residue);
      var rest := UndoGroups(groups[1..], first.world);
      assert residue + first.residue + rest.residue == residue + (first.residue + rest.residue);
    }
  }

  lemma GroupsCover(entries: seq<Entry>)
    ensures Covers(Groups(Reverse(entries)), entries, |entries|)
  {
    GroupsKeepOrder(Reverse(entries));
    assert entries[..|entries|] == entries;
  }

  lemma StartSound(h: History, faults: seq<Fault>)
    requires Faithful(h)
    ensures Sound(h, |h.entries|, Start(h, faults), [])
  {
    assert OneOwner(h.states[|h.entries|], h.owner) && Below(h.states[|h.entries|], h.bound);
    assert Final(h) == h.states[|h.entries|];
  }

  /**
   Honesty: for every faithful history and every script of faults, each document that the undo leaves
   different from the store before the first write - the `_id` aside - is named or matched by the residue.
   */
  lemma UndoIsHonest(h: History, faults: seq<Fault>, key: Key)
    requires Faithful(h)
    ensures var out := Undo(h.entries, Start(h, faults));
            SameButId(At(out.world.db, key), At(Original(h), key)) || Named(out.residue, out.world.db, key)
  {
    var w := Start(h, faults);
    GroupsCover(h.entries);
    StartSound(h, faults);
    GroupsSound(h, |h.entries|, Groups(Reverse(h.entries)), w, []);
    var out := Undo(h.entries, w);
    assert [] + out.residue == out.residue;
    assert Settled(h, 0, out.world.db, out.residue, key);
  }

  /** Completeness: an undo that reports nothing has put every document back. */
  lemma NoResidueMeansRestored(h: History, faults: seq<Fault>)
    requires Faithful(h)
    requires Undo(h.entries, Start(h, faults)).residue == []
    ensures var db := Undo(h.entries, Start(h, faults)).world.db;
            forall key :: SameButId(At(db, key), At(Original(h), key))
  {
    forall key
      ensures SameButId(At(Undo(h.entries, Start(h, faults)).world.db, key), At(Original(h), key))
    {
      UndoIsHonest(h, faults, key);
    }
  }
}
