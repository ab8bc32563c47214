/**
 What an undo without faults comes to, document by document: a fold over the entries, newest first, that keeps
 track of what the document holds. From it follow the store the undo leaves and whether it reports anything.
 */
module LedgerFold {
  import opened Prelude
  import opened LedgerStore
  import opened LedgerUndo
  import opened LedgerHistory
  import opened LedgerHonesty

  // What is stored of a document; without an `_id` it is under one that the undo handed out
  datatype Slot = Slot(fields: Fields, oid: Option<Oid>)

  function SlotOf(db: Db, k: Key): Option<Slot> {
    if k in db then Some(Slot(db[k].fields, Some(db[k].oid))) else None
  }

  ghost predicate Holds(db: Db, k: Key, s: Option<Slot>, bound: Oid) {
    match s
    case None => k !in db
    case Some(slot) =>
      && k in db && db[k].fields == slot.fields
      && if slot.oid.Some? then db[k].oid == slot.oid.value else db[k].oid >= bound
  }

  function SnapshotOf(collection: string, snapshots: seq<Snapshot>, k: Key): Option<Slot> {
    if snapshots == [] then None
    else if Key(collection, snapshots[0].ref) == k then Some(Slot(snapshots[0].doc.fields, Some(snapshots[0].doc.oid)))
    else SnapshotOf(collection, snapshots[1..], k)
  }

  // What undoing one entry makes of what a document holds
  function Fate(e: Entry, k: Key, s: Option<Slot>): Option<Slot> {
    match e
    case Insert(manager, id) => if k == KeyOf(manager, id) then None else s
    case InsertBatch(manager, criteria) =>
      if s.Some? && k.collection == manager.collection && Matches(criteria, k, s.value.fields) then None else s
    case Update(manager, id, prior) =>
      if s.Some? && k == KeyOf(manager, id) then Some(s.value.(fields := prior.fields)) else s
    case Delete(manager, id, prior) =>
      if s.None? && k == KeyOf(manager, id) then Some(Slot(prior.fields, prior.oid)) else s
    case Compensated(_, _, RestoreMissing(manager, snapshots)) =>
      if s.None? then SnapshotOf(manager.collection, snapshots, k) else s
    case Compensated(_, _, Custom(footprint, _, _)) =>
      if s.Some? && k in footprint
      then Some(s.value.(fields := Beside(s.value.fields, footprint[k].names) + footprint[k].prior)) else s
  }

  // What the document holds when all but the first i entries are undone, starting from a store
  function Held(entries: seq<Entry>, i: nat, k: Key, db: Db): Option<Slot>
    decreases |entries| - i
  {
    if i >= |entries| then SlotOf(db, k) else Fate(entries[i], k, Held(entries, i + 1, k, db))
  }

  /**
   Whether the undo of entry i reports nothing: an updated document must be there when its turn comes, a deleted
   one missing or already what it was, and the documents of a batch delete missing or under their own `_id`s.
   */
  predicate QuietAt(entries: seq<Entry>, i: nat, db: Db)
    requires i < |entries|
  {
    match entries[i]
    case Update(manager, id, _) => Held(entries, i + 1, KeyOf(manager, id), db).Some?
    case Delete(manager, id, prior) =>
      var s := Held(entries, i + 1, KeyOf(manager, id), db); s.None? || s.value.fields == prior.fields
    case Compensated(_, _, RestoreMissing(manager, snapshots)) =>
      forall s :: s in snapshots ==> Unmoved(Held(entries, i + 1, Key(manager.collection, s.ref), db), s)
    case _ => true
  }

  predicate Unmoved(slot: Option<Slot>, s: Snapshot) {
    slot.None? || slot.value.oid == Some(s.doc.oid)
  }

  /** The undo of the ledger from this store, without faults, reports nothing; it can be told before the undo runs. */
  ghost predicate Quiet(entries: seq<Entry>, db: Db) {
    forall i :: 0 <= i < |entries| ==> QuietAt(entries, i, db)
  }

  // ------------------------------------------------------------------ what is asked of the entries

  // All parts of the footprint are there, and what they were
  ghost predicate PartsBack(footprint: map<Key, Part>, db: Db) {
    forall k :: k in footprint ==> k in db && Within(db[k].fields, footprint[k].names) == footprint[k].prior
  }

  // A part in play is put back, and once all are the verification says so
  ghost predicate Inverts(footprint: map<Key, Part>, undo: Db -> Db, verify: Db -> bool, after: Db) {
    && (forall db: Db, k: Key :: k in footprint && k in after && k in db && k in undo(db) ==>
          InPlay(footprint, after, k, db[k].fields) ==> Within(undo(db)[k].fields, footprint[k].names) == footprint[k].prior)
    && (forall db: Db :: PartsBack(footprint, db) ==> verify(db))
  }

  // Whatever a part holds, it is set to what it was
  ghost predicate Sets(footprint: map<Key, Part>, undo: Db -> Db) {
    forall db: Db, k: Key :: k in footprint && k in db && k in undo(db) ==>
      Within(undo(db)[k].fields, footprint[k].names) == footprint[k].prior
  }

  // Nothing stands in the way of an entry's own undo: the batch filter is not the refused empty one,
  // a batch delete names each document once, a custom inverse does invert its write
  ghost predicate Invertible(entry: Entry, after: Db) {
    match entry
    case InsertBatch(_, criteria) => !criteria.Everything?
    case Compensated(_, _, RestoreMissing(_, snapshots)) => DistinctRefs(snapshots)
    case Compensated(_, _, Custom(footprint, undo, verify)) => Inverts(footprint, undo, verify, after)
    case _ => true
  }

  ghost predicate DistinctRefs(snapshots: seq<Snapshot>) {
    forall a, b :: 0 <= a < b < |snapshots| ==> snapshots[a].ref != snapshots[b].ref
  }

  ghost predicate AllInvertible(h: History) {
    && |h.states| == |h.entries| + 1
    && (forall i :: 0 <= i < |h.entries| ==> Invertible(h.entries[i], h.states[i + 1]))
  }

  // ------------------------------------------------------------------ one entry

  // The undo has come down to the first i entries, without faults, from a store
  ghost predicate CameTo(h: History, i: nat, db: Db, w: World) {
    && w.faults == [] && Identified(w.db, h.owner, h.bound, w.next)
    && (forall k :: Holds(w.db, k, Held(h.entries, i, k, db), h.bound))
  }

  // A custom inverse sets its parts whatever they hold, or its documents are gone, or its parts are in play
  ghost predicate PartsInPlay(h: History, i: nat, db: Db)
    requires i < |h.entries| && i + 1 < |h.states|
  {
    h.entries[i].Compensated? && h.entries[i].inverse.Custom? ==>
      || Sets(h.entries[i].inverse.footprint, h.entries[i].inverse.undo)
      || forall k :: k in h.entries[i].inverse.footprint ==> k in h.states[i + 1] && HeldInPlay(h, i, k, db)
  }

  ghost predicate HeldInPlay(h: History, i: nat, k: Key, db: Db)
    requires i < |h.entries| && i + 1 < |h.states|
    requires h.entries[i].Compensated? && h.entries[i].inverse.Custom?
    requires k in h.entries[i].inverse.footprint && k in h.states[i + 1]
  {
    var s := Held(h.entries, i + 1, k, db);
    s.Some? ==> InPlay(h.entries[i].inverse.footprint, h.states[i + 1], k, s.value.fields)
  }

  // ... and none of them is gone
  ghost predicate PartsThere(entries: seq<Entry>, i: nat, db: Db)
    requires i < |entries|
  {
    entries[i].Compensated? && entries[i].inverse.Custom? ==>
      forall k :: k in entries[i].inverse.footprint ==> Held(entries, i + 1, k, db).Some?
  }

  lemma UpdateFolds(h: History, i: nat, db: Db, w: World)
    requires i < |h.entries| && h.entries[i].Update? && CameTo(h, i + 1, db, w)
    ensures var e := h.entries[i]; var out := UndoUpdate(e.manager, e.publicId, e.prior, w);
            CameTo(h, i, db, out.world) && (out.residue == [] <==> QuietAt(h.entries, i, db))
  {
    var e := h.entries[i];
    var key, out := KeyOf(e.manager, e.publicId), UndoUpdate(e.manager, e.publicId, e.prior, w);
    FewerIdentified(w.db, out.world.db, h.owner, h.bound, w.next);
    assert Holds(w.db, key, Held(h.entries, i + 1, key, db), h.bound);
    hide Identified;
    forall k
      ensures Holds(out.world.db, k, Held(h.entries, i, k, db), h.bound)
    {
      assert Holds(w.db, k, Held(h.entries, i + 1, k, db), h.bound);
    }
  }

  // A free document can be stored again under its own `_id`: nothing else has it
  lemma OwnIdIsFree(db: Db, k: Key, oid: Oid, owner: (string, Oid) -> Ref, bound: Oid, next: Oid)
    requires Identified(db, owner, bound, next) && k !in db
    requires oid == next || (oid < bound && owner(k.collection, oid) == k.ref)
    ensures OidsIn(db, k.collection, {oid}) == {}
  {
    forall x | x in db && x.collection == k.collection
      ensures db[x].oid != oid
    {
      assert x == Key(k.collection, x.ref) && x != k;
    }
  }

  // The missing document is stored again, as the snapshot has it
  lemma StoredAgain(w: World, key: Key, prior: Prior, owner: (string, Oid) -> Ref, bound: Oid)
    requires w.faults == [] && Identified(w.db, owner, bound, w.next) && key !in w.db
    requires prior.oid.Some? ==> prior.oid.value < bound && owner(key.collection, prior.oid.value) == key.ref
    ensures var after := InsertPrior(w, key, prior);
            && after.faults == [] && Holds(after.db, key, Some(Slot(prior.fields, prior.oid)), bound)
            && forall k :: k != key ==> At(after.db, k) == At(w.db, k)
  {
    OwnIdIsFree(w.db, key, if prior.oid.Some? then prior.oid.value else w.next, owner, bound, w.next);
  }

  // The document deleted, seen when its turn comes
  lemma DeletedFolds(w: World, manager: Manager, id: int, prior: Prior, s: Option<Slot>, owner: (string, Oid) -> Ref, bound: Oid)
    requires w.faults == [] && Identified(w.db, owner, bound, w.next) && Holds(w.db, KeyOf(manager, id), s, bound)
    requires prior.oid.Some? ==> prior.oid.value < bound && owner(manager.collection, prior.oid.value) == Pub(id)
    ensures var key, out := KeyOf(manager, id), UndoDelete(manager, id, prior, w);
            && out.world.faults == [] && Identified(out.world.db, owner, bound, out.world.next)
            && Holds(out.world.db, key, Fate(Delete(manager, id, prior), key, s), bound)
            && (out.residue == [] <==> s.None? || s.value.fields == prior.fields)
            && forall k :: k != key ==> At(out.world.db, k) == At(w.db, k)
  {
    var key := KeyOf(manager, id);
    assert w.Next() == w;
    InsertPriorIdentified(w, key, prior, owner, bound);
    if key !in w.db {
      StoredAgain(w, key, prior, owner, bound);
    }
    hide Identified, InsertPrior;
  }

  lemma SnapshotOfHistory(h: History, i: nat)
    requires Faithful(h) && i < |h.entries| && h.entries[i].Delete?
    ensures var e := h.entries[i];
            e.prior.oid.Some? ==> e.prior.oid.value < h.bound && h.owner(e.manager.collection, e.prior.oid.value) == Pub(e.publicId)
  {
    assert Recorded(h.entries[i], Original(h), h.states[i], h.states[i + 1]);
    assert OneOwner(h.states[i], h.owner) && Below(h.states[i], h.bound);
  }

  lemma DeleteFolds(h: History, i: nat, db: Db, w: World)
    requires Faithful(h) && i < |h.entries| && h.entries[i].Delete? && CameTo(h, i + 1, db, w)
    ensures var e := h.entries[i]; var out := UndoDelete(e.manager, e.publicId, e.prior, w);
            CameTo(h, i, db, out.world) && (out.residue == [] <==> QuietAt(h.entries, i, db))
  {
    hide Faithful, Identified, UndoDelete;
    var e := h.entries[i];
    var key, out := KeyOf(e.manager, e.publicId), UndoDelete(e.manager, e.publicId, e.prior, w);
    var now := Held(h.entries, i + 1, key, db);
    SnapshotOfHistory(h, i);
    assert Holds(w.db, key, now, h.bound);
    DeletedFolds(w, e.manager, e.publicId, e.prior, now, h.owner, h.bound);
    forall k
      ensures Holds(out.world.db, k, Held(h.entries, i, k, db), h.bound)
    {
      assert Holds(w.db, k, Held(h.entries, i + 1, k, db), h.bound);
      assert Held(h.entries, i, k, db) == Fate(e, k, Held(h.entries, i + 1, k, db));
      if k != key {
        assert At(out.world.db, k) == At(w.db, k);
      }
    }
  }

  lemma BatchFolds(h: History, i: nat, db: Db, w: World)
    requires i < |h.entries| && h.entries[i].InsertBatch? && !h.entries[i].criteria.Everything? && CameTo(h, i + 1, db, w)
    ensures var e := h.entries[i]; var out := UndoInsertBatch(e.manager, e.criteria, w);
            CameTo(h, i, db, out.world) && out.residue == []
  {
    var e := h.entries[i];
    var out := UndoInsertBatch(e.manager, e.criteria, w);
    FewerIdentified(w.db, out.world.db, h.owner, h.bound, w.next);
    assert Find(out.world.db, e.manager.collection, e.criteria) == {};
    hide Identified;
    forall k
      ensures Holds(out.world.db, k, Held(h.entries, i, k, db), h.bound)
    {
      assert Holds(w.db, k, Held(h.entries, i + 1, k, db), h.bound);
    }
  }

  // ------------------------------------------------------------------ batch deletes

  lemma {:induction false} SnapshotFound(collection: string, snapshots: seq<Snapshot>, k: Key)
    ensures match SnapshotOf(collection, snapshots, k)
            case None => forall s :: s in snapshots ==> Key(collection, s.ref) != k
            case Some(slot) =>
              exists s :: s in snapshots && Key(collection, s.ref) == k && slot == Slot(s.doc.fields, Some(s.doc.oid))
  {
    if snapshots != [] {
      SnapshotFound(collection, snapshots[1..], k);
      assert snapshots[0] in snapshots;
    }
  }

  // Re-inserting snapshots of one state stores each that is free, and nothing else
  lemma {:induction false} InsertedAllReaches(
    db: Db, collection: string, docs: seq<Snapshot>, before: Db, owner: (string, Oid) -> Ref, bound: Oid, next: Oid)
    requires Identified(db, owner, bound, next)
    requires forall s :: s in docs ==> Owned(collection, s, owner, bound)
    requires forall s :: s in docs ==> At(before, Key(collection, s.ref)) == Some(s.doc)
    ensures forall s :: s in docs ==> Key(collection, s.ref) in InsertedAll(db, collection, docs)
    ensures forall k :: k in db ==> At(InsertedAll(db, collection, docs), k) == At(db, k)
    ensures forall k :: k in InsertedAll(db, collection, docs) && k !in db ==>
              At(InsertedAll(db, collection, docs), k) == At(before, k)
    decreases |docs|
  {
    if docs != [] {
      var key := Key(collection, docs[0].ref);
      var next' := Inserted(db, key, docs[0].doc);
      assert Owned(collection, docs[0], owner, bound);
      InsertedHere(db, key, docs[0].doc, owner, bound, next, next);
      if key !in db {
        OwnIdIsFree(db, key, docs[0].doc.oid, owner, bound, next);
      }
      hide Identified;
      InsertedAllReaches(next', collection, docs[1..], before, owner, bound, next);
      assert key in next' && At(before, key) == Some(docs[0].doc);
    }
  }

  // The other half of the cardinality argument: stored once each, they are counted in full
  lemma SnapshotsCounted(
    manager: Manager, snapshots: seq<Snapshot>, db: Db, owner: (string, Oid) -> Ref, bound: Oid, next: Oid)
    requires Identified(db, owner, bound, next) && DistinctRefs(snapshots)
    requires forall s :: s in snapshots ==> var k := Key(manager.collection, s.ref); k in db && db[k].oid == s.doc.oid
    ensures AllStored(manager, snapshots, db)
  {
    var keys := seq(|snapshots|, i requires 0 <= i < |snapshots| => Key(manager.collection, snapshots[i].ref));
    var found := OidsIn(db, manager.collection, SnapshotOids(snapshots));
    DistinctCardinality(keys);
    forall k
      ensures k in found <==> k in ToSet(keys)
    {
      if k in found {
        var s :| s in snapshots && s.doc.oid == db[k].oid;
        var i :| 0 <= i < |snapshots| && snapshots[i] == s;
        assert keys[i] == Key(manager.collection, s.ref) == k;
      }
      if k in ToSet(keys) {
        var i :| 0 <= i < |snapshots| && keys[i] == k;
        assert snapshots[i] in snapshots && snapshots[i].doc.oid in SnapshotOids(snapshots);
      }
    }
    assert found == ToSet(keys);
  }

  // What restoring a batch comes to, when it is not interrupted
  lemma RestoredExactly(
    manager: Manager, snapshots: seq<Snapshot>, w: World, before: Db, owner: (string, Oid) -> Ref, bound: Oid)
    requires w.faults == [] && Identified(w.db, owner, bound, w.next)
    requires forall s :: s in snapshots ==> Owned(manager.collection, s, owner, bound)
    requires forall s :: s in snapshots ==> At(before, Key(manager.collection, s.ref)) == Some(s.doc)
    ensures var after := RestoreSnapshots(manager, snapshots, w);
            && after.faults == [] && Identified(after.db, owner, bound, after.next)
            && forall k :: At(after.db, k) ==
                 if k in w.db then At(w.db, k)
                 else if exists s :: s in snapshots && k == Key(manager.collection, s.ref) then At(before, k) else None
  {
    var stored := set k | k in OidsIn(w.db, manager.collection, SnapshotOids(snapshots)) :: w.db[k].oid;
    var missing := Missing(snapshots, stored);
    MissingMembers(snapshots, stored);
    InsertedAllReaches(w.db, manager.collection, missing, before, owner, bound, w.next);
    InsertedAllKeeps(w.db, manager.collection, missing, owner, bound, w.next);
    var after := RestoreSnapshots(manager, snapshots, w);
    forall s | s in snapshots && Key(manager.collection, s.ref) !in w.db
      ensures s in missing
    {
      OwnIdIsFree(w.db, Key(manager.collection, s.ref), s.doc.oid, owner, bound, w.next);
      assert s.doc.oid !in stored;
    }
    assert after.db == InsertedAll(w.db, manager.collection, missing) && after.next == w.next;
  }

  lemma CountedIff(
    manager: Manager, snapshots: seq<Snapshot>, db: Db, owner: (string, Oid) -> Ref, bound: Oid, next: Oid)
    requires Identified(db, owner, bound, next) && DistinctRefs(snapshots)
    requires forall s :: s in snapshots ==> Owned(manager.collection, s, owner, bound)
    ensures AllStored(manager, snapshots, db) <==>
            forall s :: s in snapshots ==> var k := Key(manager.collection, s.ref); k in db && db[k].oid == s.doc.oid
  {
    if AllStored(manager, snapshots, db) {
      CountMeansAll(manager, snapshots, db, owner, bound, next);
      forall s | s in snapshots
        ensures var k := Key(manager.collection, s.ref); k in db && db[k].oid == s.doc.oid
      {
        var k :| k in db && k.collection == manager.collection && db[k].oid == s.doc.oid;
        assert k == Key(manager.collection, s.ref);
      }
    } else if forall s :: s in snapshots ==> var k := Key(manager.collection, s.ref); k in db && db[k].oid == s.doc.oid {
      SnapshotsCounted(manager, snapshots, db, owner, bound, next);
    }
  }

  // The snapshots of a batch delete, as the history has them
  ghost predicate Snapshots(h: History, i: nat, manager: Manager, snapshots: seq<Snapshot>)
    requires i < |h.states|
  {
    && (forall s :: s in snapshots ==> Owned(manager.collection, s, h.owner, h.bound))
    && (forall s :: s in snapshots ==> At(h.states[i], Key(manager.collection, s.ref)) == Some(s.doc))
  }

  lemma SnapshotsOwned(h: History, i: nat)
    requires Faithful(h) && i < |h.entries| && h.entries[i].Compensated? && h.entries[i].inverse.RestoreMissing?
    ensures Snapshots(h, i, h.entries[i].inverse.manager, h.entries[i].inverse.snapshots)
  {
    var e := h.entries[i];
    var RestoreMissing(manager, snapshots) := e.inverse;
    assert Recorded(e, Original(h), h.states[i], h.states[i + 1]);
    assert OneOwner(h.states[i], h.owner) && Below(h.states[i], h.bound);
    forall s | s in snapshots
      ensures Owned(manager.collection, s, h.owner, h.bound)
    {
      assert At(h.states[i], Key(manager.collection, s.ref)) == Some(s.doc);
    }
  }

  lemma RestoreKeepsFold(h: History, i: nat, manager: Manager, snapshots: seq<Snapshot>, db: Db, w: World)
    requires i < |h.entries| && i < |h.states| && CameTo(h, i + 1, db, w) && Snapshots(h, i, manager, snapshots)
    requires h.entries[i].Compensated? && h.entries[i].inverse == RestoreMissing(manager, snapshots)
    ensures CameTo(h, i, db, RestoreSnapshots(manager, snapshots, w))
  {
    RestoredExactly(manager, snapshots, w, h.states[i], h.owner, h.bound);
    var after := RestoreSnapshots(manager, snapshots, w);
    hide Identified, RestoreSnapshots, SnapshotOf;
    forall k: Key
      ensures Holds(after.db, k, Held(h.entries, i, k, db), h.bound)
    {
      assert Holds(w.db, k, Held(h.entries, i + 1, k, db), h.bound);
      RestoredDocument(manager, snapshots, w.db, after.db, h.states[i], k, Held(h.entries, i + 1, k, db), h.bound);
    }
  }

  lemma CountedIffUnmoved(h: History, i: nat, manager: Manager, snapshots: seq<Snapshot>, db: Db, w: World)
    requires i < |h.entries| && i < |h.states| && CameTo(h, i + 1, db, w)
    requires Snapshots(h, i, manager, snapshots) && DistinctRefs(snapshots)
    requires h.entries[i].Compensated? && h.entries[i].inverse == RestoreMissing(manager, snapshots)
    ensures AllStored(manager, snapshots, RestoreSnapshots(manager, snapshots, w).db) <==> QuietAt(h.entries, i, db)
  {
    RestoredExactly(manager, snapshots, w, h.states[i], h.owner, h.bound);
    var after := RestoreSnapshots(manager, snapshots, w);
    CountedIff(manager, snapshots, after.db, h.owner, h.bound, after.next);
    hide Identified, RestoreSnapshots, AllStored, Held;
    forall s | s in snapshots
      ensures var k := Key(manager.collection, s.ref);
              (k in after.db && after.db[k].oid == s.doc.oid) <==> Unmoved(Held(h.entries, i + 1, k, db), s)
    {
      var k := Key(manager.collection, s.ref);
      assert Owned(manager.collection, s, h.owner, h.bound);
      assert Holds(w.db, k, Held(h.entries, i + 1, k, db), h.bound);
    }
  }

  lemma RestoreFolds(h: History, i: nat, db: Db, w: World)
    requires Faithful(h) && AllInvertible(h) && i < |h.entries| && CameTo(h, i + 1, db, w)
    requires h.entries[i].Compensated? && h.entries[i].inverse.RestoreMissing?
    ensures var e := h.entries[i]; var out := UndoCompensated(e.collection, e.description, e.inverse, w);
            CameTo(h, i, db, out.world) && (out.residue == [] <==> QuietAt(h.entries, i, db))
  {
    var e := h.entries[i];
    var RestoreMissing(manager, snapshots) := e.inverse;
    assert Invertible(e, h.states[i + 1]);
    SnapshotsOwned(h, i);
    hide Faithful, AllInvertible, Snapshots, CameTo, QuietAt, AllStored, RestoreSnapshots;
    RestoreKeepsFold(h, i, manager, snapshots, db, w);
    CountedIffUnmoved(h, i, manager, snapshots, db, w);
    NoFaults(h, i, db, RestoreSnapshots(manager, snapshots, w));
  }

  lemma NoFaults(h: History, i: nat, db: Db, w: World)
    requires CameTo(h, i, db, w)
    ensures w.faults == [] && w.Next() == w && w.Luck().Clean?
  {
  }

  lemma RestoredDocument(
    manager: Manager, snapshots: seq<Snapshot>, db: Db, after: Db, before: Db, k: Key, s: Option<Slot>, bound: Oid)
    requires forall s :: s in snapshots ==> At(before, Key(manager.collection, s.ref)) == Some(s.doc)
    requires At(after, k) ==
             if k in db then At(db, k)
             else if exists s :: s in snapshots && k == Key(manager.collection, s.ref) then At(before, k) else None
    requires Holds(db, k, s, bound)
    ensures Holds(after, k, if s.None? then SnapshotOf(manager.collection, snapshots, k) else s, bound)
  {
    SnapshotFound(manager.collection, snapshots, k);
  }

  // ------------------------------------------------------------------ custom inverses

  lemma CustomFolds(h: History, i: nat, db: Db, w: World)
    requires Faithful(h) && AllInvertible(h) && i < |h.entries| && CameTo(h, i + 1, db, w)
    requires h.entries[i].Compensated? && h.entries[i].inverse.Custom? && PartsInPlay(h, i, db)
    ensures var e := h.entries[i]; var out := UndoCompensated(e.collection, e.description, e.inverse, w);
            CameTo(h, i, db, out.world) && (PartsThere(h.entries, i, db) ==> out.residue == [])
  {
    var e := h.entries[i];
    var Custom(footprint, undo, verify) := e.inverse;
    var past, after := h.states[i + 1], undo(w.db);
    assert Recorded(e, Original(h), h.states[i], past) && Invertible(e, past);
    assert OnlyParts(footprint, w.db, after);
    FewerIdentified(w.db, after, h.owner, h.bound, w.next);
    forall k
      ensures Holds(after, k, Held(h.entries, i, k, db), h.bound)
      ensures k in footprint && Held(h.entries, i + 1, k, db).Some? ==>
                k in after && Within(after[k].fields, footprint[k].names) == footprint[k].prior
    {
      PartFolds(h, i, db, w, k);
    }
    if PartsThere(h.entries, i, db) {
      assert PartsBack(footprint, after);
    }
  }

  // One document through a custom inverse: its part is what it was, the rest untouched
  lemma PartFolds(h: History, i: nat, db: Db, w: World, k: Key)
    requires Faithful(h) && AllInvertible(h) && i < |h.entries|
    requires h.entries[i].Compensated? && h.entries[i].inverse.Custom? && PartsInPlay(h, i, db)
    requires Holds(w.db, k, Held(h.entries, i + 1, k, db), h.bound)
    ensures var footprint, after := h.entries[i].inverse.footprint, h.entries[i].inverse.undo(w.db);
            && Holds(after, k, Held(h.entries, i, k, db), h.bound)
            && (k in footprint && Held(h.entries, i + 1, k, db).Some? ==>
                  k in after && Within(after[k].fields, footprint[k].names) == footprint[k].prior)
  {
    var e := h.entries[i];
    var Custom(footprint, undo, verify) := e.inverse;
    var past, after := h.states[i + 1], undo(w.db);
    assert Recorded(e, Original(h), h.states[i], past) && Inverts(footprint, undo, verify, past);
    assert OnlyParts(footprint, w.db, after);
    if k in footprint && k in w.db {
      assert Sets(footprint, undo) || HeldInPlay(h, i, k, db);
      assert Within(after[k].fields, footprint[k].names) == footprint[k].prior;
      assert Within(h.states[i][k].fields, footprint[k].names) == footprint[k].prior;
      hide Faithful, AllInvertible, Recorded, Inverts;
      PutTogether(after[k].fields, w.db[k].fields, h.states[i][k].fields, footprint[k].names);
    }
  }

  lemma PutTogether(now: Fields, rest: Fields, origin: Fields, names: set<string>)
    requires Within(now, names) == Within(origin, names) && Beside(now, names) == Beside(rest, names)
    ensures now == Beside(rest, names) + Within(origin, names)
  {
    assert forall f :: f in now ==> f in Within(now, names) || f in Beside(now, names);
  }

  // ------------------------------------------------------------------ runs of inserts

  lemma {:induction false} NoneSurvive(db: Db, manager: Manager, ids: seq<int>)
    requires forall id :: id in ids ==> KeyOf(manager, id) !in db
    ensures Surviving(db, manager, ids) == []
  {
    if ids != [] {
      NoneSurvive(db, manager, ids[1..]);
    }
  }

  lemma {:induction false} HeldThroughInserts(h: History, i: nat, n: nat, manager: Manager, k: Key, db: Db)
    requires i <= n <= |h.entries|
    requires forall j :: i <= j < n ==> h.entries[j].Insert? && h.entries[j].manager == manager
    ensures Held(h.entries, i, k, db)
         == if exists j :: i <= j < n && k == KeyOf(manager, h.entries[j].publicId) then None else Held(h.entries, n, k, db)
    decreases n - i
  {
    if i < n {
      HeldThroughInserts(h, i + 1, n, manager, k, db);
    }
  }

  lemma InsertsUndone(manager: Manager, ids: seq<int>, w: World)
    requires w.faults == []
    ensures var out := UndoInserts(manager, ids, w);
            && out.world.faults == [] && out.world.next == w.next && out.residue == []
            && forall k :: At(out.world.db, k) ==
                 if k.collection == manager.collection && k.ref.Pub? && k.ref.id in ids then None else At(w.db, k)
  {
    NoneSurvive(UndoInserts(manager, ids, w).world.db, manager, ids);
  }

  lemma InsertsFold(h: History, i: nat, n: nat, manager: Manager, ids: seq<int>, db: Db, w: World)
    requires i <= n <= |h.entries| && CameTo(h, n, db, w)
    requires forall j :: i <= j < n ==> h.entries[j].Insert? && h.entries[j].manager == manager && h.entries[j].publicId in ids
    requires forall id :: id in ids ==> exists j :: i <= j < n && h.entries[j].publicId == id
    ensures var out := UndoInserts(manager, ids, w); CameTo(h, i, db, out.world) && out.residue == []
  {
    hide Identified, UndoInserts;
    var out := UndoInserts(manager, ids, w);
    InsertsUndone(manager, ids, w);
    forall k | k in out.world.db
      ensures k in w.db && w.db[k] == out.world.db[k]
    {
      assert At(out.world.db, k).Some?;
    }
    FewerIdentified(w.db, out.world.db, h.owner, h.bound, w.next);
    forall k
      ensures Holds(out.world.db, k, Held(h.entries, i, k, db), h.bound)
    {
      assert Holds(w.db, k, Held(h.entries, n, k, db), h.bound);
      HeldThroughInserts(h, i, n, manager, k, db);
      if k.collection == manager.collection && k.ref.Pub? && k.ref.id in ids {
        var j :| i <= j < n && h.entries[j].publicId == k.ref.id;
        assert k == KeyOf(manager, h.entries[j].publicId);
      }
    }
  }

  // ------------------------------------------------------------------ the whole undo

  // Whatever a custom inverse is about is gone or in play when its turn comes
  ghost predicate Playable(h: History, db: Db) {
    |h.states| == |h.entries| + 1 && forall i :: 0 <= i < |h.entries| ==> PartsInPlay(h, i, db)
  }

  ghost predicate NoneGone(entries: seq<Entry>, db: Db) {
    forall i :: 0 <= i < |entries| ==> PartsThere(entries, i, db)
  }

  ghost predicate QuietBelow(entries: seq<Entry>, n: nat, db: Db)
    requires n <= |entries|
  {
    forall i :: 0 <= i < n ==> QuietAt(entries, i, db)
  }

  lemma SingleFolds(h: History, i: nat, group: seq<Entry>, db: Db, w: World)
    requires Faithful(h) && AllInvertible(h) && Playable(h, db) && i < |h.entries| && CameTo(h, i + 1, db, w)
    requires |group| == 1 && group[0] == h.entries[i] && !group[0].Insert?
    ensures var out := UndoGroup(group, w);
            && CameTo(h, i, db, out.world)
            && (NoneGone(h.entries, db) ==> (out.residue == [] <==> QuietAt(h.entries, i, db)))
  {
    assert Invertible(h.entries[i], h.states[i + 1]) && PartsInPlay(h, i, db);
    assert NoneGone(h.entries, db) ==> PartsThere(h.entries, i, db);
    hide Faithful, AllInvertible, Playable, NoneGone, CameTo, Held, PartsThere, PartsInPlay;
    hide UndoInsertBatch, UndoUpdate, UndoDelete, UndoCompensated;
    match h.entries[i]
    case InsertBatch(_, _) => BatchFolds(h, i, db, w);
    case Update(_, _, _) => UpdateFolds(h, i, db, w);
    case Delete(_, _, _) => DeleteFolds(h, i, db, w);
    case Compensated(_, _, RestoreMissing(_, _)) => RestoreFolds(h, i, db, w);
    case Compensated(_, _, Custom(_, _, _)) => CustomFolds(h, i, db, w);
  }

  lemma InsertGroupFolds(h: History, n: nat, group: seq<Entry>, db: Db, w: World)
    requires |h.states| == |h.entries| + 1 && n <= |h.entries| && ValidGroup(group) && |group| <= n && CameTo(h, n, db, w)
    requires forall j :: 0 <= j < |group| ==> group[j] == h.entries[n - 1 - j]
    requires group[0].Insert?
    ensures var out := UndoGroup(group, w);
            && CameTo(h, n - |group|, db, out.world) && out.residue == []
            && forall i :: n - |group| <= i < n ==> QuietAt(h.entries, i, db)
  {
    GroupOfInserts(h, n, group, group[0].manager);
    InsertsFold(h, n - |group|, n, group[0].manager, GroupIds(group), db, w);
  }

  lemma GroupFolds(h: History, n: nat, group: seq<Entry>, db: Db, w: World)
    requires Faithful(h) && AllInvertible(h) && Playable(h, db)
    requires n <= |h.entries| && ValidGroup(group) && |group| <= n && CameTo(h, n, db, w)
    requires forall j :: 0 <= j < |group| ==> group[j] == h.entries[n - 1 - j]
    ensures var out := UndoGroup(group, w);
            && CameTo(h, n - |group|, db, out.world)
            && (NoneGone(h.entries, db) ==>
                  (out.residue == [] <==> forall i :: n - |group| <= i < n ==> QuietAt(h.entries, i, db)))
  {
    assert |h.states| == |h.entries| + 1 && group[0] == h.entries[n - 1];
    assert !group[0].Insert? ==> |group| == 1;
    hide *;
    if group[0].Insert? {
      InsertGroupFolds(h, n, group, db, w);
    } else {
      SingleFolds(h, n - 1, group, db, w);
    }
  }

  lemma QuietSplit(entries: seq<Entry>, i: nat, n: nat, db: Db)
    requires i <= n <= |entries|
    ensures QuietBelow(entries, n, db) <==>
              QuietBelow(entries, i, db) && forall j :: i <= j < n ==> QuietAt(entries, j, db)
  {
    hide QuietAt;
  }

  lemma NoGroupLeft(entries: seq<Entry>, n: nat)
    requires Covers([], entries, n)
    ensures n == 0
  {
    assert n == |Reverse(entries[..n])|;
  }

  lemma NextUndone(groups: seq<seq<Entry>>, w: World)
    requires groups != [] && forall i :: 0 <= i < |groups| ==> ValidGroup(groups[i])
    ensures var first := UndoGroup(groups[0], w); var rest := UndoGroups(groups[1..], first.world);
            && UndoGroups(groups, w) == Outcome(rest.world, first.residue + rest.residue)
            && (first.residue + rest.residue == [] <==> first.residue == [] && rest.residue == [])
  {
    hide UndoGroup;
  }

  lemma {:induction false} GroupsFold(h: History, n: nat, groups: seq<seq<Entry>>, db: Db, w: World)
    requires Faithful(h) && AllInvertible(h) && Playable(h, db)
    requires n <= |h.entries| && Covers(groups, h.entries, n) && CameTo(h, n, db, w)
    ensures var out := UndoGroups(groups, w);
            && CameTo(h, 0, db, out.world)
            && (NoneGone(h.entries, db) ==> (out.residue == [] <==> QuietBelow(h.entries, n, db)))
    decreases |groups|
  {
    if groups == [] {
      hide Faithful, AllInvertible, Playable, NoneGone, CameTo, Reverse, Flatten, UndoGroup, QuietAt, ValidGroup;
      NoGroupLeft(h.entries, n);
    } else {
      hide *;
      NextGroup(groups, h.entries, n);
      NextUndone(groups, w);
      var i := n - |groups[0]|;
      QuietSplit(h.entries, i, n, db);
      GroupFolds(h, n, groups[0], db, w);
      GroupsFold(h, i, groups[1..], db, UndoGroup(groups[0], w).world);
    }
  }

  /**
   The undo without faults is the fold: whatever store it starts from, each document ends as the fold has it, and
   the undo reports nothing if and only if the fold is quiet.
   */
  lemma UndoIsFold(h: History, w: World)
    requires Faithful(h) && AllInvertible(h) && Playable(h, w.db)
    requires w.faults == [] && Identified(w.db, h.owner, h.bound, w.next)
    ensures var out := Undo(h.entries, w);
            && CameTo(h, 0, w.db, out.world)
            && (NoneGone(h.entries, w.db) ==> (out.residue == [] <==> Quiet(h.entries, w.db)))
  {
    GroupsCover(h.entries);
    assert CameTo(h, |h.entries|, w.db, w);
    GroupsFold(h, |h.entries|, Groups(Reverse(h.entries)), w.db, w);
  }
}
