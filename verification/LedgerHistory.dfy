/** What it means that a ledger was kept faithfully while the writes of a request happened. */
module LedgerHistory {
  import opened Prelude
  import opened LedgerStore
  import opened LedgerUndo

  /**
   The entries of a ledger and the states between the writes: states[i] is the store before entry i's write.
   Every `_id` of the history is below `bound`, and belongs to one document, its owner.
   */
  datatype History = History(entries: seq<Entry>, states: seq<Db>, owner: (string, Oid) -> Ref, bound: Oid)

  // One document inserted - or not: the record claims no more than that it may be there
  ghost predicate InsertRecorded(key: Key, before: Db, after: Db) {
    && key !in before
    && (after == before || (key in after && after == before[key := after[key]]))
  }

  // A batch, any part of it stored. What it stores matches the criteria; of what was stored before it, only
  // documents the request created itself do.
  ghost predicate BatchRecorded(collection: string, criteria: Criteria, found: Db, before: Db, after: Db) {
    && (forall k :: k in Find(before, collection, criteria) ==> k !in found)
    && (forall k :: k in before ==> At(after, k) == At(before, k))
    && (forall k :: k in after && k !in before ==> k in Find(after, collection, criteria))
  }

  // The snapshot is the document, with or without its `_id`
  predicate IsSnapshot(prior: Prior, doc: Stored) {
    prior.fields == doc.fields && (prior.oid.Some? ==> prior.oid.value == doc.oid)
  }

  // One document changed in any way that keeps its two ids
  ghost predicate UpdateRecorded(key: Key, prior: Prior, before: Db, after: Db) {
    && key in before && IsSnapshot(prior, before[key])
    && key in after && after[key].oid == before[key].oid
    && after == before[key := after[key]]
  }

  ghost predicate DeleteRecorded(key: Key, prior: Prior, before: Db, after: Db) {
    && key in before && IsSnapshot(prior, before[key])
    && (after == before || after == Without(before, {key}))
  }

  // A batch delete, any part of it carried out, with a snapshot of every document it names
  ghost predicate BatchDeleteRecorded(
    collection: string, documents: set<Key>, snapshots: seq<Snapshot>, before: Db, after: Db)
  {
    && (forall s :: s in snapshots ==> At(before, Key(collection, s.ref)) == Some(s.doc))
    && documents == (set s | s in snapshots :: Key(collection, s.ref))
    && (exists gone: set<Key> :: gone <= documents && after == Without(before, gone))
  }

  // ------------------------------------------------------------------ parts of documents

  function Within(fields: Fields, names: set<string>): Fields {
    map f | f in fields && f in names :: fields[f]
  }

  function Beside(fields: Fields, names: set<string>): Fields {
    map f | f in fields && f !in names :: fields[f]
  }

  lemma WholeOfParts(a: Fields, b: Fields, names: set<string>)
    requires Within(a, names) == Within(b, names) && Beside(a, names) == Beside(b, names)
    ensures a == b
  {
    forall f
      ensures f in a <==> f in b
      ensures f in a && f in b ==> a[f] == b[f]
    {
      assert f in a <==> f in Within(a, names) || f in Beside(a, names);
      assert f in b <==> f in Within(b, names) || f in Beside(b, names);
      assert f in a && f in names ==> Within(a, names)[f] == a[f] && Within(b, names)[f] == b[f];
      assert f in a && f !in names ==> Beside(a, names)[f] == a[f] && Beside(b, names)[f] == b[f];
    }
  }

  // Nothing but the keys of the footprint differs between the two stores
  ghost predicate OnlyParts(footprint: map<Key, Part>, before: Db, after: Db) {
    && after.Keys == before.Keys
    && forall k :: k in before ==>
         && after[k].oid == before[k].oid
         && if k in footprint then Beside(after[k].fields, footprint[k].names) == Beside(before[k].fields, footprint[k].names)
            else after[k] == before[k]
  }

  // The part of a footprint's document is what it was before the write, or what the write made of it
  ghost predicate InPlay(footprint: map<Key, Part>, after: Db, k: Key, fields: Fields)
    requires k in footprint && k in after
  {
    var names := footprint[k].names;
    Within(fields, names) == footprint[k].prior || Within(fields, names) == Within(after[k].fields, names)
  }

  /**
   What compensated() asks of its caller: the write and its inverse touch nothing but the footprint, the inverse
   does not make a third thing of a part in play, and the verification answers True only when the parts in play
   are what they were. The verification may look at nothing else of the documents.
   */
  ghost predicate CompensationRecorded(
    documents: set<Key>, footprint: map<Key, Part>, undo: Db -> Db, verify: Db -> bool, before: Db, after: Db)
  {
    && footprint.Keys <= documents && footprint.Keys <= before.Keys
    && (forall k :: k in footprint ==> Within(before[k].fields, footprint[k].names) == footprint[k].prior)
    && OnlyParts(footprint, before, after)
    && (forall db :: OnlyParts(footprint, db, undo(db)))
    && (forall db: Db, k: Key :: k in footprint && k in db && k in undo(db) && InPlay(footprint, after, k, db[k].fields) ==>
          InPlay(footprint, after, k, undo(db)[k].fields))
    && (forall db: Db, k: Key :: k in footprint && k in db && verify(db) && InPlay(footprint, after, k, db[k].fields) ==>
          Within(db[k].fields, footprint[k].names) == footprint[k].prior)
  }

  // `found` is the store as the request found it
  ghost predicate Recorded(entry: Entry, found: Db, before: Db, after: Db) {
    match entry
    case Insert(manager, publicId) => InsertRecorded(KeyOf(manager, publicId), before, after)
    case InsertBatch(manager, criteria) => BatchRecorded(manager.collection, criteria, found, before, after)
    case Update(manager, publicId, prior) => UpdateRecorded(KeyOf(manager, publicId), prior, before, after)
    case Delete(manager, publicId, prior) => DeleteRecorded(KeyOf(manager, publicId), prior, before, after)
    case Compensated(collection, description, RestoreMissing(manager, snapshots)) =>
      && collection == manager.collection
      && BatchDeleteRecorded(collection, description.documents, snapshots, before, after)
    case Compensated(collection, description, Custom(footprint, undo, verify)) =>
      CompensationRecorded(description.documents, footprint, undo, verify, before, after)
  }

  // An `_id` that some document of the collection carried in one of states[..i + 1]
  ghost predicate Used(states: seq<Db>, i: nat, collection: string, oid: Oid) {
    exists j, k :: 0 <= j <= i && j < |states| && k in states[j] && k.collection == collection && states[j][k].oid == oid
  }

  /**
   A faithful history: every write is recorded as its kind asks, MongoDB gives no `_id` to two
   documents, and the documents of a batch are new ones, with `_id`s nothing carried before.
   */
  ghost predicate Faithful(h: History) {
    && |h.states| == |h.entries| + 1
    && (forall i :: 0 <= i < |h.entries| ==> Recorded(h.entries[i], h.states[0], h.states[i], h.states[i + 1]))
    && (forall i :: 0 <= i < |h.states| ==> OneOwner(h.states[i], h.owner) && Below(h.states[i], h.bound))
    && (forall i :: 0 <= i < |h.entries| && h.entries[i].InsertBatch? ==> FreshIds(h, i))
  }

  ghost predicate Below(db: Db, bound: Oid) {
    forall k :: k in db ==> db[k].oid < bound
  }

  ghost predicate FreshIds(h: History, i: nat)
    requires i + 1 < |h.states|
  {
    forall k :: k in h.states[i + 1] && k !in h.states[i] ==> !Used(h.states, i, k.collection, h.states[i + 1][k].oid)
  }

  function Original(h: History): Db
    requires h.states != []
  {
    h.states[0]
  }

  function Final(h: History): Db
    requires h.states != []
  {
    Last(h.states)
  }

  // Where the undo of a history starts: after the last write, with whatever luck
  function Start(h: History, faults: seq<Fault>): World
    requires h.states != []
  {
    World(Final(h), faults, h.bound)
  }
}
