/**
 The collections a write ledger works on, and the faults that can strike a call.

 Every stored document is one entry of a single map. Its key names the collection and how the
 document is referred to: by its public_id when it carries one, by its MongoDB `_id` otherwise.
 Two documents of one collection can therefore not share a public_id, which is what the unique
 public_id index enforces; that they do not share an `_id` is the predicate OneOwner.
 */
module LedgerStore {
  import opened Prelude

  type Oid = nat

  datatype Ref = Pub(id: int) | Raw(oid: Oid)

  datatype Key = Key(collection: string, ref: Ref)

  // The value of one key; an array of ids is the set of its members
  datatype Field = Null | Number(n: int) | Text(t: string) | Members(ids: set<int>)

  type Fields = map<string, Field>

  // A stored document: its `_id`, and every other key but the public_id
  datatype Stored = Stored(oid: Oid, fields: Fields)

  type Db = map<Key, Stored>

  // What a filter can see of a document: the public_id if it has one, and the other keys
  datatype Document = Document(publicId: Option<int>, fields: Fields)

  // Everything is the empty filter {}; Ids is {'public_id': {'$in': ...}}; Where is any other one
  datatype Criteria = Everything | Ids(ids: set<int>) | Where(test: Document -> bool)

  predicate Matches(criteria: Criteria, key: Key, fields: Fields) {
    match criteria
    case Everything => true
    case Ids(ids) => key.ref.Pub? && key.ref.id in ids
    case Where(test) => test(Document(if key.ref.Pub? then Some(key.ref.id) else None, fields))
  }

  function At(db: Db, key: Key): Option<Stored> {
    if key in db then Some(db[key]) else None
  }

  function Find(db: Db, collection: string, criteria: Criteria): set<Key> {
    set k | k in db && k.collection == collection && Matches(criteria, k, db[k].fields)
  }

  function OidsIn(db: Db, collection: string, oids: set<Oid>): set<Key> {
    set k | k in db && k.collection == collection && db[k].oid in oids
  }

  /**
   One call's luck. A Broken call raises; of the documents it would have changed, only those in
   `applied` were changed. The empty set is a failure before any effect, a set holding every one
   of them a lost acknowledgement, anything between a partial batch.
   */
  datatype Fault = Clean | Broken(applied: set<Key>)

  // The database together with the luck of the calls still to come - beyond the script all is clean - and
  // the next `_id` a document that brings none is given
  datatype World = World(db: Db, faults: seq<Fault>, next: Oid) {
    function Luck(): Fault {
      if faults == [] then Clean else faults[0]
    }

    function Next(): World {
      World(db, if faults == [] then [] else faults[1..], next)
    }
  }

  // The store after a call that was to turn before into after and reached only the given keys
  function Partly(before: Db, after: Db, applied: set<Key>): (r: Db)
    ensures forall k :: At(r, k) == if k in applied then At(after, k) else At(before, k)
  {
    map k | k in before.Keys + after.Keys && (if k in applied then k in after else k in before)
      :: if k in applied then after[k] else before[k]
  }

  function Write(w: World, after: Db): (r: World)
    ensures forall k :: At(r.db, k) == At(after, k) || At(r.db, k) == At(w.db, k)
    ensures r.next == w.next
    ensures w.faults == [] ==> r == World(after, [], w.next)
  {
    match w.Luck()
    case Clean => World(after, w.Next().faults, w.next)
    case Broken(applied) => World(Partly(w.db, after, applied), w.Next().faults, w.next)
  }

  function Without(db: Db, keys: set<Key>): (r: Db)
    ensures forall k :: At(r, k) == if k in keys then None else At(db, k)
  {
    map k | k in db && k !in keys :: db[k]
  }

  // An empty filter is refused before the database is asked (BaseManager.delete_many)
  function DeleteMany(w: World, collection: string, criteria: Criteria): World {
    if criteria.Everything? then w
    else Write(w, Without(w.db, Find(w.db, collection, criteria)))
  }

  // replace_one keeps the stored `_id`, and changes nothing when no document matches
  function Replaced(db: Db, key: Key, fields: Fields): Db {
    if key in db then db[key := Stored(db[key].oid, fields)] else db
  }

  // The two unique indexes: the public_id (the key itself) and the `_id`
  predicate Insertable(db: Db, key: Key, doc: Stored) {
    && key !in db
    && OidsIn(db, key.collection, {doc.oid}) == {}
  }

  function Inserted(db: Db, key: Key, doc: Stored): Db {
    if Insertable(db, key, doc) then db[key := doc] else db
  }

  // A document as read before a write; the reads of this code base leave the `_id` out unless asked for it
  datatype Prior = Prior(oid: Option<Oid>, fields: Fields)

  // insert_one of a snapshot: under the `_id` it carries, else under a new one
  function InsertPrior(w: World, key: Key, prior: Prior): World {
    match prior.oid
    case Some(oid) => Write(w, Inserted(w.db, key, Stored(oid, prior.fields)))
    case None => Write(w.(next := w.next + 1), Inserted(w.db, key, Stored(w.next, prior.fields)))
  }

  // A document of a batch, read whole
  datatype Snapshot = Snapshot(ref: Ref, doc: Stored)

  // An unordered insert_many: every document the indexes accept is stored
  function InsertedAll(db: Db, collection: string, docs: seq<Snapshot>): Db
    decreases |docs|
  {
    if docs == [] then db
    else InsertedAll(Inserted(db, Key(collection, docs[0].ref), docs[0].doc), collection, docs[1..])
  }

  /**
   `owner` says which document an `_id` was handed out for. Holding of every state of a history, it
   says that MongoDB never used one `_id` for two documents of a collection.
   */
  ghost predicate OneOwner(db: Db, owner: (string, Oid) -> Ref) {
    forall k :: k in db ==> owner(k.collection, db[k].oid) == k.ref
  }

  /**
   What holds of the `_id`s while an undo hands out new ones: those below `bound` are of the history and belong
   to their owner, all are below the next one to hand out, and no two documents of a collection share one.
   */
  ghost predicate Identified(db: Db, owner: (string, Oid) -> Ref, bound: Oid, next: Oid) {
    && bound <= next
    && (forall k :: k in db ==> db[k].oid < next && (db[k].oid < bound ==> owner(k.collection, db[k].oid) == k.ref))
    && (forall k, k' :: k in db && k' in db && k.collection == k'.collection && db[k].oid == db[k'].oid ==> k == k')
  }
}
