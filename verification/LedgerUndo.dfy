/** What a ledger records, and what undoing it does to the store and reports back. */
module LedgerUndo {
  import opened Prelude
  import opened LedgerStore
  import Sorting

  // A manager object; two of them may write the same collection, so they are told apart by a tag
  datatype Manager = Manager(tag: nat, collection: string)

  // The text a residue names a compensated write by, with the documents that text speaks of
  datatype Description = Description(text: string, documents: set<Key>)

  // The keys of one document a compensated write changes, and what they held
  datatype Part = Part(names: set<string>, prior: Fields)

  // The pair of callables a compensated write brings along; a custom one is kept with its footprint, the parts
  // of documents it re-points
  datatype Inverse =
    | RestoreMissing(manager: Manager, snapshots: seq<Snapshot>)
    | Custom(footprint: map<Key, Part>, undo: Db -> Db, verify: Db -> bool)

  datatype Entry =
    | Insert(manager: Manager, publicId: int)
    | InsertBatch(manager: Manager, criteria: Criteria)
    | Update(manager: Manager, publicId: int, prior: Prior)
    | Delete(manager: Manager, publicId: int, prior: Prior)
    | Compensated(collection: string, description: Description, inverse: Inverse)

  datatype WriteKind = InsertKind | UpdateKind | DeleteKind

  datatype Residue =
    | DocumentLeft(collection: string, kind: WriteKind, publicId: int)
    | BatchLeft(collection: string, criteria: Criteria)
    | CompensationLeft(collection: string, description: Description)

  datatype Outcome = Outcome(world: World, residue: seq<Residue>)

  function KeyOf(manager: Manager, publicId: int): Key {
    Key(manager.collection, Pub(publicId))
  }

  function SortedIds(ids: seq<int>): seq<int> {
    Sorting.Sort(ids, (a: int, b: int) => a <= b)
  }

  // The public_ids among `ids` that the collection still stores
  function Surviving(db: Db, manager: Manager, ids: seq<int>): seq<int> {
    if ids == [] then []
    else (if KeyOf(manager, ids[0]) in db && ids[0] !in ids[1..] then [ids[0]] else []) + Surviving(db, manager, ids[1..])
  }

  function DocumentsLeft(collection: string, kind: WriteKind, ids: seq<int>): seq<Residue> {
    seq(|ids|, i requires 0 <= i < |ids| => DocumentLeft(collection, kind, ids[i]))
  }

  function UndoInserts(manager: Manager, ids: seq<int>, w: World): Outcome {
    var deleted := DeleteMany(w, manager.collection, Ids(ToSet(ids)));
    var left := if deleted.Luck().Clean? then Surviving(deleted.db, manager, ids) else ids;
    Outcome(deleted.Next(), DocumentsLeft(manager.collection, InsertKind, SortedIds(left)))
  }

  function UndoInsertBatch(manager: Manager, criteria: Criteria, w: World): Outcome {
    var deleted := DeleteMany(w, manager.collection, criteria);
    var remaining := if deleted.Luck().Clean? then |Find(deleted.db, manager.collection, criteria)| else 1;
    Outcome(deleted.Next(), if remaining != 0 then [BatchLeft(manager.collection, criteria)] else [])
  }

  // The read-back of one document; `_id` is not compared
  predicate StoredEquals(w: World, key: Key, prior: Prior) {
    w.Luck().Clean? && key in w.db && w.db[key].fields == prior.fields
  }

  function ReadBack(manager: Manager, publicId: int, kind: WriteKind, prior: Prior, w: World): Outcome {
    Outcome(w.Next(), if StoredEquals(w, KeyOf(manager, publicId), prior) then []
                      else [DocumentLeft(manager.collection, kind, publicId)])
  }

  function UndoUpdate(manager: Manager, publicId: int, prior: Prior, w: World): Outcome {
    var restored := Write(w, Replaced(w.db, KeyOf(manager, publicId), prior.fields));
    ReadBack(manager, publicId, UpdateKind, prior, restored)
  }

  function UndoDelete(manager: Manager, publicId: int, prior: Prior, w: World): Outcome {
    var key := KeyOf(manager, publicId);
    var looked := w.Next();
    var restored := if w.Luck().Clean? && key !in w.db then InsertPrior(looked, key, prior) else looked;
    ReadBack(manager, publicId, DeleteKind, prior, restored)
  }

  function SnapshotOids(snapshots: seq<Snapshot>): set<Oid> {
    set s | s in snapshots :: s.doc.oid
  }

  function Missing(snapshots: seq<Snapshot>, found: set<Oid>): seq<Snapshot> {
    if snapshots == [] then []
    else (if snapshots[0].doc.oid in found then [] else [snapshots[0]]) + Missing(snapshots[1..], found)
  }

  // _restore_missing: one read of what is still stored, one insert of the rest; it may raise half-way
  function RestoreSnapshots(manager: Manager, snapshots: seq<Snapshot>, w: World): World {
    if w.Luck().Broken? then w.Next()
    else
      var stored := set k | k in OidsIn(w.db, manager.collection, SnapshotOids(snapshots)) :: w.db[k].oid;
      var missing := Missing(snapshots, stored);
      if missing == [] then w.Next()
      else Write(w.Next(), InsertedAll(w.db, manager.collection, missing))
  }

  // _count_stored compared with the size of the batch
  predicate AllStored(manager: Manager, snapshots: seq<Snapshot>, db: Db) {
    |OidsIn(db, manager.collection, SnapshotOids(snapshots))| == |snapshots|
  }

  function RunInverse(inverse: Inverse, w: World): World {
    match inverse
    case RestoreMissing(manager, snapshots) => RestoreSnapshots(manager, snapshots, w)
    case Custom(_, undo, _) => Write(w, undo(w.db))
  }

  predicate Verified(inverse: Inverse, db: Db) {
    match inverse
    case RestoreMissing(manager, snapshots) => AllStored(manager, snapshots, db)
    case Custom(_, _, verify) => verify(db)
  }

  function UndoCompensated(collection: string, description: Description, inverse: Inverse, w: World): Outcome {
    var undone := RunInverse(inverse, w);
    Outcome(undone.Next(), if undone.Luck().Clean? && Verified(inverse, undone.db) then []
                           else [CompensationLeft(collection, description)])
  }

  // ------------------------------------------------------------------ groups

  // The entry joins the run before it: both inserts, through the very same manager
  predicate Joins(previous: Entry, entry: Entry) {
    InsertThrough(entry, previous)
  }

  // One round of the grouping loop
  function AddToGroups(groups: seq<seq<Entry>>, entry: Entry): (r: seq<seq<Entry>>)
  {
    if groups != [] && groups[|groups| - 1] != [] && Joins(Last(Last(groups)), entry)
    then groups[..|groups| - 1] + [Last(groups) + [entry]]
    else groups + [[entry]]
  }

  function Last<T>(s: seq<T>): T
    requires s != []
  {
    s[|s| - 1]
  }

  // The groups after the loop has taken all of `newestFirst`
  function Groups(newestFirst: seq<Entry>): seq<seq<Entry>>
    decreases |newestFirst|
  {
    if newestFirst == [] then []
    else AddToGroups(Groups(newestFirst[..|newestFirst| - 1]), Last(newestFirst))
  }

  predicate InsertThrough(entry: Entry, first: Entry) {
    entry.Insert? && first.Insert? && entry.manager == first.manager
  }

  predicate ValidGroup(group: seq<Entry>) {
    && group != []
    && (|group| > 1 ==> forall i :: 0 <= i < |group| ==> InsertThrough(group[i], group[0]))
  }

  function GroupIds(group: seq<Entry>): (ids: seq<int>)
    requires forall i :: 0 <= i < |group| ==> group[i].Insert?
  {
    seq(|group|, i requires 0 <= i < |group| => group[i].publicId)
  }

  function UndoGroup(group: seq<Entry>, w: World): Outcome
    requires ValidGroup(group)
  {
    match group[0]
    case Insert(manager, _) => UndoInserts(manager, GroupIds(group), w)
    case InsertBatch(manager, criteria) => UndoInsertBatch(manager, criteria, w)
    case Update(manager, publicId, prior) => UndoUpdate(manager, publicId, prior, w)
    case Delete(manager, publicId, prior) => UndoDelete(manager, publicId, prior, w)
    case Compensated(collection, description, inverse) => UndoCompensated(collection, description, inverse, w)
  }

  // The groups undone one after the other, their residue in that order
  function UndoGroups(groups: seq<seq<Entry>>, w: World): Outcome
    requires forall i :: 0 <= i < |groups| ==> ValidGroup(groups[i])
  {
    if groups == [] then Outcome(w, [])
    else
      var first := UndoGroup(groups[0], w);
      var rest := UndoGroups(groups[1..], first.world);
      Outcome(rest.world, first.residue + rest.residue)
  }

  // One round of the grouping keeps every entry and its place, and joins only like inserts
  lemma AddKeepsOrder(groups: seq<seq<Entry>>, entry: Entry)
    requires forall i :: 0 <= i < |groups| ==> ValidGroup(groups[i])
    ensures Flatten(AddToGroups(groups, entry)) == Flatten(groups) + [entry]
    ensures forall i :: 0 <= i < |AddToGroups(groups, entry)| ==> ValidGroup(AddToGroups(groups, entry)[i])
  {
    hide Flatten;
    if groups != [] && Last(groups) != [] && Joins(Last(Last(groups)), entry) {
      var rest, last := groups[..|groups| - 1], Last(groups);
      assert groups == rest + [last];
      FlattenLast(rest, last);
      FlattenLast(rest, last + [entry]);
      assert ValidGroup(last);
    } else {
      FlattenLast(groups, [entry]);
    }
  }

  // The grouping keeps every entry and its place, newest first, and joins only runs of like inserts
  lemma {:induction false} GroupsKeepOrder(newestFirst: seq<Entry>)
    ensures Flatten(Groups(newestFirst)) == newestFirst
    ensures forall i :: 0 <= i < |Groups(newestFirst)| ==> ValidGroup(Groups(newestFirst)[i])
    decreases |newestFirst|
  {
    if newestFirst != [] {
      var n := |newestFirst| - 1;
      var before, last := newestFirst[..n], Last(newestFirst);
      GroupsKeepOrder(before);
      AddKeepsOrder(Groups(before), last);
      assert Groups(newestFirst) == AddToGroups(Groups(before), last);
      hide *;
      assert newestFirst == before + [last];
    }
  }

  // Two groups in a row that could have been one: both inserts, through one manager
  predicate CouldJoin(group: seq<Entry>, next: seq<Entry>)
    requires group != [] && next != []
  {
    Last(group).Insert? && next[0].Insert? && Last(group).manager == next[0].manager
  }

  /** No two groups in a row could have been one, so a run of inserts costs one delete however long it is. */
  lemma {:induction false} GroupsAreMaximal(newestFirst: seq<Entry>)
    ensures forall i :: 0 <= i < |Groups(newestFirst)| ==> Groups(newestFirst)[i] != []
    ensures forall i :: 0 <= i < |Groups(newestFirst)| - 1 ==> !CouldJoin(Groups(newestFirst)[i], Groups(newestFirst)[i + 1])
    decreases |newestFirst|
  {
    if newestFirst != [] {
      GroupsAreMaximal(newestFirst[..|newestFirst| - 1]);
    }
  }

  /** The undo of a whole ledger (entries oldest first, as recorded). */
  function Undo(entries: seq<Entry>, w: World): Outcome {
    GroupsKeepOrder(Reverse(entries));
    UndoGroups(Groups(Reverse(entries)), w)
  }
}
