/**
 What an undo reports is exactly what is wrong: for every script of faults, each entry of the residue is about a
 read-back that failed, or about a document that was not as before when it was read back; and whatever is so is reported.
 */
module LedgerReports {
  import opened Prelude
  import opened LedgerStore
  import opened LedgerUndo
  import opened LedgerHistory
  import opened LedgerHonesty
  import opened LedgerFold
  import Sorting

  // ------------------------------------------------------------------ calls

  // Of the calls to come, the one after n others fails
  predicate Fails(w: World, n: nat) {
    n < |w.faults| && w.faults[n].Broken?
  }

  // The script after n calls
  function After(faults: seq<Fault>, n: nat): seq<Fault> {
    if n <= |faults| then faults[n..] else []
  }

  ghost predicate OidStored(db: Db, collection: string, oid: Oid) {
    exists k :: k in db && k.collection == collection && db[k].oid == oid
  }

  // How many calls the undo of a group makes before its read-back, which is its last
  ghost function CallsBefore(group: seq<Entry>, w: World): nat
    requires group != []
  {
    match group[0]
    case Insert(_, _) => 1
    case InsertBatch(_, criteria) => if criteria == Everything then 0 else 1
    case Update(_, _, _) => 1
    case Delete(manager, id, _) => if !Fails(w, 0) && KeyOf(manager, id) !in w.db then 2 else 1
    case Compensated(_, _, RestoreMissing(manager, snapshots)) =>
      if !Fails(w, 0) && exists s :: s in snapshots && !OidStored(w.db, manager.collection, s.doc.oid) then 2 else 1
    case Compensated(_, _, Custom(_, _, _)) => 1
  }

  // ------------------------------------------------------------------ what may be reported

  // A report about the writes of the group
  ghost predicate IsAbout(group: seq<Entry>, r: Residue)
    requires group != []
  {
    match group[0]
    case Insert(manager, _) =>
      exists e :: e in group && e.Insert? && r == DocumentLeft(manager.collection, InsertKind, e.publicId)
    case InsertBatch(manager, criteria) => r == BatchLeft(manager.collection, criteria)
    case Update(manager, id, _) => r == DocumentLeft(manager.collection, UpdateKind, id)
    case Delete(manager, id, _) => r == DocumentLeft(manager.collection, DeleteKind, id)
    case Compensated(collection, description, _) => r == CompensationLeft(collection, description)
  }

  // The store bears the report out: an inserted document is there, something of a batch, an updated or deleted one is
  // not there or not as the snapshot has it, a snapshot's `_id` is missing, the verification says no
  ghost predicate IsTrue(group: seq<Entry>, r: Residue, db: Db)
    requires group != [] && IsAbout(group, r)
  {
    match group[0]
    case Insert(manager, _) => Key(manager.collection, Pub(r.publicId)) in db
    case InsertBatch(manager, criteria) =>
      exists k :: k in db && k.collection == manager.collection && Matches(criteria, k, db[k].fields)
    case Update(manager, id, prior) => !(KeyOf(manager, id) in db && db[KeyOf(manager, id)].fields == prior.fields)
    case Delete(manager, id, prior) => !(KeyOf(manager, id) in db && db[KeyOf(manager, id)].fields == prior.fields)
    case Compensated(_, _, RestoreMissing(manager, snapshots)) =>
      exists s :: s in snapshots && !OidStored(db, manager.collection, s.doc.oid)
    case Compensated(_, _, Custom(_, _, verify)) => !verify(db)
  }

  // Reported by the undo of the group from this world
  ghost predicate Due(group: seq<Entry>, w: World, r: Residue)
    requires ValidGroup(group)
  {
    && IsAbout(group, r)
    && (Fails(w, CallsBefore(group, w)) || IsTrue(group, r, UndoGroup(group, w).world.db))
  }

  // ------------------------------------------------------------------ one kind at a time

  lemma LuckAfter(w: World, n: nat)
    ensures World(w.db, After(w.faults, n), w.next).Luck().Broken? <==> Fails(w, n)
    ensures World(w.db, After(w.faults, n), w.next).Next().faults == After(w.faults, n + 1)
  {
  }

  lemma OneCall(w: World, after: Db)
    ensures var r := Write(w, after);
            r.faults == After(w.faults, 1) && (r.Luck().Broken? <==> Fails(w, 1)) && r.Next().faults == After(w.faults, 2)
    ensures w.Next().faults == After(w.faults, 1) && (w.Luck().Broken? <==> Fails(w, 0))
  {
    LuckAfter(w, 0);
    LuckAfter(w, 1);
  }

  lemma InsertsReported(manager: Manager, ids: seq<int>, w: World, r: Residue)
    ensures var out := UndoInserts(manager, ids, w);
            && out.world.faults == After(w.faults, 2)
            && (r in out.residue <==>
                exists id :: id in ids && r == DocumentLeft(manager.collection, InsertKind, id)
                             && (Fails(w, 1) || Key(manager.collection, Pub(id)) in out.world.db))
  {
    var deleted := DeleteMany(w, manager.collection, Ids(ToSet(ids)));
    var without := Without(w.db, Find(w.db, manager.collection, Ids(ToSet(ids))));
    OneCall(w, without);
    assert deleted == Write(w, without);
    var left := if deleted.Luck().Clean? then Surviving(deleted.db, manager, ids) else ids;
    hide Surviving, DeleteMany, SortedIds, ToSet;
    LeftMembers(manager, left, r);
    forall id
      ensures id in Surviving(deleted.db, manager, ids) <==> id in ids && KeyOf(manager, id) in deleted.db
    {
      SurvivingMembers(deleted.db, manager, ids, id);
    }
  }

  lemma LeftMembers(manager: Manager, left: seq<int>, r: Residue)
    ensures r in DocumentsLeft(manager.collection, InsertKind, SortedIds(left)) <==>
            exists id :: id in left && r == DocumentLeft(manager.collection, InsertKind, id)
  {
    var sorted := SortedIds(left);
    var all := DocumentsLeft(manager.collection, InsertKind, sorted);
    forall id
      ensures id in sorted <==> id in left
    {
      Sorting.SortMembers(left, (a: int, b: int) => a <= b, id);
    }
    hide SortedIds;
    if r in all {
      var at :| 0 <= at < |all| && all[at] == r;
      assert sorted[at] in sorted;
    }
    if id :| id in left && r == DocumentLeft(manager.collection, InsertKind, id) {
      var at :| 0 <= at < |sorted| && sorted[at] == id;
      assert all[at] == r;
    }
  }

  /** The survivors of a run are named in the order of their ids. */
  lemma InsertsInOrder(manager: Manager, ids: seq<int>, w: World)
    ensures var residue := UndoInserts(manager, ids, w).residue;
            forall i, j :: 0 <= i < j < |residue| ==>
              residue[i].DocumentLeft? && residue[j].DocumentLeft? && residue[i].publicId <= residue[j].publicId
  {
    var deleted := DeleteMany(w, manager.collection, Ids(ToSet(ids)));
    var left := if deleted.Luck().Clean? then Surviving(deleted.db, manager, ids) else ids;
    Sorting.SortOrdered(left, (a: int, b: int) => a <= b);
    hide Surviving, DeleteMany, ToSet;
  }

  lemma BatchReported(manager: Manager, criteria: Criteria, w: World)
    ensures var out := UndoInsertBatch(manager, criteria, w);
            var calls := if criteria == Everything then 0 else 1;
            && out.world.faults == After(w.faults, calls + 1)
            && out.residue == (if Fails(w, calls) || exists k :: k in out.world.db && k.collection == manager.collection && Matches(criteria, k, out.world.db[k].fields)
                               then [BatchLeft(manager.collection, criteria)] else [])
  {
    var deleted := DeleteMany(w, manager.collection, criteria);
    OneCall(w, Without(w.db, Find(w.db, manager.collection, criteria)));
    LuckAfter(w, 0);
    var found := Find(deleted.db, manager.collection, criteria);
    hide DeleteMany;
    if k :| k in deleted.db && k.collection == manager.collection && Matches(criteria, k, deleted.db[k].fields) {
      assert k in found;
    }
    if found != {} {
      var k :| k in found;
      assert Matches(criteria, k, deleted.db[k].fields);
    }
  }

  lemma UpdateReported(manager: Manager, id: int, prior: Prior, w: World)
    ensures var key, out := KeyOf(manager, id), UndoUpdate(manager, id, prior, w);
            && out.world.faults == After(w.faults, 2)
            && out.residue == (if Fails(w, 1) || !(key in out.world.db && out.world.db[key].fields == prior.fields)
                               then [DocumentLeft(manager.collection, UpdateKind, id)] else [])
  {
    OneCall(w, Replaced(w.db, KeyOf(manager, id), prior.fields));
    hide Write, Replaced;
  }

  lemma DeleteReported(manager: Manager, id: int, prior: Prior, w: World)
    ensures var key, out := KeyOf(manager, id), UndoDelete(manager, id, prior, w);
            var calls := if !Fails(w, 0) && key !in w.db then 2 else 1;
            && out.world.faults == After(w.faults, calls + 1)
            && out.residue == (if Fails(w, calls) || !(key in out.world.db && out.world.db[key].fields == prior.fields)
                               then [DocumentLeft(manager.collection, DeleteKind, id)] else [])
  {
    var key, looked := KeyOf(manager, id), w.Next();
    OneCall(w, w.db);
    LuckAfter(w, 1);
    LuckAfter(w, 2);
    InsertIsOneCall(looked, key, prior);
    hide InsertPrior;
  }

  lemma InsertIsOneCall(w: World, key: Key, prior: Prior)
    ensures InsertPrior(w, key, prior).faults == After(w.faults, 1)
  {
  }

  // ------------------------------------------------------------------ batch deletes

  lemma {:induction false} MissingIff(snapshots: seq<Snapshot>, found: set<Oid>)
    ensures Missing(snapshots, found) == [] <==> forall s :: s in snapshots ==> s.doc.oid in found
  {
    if snapshots != [] {
      MissingIff(snapshots[1..], found);
      assert forall s :: s in snapshots <==> s == snapshots[0] || s in snapshots[1..];
    }
  }

  lemma RestoreCalls(manager: Manager, snapshots: seq<Snapshot>, w: World)
    ensures RestoreSnapshots(manager, snapshots, w).faults
         == After(w.faults, if !Fails(w, 0) && exists s :: s in snapshots && !OidStored(w.db, manager.collection, s.doc.oid) then 2 else 1)
  {
    OneCall(w, w.db);
    LuckAfter(w, 1);
    var found := OidsIn(w.db, manager.collection, SnapshotOids(snapshots));
    var stored := set k | k in found :: w.db[k].oid;
    MissingIff(snapshots, stored);
    hide Missing, InsertedAll;
    forall s | s in snapshots
      ensures s.doc.oid in stored <==> OidStored(w.db, manager.collection, s.doc.oid)
    {
      if k :| k in w.db && k.collection == manager.collection && w.db[k].oid == s.doc.oid {
        assert s.doc.oid in SnapshotOids(snapshots) && k in found;
      }
    }
  }

  lemma RestoreReported(
    collection: string, description: Description, manager: Manager, snapshots: seq<Snapshot>, w: World, before: Db,
    owner: (string, Oid) -> Ref, bound: Oid)
    requires Identified(w.db, owner, bound, w.next) && OneOwner(before, owner) && Below(before, bound) && DistinctRefs(snapshots)
    requires forall s :: s in snapshots ==> At(before, Key(manager.collection, s.ref)) == Some(s.doc)
    ensures var out := UndoCompensated(collection, description, RestoreMissing(manager, snapshots), w);
            var calls := if !Fails(w, 0) && exists s :: s in snapshots && !OidStored(w.db, manager.collection, s.doc.oid) then 2 else 1;
            && out.world.faults == After(w.faults, calls + 1)
            && out.residue == (if Fails(w, calls) || exists s :: s in snapshots && !OidStored(out.world.db, manager.collection, s.doc.oid)
                               then [CompensationLeft(collection, description)] else [])
  {
    var calls := if !Fails(w, 0) && exists s :: s in snapshots && !OidStored(w.db, manager.collection, s.doc.oid) then 2 else 1;
    var restored := RestoreSnapshots(manager, snapshots, w);
    RestoreCalls(manager, snapshots, w);
    LuckAfter(w, calls);
    RestoreEffect(manager, snapshots, w, before, owner, bound);
    CountedIffStored(manager, snapshots, restored.db, before, owner, bound, restored.next);
    hide RestoreSnapshots, AllStored, OidStored, Identified;
  }

  // The count is full exactly when every snapshot's `_id` is stored
  lemma CountedIffStored(
    manager: Manager, snapshots: seq<Snapshot>, db: Db, before: Db, owner: (string, Oid) -> Ref, bound: Oid, next: Oid)
    requires Identified(db, owner, bound, next) && OneOwner(before, owner) && Below(before, bound) && DistinctRefs(snapshots)
    requires forall s :: s in snapshots ==> At(before, Key(manager.collection, s.ref)) == Some(s.doc)
    ensures AllStored(manager, snapshots, db) <==> forall s :: s in snapshots ==> OidStored(db, manager.collection, s.doc.oid)
  {
    if AllStored(manager, snapshots, db) {
      CountMeansAll(manager, snapshots, db, owner, bound, next);
    }
    if forall s :: s in snapshots ==> OidStored(db, manager.collection, s.doc.oid) {
      forall s | s in snapshots
        ensures var k := Key(manager.collection, s.ref); k in db && db[k].oid == s.doc.oid
      {
        assert Key(manager.collection, s.ref) in before;
        var k :| k in db && k.collection == manager.collection && db[k].oid == s.doc.oid;
        assert k == Key(k.collection, k.ref);
      }
      SnapshotsCounted(manager, snapshots, db, owner, bound, next);
    }
  }

  lemma CustomReported(collection: string, description: Description, inverse: Inverse, w: World)
    requires inverse.Custom?
    ensures var out := UndoCompensated(collection, description, inverse, w);
            && out.world.faults == After(w.faults, 2)
            && out.residue == (if Fails(w, 1) || !inverse.verify(out.world.db) then [CompensationLeft(collection, description)] else [])
  {
    OneCall(w, inverse.undo(w.db));
    hide Write;
  }

  // ------------------------------------------------------------------ one group

  ghost predicate Distinct(e: Entry) {
    e.Compensated? && e.inverse.RestoreMissing? ==> DistinctRefs(e.inverse.snapshots)
  }

  lemma BatchGroupReports(group: seq<Entry>, w: World, r: Residue)
    requires ValidGroup(group) && group[0].InsertBatch?
    ensures UndoGroup(group, w).world.faults == After(w.faults, CallsBefore(group, w) + 1)
    ensures r in UndoGroup(group, w).residue <==> Due(group, w, r)
  {
    hide Matches, UndoInsertBatch;
    BatchReported(group[0].manager, group[0].criteria, w);
  }

  lemma UpdateGroupReports(group: seq<Entry>, w: World, r: Residue)
    requires ValidGroup(group) && group[0].Update?
    ensures UndoGroup(group, w).world.faults == After(w.faults, CallsBefore(group, w) + 1)
    ensures r in UndoGroup(group, w).residue <==> Due(group, w, r)
  {
    hide UndoUpdate;
    UpdateReported(group[0].manager, group[0].publicId, group[0].prior, w);
  }

  lemma DeleteGroupReports(group: seq<Entry>, w: World, r: Residue)
    requires ValidGroup(group) && group[0].Delete?
    ensures UndoGroup(group, w).world.faults == After(w.faults, CallsBefore(group, w) + 1)
    ensures r in UndoGroup(group, w).residue <==> Due(group, w, r)
  {
    hide UndoDelete;
    DeleteReported(group[0].manager, group[0].publicId, group[0].prior, w);
  }

  lemma RestoreGroupReports(
    group: seq<Entry>, w: World, r: Residue, before: Db, owner: (string, Oid) -> Ref, bound: Oid)
    requires ValidGroup(group) && group[0].Compensated? && group[0].inverse.RestoreMissing? && Distinct(group[0])
    requires Identified(w.db, owner, bound, w.next) && OneOwner(before, owner) && Below(before, bound)
    requires var RestoreMissing(manager, snapshots) := group[0].inverse;
             forall s :: s in snapshots ==> At(before, Key(manager.collection, s.ref)) == Some(s.doc)
    ensures UndoGroup(group, w).world.faults == After(w.faults, CallsBefore(group, w) + 1)
    ensures r in UndoGroup(group, w).residue <==> Due(group, w, r)
  {
    hide UndoCompensated, OidStored, Identified;
    var RestoreMissing(manager, snapshots) := group[0].inverse;
    RestoreReported(group[0].collection, group[0].description, manager, snapshots, w, before, owner, bound);
  }

  lemma CustomGroupReports(group: seq<Entry>, w: World, r: Residue)
    requires ValidGroup(group) && group[0].Compensated? && group[0].inverse.Custom?
    ensures UndoGroup(group, w).world.faults == After(w.faults, CallsBefore(group, w) + 1)
    ensures r in UndoGroup(group, w).residue <==> Due(group, w, r)
  {
    hide UndoCompensated;
    CustomReported(group[0].collection, group[0].description, group[0].inverse, w);
  }

  /** One group: its calls are those counted, and it reports exactly what is due. */
  lemma GroupReportsIff(h: History, n: nat, group: seq<Entry>, w: World, r: Residue)
    requires Faithful(h) && n <= |h.entries| && ValidGroup(group) && |group| <= n && Distinct(group[0])
    requires forall j :: 0 <= j < |group| ==> group[j] == h.entries[n - 1 - j]
    requires Identified(w.db, h.owner, h.bound, w.next)
    ensures UndoGroup(group, w).world.faults == After(w.faults, CallsBefore(group, w) + 1)
    ensures r in UndoGroup(group, w).residue <==> Due(group, w, r)
  {
    var e := group[0];
    assert e == h.entries[n - 1];
    assert Recorded(e, Original(h), h.states[n - 1], h.states[n]);
    assert OneOwner(h.states[n - 1], h.owner) && Below(h.states[n - 1], h.bound);
    hide Faithful, Identified, UndoGroup, Due, CallsBefore, OneOwner, Below;
    match e
    case Insert(_, _) => InsertGroupReports(group, w, r);
    case InsertBatch(_, _) => BatchGroupReports(group, w, r);
    case Update(_, _, _) => UpdateGroupReports(group, w, r);
    case Delete(_, _, _) => DeleteGroupReports(group, w, r);
    case Compensated(_, _, RestoreMissing(_, _)) =>
      RestoreGroupReports(group, w, r, h.states[n - 1], h.owner, h.bound);
    case Compensated(_, _, Custom(_, _, _)) => CustomGroupReports(group, w, r);
  }

  lemma InsertGroupReports(group: seq<Entry>, w: World, r: Residue)
    requires ValidGroup(group) && group[0].Insert?
    ensures UndoGroup(group, w).world.faults == After(w.faults, CallsBefore(group, w) + 1)
    ensures r in UndoGroup(group, w).residue <==> Due(group, w, r)
  {
    var manager, ids := group[0].manager, GroupIds(group);
    hide UndoInserts;
    InsertsReported(manager, ids, w, r);
    if id :| id in ids && r == DocumentLeft(manager.collection, InsertKind, id) {
      var at :| 0 <= at < |ids| && ids[at] == id;
      assert group[at] in group;
    }
    if e :| e in group && e.Insert? && r == DocumentLeft(manager.collection, InsertKind, e.publicId) {
      var at :| 0 <= at < |group| && group[at] == e;
      assert ids[at] == e.publicId;
    }
  }

  // ------------------------------------------------------------------ the whole undo

  // The world in which the undo comes to the n-th group
  ghost function Reached(groups: seq<seq<Entry>>, w: World, n: nat): World
    requires n <= |groups| && forall i :: 0 <= i < |groups| ==> ValidGroup(groups[i])
  {
    if n == 0 then w else Reached(groups[1..], UndoGroup(groups[0], w).world, n - 1)
  }

  ghost predicate DueSomewhere(groups: seq<seq<Entry>>, w: World, r: Residue)
    requires forall i :: 0 <= i < |groups| ==> ValidGroup(groups[i])
  {
    exists n :: 0 <= n < |groups| && Due(groups[n], Reached(groups, w, n), r)
  }

  lemma DueNext(groups: seq<seq<Entry>>, w: World, r: Residue)
    requires groups != [] && forall i :: 0 <= i < |groups| ==> ValidGroup(groups[i])
    ensures DueSomewhere(groups, w, r) <==>
            Due(groups[0], w, r) || DueSomewhere(groups[1..], UndoGroup(groups[0], w).world, r)
  {
    hide Due, UndoGroup;
    var rest, next := groups[1..], UndoGroup(groups[0], w).world;
    forall n | 0 < n < |groups|
      ensures groups[n] == rest[n - 1] && Reached(groups, w, n) == Reached(rest, next, n - 1)
    {
    }
    assert Reached(groups, w, 0) == w;
    if n :| 0 <= n < |groups| && Due(groups[n], Reached(groups, w, n), r) {
      assert n > 0 ==> Due(rest[n - 1], Reached(rest, next, n - 1), r);
    }
    if Due(groups[0], w, r) {
      assert Due(groups[0], Reached(groups, w, 0), r);
    }
    if n :| 0 <= n < |rest| && Due(rest[n], Reached(rest, next, n), r) {
      assert Due(groups[n + 1], Reached(groups, w, n + 1), r);
    }
  }

  lemma {:induction false} GroupsReportIff(h: History, n: nat, groups: seq<seq<Entry>>, w: World, before: seq<Residue>, r: Residue)
    requires Faithful(h) && n < |h.states| && Covers(groups, h.entries, n) && Sound(h, n, w, before)
    requires forall i :: 0 <= i < |h.entries| ==> Distinct(h.entries[i])
    ensures r in UndoGroups(groups, w).residue <==> DueSomewhere(groups, w, r)
    decreases |groups|
  {
    hide *;
    if groups == [] {
      NothingReported(w, r);
    } else {
      NextGroup(groups, h.entries, n);
      DueNext(groups, w, r);
      NextReported(groups, w);
      OneGroupReports(h, n, groups[0], w, before, r);
      var first := UndoGroup(groups[0], w);
      GroupsReportIff(h, n - |groups[0]|, groups[1..], first.world, before + first.residue, r);
    }
  }

  lemma NothingReported(w: World, r: Residue)
    ensures r !in UndoGroups([], w).residue && !DueSomewhere([], w, r)
  {
  }

  lemma NextReported(groups: seq<seq<Entry>>, w: World)
    requires groups != [] && forall i :: 0 <= i < |groups| ==> ValidGroup(groups[i])
    ensures UndoGroups(groups, w).residue
         == UndoGroup(groups[0], w).residue + UndoGroups(groups[1..], UndoGroup(groups[0], w).world).residue
  {
    hide UndoGroup;
  }

  lemma OneGroupReports(h: History, n: nat, group: seq<Entry>, w: World, before: seq<Residue>, r: Residue)
    requires Faithful(h) && n < |h.states| && ValidGroup(group) && |group| <= n && Sound(h, n, w, before)
    requires forall i :: 0 <= i < |h.entries| ==> Distinct(h.entries[i])
    requires forall j :: 0 <= j < |group| ==> group[j] == h.entries[n - 1 - j]
    ensures r in UndoGroup(group, w).residue <==> Due(group, w, r)
    ensures var out := UndoGroup(group, w); Sound(h, n - |group|, out.world, before + out.residue)
  {
    assert |h.states| == |h.entries| + 1;
    assert Identified(w.db, h.owner, h.bound, w.next);
    hide Faithful, Sound, Identified, Distinct, UndoGroup, Due;
    assert Distinct(group[0]) by {
      assert group[0] == h.entries[n - 1];
    }
    GroupReportsIff(h, n, group, w, r);
    GroupStepSound(h, n, group, w, before);
  }

  /**
   Exactness: for every faithful history and every script of faults, the undo reports something if and only if, when
   the turn of its group came, the read-back failed or the store bore the report out. Nothing restored and read back
   is named, and a failure does not keep the groups after it from their turn.
   */
  lemma UndoReportsIff(h: History, faults: seq<Fault>, r: Residue)
    requires Faithful(h) && forall i :: 0 <= i < |h.entries| ==> Distinct(h.entries[i])
    ensures var groups := Groups(Reverse(h.entries));
            && (forall i :: 0 <= i < |groups| ==> ValidGroup(groups[i]))
            && (r in Undo(h.entries, Start(h, faults)).residue <==> DueSomewhere(groups, Start(h, faults), r))
  {
    GroupsCover(h.entries);
    StartSound(h, faults);
    GroupsReportIff(h, |h.entries|, Groups(Reverse(h.entries)), Start(h, faults), [], r);
  }

  // ------------------------------------------------------------------ calls that succeed

  // None of the calls of the group fails
  ghost predicate AllCallsSucceed(group: seq<Entry>, w: World)
    requires group != []
  {
    forall i :: 0 <= i <= CallsBefore(group, w) ==> !Fails(w, i)
  }

  lemma CleanWrite(w: World, after: Db)
    requires !Fails(w, 0)
    ensures Write(w, after) == World(after, After(w.faults, 1), w.next)
  {
  }

  /**
   A group none of whose own calls fails is undone as if nothing had failed at all, whatever failed before it and will
   fail after it.
   */
  lemma SucceedingGroup(group: seq<Entry>, w: World)
    requires ValidGroup(group) && AllCallsSucceed(group, w)
    ensures var out, clean := UndoGroup(group, w), UndoGroup(group, w.(faults := []));
            out.world.db == clean.world.db && out.world.next == clean.world.next && out.residue == clean.residue
  {
    assert |group| > 1 ==> InsertThrough(group[0], group[0]);
    assert !Fails(w, 0);
    match group[0]
    case Compensated(_, _, RestoreMissing(manager, snapshots)) => SucceedingRestore(group, w);
    case Delete(manager, id, prior) => SucceedingDelete(manager, id, prior, w);
    case _ =>
      assert CallsBefore(group, w) >= 1 ==> !Fails(w, 1);
      LuckAfter(w, 0);
      LuckAfter(w, 1);
  }

  lemma SucceedingDelete(manager: Manager, id: int, prior: Prior, w: World)
    requires AllCallsSucceed([Delete(manager, id, prior)], w)
    ensures var out, clean := UndoDelete(manager, id, prior, w), UndoDelete(manager, id, prior, w.(faults := []));
            out.world.db == clean.world.db && out.world.next == clean.world.next && out.residue == clean.residue
  {
    var group := [Delete(manager, id, prior)];
    assert !Fails(w, 0) && !Fails(w, 1);
    assert KeyOf(manager, id) !in w.db ==> !Fails(w, 2);
  }

  lemma SucceedingRestore(group: seq<Entry>, w: World)
    requires ValidGroup(group) && group[0].Compensated? && group[0].inverse.RestoreMissing? && AllCallsSucceed(group, w)
    ensures var out, clean := UndoGroup(group, w), UndoGroup(group, w.(faults := []));
            out.world.db == clean.world.db && out.world.next == clean.world.next && out.residue == clean.residue
  {
    var RestoreMissing(manager, snapshots) := group[0].inverse;
    RestoreCalls(manager, snapshots, w);
    LuckAfter(w, CallsBefore(group, w));
    assert !Fails(w, 0) && !Fails(w, 1) && !Fails(w, CallsBefore(group, w));
    hide InsertedAll, Missing, OidsIn, AllStored, OidStored;
  }
}
