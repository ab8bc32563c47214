/** The ledger object and the database it writes to; both are proved against the functions of LedgerUndo. */
module WriteLedger {
  import opened Prelude
  import opened LedgerStore
  import Spec = LedgerUndo
  import opened LedgerUndo

  /** The database behind the managers. Each call meets the next fault of the script and may raise. */
  class Database {
    var db: Db
    var faults: seq<Fault>
    var next: Oid

    function Now(): World
      reads this
    {
      World(db, faults, next)
    }

    constructor (db: Db, faults: seq<Fault>, next: Oid)
      ensures Now() == World(db, faults, next)
    {
      this.db := db;
      this.faults := faults;
      this.next := next;
    }

    // Every call takes one fault off the script; a clean call does all of its effect
    method Call(after: Db) returns (raised: bool)
      modifies this
      ensures Now() == LedgerStore.Write(old(Now()), after)
      ensures raised == old(Now()).Luck().Broken?
    {
      var luck := Now().Luck();
      faults := Now().Next().faults;
      match luck
      case Clean =>
        db := after;
        raised := false;
      case Broken(applied) =>
        db := Partly(db, after, applied);
        raised := true;
    }

    method Read() returns (raised: bool)
      modifies this`faults
      ensures Now() == old(Now()).Next()
      ensures raised == old(Now()).Luck().Broken?
    {
      raised := Now().Luck().Broken?;
      faults := Now().Next().faults;
    }

    method DeleteMany(collection: string, criteria: Criteria) returns (raised: bool)
      modifies this
      ensures Now() == LedgerStore.DeleteMany(old(Now()), collection, criteria)
      ensures criteria.Everything? ==> raised
    {
      if criteria.Everything? {
        return true;
      }
      raised := Call(Without(db, Find(db, collection, criteria)));
    }

    method Replace(key: Key, prior: Prior) returns (raised: bool)
      modifies this
      ensures Now() == LedgerStore.Write(old(Now()), Replaced(old(db), key, prior.fields))
    {
      raised := Call(Replaced(db, key, prior.fields));
    }

    // A document without an `_id` is given a new one
    method Insert(key: Key, prior: Prior) returns (raised: bool)
      modifies this
      ensures Now() == InsertPrior(old(Now()), key, prior)
    {
      var oid := if prior.oid.Some? then prior.oid.value else next;
      if prior.oid.None? {
        next := next + 1;
      }
      raised := Call(Inserted(db, key, Stored(oid, prior.fields)));
    }

    method InsertMany(collection: string, docs: seq<Snapshot>) returns (raised: bool)
      modifies this
      ensures Now() == LedgerStore.Write(old(Now()), InsertedAll(old(db), collection, docs))
    {
      raised := Call(InsertedAll(db, collection, docs));
    }

    method GetOneBy(key: Key) returns (raised: bool, found: Option<Stored>)
      modifies this`faults
      ensures Now() == old(Now()).Next()
      ensures raised == old(Now()).Luck().Broken?
      ensures !raised ==> found == At(db, key)
    {
      raised := Read();
      found := At(db, key);
    }
  }

  // The description of a batch delete speaks of the documents it has snapshots of
  function Named(manager: Manager, priors: seq<Snapshot>, text: string): Description {
    Description(text, set p | p in priors :: Key(manager.collection, p.ref))
  }

  class WriteLedger {
    var entries: seq<Entry>
    const database: Database

    constructor (database: Database)
      ensures entries == [] && this.database == database
    {
      entries := [];
      this.database := database;
    }

    method Inserted(manager: Manager, publicId: int)
      modifies this
      ensures entries == old(entries) + [Spec.Insert(manager, publicId)]
    {
      entries := entries + [Spec.Insert(manager, publicId)];
    }

    method InsertedWhere(manager: Manager, criteria: Criteria)
      modifies this
      ensures entries == old(entries) + [Spec.InsertBatch(manager, criteria)]
    {
      entries := entries + [Spec.InsertBatch(manager, criteria)];
    }

    method Updated(manager: Manager, publicId: int, prior: Prior)
      modifies this
      ensures entries == old(entries) + [Spec.Update(manager, publicId, prior)]
    {
      entries := entries + [Spec.Update(manager, publicId, prior)];
    }

    method Deleted(manager: Manager, publicId: int, prior: Prior)
      modifies this
      ensures entries == old(entries) + [Spec.Delete(manager, publicId, prior)]
    {
      entries := entries + [Spec.Delete(manager, publicId, prior)];
    }

    method Compensated(collection: string, description: Description, inverse: Inverse)
      modifies this
      ensures entries == old(entries) + [Spec.Compensated(collection, description, inverse)]
    {
      entries := entries + [Spec.Compensated(collection, description, inverse)];
    }

    // An empty batch records nothing
    method DeletedMany(manager: Manager, priors: seq<Snapshot>, text: string)
      modifies this
      ensures priors == [] ==> entries == old(entries)
      ensures priors != [] ==> entries == old(entries) + [Spec.Compensated(
                manager.collection, Named(manager, priors, text), RestoreMissing(manager, priors))]
    {
      if priors == [] {
        return;
      }
      Compensated(manager.collection, Named(manager, priors, text), RestoreMissing(manager, priors));
    }

    method UndoGroups() returns (groups: seq<seq<Entry>>)
      ensures groups == Spec.Groups(Reverse(entries))
      ensures Flatten(groups) == Reverse(entries)
      ensures forall i :: 0 <= i < |groups| ==> ValidGroup(groups[i])
    {
      groups := [];
      var newestFirst := Reverse(entries);
      for i := 0 to |newestFirst|
        invariant groups == Spec.Groups(newestFirst[..i])
      {
        var entry := newestFirst[i];
        assert newestFirst[..i + 1][..i] == newestFirst[..i];
        var last := |groups| - 1;
        if groups != [] && groups[last] != [] && Joins(Last(groups[last]), entry) {
          groups := groups[..last] + [groups[last] + [entry]];
        } else {
          groups := groups + [[entry]];
        }
      }
      assert newestFirst[..|newestFirst|] == newestFirst;
      GroupsKeepOrder(newestFirst);
    }

    method UndoInserts(manager: Manager, ids: seq<int>) returns (residue: seq<Residue>)
      modifies database
      ensures Outcome(database.Now(), residue) == Spec.UndoInserts(manager, ids, old(database.Now()))
    {
      var _ := database.DeleteMany(manager.collection, Ids(ToSet(ids)));
      var raised := database.Read();
      var surviving := if raised then ids else Surviving(database.db, manager, ids);
      residue := DocumentsLeft(manager.collection, InsertKind, SortedIds(surviving));
    }

    method UndoInsertBatch(manager: Manager, criteria: Criteria) returns (residue: seq<Residue>)
      modifies database
      ensures Outcome(database.Now(), residue) == Spec.UndoInsertBatch(manager, criteria, old(database.Now()))
    {
      var _ := database.DeleteMany(manager.collection, criteria);
      var raised := database.Read();
      var remaining := if raised then 1 else |Find(database.db, manager.collection, criteria)|;
      residue := if remaining != 0 then [BatchLeft(manager.collection, criteria)] else [];
    }

    method StoredEquals(key: Key, prior: Prior) returns (equal: bool)
      modifies database`faults
      ensures equal == Spec.StoredEquals(old(database.Now()), key, prior)
      ensures database.Now() == old(database.Now()).Next()
    {
      var raised, found := database.GetOneBy(key);
      if raised || found.None? {
        return false;
      }
      equal := found.value.fields == prior.fields;
    }

    method UndoUpdate(manager: Manager, publicId: int, prior: Prior) returns (residue: seq<Residue>)
      modifies database
      ensures Outcome(database.Now(), residue) == Spec.UndoUpdate(manager, publicId, prior, old(database.Now()))
    {
      var _ := database.Replace(KeyOf(manager, publicId), prior);
      var equal := StoredEquals(KeyOf(manager, publicId), prior);
      residue := if equal then [] else [DocumentLeft(manager.collection, UpdateKind, publicId)];
    }

    method UndoDelete(manager: Manager, publicId: int, prior: Prior) returns (residue: seq<Residue>)
      modifies database
      ensures Outcome(database.Now(), residue) == Spec.UndoDelete(manager, publicId, prior, old(database.Now()))
    {
      var key := KeyOf(manager, publicId);
      var raised, found := database.GetOneBy(key);
      if !raised && found.None? {
        var _ := database.Insert(key, prior);
      }
      var equal := StoredEquals(key, prior);
      residue := if equal then [] else [DocumentLeft(manager.collection, DeleteKind, publicId)];
    }

    method RestoreSnapshots(manager: Manager, snapshots: seq<Snapshot>)
      modifies database
      ensures database.Now() == Spec.RestoreSnapshots(manager, snapshots, old(database.Now()))
    {
      var raised := database.Read();
      if raised {
        return;
      }
      var found := OidsIn(database.db, manager.collection, SnapshotOids(snapshots));
      var missing := Missing(snapshots, set k | k in found :: database.db[k].oid);
      if missing != [] {
        var _ := database.InsertMany(manager.collection, missing);
      }
    }

    method UndoCompensated(collection: string, description: Description, inverse: Inverse) returns (residue: seq<Residue>)
      modifies database
      ensures Outcome(database.Now(), residue)
           == Spec.UndoCompensated(collection, description, inverse, old(database.Now()))
    {
      match inverse {
        case RestoreMissing(manager, snapshots) =>
          RestoreSnapshots(manager, snapshots);
        case Custom(_, undo, _) =>
          var _ := database.Call(undo(database.db));
      }
      var raised := database.Read();
      residue := if !raised && Verified(inverse, database.db) then [] else [CompensationLeft(collection, description)];
    }

    method UndoOneGroup(group: seq<Entry>) returns (residue: seq<Residue>)
      requires ValidGroup(group)
      modifies database
      ensures Outcome(database.Now(), residue) == Spec.UndoGroup(group, old(database.Now()))
    {
      match group[0]
      case Insert(manager, _) => residue := UndoInserts(manager, GroupIds(group));
      case InsertBatch(manager, criteria) => residue := UndoInsertBatch(manager, criteria);
      case Update(manager, publicId, prior) => residue := UndoUpdate(manager, publicId, prior);
      case Delete(manager, publicId, prior) => residue := UndoDelete(manager, publicId, prior);
      case Compensated(collection, description, inverse) =>
        residue := UndoCompensated(collection, description, inverse);
    }

    method Undo() returns (residue: seq<Residue>)
      modifies database
      ensures Outcome(database.Now(), residue) == Spec.Undo(entries, old(database.Now()))
    {
      hide Spec.UndoGroup;
      residue := [];
      var groups := UndoGroups();
      for i := 0 to |groups|
        invariant var rest := Spec.UndoGroups(groups[i..], database.Now());
                  Spec.UndoGroups(groups, old(database.Now())) == Outcome(rest.world, residue + rest.residue)
      {
        ghost var before := database.Now();
        var more := UndoOneGroup(groups[i]);
        NextRound(groups, i, before, Outcome(database.Now(), more), residue);
        residue := residue + more;
      }
    }
  }

  // One round of the undo loop, seen from the groups still to come
  lemma NextRound(groups: seq<seq<Entry>>, i: nat, w: World, first: Outcome, residue: seq<Residue>)
    requires i < |groups| && forall j :: 0 <= j < |groups| ==> ValidGroup(groups[j])
    requires first == Spec.UndoGroup(groups[i], w)
    ensures var now, next := Spec.UndoGroups(groups[i..], w), Spec.UndoGroups(groups[i + 1..], first.world);
            Outcome(now.world, residue + now.residue) == Outcome(next.world, (residue + first.residue) + next.residue)
  {
    hide Spec.UndoGroup;
    assert groups[i..][0] == groups[i] && groups[i..][1..] == groups[i + 1..];
    var next := Spec.UndoGroups(groups[i + 1..], first.world);
    assert residue + (first.residue + next.residue) == (residue + first.residue) + next.residue;
  }
}
