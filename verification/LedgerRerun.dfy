/**
 The undo when nothing fails: it restores the store but for `_id`s, running it again changes no more than that, and
 undoing a run of inserts as one batch is undoing them one by one. What each run reports is told exactly.
 */
module LedgerRerun {
  import opened Prelude
  import opened LedgerStore
  import opened LedgerUndo
  import opened LedgerHistory
  import opened LedgerHonesty
  import opened LedgerFold

  // ------------------------------------------------------------------ the first undo

  // What the fold from the end of the history holds is what the history had, or gone again if the request had made it
  ghost predicate Restored(h: History, i: nat, k: Key)
    requires |h.states| == |h.entries| + 1 && i < |h.states|
  {
    match Held(h.entries, i, k, Final(h))
    case None => k !in Original(h) || k !in h.states[i]
    case Some(slot) =>
      && k in h.states[i] && slot.fields == h.states[i][k].fields
      && (slot.oid.Some? ==> slot.oid.value == h.states[i][k].oid)
  }

  lemma {:induction false} HistoryRestored(h: History, i: nat, k: Key)
    requires Faithful(h) && i < |h.states|
    ensures Restored(h, i, k)
    decreases |h.states| - i
  {
    if i < |h.entries| {
      HistoryRestored(h, i + 1, k);
      EntryRestored(h, i, k);
    }
  }

  lemma EntryRestored(h: History, i: nat, k: Key)
    requires Faithful(h) && i < |h.entries| && Restored(h, i + 1, k)
    ensures Restored(h, i, k)
  {
    var e, before, after := h.entries[i], h.states[i], h.states[i + 1];
    assert Recorded(e, Original(h), before, after);
    hide Faithful;
    match e
    case InsertBatch(manager, criteria) =>
      assert k in before && k in Original(h) ==> k !in Find(before, manager.collection, criteria);
      assert k in after && k !in before ==> k in Find(after, manager.collection, criteria);
    case Compensated(_, _, RestoreMissing(manager, snapshots)) =>
      SnapshotFound(manager.collection, snapshots, k);
    case Compensated(_, _, Custom(footprint, _, _)) =>
      PartRestored(h, i, k);
    case _ =>
  }

  lemma PartRestored(h: History, i: nat, k: Key)
    requires i < |h.entries| && |h.states| == |h.entries| + 1 && Restored(h, i + 1, k)
    requires Recorded(h.entries[i], Original(h), h.states[i], h.states[i + 1])
    requires h.entries[i].Compensated? && h.entries[i].inverse.Custom?
    ensures Restored(h, i, k)
  {
    var footprint := h.entries[i].inverse.footprint;
    var before, after := h.states[i], h.states[i + 1];
    assert OnlyParts(footprint, before, after);
    if k in footprint && k in after {
      PutTogether(before[k].fields, after[k].fields, before[k].fields, footprint[k].names);
    }
  }

  lemma FirstPlayable(h: History)
    requires Faithful(h)
    ensures Playable(h, Final(h))
  {
    forall i, k | 0 <= i < |h.entries| && h.entries[i].Compensated? && h.entries[i].inverse.Custom?
                  && k in h.entries[i].inverse.footprint
      ensures k in h.states[i + 1] && HeldInPlay(h, i, k, Final(h))
    {
      assert Recorded(h.entries[i], Original(h), h.states[i], h.states[i + 1]);
      HistoryRestored(h, i + 1, k);
    }
  }

  // A custom inverse is about documents the request found stored
  ghost predicate AboutFound(h: History)
    requires h.states != []
  {
    forall i :: 0 <= i < |h.entries| && h.entries[i].Compensated? && h.entries[i].inverse.Custom? ==>
      h.entries[i].inverse.footprint.Keys <= Original(h).Keys
  }

  lemma FirstNoneGone(h: History)
    requires Faithful(h) && AboutFound(h)
    ensures NoneGone(h.entries, Final(h))
  {
    forall i, k | 0 <= i < |h.entries| && h.entries[i].Compensated? && h.entries[i].inverse.Custom?
                  && k in h.entries[i].inverse.footprint
      ensures Held(h.entries, i + 1, k, Final(h)).Some?
    {
      assert Recorded(h.entries[i], Original(h), h.states[i], h.states[i + 1]);
      assert k in Original(h);
      HistoryRestored(h, i + 1, k);
    }
  }

  // The end of a faithful history is a store an undo can start from
  lemma FinalIdentified(h: History)
    requires Faithful(h)
    ensures Identified(Final(h), h.owner, h.bound, h.bound)
  {
    assert OneOwner(h.states[|h.entries|], h.owner) && Below(h.states[|h.entries|], h.bound);
    forall k, k' | k in Final(h) && k' in Final(h) && k.collection == k'.collection && Final(h)[k].oid == Final(h)[k'].oid
      ensures k == k'
    {
      assert k == Key(k.collection, k.ref) && k' == Key(k'.collection, k'.ref);
    }
  }

  /**
   With no fault, the undo of a faithful history puts every document back as the request found it, under its own
   `_id` or a new one; it reports nothing if and only if the fold is quiet.
   */
  lemma CleanUndoRestores(h: History)
    requires Faithful(h) && AllInvertible(h)
    ensures var out := Undo(h.entries, Start(h, []));
            && (forall k :: SameButId(At(out.world.db, k), At(Original(h), k)))
            && (forall k :: k in out.world.db && k in Original(h) ==>
                  out.world.db[k].oid == Original(h)[k].oid || out.world.db[k].oid >= h.bound)
            && (AboutFound(h) ==> (out.residue == [] <==> Quiet(h.entries, Final(h))))
  {
    FinalIdentified(h);
    FirstPlayable(h);
    if AboutFound(h) {
      FirstNoneGone(h);
    }
    UndoIsFold(h, Start(h, []));
    var db := Undo(h.entries, Start(h, [])).world.db;
    forall k: Key
      ensures SameButId(At(db, k), At(Original(h), k))
      ensures k in db && k in Original(h) ==> db[k].oid == Original(h)[k].oid || db[k].oid >= h.bound
    {
      assert Holds(db, k, Held(h.entries, 0, k, Final(h)), h.bound);
      HistoryRestored(h, 0, k);
    }
  }

  // ------------------------------------------------------------------ what the first undo reports

  // The document is stored after i writes and comes back under a new `_id`: a later entry deletes it from a
  // snapshot without one
  ghost predicate Renewed(h: History, i: nat, k: Key)
    requires |h.states| == |h.entries| + 1 && i < |h.states|
    decreases |h.states| - i
  {
    && i < |h.entries| && k in h.states[i]
    && if k in h.states[i + 1] then Renewed(h, i + 1, k) else h.entries[i].Delete? && h.entries[i].prior.oid.None?
  }

  // No batch matches anything stored before it, not even what the request stored itself
  ghost predicate OwnBatches(h: History)
    requires |h.states| == |h.entries| + 1
  {
    forall i :: 0 <= i < |h.entries| && h.entries[i].InsertBatch? ==>
      Find(h.states[i], h.entries[i].manager.collection, h.entries[i].criteria) == {}
  }

  lemma {:induction false} RenewedIff(h: History, i: nat, k: Key)
    requires Faithful(h) && OwnBatches(h) && i < |h.states|
    ensures var s := Held(h.entries, i, k, Final(h));
            && (s.Some? <==> k in h.states[i])
            && (s.Some? ==> (s.value.oid.None? <==> Renewed(h, i, k)))
    decreases |h.states| - i
  {
    HistoryRestored(h, i, k);
    if i < |h.entries| {
      var e, before, after := h.entries[i], h.states[i], h.states[i + 1];
      RenewedIff(h, i + 1, k);
      HistoryRestored(h, i + 1, k);
      assert Recorded(e, Original(h), before, after);
      hide Faithful;
      match e
      case InsertBatch(manager, criteria) =>
        assert k in before ==> k !in Find(before, manager.collection, criteria);
        assert k in after && k !in before ==> k in Find(after, manager.collection, criteria);
      case Compensated(_, _, RestoreMissing(manager, snapshots)) =>
        SnapshotFound(manager.collection, snapshots, k);
      case _ =>
    }
  }

  /**
   Said of the history: the first undo reports nothing exactly when no batch delete missed one of its documents and
   a later entry deleted that one from a snapshot without its `_id`.
   */
  lemma FirstQuietIff(h: History)
    requires Faithful(h) && AllInvertible(h) && AboutFound(h) && OwnBatches(h)
    ensures Undo(h.entries, Start(h, [])).residue == [] <==>
            forall i :: 0 <= i < |h.entries| && h.entries[i].Compensated? && h.entries[i].inverse.RestoreMissing? ==>
              forall s :: s in h.entries[i].inverse.snapshots ==>
                !Renewed(h, i + 1, Key(h.entries[i].inverse.manager.collection, s.ref))
  {
    CleanUndoRestores(h);
    forall i | 0 <= i < |h.entries|
      ensures QuietAt(h.entries, i, Final(h)) <==>
              (h.entries[i].Compensated? && h.entries[i].inverse.RestoreMissing? ==>
                 forall s :: s in h.entries[i].inverse.snapshots ==>
                   !Renewed(h, i + 1, Key(h.entries[i].inverse.manager.collection, s.ref)))
    {
      EntryQuietIff(h, i);
    }
  }

  lemma EntryQuietIff(h: History, i: nat)
    requires Faithful(h) && OwnBatches(h) && i < |h.entries|
    ensures QuietAt(h.entries, i, Final(h)) <==>
            (h.entries[i].Compensated? && h.entries[i].inverse.RestoreMissing? ==>
               forall s :: s in h.entries[i].inverse.snapshots ==>
                 !Renewed(h, i + 1, Key(h.entries[i].inverse.manager.collection, s.ref)))
  {
    var e := h.entries[i];
    assert Recorded(e, Original(h), h.states[i], h.states[i + 1]);
    match e
    case Update(manager, id, _) => RenewedIff(h, i + 1, KeyOf(manager, id));
    case Delete(manager, id, _) =>
      RenewedIff(h, i + 1, KeyOf(manager, id));
      HistoryRestored(h, i + 1, KeyOf(manager, id));
    case Compensated(_, _, RestoreMissing(manager, snapshots)) =>
      forall s | s in snapshots
        ensures var k := Key(manager.collection, s.ref);
                Unmoved(Held(h.entries, i + 1, k, Final(h)), s) <==> !Renewed(h, i + 1, k)
      {
        var k := Key(manager.collection, s.ref);
        assert At(h.states[i], k) == Some(s.doc);
        RenewedIff(h, i + 1, k);
        HistoryRestored(h, i + 1, k);
      }
    case _ =>
  }

  // ------------------------------------------------------------------ the second undo

  // An entry that speaks of this very document
  predicate Mentions(entry: Entry, key: Key) {
    match entry
    case Insert(manager, publicId) => key == KeyOf(manager, publicId)
    case InsertBatch(_, _) => false
    case Update(manager, publicId, _) => key == KeyOf(manager, publicId)
    case Delete(manager, publicId, _) => key == KeyOf(manager, publicId)
    case Compensated(_, description, RestoreMissing(_, _)) => key in description.documents
    case Compensated(_, _, Custom(footprint, _, _)) => key in footprint
  }

  predicate InCustom(entry: Entry, key: Key) {
    entry.Compensated? && entry.inverse.Custom? && Mentions(entry, key)
  }

  // No other entry speaks of the documents of a custom inverse
  ghost predicate Apart(h: History, j: nat)
    requires j < |h.entries|
  {
    forall i, k: Key :: 0 <= i < |h.entries| && i != j && InCustom(h.entries[j], k) ==> !Mentions(h.entries[i], k)
  }

  // The entry is no batch whose criteria could match the document, whatever it holds
  ghost predicate Unmatched(entry: Entry, k: Key) {
    entry.InsertBatch? && k.collection == entry.manager.collection ==>
      forall fields: Fields :: !Matches(entry.criteria, k, fields)
  }

  // A custom inverse sets its parts whatever they hold, and no batch's criteria match its documents whatever they hold
  ghost predicate Resettable(h: History, j: nat)
    requires j < |h.entries| && h.entries[j].Compensated? && h.entries[j].inverse.Custom?
  {
    && Sets(h.entries[j].inverse.footprint, h.entries[j].inverse.undo)
    && forall i, k: Key :: 0 <= i < |h.entries| && k in h.entries[j].inverse.footprint ==> Unmatched(h.entries[i], k)
  }

  /**
   What a rerun relies on: a batch's criteria match nothing of what the request found stored, and a custom inverse
   is about documents found stored, which no other entry speaks of - or it sets its parts whatever they hold.
   */
  ghost predicate Rerunnable(h: History)
    requires h.states != []
  {
    && AboutFound(h)
    && (forall i :: 0 <= i < |h.entries| && h.entries[i].InsertBatch? ==>
          Find(Original(h), h.entries[i].manager.collection, h.entries[i].criteria) == {})
    && (forall j :: 0 <= j < |h.entries| && h.entries[j].Compensated? && h.entries[j].inverse.Custom? ==>
          Apart(h, j) || Resettable(h, j))
  }

  ghost predicate InApart(h: History, key: Key) {
    exists j :: 0 <= j < |h.entries| && InCustom(h.entries[j], key) && Apart(h, j)
  }

  ghost predicate InResettable(h: History, key: Key) {
    exists j :: 0 <= j < |h.entries| && InCustom(h.entries[j], key) && Resettable(h, j)
  }

  // Until a custom inverse's own write nothing happens to its documents, if no other entry speaks of them
  lemma {:induction false} UntouchedUntil(h: History, i: nat, j: nat, k: Key)
    requires Faithful(h) && AboutFound(h) && i <= j < |h.entries| && InCustom(h.entries[j], k) && Apart(h, j)
    ensures At(h.states[i], k) == At(Original(h), k)
  {
    if i > 0 {
      UntouchedUntil(h, i - 1, j, k);
      assert Recorded(h.entries[i - 1], Original(h), h.states[i - 1], h.states[i]);
      assert !Mentions(h.entries[i - 1], k);
      assert k in Original(h);
      hide Faithful;
      var e := h.entries[i - 1];
      if e.Compensated? && e.inverse.Custom? {
        assert OnlyParts(e.inverse.footprint, h.states[i - 1], h.states[i]);
      }
    }
  }

  // One field as in another document
  predicate SameField(a: Fields, b: Fields, f: string) {
    (f in a <==> f in b) && (f in a ==> a[f] == b[f])
  }

  // The field is what the request found, or what it was after the first i writes
  predicate FoundOrThen(h: History, i: nat, k: Key, fields: Fields, f: string)
    requires h.states != [] && i < |h.states|
  {
    || (k in Original(h) && SameField(fields, Original(h)[k].fields, f))
    || (k in h.states[i] && SameField(fields, h.states[i][k].fields, f))
  }

  ghost predicate Mixed(h: History, i: nat, k: Key, fields: Fields)
    requires h.states != [] && i < |h.states|
  {
    forall f :: FoundOrThen(h, i, k, fields, f)
  }

  /**
   The rerun's invariant for one document: it is gone, or has the contents the request found, or those it had after
   the first i writes; and gone only if it was gone then as well. Where inverses set their parts, that goes field by
   field; what a custom inverse alone is about stays as found.
   */
  ghost predicate Revisited(h: History, i: nat, k: Key, s: Option<Slot>)
    requires h.states != [] && i < |h.states|
  {
    && (|| s.None?
        || (k in Original(h) && s.value.fields == Original(h)[k].fields)
        || (k in h.states[i] && s.value.fields == h.states[i][k].fields)
        || (InResettable(h, k) && Mixed(h, i, k, s.value.fields)))
    && (s.None? && k in Original(h) ==> k !in h.states[i])
    && (InApart(h, k) ==> s.Some? && k in Original(h) && s.value.fields == Original(h)[k].fields)
  }

  // A store that holds what the request found, under whatever `_id`s
  ghost predicate AsFound(h: History, db: Db)
    requires h.states != []
  {
    forall k: Key :: SameButId(At(db, k), At(Original(h), k))
  }

  lemma {:induction false} HistoryRevisited(h: History, i: nat, k: Key, db: Db)
    requires Faithful(h) && Rerunnable(h) && AsFound(h, db) && i < |h.states|
    ensures Revisited(h, i, k, Held(h.entries, i, k, db))
    decreases |h.states| - i
  {
    if i < |h.entries| {
      HistoryRevisited(h, i + 1, k, db);
      EntryRevisited(h, i, k, Held(h.entries, i + 1, k, db));
    } else {
      assert SameButId(At(db, k), At(Original(h), k));
      if InApart(h, k) {
        FoundStored(h, k);
      }
    }
  }

  lemma FoundStored(h: History, k: Key)
    requires h.states != [] && AboutFound(h) && InApart(h, k)
    ensures k in Original(h)
  {
    var j :| 0 <= j < |h.entries| && InCustom(h.entries[j], k) && Apart(h, j);
    assert h.entries[j].inverse.footprint.Keys <= Original(h).Keys;
  }

  lemma NotApart(h: History, i: nat, k: Key)
    requires i < |h.entries| && Mentions(h.entries[i], k)
    requires !InCustom(h.entries[i], k) || !Apart(h, i)
    ensures !InApart(h, k)
  {
    forall j | 0 <= j < |h.entries| && InCustom(h.entries[j], k)
      ensures !Apart(h, j)
    {
    }
  }

  lemma SameIsMixed(h: History, i: nat, k: Key, fields: Fields)
    requires h.states != [] && i < |h.states|
    requires (k in Original(h) && fields == Original(h)[k].fields) || (k in h.states[i] && fields == h.states[i][k].fields)
    ensures Mixed(h, i, k, fields)
  {
  }

  // Where the write changed nothing, or took the document away, a mixture stays one
  lemma StaysMixed(h: History, i: nat, k: Key, fields: Fields)
    requires i + 1 < |h.states| && (At(h.states[i], k) == At(h.states[i + 1], k) || k !in h.states[i + 1])
    ensures Mixed(h, i + 1, k, fields) ==> Mixed(h, i, k, fields)
  {
    if Mixed(h, i + 1, k, fields) {
      forall f
        ensures FoundOrThen(h, i, k, fields, f)
      {
        assert FoundOrThen(h, i + 1, k, fields, f);
      }
    }
  }

  lemma EntryRevisited(h: History, i: nat, k: Key, s: Option<Slot>)
    requires Faithful(h) && Rerunnable(h) && i < |h.entries| && Revisited(h, i + 1, k, s)
    ensures Revisited(h, i, k, Fate(h.entries[i], k, s))
  {
    var e, before, after := h.entries[i], h.states[i], h.states[i + 1];
    assert Recorded(e, Original(h), before, after);
    if Mentions(e, k) && !InCustom(e, k) {
      NotApart(h, i, k);
    }
    if s.Some? && (At(before, k) == At(after, k) || k !in after) {
      StaysMixed(h, i, k, s.value.fields);
    }
    hide Mixed;
    match e
    case InsertBatch(manager, criteria) =>
      BatchRevisited(h, i, k, s);
    case Compensated(_, _, RestoreMissing(manager, snapshots)) =>
      hide Faithful, Rerunnable, InApart, InResettable;
      SnapshotFound(manager.collection, snapshots, k);
    case Compensated(_, _, Custom(footprint, _, _)) =>
      CustomRevisited(h, i, k, s);
    case _ =>
      hide Faithful, Rerunnable, InApart, InResettable;
  }

  lemma BatchRevisited(h: History, i: nat, k: Key, s: Option<Slot>)
    requires Faithful(h) && Rerunnable(h) && i < |h.entries| && Revisited(h, i + 1, k, s) && h.entries[i].InsertBatch?
    ensures Revisited(h, i, k, Fate(h.entries[i], k, s))
  {
    var e, before, after := h.entries[i], h.states[i], h.states[i + 1];
    assert Recorded(e, Original(h), before, after);
    assert k in Original(h) ==> k !in Find(Original(h), e.manager.collection, e.criteria);
    assert InResettable(h, k) ==> Unmatched(e, k);
    if s.Some? && At(before, k) == At(after, k) {
      StaysMixed(h, i, k, s.value.fields);
    }
    hide Faithful, Rerunnable, InApart, InResettable, Mixed;
    assert k in before && k in Original(h) ==> k !in Find(before, e.manager.collection, e.criteria);
    assert k in after && k !in before ==> k in Find(after, e.manager.collection, e.criteria);
  }

  lemma CustomRevisited(h: History, i: nat, k: Key, s: Option<Slot>)
    requires Faithful(h) && Rerunnable(h) && i < |h.entries| && Revisited(h, i + 1, k, s)
    requires h.entries[i].Compensated? && h.entries[i].inverse.Custom?
    ensures Revisited(h, i, k, Fate(h.entries[i], k, s))
  {
    var e := h.entries[i];
    assert Recorded(e, Original(h), h.states[i], h.states[i + 1]);
    assert OnlyParts(e.inverse.footprint, h.states[i], h.states[i + 1]);
    if k in e.inverse.footprint {
      assert InCustom(e, k);
      assert Apart(h, i) || Resettable(h, i);
      hide Faithful, Rerunnable, Apart, Resettable, Recorded, OnlyParts;
      if Apart(h, i) {
        ApartRevisited(h, i, k, s);
      } else {
        PartRevisited(h, i, k, s);
      }
    } else if s.Some? {
      StaysMixed(h, i, k, s.value.fields);
    }
  }

  lemma ApartRevisited(h: History, i: nat, k: Key, s: Option<Slot>)
    requires Faithful(h) && Rerunnable(h) && i < |h.entries| && Revisited(h, i + 1, k, s)
    requires InCustom(h.entries[i], k) && Apart(h, i)
    ensures Revisited(h, i, k, Fate(h.entries[i], k, s))
  {
    var footprint := h.entries[i].inverse.footprint;
    assert Recorded(h.entries[i], Original(h), h.states[i], h.states[i + 1]);
    assert InApart(h, k);
    UntouchedUntil(h, i, i, k);
    assert Within(Original(h)[k].fields, footprint[k].names) == footprint[k].prior;
    hide Faithful, Rerunnable, InApart, InResettable, Recorded;
    PutTogether(Original(h)[k].fields, s.value.fields, Original(h)[k].fields, footprint[k].names);
  }

  lemma PartRevisited(h: History, i: nat, k: Key, s: Option<Slot>)
    requires Faithful(h) && i < |h.entries| && Revisited(h, i + 1, k, s)
    requires InCustom(h.entries[i], k) && !Apart(h, i) && Resettable(h, i)
    ensures Revisited(h, i, k, Fate(h.entries[i], k, s))
  {
    var e := h.entries[i];
    assert Recorded(e, Original(h), h.states[i], h.states[i + 1]);
    assert OnlyParts(e.inverse.footprint, h.states[i], h.states[i + 1]);
    NotApart(h, i, k);
    assert InResettable(h, k);
    hide Faithful, InApart, InResettable, Apart, Resettable;
    if s.Some? {
      assert Mixed(h, i + 1, k, s.value.fields) by {
        if !Mixed(h, i + 1, k, s.value.fields) {
          SameIsMixed(h, i + 1, k, s.value.fields);
        }
      }
      PartMixed(h, i, k, s.value.fields);
    }
  }

  lemma PutField(fields: Fields, before: Fields, names: set<string>, f: string)
    ensures var put := Beside(fields, names) + Within(before, names);
            SameField(put, if f in names then before else fields, f)
  {
  }

  lemma BesideField(a: Fields, b: Fields, names: set<string>, f: string)
    requires Beside(a, names) == Beside(b, names) && f !in names
    ensures SameField(a, b, f)
  {
    assert f in a <==> f in Beside(a, names);
    assert f in b <==> f in Beside(b, names);
    assert f in a ==> Beside(a, names)[f] == a[f];
    assert f in b ==> Beside(b, names)[f] == b[f];
  }

  lemma PartMixed(h: History, i: nat, k: Key, fields: Fields)
    requires i + 1 < |h.states| && i < |h.entries|
    requires h.entries[i].Compensated? && h.entries[i].inverse.Custom? && k in h.entries[i].inverse.footprint
    requires Recorded(h.entries[i], Original(h), h.states[i], h.states[i + 1])
    requires Mixed(h, i + 1, k, fields)
    ensures var part := h.entries[i].inverse.footprint[k]; Mixed(h, i, k, Beside(fields, part.names) + part.prior)
  {
    var part := h.entries[i].inverse.footprint[k];
    var before, after := h.states[i], h.states[i + 1];
    assert OnlyParts(h.entries[i].inverse.footprint, before, after);
    assert Within(before[k].fields, part.names) == part.prior;
    var put := Beside(fields, part.names) + part.prior;
    forall f
      ensures FoundOrThen(h, i, k, put, f)
    {
      PutField(fields, before[k].fields, part.names, f);
      if f !in part.names {
        BesideField(before[k].fields, after[k].fields, part.names, f);
        assert FoundOrThen(h, i + 1, k, fields, f);
      }
    }
  }

  // Back at the start there is only what the request found
  lemma RevisitedWhole(h: History, k: Key, s: Option<Slot>)
    requires h.states != [] && Revisited(h, 0, k, s)
    ensures match s
            case None => k !in Original(h)
            case Some(slot) => k in Original(h) && slot.fields == Original(h)[k].fields
  {
    if s.Some? && Mixed(h, 0, k, s.value.fields) {
      var fields := s.value.fields;
      assert FoundOrThen(h, 0, k, fields, "");
      forall f
        ensures f in fields <==> f in Original(h)[k].fields
        ensures f in fields ==> fields[f] == Original(h)[k].fields[f]
      {
        assert FoundOrThen(h, 0, k, s.value.fields, f);
      }
    }
  }

  // A store that the fold holds back at the start is as found
  lemma FoldedBack(h: History, db: Db, after: Db)
    requires Faithful(h) && Rerunnable(h) && AsFound(h, db)
    requires forall k :: Holds(after, k, Held(h.entries, 0, k, db), h.bound)
    ensures AsFound(h, after)
  {
    forall k: Key
      ensures SameButId(At(after, k), At(Original(h), k))
    {
      HistoryRevisited(h, 0, k, db);
      RevisitedWhole(h, k, Held(h.entries, 0, k, db));
      assert Holds(after, k, Held(h.entries, 0, k, db), h.bound);
    }
  }

  lemma SecondPlayable(h: History, db: Db)
    requires Faithful(h) && Rerunnable(h) && AsFound(h, db)
    ensures Playable(h, db) && NoneGone(h.entries, db)
  {
    forall i, k | 0 <= i < |h.entries| && h.entries[i].Compensated? && h.entries[i].inverse.Custom?
                  && k in h.entries[i].inverse.footprint
      ensures k in h.states[i + 1] && Held(h.entries, i + 1, k, db).Some?
      ensures Apart(h, i) ==> HeldInPlay(h, i, k, db)
    {
      assert Recorded(h.entries[i], Original(h), h.states[i], h.states[i + 1]);
      assert OnlyParts(h.entries[i].inverse.footprint, h.states[i], h.states[i + 1]);
      assert k in Original(h);
      HistoryRevisited(h, i + 1, k, db);
      if Apart(h, i) {
        assert InCustom(h.entries[i], k) && InApart(h, k);
        UntouchedUntil(h, i, i, k);
      }
    }
  }

  /**
   Undoing a second time, after a first undo without faults, leaves every document as the first undo left it, the
   `_id` aside. What it reports is another matter: nothing, if and only if the fold from there is quiet.
   */
  lemma SecondUndoChangesNothing(h: History)
    requires Faithful(h) && AllInvertible(h) && Rerunnable(h)
    ensures var first := Undo(h.entries, Start(h, [])); var second := Undo(h.entries, first.world);
            && (forall k :: SameButId(At(second.world.db, k), At(first.world.db, k)))
            && (second.residue == [] <==> Quiet(h.entries, first.world.db))
  {
    var first := Undo(h.entries, Start(h, [])).world;
    var second := Undo(h.entries, first).world;
    hide Faithful, AllInvertible, Rerunnable, Undo, Identified, Playable;
    CleanUndoRestores(h);
    FinalIdentified(h);
    FirstPlayable(h);
    UndoIsFold(h, Start(h, []));
    SecondPlayable(h, first.db);
    UndoIsFold(h, first);
    FoldedBack(h, first.db, second.db);
    forall k: Key
      ensures SameButId(At(second.db, k), At(first.db, k))
    {
      assert SameButId(At(first.db, k), At(Original(h), k)) && SameButId(At(second.db, k), At(Original(h), k));
    }
  }

  // ------------------------------------------------------------------ batching

  lemma SameStore(a: Db, b: Db)
    requires forall k :: At(a, k) == At(b, k)
    ensures a == b
  {
    forall k
      ensures k in a <==> k in b
      ensures k in a && k in b ==> a[k] == b[k]
    {
      assert At(a, k) == At(b, k);
    }
  }

  lemma QuietStep(groups: seq<seq<Entry>>, w: World, mid: World, end: World)
    requires groups != [] && forall i :: 0 <= i < |groups| ==> ValidGroup(groups[i])
    requires UndoGroup(groups[0], w) == Outcome(mid, []) && UndoGroups(groups[1..], mid) == Outcome(end, [])
    ensures UndoGroups(groups, w) == Outcome(end, [])
  {
    hide UndoGroup;
  }

  function Singles(run: seq<Entry>): (groups: seq<seq<Entry>>)
    ensures forall i :: 0 <= i < |groups| ==> ValidGroup(groups[i])
  {
    if run == [] then [] else [[run[0]]] + Singles(run[1..])
  }

  function Cleared(db: Db, manager: Manager, ids: seq<int>): Db {
    Without(db, Find(db, manager.collection, Ids(ToSet(ids))))
  }

  lemma InsertsCleared(manager: Manager, ids: seq<int>, db: Db, next: Oid)
    ensures UndoInserts(manager, ids, World(db, [], next)) == Outcome(World(Cleared(db, manager, ids), [], next), [])
  {
    NoneSurvive(Cleared(db, manager, ids), manager, ids);
  }

  lemma ClearedTwice(manager: Manager, first: int, ids: seq<int>, db: Db)
    ensures Cleared(Cleared(db, manager, [first]), manager, ids) == Cleared(db, manager, [first] + ids)
  {
    SameStore(Cleared(Cleared(db, manager, [first]), manager, ids), Cleared(db, manager, [first] + ids));
  }

  lemma InsertCleared(entry: Entry, db: Db, next: Oid)
    requires entry.Insert?
    ensures UndoGroup([entry], World(db, [], next)) == Outcome(World(Cleared(db, entry.manager, [entry.publicId]), [], next), [])
  {
    assert GroupIds([entry]) == [entry.publicId];
    InsertsCleared(entry.manager, [entry.publicId], db, next);
  }

  lemma {:induction false} SinglesCleared(run: seq<Entry>, manager: Manager, db: Db, next: Oid)
    requires forall i :: 0 <= i < |run| ==> run[i].Insert? && run[i].manager == manager
    ensures UndoGroups(Singles(run), World(db, [], next)) == Outcome(World(Cleared(db, manager, GroupIds(run)), [], next), [])
    decreases |run|
  {
    if run == [] {
      SameStore(db, Cleared(db, manager, GroupIds(run)));
    } else {
      var one := Cleared(db, manager, [run[0].publicId]);
      var all := Cleared(db, manager, GroupIds(run));
      assert all == Cleared(one, manager, GroupIds(run[1..])) by {
        assert GroupIds(run) == [run[0].publicId] + GroupIds(run[1..]);
        ClearedTwice(manager, run[0].publicId, GroupIds(run[1..]), db);
      }
      SinglesCleared(run[1..], manager, one, next);
      InsertCleared(run[0], db, next);
      SinglesStep(run, db, next, World(one, [], next), World(all, [], next));
    }
  }

  lemma SinglesStep(run: seq<Entry>, db: Db, next: Oid, mid: World, end: World)
    requires run != []
    requires UndoGroup([run[0]], World(db, [], next)) == Outcome(mid, [])
    requires UndoGroups(Singles(run[1..]), mid) == Outcome(end, [])
    ensures UndoGroups(Singles(run), World(db, [], next)) == Outcome(end, [])
  {
    var groups := Singles(run);
    assert groups[0] == [run[0]] && groups[1..] == Singles(run[1..]);
    QuietStep(groups, World(db, [], next), mid, end);
  }

  /** One delete for a run of inserts does what undoing each of them on its own does, on any store. */
  lemma BatchingIsSound(run: seq<Entry>, db: Db, next: Oid)
    requires run != [] && ValidGroup(run) && run[0].Insert?
    ensures UndoGroup(run, World(db, [], next)) == UndoGroups(Singles(run), World(db, [], next))
  {
    var manager := run[0].manager;
    forall i | 0 <= i < |run|
      ensures run[i].Insert? && run[i].manager == manager
    {
      assert |run| > 1 ==> InsertThrough(run[i], run[0]);
    }
    InsertsCleared(manager, GroupIds(run), db, next);
    SinglesCleared(run, manager, db, next);
  }

  // ------------------------------------------------------------------ why the conditions are there

  lemma TwoGroups(newest: Entry, oldest: Entry)
    requires !Joins(newest, oldest)
    ensures Groups(Reverse([oldest, newest])) == [[newest], [oldest]]
  {
    var both := [newest, oldest];
    assert Reverse([oldest, newest]) == both;
    assert both[..1] == [newest] && [newest][..0] == [];
    assert Groups([newest]) == [[newest]];
  }

  lemma UndoOfTwo(newest: Entry, oldest: Entry, w: World)
    requires !Joins(newest, oldest)
    ensures var first := UndoGroup([newest], w); var second := UndoGroup([oldest], first.world);
            Undo([oldest, newest], w) == Outcome(second.world, first.residue + second.residue)
  {
    TwoGroups(newest, oldest);
    var groups := [[newest], [oldest]];
    var first := UndoGroup(groups[0], w);
    var second := UndoGroup([oldest], first.world);
    assert groups[1..] == [[oldest]] && [[oldest]][1..] == [];
    assert UndoGroups([[oldest]], first.world) == Outcome(second.world, second.residue + []);
    assert second.residue + [] == second.residue;
  }

  // Histories of one document, with its first `_id`
  function OfOne(entries: seq<Entry>, states: seq<Db>, id: int): History {
    History(entries, states, (_, _) => Pub(id), 1)
  }

  function One(manager: Manager, id: int, fields: Fields): Db {
    map[KeyOf(manager, id) := Stored(0, fields)]
  }

  function MadeAndUpdated(manager: Manager, id: int, found: Fields, changed: Fields): History {
    OfOne([Insert(manager, id), Update(manager, id, Prior(None, found))],
          [map[], One(manager, id, found), One(manager, id, changed)], id)
  }

  function UpdatedAndDeleted(manager: Manager, id: int, found: Fields, changed: Fields): History {
    OfOne([Update(manager, id, Prior(None, found)), Delete(manager, id, Prior(None, changed))],
          [One(manager, id, found), One(manager, id, changed), map[]], id)
  }

  function MadeUpdatedAndDeleted(manager: Manager, id: int, found: Fields, changed: Fields): History {
    OfOne([Insert(manager, id), Update(manager, id, Prior(None, found)), Delete(manager, id, Prior(None, changed))],
          [map[], One(manager, id, found), One(manager, id, changed), map[]], id)
  }

  lemma OneDocument(manager: Manager, id: int, found: Fields, changed: Fields)
    ensures var one, two, none: Db := One(manager, id, found), One(manager, id, changed), map[];
            && InsertRecorded(KeyOf(manager, id), none, one)
            && UpdateRecorded(KeyOf(manager, id), Prior(None, found), one, two)
            && DeleteRecorded(KeyOf(manager, id), Prior(None, changed), two, none)
  {
    var one, two, none: Db := One(manager, id, found), One(manager, id, changed), map[];
    assert Without(two, {KeyOf(manager, id)}) == none;
    assert none[KeyOf(manager, id) := one[KeyOf(manager, id)]] == one;
    assert one[KeyOf(manager, id) := two[KeyOf(manager, id)]] == two;
  }

  lemma SingleEntries(h: History)
    requires |h.states| == |h.entries| + 1
    requires forall i :: 0 <= i < |h.entries| ==> !h.entries[i].InsertBatch? && !h.entries[i].Compensated?
    ensures AllInvertible(h) && Rerunnable(h)
  {
  }

  lemma Plain(h: History, manager: Manager, id: int, found: Fields, changed: Fields)
    requires h in {MadeAndUpdated(manager, id, found, changed), UpdatedAndDeleted(manager, id, found, changed),
                   MadeUpdatedAndDeleted(manager, id, found, changed)}
    ensures Faithful(h) && AllInvertible(h) && Rerunnable(h)
  {
    hide InsertRecorded, UpdateRecorded, DeleteRecorded, AllInvertible, Rerunnable;
    OneDocument(manager, id, found, changed);
    SingleEntries(h);
    forall i | 0 <= i < |h.entries|
      ensures Recorded(h.entries[i], h.states[0], h.states[i], h.states[i + 1])
    {
    }
  }

  /**
   Two families of histories whose first undo reports nothing, and whose second one reports a document that is as it
   was: inserted and updated, or updated and deleted. Inserted, updated and deleted, it is not reported.
   */
  lemma SecondUndoMisreports(manager: Manager, id: int, found: Fields, changed: Fields)
    requires found != changed
    ensures var h := MadeAndUpdated(manager, id, found, changed);
            var first := Undo(h.entries, Start(h, [])); first.residue == [] && Undo(h.entries, first.world).residue != []
    ensures var h := UpdatedAndDeleted(manager, id, found, changed);
            var first := Undo(h.entries, Start(h, [])); first.residue == [] && Undo(h.entries, first.world).residue != []
    ensures var h := MadeUpdatedAndDeleted(manager, id, found, changed);
            var first := Undo(h.entries, Start(h, [])); first.residue == [] && Undo(h.entries, first.world).residue == []
  {
    TellMadeAndUpdated(manager, id, found, changed);
    TellUpdatedAndDeleted(manager, id, found, changed);
    TellMadeUpdatedAndDeleted(manager, id, found, changed);
  }

  lemma TellMadeAndUpdated(manager: Manager, id: int, found: Fields, changed: Fields)
    ensures var h := MadeAndUpdated(manager, id, found, changed);
            var first := Undo(h.entries, Start(h, [])); first.residue == [] && Undo(h.entries, first.world).residue != []
  {
    hide Faithful, AllInvertible, Rerunnable, Undo;
    var h, key := MadeAndUpdated(manager, id, found, changed), KeyOf(manager, id);
    Plain(h, manager, id, found, changed);
    CleanUndoRestores(h);
    SecondUndoChangesNothing(h);
    var db := Undo(h.entries, Start(h, [])).world.db;
    assert QuietAt(h.entries, 0, Final(h)) && QuietAt(h.entries, 1, Final(h));
    assert SameButId(At(db, key), At(Original(h), key));
    assert !QuietAt(h.entries, 1, db);
  }

  lemma TellUpdatedAndDeleted(manager: Manager, id: int, found: Fields, changed: Fields)
    requires found != changed
    ensures var h := UpdatedAndDeleted(manager, id, found, changed);
            var first := Undo(h.entries, Start(h, [])); first.residue == [] && Undo(h.entries, first.world).residue != []
  {
    hide Faithful, AllInvertible, Rerunnable, Undo;
    var h, key := UpdatedAndDeleted(manager, id, found, changed), KeyOf(manager, id);
    Plain(h, manager, id, found, changed);
    CleanUndoRestores(h);
    SecondUndoChangesNothing(h);
    var db := Undo(h.entries, Start(h, [])).world.db;
    assert Held(h.entries, 1, key, Final(h)) == Some(Slot(changed, None));
    assert QuietAt(h.entries, 0, Final(h)) && QuietAt(h.entries, 1, Final(h));
    assert SameButId(At(db, key), At(Original(h), key));
    assert !QuietAt(h.entries, 1, db);
  }

  lemma QuietWhenGone(manager: Manager, id: int, found: Fields, changed: Fields, db: Db)
    requires KeyOf(manager, id) !in db
    ensures Quiet(MadeUpdatedAndDeleted(manager, id, found, changed).entries, db)
  {
    var entries := MadeUpdatedAndDeleted(manager, id, found, changed).entries;
    assert Held(entries, 2, KeyOf(manager, id), db) == Some(Slot(changed, None));
  }

  lemma TellMadeUpdatedAndDeleted(manager: Manager, id: int, found: Fields, changed: Fields)
    ensures var h := MadeUpdatedAndDeleted(manager, id, found, changed);
            var first := Undo(h.entries, Start(h, [])); first.residue == [] && Undo(h.entries, first.world).residue == []
  {
    hide Faithful, AllInvertible, Rerunnable, Undo;
    var h, key := MadeUpdatedAndDeleted(manager, id, found, changed), KeyOf(manager, id);
    Plain(h, manager, id, found, changed);
    CleanUndoRestores(h);
    SecondUndoChangesNothing(h);
    var db := Undo(h.entries, Start(h, [])).world.db;
    assert SameButId(At(db, key), At(Original(h), key));
    QuietWhenGone(manager, id, found, changed, Final(h));
    QuietWhenGone(manager, id, found, changed, db);
  }

  /**
   Where a batch's criteria also match a document as the request found it, the second undo loses that
   document: it was updated out of the criteria's reach before the batch, and is restored into it.
   */
  lemma SecondUndoLosesMatchedDocument(manager: Manager, id: int, found: Stored, changed: Fields, criteria: Criteria, next: Oid)
    requires criteria.Where?
    requires Matches(criteria, KeyOf(manager, id), found.fields) && !Matches(criteria, KeyOf(manager, id), changed)
    ensures var key := KeyOf(manager, id);
            var entries := [Update(manager, id, Prior(None, found.fields)), InsertBatch(manager, criteria)];
            && Undo(entries, World(map[key := Stored(found.oid, changed)], [], next)) == Outcome(World(map[key := found], [], next), [])
            && Undo(entries, World(map[key := found], [], next))
                 == Outcome(World(map[], [], next), [DocumentLeft(manager.collection, UpdateKind, id)])
  {
    var key := KeyOf(manager, id);
    var update, batch := Update(manager, id, Prior(None, found.fields)), InsertBatch(manager, criteria);
    var before, after, none: Db := map[key := found], map[key := Stored(found.oid, changed)], map[];
    UndoOfTwo(batch, update, World(after, [], next));
    UndoOfTwo(batch, update, World(before, [], next));
    MatchedAlone(manager, criteria, key, found, next);
    MatchedAlone(manager, criteria, key, after[key], next);
    hide Undo, UndoInsertBatch;
    assert Replaced(after, key, found.fields) == before;
  }

  // The undo of a batch on a store of one document
  lemma MatchedAlone(manager: Manager, criteria: Criteria, key: Key, doc: Stored, next: Oid)
    requires criteria.Where? && key.collection == manager.collection
    ensures var db, none: Db := map[key := doc], map[];
            UndoInsertBatch(manager, criteria, World(db, [], next))
            == Outcome(World(if Matches(criteria, key, doc.fields) then none else db, [], next), [])
  {
    var db, none: Db := map[key := doc], map[];
    var left := if Matches(criteria, key, doc.fields) then none else db;
    var found := Find(db, manager.collection, criteria);
    assert found == if Matches(criteria, key, doc.fields) then {key} else {};
    SameStore(Without(db, found), left);
    assert Find(left, manager.collection, criteria) == {};
  }
}
