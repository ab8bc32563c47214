/**
 The inverses that requests record with compensated(): re-pointing one key of documents, putting a removed key back,
 and undoing a membership. Each does what the ledger asks of it, with a verification that reads that key alone.
 */
module LedgerCallers {
  import opened Prelude
  import opened LedgerStore
  import opened LedgerUndo
  import opened LedgerHistory
  import opened LedgerFold

  // One key of some documents, with what it held
  function OneKey(name: string, held: map<Key, Field>): map<Key, Part> {
    map k | k in held :: Part({name}, map[name := held[k]])
  }

  predicate Has(fields: Fields, name: string, value: Field) {
    name in fields && fields[name] == value
  }

  lemma HasPart(fields: Fields, name: string, value: Field)
    ensures Within(fields, {name}) == map[name := value] <==> Has(fields, name, value)
  {
    var part := Within(fields, {name});
    assert name in part <==> name in fields;
    assert Has(fields, name, value) ==> part == map[name := value];
    assert part == map[name := value] ==> name in part && part[name] == value;
  }

  lemma SamePart(a: Fields, b: Fields, name: string)
    requires Within(a, {name}) == Within(b, {name})
    ensures name in a <==> name in b
    ensures name in a ==> a[name] == b[name]
  {
    assert name in Within(a, {name}) <==> name in a;
    assert name in Within(b, {name}) <==> name in b;
  }

  function SetKey(db: Db, name: string, held: map<Key, Field>): Db {
    map k | k in db :: if k in held then db[k].(fields := db[k].fields[name := held[k]]) else db[k]
  }

  // The key of each document is as the request found it, and the write changed nothing but that key
  ghost predicate KeyChanged(name: string, held: map<Key, Field>, before: Db, after: Db) {
    && held.Keys <= before.Keys
    && (forall k :: k in held ==> Has(before[k].fields, name, held[k]))
    && OnlyParts(OneKey(name, held), before, after)
  }

  lemma SetKeyOnly(db: Db, name: string, held: map<Key, Field>)
    ensures OnlyParts(OneKey(name, held), db, SetKey(db, name, held))
  {
    forall k | k in db && k in held
      ensures Beside(SetKey(db, name, held)[k].fields, {name}) == Beside(db[k].fields, {name})
    {
    }
  }

  lemma KeyChangedParts(name: string, held: map<Key, Field>, before: Db, after: Db)
    requires KeyChanged(name, held, before, after)
    ensures forall k :: k in OneKey(name, held) ==>
              Within(before[k].fields, OneKey(name, held)[k].names) == OneKey(name, held)[k].prior
  {
    forall k | k in held
      ensures Within(before[k].fields, {name}) == map[name := held[k]]
    {
      HasPart(before[k].fields, name, held[k]);
    }
  }

  // What re-pointing and putting back share: the inverse sets the key, the verification sees when it is not set
  lemma SettingBack(name: string, held: map<Key, Field>, verify: Db -> bool, before: Db, after: Db)
    requires KeyChanged(name, held, before, after)
    requires forall db: Db :: PartsBack(OneKey(name, held), db) ==> verify(db)
    requires forall db: Db, k: Key :: k in held && k in db && verify(db) && InPlay(OneKey(name, held), after, k, db[k].fields) ==>
               Has(db[k].fields, name, held[k])
    ensures var undo := (db: Db) => SetKey(db, name, held);
            && CompensationRecorded(held.Keys, OneKey(name, held), undo, verify, before, after)
            && Inverts(OneKey(name, held), undo, verify, after) && Sets(OneKey(name, held), undo)
  {
    var footprint := OneKey(name, held);
    var undo := (db: Db) => SetKey(db, name, held);
    KeyChangedParts(name, held, before, after);
    forall db
      ensures OnlyParts(footprint, db, undo(db))
    {
      SetKeyOnly(db, name, held);
    }
    forall db: Db, k: Key | k in footprint && k in db && k in undo(db)
      ensures Within(undo(db)[k].fields, footprint[k].names) == footprint[k].prior
    {
      HasPart(undo(db)[k].fields, name, held[k]);
    }
    forall db: Db, k: Key | k in footprint && k in db && verify(db) && InPlay(footprint, after, k, db[k].fields)
      ensures Within(db[k].fields, footprint[k].names) == footprint[k].prior
    {
      HasPart(db[k].fields, name, held[k]);
    }
  }

  /** A key re-pointed - a location, a group, a counter - is set back, and read back by its value. */
  lemma RepointingRecorded(name: string, held: map<Key, Field>, before: Db, after: Db)
    requires KeyChanged(name, held, before, after)
    ensures var undo := (db: Db) => SetKey(db, name, held);
            var verify := (db: Db) => forall k :: k in held ==> k in db && Has(db[k].fields, name, held[k]);
            && CompensationRecorded(held.Keys, OneKey(name, held), undo, verify, before, after)
            && Inverts(OneKey(name, held), undo, verify, after) && Sets(OneKey(name, held), undo)
  {
    var verify := (db: Db) => forall k :: k in held ==> k in db && Has(db[k].fields, name, held[k]);
    forall db: Db | PartsBack(OneKey(name, held), db)
      ensures verify(db)
    {
      forall k | k in held
        ensures k in db && Has(db[k].fields, name, held[k])
      {
        assert k in OneKey(name, held);
        HasPart(db[k].fields, name, held[k]);
      }
    }
    SettingBack(name, held, verify, before, after);
  }

  /** A key removed is put back as it was, and read back by its mere presence: the write could only remove it. */
  lemma RemovalRecorded(name: string, held: map<Key, Field>, before: Db, after: Db)
    requires KeyChanged(name, held, before, after)
    requires forall k :: k in held && name in after[k].fields ==> after[k] == before[k]
    ensures var undo := (db: Db) => SetKey(db, name, held);
            var verify := (db: Db) => forall k :: k in held ==> k in db && name in db[k].fields;
            && CompensationRecorded(held.Keys, OneKey(name, held), undo, verify, before, after)
            && Inverts(OneKey(name, held), undo, verify, after) && Sets(OneKey(name, held), undo)
  {
    var verify := (db: Db) => forall k :: k in held ==> k in db && name in db[k].fields;
    forall db: Db | PartsBack(OneKey(name, held), db)
      ensures verify(db)
    {
      forall k | k in held
        ensures k in db && name in db[k].fields
      {
        assert k in OneKey(name, held);
        HasPart(db[k].fields, name, held[k]);
      }
    }
    forall db: Db, k: Key | k in held && k in db && verify(db) && InPlay(OneKey(name, held), after, k, db[k].fields)
      ensures Has(db[k].fields, name, held[k])
    {
      HasPart(db[k].fields, name, held[k]);
      if Within(db[k].fields, {name}) == Within(after[k].fields, {name}) {
        SamePart(db[k].fields, after[k].fields, name);
      }
    }
    SettingBack(name, held, verify, before, after);
  }

  // ------------------------------------------------------------------ memberships

  predicate Lists(fields: Fields, name: string, member: int) {
    name in fields && fields[name].Members? && member in fields[name].ids
  }

  // $addToSet and $pull of one member, on the documents named
  function Added(fields: Fields, name: string, member: int): Fields {
    if name !in fields then fields[name := Members({member})]
    else if fields[name].Members? then fields[name := Members(fields[name].ids + {member})]
    else fields
  }

  function Dropped(fields: Fields, name: string, member: int): Fields {
    if name in fields && fields[name].Members? then fields[name := Members(fields[name].ids - {member})] else fields
  }

  function Joined(db: Db, name: string, member: int, keys: set<Key>, add: bool): Db {
    map k | k in db ::
      if k !in keys then db[k]
      else db[k].(fields := if add then Added(db[k].fields, name, member) else Dropped(db[k].fields, name, member))
  }

  // The listing that the verification reads: all of the documents list the member again, or none does any more
  predicate Listed(db: Db, name: string, member: int, keys: set<Key>, add: bool) {
    if add then forall k :: k in keys ==> k in db && Lists(db[k].fields, name, member)
    else forall k :: k in keys ==> !(k in db && Lists(db[k].fields, name, member))
  }

  // Each document's array as found, and after a pull of the member (or an addition), of which any part took effect
  ghost predicate MembershipChanged(name: string, member: int, held: map<Key, Field>, pulled: bool, before: Db, after: Db) {
    && KeyChanged(name, held, before, after)
    && forall k :: k in held ==>
         && held[k].Members? && (pulled <==> member in held[k].ids)
         && (after[k] == before[k]
             || Has(after[k].fields, name, Members(if pulled then held[k].ids - {member} else held[k].ids + {member})))
  }

  lemma MembershipInPlay(name: string, member: int, held: map<Key, Field>, pulled: bool, before: Db, after: Db, k: Key, fields: Fields)
    requires MembershipChanged(name, member, held, pulled, before, after) && k in held
    requires InPlay(OneKey(name, held), after, k, fields)
    ensures var other := Members(if pulled then held[k].ids - {member} else held[k].ids + {member});
            && (Has(fields, name, held[k]) || Has(fields, name, other))
            && Has(if pulled then Added(fields, name, member) else Dropped(fields, name, member), name, held[k])
  {
    HasPart(fields, name, held[k]);
    if Within(fields, {name}) == Within(after[k].fields, {name}) {
      SamePart(fields, after[k].fields, name);
    }
    var ids := held[k].ids;
    assert pulled ==> ids - {member} + {member} == ids && ids + {member} == ids;
    assert !pulled ==> (ids + {member}) - {member} == ids && ids - {member} == ids;
  }

  lemma JoinedOnly(db: Db, name: string, member: int, held: map<Key, Field>, add: bool)
    ensures OnlyParts(OneKey(name, held), db, Joined(db, name, member, held.Keys, add))
  {
    forall k | k in db && k in held
      ensures Beside(Joined(db, name, member, held.Keys, add)[k].fields, {name}) == Beside(db[k].fields, {name})
    {
    }
  }

  /** A member pulled out of documents is added to them again, one added is pulled; the listing tells when it is done. */
  lemma MembershipRecorded(name: string, member: int, held: map<Key, Field>, pulled: bool, before: Db, after: Db)
    requires MembershipChanged(name, member, held, pulled, before, after)
    ensures var undo := (db: Db) => Joined(db, name, member, held.Keys, pulled);
            var verify := (db: Db) => Listed(db, name, member, held.Keys, pulled);
            && CompensationRecorded(held.Keys, OneKey(name, held), undo, verify, before, after)
            && Inverts(OneKey(name, held), undo, verify, after)
  {
    var footprint := OneKey(name, held);
    var undo := (db: Db) => Joined(db, name, member, held.Keys, pulled);
    var verify := (db: Db) => Listed(db, name, member, held.Keys, pulled);
    KeyChangedParts(name, held, before, after);
    forall db
      ensures OnlyParts(footprint, db, undo(db))
    {
      JoinedOnly(db, name, member, held, pulled);
    }
    forall db: Db, k: Key | k in footprint && k in db && k in undo(db) && InPlay(footprint, after, k, db[k].fields)
      ensures Within(undo(db)[k].fields, footprint[k].names) == footprint[k].prior
    {
      MembershipInPlay(name, member, held, pulled, before, after, k, db[k].fields);
      HasPart(undo(db)[k].fields, name, held[k]);
    }
    forall db: Db, k: Key | k in footprint && k in db && verify(db) && InPlay(footprint, after, k, db[k].fields)
      ensures Within(db[k].fields, footprint[k].names) == footprint[k].prior
    {
      MembershipInPlay(name, member, held, pulled, before, after, k, db[k].fields);
      HasPart(db[k].fields, name, held[k]);
    }
    forall db: Db | PartsBack(footprint, db)
      ensures verify(db)
    {
      MembersBack(name, member, held, pulled, before, after, db);
    }
  }

  lemma MembersBack(name: string, member: int, held: map<Key, Field>, pulled: bool, before: Db, after: Db, db: Db)
    requires MembershipChanged(name, member, held, pulled, before, after) && PartsBack(OneKey(name, held), db)
    ensures Listed(db, name, member, held.Keys, pulled)
  {
    forall k | k in held
      ensures k in db && Has(db[k].fields, name, held[k])
    {
      assert k in OneKey(name, held);
      HasPart(db[k].fields, name, held[k]);
    }
  }

  /** Where a document had no array at all, adding and pulling the member again leaves an empty one behind. */
  lemma PullRestoresIff(fields: Fields, name: string, member: int)
    requires !Lists(fields, name, member)
    ensures Dropped(Added(fields, name, member), name, member) == fields <==> name in fields
  {
    if name in fields && fields[name].Members? {
      assert fields[name].ids + {member} - {member} == fields[name].ids;
    } else if name !in fields {
      assert name in Dropped(Added(fields, name, member), name, member);
    }
  }
}
