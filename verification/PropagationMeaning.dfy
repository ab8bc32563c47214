/** Each update document does to a stored object what its builder promises. */
module PropagationMeaning {
  import opened Prelude
  import opened Documents
  import opened MongoQuery
  import opened Propagation

  lemma Both(p: Query, q: Query, b: Bson)
    ensures Matches(AndQ([p, q]), b) <==> Matches(p, b) && Matches(q, b)
  {
    var both := AndQ([p, q]);
    assert both.parts[0] == p && both.parts[1] == q;
  }

  lemma InStrings(names: seq<string>, name: string)
    ensures Str(name) in Strings(names).items <==> name in names
  {
    if name in names {
      var i :| 0 <= i < |names| && names[i] == name;
      assert Strings(names).items[i] == Str(name);
    }
  }

  // A name or section_id test on a document whose key holds this one text
  lemma TextTest(t: Test, text: string, v: Bson)
    requires v == Str(text)
    ensures t.Eq? ==> (Holds(t, [v]) <==> t.v == v)
    ensures t.In? ==> (Holds(t, [v]) <==> t.v.Arr? && v in t.v.items)
    ensures t.Nin? ==> (Holds(t, [v]) <==> !(t.v.Arr? && v in t.v.items))
  {
    assert [v][0] == v;
    assert forall c :: Candidate([v], c) <==> c == v;
  }

  lemma NameTestSelects(op: ListOp, e: Entry)
    requires !op.Add?
    ensures Matches(Clause(["name"], [NameTest(op)]), EntryDoc(e)) <==> !Keeps(op, e)
  {
    EntryPaths(e);
    ClauseMatches(["name"], NameTest(op), EntryDoc(e));
    TextTest(NameTest(op), e.name, Str(e.name));
    InStrings(if op.RemoveNamed? then op.names else op.declared, e.name);
  }

  lemma EntryDocsHead(entry: Entry, entries: seq<Entry>)
    ensures EntryDocs([entry] + entries) == [EntryDoc(entry)] + EntryDocs(entries)
  {
  }

  lemma PulledHead(item: Bson, items: seq<Bson>, condition: Query)
    ensures Pulled([item] + items, condition)
         == (if item.Doc? && Matches(condition, item) then [] else [item]) + Pulled(items, condition)
  {
    assert ([item] + items)[1..] == items;
    hide Matches;
  }

  lemma {:induction false} PulledEntries(op: ListOp, entries: seq<Entry>)
    requires !op.Add?
    ensures Pulled(EntryDocs(entries), Clause(["name"], [NameTest(op)])) == EntryDocs(Kept(op, entries))
  {
    if entries != [] {
      var e, rest := entries[0], entries[1..];
      PulledEntries(op, rest);
      assert entries == [e] + rest && EntryDoc(e).Doc?;
      NameTestSelects(op, e);
      hide EntryDoc, EntryDocs, Matches, NameTest, Pulled;
      EntryDocsHead(e, rest);
      PulledHead(EntryDoc(e), EntryDocs(rest), Clause(["name"], [NameTest(op)]));
      EntryDocsHead(e, Kept(op, rest));
      assert [] + Kept(op, rest) == Kept(op, rest) && [] + EntryDocs(Kept(op, rest)) == EntryDocs(Kept(op, rest));
    }
  }

  // The change of a list of entries, once its path and filters have led to it
  function Changed(op: ListOp, entries: seq<Entry>): seq<Entry> {
    if op.Add? then entries + [op.entry] else Kept(op, entries)
  }

  lemma ListChanged(path: seq<Step>, op: ListOp, entries: seq<Entry>)
    ensures ChangeValue(ListChange(path, op))(Arr(EntryDocs(entries))) == Arr(EntryDocs(Changed(op, entries)))
  {
    if op.Add? {
      assert EntryDocs(entries + [op.entry]) == EntryDocs(entries) + [EntryDoc(op.entry)];
    } else {
      PulledEntries(op, entries);
    }
  }

  // ------------------------------------------------------------------ which documents lack a name

  lemma {:induction false} NamesReached(entries: seq<Entry>, name: string)
    ensures Str(name) in ResolveEach(EntryDocs(entries), ["name"]) <==> HasName(entries, name)
  {
    ResolveEachMembers(EntryDocs(entries), ["name"], Str(name));
    hide Resolve, ResolveEach;
    if i :| 0 <= i < |entries| && entries[i].name == name {
      EntryPaths(entries[i]);
      assert EntryDocs(entries)[i] in EntryDocs(entries);
    }
    if d :| d in EntryDocs(entries) && d.Doc? && Str(name) in Resolve(d, ["name"]) {
      var i :| 0 <= i < |entries| && EntryDocs(entries)[i] == d;
      EntryPaths(entries[i]);
    }
  }

  // {'<list>.name': {'$ne': name}} on the names reached
  lemma {:induction false} LacksName(entries: seq<Entry>, name: string)
    ensures Holds(Ne(Str(name)), ResolveEach(EntryDocs(entries), ["name"])) <==> !HasName(entries, name)
  {
    NamesReached(entries, name);
    OnlyTexts(entries);
  }

  lemma {:induction false} OnlyTexts(entries: seq<Entry>)
    ensures forall b :: b in ResolveEach(EntryDocs(entries), ["name"]) ==> b.Str?
  {
    if entries != [] {
      OnlyTexts(entries[1..]);
      EntryPaths(entries[0]);
      assert EntryDocs(entries)[1..] == EntryDocs(entries[1..]);
    }
  }

  lemma ObjectLacksName(o: Object, name: string)
    ensures Matches(Clause(["fields", "name"], [Ne(Str(name))]), ObjectDoc(o)) <==> !HasName(o.fields, name)
  {
    ClauseMatches(["fields", "name"], Ne(Str(name)), ObjectDoc(o));
    assert ["fields", "name"][1..] == ["name"];
    assert Resolve(ObjectDoc(o), ["fields", "name"]) == ResolveEach(EntryDocs(o.fields), ["name"]);
    LacksName(o.fields, name);
  }

  lemma RowLacksName(row: Row, name: string)
    ensures Matches(Clause(["data", "name"], [Ne(Str(name))]), RowDoc(row)) <==> !HasName(row.data, name)
  {
    ClauseMatches(["data", "name"], Ne(Str(name)), RowDoc(row));
    assert ["data", "name"][1..] == ["name"];
    assert Resolve(RowDoc(row), ["data", "name"]) == ResolveEach(EntryDocs(row.data), ["name"]);
    LacksName(row.data, name);
  }

  lemma SectionMatches(s: Section, sectionId: string)
    ensures Matches(SectionIs(sectionId), SectionDoc(s)) <==> s.id == sectionId
  {
    ClauseMatches(["section_id"], Eq(Str(sectionId)), SectionDoc(s));
    assert ["section_id"][1..] == [];
    assert Resolve(SectionDoc(s), ["section_id"]) == [Str(s.id)];
    TextTest(Eq(Str(sectionId)), s.id, Str(s.id));
  }

  lemma ObjectHasSection(o: Object, sectionId: string)
    ensures Matches(Clause(["multi_data_sections", "section_id"], [Eq(Str(sectionId))]), ObjectDoc(o)) <==>
            exists i :: 0 <= i < |o.sections| && o.sections[i].id == sectionId
  {
    var docs := SectionDocs(o.sections);
    ClauseMatches(["multi_data_sections", "section_id"], Eq(Str(sectionId)), ObjectDoc(o));
    assert ["multi_data_sections", "section_id"][1..] == ["section_id"] && ["section_id"][1..] == [];
    assert Resolve(ObjectDoc(o), ["multi_data_sections", "section_id"]) == ResolveEach(docs, ["section_id"]);
    ResolveEachMembers(docs, ["section_id"], Str(sectionId));
    forall i | 0 <= i < |docs|
      ensures Resolve(docs[i], ["section_id"]) == [Str(o.sections[i].id)] && docs[i] in docs
    {
    }
    var found := ResolveEach(docs, ["section_id"]);
    forall b | b in found
      ensures b.Str?
    {
      ResolveEachMembers(docs, ["section_id"], b);
    }
    assert Candidate(found, Str(sectionId)) <==> Str(sectionId) in found;
    if i :| 0 <= i < |o.sections| && o.sections[i].id == sectionId {
      assert Str(sectionId) in Resolve(docs[i], ["section_id"]);
    }
  }

  // ------------------------------------------------------------------ into the two lists of an object

  lemma IntoFields(o: Object, fields: seq<Entry>, rest: seq<Step>, filters: map<string, Query>, f: Bson -> Bson)
    requires ChangeAt(Arr(EntryDocs(o.fields)), rest, filters, f) == Arr(EntryDocs(fields))
    ensures ChangeAt(ObjectDoc(o), [Key("fields")] + rest, filters, f) == ObjectDoc(o.(fields := fields))
  {
    assert ([Key("fields")] + rest)[1..] == rest;
    hide EntryDocs, SectionDocs;
    assert ChangeAt(ObjectDoc(o), [Key("fields")] + rest, filters, f).keys == ObjectDoc(o.(fields := fields)).keys;
  }

  lemma IntoSections(o: Object, sections: seq<Section>, rest: seq<Step>, filters: map<string, Query>, f: Bson -> Bson)
    requires ChangeAt(Arr(SectionDocs(o.sections)), rest, filters, f) == Arr(SectionDocs(sections))
    ensures ChangeAt(ObjectDoc(o), [SECTIONS] + rest, filters, f) == ObjectDoc(o.(sections := sections))
  {
    assert ([SECTIONS] + rest)[1..] == rest;
    hide EntryDocs, SectionDocs;
    assert ChangeAt(ObjectDoc(o), [SECTIONS] + rest, filters, f).keys == ObjectDoc(o.(sections := sections)).keys;
  }

  // ------------------------------------------------------------------ flat fields

  lemma FieldsExact(typeId: int, op: ListOp, o: Object)
    ensures Apply(Build(OnFields(typeId, op)), ObjectDoc(o)) == ObjectDoc(Effect(OnFields(typeId, op), o))
  {
    var u := Build(OnFields(typeId, op));
    TypeMatches(typeId, o);
    if op.Add? {
      Both(TypeIs(typeId), Clause(["fields", "name"], [NameTest(op)]), ObjectDoc(o));
      ObjectLacksName(o, op.entry.name);
    }
    ListChanged(u.change.path, op, o.fields);
    IntoFields(o, Changed(op, o.fields), [], u.arrayFilters, ChangeValue(u.change));
    assert u.change.path == [Key("fields")] + [];
  }

  // ------------------------------------------------------------------ rows

  lemma RowChanged(row: Row, filters: map<string, Query>, change: Change, op: ListOp)
    requires change == ListChange(change.path, op)
    ensures ChangeAt(RowDoc(row), [Key("data")], filters, ChangeValue(change)) == RowDoc(Row(Changed(op, row.data)))
  {
    ListChanged(change.path, op, row.data);
    assert [Key("data")][1..] == [];
    assert ChangeAt(RowDoc(row), [Key("data")], filters, ChangeValue(change)).keys == RowDoc(Row(Changed(op, row.data))).keys;
  }

  lemma RowsChanged(s: Section, change: Change, op: ListOp, filters: map<string, Query>)
    requires change == ListChange(change.path, op)
    requires op.Add? ==> ROW in filters && filters[ROW] == Clause(["data", "name"], [NameTest(op)])
    ensures ChangeAt(SectionDoc(s), [Key("values"), if op.Add? then Filtered(ROW) else Every, Key("data")], filters, ChangeValue(change))
         == SectionDoc(OnSection(s.id, op, s))
  {
    var path := [Key("values"), if op.Add? then Filtered(ROW) else Every, Key("data")];
    assert path[1..][1..] == [Key("data")];
    var rows := RowDocs(s.rows);
    var after := OnSection(s.id, op, s);
    var changed := ChangeAt(Arr(rows), path[1..], filters, ChangeValue(change));
    assert changed.Arr? && |changed.items| == |rows|;
    forall i | 0 <= i < |rows|
      ensures changed.items[i] == RowDoc(after.rows[i])
    {
      RowChanged(s.rows[i], filters, change, op);
      if op.Add? {
        RowLacksName(s.rows[i], op.entry.name);
      }
    }
    assert changed.items == RowDocs(after.rows);
    assert ChangeAt(SectionDoc(s), path, filters, ChangeValue(change)).keys == SectionDoc(after).keys;
  }

  lemma SectionsChanged(sections: seq<Section>, sectionId: string, change: Change, op: ListOp, filters: map<string, Query>)
    requires change == ListChange(change.path, op)
    requires SECTION in filters && filters[SECTION] == SectionIs(sectionId)
    requires op.Add? ==> ROW in filters && filters[ROW] == Clause(["data", "name"], [NameTest(op)])
    ensures var after := seq(|sections|, i requires 0 <= i < |sections| => OnSection(sectionId, op, sections[i]));
            ChangeAt(Arr(SectionDocs(sections)),
                     [Filtered(SECTION), Key("values"), if op.Add? then Filtered(ROW) else Every, Key("data")],
                     filters, ChangeValue(change))
            == Arr(SectionDocs(after))
  {
    var inSection := [Key("values"), if op.Add? then Filtered(ROW) else Every, Key("data")];
    var path := [Filtered(SECTION)] + inSection;
    assert path[1..] == inSection;
    assert path == [Filtered(SECTION), Key("values"), if op.Add? then Filtered(ROW) else Every, Key("data")];
    var after := seq(|sections|, i requires 0 <= i < |sections| => OnSection(sectionId, op, sections[i]));
    var changed := ChangeAt(Arr(SectionDocs(sections)), path, filters, ChangeValue(change));
    hide SectionDoc, SectionIs, ChangeValue;
    forall i | 0 <= i < |sections|
      ensures changed.items[i] == SectionDoc(after[i])
    {
      SectionMatches(sections[i], sectionId);
      RowsChanged(sections[i], change, op, filters);
    }
    assert changed.items == SectionDocs(after);
  }

  lemma NoSuchSection(o: Object, sectionId: string, op: ListOp)
    requires forall i :: 0 <= i < |o.sections| ==> o.sections[i].id != sectionId
    ensures Effect(OnRows(o.typeId, sectionId, op), o) == o
  {
    assert Effect(OnRows(o.typeId, sectionId, op), o).sections == o.sections;
  }

  lemma RowsExact(typeId: int, sectionId: string, op: ListOp, o: Object)
    ensures Apply(Build(OnRows(typeId, sectionId, op)), ObjectDoc(o)) == ObjectDoc(Effect(OnRows(typeId, sectionId, op), o))
  {
    var u := Build(OnRows(typeId, sectionId, op));
    var after := Effect(OnRows(typeId, sectionId, op), o);
    var rest := [Filtered(SECTION), Key("values"), if op.Add? then Filtered(ROW) else Every, Key("data")];
    assert u.change.path == [SECTIONS] + rest;
    TypeMatches(typeId, o);
    Both(TypeIs(typeId), Clause(["multi_data_sections", "section_id"], [Eq(Str(sectionId))]), ObjectDoc(o));
    ObjectHasSection(o, sectionId);
    hide ObjectDoc, Matches, ChangeAt, ChangeValue, SectionDocs, OnSection;
    if o.typeId == typeId {
      SectionsChanged(o.sections, sectionId, u.change, op, u.arrayFilters);
      IntoSections(o, after.sections, rest, u.arrayFilters, ChangeValue(u.change));
      if forall i :: 0 <= i < |o.sections| ==> o.sections[i].id != sectionId {
        NoSuchSection(o, sectionId, op);
      }
    }
  }

  // ------------------------------------------------------------------ whole sections

  lemma SectionDocsHead(section: Section, sections: seq<Section>)
    ensures SectionDocs([section] + sections) == [SectionDoc(section)] + SectionDocs(sections)
  {
  }

  lemma {:induction false} PulledSections(sections: seq<Section>, condition: Query, keep: string -> bool)
    requires forall s :: s in sections ==> (Matches(condition, SectionDoc(s)) <==> !keep(s.id))
    ensures Pulled(SectionDocs(sections), condition) == SectionDocs(KeptSections(sections, keep))
  {
    if sections != [] {
      var s, rest := sections[0], sections[1..];
      PulledSections(rest, condition, keep);
      assert sections == [s] + rest && SectionDoc(s).Doc?;
      hide SectionDoc, SectionDocs, Matches, Pulled;
      SectionDocsHead(s, rest);
      PulledHead(SectionDoc(s), SectionDocs(rest), condition);
      SectionDocsHead(s, KeptSections(rest, keep));
      var kept := KeptSections(rest, keep);
      assert [] + kept == kept && [] + SectionDocs(kept) == SectionDocs(kept);
    }
  }

  lemma PullSectionsExact(typeId: int, condition: Query, keep: string -> bool, o: Object)
    requires forall s :: s in o.sections ==> (Matches(condition, SectionDoc(s)) <==> !keep(s.id))
    ensures Apply(RawUpdate(TypeIs(typeId), Pull([SECTIONS], condition), map[]), ObjectDoc(o))
         == ObjectDoc(if o.typeId != typeId then o else o.(sections := KeptSections(o.sections, keep)))
  {
    var change := Pull([SECTIONS], condition);
    TypeMatches(typeId, o);
    PulledSections(o.sections, condition, keep);
    IntoSections(o, KeptSections(o.sections, keep), [], map[], ChangeValue(change));
    assert [SECTIONS] == [SECTIONS] + [];
  }

  lemma UndeclaredSectionMatches(s: Section, declared: seq<string>)
    ensures Matches(Clause(["section_id"], [Nin(Strings(declared))]), SectionDoc(s)) <==> s.id !in declared
  {
    ClauseMatches(["section_id"], Nin(Strings(declared)), SectionDoc(s));
    assert ["section_id"][1..] == [];
    assert Resolve(SectionDoc(s), ["section_id"]) == [Str(s.id)];
    TextTest(Nin(Strings(declared)), s.id, Str(s.id));
    InStrings(declared, s.id);
  }

  /** Every builder's update document, run by the server, is the change its statement stands for. */
  lemma BuildersExact(s: Statement, o: Object)
    ensures Apply(Build(s), ObjectDoc(o)) == ObjectDoc(Effect(s, o))
  {
    match s
    case OnFields(typeId, op) => FieldsExact(typeId, op, o);
    case OnRows(typeId, sectionId, op) => RowsExact(typeId, sectionId, op, o);
    case RemoveSection(typeId, sectionId) =>
      forall section
        ensures Matches(SectionIs(sectionId), SectionDoc(section)) <==> !(id => id != sectionId)(section.id)
      {
        SectionMatches(section, sectionId);
      }
      PullSectionsExact(typeId, SectionIs(sectionId), id => id != sectionId, o);
    case RemoveUndeclaredSections(typeId, declared) =>
      var condition := Clause(["section_id"], [Nin(Strings(declared))]);
      forall section
        ensures Matches(condition, SectionDoc(section)) <==> !(id => id in declared)(section.id)
      {
        UndeclaredSectionMatches(section, declared);
      }
      PullSectionsExact(typeId, condition, id => id in declared, o);
  }
}
