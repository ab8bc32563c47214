/** The two updates that empty every reference to deleted objects, in the flat fields and in the multi-data rows. */
module ReferenceScrub {
  import opened Prelude
  import opened Documents
  import opened MongoQuery
  import opened Propagation
  import opened PropagationMeaning

  // What the caller asks to be forgotten: one public_id, or a list of them
  datatype Selection = Single(id: int) | Listed(ids: seq<int>)

  function Members(selection: Selection): set<int> {
    match selection
    case Single(id) => {id}
    case Listed(ids) => ToSet(ids)
  }

  datatype Place = Flat | InRows

  const REF_KINDS := ["ref", "ref-section-field"]
  const ENTRY := "f"

  // ------------------------------------------------------------------ the update documents

  function Numbers(ids: seq<int>): Bson {
    Arr(seq(|ids|, i requires 0 <= i < |ids| => Num(ids[i] as real)))
  }

  function IdsFilter(selection: Selection): Test {
    match selection
    case Single(id) => Eq(Num(id as real))
    case Listed(ids) => In(Numbers(ids))
  }

  function ElementFilter(selection: Selection): Query {
    AndQ([Clause(["type"], [In(Strings(REF_KINDS))]), Clause(["value"], [IdsFilter(selection)])])
  }

  function RowsPath(place: Place): seq<string> {
    if place == Flat then ["fields"] else MDS_PATH
  }

  function ValuePath(place: Place): seq<Step> {
    if place == Flat then [Key("fields"), Filtered(ENTRY), Key("value")]
    else [SECTIONS, Every, Key("values"), Every, Key("data"), Filtered(ENTRY), Key("value")]
  }

  function Emptied(v: Bson): Bson {
    Str("")
  }

  // One such update, run on one document
  ghost function ApplyScrub(place: Place, selection: Selection, b: Bson): Bson {
    if Matches(Clause(RowsPath(place), [ElemMatch(ElementFilter(selection))]), b)
    then ChangeAt(b, ValuePath(place), map[ENTRY := ElementFilter(selection)], Emptied)
    else b
  }

  // ------------------------------------------------------------------ what they do to an object

  // A value names an id as itself or as a member of a list
  predicate Names(v: Bson, ids: set<int>) {
    exists id :: id in ids && (v == Num(id as real) || (v.Arr? && Num(id as real) in v.items))
  }

  predicate IsReference(e: Entry, ids: set<int>) {
    e.kind.Some? && e.kind.value in REF_KINDS && e.value.Some? && Names(e.value.value, ids)
  }

  function Cleared(e: Entry, ids: set<int>): Entry {
    if IsReference(e, ids) then e.(value := Some(Str(""))) else e
  }

  function ClearedAll(entries: seq<Entry>, ids: set<int>): seq<Entry> {
    seq(|entries|, i requires 0 <= i < |entries| => Cleared(entries[i], ids))
  }

  function ClearedSection(s: Section, ids: set<int>): Section {
    s.(rows := seq(|s.rows|, i requires 0 <= i < |s.rows| => Row(ClearedAll(s.rows[i].data, ids))))
  }

  function Scrub(place: Place, ids: set<int>, o: Object): Object {
    match place
    case Flat => o.(fields := ClearedAll(o.fields, ids))
    case InRows =>
      o.(sections := seq(|o.sections|, i requires 0 <= i < |o.sections| => ClearedSection(o.sections[i], ids)))
  }

  // ------------------------------------------------------------------ the filter finds the references

  lemma KindTest(e: Entry)
    ensures Matches(Clause(["type"], [In(Strings(REF_KINDS))]), EntryDoc(e)) <==> e.kind.Some? && e.kind.value in REF_KINDS
  {
    ClauseMatches(["type"], In(Strings(REF_KINDS)), EntryDoc(e));
    var keys := EntryDoc(e).keys;
    assert ["type"][1..] == [];
    assert "type" in keys <==> e.kind.Some?;
    if e.kind.Some? {
      TextTest(In(Strings(REF_KINDS)), e.kind.value, Str(e.kind.value));
      InStrings(REF_KINDS, e.kind.value);
      assert Resolve(EntryDoc(e), ["type"]) == [Str(e.kind.value)];
    } else {
      assert Resolve(EntryDoc(e), ["type"]) == [];
    }
  }

  lemma InNumbers(ids: seq<int>, b: Bson)
    ensures b in Numbers(ids).items <==> exists id :: id in ids && b == Num(id as real)
  {
    if id :| id in ids && b == Num(id as real) {
      var i :| 0 <= i < |ids| && ids[i] == id;
      assert Numbers(ids).items[i] == b;
    }
    if b in Numbers(ids).items {
      var i :| 0 <= i < |ids| && Numbers(ids).items[i] == b;
      assert ids[i] in ids;
    }
  }

  lemma FilterTest(selection: Selection, v: Bson)
    ensures Holds(IdsFilter(selection), [v]) <==> Names(v, Members(selection))
  {
    var found := [v];
    assert found[0] == v;
    assert forall c :: Candidate(found, c) <==> c == v || (v.Arr? && c in v.items);
    match selection
    case Single(id) =>
      assert Names(v, {id}) <==> v == Num(id as real) || (v.Arr? && Num(id as real) in v.items);
    case Listed(ids) =>
      if Holds(In(Numbers(ids)), found) {
        var c :| Candidate(found, c) && c in Numbers(ids).items;
        InNumbers(ids, c);
        var id :| id in ids && c == Num(id as real);
        assert id in Members(selection);
      }
      if id :| id in Members(selection) && (v == Num(id as real) || (v.Arr? && Num(id as real) in v.items)) {
        InNumbers(ids, Num(id as real));
        assert Candidate(found, Num(id as real));
      }
  }

  lemma NoValueTest(selection: Selection)
    ensures !Holds(IdsFilter(selection), [])
  {
    assert forall c :: Candidate([], c) <==> c == Null;
    if selection.Listed? {
      InNumbers(selection.ids, Null);
    }
  }

  lemma ValueTest(e: Entry, selection: Selection)
    ensures Matches(Clause(["value"], [IdsFilter(selection)]), EntryDoc(e))
       <==> e.value.Some? && Names(e.value.value, Members(selection))
  {
    ClauseMatches(["value"], IdsFilter(selection), EntryDoc(e));
    EntryPaths(e);
    if e.value.Some? {
      FilterTest(selection, e.value.value);
    } else {
      NoValueTest(selection);
    }
  }

  lemma ElementMatches(e: Entry, selection: Selection)
    ensures Matches(ElementFilter(selection), EntryDoc(e)) <==> IsReference(e, Members(selection))
  {
    Both(Clause(["type"], [In(Strings(REF_KINDS))]), Clause(["value"], [IdsFilter(selection)]), EntryDoc(e));
    KindTest(e);
    ValueTest(e, selection);
  }

  lemma SomeElement(entries: seq<Entry>, selection: Selection)
    ensures (exists d :: d in EntryDocs(entries) && d.Doc? && Matches(ElementFilter(selection), d))
       <==> exists e :: e in entries && IsReference(e, Members(selection))
  {
    var docs := EntryDocs(entries);
    if d :| d in docs && d.Doc? && Matches(ElementFilter(selection), d) {
      var i :| 0 <= i < |docs| && docs[i] == d;
      ElementMatches(entries[i], selection);
      assert entries[i] in entries;
    }
    if e :| e in entries && IsReference(e, Members(selection)) {
      var i :| 0 <= i < |entries| && entries[i] == e;
      ElementMatches(e, selection);
      assert docs[i] in docs;
    }
  }

  predicate Holding(place: Place, o: Object, e: Entry) {
    match place
    case Flat => e in o.fields
    case InRows => exists s, r :: s in o.sections && r in s.rows && e in r.data
  }

  ghost predicate HoldsReference(place: Place, o: Object, ids: set<int>) {
    exists e :: Holding(place, o, e) && IsReference(e, ids)
  }

  ghost predicate HasElement(a: Bson, selection: Selection) {
    a.Arr? && exists d :: d in a.items && d.Doc? && Matches(ElementFilter(selection), d)
  }

  lemma ElemMatchTest(found: seq<Bson>, selection: Selection)
    ensures Holds(ElemMatch(ElementFilter(selection)), found) <==> exists a :: a in found && HasElement(a, selection)
  {
  }

  lemma FlatSelected(selection: Selection, o: Object)
    ensures Matches(Clause(["fields"], [ElemMatch(ElementFilter(selection))]), ObjectDoc(o))
       <==> HoldsReference(Flat, o, Members(selection))
  {
    var found := Resolve(ObjectDoc(o), ["fields"]);
    ClauseMatches(["fields"], ElemMatch(ElementFilter(selection)), ObjectDoc(o));
    ElemMatchTest(found, selection);
    FlatPath(o);
    SomeElement(o.fields, selection);
    assert found[0] == Arr(EntryDocs(o.fields));
    assert HoldsReference(Flat, o, Members(selection)) <==> exists e :: e in o.fields && IsReference(e, Members(selection));
  }

  lemma RowSelected(selection: Selection, o: Object)
    ensures Matches(Clause(MDS_PATH, [ElemMatch(ElementFilter(selection))]), ObjectDoc(o))
       <==> HoldsReference(InRows, o, Members(selection))
  {
    var found := Resolve(ObjectDoc(o), MDS_PATH);
    ClauseMatches(MDS_PATH, ElemMatch(ElementFilter(selection)), ObjectDoc(o));
    ElemMatchTest(found, selection);
    if a :| a in found && HasElement(a, selection) {
      RowPath(o, a);
      var s, r :| s in o.sections && r in s.rows && a == Arr(EntryDocs(r.data));
      SomeElement(r.data, selection);
      var e :| e in r.data && IsReference(e, Members(selection));
      assert Holding(InRows, o, e);
    }
    if HoldsReference(InRows, o, Members(selection)) {
      var e :| Holding(InRows, o, e) && IsReference(e, Members(selection));
      var s, r :| s in o.sections && r in s.rows && e in r.data;
      RowPath(o, Arr(EntryDocs(r.data)));
      SomeElement(r.data, selection);
      assert HasElement(Arr(EntryDocs(r.data)), selection);
    }
  }

  // ------------------------------------------------------------------ the update changes the references only

  lemma EntryEmptied(e: Entry, filters: map<string, Query>)
    requires e.value.Some?
    ensures ChangeAt(EntryDoc(e), [Key("value")], filters, Emptied) == EntryDoc(e.(value := Some(Str(""))))
  {
    assert [Key("value")][1..] == [];
    assert ChangeAt(EntryDoc(e), [Key("value")], filters, Emptied).keys == EntryDoc(e.(value := Some(Str("")))).keys;
  }

  lemma EntriesCleared(entries: seq<Entry>, selection: Selection)
    ensures ChangeAt(Arr(EntryDocs(entries)), [Filtered(ENTRY), Key("value")], map[ENTRY := ElementFilter(selection)], Emptied)
         == Arr(EntryDocs(ClearedAll(entries, Members(selection))))
  {
    var filters := map[ENTRY := ElementFilter(selection)];
    var path := [Filtered(ENTRY), Key("value")];
    var changed := ChangeAt(Arr(EntryDocs(entries)), path, filters, Emptied);
    assert path[1..] == [Key("value")];
    forall i | 0 <= i < |entries|
      ensures changed.items[i] == EntryDoc(Cleared(entries[i], Members(selection)))
    {
      ElementMatches(entries[i], selection);
      if IsReference(entries[i], Members(selection)) {
        EntryEmptied(entries[i], filters);
      }
    }
    assert changed.items == EntryDocs(ClearedAll(entries, Members(selection)));
  }

  lemma RowCleared(row: Row, selection: Selection)
    ensures ChangeAt(RowDoc(row), [Key("data"), Filtered(ENTRY), Key("value")], map[ENTRY := ElementFilter(selection)], Emptied)
         == RowDoc(Row(ClearedAll(row.data, Members(selection))))
  {
    var path := [Key("data"), Filtered(ENTRY), Key("value")];
    assert path[1..] == [Filtered(ENTRY), Key("value")];
    EntriesCleared(row.data, selection);
    assert ChangeAt(RowDoc(row), path, map[ENTRY := ElementFilter(selection)], Emptied).keys
        == RowDoc(Row(ClearedAll(row.data, Members(selection)))).keys;
  }

  lemma SectionCleared(s: Section, selection: Selection)
    ensures ChangeAt(SectionDoc(s), [Key("values"), Every, Key("data"), Filtered(ENTRY), Key("value")],
                     map[ENTRY := ElementFilter(selection)], Emptied)
         == SectionDoc(ClearedSection(s, Members(selection)))
  {
    var path := [Key("values"), Every, Key("data"), Filtered(ENTRY), Key("value")];
    var filters := map[ENTRY := ElementFilter(selection)];
    var after := ClearedSection(s, Members(selection));
    assert path[1..][1..] == [Key("data"), Filtered(ENTRY), Key("value")];
    var rows := RowDocs(s.rows);
    var changed := ChangeAt(Arr(rows), path[1..], filters, Emptied);
    assert changed.Arr? && |changed.items| == |rows|;
    forall i | 0 <= i < |rows|
      ensures changed.items[i] == RowDoc(after.rows[i])
    {
      RowCleared(s.rows[i], selection);
    }
    assert changed.items == RowDocs(after.rows);
    assert ChangeAt(SectionDoc(s), path, filters, Emptied).keys == SectionDoc(after).keys;
  }

  lemma FieldsScrubbed(selection: Selection, o: Object)
    ensures ChangeAt(ObjectDoc(o), ValuePath(Flat), map[ENTRY := ElementFilter(selection)], Emptied)
         == ObjectDoc(Scrub(Flat, Members(selection), o))
  {
    var rest := [Filtered(ENTRY), Key("value")];
    assert ValuePath(Flat) == [Key("fields")] + rest;
    EntriesCleared(o.fields, selection);
    IntoFields(o, ClearedAll(o.fields, Members(selection)), rest, map[ENTRY := ElementFilter(selection)], Emptied);
  }

  lemma RowsScrubbed(selection: Selection, o: Object)
    ensures ChangeAt(ObjectDoc(o), ValuePath(InRows), map[ENTRY := ElementFilter(selection)], Emptied)
         == ObjectDoc(Scrub(InRows, Members(selection), o))
  {
    var rest := [Every, Key("values"), Every, Key("data"), Filtered(ENTRY), Key("value")];
    var filters := map[ENTRY := ElementFilter(selection)];
    var after := Scrub(InRows, Members(selection), o);
    assert ValuePath(InRows) == [SECTIONS] + rest;
    assert rest[1..] == [Key("values"), Every, Key("data"), Filtered(ENTRY), Key("value")];
    var docs := SectionDocs(o.sections);
    var changed := ChangeAt(Arr(docs), rest, filters, Emptied);
    assert changed.Arr? && |changed.items| == |docs|;
    hide SectionDoc, ElementFilter;
    forall i | 0 <= i < |docs|
      ensures changed.items[i] == SectionDoc(after.sections[i])
    {
      SectionCleared(o.sections[i], selection);
    }
    assert changed.items == SectionDocs(after.sections);
    IntoSections(o, after.sections, rest, filters, Emptied);
  }

  lemma NothingToScrub(place: Place, ids: set<int>, o: Object)
    requires forall e :: Holding(place, o, e) ==> !IsReference(e, ids)
    ensures Scrub(place, ids, o) == o
  {
    if place == Flat {
      assert Scrub(place, ids, o).fields == o.fields by {
        forall i | 0 <= i < |o.fields|
          ensures !IsReference(o.fields[i], ids)
        {
          assert Holding(place, o, o.fields[i]);
        }
      }
    } else {
      forall i | 0 <= i < |o.sections|
        ensures ClearedSection(o.sections[i], ids) == o.sections[i]
      {
        RowsUntouched(o, ids, i);
      }
      assert Scrub(place, ids, o).sections == o.sections;
    }
  }

  lemma RowsUntouched(o: Object, ids: set<int>, i: nat)
    requires forall e :: Holding(InRows, o, e) ==> !IsReference(e, ids)
    requires i < |o.sections|
    ensures ClearedSection(o.sections[i], ids) == o.sections[i]
  {
    var s := o.sections[i];
    assert s in o.sections;
    forall j | 0 <= j < |s.rows|
      ensures ClearedAll(s.rows[j].data, ids) == s.rows[j].data
    {
      assert s.rows[j] in s.rows;
      forall k | 0 <= k < |s.rows[j].data|
        ensures !IsReference(s.rows[j].data[k], ids)
      {
        assert Holding(InRows, o, s.rows[j].data[k]);
      }
    }
    assert ClearedSection(s, ids).rows == s.rows;
  }

  /**
   Each update, run by the server on a stored object, empties exactly the reference entries it is meant for: the
   filter that selects the documents and the one that selects the entries inside them agree.
   */
  lemma ScrubExact(place: Place, selection: Selection, o: Object)
    ensures ApplyScrub(place, selection, ObjectDoc(o)) == ObjectDoc(Scrub(place, Members(selection), o))
  {
    if place == Flat {
      FlatSelected(selection, o);
    } else {
      RowSelected(selection, o);
    }
    if HoldsReference(place, o, Members(selection)) {
      if place == Flat {
        FieldsScrubbed(selection, o);
      } else {
        RowsScrubbed(selection, o);
      }
    } else {
      NothingToScrub(place, Members(selection), o);
    }
  }

  // ------------------------------------------------------------------ both updates

  function ScrubBoth(ids: set<int>, o: Object): Object {
    Scrub(InRows, ids, Scrub(Flat, ids, o))
  }

  lemma ClearedHoldNone(entries: seq<Entry>, ids: set<int>, e: Entry)
    requires e in ClearedAll(entries, ids)
    ensures !IsReference(e, ids)
  {
    var i :| 0 <= i < |entries| && e == Cleared(entries[i], ids);
  }

  /** Nothing in the object references one of the ids any more, in its fields or in any row. */
  lemma NoReferenceLeft(ids: set<int>, o: Object, place: Place, e: Entry)
    requires Holding(place, ScrubBoth(ids, o), e)
    ensures !IsReference(e, ids)
  {
    var after := ScrubBoth(ids, o);
    match place
    case Flat => ClearedHoldNone(o.fields, ids, e);
    case InRows =>
      var s, r :| s in after.sections && r in s.rows && e in r.data;
      var i :| 0 <= i < |o.sections| && s == ClearedSection(o.sections[i], ids);
      var j :| 0 <= j < |o.sections[i].rows| && r == Row(ClearedAll(o.sections[i].rows[j].data, ids));
      ClearedHoldNone(o.sections[i].rows[j].data, ids, e);
  }

  // Where an interrupted run may have left an object
  predicate PartlyScrubbed(ids: set<int>, before: Object, after: Object) {
    after == before || after == Scrub(Flat, ids, before) || after == ScrubBoth(ids, before)
  }

  lemma ScrubTwice(place: Place, ids: set<int>, o: Object)
    ensures Scrub(place, ids, Scrub(place, ids, o)) == Scrub(place, ids, o)
  {
    var once := Scrub(place, ids, o);
    forall e | Holding(place, once, e)
      ensures !IsReference(e, ids)
    {
      assert Holding(place, ScrubBoth(ids, o), e);
      NoReferenceLeft(ids, o, place, e);
    }
    NothingToScrub(place, ids, once);
  }

  /** Running it again after a failure anywhere ends where one full run ends. */
  lemma ScrubResumes(ids: set<int>, before: Object, after: Object)
    requires PartlyScrubbed(ids, before, after)
    ensures ScrubBoth(ids, after) == ScrubBoth(ids, before)
  {
    ScrubTwice(Flat, ids, before);
    var flat := Scrub(Flat, ids, before);
    assert Scrub(Flat, ids, ScrubBoth(ids, before)) == Scrub(InRows, ids, Scrub(Flat, ids, flat));
    ScrubTwice(InRows, ids, flat);
  }

  // ------------------------------------------------------------------ entry by entry

  // A reference, or a reference of a section, to one of the ids, alone or in a list
  ghost predicate PointsAtOne(e: Entry, ids: set<int>) {
    && e.kind in {Some("ref"), Some("ref-section-field")}
    && exists id :: id in ids && (e.value == Some(Num(id as real)) || (e.value.Some? && e.value.value.Arr? && Num(id as real) in e.value.value.items))
  }

  ghost predicate EntriesEmptied(before: seq<Entry>, after: seq<Entry>, ids: set<int>) {
    && |after| == |before|
    && forall i :: 0 <= i < |before| ==>
         after[i] == if PointsAtOne(before[i], ids) then before[i].(value := Some(Str(""))) else before[i]
  }

  lemma ReferenceIs(e: Entry, ids: set<int>)
    ensures IsReference(e, ids) <==> PointsAtOne(e, ids)
  {
    assert REF_KINDS[0] == "ref" && REF_KINDS[1] == "ref-section-field";
  }

  lemma ListEmptied(entries: seq<Entry>, ids: set<int>)
    ensures EntriesEmptied(entries, ClearedAll(entries, ids), ids)
  {
    forall i | 0 <= i < |entries|
      ensures IsReference(entries[i], ids) <==> PointsAtOne(entries[i], ids)
    {
      ReferenceIs(entries[i], ids);
    }
    hide IsReference, PointsAtOne;
  }

  /** After both updates every reference entry to one of the ids holds the empty text, and every other one what it held. */
  lemma ScrubbedEntries(ids: set<int>, o: Object)
    ensures var after := ScrubBoth(ids, o);
            && after.typeId == o.typeId && EntriesEmptied(o.fields, after.fields, ids)
            && |after.sections| == |o.sections|
            && forall i :: 0 <= i < |o.sections| ==>
                 && after.sections[i].id == o.sections[i].id && |after.sections[i].rows| == |o.sections[i].rows|
                 && forall j :: 0 <= j < |o.sections[i].rows| ==>
                      EntriesEmptied(o.sections[i].rows[j].data, after.sections[i].rows[j].data, ids)
  {
    ListEmptied(o.fields, ids);
    forall i, j | 0 <= i < |o.sections| && 0 <= j < |o.sections[i].rows|
      ensures EntriesEmptied(o.sections[i].rows[j].data, ScrubBoth(ids, o).sections[i].rows[j].data, ids)
    {
      ListEmptied(o.sections[i].rows[j].data, ids);
    }
  }
}
