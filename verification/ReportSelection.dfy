/** What the filter built from one rule selects, entry by entry. */
module ReportSelection {
  import opened Prelude
  import opened Documents
  import opened MongoQuery
  import opened QueryBuilder
  import opened ReportMeaning

  // ------------------------------------------------------------------ the values of an entry

  function Found(e: Entry): seq<Bson> {
    if e.value.Some? then [e.value.value] else []
  }

  lemma CandidatesAreValues(e: Entry)
    ensures forall c :: Candidate(Found(e), c) <==> HasValue(e, c)
  {
    if e.value.Some? {
      assert Found(e)[0] == e.value.value;
    }
  }

  lemma DayBounds(day: int, ms: int)
    ensures Midnight(day) <= ms <==> day <= DayOf(ms)
    ensures ms <= EndOfDay(Midnight(day)) <==> DayOf(ms) <= day
  {
    assert Midnight(day) / DAY_MS == day;
    assert EndOfDay(Midnight(day)) == day * DAY_MS + DAY_MS - 1;
  }

  ghost predicate AllHold(fragment: seq<Test>, found: seq<Bson>) {
    forall i :: 0 <= i < |fragment| ==> Holds(fragment[i], found)
  }

  // The tests of the order operators, with the bound of the day each compares with
  function BoundTest(op: Operator, day: int): Test
    requires op in {LtOp, LteOp, GtOp, GteOp}
  {
    if op == LtOp then Lt(Date(Midnight(day)))
    else if op == LteOp then Lte(Date(EndOfDay(Midnight(day))))
    else if op == GtOp then Gt(Date(EndOfDay(Midnight(day))))
    else Gte(Date(Midnight(day)))
  }

  predicate OnSide(t: Test, c: Bson) {
    match t
    case Lt(v) => Less(c, v)
    case Lte(v) => Less(c, v) || c == v
    case Gt(v) => Less(v, c)
    case Gte(v) => Less(v, c) || c == v
    case _ => false
  }

  predicate DayOnSide(op: Operator, ms: int, day: int) {
    match op
    case LtOp => DayOf(ms) < day
    case LteOp => DayOf(ms) <= day
    case GtOp => DayOf(ms) > day
    case _ => DayOf(ms) >= day
  }

  lemma SideMeans(op: Operator, day: int, c: Bson)
    requires op in {LtOp, LteOp, GtOp, GteOp}
    ensures OnSide(BoundTest(op, day), c) <==> c.Date? && DayOnSide(op, c.ms, day)
  {
    if c.Date? {
      DayBounds(day, c.ms);
    }
  }

  lemma HoldsOnSide(t: Test, found: seq<Bson>)
    requires t.Lt? || t.Lte? || t.Gt? || t.Gte?
    ensures Holds(t, found) <==> exists c :: Candidate(found, c) && OnSide(t, c)
  {
    hide Candidate, Less;
  }

  lemma BoundMeans(e: Entry, op: Operator, day: int)
    requires op in {LtOp, LteOp, GtOp, GteOp}
    ensures Holds(BoundTest(op, day), Found(e)) <==> DayHolds(op, e, day)
  {
    CandidatesAreValues(e);
    HoldsOnSide(BoundTest(op, day), Found(e));
    hide Holds, Candidate, HasValue, BoundTest, OnSide;
    if c :| Candidate(Found(e), c) && OnSide(BoundTest(op, day), c) {
      SideMeans(op, day, c);
      assert HasValue(e, Date(c.ms)) && DayOnSide(op, c.ms, day);
    }
    if ms :| HasValue(e, Date(ms)) && DayOnSide(op, ms, day) {
      SideMeans(op, day, Date(ms));
      assert Candidate(Found(e), Date(ms)) && OnSide(BoundTest(op, day), Date(ms));
    }
  }

  lemma LowerBoundsMean(e: Entry, day: int)
    ensures Holds(Gte(Date(Midnight(day))), Found(e)) <==> DayHolds(GteOp, e, day)
    ensures Holds(Gt(Date(EndOfDay(Midnight(day)))), Found(e)) <==> DayHolds(GtOp, e, day)
  {
    hide Holds, DayHolds;
    BoundMeans(e, GteOp, day);
    BoundMeans(e, GtOp, day);
  }

  lemma UpperBoundsMean(e: Entry, day: int)
    ensures Holds(Lt(Date(Midnight(day))), Found(e)) <==> DayHolds(LtOp, e, day)
    ensures Holds(Lte(Date(EndOfDay(Midnight(day)))), Found(e)) <==> DayHolds(LteOp, e, day)
  {
    hide Holds, DayHolds;
    BoundMeans(e, LtOp, day);
    BoundMeans(e, LteOp, day);
  }

  // What the fragment of a date operator tells apart. "=" tries the two bounds of the day each on its own, which
  // for a list of instants is less than one instant within both.
  ghost predicate DaySelected(op: Operator, e: Entry, day: int)
    requires op in {EqOp, NeOp, LtOp, LteOp, GtOp, GteOp}
  {
    if op == EqOp then DayHolds(GteOp, e, day) && DayHolds(LteOp, e, day)
    else if op == NeOp then !(DayHolds(GteOp, e, day) && DayHolds(LteOp, e, day))
    else DayHolds(op, e, day)
  }

  lemma DateFragmentSelects(r: Report, op: Operator, e: Entry, day: int)
    requires op in {EqOp, NeOp, LtOp, LteOp, GtOp, GteOp}
    ensures AllHold(ValueFragment(r, op, Date(Midnight(day))), Found(e)) <==> DaySelected(op, e, day)
  {
    var start, end := Date(Midnight(day)), Date(EndOfDay(Midnight(day)));
    var fragment := ValueFragment(r, op, start);
    LowerBoundsMean(e, day);
    UpperBoundsMean(e, day);
    var bounds := [Gte(start), Lte(end)];
    assert AllHold(bounds, Found(e)) <==> Holds(bounds[0], Found(e)) && Holds(bounds[1], Found(e));
    match op
    case EqOp => assert fragment == bounds;
    case NeOp =>
      AllHoldOne(Not(bounds), Found(e));
      assert Holds(Not(bounds), Found(e)) <==> !AllHold(bounds, Found(e));
    case LtOp => AllHoldOne(Lt(start), Found(e));
    case LteOp => AllHoldOne(Lte(end), Found(e));
    case GtOp => AllHoldOne(Gt(end), Found(e));
    case GteOp => AllHoldOne(Gte(start), Found(e));
  }

  // A list of instants with one before the day, one after it and none on it
  ghost predicate Straddles(e: Entry, day: int) {
    DayHolds(LtOp, e, day) && DayHolds(GtOp, e, day) && !DayHolds(EqOp, e, day)
  }

  // Within both bounds of a day is on that day, or around it
  lemma OnTheDay(e: Entry, day: int)
    ensures DayHolds(EqOp, e, day) ==> DaySelected(EqOp, e, day)
    ensures DaySelected(EqOp, e, day) <==> DayHolds(EqOp, e, day) || Straddles(e, day)
  {
    if DayHolds(EqOp, e, day) {
      var ms :| HasValue(e, Date(ms)) && DayOf(ms) == day;
      assert DayHolds(GteOp, e, day) && DayHolds(LteOp, e, day);
    } else if Straddles(e, day) {
      var before :| HasValue(e, Date(before)) && DayOf(before) < day;
      var after :| HasValue(e, Date(after)) && DayOf(after) > day;
      assert DayHolds(LteOp, e, day) && DayHolds(GteOp, e, day);
    } else {
      NotAround(e, day);
    }
  }

  lemma NotAround(e: Entry, day: int)
    requires !DayHolds(EqOp, e, day) && !Straddles(e, day)
    ensures !DaySelected(EqOp, e, day)
  {
    forall ms | HasValue(e, Date(ms))
      ensures DayOf(ms) != day
    {
    }
    assert DayHolds(LteOp, e, day) ==> DayHolds(LtOp, e, day);
    assert DayHolds(GteOp, e, day) ==> DayHolds(GtOp, e, day);
  }

  /** A date fragment says what its operator means, but for "=" and "!=" on an entry that straddles the day. */
  lemma DateFragmentMeans(r: Report, op: Operator, e: Entry, day: int)
    requires op in {EqOp, NeOp, LtOp, LteOp, GtOp, GteOp}
    ensures (AllHold(ValueFragment(r, op, Date(Midnight(day))), Found(e)) <==> DayHolds(op, e, day))
       <==> !(op in {EqOp, NeOp} && Straddles(e, day))
  {
    DateFragmentSelects(r, op, e, day);
    OnTheDay(e, day);
  }

  lemma AllHoldOne(t: Test, found: seq<Bson>)
    ensures AllHold([t], found) <==> Holds(t, found)
  {
    assert [t][0] == t;
  }

  lemma TextFragmentMeans(r: Report, op: Operator, e: Entry, v: Bson)
    requires op in {ContainsOp, LikeOp}
    ensures AllHold(PlainFragment(r, op, v), Found(e)) <==> ValueHolds(r, op, e, v)
  {
    CandidatesAreValues(e);
    var fragment := PlainFragment(r, op, v);
    var ignoreCase := op == LikeOp;
    assert AllHold(fragment, Found(e)) <==> Holds(fragment[0], Found(e));
    hide Found, Candidate, HasValue, Contains, Lower;
    if c :| Candidate(Found(e), c) && Finds(r.text(v), ignoreCase, c) {
      assert c == Str(c.s);
    }
    if s :| HasValue(e, Str(s)) && Finds(r.text(v), ignoreCase, Str(s)) {
      assert Candidate(Found(e), Str(s));
    }
  }

  lemma PlainFragmentMeans(r: Report, op: Operator, e: Entry, v: Bson)
    ensures AllHold(PlainFragment(r, op, v), Found(e)) <==> ValueHolds(r, op, e, v)
  {
    CandidatesAreValues(e);
    var fragment := PlainFragment(r, op, v);
    assert AllHold(fragment, Found(e)) <==> Holds(fragment[0], Found(e));
    match op
    case ContainsOp => TextFragmentMeans(r, op, e, v);
    case LikeOp => TextFragmentMeans(r, op, e, v);
    case IsNullOp => assert EMPTY_VALUES.items[0] == Null && EMPTY_VALUES.items[1] == Str("");
    case IsNotNullOp => assert EMPTY_VALUES.items[0] == Null && EMPTY_VALUES.items[1] == Str("");
    case _ =>
  }

  // What the query of an operator and a value selects by
  ghost predicate EntrySelected(r: Report, op: Operator, e: Entry, v: Bson) {
    if v.Date? && op in {EqOp, NeOp, LtOp, LteOp, GtOp, GteOp} then DaySelected(op, e, DayOf(v.ms))
    else ValueHolds(r, op, e, v)
  }

  predicate IsMidnight(v: Bson) {
    v.Date? ==> v.ms == Midnight(DayOf(v.ms))
  }

  lemma FragmentSelects(r: Report, op: Operator, e: Entry, v: Bson)
    requires IsMidnight(v)
    ensures AllHold(ValueFragment(r, op, v), Found(e)) <==> EntrySelected(r, op, e, v)
  {
    if v.Date? && op in {EqOp, NeOp, LtOp, LteOp, GtOp, GteOp} {
      DateFragmentSelects(r, op, e, DayOf(v.ms));
    } else {
      PlainFragmentMeans(r, op, e, v);
    }
  }

  // ------------------------------------------------------------------ one rule

  lemma NameMatches(field: string, e: Entry)
    ensures Matches(NameIs(field), EntryDoc(e)) <==> e.name == field
  {
    EntryPaths(e);
    var tests := [Eq(Str(field))];
    assert NameIs(field).tests == tests;
    assert Holds(tests[0], [Str(e.name)]) <==> e.name == field by {
      assert Candidate([Str(e.name)], Str(field)) <==> Str(field) in [Str(e.name)];
    }
  }

  lemma EntryMatches(field: string, fragment: seq<Test>, e: Entry)
    ensures Matches(EntryMatch(field, fragment), EntryDoc(e)) <==> e.name == field && AllHold(fragment, Found(e))
  {
    var parts := EntryMatch(field, fragment).parts;
    assert Matches(EntryMatch(field, fragment), EntryDoc(e)) <==>
           Matches(parts[0], EntryDoc(e)) && Matches(parts[1], EntryDoc(e));
    NameMatches(field, e);
    EntryPaths(e);
  }

  // The arrays at a rule's path hold exactly the entries the rule looks at
  ghost predicate HasMatch(a: Bson, inner: Query) {
    a.Arr? && exists d :: d in a.items && d.Doc? && Matches(inner, d)
  }

  lemma HasMatchingEntry(entries: seq<Entry>, inner: Query)
    ensures HasMatch(Arr(EntryDocs(entries)), inner) <==> exists e :: e in entries && Matches(inner, EntryDoc(e))
  {
    var docs := EntryDocs(entries);
    if d :| d in docs && Matches(inner, d) {
      var i :| 0 <= i < |docs| && docs[i] == d;
      assert entries[i] in entries;
    }
    if e :| e in entries && Matches(inner, EntryDoc(e)) {
      InDocs(entries, e);
    }
  }

  lemma ElemMatchFinds(inner: Query, found: seq<Bson>)
    ensures Holds(ElemMatch(inner), found) <==> exists a :: a in found && HasMatch(a, inner)
  {
  }

  lemma SearchedFlat(o: Object, inner: Query)
    ensures Holds(ElemMatch(inner), Resolve(ObjectDoc(o), ["fields"])) <==>
            exists e :: e in o.fields && Matches(inner, EntryDoc(e))
  {
    FlatPath(o);
    var all := Arr(EntryDocs(o.fields));
    assert [all][0] == all;
    ElemMatchFinds(inner, [all]);
    HasMatchingEntry(o.fields, inner);
  }

  lemma SearchedRows(o: Object, inner: Query)
    ensures Holds(ElemMatch(inner), Resolve(ObjectDoc(o), MDS_PATH)) <==>
            exists s, row, e :: s in o.sections && row in s.rows && e in row.data && Matches(inner, EntryDoc(e))
  {
    var found := Resolve(ObjectDoc(o), MDS_PATH);
    ElemMatchFinds(inner, found);
    if a :| a in found && HasMatch(a, inner) {
      RowPath(o, a);
      var s, row :| s in o.sections && row in s.rows && a == Arr(EntryDocs(row.data));
      HasMatchingEntry(row.data, inner);
    }
    if s, row, e :| s in o.sections && row in s.rows && e in row.data && Matches(inner, EntryDoc(e)) {
      RowPath(o, Arr(EntryDocs(row.data)));
      HasMatchingEntry(row.data, inner);
    }
  }

  lemma SearchedEntries(r: Report, o: Object, field: string, inner: Query)
    ensures Holds(ElemMatch(inner), Resolve(ObjectDoc(o), TargetPath(r, field))) <==>
            exists e :: Reachable(r, o, field, e) && Matches(inner, EntryDoc(e))
  {
    if field in r.mdsFields {
      SearchedRows(o, inner);
    } else {
      SearchedFlat(o, inner);
    }
  }

  lemma InDocs(entries: seq<Entry>, e: Entry)
    requires e in entries
    ensures EntryDoc(e) in EntryDocs(entries)
  {
    var i :| 0 <= i < |entries| && entries[i] == e;
    assert EntryDocs(entries)[i] == EntryDoc(e);
  }

  // The entries of the place a field is stored in, whatever their name
  ghost predicate Reachable(r: Report, o: Object, field: string, e: Entry) {
    if field in r.mdsFields then exists s, row :: s in o.sections && row in s.rows && e in row.data
    else e in o.fields
  }

  lemma EntryRuleSelects(r: Report, o: Object, op: Operator, field: string, v: Bson)
    requires IsMidnight(v)
    ensures var inner := EntryMatch(field, ValueFragment(r, op, v));
            Matches(Clause(TargetPath(r, field), [ElemMatch(inner)]), ObjectDoc(o)) <==>
            exists e :: Carries(r, o, field, e) && EntrySelected(r, op, e, v)
  {
    var inner := EntryMatch(field, ValueFragment(r, op, v));
    SearchedEntries(r, o, field, inner);
    ClauseMatches(TargetPath(r, field), ElemMatch(inner), ObjectDoc(o));
    forall e | Reachable(r, o, field, e)
      ensures Matches(inner, EntryDoc(e)) <==> Carries(r, o, field, e) && EntrySelected(r, op, e, v)
    {
      EntryMatches(field, ValueFragment(r, op, v), e);
      if e.name == field {
        FragmentSelects(r, op, e, v);
      }
    }
  }

  lemma NoEntryMeans(r: Report, o: Object, field: string)
    ensures Matches(Clause(TargetPath(r, field), [Not([ElemMatch(NameIs(field))])]), ObjectDoc(o)) <==>
            !exists e :: Carries(r, o, field, e)
  {
    var none := [ElemMatch(NameIs(field))];
    SearchedEntries(r, o, field, NameIs(field));
    ClauseMatches(TargetPath(r, field), Not(none), ObjectDoc(o));
    AllHoldOne(none[0], Resolve(ObjectDoc(o), TargetPath(r, field)));
    forall e | Reachable(r, o, field, e)
      ensures Matches(NameIs(field), EntryDoc(e)) <==> Carries(r, o, field, e)
    {
      NameMatches(field, e);
    }
  }

  // What a built rule selects
  ghost predicate RuleSelects(r: Report, o: Object, op: Operator, field: string, v: Bson) {
    || (exists e :: Carries(r, o, field, e) && EntrySelected(r, op, e, v))
    || (op == IsNullOp && !exists e :: Carries(r, o, field, e))
  }

  lemma CreatedRuleSelects(r: Report, o: Object, op: Operator, field: string, v: Bson)
    requires IsMidnight(v)
    ensures Matches(CreateRule(r, op, field, v), ObjectDoc(o)) <==> RuleSelects(r, o, op, field, v)
  {
    hide EntrySelected, Carries, ValueFragment, IsMidnight, ObjectDoc;
    EntryRuleSelects(r, o, op, field, v);
    if op == IsNullOp {
      NoEntryMeans(r, o, field);
      var parts := CreateRule(r, op, field, v).parts;
      assert Matches(CreateRule(r, op, field, v), ObjectDoc(o)) <==>
             Matches(parts[0], ObjectDoc(o)) || Matches(parts[1], ObjectDoc(o));
    }
  }
}
