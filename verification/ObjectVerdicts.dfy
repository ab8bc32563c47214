/** The value judge agrees with the filling: a filled object breaks exactly the rules the object broke before. */
module ObjectVerdicts {
  import opened Prelude
  import opened Documents
  import opened ObjectRules
  import opened ObjectDefaults
  import opened ObjectFilling

  // ------------------------------------------------------------------ what a judgement says

  // The error is one the value's rule has against it when no match runs out of time
  predicate Accuses(engine: Engine, rules: map<string, Rule>, stored: seq<Placed>, v: Placed, e: PlacedError) {
    && v.name in rules && v !in stored
    && e.place == v.place && e.name == v.name
    && e.error in Faults(engine, v.value, rules[v.name])
  }

  ghost predicate Broken(engine: Engine, rules: map<string, Rule>, stored: seq<Placed>, values: seq<Placed>, e: PlacedError) {
    exists v :: v in values && Accuses(engine, rules, stored, v, e)
  }

  lemma {:induction false} AddNewAdds(errors: seq<PlacedError>, v: Placed, found: seq<ValueError>, e: PlacedError)
    ensures e in AddNew(errors, v, found) <==> e in errors || (e.place == v.place && e.name == v.name && e.error in found)
    decreases |found|
  {
    if found != [] {
      var first := PlacedError(v.place, v.name, found[0]);
      AddNewAdds(if first in errors then errors else errors + [first], v, found[1..], e);
      assert found == [found[0]] + found[1..];
    }
  }

  /**
   The judgement of an object's values under any luck with the pattern time: apart from timeouts it reports only
   errors the rules do have against the values, and when no match runs out of time it reports exactly those.
   */
  lemma {:induction false} JudgedExact(
    engine: Engine, rules: map<string, Rule>, stored: seq<Placed>, values: seq<Placed>, b: Budget, e: PlacedError)
    ensures e in Judged(engine, rules, stored, values, b).0 && e.error != PatternTimeout ==> Broken(engine, rules, stored, values, e)
    ensures b == Budget(false, []) ==>
              && Judged(engine, rules, stored, values, b).1 == b
              && (e in Judged(engine, rules, stored, values, b).0 <==> Broken(engine, rules, stored, values, e))
    decreases |values|
  {
    if values != [] {
      var n := |values| - 1;
      var v := values[n];
      var (errors, after) := Judged(engine, rules, stored, values[..n], b);
      JudgedExact(engine, rules, stored, values[..n], b, e);
      assert values == values[..n] + [v];
      if v.name in rules && v !in stored {
        AddNewAdds(errors, v, RuleErrors(engine, v.value, rules[v.name], after).0, e);
      }
      assert Broken(engine, rules, stored, values, e)
        <==> Broken(engine, rules, stored, values[..n], e) || Accuses(engine, rules, stored, v, e);
    }
  }

  lemma FaultsUnderLuck(engine: Engine, v: Bson, rule: Rule, b: Budget, e: ValueError)
    requires e in Faults(engine, v, rule)
    ensures e in RuleErrors(engine, v, rule, b).0 || (e == PatternMismatch && PatternTimeout in RuleErrors(engine, v, rule, b).0)
  {
  }

  /**
   Nothing broken passes, whatever runs out of time: each error the rules have is reported, a mismatch at least as a
   match that ran out of time.
   */
  lemma {:induction false} BrokenIsReported(
    engine: Engine, rules: map<string, Rule>, stored: seq<Placed>, values: seq<Placed>, b: Budget, e: PlacedError)
    requires Broken(engine, rules, stored, values, e)
    ensures var errors := Judged(engine, rules, stored, values, b).0;
            e in errors || (e.error == PatternMismatch && PlacedError(e.place, e.name, PatternTimeout) in errors)
    decreases |values|
  {
    hide RuleErrors, Faults;
    var n := |values| - 1;
    var v := values[n];
    var (errors, after) := Judged(engine, rules, stored, values[..n], b);
    assert values == values[..n] + [v];
    if v.name in rules && v !in stored {
      var found := RuleErrors(engine, v.value, rules[v.name], after).0;
      AddNewAdds(errors, v, found, e);
      AddNewAdds(errors, v, found, PlacedError(e.place, e.name, PatternTimeout));
    }
    if Accuses(engine, rules, stored, v, e) {
      FaultsUnderLuck(engine, v.value, rules[v.name], after, e.error);
    } else {
      assert Broken(engine, rules, stored, values[..n], e);
      BrokenIsReported(engine, rules, stored, values[..n], b, e);
    }
  }

  // A value whose match runs out of time spends the budget, and a spent one runs no match
  lemma OutOfTimeSpends(engine: Engine, v: Bson, rule: Rule, b: Budget)
    ensures PatternTimeout in RuleErrors(engine, v, rule, b).0 ==> RuleErrors(engine, v, rule, b).1.exhausted
    ensures b.exhausted ==> RuleErrors(engine, v, rule, b).1 == b && PatternMismatch !in RuleErrors(engine, v, rule, b).0
  {
  }

  /** Once the time is spent no pattern is run: nothing more is reported as a mismatch. */
  lemma {:induction false} SpentRunsNothing(
    engine: Engine, rules: map<string, Rule>, stored: seq<Placed>, values: seq<Placed>, b: Budget, e: PlacedError)
    requires b.exhausted
    ensures Judged(engine, rules, stored, values, b).1 == b
    ensures e in Judged(engine, rules, stored, values, b).0 ==> e.error != PatternMismatch
    decreases |values|
  {
    hide RuleErrors;
    if values != [] {
      var n := |values| - 1;
      var v := values[n];
      SpentRunsNothing(engine, rules, stored, values[..n], b, e);
      if v.name in rules && v !in stored {
        OutOfTimeSpends(engine, v.value, rules[v.name], b);
        AddNewAdds(Judged(engine, rules, stored, values[..n], b).0, v, RuleErrors(engine, v.value, rules[v.name], b).0, e);
      }
    }
  }

  // ------------------------------------------------------------------ the values of a filled object

  // Filling only takes values that are empty away and only brings usable defaults in
  ghost predicate OnlyFills(before: seq<Placed>, after: seq<Placed>, usable: map<string, Option<Bson>>) {
    && (forall v :: v in after ==> v in before || UsableOf(usable, v.name) == Some(v.value))
    && (forall v :: v in before ==> v in after || HasNoValue(v.value))
  }

  lemma EntriesOnlyFill(
    place: Option<string>, entries: seq<Entry>, names: seq<string>, usable: map<string, Option<Bson>>, fields: seq<Field>)
    ensures OnlyFills(EntryValues(place, entries), EntryValues(place, Fill(entries, DefaultsFor(names, usable, fields), false)), usable)
  {
    var defaults := DefaultsFor(names, usable, fields);
    var filled := Fill(entries, defaults, false);
    FillKeepsValues(entries, defaults);
    forall i | 0 <= i < |filled|
      ensures EntryValues(place, filled)[i] in EntryValues(place, entries)
           || UsableOf(usable, filled[i].name) == Some(ValueOf(filled[i]))
    {
      DefaultOfList(names, usable, fields, filled[i].name);
      assert i < |entries| ==> EntryValues(place, entries)[i] in EntryValues(place, entries);
    }
    forall i | 0 <= i < |entries|
      ensures EntryValues(place, entries)[i] in EntryValues(place, filled) || HasNoValue(ValueOf(entries[i]))
    {
      assert EntryValues(place, filled)[i] in EntryValues(place, filled);
    }
  }

  lemma {:induction false} RowsOnlyFill(
    t: TypeDefinition, usable: map<string, Option<Bson>>, id: string, rows: seq<Row>, filled: seq<Row>)
    requires |filled| == |rows| && forall i :: 0 <= i < |rows| ==> filled[i] == FillRow(t, usable, id, rows[i])
    ensures OnlyFills(RowValues(Some(id), rows), RowValues(Some(id), filled), usable)
    decreases |rows|
  {
    if rows != [] {
      EntriesOnlyFill(Some(id), rows[0].data, if id in t.sections then t.sections[id] else [], usable, t.fields);
      RowsOnlyFill(t, usable, id, rows[1..], filled[1..]);
    }
  }

  lemma {:induction false} SectionsOnlyFill(
    t: TypeDefinition, usable: map<string, Option<Bson>>, sections: seq<Section>, filled: seq<Section>)
    requires |filled| == |sections| && forall i :: 0 <= i < |sections| ==> filled[i] == FillSection(t, usable, sections[i])
    ensures OnlyFills(SectionValues(sections), SectionValues(filled), usable)
    decreases |sections|
  {
    if sections != [] {
      RowsOnlyFill(t, usable, sections[0].id, sections[0].rows, filled[0].rows);
      SectionsOnlyFill(t, usable, sections[1..], filled[1..]);
    }
  }

  /**
   What a filled object holds: every value is one the client sent or the usable default of its field, every value
   that was not empty is still there, and no section, row or entry is created outside the entry lists.
   */
  lemma FilledValues(t: TypeDefinition, usable: map<string, Option<Bson>>, o: Object)
    ensures OnlyFills(ObjectValues(o), ObjectValues(FillObject(t, usable, o)), usable)
    ensures var filled := FillObject(t, usable, o);
            && filled.typeId == o.typeId && |filled.sections| == |o.sections|
            && forall i :: 0 <= i < |o.sections| ==>
                 && filled.sections[i].id == o.sections[i].id
                 && |filled.sections[i].rows| == |o.sections[i].rows|
  {
    EntriesOnlyFill(None, o.fields, Outside(NamesOf(t.fields), SectionNames(t.sections)), usable, t.fields);
    SectionsOnlyFill(t, usable, o.sections, FillObject(t, usable, o).sections);
  }

  // ------------------------------------------------------------------ the value judge

  lemma FillingBreaksNoRule(
    engine: Engine, t: TypeDefinition, luck: seq<bool>, o: Object, stored: seq<Placed>, e: PlacedError)
    ensures var rules := BuildRules(engine, t.fields);
            Broken(engine, rules, stored, ObjectValues(FillObject(t, Usable(engine, t, luck), o)), e)
            <==> Broken(engine, rules, stored, ObjectValues(o), e)
  {
    var rules := BuildRules(engine, t.fields);
    var usable := Usable(engine, t, luck);
    UsableDefaultsPass(engine, rules, t.fields, Budget(false, luck));
    FilledValues(t, usable, o);
    forall v: Placed | HasNoValue(v.value) || UsableOf(usable, v.name) == Some(v.value)
      ensures !Accuses(engine, rules, stored, v, e)
    {
    }
  }

  /**
   The value judge agrees with the filling. Whatever runs out of time while the defaults or the object are checked,
   an error other than a timeout that the filled object is refused for was in the object the client sent; and if
   nothing runs out of time while the object is checked, it is refused for the same errors as the unfilled one.
   */
  lemma FilledVerdict(
    engine: Engine, t: TypeDefinition, luck: seq<bool>, o: Object, stored: seq<Placed>, b: Budget, e: PlacedError)
    ensures var rules := BuildRules(engine, t.fields);
            var filled := FillObject(t, Usable(engine, t, luck), o);
            && (e in Judged(engine, rules, stored, ObjectValues(filled), b).0 && e.error != PatternTimeout
                ==> Broken(engine, rules, stored, ObjectValues(o), e))
            && (b == Budget(false, []) ==>
                  (e in Judged(engine, rules, stored, ObjectValues(filled), b).0
                   <==> e in Judged(engine, rules, stored, ObjectValues(o), b).0))
  {
    var rules := BuildRules(engine, t.fields);
    JudgedExact(engine, rules, stored, ObjectValues(o), b, e);
    JudgedExact(engine, rules, stored, ObjectValues(FillObject(t, Usable(engine, t, luck), o)), b, e);
    FillingBreaksNoRule(engine, t, luck, o, stored, e);
  }

  // With no match out of time, every default is usable that is usable under any luck: one field's
  lemma UsableByLuck(engine: Engine, f: Field, rule: Option<Rule>, b: Budget)
    ensures var (most, left) := UsableDefault(engine, f, rule, Budget(false, []));
            left == Budget(false, []) && (UsableDefault(engine, f, rule, b).0.Some? ==> most.Some?)
  {
  }

  lemma {:induction false} MostUsable(engine: Engine, rules: map<string, Rule>, fields: seq<Field>, b: Budget)
    ensures NoneMore(UsableDefaults(engine, rules, fields, Budget(false, [])).0, UsableDefaults(engine, rules, fields, b).0)
    ensures UsableDefaults(engine, rules, fields, Budget(false, [])).1 == Budget(false, [])
    decreases |fields|
  {
    hide UsableDefault;
    if fields != [] {
      MostUsable(engine, rules, fields[..|fields| - 1], b);
      var f := fields[|fields| - 1];
      var left := UsableDefaults(engine, rules, fields[..|fields| - 1], b).1;
      UsableByLuck(engine, f, if f.name in rules then Some(rules[f.name]) else None, left);
      forall name | UsableOf(UsableDefaults(engine, rules, fields, b).0, name).Some?
        ensures UsableOf(UsableDefaults(engine, rules, fields, Budget(false, [])).0, name).Some?
      {
        if name != f.name {
          assert UsableOf(UsableDefaults(engine, rules, fields[..|fields| - 1], b).0, name).Some?;
        }
      }
    }
  }

  /**
   Filling a new object with its type's own defaults a second time, whatever runs out of time then, does what those
   defaults do that ran out of time the first time, and changes no other value - so nothing at all, if none did.
   */
  lemma FillingSettles(engine: Engine, t: TypeDefinition, luck: seq<bool>, again: seq<bool>, o: Object)
    ensures var first, second := Usable(engine, t, luck), Usable(engine, t, again);
            var once := FillObject(t, first, o);
            && FillObject(t, second, once) == FillObject(t, Late(first, second), once)
            && OnlyFills(ObjectValues(once), ObjectValues(FillObject(t, second, once)), Late(first, second))
            && (NoneMore(first, second) ==> FillObject(t, second, once) == once)
    ensures NoneMore(Usable(engine, t, []), Usable(engine, t, again))
  {
    var rules := BuildRules(engine, t.fields);
    var first, second := Usable(engine, t, luck), Usable(engine, t, again);
    var once := FillObject(t, first, o);
    UsableDefaultsPass(engine, rules, t.fields, Budget(false, luck));
    MostUsable(engine, rules, t.fields, Budget(false, again));
    FillObjectAgain(t, first, second, o);
    FilledValues(t, Late(first, second), once);
    if NoneMore(first, second) {
      NothingUsable(t, Late(first, second), once);
    }
  }
}
