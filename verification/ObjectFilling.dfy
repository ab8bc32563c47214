/** Filling a whole new object, and that the required-field judge and the value judge agree with it. */
module ObjectFilling {
  import opened Prelude
  import opened Documents
  import opened ObjectRules
  import opened ObjectDefaults

  // ------------------------------------------------------------------ the defaults of each list

  // The keys of a dict built over the names: each once, where it first stands
  function FirstOnly(names: seq<string>): (keys: seq<string>)
    ensures NoDuplicates(keys)
    ensures forall name :: name in keys <==> name in names
  {
    if names == [] then []
    else
      var n := |names| - 1;
      var before := FirstOnly(names[..n]);
      assert names == names[..n] + [names[n]];
      if names[n] in before then before else before + [names[n]]
  }

  function NamesOf(fields: seq<Field>): seq<string> {
    seq(|fields|, i requires 0 <= i < |fields| => fields[i].name)
  }

  function Outside(names: seq<string>, inside: set<string>): (kept: seq<string>)
    ensures forall name :: name in kept <==> name in names && name !in inside
  {
    if names == [] then []
    else (if names[0] in inside then [] else [names[0]]) + Outside(names[1..], inside)
  }

  function SectionNames(sections: map<string, seq<string>>): set<string> {
    set id, name | id in sections && name in sections[id] :: name
  }

  function KindOf(fields: seq<Field>, name: string): Option<string> {
    if fields == [] then None
    else if fields[|fields| - 1].name == name then fields[|fields| - 1].kind
    else KindOf(fields[..|fields| - 1], name)
  }

  function DefaultsFor(names: seq<string>, usable: map<string, Option<Bson>>, fields: seq<Field>): (defaults: seq<Default>)
    ensures IsDict(defaults)
  {
    var keys := FirstOnly(names);
    seq(|keys|, i requires 0 <= i < |keys| => Default(keys[i], UsableOf(usable, keys[i]), KindOf(fields, keys[i])))
  }

  function UsableOf(usable: map<string, Option<Bson>>, name: string): Option<Bson> {
    if name in usable then usable[name] else None
  }

  lemma DefaultOfList(names: seq<string>, usable: map<string, Option<Bson>>, fields: seq<Field>, name: string)
    ensures DefaultOf(DefaultsFor(names, usable, fields), name) == if name in names then UsableOf(usable, name) else None
  {
    var keys := FirstOnly(names);
    var defaults := DefaultsFor(names, usable, fields);
    if name in names {
      var i :| 0 <= i < |keys| && keys[i] == name;
      DefaultFound(defaults, i);
    } else {
      NotADefault(defaults, name);
    }
  }

  // ------------------------------------------------------------------ the object

  // Every default is a value the required-field judge accepts
  ghost predicate HoldsValues(usable: map<string, Option<Bson>>) {
    forall name :: name in usable && usable[name].Some? ==> !HasNoValue(usable[name].value)
  }

  // A default passes its field's rule, so that only a match running out of time can speak against it
  ghost predicate AllPass(engine: Engine, rules: map<string, Rule>, usable: map<string, Option<Bson>>) {
    forall name :: name in usable && usable[name].Some? ==> Passes(engine, rules, name, usable[name].value)
  }

  ghost predicate Passes(engine: Engine, rules: map<string, Rule>, name: string, v: Bson) {
    !HasNoValue(v) && (name in rules ==> Faults(engine, v, rules[name]) == [])
  }

  // What a rule has against a value when no match runs out of time
  function Faults(engine: Engine, v: Bson, rule: Rule): seq<ValueError> {
    RuleErrors(engine, v, rule, Budget(false, [])).0
  }

  lemma {:induction false} UsableDefaultsPass(engine: Engine, rules: map<string, Rule>, fields: seq<Field>, b: Budget)
    ensures AllPass(engine, rules, UsableDefaults(engine, rules, fields, b).0)
    decreases |fields|
  {
    if fields != [] {
      UsableDefaultsPass(engine, rules, fields[..|fields| - 1], b);
    }
  }

  function Usable(engine: Engine, t: TypeDefinition, luck: seq<bool>): map<string, Option<Bson>> {
    UsableDefaults(engine, BuildRules(engine, t.fields), t.fields, Budget(false, luck)).0
  }

  function TopLevelDefaults(t: TypeDefinition, usable: map<string, Option<Bson>>): (defaults: seq<Default>)
    ensures IsDict(defaults)
  {
    DefaultsFor(Outside(NamesOf(t.fields), SectionNames(t.sections)), usable, t.fields)
  }

  function RowDefaults(t: TypeDefinition, usable: map<string, Option<Bson>>, id: string): (defaults: seq<Default>)
    ensures IsDict(defaults)
  {
    DefaultsFor(if id in t.sections then t.sections[id] else [], usable, t.fields)
  }

  function FillRow(t: TypeDefinition, usable: map<string, Option<Bson>>, id: string, row: Row): Row {
    row.(data := Fill(row.data, RowDefaults(t, usable, id), false))
  }

  function FillSection(t: TypeDefinition, usable: map<string, Option<Bson>>, s: Section): Section {
    s.(rows := seq(|s.rows|, i requires 0 <= i < |s.rows| => FillRow(t, usable, s.id, s.rows[i])))
  }

  function FillObject(t: TypeDefinition, usable: map<string, Option<Bson>>, o: Object): Object {
    o.(fields := Fill(o.fields, TopLevelDefaults(t, usable), false),
    sections := seq(|o.sections|, i requires 0 <= i < |o.sections| => FillSection(t, usable, o.sections[i])))
  }

  method FillObjectDefaults(engine: Engine, t: TypeDefinition, o: Object, luck: seq<bool>) returns (filled: Object)
    ensures filled == FillObject(t, Usable(engine, t, luck), o)
  {
    hide Fill, RowDefaults, TopLevelDefaults, Usable;
    var usable := Usable(engine, t, luck);
    var fields := FillEntriesFromDefaults(o.fields, TopLevelDefaults(t, usable), false);
    var sections := o.sections;
    for i := 0 to |sections|
      invariant |sections| == |o.sections|
      invariant forall j :: 0 <= j < i ==> sections[j] == FillSection(t, usable, o.sections[j])
      invariant forall j :: i <= j < |sections| ==> sections[j] == o.sections[j]
    {
      var id := sections[i].id;
      var names := if id in t.sections then t.sections[id] else [];
      if names == [] {
        NoNamesNoFilling(t, usable, sections[i]);
        continue;
      }
      var rows := sections[i].rows;
      for k := 0 to |rows|
        invariant |rows| == |o.sections[i].rows|
        invariant forall j :: 0 <= j < k ==> rows[j] == FillRow(t, usable, id, o.sections[i].rows[j])
        invariant forall j :: k <= j < |rows| ==> rows[j] == o.sections[i].rows[j]
      {
        var data := FillEntriesFromDefaults(rows[k].data, RowDefaults(t, usable, id), false);
        rows := rows[k := rows[k].(data := data)];
      }
      assert rows == FillSection(t, usable, o.sections[i]).rows;
      sections := sections[i := sections[i].(rows := rows)];
    }
    assert sections == FillObject(t, usable, o).sections;
    filled := o.(fields := fields, sections := sections);
  }

  lemma NoNamesNoFilling(t: TypeDefinition, usable: map<string, Option<Bson>>, s: Section)
    requires s.id !in t.sections || t.sections[s.id] == []
    ensures FillSection(t, usable, s) == s
  {
    assert FirstOnly([]) == [];
    assert RowDefaults(t, usable, s.id) == [];
    assert FillSection(t, usable, s).rows == s.rows;
  }

  // ------------------------------------------------------------------ filling twice

  lemma UsableLists(names: seq<string>, usable: map<string, Option<Bson>>, fields: seq<Field>)
    requires HoldsValues(usable)
    ensures AllUsable(DefaultsFor(names, usable, fields))
  {
  }

  // The defaults that are usable only the second time
  function Late(usable: map<string, Option<Bson>>, again: map<string, Option<Bson>>): map<string, Option<Bson>> {
    map name | name in again && UsableOf(usable, name).None? :: again[name]
  }

  lemma ListsLateOnes(names: seq<string>, usable: map<string, Option<Bson>>, again: map<string, Option<Bson>>, fields: seq<Field>)
    ensures NewDefaults(DefaultsFor(names, usable, fields), DefaultsFor(names, again, fields))
         == DefaultsFor(names, Late(usable, again), fields)
  {
    var keys := FirstOnly(names);
    forall i | 0 <= i < |keys|
      ensures DefaultOf(DefaultsFor(names, usable, fields), keys[i]) == UsableOf(usable, keys[i])
    {
      assert keys[i] in keys;
      DefaultOfList(names, usable, fields, keys[i]);
    }
  }

  lemma ListFilledAgain(
    entries: seq<Entry>, names: seq<string>, usable: map<string, Option<Bson>>, again: map<string, Option<Bson>>, fields: seq<Field>)
    requires HoldsValues(usable)
    ensures var filled := Fill(entries, DefaultsFor(names, usable, fields), false);
            Fill(filled, DefaultsFor(names, again, fields), false) == Fill(filled, DefaultsFor(names, Late(usable, again), fields), false)
  {
    UsableLists(names, usable, fields);
    ListsLateOnes(names, usable, again, fields);
    FillAgain(entries, DefaultsFor(names, usable, fields), DefaultsFor(names, again, fields));
  }

  /** Filling an object again does what the defaults do that were not usable the first time, no more. */
  lemma FillObjectAgain(t: TypeDefinition, usable: map<string, Option<Bson>>, again: map<string, Option<Bson>>, o: Object)
    requires HoldsValues(usable)
    ensures var once := FillObject(t, usable, o); FillObject(t, again, once) == FillObject(t, Late(usable, again), once)
  {
    var once := FillObject(t, usable, o);
    var twice, late := FillObject(t, again, once), FillObject(t, Late(usable, again), once);
    ListFilledAgain(o.fields, Outside(NamesOf(t.fields), SectionNames(t.sections)), usable, again, t.fields);
    forall i | 0 <= i < |o.sections|
      ensures twice.sections[i] == late.sections[i]
    {
      var s := o.sections[i];
      forall k | 0 <= k < |s.rows|
        ensures twice.sections[i].rows[k] == late.sections[i].rows[k]
      {
        ListFilledAgain(s.rows[k].data, if s.id in t.sections then t.sections[s.id] else [], usable, again, t.fields);
      }
      assert twice.sections[i].rows == late.sections[i].rows;
    }
    assert twice.sections == late.sections;
  }

  // What is usable the second time was so the first time
  ghost predicate NoneMore(usable: map<string, Option<Bson>>, again: map<string, Option<Bson>>) {
    forall name :: UsableOf(again, name).Some? ==> UsableOf(usable, name).Some?
  }

  lemma NoDefaultNoFilling(entries: seq<Entry>, names: seq<string>, usable: map<string, Option<Bson>>, fields: seq<Field>)
    requires forall name :: UsableOf(usable, name).None?
    ensures Fill(entries, DefaultsFor(names, usable, fields), false) == entries
  {
    FillFixed(entries, DefaultsFor(names, usable, fields));
  }

  lemma NothingUsable(t: TypeDefinition, usable: map<string, Option<Bson>>, o: Object)
    requires forall name :: UsableOf(usable, name).None?
    ensures FillObject(t, usable, o) == o
  {
    NoDefaultNoFilling(o.fields, Outside(NamesOf(t.fields), SectionNames(t.sections)), usable, t.fields);
    var filled := FillObject(t, usable, o);
    forall i | 0 <= i < |o.sections|
      ensures filled.sections[i] == o.sections[i]
    {
      var s := o.sections[i];
      forall k | 0 <= k < |s.rows|
        ensures filled.sections[i].rows[k] == s.rows[k]
      {
        NoDefaultNoFilling(s.rows[k].data, if s.id in t.sections then t.sections[s.id] else [], usable, t.fields);
      }
      assert filled.sections[i].rows == s.rows;
    }
    assert filled.sections == o.sections;
  }

  // ------------------------------------------------------------------ the required-field judge

  function RequiredBySection(required: set<string>, sections: map<string, seq<string>>): map<string, set<string>> {
    map id | id in sections && RequiredIn(required, sections, id) != {} :: RequiredIn(required, sections, id)
  }

  // What the object leaves missing per section; of two sections of an id the last with a gap is reported
  function MissingBySection(sections: seq<Section>, required: map<string, set<string>>): map<string, set<string>> {
    if sections == [] then map[]
    else
      var s := sections[|sections| - 1];
      var before := MissingBySection(sections[..|sections| - 1], required);
      if s.id in required then Reported(before, s.id, MissingInRows(s.rows, required[s.id])) else before
  }

  datatype Missing = Missing(topLevel: set<string>, bySection: map<string, set<string>>)

  function MissingValues(o: Object, t: TypeDefinition): Missing {
    var required := RequiredNames(t.fields);
    Missing(FindMissing(o.fields, RequiredTopLevel(required, t.sections)),
            MissingBySection(o.sections, RequiredBySection(required, t.sections)))
  }

  method CollectMissingRequiredValues(o: Object, t: TypeDefinition) returns (missing: Missing)
    ensures missing == MissingValues(o, t)
  {
    var required := RequiredNames(t.fields);
    var bySection := RequiredBySection(required, t.sections);
    var found: map<string, set<string>> := map[];
    for i := 0 to |o.sections|
      invariant found == MissingBySection(o.sections[..i], bySection)
    {
      assert o.sections[..i + 1][..i] == o.sections[..i];
      var s := o.sections[i];
      if s.id !in bySection {
        continue;
      }
      var here := CollectMissingInSection(s.rows, bySection[s.id]);
      if here != {} {
        found := found[s.id := here];
      }
    }
    assert o.sections[..|o.sections|] == o.sections;
    missing := Missing(FindMissing(o.fields, RequiredTopLevel(required, t.sections)), found);
  }

  ghost predicate DistinctSections(sections: seq<Section>) {
    forall i, j :: 0 <= i < j < |sections| ==> sections[i].id != sections[j].id
  }

  lemma MissingInFilledRows(t: TypeDefinition, usable: map<string, Option<Bson>>, s: Section, required: set<string>)
    requires HoldsValues(usable)
    requires s.id in t.sections && forall name :: name in required ==> name in t.sections[s.id]
    ensures MissingInRows(FillSection(t, usable, s).rows, required)
         == set name | name in MissingInRows(s.rows, required) && UsableOf(usable, name) == None
  {
    var filled := FillSection(t, usable, s).rows;
    UsableLists(t.sections[s.id], usable, t.fields);
    forall name, i | name in required && 0 <= i < |s.rows|
      ensures IsMissing(filled[i].data, name) <==> IsMissing(s.rows[i].data, name) && UsableOf(usable, name) == None
    {
      MissingAfterFillIff(s.rows[i].data, RowDefaults(t, usable, s.id), name);
      DefaultOfList(t.sections[s.id], usable, t.fields, name);
    }
  }

  // The names a section is reported with, before and after the filling
  function Remaining(names: set<string>, usable: map<string, Option<Bson>>): set<string> {
    set name | name in names && UsableOf(usable, name) == None
  }

  // No section is reported that was not
  ghost predicate Within(after: map<string, set<string>>, before: map<string, set<string>>) {
    forall id :: id in after ==> id in before
  }

  ghost predicate OnlyUnfillable(missing: map<string, set<string>>, usable: map<string, Option<Bson>>) {
    forall id, name :: id in missing && name in missing[id] ==> UsableOf(usable, name) == None
  }

  ghost predicate LessTheFillable(before: map<string, set<string>>, after: map<string, set<string>>, usable: map<string, Option<Bson>>) {
    forall id :: id in before ==> Remaining(before[id], usable) == if id in after then after[id] else {}
  }

  lemma {:induction false} KeysAreSections(sections: seq<Section>, required: map<string, set<string>>, id: string)
    requires forall i :: 0 <= i < |sections| ==> sections[i].id != id
    ensures id !in MissingBySection(sections, required)
    decreases |sections|
  {
    if sections != [] {
      KeysAreSections(sections[..|sections| - 1], required, id);
    }
  }

  lemma SectionRemaining(t: TypeDefinition, usable: map<string, Option<Bson>>, s: Section, required: map<string, set<string>>)
    requires HoldsValues(usable) && required == RequiredBySection(RequiredNames(t.fields), t.sections) && s.id in required
    ensures MissingInRows(FillSection(t, usable, s).rows, required[s.id]) == Remaining(MissingInRows(s.rows, required[s.id]), usable)
  {
    MissingInFilledRows(t, usable, s, required[s.id]);
  }

  function Reported(missing: map<string, set<string>>, id: string, names: set<string>): map<string, set<string>> {
    if names != {} then missing[id := names] else missing
  }

  lemma ReportedAfterFill(
    before: map<string, set<string>>, after: map<string, set<string>>, id: string, was: set<string>, now: set<string>,
    usable: map<string, Option<Bson>>)
    requires Within(after, before) && OnlyUnfillable(after, usable) && now == Remaining(was, usable)
    ensures Within(Reported(after, id, now), Reported(before, id, was))
    ensures OnlyUnfillable(Reported(after, id, now), usable)
    ensures id !in before && LessTheFillable(before, after, usable) ==>
              LessTheFillable(Reported(before, id, was), Reported(after, id, now), usable)
  {
    assert was == {} ==> now == {};
  }

  lemma MissingNext(sections: seq<Section>, required: map<string, set<string>>)
    requires sections != []
    ensures var n := |sections| - 1;
            var before := MissingBySection(sections[..n], required);
            MissingBySection(sections, required)
            == if sections[n].id in required
               then Reported(before, sections[n].id, MissingInRows(sections[n].rows, required[sections[n].id]))
               else before
  {
    hide MissingInRows, Reported;
  }

  lemma {:induction false} MissingBySectionAfterFill(
    t: TypeDefinition, usable: map<string, Option<Bson>>, sections: seq<Section>, filled: seq<Section>, required: map<string, set<string>>)
    requires HoldsValues(usable) && required == RequiredBySection(RequiredNames(t.fields), t.sections)
    requires |filled| == |sections| && forall i :: 0 <= i < |sections| ==> filled[i] == FillSection(t, usable, sections[i])
    ensures Within(MissingBySection(filled, required), MissingBySection(sections, required))
    ensures OnlyUnfillable(MissingBySection(filled, required), usable)
    ensures DistinctSections(sections) ==>
              LessTheFillable(MissingBySection(sections, required), MissingBySection(filled, required), usable)
    decreases |sections|
  {
    if sections != [] {
      var n := |sections| - 1;
      var s := sections[n];
      assert filled[n] == FillSection(t, usable, s) && filled[n].id == s.id;
      assert DistinctSections(sections) ==> DistinctSections(sections[..n]);
      if DistinctSections(sections) {
        KeysAreSections(sections[..n], required, s.id);
      }
      hide *;
      MissingNext(sections, required);
      MissingNext(filled, required);
      MissingBySectionAfterFill(t, usable, sections[..n], filled[..n], required);
      if s.id in required {
        SectionRemaining(t, usable, s, required);
        ReportedAfterFill(MissingBySection(sections[..n], required), MissingBySection(filled[..n], required), s.id,
                          MissingInRows(s.rows, required[s.id]), MissingInRows(filled[n].rows, required[s.id]), usable);
      }
    }
  }

  /**
   The required-field judge agrees with the filling: a filled object is never reported for a field with a usable
   default, and when no section id stands twice the report is the one of the unfilled object less exactly those
   fields.
   */
  lemma FilledReport(t: TypeDefinition, usable: map<string, Option<Bson>>, o: Object)
    requires HoldsValues(usable)
    ensures var before, after := MissingValues(o, t), MissingValues(FillObject(t, usable, o), t);
            && after.topLevel == Remaining(before.topLevel, usable)
            && Within(after.bySection, before.bySection)
            && OnlyUnfillable(after.bySection, usable)
            && (DistinctSections(o.sections) ==> LessTheFillable(before.bySection, after.bySection, usable))
  {
    var top := Outside(NamesOf(t.fields), SectionNames(t.sections));
    UsableLists(top, usable, t.fields);
    var required := RequiredTopLevel(RequiredNames(t.fields), t.sections);
    forall name | name in required
      ensures IsMissing(FillObject(t, usable, o).fields, name) <==> IsMissing(o.fields, name) && UsableOf(usable, name) == None
    {
      RequiredIsTopLevel(t, name);
      MissingAfterFillIff(o.fields, TopLevelDefaults(t, usable), name);
      DefaultOfList(top, usable, t.fields, name);
    }
    assert FindMissing(FillObject(t, usable, o).fields, required) == Remaining(FindMissing(o.fields, required), usable);
    MissingBySectionAfterFill(t, usable, o.sections, FillObject(t, usable, o).sections,
                              RequiredBySection(RequiredNames(t.fields), t.sections));
  }

  lemma RequiredIsTopLevel(t: TypeDefinition, name: string)
    requires name in RequiredTopLevel(RequiredNames(t.fields), t.sections)
    ensures name in Outside(NamesOf(t.fields), SectionNames(t.sections))
  {
    var f :| f in t.fields && f.required && f.name == name;
    var i :| 0 <= i < |t.fields| && t.fields[i] == f;
    assert NamesOf(t.fields)[i] == name;
  }
}
