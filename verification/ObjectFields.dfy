/**
 What the field definitions of a type ask of its objects, in their own terms: which default fills a field, which
 values are refused, which fields are missing.
 */
module ObjectFields {
  import opened Prelude
  import opened Documents
  import opened ObjectRules
  import opened ObjectDefaults
  import opened ObjectFilling
  import opened ObjectVerdicts

  // ------------------------------------------------------------------ the rule of a name

  predicate Patterned(engine: Engine, f: Field) {
    f.regex.Some? && f.regex.value != "" && engine.compiles(AnchorFieldRegex(f.regex.value))
  }

  // A field with a length limit or a pattern that compiles
  predicate Ruled(engine: Engine, f: Field) {
    f.kind in {Some("text"), Some("textarea")} || Patterned(engine, f)
  }

  // The last ruled field of its name, whose rule is the name's
  predicate Governs(engine: Engine, fields: seq<Field>, k: int) {
    && 0 <= k < |fields| && Ruled(engine, fields[k])
    && forall j :: k < j < |fields| && fields[j].name == fields[k].name ==> !Ruled(engine, fields[j])
  }

  // What a field has against a value: over 255 characters in a text, 65536 in a text area, or a text or number that
  // its anchored pattern does not find
  predicate Complains(engine: Engine, f: Field, v: Bson, e: ValueError) {
    match e
    case TooLong(n) =>
      v.Str? && n == |v.s| && ((f.kind == Some("text") && n > 255) || (f.kind == Some("textarea") && n > 65536))
    case PatternMismatch =>
      && Patterned(engine, f)
      && var pattern := AnchorFieldRegex(f.regex.value);
         || (v.Str? && v.s != "" && !engine.search(pattern, v.s))
         || (v.Num? && !engine.search(pattern, engine.spell(v.n)))
    case PatternTimeout => false
  }

  /** An anchored pattern starts with ^ and ends with $, and is the pattern where it already does. */
  lemma AnchoredRegex(regex: string)
    ensures var a := AnchorFieldRegex(regex);
            && |a| > 0 && a[0] == '^' && a[|a| - 1] == '$'
            && (regex != "" && regex[0] == '^' ==> regex <= a)
            && (regex != "" && regex[|regex| - 1] == '$' ==> |regex| <= |a| && a[|a| - |regex|..] == regex)
            && a in {regex, "^" + regex, regex + "$", "^" + regex + "$"}
  {
    assert "" + regex + "" == regex && "^" + regex + "" == "^" + regex && "" + regex + "$" == regex + "$";
  }

  lemma RuledIff(engine: Engine, f: Field)
    ensures RuleOf(engine, f).Some? <==> Ruled(engine, f)
  {
  }

  // One more field at the end: it governs its name if it is ruled, the others govern theirs as before
  lemma GovernsNext(engine: Engine, fields: seq<Field>, k: int)
    requires fields != []
    ensures var n := |fields| - 1;
            Governs(engine, fields, k) <==>
            if k == n then Ruled(engine, fields[n])
            else Governs(engine, fields[..n], k) && !(fields[n].name == fields[k].name && Ruled(engine, fields[n]))
  {
    hide Ruled;
    var n := |fields| - 1;
    assert forall j :: 0 <= j < n ==> fields[..n][j] == fields[j];
  }

  lemma {:induction false} GoverningRule(engine: Engine, fields: seq<Field>, name: string)
    ensures name in BuildRules(engine, fields) ==> exists k :: Governs(engine, fields, k) && fields[k].name == name
    ensures forall k :: Governs(engine, fields, k) && fields[k].name == name ==>
              name in BuildRules(engine, fields) && Some(BuildRules(engine, fields)[name]) == RuleOf(engine, fields[k])
    decreases |fields|
  {
    if fields != [] {
      var n := |fields| - 1;
      var before := fields[..n];
      GoverningRule(engine, before, name);
      RuledIff(engine, fields[n]);
      forall k
        ensures Governs(engine, fields, k) <==>
                if k == n then Ruled(engine, fields[n])
                else Governs(engine, before, k) && !(fields[n].name == fields[k].name && Ruled(engine, fields[n]))
      {
        GovernsNext(engine, fields, k);
      }
      hide RuleOf, Ruled;
      if name in BuildRules(engine, fields) {
        if fields[n].name == name && Ruled(engine, fields[n]) {
          assert Governs(engine, fields, n);
        } else {
          var k :| Governs(engine, before, k) && before[k].name == name;
          assert Governs(engine, fields, k) && fields[k] == before[k];
        }
      }
    }
  }

  /** A ruled field's judgement of a value, when no match runs out of time, is exactly what it has against it. */
  lemma FaultsExact(engine: Engine, f: Field, v: Bson, e: ValueError)
    requires Ruled(engine, f)
    ensures RuleOf(engine, f).Some?
    ensures e in Faults(engine, v, RuleOf(engine, f).value) <==> Complains(engine, f, v, e)
  {
    RuledIff(engine, f);
  }

  // What the fields of a type have against a value of the name
  ghost predicate Refuses(engine: Engine, fields: seq<Field>, name: string, v: Bson, e: ValueError) {
    exists k :: Governs(engine, fields, k) && fields[k].name == name && Complains(engine, fields[k], v, e)
  }

  lemma RefusesIff(engine: Engine, fields: seq<Field>, name: string, v: Bson, e: ValueError)
    ensures var rules := BuildRules(engine, fields);
            Refuses(engine, fields, name, v, e) <==> name in rules && e in Faults(engine, v, rules[name])
  {
    GoverningRule(engine, fields, name);
    forall k | Governs(engine, fields, k)
      ensures RuleOf(engine, fields[k]).Some?
      ensures e in Faults(engine, v, RuleOf(engine, fields[k]).value) <==> Complains(engine, fields[k], v, e)
    {
      FaultsExact(engine, fields[k], v, e);
    }
    hide BuildRules, RuleOf, Governs, Complains, Faults;
  }

  // ------------------------------------------------------------------ the values refused

  // An entry of the object: of its top level, or of a row of the section it is placed in
  ghost predicate Carried(o: Object, place: Option<string>, e: Entry) {
    match place
    case None => e in o.fields
    case Some(id) => exists s, row :: s in o.sections && s.id == id && row in s.rows && e in row.data
  }

  lemma EntryValuesOf(place: Option<string>, entries: seq<Entry>, v: Placed)
    ensures v in EntryValues(place, entries) <==> v.place == place && exists e :: e in entries && e.name == v.name && ValueOf(e) == v.value
  {
    if v in EntryValues(place, entries) {
      var i :| 0 <= i < |entries| && EntryValues(place, entries)[i] == v;
      assert entries[i] in entries;
    }
    if e :| e in entries && e.name == v.name && ValueOf(e) == v.value && v.place == place {
      var i :| 0 <= i < |entries| && entries[i] == e;
      assert EntryValues(place, entries)[i] == v;
    }
  }

  lemma {:induction false} RowValuesOf(place: Option<string>, rows: seq<Row>, v: Placed)
    ensures v in RowValues(place, rows) <==>
            v.place == place && exists row, e :: row in rows && e in row.data && e.name == v.name && ValueOf(e) == v.value
    decreases |rows|
  {
    if rows != [] {
      EntryValuesOf(place, rows[0].data, v);
      RowValuesOf(place, rows[1..], v);
      assert forall row :: row in rows <==> row == rows[0] || row in rows[1..];
    }
  }

  lemma {:induction false} SectionValuesOf(sections: seq<Section>, v: Placed)
    ensures v in SectionValues(sections) <==>
            v.place.Some? && exists s, row, e ::
              s in sections && s.id == v.place.value && row in s.rows && e in row.data && e.name == v.name && ValueOf(e) == v.value
    decreases |sections|
  {
    if sections != [] {
      RowValuesOf(Some(sections[0].id), sections[0].rows, v);
      SectionValuesOf(sections[1..], v);
      assert forall s :: s in sections <==> s == sections[0] || s in sections[1..];
    }
  }

  /** The values of an object are those of its entries, wherever they sit. */
  lemma ObjectValuesOf(o: Object, v: Placed)
    ensures v in ObjectValues(o) <==> exists e :: Carried(o, v.place, e) && e.name == v.name && ValueOf(e) == v.value
  {
    EntryValuesOf(None, o.fields, v);
    SectionValuesOf(o.sections, v);
    if s, row, e :| s in o.sections && v.place == Some(s.id) && row in s.rows && e in row.data && e.name == v.name && ValueOf(e) == v.value {
      assert Carried(o, v.place, e);
    }
  }

  /**
   An object's errors, when no match runs out of time, are exactly what the fields of its type have against the
   values of its entries, those already stored in their place excepted.
   */
  lemma JudgedByFields(engine: Engine, fields: seq<Field>, stored: seq<Placed>, o: Object, e: PlacedError)
    ensures e in Judged(engine, BuildRules(engine, fields), stored, ObjectValues(o), Budget(false, [])).0 <==>
            exists x :: Carried(o, e.place, x) && x.name == e.name && Placed(e.place, x.name, ValueOf(x)) !in stored
                        && Refuses(engine, fields, x.name, ValueOf(x), e.error)
  {
    var rules := BuildRules(engine, fields);
    JudgedExact(engine, rules, stored, ObjectValues(o), Budget(false, []), e);
    hide BuildRules, Judged, Refuses, Carried, ObjectValues, Faults;
    if v :| v in ObjectValues(o) && Accuses(engine, rules, stored, v, e) {
      ObjectValuesOf(o, v);
      RefusesIff(engine, fields, v.name, v.value, e.error);
    }
    if x :| Carried(o, e.place, x) && x.name == e.name && Placed(e.place, x.name, ValueOf(x)) !in stored
            && Refuses(engine, fields, x.name, ValueOf(x), e.error) {
      var v := Placed(e.place, x.name, ValueOf(x));
      ObjectValuesOf(o, v);
      RefusesIff(engine, fields, v.name, v.value, e.error);
      assert Accuses(engine, rules, stored, v, e);
    }
  }

  // ------------------------------------------------------------------ usable defaults

  // The last field of its name
  predicate IsLast(fields: seq<Field>, k: nat) {
    k < |fields| && forall j :: k < j < |fields| ==> fields[j].name != fields[k].name
  }

  // A declared default that may be filled in: a value, of no kind that is left out, that the rule of its name admits
  ghost predicate Fills(engine: Engine, fields: seq<Field>, f: Field) {
    && f.value !in {Null, Str(""), Arr([])}
    && f.kind !in {Some("ref"), Some("ref-section-field"), Some("location")}
    && forall e :: !Refuses(engine, fields, f.name, f.value, e)
  }

  lemma UsableIff(engine: Engine, fields: seq<Field>, f: Field)
    ensures var rules := BuildRules(engine, fields);
            UsableDefault(engine, f, if f.name in rules then Some(rules[f.name]) else None, Budget(false, [])).0
            == if Fills(engine, fields, f) then Some(f.value) else None
  {
    var rules := BuildRules(engine, fields);
    forall e
      ensures Refuses(engine, fields, f.name, f.value, e) <==> f.name in rules && e in Faults(engine, f.value, rules[f.name])
    {
      RefusesIff(engine, fields, f.name, f.value, e);
    }
    hide BuildRules, Refuses;
    if f.name in rules && Faults(engine, f.value, rules[f.name]) != [] {
      assert Faults(engine, f.value, rules[f.name])[0] in Faults(engine, f.value, rules[f.name]);
    }
  }

  lemma {:induction false} LastUsable(engine: Engine, rules: map<string, Rule>, fields: seq<Field>, k: nat)
    requires IsLast(fields, k)
    ensures var name := fields[k].name;
            UsableOf(UsableDefaults(engine, rules, fields, Budget(false, [])).0, name)
            == UsableDefault(engine, fields[k], if name in rules then Some(rules[name]) else None, Budget(false, [])).0
    decreases |fields|
  {
    hide UsableDefault;
    var n := |fields| - 1;
    MostUsable(engine, rules, fields[..n], Budget(false, []));
    if k < n {
      assert fields[..n][k] == fields[k];
      LastUsable(engine, rules, fields[..n], k);
    }
  }

  lemma {:induction false} OnlyNamedUsable(engine: Engine, rules: map<string, Rule>, fields: seq<Field>, b: Budget, name: string)
    requires forall f :: f in fields ==> f.name != name
    ensures UsableOf(UsableDefaults(engine, rules, fields, b).0, name) == None
    decreases |fields|
  {
    if fields != [] {
      OnlyNamedUsable(engine, rules, fields[..|fields| - 1], b, name);
    }
  }

  /**
   The default of a name, when no match runs out of time: what the last field of the name declares, if and only if that
   is a value, the field's kind is none of the three, and the rule of the name has nothing against it.
   */
  lemma UsableExact(engine: Engine, t: TypeDefinition, k: nat)
    requires IsLast(t.fields, k)
    ensures UsableOf(Usable(engine, t, []), t.fields[k].name)
         == if Fills(engine, t.fields, t.fields[k]) then Some(t.fields[k].value) else None
  {
    LastUsable(engine, BuildRules(engine, t.fields), t.fields, k);
    UsableIff(engine, t.fields, t.fields[k]);
  }

  // ------------------------------------------------------------------ what filling brings

  // The list holds the value last under the name, in the entry that was there or in a new one of this kind
  ghost predicate NowHolds(entries: seq<Entry>, filled: seq<Entry>, name: string, value: Bson, kind: Option<string>) {
    && LastIndex(filled, name).Some?
    && var i := LastIndex(filled, name).value;
       && filled[i].value == Some(value)
       && match LastIndex(entries, name)
          case None => i >= |entries| && filled[i].kind == kind
          case Some(j) => i == j
  }

  lemma {:induction false} FillBrings(entries: seq<Entry>, defaults: seq<Default>, name: string, kind: Option<string>)
    requires IsDict(defaults) && DefaultOf(defaults, name).Some?
    requires forall j :: 0 <= j < |defaults| && defaults[j].name == name ==> defaults[j].kind == kind
    requires LastIndex(entries, name).None? || HasNoValue(ValueOf(entries[LastIndex(entries, name).value]))
    ensures NowHolds(entries, Fill(entries, defaults, false), name, DefaultOf(defaults, name).value, kind)
    decreases |defaults|
  {
    hide HasNoValue;
    var n := |defaults| - 1;
    var d := defaults[n];
    var before := Fill(entries, defaults[..n], false);
    FillGrows(entries, defaults[..n], false);
    if name == d.name {
      FillElsewhere(entries, defaults[..n], name);
      SameLastIndexNamed(before, FillOne(before, d, false), d);
    } else {
      FillBrings(entries, defaults[..n], name, kind);
      FillOneElsewhere(before, d, name);
    }
  }

  lemma {:induction false} KindOfLast(fields: seq<Field>, k: nat)
    requires IsLast(fields, k)
    ensures KindOf(fields, fields[k].name) == fields[k].kind
    decreases |fields|
  {
    if k < |fields| - 1 {
      assert fields[..|fields| - 1][k] == fields[k];
      KindOfLast(fields[..|fields| - 1], k);
    }
  }

  lemma ListFilled(entries: seq<Entry>, names: seq<string>, usable: map<string, Option<Bson>>, fields: seq<Field>, k: nat)
    requires IsLast(fields, k) && fields[k].name in names && UsableOf(usable, fields[k].name).Some?
    requires var i := LastIndex(entries, fields[k].name); i.None? || HasNoValue(ValueOf(entries[i.value]))
    ensures NowHolds(entries, Fill(entries, DefaultsFor(names, usable, fields), false),
                     fields[k].name, UsableOf(usable, fields[k].name).value, fields[k].kind)
  {
    var name := fields[k].name;
    DefaultOfList(names, usable, fields, name);
    KindOfLast(fields, k);
    FillBrings(entries, DefaultsFor(names, usable, fields), name, fields[k].kind);
  }

  // The last entry of the name is missing or empty
  predicate Lacks(entries: seq<Entry>, name: string) {
    var i := LastIndex(entries, name);
    i.None? || entries[i.value].value in {None, Some(Null), Some(Str("")), Some(Arr([]))}
  }

  lemma LacksIff(entries: seq<Entry>, name: string)
    ensures Lacks(entries, name) <==>
            LastIndex(entries, name).None? || HasNoValue(ValueOf(entries[LastIndex(entries, name).value]))
  {
  }

  /**
   Filling a new object: where no match runs out of time, a field whose declared default is usable holds it afterwards
   if it was missing or empty - in the object's own list if no section names the field, and in every row the object
   carries of the sections that do.
   */
  lemma ObjectFilled(engine: Engine, t: TypeDefinition, o: Object, k: nat)
    requires IsLast(t.fields, k) && Fills(engine, t.fields, t.fields[k])
    ensures var f, filled := t.fields[k], FillObject(t, Usable(engine, t, []), o);
            (forall id :: id in t.sections ==> f.name !in t.sections[id]) && Lacks(o.fields, f.name) ==>
              NowHolds(o.fields, filled.fields, f.name, f.value, f.kind)
    ensures var f, filled := t.fields[k], FillObject(t, Usable(engine, t, []), o);
            && |filled.sections| == |o.sections|
            && forall i :: 0 <= i < |o.sections| && o.sections[i].id in t.sections && f.name in t.sections[o.sections[i].id] ==>
                 && |filled.sections[i].rows| == |o.sections[i].rows|
                 && forall j :: 0 <= j < |o.sections[i].rows| && Lacks(o.sections[i].rows[j].data, f.name) ==>
                      NowHolds(o.sections[i].rows[j].data, filled.sections[i].rows[j].data, f.name, f.value, f.kind)
  {
    var f := t.fields[k];
    var usable := Usable(engine, t, []);
    var filled := FillObject(t, usable, o);
    UsableExact(engine, t, k);
    hide Usable, Fills, NowHolds, Lacks, IsLast;
    if (forall id :: id in t.sections ==> f.name !in t.sections[id]) && Lacks(o.fields, f.name) {
      LacksIff(o.fields, f.name);
      assert NamesOf(t.fields)[k] == f.name;
      ListFilled(o.fields, Outside(NamesOf(t.fields), SectionNames(t.sections)), usable, t.fields, k);
    }
    forall i, j | 0 <= i < |o.sections| && o.sections[i].id in t.sections && f.name in t.sections[o.sections[i].id]
                  && 0 <= j < |o.sections[i].rows| && Lacks(o.sections[i].rows[j].data, f.name)
      ensures NowHolds(o.sections[i].rows[j].data, filled.sections[i].rows[j].data, f.name, f.value, f.kind)
    {
      LacksIff(o.sections[i].rows[j].data, f.name);
      ListFilled(o.sections[i].rows[j].data, t.sections[o.sections[i].id], usable, t.fields, k);
    }
  }

  // ------------------------------------------------------------------ missing fields

  // No entry of the name, or the last one without a value
  predicate Unset(entries: seq<Entry>, name: string) {
    || (forall e :: e in entries ==> e.name != name)
    || exists i :: 0 <= i < |entries| && entries[i].name == name && entries[i].value in {None, Some(Null), Some(Str(""))}
                   && forall j :: i < j < |entries| ==> entries[j].name != name
  }

  lemma UnsetIff(entries: seq<Entry>, name: string)
    ensures IsMissing(entries, name) <==> Unset(entries, name)
  {
    if LastIndex(entries, name).Some? {
      assert entries[LastIndex(entries, name).value] in entries;
    }
  }

  predicate IsRequired(fields: seq<Field>, name: string) {
    exists f :: f in fields && f.required && f.name == name
  }

  // A row of the section lacks a required field that the type's section of that id names
  ghost predicate RowLacks(t: TypeDefinition, s: Section, name: string) {
    && s.id in t.sections && name in t.sections[s.id] && IsRequired(t.fields, name)
    && exists row :: row in s.rows && Unset(row.data, name)
  }

  ghost predicate HasGap(t: TypeDefinition, s: Section) {
    exists name :: RowLacks(t, s, name)
  }

  /**
   What is reported missing: at top level the required fields that no section names and the object leaves unset; under
   a section's id the required fields that some row of the object's last section of that id with such a row leaves
   unset.
   */
  lemma MissingExact(o: Object, t: TypeDefinition, name: string, id: string)
    ensures name in MissingValues(o, t).topLevel <==>
            && IsRequired(t.fields, name) && (forall x :: x in t.sections ==> name !in t.sections[x])
            && Unset(o.fields, name)
    ensures id in MissingValues(o, t).bySection && name in MissingValues(o, t).bySection[id] <==>
            exists i :: 0 <= i < |o.sections| && o.sections[i].id == id && RowLacks(t, o.sections[i], name)
                        && forall j :: i < j < |o.sections| && o.sections[j].id == id ==> !HasGap(t, o.sections[j])
  {
    UnsetIff(o.fields, name);
    RequiredIff(t.fields, name);
    hide IsMissing, Unset, IsRequired, RequiredNames, RowLacks, HasGap;
    SectionsMissing(o.sections, t, name, id);
  }

  lemma RequiredIff(fields: seq<Field>, name: string)
    ensures name in RequiredNames(fields) <==> IsRequired(fields, name)
  {
  }

  lemma SectionGap(t: TypeDefinition, s: Section, name: string)
    ensures var required := RequiredBySection(RequiredNames(t.fields), t.sections);
            RowLacks(t, s, name) <==> s.id in required && name in MissingInRows(s.rows, required[s.id])
  {
    RequiredIff(t.fields, name);
    forall row: Row
      ensures Unset(row.data, name) <==> IsMissing(row.data, name)
    {
      UnsetIff(row.data, name);
    }
    hide IsMissing, Unset, IsRequired, RequiredNames;
    if row :| row in s.rows && IsMissing(row.data, name) {
      var i :| 0 <= i < |s.rows| && s.rows[i] == row;
      assert IsMissing(s.rows[i].data, name);
    }
    if i :| 0 <= i < |s.rows| && IsMissing(s.rows[i].data, name) {
      assert s.rows[i] in s.rows;
    }
    if s.id in t.sections && name in t.sections[s.id] && name in RequiredNames(t.fields) {
      assert name in RequiredIn(RequiredNames(t.fields), t.sections, s.id);
    }
  }

  lemma {:induction false} SectionsMissing(sections: seq<Section>, t: TypeDefinition, name: string, id: string)
    ensures var missing := MissingBySection(sections, RequiredBySection(RequiredNames(t.fields), t.sections));
            id in missing && name in missing[id] <==>
            exists i :: 0 <= i < |sections| && sections[i].id == id && RowLacks(t, sections[i], name)
                        && forall j :: i < j < |sections| && sections[j].id == id ==> !HasGap(t, sections[j])
    decreases |sections|
  {
    hide RowLacks, RequiredBySection, RequiredNames, MissingInRows;
    if sections != [] {
      var n := |sections| - 1;
      var s := sections[n];
      var required := RequiredBySection(RequiredNames(t.fields), t.sections);
      SectionsMissing(sections[..n], t, name, id);
      forall x
        ensures RowLacks(t, s, x) <==> s.id in required && x in MissingInRows(s.rows, required[s.id])
      {
        SectionGap(t, s, x);
      }
      LastGap(sections, t, name, id);
    }
  }

  // The last section either has the say, or leaves it to those before
  lemma LastGap(sections: seq<Section>, t: TypeDefinition, name: string, id: string)
    requires sections != []
    ensures var n := |sections| - 1;
            (exists i :: 0 <= i < |sections| && sections[i].id == id && RowLacks(t, sections[i], name)
                         && forall j :: i < j < |sections| && sections[j].id == id ==> !HasGap(t, sections[j])) <==>
            if sections[n].id == id && HasGap(t, sections[n]) then RowLacks(t, sections[n], name)
            else exists i :: 0 <= i < n && sections[..n][i].id == id && RowLacks(t, sections[..n][i], name)
                             && forall j :: i < j < n && sections[..n][j].id == id ==> !HasGap(t, sections[..n][j])
  {
    var n := |sections| - 1;
    assert sections[n].id == id && RowLacks(t, sections[n], name) ==> HasGap(t, sections[n]);
    hide HasGap, RowLacks;
    assert forall i :: 0 <= i < n ==> sections[..n][i] == sections[i];
  }
}
