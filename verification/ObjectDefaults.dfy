/** Filling a new object's empty fields from its type's defaults, and that both later judges agree with it. */
module ObjectDefaults {
  import opened Prelude
  import opened Documents
  import opened ObjectRules

  const DEFAULT_EXCLUDED_KINDS := {"ref", "ref-section-field", "location"}

  predicate IsExcluded(kind: Option<string>) {
    kind.Some? && kind.value in DEFAULT_EXCLUDED_KINDS
  }

  // A type: its fields, and the field names each multi-data section lists
  datatype TypeDefinition = TypeDefinition(fields: seq<Field>, sections: map<string, seq<string>>)

  // The default a field may be filled with, and the budget its check leaves
  function UsableDefault(engine: Engine, f: Field, rule: Option<Rule>, b: Budget): (Option<Bson>, Budget) {
    if HasNoValue(f.value) || IsExcluded(f.kind) then (None, b)
    else if rule.None? then (Some(f.value), b)
    else
      var (errors, after) := RuleErrors(engine, f.value, rule.value, b);
      (if errors == [] then Some(f.value) else None, after)
  }

  // {name: usable default or None} over the fields in order, the last of a name winning
  function UsableDefaults(engine: Engine, rules: map<string, Rule>, fields: seq<Field>, b: Budget): (map<string, Option<Bson>>, Budget) {
    if fields == [] then (map[], b)
    else
      var f := fields[|fields| - 1];
      var (before, left) := UsableDefaults(engine, rules, fields[..|fields| - 1], b);
      var (d, after) := UsableDefault(engine, f, if f.name in rules then Some(rules[f.name]) else None, left);
      (before[f.name := d], after)
  }

  // ------------------------------------------------------------------ one list of entries

  // One entry of a list's defaults, in the order of the dict
  datatype Default = Default(name: string, value: Option<Bson>, kind: Option<string>)

  function FillOne(entries: seq<Entry>, d: Default, appendWithoutDefault: bool): seq<Entry> {
    match LastIndex(entries, d.name)
    case Some(i) =>
      if d.value.Some? && HasNoValue(ValueOf(entries[i])) then entries[i := entries[i].(value := d.value)] else entries
    case None =>
      if d.value.None? && !appendWithoutDefault then entries
      else entries + [Entry(d.name, Some(if d.value.Some? then d.value.value else Null), d.kind)]
  }

  function Fill(entries: seq<Entry>, defaults: seq<Default>, appendWithoutDefault: bool): seq<Entry> {
    if defaults == [] then entries
    else FillOne(Fill(entries, defaults[..|defaults| - 1], appendWithoutDefault), defaults[|defaults| - 1], appendWithoutDefault)
  }

  // The keys of a dict: no name twice
  ghost predicate IsDict(defaults: seq<Default>) {
    forall i, j :: 0 <= i < j < |defaults| ==> defaults[i].name != defaults[j].name
  }

  // The dict over the first i entries holds the last index of each name
  ghost predicate Indexes(byName: map<string, nat>, entries: seq<Entry>) {
    forall name :: LastIndex(entries, name) == if name in byName then Some(byName[name]) else None
  }

  lemma IndexesNext(byName: map<string, nat>, entries: seq<Entry>, i: nat)
    requires i < |entries| && Indexes(byName, entries[..i])
    ensures Indexes(byName[entries[i].name := i], entries[..i + 1])
  {
    assert entries[..i + 1][..i] == entries[..i];
  }

  // What filling leaves of the names: those the list had, then some of the defaults'
  ghost predicate NamesGrow(entries: seq<Entry>, filled: seq<Entry>, defaults: seq<Default>) {
    && |filled| >= |entries|
    && (forall i :: 0 <= i < |entries| ==> filled[i].name == entries[i].name)
    && (forall i :: |entries| <= i < |filled| ==> exists j :: 0 <= j < |defaults| && filled[i].name == defaults[j].name)
  }

  lemma OneGrows(entries: seq<Entry>, d: Default, appendWithoutDefault: bool)
    ensures var filled := FillOne(entries, d, appendWithoutDefault);
            && |filled| >= |entries|
            && (forall i :: 0 <= i < |entries| ==> filled[i].name == entries[i].name)
            && (forall i :: |entries| <= i < |filled| ==> filled[i].name == d.name)
  {
  }

  lemma {:induction false} FillGrows(entries: seq<Entry>, defaults: seq<Default>, appendWithoutDefault: bool)
    ensures NamesGrow(entries, Fill(entries, defaults, appendWithoutDefault), defaults)
    decreases |defaults|
  {
    if defaults != [] {
      var n := |defaults| - 1;
      FillGrows(entries, defaults[..n], appendWithoutDefault);
      OneGrows(Fill(entries, defaults[..n], appendWithoutDefault), defaults[n], appendWithoutDefault);
      hide FillOne;
    }
  }

  // A name not filled yet has its last entry where the list had it at the start
  lemma NotFilledYet(entries: seq<Entry>, defaults: seq<Default>, k: nat, appendWithoutDefault: bool)
    requires IsDict(defaults) && k < |defaults|
    ensures LastIndex(Fill(entries, defaults[..k], appendWithoutDefault), defaults[k].name) == LastIndex(entries, defaults[k].name)
  {
    var filled := Fill(entries, defaults[..k], appendWithoutDefault);
    FillGrows(entries, defaults[..k], appendWithoutDefault);
    SameLastIndex(entries, filled, defaults[k].name);
  }

  lemma FillNext(entries: seq<Entry>, defaults: seq<Default>, k: nat, appendWithoutDefault: bool)
    requires k < |defaults|
    ensures Fill(entries, defaults[..k + 1], appendWithoutDefault)
         == FillOne(Fill(entries, defaults[..k], appendWithoutDefault), defaults[k], appendWithoutDefault)
  {
    assert defaults[..k + 1][..k] == defaults[..k];
  }

  // Changes the list in place, looking names up in what it held at the start
  method FillEntriesFromDefaults(entries: seq<Entry>, defaults: seq<Default>, appendWithoutDefault: bool)
    returns (filled: seq<Entry>)
    requires IsDict(defaults)
    ensures filled == Fill(entries, defaults, appendWithoutDefault)
  {
    assert Fill(entries, [], appendWithoutDefault) == entries;
    assert Indexes(map[], entries[..0]);
    hide Fill, Indexes, IsDict;
    var byName: map<string, nat> := map[];
    for i := 0 to |entries|
      invariant Indexes(byName, entries[..i])
    {
      IndexesNext(byName, entries, i);
      byName := byName[entries[i].name := i];
    }
    assert entries[..|entries|] == entries;
    filled := entries;
    for k := 0 to |defaults|
      invariant filled == Fill(entries, defaults[..k], appendWithoutDefault)
    {
      var d := defaults[k];
      FillNext(entries, defaults, k, appendWithoutDefault);
      NotFilledYet(entries, defaults, k, appendWithoutDefault);
      IndexFound(byName, entries, d.name);
      if d.name in byName {
        var i := byName[d.name];
        if d.value.Some? && HasNoValue(ValueOf(filled[i])) {
          filled := filled[i := filled[i].(value := d.value)];
        }
        continue;
      }
      if d.value.None? && !appendWithoutDefault {
        continue;
      }
      filled := filled + [Entry(d.name, Some(if d.value.Some? then d.value.value else Null), d.kind)];
    }
    assert defaults[..|defaults|] == defaults;
  }

  lemma IndexFound(byName: map<string, nat>, entries: seq<Entry>, name: string)
    requires Indexes(byName, entries)
    ensures LastIndex(entries, name) == if name in byName then Some(byName[name]) else None
  {
  }

  // Appending entries of other names and changing values leaves the last entry of a name where it was
  lemma SameLastIndex(entries: seq<Entry>, longer: seq<Entry>, name: string)
    requires |longer| >= |entries|
    requires forall i :: 0 <= i < |entries| ==> longer[i].name == entries[i].name
    requires forall i :: |entries| <= i < |longer| ==> longer[i].name != name
    ensures LastIndex(longer, name) == LastIndex(entries, name)
  {
  }

  lemma OneAppended(entries: seq<Entry>, d: Default)
    ensures LastIndex(entries, d.name).None? ==>
              FillOne(entries, d, true) == entries + [Entry(d.name, Some(if d.value.Some? then d.value.value else Null), d.kind)]
    ensures forall i :: 0 <= i < |entries| && entries[i].name != d.name ==>
              i < |FillOne(entries, d, true)| && FillOne(entries, d, true)[i] == entries[i]
  {
  }

  /** With complete entries asked for, a name that was missing is there afterwards, holding null if it has no default. */
  lemma {:induction false} FillCompletes(entries: seq<Entry>, defaults: seq<Default>, k: nat)
    requires IsDict(defaults) && k < |defaults| && LastIndex(entries, defaults[k].name).None?
    ensures var d := defaults[k];
            Entry(d.name, Some(if d.value.Some? then d.value.value else Null), d.kind) in Fill(entries, defaults, true)
    decreases |defaults|
  {
    var n := |defaults| - 1;
    var before := Fill(entries, defaults[..n], true);
    OneAppended(before, defaults[n]);
    if k == n {
      FillGrows(entries, defaults[..n], true);
      SameLastIndex(entries, before, defaults[n].name);
    } else {
      FillCompletes(entries, defaults[..n], k);
      hide FillOne, LastIndex;
      var d := defaults[k];
      var i :| 0 <= i < |before| && before[i] == Entry(d.name, Some(if d.value.Some? then d.value.value else Null), d.kind);
      assert Fill(entries, defaults, true)[i] == before[i];
    }
  }

  function DefaultOf(defaults: seq<Default>, name: string): Option<Bson> {
    if defaults == [] then None
    else if defaults[|defaults| - 1].name == name then defaults[|defaults| - 1].value
    else DefaultOf(defaults[..|defaults| - 1], name)
  }

  // ------------------------------------------------------------------ what filling a list does

  // No default is itself empty
  ghost predicate AllUsable(defaults: seq<Default>) {
    forall i :: 0 <= i < |defaults| && defaults[i].value.Some? ==> !HasNoValue(defaults[i].value.value)
  }

  lemma FillOneElsewhere(entries: seq<Entry>, d: Default, name: string)
    requires name != d.name
    ensures LastIndex(FillOne(entries, d, false), name) == LastIndex(entries, name)
    ensures LastIndex(entries, name).Some? ==>
              FillOne(entries, d, false)[LastIndex(entries, name).value] == entries[LastIndex(entries, name).value]
  {
    SameLastIndex(entries, FillOne(entries, d, false), name);
  }

  /**
   Filling and the required-field rule agree exactly: a name is missing after the filling if and only if it was
   missing before and has no usable default.
   */
  lemma {:induction false} MissingAfterFillIff(entries: seq<Entry>, defaults: seq<Default>, name: string)
    requires IsDict(defaults) && AllUsable(defaults)
    ensures IsMissing(Fill(entries, defaults, false), name) <==> IsMissing(entries, name) && DefaultOf(defaults, name) == None
    decreases |defaults|
  {
    if defaults != [] {
      var n := |defaults| - 1;
      var d := defaults[n];
      var before := Fill(entries, defaults[..n], false);
      MissingAfterFillIff(entries, defaults[..n], name);
      if name != d.name {
        FillOneElsewhere(before, d, name);
      } else {
        NotADefault(defaults[..n], name);
        SameLastIndexNamed(before, FillOne(before, d, false), d);
      }
    }
  }

  lemma {:induction false} NotADefault(defaults: seq<Default>, name: string)
    requires forall i :: 0 <= i < |defaults| ==> defaults[i].name != name
    ensures DefaultOf(defaults, name) == None
    decreases |defaults|
  {
    if defaults != [] {
      NotADefault(defaults[..|defaults| - 1], name);
    }
  }

  // The entry of the filled name itself
  lemma SameLastIndexNamed(entries: seq<Entry>, filled: seq<Entry>, d: Default)
    requires filled == FillOne(entries, d, false)
    ensures LastIndex(entries, d.name).Some? ==> LastIndex(filled, d.name) == LastIndex(entries, d.name)
    ensures LastIndex(entries, d.name).None? ==>
              LastIndex(filled, d.name) == if d.value.Some? then Some(|entries|) else None
  {
    if LastIndex(entries, d.name).Some? {
      SameIndices(entries, filled, d.name);
    }
  }

  lemma SameIndices(entries: seq<Entry>, filled: seq<Entry>, name: string)
    requires |entries| == |filled| && forall i :: 0 <= i < |entries| ==> filled[i].name == entries[i].name
    ensures LastIndex(filled, name) == LastIndex(entries, name)
  {
    SameLastIndex(entries, filled, name);
  }

  /**
   What filling leaves alone: every entry keeps its place, its name and its kind, and its value unless that was
   empty; a changed or an appended entry holds the usable default of its name.
   */
  lemma {:induction false} FillKeepsValues(entries: seq<Entry>, defaults: seq<Default>)
    requires IsDict(defaults)
    ensures |Fill(entries, defaults, false)| >= |entries|
    ensures forall i :: 0 <= i < |entries| ==>
              var e := Fill(entries, defaults, false)[i];
              && e.name == entries[i].name && e.kind == entries[i].kind
              && (e == entries[i] || (HasNoValue(ValueOf(entries[i])) && IsFilled(defaults, e)))
    ensures forall i :: |entries| <= i < |Fill(entries, defaults, false)| ==> IsFilled(defaults, Fill(entries, defaults, false)[i])
    decreases |defaults|
  {
    if defaults != [] {
      var n := |defaults| - 1;
      var d := defaults[n];
      var before := Fill(entries, defaults[..n], false);
      FillKeepsValues(entries, defaults[..n]);
      NotADefault(defaults[..n], d.name);
      hide Fill, FillOne, IsDict, LastIndex, HasNoValue;
      FillNext(entries, defaults, n, false);
      assert defaults[..n + 1] == defaults;
      OneFilled(before, d);
    }
  }

  // An empty entry of the default's name, with the default in it
  predicate Filled(before: Entry, after: Entry, d: Default) {
    HasNoValue(ValueOf(before)) && d.value.Some? && before.name == d.name && after == before.(value := d.value)
  }

  lemma OneFilled(entries: seq<Entry>, d: Default)
    ensures var filled := FillOne(entries, d, false);
            && |filled| >= |entries|
            && (forall i :: 0 <= i < |entries| ==> filled[i] == entries[i] || Filled(entries[i], filled[i], d))
            && (forall i :: |entries| <= i < |filled|
                  ==> filled[i].name == d.name && d.value.Some? && filled[i].value == d.value)
  {
  }

  predicate IsFilled(defaults: seq<Default>, e: Entry) {
    DefaultOf(defaults, e.name).Some? && e.value == DefaultOf(defaults, e.name)
  }

  // Of the second list's defaults, those the first one lacks
  function NewDefaults(defaults: seq<Default>, again: seq<Default>): (late: seq<Default>)
    ensures |late| == |again| && forall i :: 0 <= i < |again| ==> late[i].name == again[i].name
  {
    seq(|again|, i requires 0 <= i < |again| =>
      if DefaultOf(defaults, again[i].name).Some? then again[i].(value := None) else again[i])
  }

  lemma {:induction false} FillElsewhere(entries: seq<Entry>, defaults: seq<Default>, name: string)
    requires forall i :: 0 <= i < |defaults| ==> defaults[i].name != name
    ensures LastIndex(Fill(entries, defaults, false), name) == LastIndex(entries, name)
    ensures LastIndex(entries, name).Some? ==>
              Fill(entries, defaults, false)[LastIndex(entries, name).value] == entries[LastIndex(entries, name).value]
    decreases |defaults|
  {
    if defaults != [] {
      var n := |defaults| - 1;
      FillElsewhere(entries, defaults[..n], name);
      FillOneElsewhere(Fill(entries, defaults[..n], false), defaults[n], name);
    }
  }

  // A default of a name that the first filling had one for finds a value already
  lemma NothingToFill(entries: seq<Entry>, defaults: seq<Default>, again: seq<Default>, k: nat)
    requires IsDict(defaults) && AllUsable(defaults) && IsDict(again) && k < |again|
    requires DefaultOf(defaults, again[k].name).Some?
    ensures var now := Fill(Fill(entries, defaults, false), again[..k], false); FillOne(now, again[k], false) == now
  {
    HoldsAfterFill(entries, defaults, again[k].name);
    FillElsewhere(Fill(entries, defaults, false), again[..k], again[k].name);
  }

  lemma {:induction false} FillPrefixAgain(entries: seq<Entry>, defaults: seq<Default>, again: seq<Default>, k: nat)
    requires IsDict(defaults) && AllUsable(defaults) && IsDict(again) && k <= |again|
    ensures var filled := Fill(entries, defaults, false);
            Fill(filled, again[..k], false) == Fill(filled, NewDefaults(defaults, again)[..k], false)
  {
    if k > 0 {
      var filled, late := Fill(entries, defaults, false), NewDefaults(defaults, again);
      FillPrefixAgain(entries, defaults, again, k - 1);
      FillNext(filled, again, k - 1, false);
      FillNext(filled, late, k - 1, false);
      if DefaultOf(defaults, again[k - 1].name).Some? {
        NothingToFill(entries, defaults, again, k - 1);
      }
    }
  }

  /** Filling again does what the defaults do that the first filling lacked, no more. */
  lemma FillAgain(entries: seq<Entry>, defaults: seq<Default>, again: seq<Default>)
    requires IsDict(defaults) && AllUsable(defaults) && IsDict(again)
    ensures var filled := Fill(entries, defaults, false);
            Fill(filled, again, false) == Fill(filled, NewDefaults(defaults, again), false)
  {
    FillPrefixAgain(entries, defaults, again, |again|);
    assert again[..|again|] == again;
    assert NewDefaults(defaults, again)[..|again|] == NewDefaults(defaults, again);
  }

  // Every default the second list has, the first one has too
  ghost predicate NoNewDefault(defaults: seq<Default>, again: seq<Default>) {
    forall i :: 0 <= i < |again| && again[i].value.Some? ==> DefaultOf(defaults, again[i].name).Some?
  }

  /** So it changes nothing, unless a default is usable that was not the first time. */
  lemma FillTwice(entries: seq<Entry>, defaults: seq<Default>, again: seq<Default>)
    requires IsDict(defaults) && AllUsable(defaults) && IsDict(again) && NoNewDefault(defaults, again)
    ensures Fill(Fill(entries, defaults, false), again, false) == Fill(entries, defaults, false)
  {
    var filled := Fill(entries, defaults, false);
    FillAgain(entries, defaults, again);
    forall i | 0 <= i < |again|
      ensures FillOne(filled, NewDefaults(defaults, again)[i], false) == filled
    {
    }
    FillFixed(filled, NewDefaults(defaults, again));
  }

  lemma {:induction false} FillFixed(filled: seq<Entry>, defaults: seq<Default>)
    requires forall i :: 0 <= i < |defaults| ==> FillOne(filled, defaults[i], false) == filled
    ensures Fill(filled, defaults, false) == filled
    decreases |defaults|
  {
    if defaults != [] {
      FillFixed(filled, defaults[..|defaults| - 1]);
    }
  }

  // After the filling, the last entry of a name with a default holds a value
  lemma {:induction false} HoldsAfterFill(entries: seq<Entry>, defaults: seq<Default>, name: string)
    requires IsDict(defaults) && AllUsable(defaults) && DefaultOf(defaults, name).Some?
    ensures var i := LastIndex(Fill(entries, defaults, false), name);
            i.Some? && !HasNoValue(ValueOf(Fill(entries, defaults, false)[i.value]))
    decreases |defaults|
  {
    var n := |defaults| - 1;
    var d := defaults[n];
    var before := Fill(entries, defaults[..n], false);
    if name == d.name {
      SameLastIndexNamed(before, FillOne(before, d, false), d);
    } else {
      HoldsAfterFill(entries, defaults[..n], name);
      FillOneElsewhere(before, d, name);
    }
  }

  lemma {:induction false} DefaultFound(defaults: seq<Default>, i: nat)
    requires IsDict(defaults) && i < |defaults|
    ensures DefaultOf(defaults, defaults[i].name) == defaults[i].value
    decreases |defaults|
  {
    if i < |defaults| - 1 {
      DefaultFound(defaults[..|defaults| - 1], i);
    }
  }
}
