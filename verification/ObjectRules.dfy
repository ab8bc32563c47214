/** The two judges of an object write: the required fields, and the rules on field values. */
module ObjectRules {
  import opened Prelude
  import opened Documents

  // A field of a type. A missing default is Null; a regex that is no text counts as none.
  datatype Field = Field(name: string, kind: Option<string>, value: Bson, required: bool, regex: Option<string>)

  // The regex engine and the spelling of numbers, which are not modelled
  datatype Engine = Engine(compiles: string -> bool, search: (string, string) -> bool, spell: real -> string)

  // ------------------------------------------------------------------ values

  predicate HasNoValue(v: Bson) {
    v == Null || v == Str("") || v == Arr([])
  }

  predicate IsValueMissing(v: Bson) {
    v == Null || v == Str("")
  }

  function ValueOf(e: Entry): Bson {
    if e.value.Some? then e.value.value else Null
  }

  // The position of the last entry of a name, which is the one a dict over the entries keeps
  function LastIndex(entries: seq<Entry>, name: string): (i: Option<nat>)
    ensures i.Some? ==> i.value < |entries| && entries[i.value].name == name
    ensures i.Some? ==> forall j :: i.value < j < |entries| ==> entries[j].name != name
    ensures i.None? ==> forall j :: 0 <= j < |entries| ==> entries[j].name != name
  {
    if entries == [] then None
    else if entries[|entries| - 1].name == name then Some(|entries| - 1)
    else LastIndex(entries[..|entries| - 1], name)
  }

  // ------------------------------------------------------------------ required fields

  predicate IsMissing(entries: seq<Entry>, name: string) {
    match LastIndex(entries, name)
    case None => true
    case Some(i) => IsValueMissing(ValueOf(entries[i]))
  }

  function FindMissing(entries: seq<Entry>, required: set<string>): set<string> {
    set name | name in required && IsMissing(entries, name)
  }

  function RequiredNames(fields: seq<Field>): set<string> {
    set f | f in fields && f.required :: f.name
  }

  // The names of the required fields that no multi-data section lists, and those of each section
  function RequiredTopLevel(required: set<string>, sections: map<string, seq<string>>): set<string> {
    set name | name in required && !(exists id :: id in sections && name in sections[id])
  }

  function RequiredIn(required: set<string>, sections: map<string, seq<string>>, id: string): set<string> {
    if id in sections then set name | name in required && name in sections[id] else {}
  }

  // The names of a section's required fields that some row of it leaves without a value
  function MissingInRows(rows: seq<Row>, required: set<string>): set<string> {
    set name | name in required && exists i :: 0 <= i < |rows| && IsMissing(rows[i].data, name)
  }

  method CollectMissingInSection(rows: seq<Row>, required: set<string>) returns (missing: set<string>)
    ensures missing == MissingInRows(rows, required)
  {
    missing := {};
    for i := 0 to |rows|
      invariant missing == set name | name in required && exists j :: 0 <= j < i && IsMissing(rows[j].data, name)
    {
      missing := missing + FindMissing(rows[i].data, required);
    }
  }

  // ------------------------------------------------------------------ value rules

  datatype Rule = Rule(maxLength: Option<nat>, pattern: Option<string>)

  const TEXT_VALUE_MAX_LENGTH: nat := 255
  const TEXTAREA_VALUE_MAX_LENGTH: nat := 65536

  function MaxLength(kind: Option<string>): Option<nat> {
    if kind == Some("text") then Some(TEXT_VALUE_MAX_LENGTH)
    else if kind == Some("textarea") then Some(TEXTAREA_VALUE_MAX_LENGTH)
    else None
  }

  function AnchorFieldRegex(regex: string): string {
    (if regex != [] && regex[0] == '^' then "" else "^")
    + regex
    + (if regex != [] && regex[|regex| - 1] == '$' then "" else "$")
  }

  function CompiledPattern(engine: Engine, regex: Option<string>): Option<string> {
    if regex.None? || regex.value == "" || !engine.compiles(AnchorFieldRegex(regex.value)) then None
    else Some(AnchorFieldRegex(regex.value))
  }

  function RuleOf(engine: Engine, f: Field): Option<Rule> {
    var rule := Rule(MaxLength(f.kind), CompiledPattern(engine, f.regex));
    if rule == Rule(None, None) then None else Some(rule)
  }

  // The rule of each field that has one; of two fields of a name, the last one with a rule gives it
  function BuildRules(engine: Engine, fields: seq<Field>): map<string, Rule> {
    if fields == [] then map[]
    else
      var last := fields[|fields| - 1];
      var before := BuildRules(engine, fields[..|fields| - 1]);
      if RuleOf(engine, last).Some? then before[last.name := RuleOf(engine, last).value] else before
  }

  function PatternText(engine: Engine, v: Bson): Option<string> {
    match v
    case Str(s) => Some(s)
    case Num(n) => Some(engine.spell(n))
    case _ => None
  }

  /** The pattern time of one write: for each match to come, whether it runs out of time. */
  datatype Budget = Budget(exhausted: bool, luck: seq<bool>)

  datatype Verdict = Match | Mismatch | TimedOut

  class PatternBudget {
    var exhausted: bool
    var luck: seq<bool>

    function Now(): Budget
      reads this
    {
      Budget(exhausted, luck)
    }

    constructor (luck: seq<bool>)
      ensures Now() == Budget(false, luck)
    {
      exhausted := false;
      this.luck := luck;
    }

    // match_field_pattern: a match that runs out of time spends the budget, and a spent one runs no match
    method MatchFieldPattern(engine: Engine, pattern: string, text: string) returns (verdict: Verdict)
      modifies this
      ensures (verdict, Now()) == MatchPattern(engine, pattern, text, old(Now()))
    {
      if exhausted {
        return TimedOut;
      }
      var outOfTime := luck != [] && luck[0];
      luck := if luck == [] then [] else luck[1..];
      if outOfTime {
        exhausted := true;
        return TimedOut;
      }
      verdict := if engine.search(pattern, text) then Match else Mismatch;
    }
  }

  function MatchPattern(engine: Engine, pattern: string, text: string, b: Budget): (Verdict, Budget) {
    if b.exhausted then (TimedOut, b)
    else
      var rest := if b.luck == [] then [] else b.luck[1..];
      if b.luck != [] && b.luck[0] then (TimedOut, Budget(true, rest))
      else (if engine.search(pattern, text) then Match else Mismatch, Budget(false, rest))
  }

  datatype ValueError = TooLong(length: nat) | PatternMismatch | PatternTimeout

  function LengthErrors(v: Bson, rule: Rule): seq<ValueError> {
    if rule.maxLength.Some? && v.Str? && |v.s| > rule.maxLength.value then [TooLong(|v.s|)] else []
  }

  function RuleErrors(engine: Engine, v: Bson, rule: Rule, b: Budget): (seq<ValueError>, Budget) {
    if HasNoValue(v) then ([], b)
    else
      var text := PatternText(engine, v);
      if rule.pattern.None? || text.None? then (LengthErrors(v, rule), b)
      else
        var (verdict, after) := MatchPattern(engine, rule.pattern.value, text.value, b);
        (LengthErrors(v, rule) + match verdict
           case Match => []
           case Mismatch => [PatternMismatch]
           case TimedOut => [PatternTimeout],
         after)
  }

  // ------------------------------------------------------------------ all values of an object

  // A value with its field and where it sits: None for the top-level list, else the section
  datatype Placed = Placed(place: Option<string>, name: string, value: Bson)

  datatype PlacedError = PlacedError(place: Option<string>, name: string, error: ValueError)

  function EntryValues(place: Option<string>, entries: seq<Entry>): seq<Placed> {
    seq(|entries|, i requires 0 <= i < |entries| => Placed(place, entries[i].name, ValueOf(entries[i])))
  }

  function RowValues(place: Option<string>, rows: seq<Row>): seq<Placed> {
    if rows == [] then [] else EntryValues(place, rows[0].data) + RowValues(place, rows[1..])
  }

  function SectionValues(sections: seq<Section>): seq<Placed> {
    if sections == [] then [] else RowValues(Some(sections[0].id), sections[0].rows) + SectionValues(sections[1..])
  }

  function ObjectValues(o: Object): seq<Placed> {
    EntryValues(None, o.fields) + SectionValues(o.sections)
  }

  // Each error once, in the order of the values; a value stored in its place already is not judged
  function Judged(
    engine: Engine, rules: map<string, Rule>, stored: seq<Placed>, values: seq<Placed>, b: Budget)
    : (seq<PlacedError>, Budget)
  {
    if values == [] then ([], b)
    else
      var v := values[|values| - 1];
      var (errors, after) := Judged(engine, rules, stored, values[..|values| - 1], b);
      if v.name !in rules || v in stored then (errors, after)
      else
        var (found, spent) := RuleErrors(engine, v.value, rules[v.name], after);
        (AddNew(errors, v, found), spent)
  }

  function AddNew(errors: seq<PlacedError>, v: Placed, found: seq<ValueError>): seq<PlacedError>
    decreases |found|
  {
    if found == [] then errors
    else
      var e := PlacedError(v.place, v.name, found[0]);
      AddNew(if e in errors then errors else errors + [e], v, found[1..])
  }

  lemma JudgedNothing(engine: Engine, rules: map<string, Rule>, stored: seq<Placed>, b: Budget)
    ensures Judged(engine, rules, stored, [], b) == ([], b)
  {
  }

  lemma JudgedNext(engine: Engine, rules: map<string, Rule>, stored: seq<Placed>, values: seq<Placed>, i: nat, b: Budget)
    requires i < |values|
    ensures var v := values[i];
            var (errors, after) := Judged(engine, rules, stored, values[..i], b);
            Judged(engine, rules, stored, values[..i + 1], b)
            == if v.name !in rules || v in stored then (errors, after)
               else var (found, spent) := RuleErrors(engine, v.value, rules[v.name], after); (AddNew(errors, v, found), spent)
  {
    assert values[..i + 1][..i] == values[..i];
    hide RuleErrors, AddNew;
  }

  method CollectObjectValueErrors(
    engine: Engine, rules: map<string, Rule>, o: Object, previous: Option<Object>, luck: seq<bool>)
    returns (errors: seq<PlacedError>)
    ensures errors == Judged(engine, rules, if previous.Some? then ObjectValues(previous.value) else [],
                             ObjectValues(o), Budget(false, luck)).0
  {
    hide Judged, ObjectValues, MatchPattern;
    var stored := if previous.Some? then ObjectValues(previous.value) else [];
    var values := ObjectValues(o);
    var budget := new PatternBudget(luck);
    errors := [];
    JudgedNothing(engine, rules, stored, Budget(false, luck));
    assert values[..0] == [];
    for i := 0 to |values|
      invariant (errors, budget.Now()) == Judged(engine, rules, stored, values[..i], Budget(false, luck))
    {
      JudgedNext(engine, rules, stored, values, i, Budget(false, luck));
      var v := values[i];
      if v.name !in rules || v in stored {
        continue;
      }
      var rule := rules[v.name];
      ghost var before := budget.Now();
      var found: seq<ValueError> := [];
      if !HasNoValue(v.value) {
        found := LengthErrors(v.value, rule);
        var text := PatternText(engine, v.value);
        if rule.pattern.Some? && text.Some? {
          var verdict := budget.MatchFieldPattern(engine, rule.pattern.value, text.value);
          if verdict == Mismatch {
            found := found + [PatternMismatch];
          } else if verdict == TimedOut {
            found := found + [PatternTimeout];
          } else {
            assert found + [] == found;
          }
        }
      }
      assert (found, budget.Now()) == RuleErrors(engine, v.value, rule, before);
      errors := AddNew(errors, v, found);
    }
    assert values[..|values|] == values;
  }
}
