/** The built query says what the condition tree says, and exactly when one of its rules does not. */
module ReportCorrectness {
  import opened Prelude
  import opened Documents
  import opened MongoQuery
  import opened QueryBuilder
  import opened ReportMeaning
  import opened ReportSelection

  // ------------------------------------------------------------------ when a rule keeps its meaning

  // The field's entries hold this number, alone or in a list
  ghost predicate HoldsNumber(r: Report, o: Object, field: string, x: real) {
    exists e :: Carries(r, o, field, e) && HasValue(e, Num(x))
  }

  ghost predicate LacksNumber(r: Report, o: Object, field: string, x: real) {
    exists e :: Carries(r, o, field, e) && !HasValue(e, Num(x))
  }

  ghost predicate HoldsBelow(r: Report, o: Object, field: string, x: real) {
    exists y :: HoldsNumber(r, o, field, y) && y < x
  }

  ghost predicate HoldsUpTo(r: Report, o: Object, field: string, x: real) {
    exists y :: HoldsNumber(r, o, field, y) && y <= x
  }

  ghost predicate HoldsAbove(r: Report, o: Object, field: string, x: real) {
    exists y :: HoldsNumber(r, o, field, y) && x < y
  }

  ghost predicate HoldsFrom(r: Report, o: Object, field: string, x: real) {
    exists y :: HoldsNumber(r, o, field, y) && x <= y
  }

  ghost predicate HoldsText(r: Report, o: Object, field: string, needle: string, ignoreCase: bool) {
    exists e, s :: Carries(r, o, field, e) && HasValue(e, Str(s))
      && if ignoreCase then Contains(Lower(s), Lower(needle)) else Contains(s, needle)
  }

  function Lesser(x: real, y: real): real {
    if x < y then x else y
  }

  function Greater(x: real, y: real): real {
    if x < y then y else x
  }

  /**
   A rule with the number n on an object, of which the query carries t, the number without its fraction. The two
   answers differ only through numbers stored between t and n: for an order, when one is there and none beyond it
   decides the matter anyway; for "=" and "!=", when one of the two is stored and the other is not.
   */
  ghost predicate NumberKeeps(r: Report, o: Object, op: Operator, field: string, n: real, t: real) {
    var low, high := Lesser(n, t), Greater(n, t);
    match op
    case EqOp => HoldsNumber(r, o, field, n) <==> HoldsNumber(r, o, field, t)
    case NeOp => LacksNumber(r, o, field, n) <==> LacksNumber(r, o, field, t)
    case LtOp => (exists x :: HoldsNumber(r, o, field, x) && low <= x < high) ==> HoldsBelow(r, o, field, low)
    case LteOp => (exists x :: HoldsNumber(r, o, field, x) && low < x <= high) ==> HoldsUpTo(r, o, field, low)
    case GtOp => (exists x :: HoldsNumber(r, o, field, x) && low < x <= high) ==> HoldsAbove(r, o, field, high)
    case GteOp => (exists x :: HoldsNumber(r, o, field, x) && low <= x < high) ==> HoldsFrom(r, o, field, high)
    case ContainsOp => HoldsText(r, o, field, r.text(Num(n)), false) <==> HoldsText(r, o, field, r.text(Num(t)), false)
    case LikeOp => HoldsText(r, o, field, r.text(Num(n)), true) <==> HoldsText(r, o, field, r.text(Num(t)), true)
    case _ => true
  }

  ghost predicate HoldsOneOf(r: Report, o: Object, field: string, items: seq<Bson>, but: seq<Bson>) {
    exists e, v :: Carries(r, o, field, e) && HasValue(e, v) && v in items && v !in but
  }

  ghost predicate HoldsOneOfBoth(r: Report, o: Object, field: string, items: seq<Bson>, others: seq<Bson>) {
    exists e, v :: Carries(r, o, field, e) && HasValue(e, v) && v in items && v in others
  }

  ghost predicate LacksAllOf(r: Report, o: Object, field: string, items: seq<Bson>) {
    exists e :: Carries(r, o, field, e) && forall v :: v in items ==> !HasValue(e, v)
  }

  // The same for the lists of in / not in: the items as written, and without their fractions
  ghost predicate ListKeeps(r: Report, o: Object, op: Operator, field: string, items: seq<Bson>, cut: seq<Bson>) {
    if op == InOp then
      || HoldsOneOfBoth(r, o, field, items, cut)
      || (HoldsOneOf(r, o, field, items, cut) <==> HoldsOneOf(r, o, field, cut, items))
    else op == NotInOp ==> (LacksAllOf(r, o, field, items) <==> LacksAllOf(r, o, field, cut))
  }

  // A date rule, through the entries that straddle its day
  ghost predicate DayKeeps(r: Report, o: Object, op: Operator, field: string, day: int) {
    match op
    case EqOp =>
      (exists e :: Carries(r, o, field, e) && Straddles(e, day)) ==>
        exists e :: Carries(r, o, field, e) && DayHolds(EqOp, e, day)
    case NeOp =>
      (exists e :: Carries(r, o, field, e) && Straddles(e, day)) ==>
        exists e :: Carries(r, o, field, e) && !DayHolds(EqOp, e, day) && !Straddles(e, day)
    case _ => true
  }

  /** When a rule keeps its meaning on an object; `wanted` is what its value means. */
  ghost predicate Keeps(r: Report, o: Object, op: Operator, field: string, v: Bson, wanted: Bson) {
    match wanted
    case Date(ms) => DayKeeps(r, o, op, field, DayOf(ms))
    case Num(n) =>
      !Falsy(v) && IsNumberField(r, field) && field !in r.dateFields ==>
        NumberKeeps(r, o, op, field, n, Truncate(n) as real)
    case Arr(items) =>
      var carried := Carried(r, field, op, v, wanted); carried.Arr? ==> ListKeeps(r, o, op, field, items, carried.items)
    case _ => true
  }

  lemma NumberSelects(r: Report, o: Object, op: Operator, field: string, x: real)
    ensures op == EqOp ==> (RuleTrue(r, o, op, field, Num(x)) <==> HoldsNumber(r, o, field, x))
    ensures op == NeOp ==> (RuleTrue(r, o, op, field, Num(x)) <==> LacksNumber(r, o, field, x))
    ensures op == LtOp ==> (RuleTrue(r, o, op, field, Num(x)) <==> HoldsBelow(r, o, field, x))
    ensures op == LteOp ==> (RuleTrue(r, o, op, field, Num(x)) <==> HoldsUpTo(r, o, field, x))
    ensures op == GtOp ==> (RuleTrue(r, o, op, field, Num(x)) <==> HoldsAbove(r, o, field, x))
    ensures op == GteOp ==> (RuleTrue(r, o, op, field, Num(x)) <==> HoldsFrom(r, o, field, x))
    ensures op == ContainsOp ==> (RuleTrue(r, o, op, field, Num(x)) <==> HoldsText(r, o, field, r.text(Num(x)), false))
    ensures op == LikeOp ==> (RuleTrue(r, o, op, field, Num(x)) <==> HoldsText(r, o, field, r.text(Num(x)), true))
    ensures op in {InOp, NotInOp, IsNullOp, IsNotNullOp} ==>
              forall y :: RuleTrue(r, o, op, field, Num(x)) <==> RuleTrue(r, o, op, field, Num(y))
  {
    match op
    case LtOp => Ordered(r, o, op, field, x);
    case LteOp => Ordered(r, o, op, field, x);
    case GtOp => Ordered(r, o, op, field, x);
    case GteOp => Ordered(r, o, op, field, x);
    case _ =>
  }

  lemma Ordered(r: Report, o: Object, op: Operator, field: string, x: real)
    requires op in {LtOp, LteOp, GtOp, GteOp}
    ensures RuleTrue(r, o, op, field, Num(x)) <==>
            exists y :: HoldsNumber(r, o, field, y) &&
              match op case LtOp => y < x case LteOp => y <= x case GtOp => x < y case _ => x <= y
  {
    if e, v :| Carries(r, o, field, e) && HasValue(e, v)
               && match op
                  case LtOp => Less(v, Num(x))
                  case LteOp => v == Num(x) || Less(v, Num(x))
                  case GtOp => Less(Num(x), v)
                  case _ => v == Num(x) || Less(Num(x), v) {
      assert v == Num(v.n) && HoldsNumber(r, o, field, v.n);
    }
    if y :| HoldsNumber(r, o, field, y) && match op case LtOp => y < x case LteOp => y <= x case GtOp => x < y case _ => x <= y {
      var e :| Carries(r, o, field, e) && HasValue(e, Num(y));
      assert EntryHolds(r, op, e, Num(x));
    }
  }

  lemma NumberKeepsIff(r: Report, o: Object, op: Operator, field: string, n: real, t: real)
    ensures (RuleTrue(r, o, op, field, Num(t)) <==> RuleTrue(r, o, op, field, Num(n))) <==> NumberKeeps(r, o, op, field, n, t)
  {
    NumberSelects(r, o, op, field, n);
    NumberSelects(r, o, op, field, t);
    hide RuleTrue, HoldsNumber;
    if op in {InOp, NotInOp, IsNullOp, IsNotNullOp} {
      assert RuleTrue(r, o, op, field, Num(n)) <==> RuleTrue(r, o, op, field, Num(t));
    }
  }

  lemma ListKeepsIff(r: Report, o: Object, op: Operator, field: string, items: seq<Bson>, cut: seq<Bson>)
    requires op in {InOp, NotInOp}
    ensures (RuleTrue(r, o, op, field, Arr(cut)) <==> RuleTrue(r, o, op, field, Arr(items))) <==> ListKeeps(r, o, op, field, items, cut)
  {
    ListSelects(r, o, op, field, items, cut);
    ListSelects(r, o, op, field, cut, items);
  }

  lemma ListSelects(r: Report, o: Object, op: Operator, field: string, items: seq<Bson>, others: seq<Bson>)
    requires op in {InOp, NotInOp}
    ensures op == InOp ==>
              (RuleTrue(r, o, op, field, Arr(items)) <==>
               HoldsOneOfBoth(r, o, field, items, others) || HoldsOneOf(r, o, field, items, others))
    ensures op == NotInOp ==> (RuleTrue(r, o, op, field, Arr(items)) <==> LacksAllOf(r, o, field, items))
  {
    if e, v :| Carries(r, o, field, e) && HasValue(e, v) && v in items {
      assert HoldsOneOfBoth(r, o, field, items, others) || HoldsOneOf(r, o, field, items, others);
      assert EntryHolds(r, InOp, e, Arr(items));
    }
    if e :| Carries(r, o, field, e) && EntryHolds(r, NotInOp, e, Arr(items)) {
      assert forall v :: v in items ==> !HasValue(e, v);
    }
    if e :| Carries(r, o, field, e) && forall v :: v in items ==> !HasValue(e, v) {
      assert EntryHolds(r, NotInOp, e, Arr(items));
    }
  }

  lemma DayKeepsIff(r: Report, o: Object, op: Operator, field: string, wanted: Bson)
    requires wanted.Date?
    ensures (RuleSelects(r, o, op, field, wanted) <==> RuleTrue(r, o, op, field, wanted))
       <==> DayKeeps(r, o, op, field, DayOf(wanted.ms))
  {
    var day := DayOf(wanted.ms);
    if op in {EqOp, NeOp} {
      forall e
        ensures EntrySelected(r, EqOp, e, wanted) <==> DayHolds(EqOp, e, day) || Straddles(e, day)
        ensures EntrySelected(r, NeOp, e, wanted) <==> !DayHolds(EqOp, e, day) && !Straddles(e, day)
        ensures Straddles(e, day) ==> !DayHolds(EqOp, e, day)
      {
        OnTheDay(e, day);
      }
    } else {
      assert forall e :: EntrySelected(r, op, e, wanted) <==> EntryHolds(r, op, e, wanted);
    }
  }

  // Outside dates, what a rule selects by is what it says of the value it carries
  lemma PlainSelects(r: Report, o: Object, op: Operator, field: string, v: Bson)
    requires !v.Date?
    ensures RuleSelects(r, o, op, field, v) <==> RuleTrue(r, o, op, field, v)
  {
    assert forall e :: EntrySelected(r, op, e, v) <==> EntryHolds(r, op, e, v);
  }

  // What a rule's query selects by, and what the rule says, agree exactly where the rule keeps its meaning
  lemma SelectsKeepsIff(r: Report, o: Object, op: Operator, field: string, v: Raw)
    requires Wanted(r, field, op, v).Some?
    ensures var wanted := Wanted(r, field, op, v).value;
            (RuleSelects(r, o, op, field, Carried(r, field, op, v, wanted)) <==> RuleTrue(r, o, op, field, wanted))
            <==> Keeps(r, o, op, field, v, wanted)
  {
    hide RuleTrue, RuleSelects, NumberKeeps, ListKeeps, DayKeeps;
    var wanted := Wanted(r, field, op, v).value;
    var carried := Carried(r, field, op, v, wanted);
    match wanted
    case Date(ms) => DayKeepsIff(r, o, op, field, wanted);
    case Num(n) =>
      PlainSelects(r, o, op, field, carried);
      NumberKeepsIff(r, o, op, field, n, Truncate(n) as real);
    case Arr(items) =>
      PlainSelects(r, o, op, field, carried);
      if op in {InOp, NotInOp} {
        ListKeepsIff(r, o, op, field, items, carried.items);
      } else {
        assert carried == wanted;
        SameListKeeps(r, o, op, field, items);
      }
    case _ => PlainSelects(r, o, op, field, carried);
  }

  // The query of a rule selects by the value it carries
  lemma BuiltRuleSelects(r: Report, o: Object, field: string, operator: string, v: Raw)
    requires BuildRule(r, field, operator, v).Ok?
    ensures var op := ParseOperator(operator).value;
            && Wanted(r, field, op, v).Some?
            && (Matches(BuildRule(r, field, operator, v).value, ObjectDoc(o))
                <==> RuleSelects(r, o, op, field, Carried(r, field, op, v, Wanted(r, field, op, v).value)))
  {
    RuleBuilds(r, field, operator, v);
    CoercionMeans(r, field, operator, v);
    var op := ParseOperator(operator).value;
    WantedIsMidnight(r, field, op, v);
    CreatedRuleSelects(r, o, op, field, Carried(r, field, op, v, Wanted(r, field, op, v).value));
  }

  /**
   One rule: the built query selects the objects of which the rule is true, if and only if the rule keeps its
   meaning on the object - a "=" or "!=" date rule through straddling entries, a number rule through the numbers
   stored where the fraction was cut off.
   */
  lemma RuleMeansIff(r: Report, o: Object, field: string, operator: string, v: Raw)
    requires BuildRule(r, field, operator, v).Ok?
    ensures var op := ParseOperator(operator).value;
            && Wanted(r, field, op, v).Some?
            && var wanted := Wanted(r, field, op, v).value;
               (Matches(BuildRule(r, field, operator, v).value, ObjectDoc(o)) <==> RuleTrue(r, o, op, field, wanted))
               <==> Keeps(r, o, op, field, v, wanted)
  {
    BuiltRuleSelects(r, o, field, operator, v);
    SelectsKeepsIff(r, o, ParseOperator(operator).value, field, v);
  }

  lemma SameListKeeps(r: Report, o: Object, op: Operator, field: string, items: seq<Bson>)
    ensures ListKeeps(r, o, op, field, items, items)
  {
  }

  lemma WantedIsMidnight(r: Report, field: string, op: Operator, v: Raw)
    requires Wanted(r, field, op, v).Some?
    ensures IsMidnight(Wanted(r, field, op, v).value) && IsMidnight(Carried(r, field, op, v, Wanted(r, field, op, v).value))
  {
    assert forall day :: DayOf(Midnight(day)) == day;
  }

  // ------------------------------------------------------------------ the tree

  // The tree as the query reads it: each rule by the value that it carries
  ghost predicate TreeSelects(r: Report, o: Object, node: Node)
    requires WellFormed(r, node)
    decreases node
  {
    match node
    case Dict(Some(condition), rules, _, _, _) =>
      var nodes := rules.value.nodes;
      if condition == "and" then forall i :: 0 <= i < |nodes| ==> TreeSelects(r, o, nodes[i])
      else exists i :: 0 <= i < |nodes| && TreeSelects(r, o, nodes[i])
    case Dict(None, _, field, operator, value) =>
      var op := ParseOperator(operator.value).value;
      RuleSelects(r, o, op, field.value, Carried(r, field.value, op, value, Wanted(r, field.value, op, value).value))
  }

  lemma {:induction false} NodeSelects(r: Report, o: Object, node: Node)
    requires WellFormed(r, node) && BuildNode(r, node).Ok?
    ensures Matches(BuildNode(r, node).value, ObjectDoc(o)) <==> TreeSelects(r, o, node)
    decreases node, 1
  {
    match node
    case Dict(Some(condition), rules, _, _, _) =>
      NodesSelect(r, o, rules.value.nodes);
    case Dict(None, _, Some(field), Some(operator), value) =>
      BuiltRuleSelects(r, o, field, operator, value);
  }

  lemma {:induction false} NodesSelect(r: Report, o: Object, nodes: seq<Node>)
    requires BuildNodes(r, nodes).Ok?
    requires forall i :: 0 <= i < |nodes| ==> WellFormed(r, nodes[i])
    ensures |BuildNodes(r, nodes).value| == |nodes|
    ensures forall i :: 0 <= i < |nodes| ==>
              (Matches(BuildNodes(r, nodes).value[i], ObjectDoc(o)) <==> TreeSelects(r, o, nodes[i]))
    decreases nodes, 0
  {
    if nodes != [] {
      NodeSelects(r, o, nodes[0]);
      NodesSelect(r, o, nodes[1..]);
      var built := BuildNodes(r, nodes).value;
      forall i | 0 <= i < |nodes|
        ensures Matches(built[i], ObjectDoc(o)) <==> TreeSelects(r, o, nodes[i])
      {
        if i > 0 {
          assert built[i] == BuildNodes(r, nodes[1..]).value[i - 1] && nodes[i] == nodes[1..][i - 1];
        }
      }
    }
  }

  /**
   What the built query selects, whatever the tree and the object: the objects of the report's type of which the tree
   is true, each rule read by the value that its query carries.
   */
  lemma QuerySelectsTree(r: Report, condition: Option<string>, rules: Option<Rules>, o: Object)
    requires Build(r, condition, rules).Ok?
    ensures !Unconditional(condition, rules) ==> WellFormed(r, Root(condition, rules))
    ensures Matches(Build(r, condition, rules).value, ObjectDoc(o)) <==>
            o.typeId == r.typeId && (Unconditional(condition, rules) || TreeSelects(r, o, Root(condition, rules)))
  {
    BuildFailsIffMalformed(r, condition, rules);
    TypeMatches(r.typeId, o);
    if !Unconditional(condition, rules) {
      NodeBuilds(r, Root(condition, rules));
      NodeSelects(r, o, Root(condition, rules));
      var parts := Build(r, condition, rules).value.parts;
      assert parts[0] == BuildNode(r, Root(condition, rules)).value;
      assert Matches(Build(r, condition, rules).value, ObjectDoc(o)) <==>
             Matches(parts[0], ObjectDoc(o)) && Matches(parts[1], ObjectDoc(o));
    }
  }

  // Every rule of the tree keeps its meaning on the object
  ghost predicate TreeKeeps(r: Report, o: Object, node: Node)
    requires WellFormed(r, node)
    decreases node
  {
    match node
    case Dict(Some(_), rules, _, _, _) =>
      forall i :: 0 <= i < |rules.value.nodes| ==> TreeKeeps(r, o, rules.value.nodes[i])
    case Dict(None, _, field, operator, value) =>
      var op := ParseOperator(operator.value).value;
      Keeps(r, o, op, field.value, value, Wanted(r, field.value, op, value).value)
  }

  lemma {:induction false} KeptTree(r: Report, o: Object, node: Node)
    requires WellFormed(r, node) && TreeKeeps(r, o, node)
    ensures TreeSelects(r, o, node) <==> TreeTrue(r, o, node)
    decreases node
  {
    match node
    case Dict(Some(_), rules, _, _, _) =>
      forall i | 0 <= i < |rules.value.nodes|
        ensures TreeSelects(r, o, rules.value.nodes[i]) <==> TreeTrue(r, o, rules.value.nodes[i])
      {
        KeptTree(r, o, rules.value.nodes[i]);
      }
    case Dict(None, _, field, operator, value) =>
      SelectsKeepsIff(r, o, ParseOperator(operator.value).value, field.value, value);
  }

  lemma NodeMeans(r: Report, o: Object, node: Node)
    requires WellFormed(r, node) && BuildNode(r, node).Ok? && TreeKeeps(r, o, node)
    ensures Matches(BuildNode(r, node).value, ObjectDoc(o)) <==> TreeTrue(r, o, node)
  {
    NodeSelects(r, o, node);
    KeptTree(r, o, node);
  }

  /**
   Meaning is preserved: the built query matches an object exactly when the object is of the report's type
   and the condition tree, if there is one, is true of it - provided each of its rules keeps its meaning there.
   */
  lemma QueryMeansTree(r: Report, condition: Option<string>, rules: Option<Rules>, o: Object)
    requires Build(r, condition, rules).Ok?
    requires !Unconditional(condition, rules) && WellFormed(r, Root(condition, rules)) ==> TreeKeeps(r, o, Root(condition, rules))
    ensures !Unconditional(condition, rules) ==> WellFormed(r, Root(condition, rules))
    ensures Matches(Build(r, condition, rules).value, ObjectDoc(o)) <==>
            o.typeId == r.typeId && (Unconditional(condition, rules) || TreeTrue(r, o, Root(condition, rules)))
  {
    QuerySelectsTree(r, condition, rules, o);
    if !Unconditional(condition, rules) {
      KeptTree(r, o, Root(condition, rules));
    }
  }

  // ------------------------------------------------------------------ day-granular operators

  // A report with this one rule
  function OneRule(r: Report, field: string, operator: string, value: Raw): Result<Query, BuilderError> {
    Build(r, Some("and"), Some(RuleList([Dict(None, None, Some(field), Some(operator), value)])))
  }

  lemma OneRuleMatches(r: Report, field: string, operator: string, value: Raw, o: Object)
    requires BuildRule(r, field, operator, value).Ok?
    ensures OneRule(r, field, operator, value).Ok?
    ensures Matches(OneRule(r, field, operator, value).value, ObjectDoc(o)) <==>
            o.typeId == r.typeId && Matches(BuildRule(r, field, operator, value).value, ObjectDoc(o))
  {
    var nodes := [Dict(None, None, Some(field), Some(operator), value)];
    var rule := BuildRule(r, field, operator, value).value;
    assert nodes[1..] == [] && BuildNodes(r, nodes[1..]) == Ok([]);
    assert BuildNode(r, nodes[0]) == Ok(rule);
    assert BuildNodes(r, nodes) == Ok([rule] + []) && [rule] + [] == [rule];
    var q := OneRule(r, field, operator, value).value;
    assert q == AndQ([AndQ([rule]), TypeIs(r.typeId)]);
    assert Matches(q, ObjectDoc(o)) <==> Matches(q.parts[0], ObjectDoc(o)) && Matches(q.parts[1], ObjectDoc(o));
    assert Matches(q.parts[0], ObjectDoc(o)) <==> Matches(q.parts[0].parts[0], ObjectDoc(o));
    TypeMatches(r.typeId, o);
  }

  /** A report of one rule means what it says on an object of its type, if and only if the rule keeps its meaning there. */
  lemma OneRuleMeansIff(r: Report, field: string, operator: string, value: Raw, o: Object)
    requires BuildRule(r, field, operator, value).Ok? && o.typeId == r.typeId
    ensures var op := ParseOperator(operator).value;
            && Wanted(r, field, op, value).Some?
            && var wanted := Wanted(r, field, op, value).value;
               (Selects(r, field, operator, value, o) <==> RuleTrue(r, o, op, field, wanted))
               <==> Keeps(r, o, op, field, value, wanted)
  {
    OneRuleMatches(r, field, operator, value, o);
    RuleMeansIff(r, o, field, operator, value);
  }

  ghost predicate Selects(r: Report, field: string, operator: string, value: Raw, o: Object) {
    OneRule(r, field, operator, value).Ok? && Matches(OneRule(r, field, operator, value).value, ObjectDoc(o))
  }

  // The object carries the field in one entry, or in several that are all like it
  ghost predicate OnlyEntry(r: Report, o: Object, field: string, e: Entry) {
    Carries(r, o, field, e) && forall e' :: Carries(r, o, field, e') ==> e' == e
  }

  /**
   For an object whose date field, flat or of the rows, has one entry: of <, = and > exactly one selects it, <= is < or =,
   >= is > or =, != is not = - whatever the instant, the first and the last of the day included.
   */
  lemma DaysAreCoherent(r: Report, field: string, text: string, day: int, o: Object, e: Entry, ms: int)
    requires field in r.dateFields && text != "" && r.parseDay(text) == Some(day)
    requires o.typeId == r.typeId && OnlyEntry(r, o, field, e) && e.value == Some(Date(ms))
    ensures Selects(r, field, "<", Str(text), o) <==> ms < day * 86_400_000
    ensures Selects(r, field, "=", Str(text), o) <==> day * 86_400_000 <= ms < (day + 1) * 86_400_000
    ensures Selects(r, field, ">", Str(text), o) <==> (day + 1) * 86_400_000 <= ms
    ensures Selects(r, field, "<=", Str(text), o) <==> Selects(r, field, "<", Str(text), o) || Selects(r, field, "=", Str(text), o)
    ensures Selects(r, field, ">=", Str(text), o) <==> Selects(r, field, ">", Str(text), o) || Selects(r, field, "=", Str(text), o)
    ensures Selects(r, field, "!=", Str(text), o) <==> !Selects(r, field, "=", Str(text), o)
  {
    hide Selects, DayHolds, OnlyEntry, ParseOperator;
    OperatorNames();
    DaySelects(r, field, "<", LtOp, text, day, o, e, ms);
    DaySelects(r, field, "=", EqOp, text, day, o, e, ms);
    DaySelects(r, field, ">", GtOp, text, day, o, e, ms);
    DaySelects(r, field, "<=", LteOp, text, day, o, e, ms);
    DaySelects(r, field, ">=", GteOp, text, day, o, e, ms);
    DaySelects(r, field, "!=", NeOp, text, day, o, e, ms);
    OneInstant(e, ms, day);
  }

  lemma OperatorNames()
    ensures ParseOperator("<") == Some(LtOp) && ParseOperator("=") == Some(EqOp) && ParseOperator(">") == Some(GtOp)
    ensures ParseOperator("<=") == Some(LteOp) && ParseOperator(">=") == Some(GteOp) && ParseOperator("!=") == Some(NeOp)
  {
  }

  lemma DaySelects(
    r: Report, field: string, operator: string, op: Operator, text: string, day: int, o: Object, e: Entry, ms: int)
    requires ParseOperator(operator) == Some(op) && op in {EqOp, NeOp, LtOp, LteOp, GtOp, GteOp}
    requires field in r.dateFields && text != "" && r.parseDay(text) == Some(day)
    requires o.typeId == r.typeId && OnlyEntry(r, o, field, e) && e.value == Some(Date(ms))
    ensures Selects(r, field, operator, Str(text), o) <==> DayHolds(op, e, day)
  {
    hide Selects, BuildRule, RuleTrue, DayHolds, DayKeeps, OnlyEntry;
    assert Wanted(r, field, op, Str(text)) == Some(Date(Midnight(day))) && DayOf(Midnight(day)) == day;
    RuleBuilds(r, field, operator, Str(text));
    OneRuleMeansIff(r, field, operator, Str(text), o);
    OneInstantKeeps(r, o, op, field, day, e, ms);
  }

  // A rule on a day, on an object with one instant
  lemma OneInstantKeeps(r: Report, o: Object, op: Operator, field: string, day: int, e: Entry, ms: int)
    requires op in {EqOp, NeOp, LtOp, LteOp, GtOp, GteOp}
    requires OnlyEntry(r, o, field, e) && e.value == Some(Date(ms))
    ensures RuleTrue(r, o, op, field, Date(Midnight(day))) <==> DayHolds(op, e, day)
    ensures DayKeeps(r, o, op, field, day)
  {
    hide Carries;
    assert DayOf(Midnight(day)) == day;
    assert forall ms' :: HasValue(e, Date(ms')) ==> ms' == ms;
    assert !Straddles(e, day);
    assert EntryHolds(r, op, e, Date(Midnight(day))) <==> DayHolds(op, e, day);
  }

  // The six operators on one instant
  lemma OneInstant(e: Entry, ms: int, day: int)
    requires e.value == Some(Date(ms))
    ensures DayHolds(LtOp, e, day) <==> ms < Midnight(day)
    ensures DayHolds(EqOp, e, day) <==> Midnight(day) <= ms < Midnight(day + 1)
    ensures DayHolds(GtOp, e, day) <==> Midnight(day + 1) <= ms
    ensures DayHolds(LteOp, e, day) <==> ms < Midnight(day + 1)
    ensures DayHolds(GteOp, e, day) <==> Midnight(day) <= ms
    ensures DayHolds(NeOp, e, day) <==> !DayHolds(EqOp, e, day)
  {
    assert HasValue(e, Date(ms)) && forall ms' :: HasValue(e, Date(ms')) ==> ms' == ms;
    DayBounds(day, ms);
    DayBounds(day + 1, ms);
  }

  lemma NullRules(r: Report, o: Object, field: string, v: Bson)
    requires forall e, e' :: Carries(r, o, field, e) && Carries(r, o, field, e') ==> e == e'
    ensures RuleTrue(r, o, IsNullOp, field, v) <==> !RuleTrue(r, o, IsNotNullOp, field, v)
  {
    hide Carries;
    if e :| Carries(r, o, field, e) {
      assert EntryHolds(r, IsNullOp, e, v) <==> !EntryHolds(r, IsNotNullOp, e, v);
    }
  }

  // The value does not matter for the two operators
  lemma NullKeeps(r: Report, o: Object, op: Operator, field: string, v: Raw)
    requires op in {IsNullOp, IsNotNullOp} && Wanted(r, field, op, v).Some?
    ensures Keeps(r, o, op, field, v, Wanted(r, field, op, v).value)
  {
  }

  /** "is null" is the negation of "is not null" for an object carrying the flat field at most once. */
  lemma NullIsNotNotNull(r: Report, field: string, value: Raw, o: Object)
    requires field !in r.mdsFields && o.typeId == r.typeId && BuildRule(r, field, "is null", value).Ok?
    requires forall e, e' :: e in o.fields && e' in o.fields && e.name == e'.name == field ==> e == e'
    ensures Selects(r, field, "is null", value, o) <==> !Selects(r, field, "is not null", value, o)
  {
    NullMeans(r, field, "is null", IsNullOp, value, o);
    SameNullBuilds(r, field, value);
    NullMeans(r, field, "is not null", IsNotNullOp, value, o);
    FlatOnce(r, o, field);
    hide *;
    NullRules(r, o, field, Wanted(r, field, IsNullOp, value).value);
  }

  lemma SameNullBuilds(r: Report, field: string, value: Raw)
    requires BuildRule(r, field, "is null", value).Ok?
    ensures BuildRule(r, field, "is not null", value).Ok?
    ensures Wanted(r, field, IsNotNullOp, value) == Wanted(r, field, IsNullOp, value)
  {
    RuleBuilds(r, field, "is null", value);
    RuleBuilds(r, field, "is not null", value);
  }

  lemma FlatOnce(r: Report, o: Object, field: string)
    requires field !in r.mdsFields
    requires forall e, e' :: e in o.fields && e' in o.fields && e.name == e'.name == field ==> e == e'
    ensures forall e, e' :: Carries(r, o, field, e) && Carries(r, o, field, e') ==> e == e'
  {
  }

  lemma NullMeans(r: Report, field: string, operator: string, op: Operator, value: Raw, o: Object)
    requires ParseOperator(operator) == Some(op) && op in {IsNullOp, IsNotNullOp}
    requires o.typeId == r.typeId && BuildRule(r, field, operator, value).Ok?
    ensures Wanted(r, field, op, value).Some?
    ensures Selects(r, field, operator, value, o) <==> RuleTrue(r, o, op, field, Wanted(r, field, op, value).value)
  {
    OneRuleMeansIff(r, field, operator, value, o);
    NullKeeps(r, o, op, field, value);
  }
}
