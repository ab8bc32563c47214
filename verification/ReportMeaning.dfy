/** What a report's condition tree says about an object, and that building fails exactly where it says nothing. */
module ReportMeaning {
  import opened Prelude
  import opened Documents
  import opened MongoQuery
  import opened QueryBuilder

  // ------------------------------------------------------------------ what a rule's value means

  predicate IsNumberField(r: Report, field: string) {
    field in r.refFields || field in r.refSectionFields || field in r.numberFields
  }

  // A value read as what its field holds: a day, a number as it is written, or the value itself
  function Sense(r: Report, field: string, v: Bson): Option<Bson> {
    if field in r.dateFields then
      if v.Str? && r.parseDay(v.s).Some? then Some(Date(Midnight(r.parseDay(v.s).value))) else None
    else if IsNumberField(r, field) then
      match v
      case Num(_) => Some(v)
      case Bool(b) => Some(Num(if b then 1.0 else 0.0))
      case Str(text) => if r.parseInt(text).Some? then Some(Num(r.parseInt(text).value as real)) else None
      case _ => None
    else Some(v)
  }

  // What a rule asks for: an empty value as it is, a list item by item for the list operators
  ghost function Wanted(r: Report, field: string, op: Operator, v: Bson): Option<Bson> {
    if Falsy(v) then Some(v)
    else if (op.InOp? || op.NotInOp?) && v.Arr? then
      if forall i :: 0 <= i < |v.items| ==> Sense(r, field, v.items[i]).Some?
      then Some(Arr(seq(|v.items|, i requires 0 <= i < |v.items| =>
                          if Sense(r, field, v.items[i]).Some? then Sense(r, field, v.items[i]).value else Null)))
      else None
    else Sense(r, field, v)
  }

  // ------------------------------------------------------------------ well-formed trees

  ghost predicate WellFormed(r: Report, node: Node)
    decreases node
  {
    match node
    case NotADict => false
    case Dict(Some(condition), rules, _, _, _) =>
      && condition in {"and", "or"}
      && rules.Some? && rules.value.RuleList?
      && forall i :: 0 <= i < |rules.value.nodes| ==> WellFormed(r, rules.value.nodes[i])
    case Dict(None, _, field, operator, value) =>
      && field.Some? && operator.Some?
      && ParseOperator(operator.value).Some?
      && Wanted(r, field.value, ParseOperator(operator.value).value, value).Some?
  }

  // The tree's root is a group made of the report's own condition and rules
  function Root(condition: Option<string>, rules: Option<Rules>): Node {
    Dict(condition, rules, None, None, Null)
  }

  // ------------------------------------------------------------------ meaning

  // The entries a rule on this field looks at: of the rows for a multi-data field, of the object otherwise
  ghost predicate Carries(r: Report, o: Object, field: string, e: Entry) {
    && e.name == field
    && if field in r.mdsFields then exists s, row :: s in o.sections && row in s.rows && e in row.data
       else e in o.fields
  }

  // An entry's value counts as null when it is missing; a list counts through its elements as well
  predicate HasValue(e: Entry, v: Bson) {
    || v == (if e.value.Some? then e.value.value else Null)
    || (e.value.Some? && e.value.value.Arr? && v in e.value.value.items)
  }

  function DayOf(ms: int): int {
    ms / DAY_MS
  }

  ghost predicate Empty(e: Entry) {
    HasValue(e, Null) || HasValue(e, Str(""))
  }

  // The day-granular reading: the stored instant against the whole day the rule names
  ghost predicate DayHolds(op: Operator, e: Entry, day: int)
    requires op in {EqOp, NeOp, LtOp, LteOp, GtOp, GteOp}
  {
    match op
    case EqOp => exists ms :: HasValue(e, Date(ms)) && DayOf(ms) == day
    case NeOp => !exists ms :: HasValue(e, Date(ms)) && DayOf(ms) == day
    case LtOp => exists ms :: HasValue(e, Date(ms)) && DayOf(ms) < day
    case LteOp => exists ms :: HasValue(e, Date(ms)) && DayOf(ms) <= day
    case GtOp => exists ms :: HasValue(e, Date(ms)) && DayOf(ms) > day
    case _ => exists ms :: HasValue(e, Date(ms)) && DayOf(ms) >= day
  }

  ghost predicate ValueHolds(r: Report, op: Operator, e: Entry, wanted: Bson) {
    match op
    case EqOp => HasValue(e, wanted)
    case NeOp => !HasValue(e, wanted)
    case LtOp => exists v :: HasValue(e, v) && Less(v, wanted)
    case LteOp => exists v :: HasValue(e, v) && (v == wanted || Less(v, wanted))
    case GtOp => exists v :: HasValue(e, v) && Less(wanted, v)
    case GteOp => exists v :: HasValue(e, v) && (v == wanted || Less(wanted, v))
    case InOp => wanted.Arr? && exists v :: HasValue(e, v) && v in wanted.items
    case NotInOp => !(wanted.Arr? && exists v :: HasValue(e, v) && v in wanted.items)
    case ContainsOp => exists s :: HasValue(e, Str(s)) && Contains(s, r.text(wanted))
    case LikeOp => exists s :: HasValue(e, Str(s)) && Contains(Lower(s), Lower(r.text(wanted)))
    case IsNullOp => Empty(e)
    case IsNotNullOp => !Empty(e)
  }

  ghost predicate EntryHolds(r: Report, op: Operator, e: Entry, wanted: Bson) {
    if wanted.Date? && op in {EqOp, NeOp, LtOp, LteOp, GtOp, GteOp} then DayHolds(op, e, DayOf(wanted.ms))
    else ValueHolds(r, op, e, wanted)
  }

  // Some entry of the field satisfies the rule; "is null" is also true of a field without any entry
  ghost predicate RuleTrue(r: Report, o: Object, op: Operator, field: string, wanted: Bson) {
    || (exists e :: Carries(r, o, field, e) && EntryHolds(r, op, e, wanted))
    || (op == IsNullOp && !exists e :: Carries(r, o, field, e))
  }

  ghost predicate TreeTrue(r: Report, o: Object, node: Node)
    requires WellFormed(r, node)
    decreases node
  {
    match node
    case Dict(Some(condition), rules, _, _, _) =>
      var nodes := rules.value.nodes;
      if condition == "and" then forall i :: 0 <= i < |nodes| ==> TreeTrue(r, o, nodes[i])
      else exists i :: 0 <= i < |nodes| && TreeTrue(r, o, nodes[i])
    case Dict(None, _, field, operator, value) =>
      var op := ParseOperator(operator.value).value;
      RuleTrue(r, o, op, field.value, Wanted(r, field.value, op, value).value)
  }

  // ------------------------------------------------------------------ building fails exactly on malformed trees

  // Converting a value fails exactly where it cannot be read, and gives what it means but for the fraction of a number
  lemma ConvertedSense(r: Report, field: string, v: Bson)
    ensures Convert(r, field, v).Some? <==> Sense(r, field, v).Some?
    ensures Sense(r, field, v).Some? ==> Convert(r, field, v).value == Cut(r, field, Sense(r, field, v).value)
  {
    if IsNumberField(r, field) && field !in r.dateFields {
      match v
      case Bool(b) => assert Truncate(1.0) == 1 && Truncate(0.0) == 0;
      case Str(text) =>
        if r.parseInt(text).Some? {
          WholeCut(r.parseInt(text).value);
        }
      case _ =>
    }
  }

  // What is left of a number's meaning: int() cuts its fraction off
  function Cut(r: Report, field: string, v: Bson): Bson {
    if field !in r.dateFields && IsNumberField(r, field) && v.Num? then Num(Truncate(v.n) as real) else v
  }

  lemma WholeCut(n: int)
    ensures Truncate(n as real) == n
  {
    assert n >= 0 ==> (n as real).Floor == n;
    assert n < 0 ==> (-(n as real)).Floor == -n;
  }

  lemma {:induction false} ConvertedAll(r: Report, field: string, items: seq<Bson>)
    ensures ConvertAll(r, field, items).Some? <==> forall i :: 0 <= i < |items| ==> Sense(r, field, items[i]).Some?
    ensures ConvertAll(r, field, items).Some? ==>
              && |ConvertAll(r, field, items).value| == |items|
              && forall i :: 0 <= i < |items| ==>
                   ConvertAll(r, field, items).value[i] == Cut(r, field, Sense(r, field, items[i]).value)
  {
    if items != [] {
      ConvertedAll(r, field, items[1..]);
      ConvertedSense(r, field, items[0]);
      assert forall i :: 0 < i < |items| ==> items[i] == items[1..][i - 1];
    }
  }

  // The rule's value as the query carries it: what is wanted, with the fractions of a number field's numbers cut off
  function Carried(r: Report, field: string, op: Operator, v: Bson, wanted: Bson): Bson {
    if Falsy(v) then wanted
    else if (op.InOp? || op.NotInOp?) && wanted.Arr? && v.Arr? then
      Arr(seq(|wanted.items|, i requires 0 <= i < |wanted.items| => Cut(r, field, wanted.items[i])))
    else Cut(r, field, wanted)
  }

  /** The coercion: it fails exactly where the value cannot be read, and else loses the fractions, no more. */
  lemma CoercionMeans(r: Report, field: string, operator: string, v: Raw)
    requires ParseOperator(operator).Some?
    ensures var op := ParseOperator(operator).value;
            && (Coerce(r, field, operator, v).Some? <==> Wanted(r, field, op, v).Some?)
            && (Wanted(r, field, op, v).Some? ==>
                  Coerce(r, field, operator, v).value == Carried(r, field, op, v, Wanted(r, field, op, v).value))
  {
    OperatorText(operator);
    var op := ParseOperator(operator).value;
    if !Falsy(v) && (op.InOp? || op.NotInOp?) && v.Arr? {
      ConvertedAll(r, field, v.items);
      if Wanted(r, field, op, v).Some? {
        assert Coerce(r, field, operator, v).value.items == Carried(r, field, op, v, Wanted(r, field, op, v).value).items;
      }
    } else {
      ConvertedSense(r, field, v);
    }
  }

  lemma OperatorText(operator: string)
    ensures ParseOperator(operator) == Some(InOp) <==> operator == "in"
    ensures ParseOperator(operator) == Some(NotInOp) <==> operator == "not in"
  {
  }

  lemma RuleBuilds(r: Report, field: string, operator: string, value: Raw)
    ensures BuildRule(r, field, operator, value).Ok? <==>
            ParseOperator(operator).Some? && Wanted(r, field, ParseOperator(operator).value, value).Some?
  {
    if ParseOperator(operator).Some? {
      CoercionMeans(r, field, operator, value);
    }
  }

  lemma {:induction false} NodeBuilds(r: Report, node: Node)
    ensures BuildNode(r, node).Ok? <==> WellFormed(r, node)
    decreases node, 1
  {
    match node
    case NotADict =>
    case Dict(Some(condition), rules, _, _, _) =>
      if rules.Some? && rules.value.RuleList? {
        NodesBuild(r, rules.value.nodes);
      }
    case Dict(None, _, Some(field), Some(operator), value) =>
      RuleBuilds(r, field, operator, value);
    case Dict(None, _, _, _, _) =>
  }

  lemma {:induction false} NodesBuild(r: Report, nodes: seq<Node>)
    ensures BuildNodes(r, nodes).Ok? <==> forall i :: 0 <= i < |nodes| ==> WellFormed(r, nodes[i])
    decreases nodes, 0
  {
    if nodes != [] {
      NodeBuilds(r, nodes[0]);
      NodesBuild(r, nodes[1..]);
      assert forall i :: 0 < i < |nodes| ==> nodes[i] == nodes[1..][i - 1];
    }
  }

  /** build() raises exactly when the report has conditions and some node of their tree is malformed. */
  lemma BuildFailsIffMalformed(r: Report, condition: Option<string>, rules: Option<Rules>)
    ensures Build(r, condition, rules).Err? <==>
            !Unconditional(condition, rules) && !WellFormed(r, Root(condition, rules))
  {
    NodeBuilds(r, Root(condition, rules));
  }
}
