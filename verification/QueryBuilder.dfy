/** The compiler from a report's condition tree to a MongoDB filter. */
module QueryBuilder {
  import opened Prelude
  import opened Documents
  import opened MongoQuery

  // A report's type, as the builder classifies its fields, and the Python conversions it calls:
  // int() of a text, strptime of a text as the number of its day, and str() of a value
  datatype Report = Report(
    typeId: int,
    numberFields: set<string>, dateFields: set<string>, refFields: set<string>,
    refSectionFields: set<string>, mdsFields: set<string>,
    parseInt: string -> Option<int>, parseDay: string -> Option<int>, text: Bson -> string)

  // A rule's value as stored: JSON, which has no instants - a date is a text
  type Raw = v: Bson | !v.Date? witness Null

  // One node of a stored rule tree; any of its keys may be missing
  datatype Node =
    | NotADict
    | Dict(condition: Option<string>, rules: Option<Rules>, field: Option<string>, operator: Option<string>, value: Raw)

  // A list of nodes, or an empty text or dict, which is iterated like the empty list; or anything else, which may
  // be as good as absent where only its truth is asked for
  datatype Rules = NotAList(truthy: bool) | RuleList(nodes: seq<Node>)

  datatype Operator =
    | EqOp | NeOp | LteOp | GteOp | LtOp | GtOp | InOp | NotInOp | ContainsOp | LikeOp | IsNullOp | IsNotNullOp

  datatype BuilderError = InvalidOperator | RulesetError | RuleError

  function ParseOperator(s: string): Option<Operator> {
    match s
    case "=" => Some(EqOp)
    case "!=" => Some(NeOp)
    case "<=" => Some(LteOp)
    case ">=" => Some(GteOp)
    case "<" => Some(LtOp)
    case ">" => Some(GtOp)
    case "in" => Some(InOp)
    case "not in" => Some(NotInOp)
    case "contains" => Some(ContainsOp)
    case "like" => Some(LikeOp)
    case "is null" => Some(IsNullOp)
    case "is not null" => Some(IsNotNullOp)
    case _ => None
  }

  // ------------------------------------------------------------------ values

  const DAY_MS: int := 86_400_000
  const DAY_MICROS: int := 86_400_000_000

  function Midnight(day: int): int {
    day * DAY_MS
  }

  // The day's last microsecond, as MongoDB stores it: cut to milliseconds
  function EndOfDay(ms: int): int {
    ((ms / DAY_MS) * DAY_MICROS + DAY_MICROS - 1) / 1000
  }

  predicate Falsy(v: Bson) {
    match v
    case Null => true
    case Bool(b) => !b
    case Num(n) => n == 0.0
    case Str(s) => s == ""
    case Date(_) => false
    case Arr(items) => items == []
    case Doc(keys) => keys == map[]
  }

  // int() of a number cuts towards zero
  function Truncate(x: real): int {
    if x >= 0.0 then x.Floor else -((-x).Floor)
  }

  function ToInt(r: Report, v: Bson): Option<Bson> {
    match v
    case Bool(b) => Some(Num(if b then 1.0 else 0.0))
    case Num(n) => Some(Num(Truncate(n) as real))
    case Str(s) => (match r.parseInt(s) case Some(n) => Some(Num(n as real)) case None => None)
    case _ => None
  }

  function ToDate(r: Report, v: Bson): Option<Bson> {
    match v
    case Str(s) => (match r.parseDay(s) case Some(day) => Some(Date(Midnight(day))) case None => None)
    case _ => None
  }

  function Convert(r: Report, field: string, v: Bson): Option<Bson> {
    if field in r.dateFields then ToDate(r, v)
    else if field in r.refFields || field in r.refSectionFields || field in r.numberFields then ToInt(r, v)
    else Some(v)
  }

  function ConvertAll(r: Report, field: string, items: seq<Bson>): Option<seq<Bson>> {
    if items == [] then Some([])
    else
      match (Convert(r, field, items[0]), ConvertAll(r, field, items[1..]))
      case (Some(first), Some(rest)) => Some([first] + rest)
      case _ => None
  }

  // None where the conversion raises; the operator is looked at as text, known or not
  function Coerce(r: Report, field: string, operator: string, v: Raw): Option<Bson> {
    if Falsy(v) then Some(v)
    else if (operator == "in" || operator == "not in") && v.Arr? then
      match ConvertAll(r, field, v.items)
      case Some(items) => Some(Arr(items))
      case None => None
    else Convert(r, field, v)
  }

  // ------------------------------------------------------------------ fragments

  const EMPTY_VALUES := Arr([Null, Str("")])

  function DateFragment(op: Operator, ms: int): Option<seq<Test>> {
    var dayStart, dayEnd := Date(ms), Date(EndOfDay(ms));
    match op
    case EqOp => Some([Gte(dayStart), Lte(dayEnd)])
    case NeOp => Some([Not([Gte(dayStart), Lte(dayEnd)])])
    case LteOp => Some([Lte(dayEnd)])
    case GtOp => Some([Gt(dayEnd)])
    case _ => None
  }

  function PlainFragment(r: Report, op: Operator, v: Bson): seq<Test> {
    match op
    case EqOp => [Eq(v)]
    case NeOp => [Ne(v)]
    case LteOp => [Lte(v)]
    case GteOp => [Gte(v)]
    case LtOp => [Lt(v)]
    case GtOp => [Gt(v)]
    case InOp => [In(v)]
    case NotInOp => [Nin(v)]
    case ContainsOp => [Regex(r.text(v), false)]
    case LikeOp => [Regex(r.text(v), true)]
    case IsNullOp => [In(EMPTY_VALUES)]
    case IsNotNullOp => [Nin(EMPTY_VALUES)]
  }

  function ValueFragment(r: Report, op: Operator, v: Bson): seq<Test> {
    if v.Date? && DateFragment(op, v.ms).Some? then DateFragment(op, v.ms).value else PlainFragment(r, op, v)
  }

  function TargetPath(r: Report, field: string): seq<string> {
    if field in r.mdsFields then MDS_PATH else ["fields"]
  }

  function NameIs(field: string): Query {
    Clause(["name"], [Eq(Str(field))])
  }

  function EntryMatch(field: string, fragment: seq<Test>): Query {
    AndQ([NameIs(field), Clause(["value"], fragment)])
  }

  function CreateRule(r: Report, op: Operator, field: string, v: Bson): Query {
    var path := TargetPath(r, field);
    var entryMatch := Clause(path, [ElemMatch(EntryMatch(field, ValueFragment(r, op, v)))]);
    if op == IsNullOp then OrQ([entryMatch, Clause(path, [Not([ElemMatch(NameIs(field))])])])
    else entryMatch
  }

  // ------------------------------------------------------------------ the tree

  function BuildRule(r: Report, field: string, operator: string, v: Raw): Result<Query, BuilderError> {
    match Coerce(r, field, operator, v)
    case None => Err(RuleError)
    case Some(value) =>
      match ParseOperator(operator)
      case None => Err(InvalidOperator)
      case Some(op) => Ok(CreateRule(r, op, field, value))
  }

  function BuildNode(r: Report, node: Node): Result<Query, BuilderError>
    decreases node, 2
  {
    match node
    case NotADict => Err(RulesetError)
    case Dict(Some(condition), rules, _, _, _) =>
      if rules.None? then Err(RulesetError) else BuildRuleset(r, condition, rules.value)
    case Dict(None, _, Some(field), Some(operator), value) => BuildRule(r, field, operator, value)
    case Dict(None, _, _, _, _) => Err(RulesetError)
  }

  function BuildRuleset(r: Report, condition: string, rules: Rules): Result<Query, BuilderError>
    decreases rules, 1
  {
    if (condition != "and" && condition != "or") || rules.NotAList? then Err(RulesetError)
    else
      match BuildNodes(r, rules.nodes)
      case Err(e) => Err(e)
      case Ok(children) => Ok(if condition == "and" then AndQ(children) else OrQ(children))
  }

  function BuildNodes(r: Report, nodes: seq<Node>): Result<seq<Query>, BuilderError>
    decreases nodes, 0
  {
    if nodes == [] then Ok([])
    else
      match BuildNode(r, nodes[0])
      case Err(e) => Err(e)
      case Ok(first) =>
        match BuildNodes(r, nodes[1..])
        case Err(e) => Err(e)
        case Ok(rest) => Ok([first] + rest)
  }

  // A report without a condition, or without rules, is every object of its type
  predicate Unconditional(condition: Option<string>, rules: Option<Rules>) {
    condition.None? || condition.value == "" || rules.None? || rules.value == RuleList([]) || rules.value == NotAList(false)
  }

  function Build(r: Report, condition: Option<string>, rules: Option<Rules>): Result<Query, BuilderError> {
    if Unconditional(condition, rules) then Ok(TypeIs(r.typeId))
    else
      match BuildRuleset(r, condition.value, rules.value)
      case Err(e) => Err(e)
      case Ok(query) => Ok(AndQ([query, TypeIs(r.typeId)]))
  }
}
