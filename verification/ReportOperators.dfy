/** What each operator of a rule selects, told by the text that names it. */
module ReportOperators {
  import opened Prelude
  import opened Documents
  import opened MongoQuery
  import opened QueryBuilder
  import opened ReportMeaning
  import opened ReportSelection
  import opened ReportCorrectness
  import opened ReportExactness

  // ------------------------------------------------------------------ null

  predicate IsEmpty(e: Entry) {
    HasValue(e, Null) || HasValue(e, Str(""))
  }

  lemma NullRuleTrue(r: Report, o: Object, field: string, v: Bson)
    ensures RuleTrue(r, o, IsNullOp, field, v) <==>
            (forall e :: !Carries(r, o, field, e)) || exists e :: Carries(r, o, field, e) && IsEmpty(e)
    ensures RuleTrue(r, o, IsNotNullOp, field, v) <==> exists e :: Carries(r, o, field, e) && !IsEmpty(e)
  {
    hide Carries;
    forall e
      ensures EntryHolds(r, IsNullOp, e, v) <==> IsEmpty(e)
      ensures EntryHolds(r, IsNotNullOp, e, v) <==> !IsEmpty(e)
    {
    }
  }

  /**
   "is null" selects the objects without an entry of the field, and those of which one lacks its value or holds null
   or the empty text, alone or in a list; "is not null" those of which one does not. A rule with the value null,
   which is what the two are sent with, always builds.
   */
  lemma NullTextsSelect(r: Report, field: string, value: Raw, o: Object)
    requires o.typeId == r.typeId
    ensures OneRule(r, field, "is null", Null).Ok? && OneRule(r, field, "is not null", Null).Ok?
    ensures OneRule(r, field, "is null", value).Ok? ==>
              (Selects(r, field, "is null", value, o) <==>
               (forall e :: !Carries(r, o, field, e)) || exists e :: Carries(r, o, field, e) && IsEmpty(e))
    ensures OneRule(r, field, "is not null", value).Ok? ==>
              (Selects(r, field, "is not null", value, o) <==> exists e :: Carries(r, o, field, e) && !IsEmpty(e))
  {
    hide Selects, Carries, IsEmpty, RuleTrue, BuildRule, OneRule, Wanted;
    RuleAccepted(r, field, "is null", value);
    RuleAccepted(r, field, "is not null", value);
    RuleAccepted(r, field, "is null", Null);
    RuleAccepted(r, field, "is not null", Null);
    NullBuilds(r, field);
    if BuildRule(r, field, "is null", value).Ok? {
      NullMeans(r, field, "is null", IsNullOp, value, o);
      NullRuleTrue(r, o, field, Wanted(r, field, IsNullOp, value).value);
    }
    if BuildRule(r, field, "is not null", value).Ok? {
      NullMeans(r, field, "is not null", IsNotNullOp, value, o);
      NullRuleTrue(r, o, field, Wanted(r, field, IsNotNullOp, value).value);
    }
  }

  lemma NullBuilds(r: Report, field: string)
    ensures BuildRule(r, field, "is null", Null).Ok? && BuildRule(r, field, "is not null", Null).Ok?
  {
    RuleBuilds(r, field, "is null", Null);
    RuleBuilds(r, field, "is not null", Null);
  }

  // A report of one rule builds when the rule does
  lemma RuleAccepted(r: Report, field: string, operator: string, value: Raw)
    ensures OneRule(r, field, operator, value).Ok? <==> BuildRule(r, field, operator, value).Ok?
    ensures BuildRule(r, field, operator, value).Err? ==>
              OneRule(r, field, operator, value) == Err(BuildRule(r, field, operator, value).error)
  {
    if BuildRule(r, field, operator, value).Ok? {
      OneRuleMatches(r, field, operator, value, Sole(r, field, Null));
    } else {
      hide BuildRule;
      var nodes := [Dict(None, None, Some(field), Some(operator), value)];
      assert BuildNode(r, nodes[0]) == BuildRule(r, field, operator, value);
      assert BuildNodes(r, nodes) == Err(BuildRule(r, field, operator, value).error) && RuleList(nodes) != RuleList([]);
    }
  }

  // ------------------------------------------------------------------ which rules build

  const OPERATORS: set<string> :=
    {"=", "!=", "<=", ">=", "<", ">", "in", "not in", "contains", "like", "is null", "is not null"}

  const EMPTY: set<Bson> := {Null, Bool(false), Num(0.0), Str(""), Arr([]), Doc(map[])}

  // A value that a date field takes for a day, a number or reference field for a number, any other field as it is
  predicate Readable(r: Report, field: string, v: Bson) {
    if field in r.dateFields then v.Str? && r.parseDay(v.s).Some?
    else if IsPlainField(r, field) then true
    else v.Num? || v.Bool? || (v.Str? && r.parseInt(v.s).Some?)
  }

  predicate Acceptable(r: Report, field: string, operator: string, v: Bson) {
    || v in EMPTY
    || if operator in {"in", "not in"} && v.Arr? then forall i :: 0 <= i < |v.items| ==> Readable(r, field, v.items[i])
       else Readable(r, field, v)
  }

  /**
   A rule builds when its operator is one of twelve and its value is empty, or readable - a list, item by item. Else a
   bad value is reported before a bad operator.
   */
  lemma RuleBuildsIff(r: Report, field: string, operator: string, v: Raw)
    ensures OneRule(r, field, operator, v).Ok? <==> operator in OPERATORS && Acceptable(r, field, operator, v)
    ensures OneRule(r, field, operator, v) == Err(RuleError) <==> !Acceptable(r, field, operator, v)
    ensures OneRule(r, field, operator, v) == Err(InvalidOperator) <==>
              Acceptable(r, field, operator, v) && operator !in OPERATORS
  {
    hide OneRule, Acceptable, Coerce, ParseOperator;
    RuleAccepted(r, field, operator, v);
    OperatorKnown(operator);
    CoercedIff(r, field, operator, v);
  }

  lemma CoercedIff(r: Report, field: string, operator: string, v: Raw)
    ensures Coerce(r, field, operator, v).Some? <==> Acceptable(r, field, operator, v)
  {
    EmptyIsFalsy(v);
    forall x: Bson
      ensures Readable(r, field, x) <==> Sense(r, field, x).Some?
    {
    }
    hide Falsy, Readable, Sense, Convert, ConvertAll;
    if v.Arr? {
      ConvertedAll(r, field, v.items);
    }
    ConvertedSense(r, field, v);
  }

  lemma OperatorKnown(operator: string)
    ensures ParseOperator(operator).Some? <==> operator in OPERATORS
  {
  }

  lemma EmptyIsFalsy(v: Bson)
    ensures Falsy(v) <==> v in EMPTY
  {
  }

  // ------------------------------------------------------------------ texts and lists

  // A field that is compared as it is: no date, no number, no reference
  predicate IsPlainField(r: Report, field: string) {
    field !in r.dateFields && field !in r.numberFields && field !in r.refFields && field !in r.refSectionFields
  }

  lemma PlainRuleMeans(r: Report, field: string, operator: string, op: Operator, v: Raw, o: Object)
    requires o.typeId == r.typeId && IsPlainField(r, field) && ParseOperator(operator) == Some(op)
    ensures Selects(r, field, operator, v, o) <==> RuleTrue(r, o, op, field, v)
  {
    hide RuleTrue, Selects, Keeps;
    PlainWanted(r, field, op, v);
    RuleBuilds(r, field, operator, v);
    OneRuleMeansIff(r, field, operator, v, o);
    LosslessKeeps(r, o, field, op, v);
  }

  lemma PlainWanted(r: Report, field: string, op: Operator, v: Raw)
    requires IsPlainField(r, field)
    ensures Wanted(r, field, op, v) == Some(v) && Lossless(r, field, op, v)
  {
    if v.Arr? && op in {InOp, NotInOp} && !Falsy(v) {
      assert Wanted(r, field, op, v).value.items == v.items;
    }
  }

  /**
   On a field compared as it is: "contains" finds the text in a stored text as both are written, "like" whatever the
   case; "in" and "not in" look for the items, "=" and "!=" for the value.
   */
  lemma PlainTextsSelect(r: Report, field: string, v: Raw, o: Object)
    requires o.typeId == r.typeId && IsPlainField(r, field)
    ensures Selects(r, field, "contains", v, o) <==>
            exists e, s :: Carries(r, o, field, e) && HasValue(e, Str(s)) && Contains(s, r.text(v))
    ensures Selects(r, field, "like", v, o) <==>
            exists e, s :: Carries(r, o, field, e) && HasValue(e, Str(s)) && Contains(Lower(s), Lower(r.text(v)))
    ensures Selects(r, field, "=", v, o) <==> exists e :: Carries(r, o, field, e) && HasValue(e, v)
    ensures Selects(r, field, "!=", v, o) <==> exists e :: Carries(r, o, field, e) && !HasValue(e, v)
    ensures v.Arr? ==>
              (Selects(r, field, "in", v, o) <==> exists e, x :: Carries(r, o, field, e) && HasValue(e, x) && x in v.items)
    ensures v.Arr? ==>
              (Selects(r, field, "not in", v, o) <==>
               exists e :: Carries(r, o, field, e) && forall x :: x in v.items ==> !HasValue(e, x))
  {
    hide Carries, Selects;
    OperatorNames();
    OtherNames();
    PlainRuleMeans(r, field, "contains", ContainsOp, v, o);
    PlainRuleMeans(r, field, "like", LikeOp, v, o);
    PlainRuleMeans(r, field, "=", EqOp, v, o);
    PlainRuleMeans(r, field, "!=", NeOp, v, o);
    PlainRuleMeans(r, field, "in", InOp, v, o);
    PlainRuleMeans(r, field, "not in", NotInOp, v, o);
    TextRulesTrue(r, o, field, v);
    ValueRulesTrue(r, o, field, v);
    hide RuleTrue, HasValue, Contains, Lower;
  }

  lemma OtherNames()
    ensures ParseOperator("contains") == Some(ContainsOp) && ParseOperator("like") == Some(LikeOp)
    ensures ParseOperator("in") == Some(InOp) && ParseOperator("not in") == Some(NotInOp)
  {
  }

  lemma TextRulesTrue(r: Report, o: Object, field: string, v: Bson)
    ensures RuleTrue(r, o, ContainsOp, field, v) <==>
            exists e, s :: Carries(r, o, field, e) && HasValue(e, Str(s)) && Contains(s, r.text(v))
    ensures RuleTrue(r, o, LikeOp, field, v) <==>
            exists e, s :: Carries(r, o, field, e) && HasValue(e, Str(s)) && Contains(Lower(s), Lower(r.text(v)))
  {
    hide Carries, HasValue, Contains, Lower;
  }

  lemma ValueRulesTrue(r: Report, o: Object, field: string, v: Raw)
    ensures RuleTrue(r, o, EqOp, field, v) <==> exists e :: Carries(r, o, field, e) && HasValue(e, v)
    ensures RuleTrue(r, o, NeOp, field, v) <==> exists e :: Carries(r, o, field, e) && !HasValue(e, v)
    ensures v.Arr? ==>
              (RuleTrue(r, o, InOp, field, v) <==> exists e, x :: Carries(r, o, field, e) && HasValue(e, x) && x in v.items)
    ensures v.Arr? ==>
              (RuleTrue(r, o, NotInOp, field, v) <==>
               exists e :: Carries(r, o, field, e) && forall x :: x in v.items ==> !HasValue(e, x))
  {
    hide Carries, HasValue;
    forall e
      ensures v.Arr? ==> (EntryHolds(r, NotInOp, e, v) <==> forall x :: x in v.items ==> !HasValue(e, x))
      ensures EntryHolds(r, EqOp, e, v) <==> HasValue(e, v)
      ensures EntryHolds(r, NeOp, e, v) <==> !HasValue(e, v)
    {
    }
  }

  /** A text is found where it stands between two others. */
  lemma ContainsIff(s: string, needle: string)
    ensures Contains(s, needle) <==> exists before, after :: s == before + needle + after
  {
    if i :| 0 <= i <= |s| && OccursAt(s, needle, i) {
      assert s == s[..i] + needle + s[i + |needle|..];
    }
    if before, after :| s == before + needle + after {
      assert OccursAt(s, needle, |before|);
    }
  }

  // ------------------------------------------------------------------ numbers

  /** On one stored number the six comparisons with a whole number mean what they mean on numbers. */
  lemma NumbersAreCoherent(r: Report, field: string, n: int, o: Object, e: Entry, x: real)
    requires field in r.numberFields + r.refFields + r.refSectionFields && field !in r.dateFields
    requires o.typeId == r.typeId && OnlyEntry(r, o, field, e) && e.value == Some(Num(x))
    ensures Selects(r, field, "=", Num(n as real), o) <==> x == n as real
    ensures Selects(r, field, "!=", Num(n as real), o) <==> x != n as real
    ensures Selects(r, field, "<", Num(n as real), o) <==> x < n as real
    ensures Selects(r, field, "<=", Num(n as real), o) <==> x <= n as real
    ensures Selects(r, field, ">", Num(n as real), o) <==> x > n as real
    ensures Selects(r, field, ">=", Num(n as real), o) <==> x >= n as real
  {
    hide Selects, ParseOperator, OnlyEntry;
    OperatorNames();
    NumberSelected(r, field, "=", EqOp, n, o, e, x);
    NumberSelected(r, field, "!=", NeOp, n, o, e, x);
    NumberSelected(r, field, "<", LtOp, n, o, e, x);
    NumberSelected(r, field, "<=", LteOp, n, o, e, x);
    NumberSelected(r, field, ">", GtOp, n, o, e, x);
    NumberSelected(r, field, ">=", GteOp, n, o, e, x);
  }

  predicate Compares(op: Operator, x: real, n: real)
    requires op in {EqOp, NeOp, LtOp, LteOp, GtOp, GteOp}
  {
    match op
    case EqOp => x == n
    case NeOp => x != n
    case LtOp => x < n
    case LteOp => x <= n
    case GtOp => x > n
    case _ => x >= n
  }

  lemma NumberSelected(r: Report, field: string, operator: string, op: Operator, n: int, o: Object, e: Entry, x: real)
    requires ParseOperator(operator) == Some(op) && op in {EqOp, NeOp, LtOp, LteOp, GtOp, GteOp}
    requires field in r.numberFields + r.refFields + r.refSectionFields && field !in r.dateFields
    requires o.typeId == r.typeId && OnlyEntry(r, o, field, e) && e.value == Some(Num(x))
    ensures Selects(r, field, operator, Num(n as real), o) <==> Compares(op, x, n as real)
  {
    hide Selects, RuleTrue, Keeps, OnlyEntry;
    var v := Num(n as real);
    assert Wanted(r, field, op, v) == Some(v) && WholeNumber(v);
    RuleBuilds(r, field, operator, v);
    OneRuleMeansIff(r, field, operator, v, o);
    LosslessKeeps(r, o, field, op, v);
    OneNumberTrue(r, o, op, field, n as real, e, x);
  }

  lemma OneNumberTrue(r: Report, o: Object, op: Operator, field: string, n: real, e: Entry, x: real)
    requires op in {EqOp, NeOp, LtOp, LteOp, GtOp, GteOp} && OnlyEntry(r, o, field, e) && e.value == Some(Num(x))
    ensures RuleTrue(r, o, op, field, Num(n)) <==> Compares(op, x, n)
  {
    hide Carries;
    NumberSelects(r, o, op, field, n);
    assert forall y :: HasValue(e, Num(y)) <==> y == x;
    hide RuleTrue;
    assert HoldsNumber(r, o, field, x) && forall y :: HoldsNumber(r, o, field, y) ==> y == x;
    assert LacksNumber(r, o, field, n) <==> x != n;
  }

  // ------------------------------------------------------------------ no condition

  /** Without a condition or without rules a report is every object of its type; rules that are no list are refused. */
  lemma NoConditionSelectsType(r: Report, condition: Option<string>, rules: Option<Rules>, o: Object)
    ensures condition in {None, Some("")} || rules in {None, Some(RuleList([])), Some(NotAList(false))} ==>
              && Build(r, condition, rules).Ok?
              && (Matches(Build(r, condition, rules).value, ObjectDoc(o)) <==> o.typeId == r.typeId)
    ensures condition !in {None, Some("")} && rules == Some(NotAList(true)) ==> Build(r, condition, rules) == Err(RulesetError)
    ensures condition !in {None, Some(""), Some("and"), Some("or")} && rules !in {None, Some(RuleList([])), Some(NotAList(false))} ==>
              Build(r, condition, rules) == Err(RulesetError)
  {
    TypeMatches(r.typeId, o);
  }
}
