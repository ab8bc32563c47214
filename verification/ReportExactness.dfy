/** The rules that are compiled to their meaning on every object: a condition on the rule alone. */
module ReportExactness {
  import opened Prelude
  import opened Documents
  import opened MongoQuery
  import opened QueryBuilder
  import opened ReportMeaning
  import opened ReportSelection
  import opened ReportCorrectness

  // ------------------------------------------------------------------ the condition

  predicate WholeNumber(v: Bson) {
    v.Num? ==> v.n == v.n.Floor as real
  }

  /**
   Nothing is lost by cutting fractions: the operator compares no number with one, and searches for no text that
   would read otherwise without it.
   */
  predicate Lossless(r: Report, field: string, op: Operator, wanted: Bson) {
    field !in r.dateFields && IsNumberField(r, field) ==>
      match op
      case InOp => wanted.Arr? ==> forall i :: 0 <= i < |wanted.items| ==> WholeNumber(wanted.items[i])
      case NotInOp => wanted.Arr? ==> forall i :: 0 <= i < |wanted.items| ==> WholeNumber(wanted.items[i])
      case ContainsOp => wanted.Num? ==> r.text(Cut(r, field, wanted)) == r.text(wanted)
      case LikeOp => wanted.Num? ==> Lower(r.text(Cut(r, field, wanted))) == Lower(r.text(wanted))
      case IsNullOp => true
      case IsNotNullOp => true
      case _ => WholeNumber(wanted)
  }

  // The rule compares a day for equality
  predicate OneDay(op: Operator, wanted: Bson) {
    wanted.Date? && op in {EqOp, NeOp}
  }

  // ------------------------------------------------------------------ it is enough

  lemma WholeIsUncut(r: Report, field: string, v: Bson)
    ensures Cut(r, field, v) == v <==> (field !in r.dateFields && IsNumberField(r, field) ==> WholeNumber(v))
    ensures WholeNumber(Cut(r, field, v)) || !(field !in r.dateFields && IsNumberField(r, field))
  {
    if v.Num? {
      WholeCut(v.n.Floor);
      WholeCut(Truncate(v.n));
    }
  }

  lemma LosslessKeeps(r: Report, o: Object, field: string, op: Operator, v: Raw)
    requires Wanted(r, field, op, v).Some? && !Wanted(r, field, op, v).value.Date?
    requires Lossless(r, field, op, Wanted(r, field, op, v).value)
    ensures Keeps(r, o, op, field, v, Wanted(r, field, op, v).value)
  {
    var wanted := Wanted(r, field, op, v).value;
    WholeIsUncut(r, field, wanted);
    match wanted
    case Num(n) =>
      if WholeNumber(wanted) {
        NumberKeepsIff(r, o, op, field, n, n);
      }
    case Arr(items) =>
      forall i | op in {InOp, NotInOp} && 0 <= i < |items|
        ensures Cut(r, field, items[i]) == items[i]
      {
        WholeIsUncut(r, field, items[i]);
      }
      var carried := Carried(r, field, op, v, wanted);
      if carried.Arr? && op in {InOp, NotInOp} {
        assert carried.items == items;
        SameListKeeps(r, o, op, field, items);
      }
    case _ =>
  }

  // ------------------------------------------------------------------ it is needed

  // An object of the report's type with the field in one entry, flat or in a row as its reports look for it
  function Sole(r: Report, field: string, v: Bson): Object {
    var entries := [Entry(field, Some(v), None)];
    if field in r.mdsFields then Object(r.typeId, [], [Section("", [Row(entries)])]) else Object(r.typeId, entries, [])
  }

  lemma SoleCarries(r: Report, field: string, v: Bson)
    ensures forall e :: Carries(r, Sole(r, field, v), field, e) <==> e == Entry(field, Some(v), None)
  {
    var o, e := Sole(r, field, v), Entry(field, Some(v), None);
    if field in r.mdsFields {
      assert o.sections[0] in o.sections && o.sections[0].rows[0] in o.sections[0].rows && o.sections[0].rows[0].data[0] == e;
    } else {
      assert o.fields[0] == e;
    }
  }

  // An object on which the number rule loses its meaning
  function Between(r: Report, op: Operator, n: real, t: real): Bson {
    match op
    case LtOp => Num(Lesser(n, t))
    case GteOp => Num(Lesser(n, t))
    case LteOp => Num(Greater(n, t))
    case GtOp => Num(Greater(n, t))
    case ContainsOp => Str(r.text(Num(if Contains(r.text(Num(n)), r.text(Num(t))) then t else n)))
    case LikeOp => Str(r.text(Num(if Contains(Lower(r.text(Num(n))), Lower(r.text(Num(t)))) then t else n)))
    case _ => Num(n)
  }

  lemma ContainsItself(s: string)
    ensures Contains(s, s)
  {
    assert OccursAt(s, s, 0);
  }

  lemma ContainEachOther(s: string, t: string)
    requires Contains(s, t) && Contains(t, s)
    ensures s == t
  {
    var i :| 0 <= i <= |s| && OccursAt(s, t, i);
    var j :| 0 <= j <= |t| && OccursAt(t, s, j);
    assert s[i..i + |t|] == s;
  }

  lemma NumberLost(r: Report, field: string, op: Operator, n: real, t: real)
    requires op in {EqOp, NeOp, LtOp, LteOp, GtOp, GteOp} && n != t
    ensures !NumberKeeps(r, Sole(r, field, Between(r, op, n, t)), op, field, n, t)
  {
    var v := Between(r, op, n, t);
    var o, e := Sole(r, field, v), Entry(field, Some(v), None);
    SoleCarries(r, field, v);
    hide Carries, Sole;
    assert HasValue(e, v) && forall x :: HasValue(e, Num(x)) ==> Num(x) == v;
    assert HoldsNumber(r, o, field, v.n) && forall x :: HoldsNumber(r, o, field, x) ==> x == v.n;
  }

  // What the text rules and the list rules see of the one value
  lemma SoleText(r: Report, field: string, s: string, needle: string, ignoreCase: bool)
    ensures HoldsText(r, Sole(r, field, Str(s)), field, needle, ignoreCase) <==>
            if ignoreCase then Contains(Lower(s), Lower(needle)) else Contains(s, needle)
  {
    var e := Entry(field, Some(Str(s)), None);
    SoleCarries(r, field, Str(s));
    hide Carries, Sole;
    assert forall s' :: HasValue(e, Str(s')) <==> s' == s;
    assert Carries(r, Sole(r, field, Str(s)), field, e) && HasValue(e, Str(s));
  }

  lemma SoleList(r: Report, field: string, v: Bson, items: seq<Bson>, others: seq<Bson>)
    requires v.Num?
    ensures HoldsOneOf(r, Sole(r, field, v), field, items, others) <==> v in items && v !in others
    ensures HoldsOneOfBoth(r, Sole(r, field, v), field, items, others) <==> v in items && v in others
    ensures LacksAllOf(r, Sole(r, field, v), field, items) <==> v !in items
  {
    var e := Entry(field, Some(v), None);
    SoleCarries(r, field, v);
    hide Carries, Sole;
    assert forall x :: HasValue(e, x) <==> x == v;
    assert Carries(r, Sole(r, field, v), field, e) && HasValue(e, v);
  }

  lemma TextLost(r: Report, field: string, op: Operator, n: real, t: real)
    requires op == ContainsOp ==> r.text(Num(n)) != r.text(Num(t))
    requires op == LikeOp ==> Lower(r.text(Num(n))) != Lower(r.text(Num(t)))
    requires op in {ContainsOp, LikeOp}
    ensures !NumberKeeps(r, Sole(r, field, Between(r, op, n, t)), op, field, n, t)
  {
    var text := Between(r, op, n, t).s;
    SoleText(r, field, text, r.text(Num(n)), op == LikeOp);
    SoleText(r, field, text, r.text(Num(t)), op == LikeOp);
    hide HoldsText, Sole, Contains;
    var withFraction, without := r.text(Num(n)), r.text(Num(t));
    ContainsItself(text);
    ContainsItself(Lower(text));
    if op == ContainsOp && Contains(withFraction, without) && Contains(without, withFraction) {
      ContainEachOther(withFraction, without);
    }
    if op == LikeOp && Contains(Lower(withFraction), Lower(without)) && Contains(Lower(without), Lower(withFraction)) {
      ContainEachOther(Lower(withFraction), Lower(without));
    }
  }

  lemma ListLost(r: Report, field: string, op: Operator, items: seq<Bson>, cut: seq<Bson>, i: nat)
    requires op in {InOp, NotInOp} && i < |items| && items[i].Num? && items[i] !in cut
    ensures !ListKeeps(r, Sole(r, field, items[i]), op, field, items, cut)
  {
    SoleList(r, field, items[i], items, cut);
    SoleList(r, field, items[i], cut, items);
  }

  lemma DayLost(r: Report, field: string, op: Operator, day: int)
    requires op in {EqOp, NeOp}
    ensures !DayKeeps(r, Sole(r, field, Around(day)), op, field, day)
  {
    var e := Entry(field, Some(Around(day)), None);
    SoleCarries(r, field, Around(day));
    AroundStraddles(e, day);
    hide Carries, Sole;
  }

  // The day before and the day after
  function Around(day: int): Bson {
    Arr([Date(Midnight(day - 1)), Date(Midnight(day + 1))])
  }

  lemma AroundStraddles(e: Entry, day: int)
    requires e.value == Some(Around(day))
    ensures Straddles(e, day)
  {
    var items := Around(day).items;
    assert items[0] == Date(Midnight(day - 1)) && items[1] == Date(Midnight(day + 1));
    assert DayOf(Midnight(day - 1)) == day - 1 && DayOf(Midnight(day + 1)) == day + 1;
    assert HasValue(e, items[0]) && HasValue(e, items[1]);
  }

  // An object on which the rule loses its meaning
  lemma Losing(r: Report, field: string, op: Operator, v: Raw) returns (o: Object)
    requires Wanted(r, field, op, v).Some?
    requires var wanted := Wanted(r, field, op, v).value; !Lossless(r, field, op, wanted) || OneDay(op, wanted)
    ensures !Keeps(r, o, op, field, v, Wanted(r, field, op, v).value)
  {
    var wanted := Wanted(r, field, op, v).value;
    match wanted
    case Date(ms) =>
      DayLost(r, field, op, DayOf(ms));
      o := Sole(r, field, Around(DayOf(ms)));
    case Num(n) =>
      var t := Truncate(n) as real;
      WholeIsUncut(r, field, wanted);
      assert Truncate(0.0) == 0;
      if op in {ContainsOp, LikeOp} {
        TextLost(r, field, op, n, t);
      } else {
        NumberLost(r, field, op, n, t);
      }
      o := Sole(r, field, Between(r, op, n, t));
    case Arr(items) =>
      var cut := Carried(r, field, op, v, wanted).items;
      var i :| 0 <= i < |items| && !WholeNumber(items[i]);
      forall j | 0 <= j < |items|
        ensures WholeNumber(cut[j])
      {
        WholeIsUncut(r, field, items[j]);
      }
      ListLost(r, field, op, items, cut, i);
      o := Sole(r, field, items[i]);
  }

  // ------------------------------------------------------------------ both

  lemma AlwaysKeepsIff(r: Report, field: string, op: Operator, v: Raw)
    requires Wanted(r, field, op, v).Some?
    ensures var wanted := Wanted(r, field, op, v).value;
            (forall o :: Keeps(r, o, op, field, v, wanted)) <==> Lossless(r, field, op, wanted) && !OneDay(op, wanted)
  {
    var wanted := Wanted(r, field, op, v).value;
    if !Lossless(r, field, op, wanted) || OneDay(op, wanted) {
      var o := Losing(r, field, op, v);
      assert !Keeps(r, o, op, field, v, wanted);
    } else if !wanted.Date? {
      forall o
        ensures Keeps(r, o, op, field, v, wanted)
      {
        LosslessKeeps(r, o, field, op, v);
      }
    }
  }

  /**
   A rule is compiled to its meaning, whatever the object, if and only if it compares no number or reference field
   with a fraction, searches it for no text that a cut fraction changes, and asks for no day by "=" or "!=".
   */
  lemma RuleAlwaysMeansIff(r: Report, field: string, operator: string, v: Raw)
    requires BuildRule(r, field, operator, v).Ok?
    ensures var op := ParseOperator(operator).value;
            && Wanted(r, field, op, v).Some?
            && var wanted := Wanted(r, field, op, v).value;
               (forall o :: Matches(BuildRule(r, field, operator, v).value, ObjectDoc(o)) <==> RuleTrue(r, o, op, field, wanted))
               <==> Lossless(r, field, op, wanted) && !OneDay(op, wanted)
  {
    var op := ParseOperator(operator).value;
    RuleBuilds(r, field, operator, v);
    AlwaysKeepsIff(r, field, op, v);
    forall o
      ensures var wanted := Wanted(r, field, op, v).value;
              (Matches(BuildRule(r, field, operator, v).value, ObjectDoc(o)) <==> RuleTrue(r, o, op, field, wanted))
              <==> Keeps(r, o, op, field, v, wanted)
    {
      RuleMeansIff(r, o, field, operator, v);
    }
  }

  // ------------------------------------------------------------------ whole trees

  // No rule of the tree loses a fraction, and no entry of the object straddles the day of a rule = or != on its field
  ghost predicate Plain(r: Report, o: Object, node: Node)
    requires WellFormed(r, node)
    decreases node
  {
    match node
    case Dict(Some(_), rules, _, _, _) =>
      forall i :: 0 <= i < |rules.value.nodes| ==> Plain(r, o, rules.value.nodes[i])
    case Dict(None, _, field, operator, value) =>
      var op := ParseOperator(operator.value).value;
      var wanted := Wanted(r, field.value, op, value).value;
      && Lossless(r, field.value, op, wanted)
      && (OneDay(op, wanted) ==> forall e :: Carries(r, o, field.value, e) ==> !Straddles(e, DayOf(wanted.ms)))
  }

  lemma {:induction false} PlainKeeps(r: Report, o: Object, node: Node)
    requires WellFormed(r, node) && Plain(r, o, node)
    ensures TreeKeeps(r, o, node)
    decreases node
  {
    match node
    case Dict(Some(_), rules, _, _, _) =>
      forall i | 0 <= i < |rules.value.nodes|
        ensures TreeKeeps(r, o, rules.value.nodes[i])
      {
        PlainKeeps(r, o, rules.value.nodes[i]);
      }
    case Dict(None, _, field, operator, value) =>
      var op := ParseOperator(operator.value).value;
      if !Wanted(r, field.value, op, value).value.Date? {
        LosslessKeeps(r, o, field.value, op, value);
      }
  }

  /**
   So a tree that loses no fraction, over an object without a list that straddles a day asked for by = or !=, is
   compiled to its meaning.
   */
  lemma PlainQueryMeansTree(r: Report, condition: Option<string>, rules: Option<Rules>, o: Object)
    requires Build(r, condition, rules).Ok?
    requires !Unconditional(condition, rules) && WellFormed(r, Root(condition, rules)) ==> Plain(r, o, Root(condition, rules))
    ensures !Unconditional(condition, rules) ==> WellFormed(r, Root(condition, rules))
    ensures Matches(Build(r, condition, rules).value, ObjectDoc(o)) <==>
            o.typeId == r.typeId && (Unconditional(condition, rules) || TreeTrue(r, o, Root(condition, rules)))
  {
    if !Unconditional(condition, rules) && WellFormed(r, Root(condition, rules)) {
      PlainKeeps(r, o, Root(condition, rules));
    }
    QueryMeansTree(r, condition, rules, o);
  }

  // ------------------------------------------------------------------ two inputs

  /** A list with the day before and the day after is selected by "= day", though nothing in it is on the day. */
  lemma StraddlingListSelected(r: Report, field: string, text: string, day: int)
    requires field in r.dateFields && text != "" && r.parseDay(text) == Some(day)
    ensures var o := Sole(r, field, Around(day));
            Selects(r, field, "=", Str(text), o) && !RuleTrue(r, o, EqOp, field, Date(Midnight(day)))
  {
    var o, e := Sole(r, field, Around(day)), Entry(field, Some(Around(day)), None);
    SoleCarries(r, field, Around(day));
    assert Wanted(r, field, EqOp, Str(text)) == Some(Date(Midnight(day)));
    assert DayOf(Midnight(day)) == day;
    AroundStraddles(e, day);
    RuleBuilds(r, field, "=", Str(text));
    OneRuleMeansIff(r, field, "=", Str(text), o);
    DayLost(r, field, EqOp, day);
    hide Selects, Carries, Sole, DayKeeps, Around;
    assert !EntryHolds(r, EqOp, e, Date(Midnight(day)));
  }

  // The number x satisfies the rule with n, but not the one with t
  lemma SatisfiesOne(r: Report, field: string, op: Operator, n: real, t: real, x: real)
    requires (op == EqOp && x == n && x != t) || (op == LteOp && t < x <= n)
    ensures RuleTrue(r, Sole(r, field, Num(x)), op, field, Num(n)) && !NumberKeeps(r, Sole(r, field, Num(x)), op, field, n, t)
  {
    var o, e := Sole(r, field, Num(x)), Entry(field, Some(Num(x)), None);
    SoleCarries(r, field, Num(x));
    hide Sole, Carries;
    assert forall y :: HasValue(e, Num(y)) <==> y == x;
    assert Carries(r, o, field, e) && EntryHolds(r, op, e, Num(n));
    assert HoldsNumber(r, o, field, x) && forall y :: HoldsNumber(r, o, field, y) ==> y == x;
  }

  /** int() cuts towards zero. */
  lemma CutTowardsZero(x: real)
    ensures x >= 0.0 ==> 0.0 <= Truncate(x) as real <= x < Truncate(x) as real + 1.0
    ensures x < 0.0 ==> Truncate(x) as real - 1.0 < x <= Truncate(x) as real <= 0.0
  {
  }

  // A number field holding x, and a rule of which that is true, but not of the number that is left of it
  lemma NumberMissed(r: Report, field: string, operator: string, op: Operator, n: real, x: real)
    requires field in r.numberFields && field !in r.dateFields && n != 0.0
    requires ParseOperator(operator) == Some(op)
    requires (op == EqOp && x == n && x != Truncate(n) as real) || (op == LteOp && Truncate(n) as real < x <= n)
    ensures var o := Sole(r, field, Num(x)); !Selects(r, field, operator, Num(n), o) && RuleTrue(r, o, op, field, Num(n))
  {
    hide RuleTrue, Selects, NumberKeeps;
    SatisfiesOne(r, field, op, n, Truncate(n) as real, x);
    RuleBuilds(r, field, operator, Num(n));
    OneRuleMeansIff(r, field, operator, Num(n), Sole(r, field, Num(x)));
  }

  /** A number field holding 12.5 is selected neither by "= 12.5" nor by "<= 12.7", of both of which it is true. */
  lemma FractionLost(r: Report, field: string)
    requires field in r.numberFields && field !in r.dateFields
    ensures var o := Sole(r, field, Num(12.5));
            && !Selects(r, field, "=", Num(12.5), o) && RuleTrue(r, o, EqOp, field, Num(12.5))
            && !Selects(r, field, "<=", Num(12.7), o) && RuleTrue(r, o, LteOp, field, Num(12.7))
  {
    assert Truncate(12.5) == 12 && Truncate(12.7) == 12;
    NumberMissed(r, field, "=", EqOp, 12.5, 12.5);
    NumberMissed(r, field, "<=", LteOp, 12.7, 12.5);
  }
}
