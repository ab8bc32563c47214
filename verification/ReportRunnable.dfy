/** Which built filters the server runs at all. */
module ReportRunnable {
  import opened Prelude
  import opened Documents
  import opened MongoQuery
  import opened QueryBuilder
  import opened ReportMeaning

  // ------------------------------------------------------------------ what the server runs

  // No empty group, and a list for every list operator
  predicate ServerReady(node: Node)
    decreases node
  {
    match node
    case NotADict => false
    case Dict(Some(_), rules, _, _, _) =>
      && rules.Some? && rules.value.RuleList? && rules.value.nodes != []
      && forall i :: 0 <= i < |rules.value.nodes| ==> ServerReady(rules.value.nodes[i])
    case Dict(None, _, _, operator, value) =>
      operator == Some("in") || operator == Some("not in") ==> value.Arr?
  }

  lemma RunnableElemMatch(path: seq<string>, field: string, fragment: seq<Test>)
    requires |fragment| > 0
    ensures Runnable(Clause(path, [ElemMatch(EntryMatch(field, fragment))])) <==>
            forall i :: 0 <= i < |fragment| ==> RunnableTest(fragment[i])
  {
    var inner := EntryMatch(field, fragment);
    var q := Clause(path, [ElemMatch(inner)]);
    assert Runnable(q) <==> RunnableTest(q.tests[0]);
    assert Runnable(inner) <==> Runnable(inner.parts[0]) && Runnable(inner.parts[1]);
    assert RunnableTest(Eq(Str(field)));
    assert Runnable(inner.parts[0]);
    assert inner.parts[1] == Clause(["value"], fragment);
  }

  lemma RuleRunnable(r: Report, field: string, operator: string, value: Raw)
    requires BuildRule(r, field, operator, value).Ok?
    ensures Runnable(BuildRule(r, field, operator, value).value) <==>
            (operator == "in" || operator == "not in" ==> value.Arr?)
  {
    OperatorText(operator);
    var v, op := Coerce(r, field, operator, value).value, ParseOperator(operator).value;
    var fragment := ValueFragment(r, op, v);
    var path := TargetPath(r, field);
    RunnableElemMatch(path, field, fragment);
    assert op.InOp? || op.NotInOp? ==> fragment == PlainFragment(r, op, v) && (v.Arr? <==> value.Arr?);
    assert (forall i :: 0 <= i < |fragment| ==> RunnableTest(fragment[i])) <==> (op.InOp? || op.NotInOp? ==> v.Arr?) by {
      assert RunnableTest(fragment[0]) || !RunnableTest(fragment[0]);
    }
    if op == IsNullOp {
      var none := Clause(path, [Not([ElemMatch(NameIs(field))])]);
      assert Runnable(NameIs(field));
      assert Runnable(none);
      var parts := CreateRule(r, op, field, v).parts;
      assert Runnable(CreateRule(r, op, field, v)) <==> Runnable(parts[0]) && Runnable(parts[1]);
    }
  }

  lemma {:induction false} NodeRunnable(r: Report, node: Node)
    requires BuildNode(r, node).Ok?
    ensures Runnable(BuildNode(r, node).value) <==> ServerReady(node)
    decreases node, 1
  {
    match node
    case Dict(Some(_), rules, _, _, _) =>
      NodesRunnable(r, rules.value.nodes);
    case Dict(None, _, Some(field), Some(operator), value) =>
      RuleRunnable(r, field, operator, value);
  }

  lemma {:induction false} NodesRunnable(r: Report, nodes: seq<Node>)
    requires BuildNodes(r, nodes).Ok?
    ensures |BuildNodes(r, nodes).value| == |nodes|
    ensures forall i :: 0 <= i < |nodes| ==> (Runnable(BuildNodes(r, nodes).value[i]) <==> ServerReady(nodes[i]))
    decreases nodes, 0
  {
    if nodes != [] {
      NodeRunnable(r, nodes[0]);
      NodesRunnable(r, nodes[1..]);
      var built := BuildNodes(r, nodes).value;
      forall i | 0 <= i < |nodes|
        ensures Runnable(built[i]) <==> ServerReady(nodes[i])
      {
        if i > 0 {
          assert built[i] == BuildNodes(r, nodes[1..]).value[i - 1] && nodes[i] == nodes[1..][i - 1];
        }
      }
    }
  }

  lemma TypeFilterRuns(r: Report)
    ensures Runnable(TypeIs(r.typeId))
  {
  }

  /** build() lets through what the server refuses exactly where a nested group is empty or a list operator has no list. */
  lemma BuiltQueryRunsIff(r: Report, condition: Option<string>, rules: Option<Rules>)
    requires Build(r, condition, rules).Ok?
    ensures Runnable(Build(r, condition, rules).value) <==>
            Unconditional(condition, rules) || ServerReady(Root(condition, rules))
  {
    if !Unconditional(condition, rules) {
      NodeRunnable(r, Root(condition, rules));
      var q := Build(r, condition, rules).value;
      assert q.parts[0] == BuildNode(r, Root(condition, rules)).value && q.parts[1] == TypeIs(r.typeId);
      TypeFilterRuns(r);
      hide BuildNode, BuildRuleset, ServerReady, TypeIs;
      assert Runnable(q) <==> Runnable(q.parts[0]) && Runnable(q.parts[1]);
    } else {
      TypeFilterRuns(r);
    }
  }
}
