/** The cascade changes exactly what its snapshot criteria select, and leaves no dangling reference however it ends. */
module PersonReferences {
  import opened Prelude
  import opened PersonCascade

  // ------------------------------------------------------------------ the assessments, as one change

  function Cleansed(a: RiskAssessment, kind: Kind, id: int): RiskAssessment {
    RiskAssessment(
      map key | key in a.references :: ClearedReference(a.references[key], kind, id),
      if kind == Person && a.riskAssessor == Some(id) then None else a.riskAssessor,
      if kind == Person then Without(a.interviewedPersons, id) else a.interviewedPersons)
  }

  lemma EveryKeyListed(key: Key)
    ensures key in POLYMORPHIC_KEYS
  {
    match key
    case RiskOwner => assert POLYMORPHIC_KEYS[0] == key;
    case ResponsiblePersons => assert POLYMORPHIC_KEYS[1] == key;
    case Auditor => assert POLYMORPHIC_KEYS[2] == key;
  }

  /** The assessments the cascade changes are exactly those its snapshot criteria match beforehand. */
  lemma ChangedIffCriteria(a: RiskAssessment, kind: Kind, id: int)
    ensures Cleansed(a, kind, id) != a <==> MeetsCriteria(a, kind, id)
  {
    var after := Cleansed(a, kind, id);
    if key :| key in POLYMORPHIC_KEYS && RefersAt(a, key, kind, id) {
      assert after.references[key].id == None;
    } else {
      forall key | key in a.references
        ensures after.references[key] == a.references[key]
      {
        EveryKeyListed(key);
        assert !RefersAt(a, key, kind, id);
      }
      assert after.references == a.references;
    }
    if kind == Person && id in a.interviewedPersons {
      assert id !in after.interviewedPersons;
    }
  }

  /** None matches afterwards, and every other reference stays - also one to the other kind under the same id. */
  lemma OnlyThoseReferencesGo(a: RiskAssessment, kind: Kind, id: int, otherKind: Kind, other: int)
    ensures MeetsCriteria(Cleansed(a, kind, id), otherKind, other)
       <==> MeetsCriteria(a, otherKind, other) && (otherKind, other) != (kind, id)
    ensures forall key :: RefersAt(Cleansed(a, kind, id), key, otherKind, other)
                     <==> RefersAt(a, key, otherKind, other) && (otherKind, other) != (kind, id)
  {
    var after := Cleansed(a, kind, id);
    forall key
      ensures RefersAt(after, key, otherKind, other) <==> RefersAt(a, key, otherKind, other) && (otherKind, other) != (kind, id)
    {
    }
  }

  // ------------------------------------------------------------------ the statements add up to it

  function Through(steps: seq<Step>, a: RiskAssessment): RiskAssessment
    decreases |steps|
  {
    if steps == [] then a else Through(steps[1..], OnAssessment(steps[0], a))
  }

  lemma {:induction false} ThroughConcat(a: seq<Step>, b: seq<Step>, doc: RiskAssessment)
    ensures Through(a + b, doc) == Through(b, Through(a, doc))
    decreases |a|
  {
    if a == [] {
      assert a + b == b;
    } else {
      ThroughConcat(a[1..], b, OnAssessment(a[0], doc));
      assert (a + b)[1..] == a[1..] + b;
    }
  }

  lemma OneStep(s: Step, doc: RiskAssessment)
    ensures Through([s], doc) == OnAssessment(s, doc)
  {
    assert [s][1..] == [];
  }

  // The references with the first n keys cleared
  function KeysCleared(a: RiskAssessment, kind: Kind, id: int, n: nat): RiskAssessment
    requires n <= |POLYMORPHIC_KEYS|
  {
    a.(references := map key | key in a.references ::
       if key in POLYMORPHIC_KEYS[..n] then ClearedReference(a.references[key], kind, id) else a.references[key])
  }

  lemma {:induction false} ThroughKeys(a: RiskAssessment, kind: Kind, id: int, n: nat)
    requires n <= |POLYMORPHIC_KEYS|
    ensures Through(ClearKeys(kind, id)[..n], a) == KeysCleared(a, kind, id, n)
  {
    var steps := ClearKeys(kind, id);
    if n == 0 {
      assert KeysCleared(a, kind, id, 0).references == a.references;
    } else {
      hide KeysCleared, OnAssessment;
      ThroughKeys(a, kind, id, n - 1);
      assert steps[..n] == steps[..n - 1] + [steps[n - 1]];
      ThroughConcat(steps[..n - 1], [steps[n - 1]], a);
      OneStep(steps[n - 1], KeysCleared(a, kind, id, n - 1));
      NextKeyCleared(a, kind, id, n);
    }
  }

  lemma NextKeyCleared(a: RiskAssessment, kind: Kind, id: int, n: nat)
    requires 0 < n <= |POLYMORPHIC_KEYS|
    ensures OnAssessment(ClearKeys(kind, id)[n - 1], KeysCleared(a, kind, id, n - 1)) == KeysCleared(a, kind, id, n)
  {
    var key := POLYMORPHIC_KEYS[n - 1];
    assert POLYMORPHIC_KEYS[..n] == POLYMORPHIC_KEYS[..n - 1] + [key];
    assert key !in POLYMORPHIC_KEYS[..n - 1];
    assert OnAssessment(ClearKeys(kind, id)[n - 1], KeysCleared(a, kind, id, n - 1)).references
        == KeysCleared(a, kind, id, n).references;
  }

  lemma AllKeysCleared(a: RiskAssessment, kind: Kind, id: int)
    ensures Through(ClearKeys(kind, id), a).references == Cleansed(a, kind, id).references
    ensures Through(ClearKeys(kind, id), a) == a.(references := Cleansed(a, kind, id).references)
  {
    var n := |POLYMORPHIC_KEYS|;
    ThroughKeys(a, kind, id, n);
    assert ClearKeys(kind, id)[..n] == ClearKeys(kind, id) && POLYMORPHIC_KEYS[..n] == POLYMORPHIC_KEYS;
    forall key | key in a.references
      ensures key in POLYMORPHIC_KEYS
    {
      EveryKeyListed(key);
    }
    assert KeysCleared(a, kind, id, n).references == Cleansed(a, kind, id).references;
  }

  /** Run in order, the statements on the assessments are that one change. */
  lemma StatementsCleanse(a: RiskAssessment, kind: Kind, id: int)
    ensures Through(AssessmentSteps(kind, id), a) == Cleansed(a, kind, id)
  {
    if kind == Person {
      var afterFirst := OnAssessment(ClearAssessor(id), a);
      var afterKeys := Through(ClearKeys(kind, id), afterFirst);
      AllKeysCleared(afterFirst, kind, id);
      OneStep(ClearAssessor(id), a);
      OneStep(PullInterviewed(id), afterKeys);
      ThroughConcat([ClearAssessor(id)], ClearKeys(kind, id), a);
      ThroughConcat([ClearAssessor(id)] + ClearKeys(kind, id), [PullInterviewed(id)], a);
    } else {
      AllKeysCleared(a, kind, id);
    }
  }

  // ------------------------------------------------------------------ the whole database

  function ApplyAll(w: World, steps: seq<Step>): World
    decreases |steps|
  {
    if steps == [] then w else ApplyAll(Apply(w, steps[0], None), steps[1..])
  }

  lemma {:induction false} ApplyAllConcat(w: World, a: seq<Step>, b: seq<Step>)
    ensures ApplyAll(w, a + b) == ApplyAll(ApplyAll(w, a), b)
    decreases |a|
  {
    if a == [] {
      assert a + b == b;
    } else {
      ApplyAllConcat(Apply(w, a[0], None), a[1..], b);
      assert (a + b)[1..] == a[1..] + b;
    }
  }

  lemma {:induction false} DoneMeansAll(w: World, steps: seq<Step>, luck: seq<Luck>)
    requires RunSteps(w, steps, luck).done
    ensures RunSteps(w, steps, luck).world == ApplyAll(w, steps)
    decreases |steps|
  {
    if steps != [] {
      DoneMeansAll(Apply(w, steps[0], None), steps[1..], Rest(luck));
    }
  }

  predicate OnlyAssessments(s: Step) {
    s.ClearKey? || s.ClearAssessor? || s.PullInterviewed?
  }

  function ThroughWorld(w: World, steps: seq<Step>): World {
    w.(assessments := map i | i in w.assessments :: Through(steps, w.assessments[i]))
  }

  lemma {:induction false} AssessmentStepsOnly(w: World, steps: seq<Step>)
    requires forall i :: 0 <= i < |steps| ==> OnlyAssessments(steps[i])
    ensures ApplyAll(w, steps) == ThroughWorld(w, steps)
    decreases |steps|
  {
    if steps == [] {
      forall i | i in w.assessments
        ensures ThroughWorld(w, steps).assessments[i] == w.assessments[i]
      {
      }
      assert ThroughWorld(w, steps).assessments == w.assessments;
    } else {
      var next := Apply(w, steps[0], None);
      AssessmentStepsOnly(next, steps[1..]);
      assert ThroughWorld(next, steps[1..]).assessments == ThroughWorld(w, steps).assessments;
    }
  }

  // The database without any reference to the one deleted
  function CleansedWorld(w: World, kind: Kind, id: int): World {
    World(map i | i in w.assessments :: Cleansed(w.assessments[i], kind, id),
          map i | i in w.assignments :: ClearedReference(w.assignments[i], kind, id),
          if kind == Person then w.persons else PulledFrom(w.persons, id, None),
          if kind == Person then PulledFrom(w.groups, id, None) else w.groups)
  }

  lemma ThroughIsCleansed(w: World, kind: Kind, id: int)
    ensures ThroughWorld(w, AssessmentSteps(kind, id)).assessments == CleansedWorld(w, kind, id).assessments
  {
    hide Through, AssessmentSteps, Cleansed;
    forall i | i in w.assessments
      ensures Through(AssessmentSteps(kind, id), w.assessments[i]) == Cleansed(w.assessments[i], kind, id)
    {
      StatementsCleanse(w.assessments[i], kind, id);
    }
  }

  lemma StepsStayWithAssessments(kind: Kind, id: int)
    ensures forall i :: 0 <= i < |AssessmentSteps(kind, id)| ==> OnlyAssessments(AssessmentSteps(kind, id)[i])
  {
  }

  lemma AssessmentsCleansed(w: World, kind: Kind, id: int)
    ensures ApplyAll(w, AssessmentSteps(kind, id)) == w.(assessments := CleansedWorld(w, kind, id).assessments)
  {
    StepsStayWithAssessments(kind, id);
    hide ApplyAll, AssessmentSteps, OnlyAssessments;
    AssessmentStepsOnly(w, AssessmentSteps(kind, id));
    ThroughIsCleansed(w, kind, id);
  }

  lemma RemainderCleansed(w: World, kind: Kind, id: int)
    ensures Apply(Apply(w, ClearResponsible(kind, id), None), MembershipStep(kind, id), None)
         == CleansedWorld(w, kind, id).(assessments := w.assessments)
  {
    var first := Apply(w, ClearResponsible(kind, id), None);
    assert first.assignments == CleansedWorld(w, kind, id).assignments;
  }

  lemma ClearingCleanses(w: World, kind: Kind, id: int)
    ensures ApplyAll(w, ClearingSteps(kind, id)) == CleansedWorld(w, kind, id)
  {
    var assessments := AssessmentSteps(kind, id);
    var responsible, membership := [ClearResponsible(kind, id)], [MembershipStep(kind, id)];
    ApplyAllConcat(w, assessments + responsible, membership);
    ApplyAllConcat(w, assessments, responsible);
    AssessmentsCleansed(w, kind, id);
    var first := ApplyAll(w, assessments);
    assert responsible[1..] == [] && membership[1..] == [];
    RemainderCleansed(first, kind, id);
  }

  /**
   A delete that raises nothing: what the snapshot criteria selected is cleared, everything else is what it was, the
   document is gone, and the answer says whether it was there.
   */
  lemma DeletionExact(w: World, kind: Kind, id: int, luck: seq<Luck>)
    requires Deletion(w, kind, id, luck).1.Some?
    ensures var (after, deleted) := Deletion(w, kind, id, luck);
            var cleansed := CleansedWorld(w, kind, id);
            && deleted == Some(id in Members(w, kind))
            && after.assessments == cleansed.assessments && after.assignments == cleansed.assignments
            && after.persons == (if kind == Person then cleansed.persons - {id} else cleansed.persons)
            && after.groups == (if kind == Person then cleansed.groups else cleansed.groups - {id})
  {
    var cleared := RunSteps(w, ClearingSteps(kind, id), luck);
    DoneMeansAll(w, ClearingSteps(kind, id), luck);
    ClearingCleanses(w, kind, id);
    DoneMeansAll(cleared.world, [Drop(kind, id)], cleared.luck);
    assert [Drop(kind, id)][1..] == [];
  }

  // ------------------------------------------------------------------ when it answers

  // The statements all run exactly when none of their lucks is a broken one
  lemma {:induction false} DoneIff(w: World, steps: seq<Step>, luck: seq<Luck>)
    ensures RunSteps(w, steps, luck).done <==> forall i :: 0 <= i < |steps| && i < |luck| ==> luck[i].Fine?
    ensures RunSteps(w, steps, luck).done ==>
              RunSteps(w, steps, luck).luck == if |steps| <= |luck| then luck[|steps|..] else []
    decreases |steps|
  {
    if steps != [] {
      var rest := Rest(luck);
      assert forall i :: 0 <= i < |rest| ==> rest[i] == luck[i + 1];
      if Head(luck).Fine? {
        DoneIff(Apply(w, steps[0], None), steps[1..], rest);
        assert (forall i :: 0 <= i < |steps[1..]| && i < |rest| ==> rest[i].Fine?) <==>
               forall i :: 0 < i < |steps| && i < |luck| ==> luck[i].Fine? by {
          assert forall i :: 0 < i < |luck| ==> luck[i] == rest[i - 1];
        }
      }
    }
  }

  // A person has eight statements, the delete itself included, a group six
  function Statements(kind: Kind): nat {
    if kind == Person then 8 else 6
  }

  lemma ClearingCount(kind: Kind, id: int)
    ensures |ClearingSteps(kind, id)| == Statements(kind) - 1
  {
  }

  /**
   A delete answers unless one of its statements raises. Its answer says whether the document was there, and then it
   is not there any more: in particular, a delete that meets no fault succeeds.
   */
  lemma DeletionAnswersIff(w: World, kind: Kind, id: int, luck: seq<Luck>)
    ensures var (after, deleted) := Deletion(w, kind, id, luck);
            && (deleted == None <==> exists i :: 0 <= i < |luck| && i < Statements(kind) && luck[i].Broken?)
            && (deleted.Some? ==> deleted.value == (id in Members(w, kind)) && Members(after, kind) == Members(w, kind) - {id})
  {
    var steps := ClearingSteps(kind, id);
    var cleared := RunSteps(w, steps, luck);
    ClearingCount(kind, id);
    DoneIff(w, steps, luck);
    hide ClearingSteps, Apply;
    if cleared.done {
      DoneIff(cleared.world, [Drop(kind, id)], cleared.luck);
      assert |steps| < |luck| ==> cleared.luck[0] == luck[|steps|];
      if Deletion(w, kind, id, luck).1.Some? {
        DeletionExact(w, kind, id, luck);
      }
    }
  }

  // ------------------------------------------------------------------ when it breaks off

  // Each reference is what it was, or cleared as the cascade clears it
  predicate Between(a: RiskAssessment, now: RiskAssessment, kind: Kind, id: int) {
    && now.references.Keys == a.references.Keys
    && (forall key :: key in a.references ==>
          now.references[key] in {a.references[key], ClearedReference(a.references[key], kind, id)})
    && now.riskAssessor in {a.riskAssessor, Cleansed(a, kind, id).riskAssessor}
    && now.interviewedPersons in {a.interviewedPersons, Cleansed(a, kind, id).interviewedPersons}
  }

  ghost predicate WorldBetween(w: World, now: World, kind: Kind, id: int) {
    && now.assessments.Keys == w.assessments.Keys && now.assignments.Keys == w.assignments.Keys
    && (forall i :: i in w.assessments ==> Between(w.assessments[i], now.assessments[i], kind, id))
    && (forall i :: i in w.assignments ==>
          now.assignments[i] in {w.assignments[i], ClearedReference(w.assignments[i], kind, id)})
    && ListsBetween(w.persons, now.persons, kind == PersonGroup, id)
    && ListsBetween(w.groups, now.groups, kind == Person, id)
  }

  ghost predicate ListsBetween(docs: map<int, seq<int>>, now: map<int, seq<int>>, pulled: bool, id: int) {
    && now.Keys == docs.Keys
    && forall i :: i in docs ==> now[i] == docs[i] || (pulled && now[i] == Without(docs[i], id))
  }

  lemma {:induction false} WithoutTwice(ids: seq<int>, id: int)
    ensures Without(Without(ids, id), id) == Without(ids, id)
  {
  }

  lemma StepBetween(a: RiskAssessment, now: RiskAssessment, s: Step, kind: Kind, id: int)
    requires Between(a, now, kind, id) && s in ClearingSteps(kind, id)
    ensures Between(a, OnAssessment(s, now), kind, id)
  {
    WithoutTwice(a.interviewedPersons, id);
    ClearingStep(s, kind, id);
  }

  lemma ClearingStep(s: Step, kind: Kind, id: int)
    requires s in ClearingSteps(kind, id)
    ensures (exists key :: s == ClearKey(key, kind, id)) || s == ClearResponsible(kind, id) || s == MembershipStep(kind, id)
         || (kind == Person && s in {ClearAssessor(id), PullInterviewed(id)})
  {
    if s in ClearKeys(kind, id) {
      var i :| 0 <= i < |POLYMORPHIC_KEYS| && ClearKeys(kind, id)[i] == s;
      assert s == ClearKey(POLYMORPHIC_KEYS[i], kind, id);
    }
  }

  lemma AssessmentsBetween(w: World, now: World, s: Step, reached: Option<set<int>>, kind: Kind, id: int)
    requires WorldBetween(w, now, kind, id) && s in ClearingSteps(kind, id)
    ensures var after := Apply(now, s, reached);
            && after.assessments.Keys == w.assessments.Keys
            && forall i :: i in w.assessments ==> Between(w.assessments[i], after.assessments[i], kind, id)
  {
    hide Between, OnAssessment, ClearingSteps, ListsBetween, PulledFrom, DroppedFrom, ClearedReference;
    forall i | i in w.assessments
      ensures Between(w.assessments[i], OnAssessment(s, now.assessments[i]), kind, id)
    {
      StepBetween(w.assessments[i], now.assessments[i], s, kind, id);
    }
  }

  lemma AssignmentsBetween(w: World, now: World, s: Step, reached: Option<set<int>>, kind: Kind, id: int)
    requires WorldBetween(w, now, kind, id) && s in ClearingSteps(kind, id)
    ensures var after := Apply(now, s, reached);
            && after.assignments.Keys == w.assignments.Keys
            && forall i :: i in w.assignments ==>
                 after.assignments[i] in {w.assignments[i], ClearedReference(w.assignments[i], kind, id)}
  {
    hide Between, OnAssessment, ClearingSteps, ListsBetween, PulledFrom, DroppedFrom;
    ClearingStep(s, kind, id);
  }

  lemma PulledBetween(docs: map<int, seq<int>>, now: map<int, seq<int>>, id: int, reached: Option<set<int>>)
    requires ListsBetween(docs, now, true, id)
    ensures ListsBetween(docs, PulledFrom(now, id, reached), true, id)
  {
    forall i | i in docs
      ensures Without(now[i], id) == Without(docs[i], id)
    {
      WithoutTwice(docs[i], id);
    }
  }

  lemma MembersBetween(w: World, now: World, s: Step, reached: Option<set<int>>, kind: Kind, id: int)
    requires WorldBetween(w, now, kind, id) && s in ClearingSteps(kind, id)
    ensures var after := Apply(now, s, reached);
            && ListsBetween(w.persons, after.persons, kind == PersonGroup, id)
            && ListsBetween(w.groups, after.groups, kind == Person, id)
  {
    hide Between, OnAssessment, ClearingSteps, ClearedReference, ListsBetween, PulledFrom;
    ClearingStep(s, kind, id);
    if kind == Person {
      PulledBetween(w.groups, now.groups, id, reached);
    } else {
      PulledBetween(w.persons, now.persons, id, reached);
    }
  }

  lemma ApplyBetween(w: World, now: World, s: Step, reached: Option<set<int>>, kind: Kind, id: int)
    requires WorldBetween(w, now, kind, id) && s in ClearingSteps(kind, id)
    ensures WorldBetween(w, Apply(now, s, reached), kind, id)
  {
    hide Between, Apply, ClearingSteps, ClearedReference, ListsBetween;
    AssessmentsBetween(w, now, s, reached, kind, id);
    AssignmentsBetween(w, now, s, reached, kind, id);
    MembersBetween(w, now, s, reached, kind, id);
  }

  lemma {:induction false} RunBetween(w: World, now: World, steps: seq<Step>, luck: seq<Luck>, kind: Kind, id: int)
    requires WorldBetween(w, now, kind, id) && forall i :: 0 <= i < |steps| ==> steps[i] in ClearingSteps(kind, id)
    ensures WorldBetween(w, RunSteps(now, steps, luck).world, kind, id)
    decreases |steps|
  {
    hide WorldBetween, ClearingSteps, Apply;
    if steps != [] {
      match Head(luck)
      case Fine =>
        ApplyBetween(w, now, steps[0], None, kind, id);
        RunBetween(w, Apply(now, steps[0], None), steps[1..], Rest(luck), kind, id);
      case Broken(reached) =>
        ApplyBetween(w, now, steps[0], Some(reached), kind, id);
    }
  }

  /**
   Wherever a delete breaks off, the database is between what it was and what the complete delete makes of it: each
   reference and membership as it was or cleared, nothing else changed, the document itself there or gone.
   */
  lemma DeletionBetween(w: World, kind: Kind, id: int, luck: seq<Luck>)
    ensures var after := Deletion(w, kind, id, luck).0;
            exists now ::
              && WorldBetween(w, now, kind, id)
              && (after == now || after == (if kind == Person then now.(persons := now.persons - {id}) else now.(groups := now.groups - {id})))
  {
    hide WorldBetween, ClearingSteps;
    var steps := ClearingSteps(kind, id);
    var cleared := RunSteps(w, steps, luck);
    NothingYet(w, kind, id);
    RunBetween(w, w, steps, luck, kind, id);
    if cleared.done {
      OneStatement(cleared.world, Drop(kind, id), cleared.luck);
    }
    assert WorldBetween(w, cleared.world, kind, id);
  }

  lemma NothingYet(w: World, kind: Kind, id: int)
    ensures WorldBetween(w, w, kind, id)
  {
  }

  // ------------------------------------------------------------------ dangling references

  ghost predicate Listed(docs: map<int, seq<int>>, id: int) {
    exists i :: i in docs && id in docs[i]
  }

  ghost predicate Referenced(w: World, kind: Kind, id: int) {
    || (exists i :: i in w.assessments && MeetsCriteria(w.assessments[i], kind, id))
    || (exists i :: i in w.assignments && PointsTo(w.assignments[i], kind, id))
    || Listed(if kind == Person then w.groups else w.persons, id)
  }

  ghost predicate NoDangling(w: World) {
    forall kind, id :: Referenced(w, kind, id) ==> id in Members(w, kind)
  }

  lemma StepAddsNone(s: Step, a: RiskAssessment, kind: Kind, id: int)
    requires MeetsCriteria(OnAssessment(s, a), kind, id)
    ensures MeetsCriteria(a, kind, id)
  {
    var after := OnAssessment(s, a);
    if key :| key in POLYMORPHIC_KEYS && RefersAt(after, key, kind, id) {
      assert RefersAt(a, key, kind, id);
    }
  }

  lemma AssessmentAddsNone(w: World, s: Step, reached: Option<set<int>>, kind: Kind, id: int, i: int)
    requires i in Apply(w, s, reached).assessments && MeetsCriteria(Apply(w, s, reached).assessments[i], kind, id)
    ensures i in w.assessments && MeetsCriteria(w.assessments[i], kind, id)
  {
    hide MeetsCriteria, OnAssessment;
    if Apply(w, s, reached).assessments[i] != w.assessments[i] {
      StepAddsNone(s, w.assessments[i], kind, id);
    }
  }

  lemma AssignmentAddsNone(w: World, s: Step, reached: Option<set<int>>, kind: Kind, id: int, i: int)
    requires i in Apply(w, s, reached).assignments && PointsTo(Apply(w, s, reached).assignments[i], kind, id)
    ensures i in w.assignments && PointsTo(w.assignments[i], kind, id)
  {
    hide MeetsCriteria, OnAssessment;
  }

  lemma ListsAddNone(w: World, s: Step, reached: Option<set<int>>, kind: Kind, id: int)
    ensures var after := Apply(w, s, reached);
            Listed(if kind == Person then after.groups else after.persons, id) ==>
              Listed(if kind == Person then w.groups else w.persons, id)
  {
    hide MeetsCriteria, OnAssessment;
    var after := Apply(w, s, reached);
    if kind == Person {
      if i :| i in after.groups && id in after.groups[i] {
        assert id in w.groups[i];
      }
    } else if i :| i in after.persons && id in after.persons[i] {
      assert id in w.persons[i];
    }
  }

  // A statement creates no reference, wherever it got to
  lemma ApplyAddsNone(w: World, s: Step, reached: Option<set<int>>, kind: Kind, id: int)
    requires Referenced(Apply(w, s, reached), kind, id)
    ensures Referenced(w, kind, id)
  {
    var after := Apply(w, s, reached);
    hide Apply, MeetsCriteria, PointsTo;
    if i :| i in after.assessments && MeetsCriteria(after.assessments[i], kind, id) {
      AssessmentAddsNone(w, s, reached, kind, id, i);
    } else if i :| i in after.assignments && PointsTo(after.assignments[i], kind, id) {
      AssignmentAddsNone(w, s, reached, kind, id, i);
    } else {
      ListsAddNone(w, s, reached, kind, id);
    }
  }

  lemma ClearingKeepsMembers(w: World, s: Step, reached: Option<set<int>>, kind: Kind)
    requires !s.Drop?
    ensures Members(Apply(w, s, reached), kind) == Members(w, kind)
  {
  }

  lemma {:induction false} ClearingKeepsIntact(w: World, steps: seq<Step>, luck: seq<Luck>)
    requires NoDangling(w) && forall i :: 0 <= i < |steps| ==> !steps[i].Drop?
    ensures NoDangling(RunSteps(w, steps, luck).world)
    ensures forall kind :: Members(RunSteps(w, steps, luck).world, kind) == Members(w, kind)
    decreases |steps|
  {
    if steps != [] {
      var reached := if Head(luck).Fine? then None else Some(Head(luck).reached);
      var next := Apply(w, steps[0], reached);
      forall kind
        ensures Members(next, kind) == Members(w, kind)
      {
        ClearingKeepsMembers(w, steps[0], reached, kind);
      }
      forall kind, id | Referenced(next, kind, id)
        ensures id in Members(next, kind)
      {
        ApplyAddsNone(w, steps[0], reached, kind, id);
      }
      if Head(luck).Fine? {
        ClearingKeepsIntact(next, steps[1..], Rest(luck));
      }
    }
  }

  lemma CleansedHoldsNone(w: World, kind: Kind, id: int)
    ensures !Referenced(CleansedWorld(w, kind, id), kind, id)
  {
    var after := CleansedWorld(w, kind, id);
    forall i | i in after.assessments
      ensures !MeetsCriteria(after.assessments[i], kind, id)
    {
      OnlyThoseReferencesGo(w.assessments[i], kind, id, kind, id);
    }
  }

  lemma OneStatement(w: World, s: Step, luck: seq<Luck>)
    ensures RunSteps(w, [s], luck).world == Apply(w, s, if Head(luck).Fine? then None else Some(Head(luck).reached))
  {
    assert [s][1..] == [];
    if Head(luck).Fine? {
      assert RunSteps(w, [s], luck) == RunSteps(Apply(w, s, None), [], Rest(luck));
    }
  }

  lemma DropKeepsIntact(w: World, kind: Kind, id: int, reached: Option<set<int>>)
    requires NoDangling(w) && !Referenced(w, kind, id)
    ensures NoDangling(Apply(w, Drop(kind, id), reached))
  {
    var after := Apply(w, Drop(kind, id), reached);
    assert forall k :: Members(w, k) - (if k == kind then {id} else {}) <= Members(after, k);
    forall k, x | Referenced(after, k, x)
      ensures x in Members(after, k)
    {
      ApplyAddsNone(w, Drop(kind, id), reached, k, x);
    }
  }

  lemma ClearedHoldsNone(w: World, kind: Kind, id: int, luck: seq<Luck>)
    requires RunSteps(w, ClearingSteps(kind, id), luck).done
    ensures !Referenced(RunSteps(w, ClearingSteps(kind, id), luck).world, kind, id)
  {
    DoneMeansAll(w, ClearingSteps(kind, id), luck);
    ClearingCleanses(w, kind, id);
    CleansedHoldsNone(w, kind, id);
  }

  /**
   However the delete of a person or a group ends - complete, or broken off in any statement with any of its
   documents reached - a database without dangling references stays one: no reference or membership is left to
   somebody who is not there.
   */
  lemma DeletionLeavesNoneDangling(w: World, kind: Kind, id: int, luck: seq<Luck>)
    requires NoDangling(w)
    ensures NoDangling(Deletion(w, kind, id, luck).0)
  {
    var cleared := RunSteps(w, ClearingSteps(kind, id), luck);
    ClearingKeepsIntact(w, ClearingSteps(kind, id), luck);
    if cleared.done {
      ClearedHoldsNone(w, kind, id, luck);
      OneStatement(cleared.world, Drop(kind, id), cleared.luck);
      DropKeepsIntact(cleared.world, kind, id, if Head(cleared.luck).Fine? then None else Some(Head(cleared.luck).reached));
    }
  }
}
