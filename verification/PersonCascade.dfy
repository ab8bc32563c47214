/** Deleting a person or a person group, and what the cascade makes of everything that referenced it. */
module PersonCascade {
  import opened Prelude

  datatype Kind = Person | PersonGroup

  // A reference field beside its _ref_type sibling
  datatype Reference = Reference(id: Option<int>, kind: Option<Kind>)

  datatype Key = RiskOwner | ResponsiblePersons | Auditor

  const POLYMORPHIC_KEYS := [RiskOwner, ResponsiblePersons, Auditor]

  datatype RiskAssessment = RiskAssessment(
    references: map<Key, Reference>, riskAssessor: Option<int>, interviewedPersons: seq<int>)

  // The four collections by public_id: a person with its groups, a group with its members, an assignment with
  // who is responsible for it
  datatype World = World(
    assessments: map<int, RiskAssessment>, assignments: map<int, Reference>,
    persons: map<int, seq<int>>, groups: map<int, seq<int>>)

  // ------------------------------------------------------------------ filters

  predicate PointsTo(r: Reference, kind: Kind, id: int) {
    r.id == Some(id) && r.kind == Some(kind)
  }

  predicate RefersAt(a: RiskAssessment, key: Key, kind: Kind, id: int) {
    key in a.references && PointsTo(a.references[key], kind, id)
  }

  // risk_assessment_reference_criteria: the snapshot read before the cascade
  predicate MeetsCriteria(a: RiskAssessment, kind: Kind, id: int) {
    || (exists key :: key in POLYMORPHIC_KEYS && RefersAt(a, key, kind, id))
    || (kind == Person && (a.riskAssessor == Some(id) || id in a.interviewedPersons))
  }

  // ------------------------------------------------------------------ the updates

  datatype Step =
    | ClearKey(key: Key, kind: Kind, id: int)
    | ClearAssessor(id: int)
    | PullInterviewed(id: int)
    | ClearResponsible(kind: Kind, id: int)
    | PullMember(id: int)      // out of every group's members
    | PullGroup(id: int)       // out of every person's groups
    | Drop(kind: Kind, id: int)

  function Without(ids: seq<int>, id: int): (kept: seq<int>)
    ensures forall x :: x in kept <==> x in ids && x != id
    ensures id !in ids ==> kept == ids
  {
    if ids == [] then [] else (if ids[0] == id then [] else [ids[0]]) + Without(ids[1..], id)
  }

  function ClearedReference(r: Reference, kind: Kind, id: int): Reference {
    if PointsTo(r, kind, id) then r.(id := None) else r
  }

  function OnAssessment(s: Step, a: RiskAssessment): RiskAssessment {
    match s
    case ClearKey(key, kind, id) =>
      if RefersAt(a, key, kind, id) then a.(references := a.references[key := a.references[key].(id := None)]) else a
    case ClearAssessor(id) => if a.riskAssessor == Some(id) then a.(riskAssessor := None) else a
    case PullInterviewed(id) => a.(interviewedPersons := Without(a.interviewedPersons, id))
    case _ => a
  }

  // Which documents of its collection a statement got to: all of them, or those it reached before it failed
  predicate Got(reached: Option<set<int>>, i: int) {
    reached.None? || i in reached.value
  }

  function PulledFrom(docs: map<int, seq<int>>, id: int, reached: Option<set<int>>): map<int, seq<int>> {
    map i | i in docs :: if Got(reached, i) then Without(docs[i], id) else docs[i]
  }

  function DroppedFrom(docs: map<int, seq<int>>, id: int, reached: Option<set<int>>): map<int, seq<int>> {
    if Got(reached, id) then docs - {id} else docs
  }

  function Apply(w: World, s: Step, reached: Option<set<int>>): World {
    match s
    case ClearResponsible(kind, id) =>
      w.(assignments := map i | i in w.assignments ::
         if Got(reached, i) then ClearedReference(w.assignments[i], kind, id) else w.assignments[i])
    case PullMember(id) => w.(groups := PulledFrom(w.groups, id, reached))
    case PullGroup(id) => w.(persons := PulledFrom(w.persons, id, reached))
    case Drop(Person, id) => w.(persons := DroppedFrom(w.persons, id, reached))
    case Drop(PersonGroup, id) => w.(groups := DroppedFrom(w.groups, id, reached))
    case _ =>
      w.(assessments := map i | i in w.assessments ::
         if Got(reached, i) then OnAssessment(s, w.assessments[i]) else w.assessments[i])
  }

  // ------------------------------------------------------------------ the cascades

  function ClearKeys(kind: Kind, id: int): seq<Step> {
    seq(|POLYMORPHIC_KEYS|, i requires 0 <= i < |POLYMORPHIC_KEYS| => ClearKey(POLYMORPHIC_KEYS[i], kind, id))
  }

  function AssessmentSteps(kind: Kind, id: int): seq<Step> {
    if kind == Person then [ClearAssessor(id)] + ClearKeys(kind, id) + [PullInterviewed(id)] else ClearKeys(kind, id)
  }

  function MembershipStep(kind: Kind, id: int): Step {
    if kind == Person then PullMember(id) else PullGroup(id)
  }

  // Everything before the document itself is deleted
  function ClearingSteps(kind: Kind, id: int): seq<Step> {
    AssessmentSteps(kind, id) + [ClearResponsible(kind, id)] + [MembershipStep(kind, id)]
  }

  // What becomes of each statement to come
  datatype Luck = Fine | Broken(reached: set<int>)

  function Head(luck: seq<Luck>): Luck {
    if luck == [] then Fine else luck[0]
  }

  function Rest(luck: seq<Luck>): seq<Luck> {
    if luck == [] then [] else luck[1..]
  }

  datatype Outcome = Outcome(world: World, luck: seq<Luck>, done: bool)

  // Statements one after another, up to the first that raises
  function RunSteps(w: World, steps: seq<Step>, luck: seq<Luck>): Outcome
    decreases |steps|
  {
    if steps == [] then Outcome(w, luck, true)
    else match Head(luck)
      case Fine => RunSteps(Apply(w, steps[0], None), steps[1..], Rest(luck))
      case Broken(reached) => Outcome(Apply(w, steps[0], Some(reached)), Rest(luck), false)
  }

  lemma {:induction false} RunConcat(w: World, a: seq<Step>, b: seq<Step>, luck: seq<Luck>)
    ensures var first := RunSteps(w, a, luck);
            RunSteps(w, a + b, luck) == if first.done then RunSteps(first.world, b, first.luck) else first
    decreases |a|
  {
    if a == [] {
      assert a + b == b;
    } else {
      assert (a + b)[1..] == a[1..] + b;
      if Head(luck).Fine? {
        RunConcat(Apply(w, a[0], None), a[1..], b, Rest(luck));
      }
    }
  }

  class MongoDatabase {
    var world: World
    var luck: seq<Luck>

    constructor (world: World, luck: seq<Luck>)
      ensures this.world == world && this.luck == luck
    {
      this.world := world;
      this.luck := luck;
    }

    function After(done: bool): Outcome
      reads this
    {
      Outcome(world, luck, done)
    }

    method Update(s: Step) returns (done: bool)
      modifies this
      ensures After(done) == RunSteps(old(world), [s], old(luck))
    {
      var now := Head(luck);
      luck := Rest(luck);
      match now
      case Fine =>
        world := Apply(world, s, None);
        done := true;
      case Broken(reached) =>
        world := Apply(world, s, Some(reached));
        done := false;
      assert [s][1..] == [];
    }

    // One update per polymorphic key
    method ClearPolymorphicReferences(kind: Kind, id: int) returns (done: bool)
      modifies this
      ensures After(done) == RunSteps(old(world), ClearKeys(kind, id), old(luck))
    {
      var steps := ClearKeys(kind, id);
      for i := 0 to |POLYMORPHIC_KEYS|
        invariant After(true) == RunSteps(old(world), steps[..i], old(luck))
      {
        RunConcat(old(world), steps[..i], [steps[i]], old(luck));
        assert steps[..i + 1] == steps[..i] + [steps[i]];
        done := Update(ClearKey(POLYMORPHIC_KEYS[i], kind, id));
        if !done {
          RunConcat(old(world), steps[..i + 1], steps[i + 1..], old(luck));
          assert steps[..i + 1] + steps[i + 1..] == steps;
          return false;
        }
      }
      assert steps[..|POLYMORPHIC_KEYS|] == steps;
      done := true;
    }
  }

  class PersonsManager {
    const dbm: MongoDatabase

    constructor (dbm: MongoDatabase)
      ensures this.dbm == dbm
    {
      this.dbm := dbm;
    }

    method RemovePersonFromRiskAssessments(id: int) returns (done: bool)
      modifies dbm
      ensures dbm.After(done) == RunSteps(old(dbm.world), AssessmentSteps(Person, id), old(dbm.luck))
    {
      var first := [ClearAssessor(id)];
      RunConcat(dbm.world, first, ClearKeys(Person, id), dbm.luck);
      RunConcat(dbm.world, first + ClearKeys(Person, id), [PullInterviewed(id)], dbm.luck);
      done := dbm.Update(ClearAssessor(id));
      if done {
        done := dbm.ClearPolymorphicReferences(Person, id);
      }
      if done {
        done := dbm.Update(PullInterviewed(id));
      }
    }

    // None where a statement raised
    method DeleteWithFollowUp(id: int) returns (deleted: Option<bool>)
      modifies dbm
      ensures (dbm.world, deleted) == Deletion(old(dbm.world), Person, id, old(dbm.luck))
    {
      var steps := AssessmentSteps(Person, id);
      RunConcat(dbm.world, steps, [ClearResponsible(Person, id)], dbm.luck);
      RunConcat(dbm.world, steps + [ClearResponsible(Person, id)], [PullMember(id)], dbm.luck);
      var done := RemovePersonFromRiskAssessments(id);
      if done {
        done := dbm.Update(ClearResponsible(Person, id));
      }
      if done {
        done := dbm.Update(PullMember(id));
      }
      if !done {
        return None;
      }
      var found := id in dbm.world.persons;
      done := dbm.Update(Drop(Person, id));
      deleted := if done then Some(found) else None;
    }
  }

  class PersonGroupsManager {
    const dbm: MongoDatabase

    constructor (dbm: MongoDatabase)
      ensures this.dbm == dbm
    {
      this.dbm := dbm;
    }

    method DeleteWithFollowUp(id: int) returns (deleted: Option<bool>)
      modifies dbm
      ensures (dbm.world, deleted) == Deletion(old(dbm.world), PersonGroup, id, old(dbm.luck))
    {
      var steps := AssessmentSteps(PersonGroup, id);
      RunConcat(dbm.world, steps, [ClearResponsible(PersonGroup, id)], dbm.luck);
      RunConcat(dbm.world, steps + [ClearResponsible(PersonGroup, id)], [PullGroup(id)], dbm.luck);
      var done := dbm.ClearPolymorphicReferences(PersonGroup, id);
      if done {
        done := dbm.Update(ClearResponsible(PersonGroup, id));
      }
      if done {
        done := dbm.Update(PullGroup(id));
      }
      if !done {
        return None;
      }
      var found := id in dbm.world.groups;
      done := dbm.Update(Drop(PersonGroup, id));
      deleted := if done then Some(found) else None;
    }
  }

  function Members(w: World, kind: Kind): set<int> {
    if kind == Person then w.persons.Keys else w.groups.Keys
  }

  // delete_with_follow_up: the references are cleared, and only then is the document deleted
  function Deletion(w: World, kind: Kind, id: int, luck: seq<Luck>): (World, Option<bool>) {
    var cleared := RunSteps(w, ClearingSteps(kind, id), luck);
    if !cleared.done then (cleared.world, None)
    else
      var dropped := RunSteps(cleared.world, [Drop(kind, id)], cleared.luck);
      (dropped.world, if dropped.done then Some(id in Members(cleared.world, kind)) else None)
  }
}
