/** Running the statements over a whole collection, where any of them may fail part-way. */
module ObjectsManager {
  import opened Prelude
  import opened Documents
  import opened Propagation
  import opened Alignment
  import ReferenceScrub

  // A broken statement raises, having reached only some of the objects; each object is updated atomically
  datatype Luck = Fine | Broken(applied: set<int>)

  type Store = map<int, Object>

  function Reached(objects: Store, s: Statement, ids: set<int>): Store {
    map id | id in objects :: if id in ids then Effect(s, objects[id]) else objects[id]
  }

  function ModifiedBy(objects: Store, s: Statement): set<int> {
    set id | id in objects && Effect(s, objects[id]) != objects[id]
  }

  // The modified counts of a list of statements, summed
  function Changes(statements: seq<Statement>, objects: Store): nat {
    if statements == [] then 0
    else |ModifiedBy(objects, statements[0])| + Changes(statements[1..], Reached(objects, statements[0], objects.Keys))
  }

  class ObjectsManager {
    var objects: Store
    var luck: seq<Luck>

    constructor (objects: Store, luck: seq<Luck>)
      ensures this.objects == objects && this.luck == luck
    {
      this.objects := objects;
      this.luck := luck;
    }

    // None where the call raised
    method UpdateManyRaw(s: Statement) returns (modified: Option<nat>)
      modifies this
      ensures luck == if old(luck) == [] then [] else old(luck)[1..]
      ensures modified.None? <==> old(luck) != [] && old(luck)[0].Broken?
      ensures modified.Some? ==>
                objects == Reached(old(objects), s, old(objects).Keys) && modified.value == |ModifiedBy(old(objects), s)|
      ensures modified.None? ==> objects == Reached(old(objects), s, old(luck)[0].applied)
    {
      var now := if luck == [] then Fine else luck[0];
      luck := if luck == [] then [] else luck[1..];
      match now
      case Fine =>
        modified := Some(|ModifiedBy(objects, s)|);
        objects := Reached(objects, s, objects.Keys);
      case Broken(applied) =>
        modified := None;
        objects := Reached(objects, s, applied);
    }

    /** All of the statements, or - where one fails - those before it, and that one on some of the objects. */
    method ApplyRawUpdates(statements: seq<Statement>) returns (modified: Option<nat>)
      modifies this
      ensures objects.Keys == old(objects).Keys
      ensures modified.Some? ==>
                && modified.value == Changes(statements, old(objects))
                && RanThrough(old(objects), objects, statements, |statements|)
      ensures modified.None? ==> exists k :: 0 <= k < |statements| && StoppedAt(old(objects), objects, statements, k)
      ensures modified.None? <==> exists k :: 0 <= k < |statements| && k < |old(luck)| && old(luck)[k].Broken?
    {
      assert RanThrough(objects, objects, statements, 0);
      hide Run, Effect, ModifiedBy, RanThrough, StoppedAt;
      var total := 0;
      for i := 0 to |statements|
        invariant objects.Keys == old(objects).Keys
        invariant luck == if i <= |old(luck)| then old(luck)[i..] else []
        invariant forall k :: 0 <= k < i && k < |old(luck)| ==> !old(luck)[k].Broken?
        invariant RanThrough(old(objects), objects, statements, i)
        invariant Changes(statements, old(objects)) == total + Changes(statements[i..], objects)
      {
        ghost var before := objects;
        assert statements[i..][0] == statements[i] && statements[i..][1..] == statements[i + 1..];
        OneMore(old(objects), before, statements, i);
        var result := UpdateManyRaw(statements[i]);
        if result.None? {
          assert StoppedAt(old(objects), objects, statements, i);
          return None;
        }
        total := total + result.value;
      }
      modified := Some(total);
    }

    // One of the two scrubbing updates; false where it raised
    method ScrubReferences(place: ReferenceScrub.Place, ids: set<int>) returns (done: bool)
      modifies this
      ensures luck == if old(luck) == [] then [] else old(luck)[1..]
      ensures done <==> old(luck) == [] || old(luck)[0].Fine?
      ensures objects == Scrubbed(old(objects), place, ids, if done then old(objects).Keys else old(luck)[0].applied)
    {
      var now := if luck == [] then Fine else luck[0];
      luck := if luck == [] then [] else luck[1..];
      match now
      case Fine =>
        objects := Scrubbed(objects, place, ids, objects.Keys);
        done := true;
      case Broken(applied) =>
        objects := Scrubbed(objects, place, ids, applied);
        done := false;
    }

    /** The flat fields first, then the rows; the id 0 alone is refused, and an empty list asks for nothing. */
    method DeleteAllObjectReferences(selection: ReferenceScrub.Selection) returns (done: bool)
      modifies this
      ensures objects.Keys == old(objects).Keys
      ensures done <==> selection == ReferenceScrub.Listed([])
                        || (selection != ReferenceScrub.Single(0) && forall i :: 0 <= i < 2 && i < |old(luck)| ==> old(luck)[i].Fine?)
      ensures selection == ReferenceScrub.Single(0) ==> objects == old(objects)
      ensures selection == ReferenceScrub.Listed([]) ==> done && objects == old(objects)
      ensures done && selection != ReferenceScrub.Listed([]) ==>
                forall id :: id in objects ==>
                  objects[id] == ReferenceScrub.ScrubBoth(ReferenceScrub.Members(selection), old(objects)[id])
      ensures forall id :: id in objects ==>
                ReferenceScrub.PartlyScrubbed(ReferenceScrub.Members(selection), old(objects)[id], objects[id])
    {
      if selection == ReferenceScrub.Listed([]) {
        return true;
      }
      if selection == ReferenceScrub.Single(0) {
        return false;
      }
      var ids := ReferenceScrub.Members(selection);
      done := ScrubReferences(ReferenceScrub.Flat, ids);
      if done {
        done := ScrubReferences(ReferenceScrub.InRows, ids);
      }
    }
  }

  function Scrubbed(objects: Store, place: ReferenceScrub.Place, ids: set<int>, reached: set<int>): Store {
    map id | id in objects :: if id in reached then ReferenceScrub.Scrub(place, ids, objects[id]) else objects[id]
  }

  // Every object went through exactly the first n statements
  ghost predicate RanThrough(before: Store, after: Store, statements: seq<Statement>, n: nat)
    requires n <= |statements|
  {
    after.Keys == before.Keys && forall id :: id in after ==> after[id] == Run(statements[..n], before[id])
  }

  lemma OneMore(start: Store, now: Store, statements: seq<Statement>, i: nat)
    requires i < |statements| && RanThrough(start, now, statements, i)
    ensures RanThrough(start, Reached(now, statements[i], now.Keys), statements, i + 1)
    ensures forall ids :: StoppedAt(start, Reached(now, statements[i], ids), statements, i)
  {
    forall id | id in now
      ensures Run(statements[..i + 1], start[id]) == Effect(statements[i], now[id])
    {
      RunNext(statements, i, start[id]);
    }
  }

  // Every object went through the statements before k, and some through k as well
  ghost predicate StoppedAt(before: Store, after: Store, statements: seq<Statement>, k: nat)
    requires k < |statements|
  {
    && after.Keys == before.Keys
    && forall id :: id in after ==>
         after[id] == Run(statements[..k], before[id]) || after[id] == Run(statements[..k + 1], before[id])
  }

  lemma {:induction false} RunNext(statements: seq<Statement>, i: nat, o: Object)
    requires i < |statements|
    ensures Run(statements[..i + 1], o) == Effect(statements[i], Run(statements[..i], o))
  {
    assert statements[..i + 1] == statements[..i] + [statements[i]];
    RunConcat(statements[..i], [statements[i]], o);
    var mid := Run(statements[..i], o);
    assert [statements[i]][1..] == [] && Run([statements[i]], mid) == Effect(statements[i], mid);
  }

  lemma {:induction false} RunConcat(a: seq<Statement>, b: seq<Statement>, o: Object)
    ensures Run(a + b, o) == Run(b, Run(a, o))
  {
    if a == [] {
      assert a + b == b;
    } else {
      RunConcat(a[1..], b, Effect(a[0], o));
      assert (a + b)[1..] == a[1..] + b;
    }
  }

  // What a re-alignment of a type runs, in one list or the other
  predicate IsAlignment(t: TypeDefinition, statements: seq<Statement>) {
    statements == FieldAlignment(t) || (statements == MdsAlignment(t) && DistinctNames(t.sections))
  }

  /** Running all of an alignment again after one that failed anywhere ends, for every object, where one full run ends. */
  lemma RerunCompletes(t: TypeDefinition, statements: seq<Statement>, before: Store, after: Store, k: nat)
    requires IsAlignment(t, statements) && k < |statements|
    requires StoppedAt(before, after, statements, k)
    ensures forall id :: id in before ==> Run(statements, after[id]) == Run(statements, before[id])
  {
    forall id | id in before
      ensures Run(statements, after[id]) == Run(statements, before[id])
    {
      var j := if after[id] == Run(statements[..k], before[id]) then k else k + 1;
      if statements == FieldAlignment(t) {
        FieldsResume(t, before[id], j);
      } else {
        SectionsResume(t, before[id], j);
      }
    }
  }

  // ------------------------------------------------------------------ a complete run leaves nothing to modify

  ghost predicate Fixes(s: Statement, objects: Store) {
    forall id :: id in objects ==> Effect(s, objects[id]) == objects[id]
  }

  lemma {:induction false} NothingToChange(statements: seq<Statement>, objects: Store)
    requires forall s :: s in statements ==> Fixes(s, objects)
    ensures Changes(statements, objects) == 0
  {
    if statements != [] {
      assert Fixes(statements[0], objects);
      var reached := Reached(objects, statements[0], objects.Keys);
      forall id | id in objects
        ensures reached[id] == objects[id] && id !in ModifiedBy(objects, statements[0])
      {
        assert Effect(statements[0], objects[id]) == objects[id];
      }
      assert reached == objects && ModifiedBy(objects, statements[0]) == {};
      NothingToChange(statements[1..], objects);
    }
  }

  lemma AlignedListFixed(fields: seq<FieldDefinition>, entries: seq<Entry>, op: ListOp)
    requires op in Ops(fields)
    ensures OnList(op, RunOps(Ops(fields), entries)) == RunOps(Ops(fields), entries)
  {
    var aligned := RunOps(Ops(fields), entries);
    ListConverges(fields, entries);
    var i :| 0 <= i < |Ops(fields)| && Ops(fields)[i] == op;
    if i == 0 {
      forall e | e in aligned
        ensures Keeps(op, e)
      {
        var k :| 0 <= k < |aligned| && aligned[k] == e;
        assert HasName(aligned, e.name);
      }
      KeptAll(op, aligned);
    } else {
      assert Names(fields)[i - 1] == op.entry.name;
      assert HasName(aligned, op.entry.name);
    }
  }

  lemma FieldStatementFixed(t: TypeDefinition, o: Object, s: Statement)
    requires s in FieldAlignment(t)
    ensures Effect(s, Run(FieldAlignment(t), o)) == Run(FieldAlignment(t), o)
  {
    var i :| 0 <= i < |FieldAlignment(t)| && FieldAlignment(t)[i] == s;
    assert s.op == Ops(t.fields)[i];
    FlatRuns(t.typeId, Ops(t.fields), o);
    AlignedListFixed(t.fields, o.fields, s.op);
  }

  lemma {:induction false} RowStatementOps(typeId: int, sections: seq<SectionDefinition>, s: Statement)
    requires DistinctNames(sections) && s in SectionStatements(typeId, sections)
    ensures s.OnRows? && s.typeId == typeId && s.op in OpsOf(sections, s.sectionId)
  {
    var first := InSection(typeId, sections[0].name, Ops(sections[0].fields));
    if s in first {
      var i :| 0 <= i < |first| && first[i] == s;
      assert s.op == Ops(sections[0].fields)[i];
    } else {
      RowStatementOps(typeId, sections[1..], s);
      DeclaredInNames(sections[1..], s.sectionId);
    }
  }

  lemma MdsStatementFixed(t: TypeDefinition, o: Object, s: Statement)
    requires DistinctNames(t.sections) && s in MdsAlignment(t)
    ensures Effect(s, Run(MdsAlignment(t), o)) == Run(MdsAlignment(t), o)
  {
    var aligned := Run(MdsAlignment(t), o);
    SectionsConverge(t, o);
    if o.typeId == t.typeId {
      if s == MdsAlignment(t)[0] {
        KeptStay(t, o.sections, aligned.sections);
      } else {
        assert s in SectionStatements(t.typeId, t.sections);
        RowStatementOps(t.typeId, t.sections, s);
        forall i | 0 <= i < |aligned.sections|
          ensures OnSection(s.sectionId, s.op, aligned.sections[i]) == aligned.sections[i]
        {
          SectionFixed(t.sections, Declared(t, o.sections)[i], s.sectionId, s.op);
        }
        assert Effect(s, aligned).sections == aligned.sections;
      }
    } else {
      AllOnRows(t.typeId, t.sections);
    }
  }

  lemma SectionFixed(sections: seq<SectionDefinition>, stored: Section, sectionId: string, op: ListOp)
    requires op in OpsOf(sections, sectionId)
    ensures var aligned := RowsThrough(stored, OpsOf(sections, stored.id)); OnSection(sectionId, op, aligned) == aligned
  {
    var aligned := RowsThrough(stored, OpsOf(sections, stored.id));
    if stored.id == sectionId {
      forall i | 0 <= i < |stored.rows|
        ensures OnList(op, aligned.rows[i].data) == aligned.rows[i].data
      {
        AlignedListFixed(DeclaredIn(sections, sectionId).value, stored.rows[i].data, op);
      }
      assert OnSection(sectionId, op, aligned).rows == aligned.rows;
    }
  }

  function AfterAll(statements: seq<Statement>, objects: Store): Store {
    map id | id in objects :: Run(statements, objects[id])
  }

  /** A second run of an alignment modifies no document. */
  lemma SecondRunModifiesNothing(t: TypeDefinition, statements: seq<Statement>, objects: Store)
    requires IsAlignment(t, statements)
    ensures Changes(statements, AfterAll(statements, objects)) == 0
  {
    var aligned := AfterAll(statements, objects);
    forall s | s in statements
      ensures Fixes(s, aligned)
    {
      forall id | id in aligned
        ensures Effect(s, aligned[id]) == aligned[id]
      {
        if statements == FieldAlignment(t) {
          FieldStatementFixed(t, objects[id], s);
        } else {
          MdsStatementFixed(t, objects[id], s);
        }
      }
    }
    NothingToChange(statements, aligned);
  }
}
