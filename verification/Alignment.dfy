/** Bringing every object in line with its type: the statements converge, and can be run again after a failure. */
module Alignment {
  import opened Prelude
  import opened Documents
  import opened Propagation

  // A multi-data section with its fields, both in the order the statements are issued
  datatype SectionDefinition = SectionDefinition(name: string, fields: seq<FieldDefinition>)

  datatype TypeDefinition = TypeDefinition(typeId: int, fields: seq<FieldDefinition>, sections: seq<SectionDefinition>)

  function Names(fields: seq<FieldDefinition>): seq<string> {
    seq(|fields|, i requires 0 <= i < |fields| => fields[i].name)
  }

  function Additions(fields: seq<FieldDefinition>): seq<ListOp> {
    seq(|fields|, i requires 0 <= i < |fields| => Add(BuildFieldEntry(fields[i])))
  }

  // What one list of entries goes through: drop what is not declared, then add each declared one
  function Ops(fields: seq<FieldDefinition>): seq<ListOp> {
    [RemoveUndeclared(Names(fields))] + Additions(fields)
  }

  function Flat(typeId: int, ops: seq<ListOp>): seq<Statement> {
    seq(|ops|, i requires 0 <= i < |ops| => OnFields(typeId, ops[i]))
  }

  function InSection(typeId: int, sectionId: string, ops: seq<ListOp>): seq<Statement> {
    seq(|ops|, i requires 0 <= i < |ops| => OnRows(typeId, sectionId, ops[i]))
  }

  function SectionStatements(typeId: int, sections: seq<SectionDefinition>): seq<Statement> {
    if sections == [] then []
    else InSection(typeId, sections[0].name, Ops(sections[0].fields)) + SectionStatements(typeId, sections[1..])
  }

  function SectionNames(sections: seq<SectionDefinition>): seq<string> {
    seq(|sections|, i requires 0 <= i < |sections| => sections[i].name)
  }

  // align_objects_to_type
  function FieldAlignment(t: TypeDefinition): seq<Statement> {
    Flat(t.typeId, Ops(t.fields))
  }

  // build_mds_alignment_updates
  function MdsAlignment(t: TypeDefinition): seq<Statement> {
    [RemoveUndeclaredSections(t.typeId, SectionNames(t.sections))] + SectionStatements(t.typeId, t.sections)
  }

  function Run(statements: seq<Statement>, o: Object): Object {
    if statements == [] then o else Run(statements[1..], Effect(statements[0], o))
  }

  function RunOps(ops: seq<ListOp>, entries: seq<Entry>): seq<Entry> {
    if ops == [] then entries else RunOps(ops[1..], OnList(ops[0], entries))
  }

  // ------------------------------------------------------------------ one list of entries

  lemma {:induction false} RunOpsConcat(a: seq<ListOp>, b: seq<ListOp>, entries: seq<Entry>)
    ensures RunOps(a + b, entries) == RunOps(b, RunOps(a, entries))
  {
    hide OnList;
    if a == [] {
      assert a + b == b;
    } else {
      RunOpsConcat(a[1..], b, OnList(a[0], entries));
      assert (a + b)[1..] == a[1..] + b;
    }
  }

  // The declared entries a list lacks, in declaration order, none twice
  function Lacking(fields: seq<FieldDefinition>, entries: seq<Entry>): seq<Entry> {
    if fields == [] then []
    else if HasName(entries, fields[0].name) then Lacking(fields[1..], entries)
    else [BuildFieldEntry(fields[0])] + Lacking(fields[1..], entries + [BuildFieldEntry(fields[0])])
  }

  lemma LackingStep(fields: seq<FieldDefinition>, entries: seq<Entry>)
    requires fields != []
    ensures var next := OnList(Add(BuildFieldEntry(fields[0])), entries);
            entries + Lacking(fields, entries) == next + Lacking(fields[1..], next)
  {
    hide HasName;
  }

  lemma {:induction false} AdditionsAppend(fields: seq<FieldDefinition>, entries: seq<Entry>)
    ensures RunOps(Additions(fields), entries) == entries + Lacking(fields, entries)
    decreases |fields|
  {
    if fields != [] {
      assert Additions(fields)[0] == Add(BuildFieldEntry(fields[0])) && Additions(fields)[1..] == Additions(fields[1..]);
      hide OnList, HasName, Lacking;
      LackingStep(fields, entries);
      AdditionsAppend(fields[1..], OnList(Additions(fields)[0], entries));
    }
  }

  lemma {:induction false} HasNameConcat(a: seq<Entry>, b: seq<Entry>, name: string)
    ensures HasName(a + b, name) <==> HasName(a, name) || HasName(b, name)
  {
    if i :| 0 <= i < |a| && a[i].name == name {
      assert (a + b)[i] == a[i];
    }
    if i :| 0 <= i < |b| && b[i].name == name {
      assert (a + b)[|a| + i] == b[i];
    }
  }

  lemma NextNames(field: FieldDefinition, entries: seq<Entry>, name: string)
    ensures HasName(OnList(Add(BuildFieldEntry(field)), entries), name) <==> HasName(entries, name) || name == field.name
  {
    HasNameConcat(entries, [BuildFieldEntry(field)], name);
    assert HasName([BuildFieldEntry(field)], name) <==> [BuildFieldEntry(field)][0].name == name;
  }

  lemma {:induction false} LackingNames(fields: seq<FieldDefinition>, entries: seq<Entry>, name: string)
    ensures HasName(entries + Lacking(fields, entries), name) <==> HasName(entries, name) || name in Names(fields)
  {
    if fields == [] {
      assert entries + [] == entries;
    } else {
      hide HasName;
      LackingNames(fields[1..], OnList(Add(BuildFieldEntry(fields[0])), entries), name);
      NextNames(fields[0], entries, name);
      LackingStep(fields, entries);
      assert Names(fields) == [fields[0].name] + Names(fields[1..]);
    }
  }

  lemma {:induction false} KeptNames(op: ListOp, entries: seq<Entry>)
    ensures forall e :: e in Kept(op, entries) <==> e in entries && Keeps(op, e)
  {
    if entries != [] {
      KeptNames(op, entries[1..]);
    }
  }

  lemma {:induction false} KeptAll(op: ListOp, entries: seq<Entry>)
    requires forall e :: e in entries ==> Keeps(op, e)
    ensures Kept(op, entries) == entries
  {
    if entries != [] {
      KeptAll(op, entries[1..]);
    }
  }

  /** What alignment adds holds what its field declares: the default or null, under the declared kind or "text". */
  lemma {:induction false} AddedAsDeclared(fields: seq<FieldDefinition>, entries: seq<Entry>, e: Entry)
    requires e in Lacking(fields, entries)
    ensures !HasName(entries, e.name)
    ensures exists f :: f in fields && f.name == e.name
              && e.value == Some(match f.value case Some(v) => v case None => Null)
              && e.kind == Some(match f.kind case Some(k) => k case None => "text")
    decreases |fields|
  {
    var first := BuildFieldEntry(fields[0]);
    if HasName(entries, first.name) {
      AddedAsDeclared(fields[1..], entries, e);
    } else {
      assert fields[0] in fields;
      if e in Lacking(fields[1..], entries + [first]) {
        AddedAsDeclared(fields[1..], entries + [first], e);
        HasNameConcat(entries, [first], e.name);
      }
    }
  }

  /**
   Convergence of one list: the declared entries it had, in their order and with their values, followed by
   the declared ones it lacked - so exactly the declared names.
   */
  lemma ListConverges(fields: seq<FieldDefinition>, entries: seq<Entry>)
    ensures var kept := Kept(RemoveUndeclared(Names(fields)), entries);
            RunOps(Ops(fields), entries) == kept + Lacking(fields, kept)
    ensures forall name :: HasName(RunOps(Ops(fields), entries), name) <==> name in Names(fields)
  {
    var kept := Kept(RemoveUndeclared(Names(fields)), entries);
    assert Ops(fields)[1..] == Additions(fields);
    AdditionsAppend(fields, kept);
    KeptNames(RemoveUndeclared(Names(fields)), entries);
    forall name
      ensures HasName(kept + Lacking(fields, kept), name) <==> name in Names(fields)
    {
      LackingNames(fields, kept, name);
      if i :| 0 <= i < |kept| && kept[i].name == name {
        assert kept[i] in kept;
      }
    }
  }

  lemma {:induction false} AdditionsDone(fields: seq<FieldDefinition>, entries: seq<Entry>)
    requires forall name :: name in Names(fields) ==> HasName(entries, name)
    ensures RunOps(Additions(fields), entries) == entries
  {
    if fields != [] {
      assert Additions(fields)[1..] == Additions(fields[1..]);
      assert Names(fields)[0] in Names(fields);
      assert forall name :: name in Names(fields[1..]) ==> name in Names(fields) by {
        assert Names(fields) == [fields[0].name] + Names(fields[1..]);
      }
      AdditionsDone(fields[1..], entries);
    }
  }

  /** Resuming one list: after any first part of the operations, running all of them ends where one run ends. */
  lemma ListResumes(fields: seq<FieldDefinition>, entries: seq<Entry>, j: nat)
    requires j <= |Ops(fields)|
    ensures RunOps(Ops(fields), RunOps(Ops(fields)[..j], entries)) == RunOps(Ops(fields), entries)
  {
    var ops := Ops(fields);
    if j == 0 {
      assert ops[..0] == [];
    } else {
      var done, left := fields[..j - 1], fields[j - 1..];
      var drop := RemoveUndeclared(Names(fields));
      var kept := Kept(drop, entries);
      assert ops[..j] == [drop] + Additions(done) && Additions(fields) == Additions(done) + Additions(left);
      assert ([drop] + Additions(done))[1..] == Additions(done) && ops[1..] == Additions(fields);
      var partial := RunOps(Additions(done), kept);
      PartialNames(fields, entries, j - 1);
      KeptAll(drop, partial);
      assert RunOps(ops, partial) == RunOps(Additions(fields), partial);
      RunOpsConcat(Additions(done), Additions(left), partial);
      RunOpsConcat(Additions(done), Additions(left), kept);
      AdditionsDone(done, partial);
    }
  }

  // After the first n additions: what was kept and what was added is declared, and those n names are there
  lemma PartialNames(fields: seq<FieldDefinition>, entries: seq<Entry>, n: nat)
    requires n <= |fields|
    ensures var drop := RemoveUndeclared(Names(fields));
            var partial := RunOps(Additions(fields[..n]), Kept(drop, entries));
            && (forall e :: e in partial ==> Keeps(drop, e))
            && (forall name :: name in Names(fields[..n]) ==> HasName(partial, name))
  {
    var drop := RemoveUndeclared(Names(fields));
    var kept := Kept(drop, entries);
    var done := fields[..n];
    AdditionsAppend(done, kept);
    KeptNames(drop, entries);
    forall e | e in kept + Lacking(done, kept)
      ensures e.name in Names(fields)
    {
      if e !in kept {
        LackingDeclared(done, kept, e);
        assert Names(done) == Names(fields)[..n];
      }
    }
    forall name | name in Names(done)
      ensures HasName(kept + Lacking(done, kept), name)
    {
      LackingNames(done, kept, name);
    }
  }

  lemma {:induction false} LackingDeclared(fields: seq<FieldDefinition>, entries: seq<Entry>, e: Entry)
    requires e in Lacking(fields, entries)
    ensures e.name in Names(fields)
  {
    assert Names(fields) == [fields[0].name] + Names(fields[1..]);
    var rest := Lacking(fields[1..], OnList(Add(BuildFieldEntry(fields[0])), entries));
    if e in rest {
      LackingDeclared(fields[1..], OnList(Add(BuildFieldEntry(fields[0])), entries), e);
    }
  }

  // ------------------------------------------------------------------ the flat fields of an object

  lemma {:induction false} FlatRuns(typeId: int, ops: seq<ListOp>, o: Object)
    ensures Run(Flat(typeId, ops), o) == if o.typeId == typeId then o.(fields := RunOps(ops, o.fields)) else o
  {
    if ops != [] {
      FlatRuns(typeId, ops[1..], Effect(Flat(typeId, ops)[0], o));
      assert Flat(typeId, ops)[1..] == Flat(typeId, ops[1..]);
    }
  }

  /** The flat fields converge: declared entries survive in place, missing ones follow, other types are untouched. */
  lemma FieldsConverge(t: TypeDefinition, o: Object)
    ensures var kept := Kept(RemoveUndeclared(Names(t.fields)), o.fields);
            Run(FieldAlignment(t), o) ==
              if o.typeId == t.typeId then o.(fields := kept + Lacking(t.fields, kept)) else o
    ensures o.typeId == t.typeId ==>
              forall name :: HasName(Run(FieldAlignment(t), o).fields, name) <==> name in Names(t.fields)
  {
    FlatRuns(t.typeId, Ops(t.fields), o);
    ListConverges(t.fields, o.fields);
  }

  lemma FieldsResume(t: TypeDefinition, o: Object, j: nat)
    requires j <= |FieldAlignment(t)|
    ensures Run(FieldAlignment(t), Run(FieldAlignment(t)[..j], o)) == Run(FieldAlignment(t), o)
  {
    var ops := Ops(t.fields);
    assert Flat(t.typeId, ops)[..j] == Flat(t.typeId, ops[..j]);
    FlatRuns(t.typeId, ops[..j], o);
    FlatRuns(t.typeId, ops, Run(FieldAlignment(t)[..j], o));
    FlatRuns(t.typeId, ops, o);
    ListResumes(t.fields, o.fields, j);
  }

  // ------------------------------------------------------------------ the multi-data sections

  // The operations of the row statements that address one section
  function OpsFor(statements: seq<Statement>, sectionId: string): seq<ListOp>
    requires forall s :: s in statements ==> s.OnRows?
  {
    if statements == [] then []
    else (if statements[0].sectionId == sectionId then [statements[0].op] else []) + OpsFor(statements[1..], sectionId)
  }

  function RowsThrough(s: Section, ops: seq<ListOp>): Section {
    s.(rows := seq(|s.rows|, i requires 0 <= i < |s.rows| => Row(RunOps(ops, s.rows[i].data))))
  }

  function SectionsThrough(sections: seq<Section>, statements: seq<Statement>): seq<Section>
    requires forall s :: s in statements ==> s.OnRows?
  {
    seq(|sections|, i requires 0 <= i < |sections| => RowsThrough(sections[i], OpsFor(statements, sections[i].id)))
  }

  lemma {:induction false} RowsRun(typeId: int, statements: seq<Statement>, o: Object)
    requires o.typeId == typeId && forall s :: s in statements ==> s.OnRows? && s.typeId == typeId
    ensures Run(statements, o) == o.(sections := SectionsThrough(o.sections, statements))
  {
    if statements == [] {
      forall i | 0 <= i < |o.sections|
        ensures RowsThrough(o.sections[i], []) == o.sections[i]
      {
        assert RowsThrough(o.sections[i], []).rows == o.sections[i].rows;
      }
      assert SectionsThrough(o.sections, statements) == o.sections;
    } else {
      var next := Effect(statements[0], o);
      RowsRun(typeId, statements[1..], next);
      forall i | 0 <= i < |o.sections|
        ensures RowsThrough(next.sections[i], OpsFor(statements[1..], next.sections[i].id))
             == RowsThrough(o.sections[i], OpsFor(statements, o.sections[i].id))
      {
        RowsStep(statements, o.sections[i]);
      }
      assert SectionsThrough(next.sections, statements[1..]) == SectionsThrough(o.sections, statements);
    }
  }

  lemma RowsStep(statements: seq<Statement>, s: Section)
    requires statements != [] && forall s :: s in statements ==> s.OnRows?
    ensures RowsThrough(OnSection(statements[0].sectionId, statements[0].op, s), OpsFor(statements[1..], s.id))
         == RowsThrough(s, OpsFor(statements, s.id))
  {
    var next := OnSection(statements[0].sectionId, statements[0].op, s);
    var rest := OpsFor(statements[1..], s.id);
    if statements[0].sectionId == s.id {
      assert ([statements[0].op] + rest)[1..] == rest;
      assert RowsThrough(next, rest).rows == RowsThrough(s, OpsFor(statements, s.id)).rows;
    } else {
      assert [] + rest == rest;
    }
  }

  lemma {:induction false} OpsForConcat(a: seq<Statement>, b: seq<Statement>, sectionId: string)
    requires forall s :: s in a || s in b ==> s.OnRows?
    ensures OpsFor(a + b, sectionId) == OpsFor(a, sectionId) + OpsFor(b, sectionId)
  {
    if a == [] {
      assert a + b == b;
    } else {
      var ab := a + b;
      assert ab[0] == a[0] && ab[1..] == a[1..] + b;
      assert OpsFor(ab, sectionId) == (if a[0].sectionId == sectionId then [a[0].op] else []) + OpsFor(ab[1..], sectionId);
      OpsForConcat(a[1..], b, sectionId);
    }
  }

  lemma {:induction false} OpsForSection(typeId: int, name: string, ops: seq<ListOp>, sectionId: string)
    ensures OpsFor(InSection(typeId, name, ops), sectionId) == if name == sectionId then ops else []
  {
    if ops != [] {
      OpsForSection(typeId, name, ops[1..], sectionId);
      assert InSection(typeId, name, ops)[1..] == InSection(typeId, name, ops[1..]);
    }
  }

  lemma {:induction false} AllOnRows(typeId: int, sections: seq<SectionDefinition>)
    ensures forall s :: s in SectionStatements(typeId, sections) ==> s.OnRows? && s.typeId == typeId
  {
    if sections != [] {
      AllOnRows(typeId, sections[1..]);
    }
  }

  // The fields declared for a section, none for a section that is not declared
  function DeclaredIn(sections: seq<SectionDefinition>, sectionId: string): Option<seq<FieldDefinition>> {
    if sections == [] then None
    else if sections[0].name == sectionId then Some(sections[0].fields)
    else DeclaredIn(sections[1..], sectionId)
  }

  function OpsOf(sections: seq<SectionDefinition>, sectionId: string): seq<ListOp> {
    match DeclaredIn(sections, sectionId)
    case None => []
    case Some(fields) => Ops(fields)
  }

  // A section's name is its key: the type declares no two of one name
  predicate DistinctNames(sections: seq<SectionDefinition>) {
    sections != [] ==> sections[0].name !in SectionNames(sections[1..]) && DistinctNames(sections[1..])
  }

  lemma {:induction false} DeclaredInNames(sections: seq<SectionDefinition>, sectionId: string)
    ensures DeclaredIn(sections, sectionId).Some? <==> sectionId in SectionNames(sections)
  {
    if sections != [] {
      DeclaredInNames(sections[1..], sectionId);
      assert SectionNames(sections) == [sections[0].name] + SectionNames(sections[1..]);
    }
  }

  lemma {:induction false} OpsForAll(typeId: int, sections: seq<SectionDefinition>, sectionId: string)
    requires DistinctNames(sections)
    ensures (forall s :: s in SectionStatements(typeId, sections) ==> s.OnRows?)
    ensures OpsFor(SectionStatements(typeId, sections), sectionId) == OpsOf(sections, sectionId)
  {
    AllOnRows(typeId, sections);
    if sections != [] {
      var first, rest := InSection(typeId, sections[0].name, Ops(sections[0].fields)), SectionStatements(typeId, sections[1..]);
      OpsForAll(typeId, sections[1..], sectionId);
      OpsForSection(typeId, sections[0].name, Ops(sections[0].fields), sectionId);
      OpsForConcat(first, rest, sectionId);
      DeclaredInNames(sections[1..], sectionId);
    }
  }

  // ------------------------------------------------------------------ convergence and resumption of the sections

  // What the type's declared sections become: every row aligned with its section's fields
  function AlignedSections(sections: seq<SectionDefinition>, stored: seq<Section>): seq<Section> {
    seq(|stored|, i requires 0 <= i < |stored| => RowsThrough(stored[i], OpsOf(sections, stored[i].id)))
  }

  function Declared(t: TypeDefinition, stored: seq<Section>): seq<Section> {
    KeptSections(stored, id => id in SectionNames(t.sections))
  }

  /**
   The sections converge: undeclared ones are gone, and in each row of a declared one its declared entries
   survive in place, the missing ones follow; no row and no section is created, other types are untouched.
   */
  lemma SectionsConverge(t: TypeDefinition, o: Object)
    requires DistinctNames(t.sections)
    ensures Run(MdsAlignment(t), o) ==
              if o.typeId == t.typeId then o.(sections := AlignedSections(t.sections, Declared(t, o.sections))) else o
  {
    var statements := SectionStatements(t.typeId, t.sections);
    AllOnRows(t.typeId, t.sections);
    assert MdsAlignment(t)[1..] == statements;
    var first := Effect(MdsAlignment(t)[0], o);
    if o.typeId == t.typeId {
      assert first == o.(sections := Declared(t, o.sections));
      RowsRun(t.typeId, statements, first);
      forall i | 0 <= i < |first.sections|
        ensures OpsFor(statements, first.sections[i].id) == OpsOf(t.sections, first.sections[i].id)
      {
        OpsForAll(t.typeId, t.sections, first.sections[i].id);
      }
      assert SectionsThrough(first.sections, statements) == AlignedSections(t.sections, first.sections);
    } else {
      OtherTypeUntouched(t.typeId, statements, o);
    }
  }

  lemma {:induction false} OtherTypeUntouched(typeId: int, statements: seq<Statement>, o: Object)
    requires o.typeId != typeId && forall s :: s in statements ==> s.typeId == typeId
    ensures Run(statements, o) == o
  {
    if statements != [] {
      OtherTypeUntouched(typeId, statements[1..], o);
    }
  }

  // Every row of a declared section ends with exactly the section's names
  lemma RowsConverge(t: TypeDefinition, o: Object, i: nat, j: nat, name: string)
    requires DistinctNames(t.sections) && o.typeId == t.typeId
    requires i < |Declared(t, o.sections)| && j < |Declared(t, o.sections)[i].rows|
    ensures var before, after := Declared(t, o.sections)[i], Run(MdsAlignment(t), o).sections;
            && i < |after| && after[i].id == before.id && |after[i].rows| == |before.rows|
            && DeclaredIn(t.sections, before.id).Some?
            && (HasName(after[i].rows[j].data, name) <==> name in Names(DeclaredIn(t.sections, before.id).value))
  {
    SectionsConverge(t, o);
    var before := Declared(t, o.sections)[i];
    KeptAreDeclared(o.sections, id => id in SectionNames(t.sections), i);
    DeclaredInNames(t.sections, before.id);
    ListConverges(DeclaredIn(t.sections, before.id).value, before.rows[j].data);
  }

  lemma {:induction false} KeptAreDeclared(stored: seq<Section>, keep: string -> bool, i: nat)
    requires i < |KeptSections(stored, keep)|
    ensures keep(KeptSections(stored, keep)[i].id)
  {
    if keep(stored[0].id) {
      if i > 0 {
        KeptAreDeclared(stored[1..], keep, i - 1);
      }
    } else {
      KeptAreDeclared(stored[1..], keep, i);
    }
  }

  lemma {:induction false} KeptSectionsAll(stored: seq<Section>, keep: string -> bool)
    requires forall i :: 0 <= i < |stored| ==> keep(stored[i].id)
    ensures KeptSections(stored, keep) == stored
  {
    if stored != [] {
      KeptSectionsAll(stored[1..], keep);
    }
  }

  lemma {:induction false} OpsForPrefix(statements: seq<Statement>, n: nat, sectionId: string)
    requires n <= |statements| && forall s :: s in statements ==> s.OnRows?
    ensures OpsFor(statements[..n], sectionId) <= OpsFor(statements, sectionId)
  {
    assert statements == statements[..n] + statements[n..];
    OpsForConcat(statements[..n], statements[n..], sectionId);
  }

  lemma RowsResume(sections: seq<SectionDefinition>, s: Section, ops: seq<ListOp>)
    requires ops <= OpsOf(sections, s.id)
    ensures RowsThrough(RowsThrough(s, ops), OpsOf(sections, s.id)) == RowsThrough(s, OpsOf(sections, s.id))
  {
    var all := OpsOf(sections, s.id);
    forall i | 0 <= i < |s.rows|
      ensures RunOps(all, RunOps(ops, s.rows[i].data)) == RunOps(all, s.rows[i].data)
    {
      if DeclaredIn(sections, s.id).Some? {
        assert ops == all[..|ops|];
        ListResumes(DeclaredIn(sections, s.id).value, s.rows[i].data, |ops|);
      }
    }
    assert RowsThrough(RowsThrough(s, ops), all).rows == RowsThrough(s, all).rows;
  }

  lemma SectionsResume(t: TypeDefinition, o: Object, j: nat)
    requires DistinctNames(t.sections) && j <= |MdsAlignment(t)|
    ensures Run(MdsAlignment(t), Run(MdsAlignment(t)[..j], o)) == Run(MdsAlignment(t), o)
  {
    var all := MdsAlignment(t);
    var statements := SectionStatements(t.typeId, t.sections);
    AllOnRows(t.typeId, t.sections);
    if j == 0 {
      assert all[..0] == [];
    } else if o.typeId != t.typeId {
      OtherTypeUntouched(t.typeId, all[..j], o);
    } else {
      var done := statements[..j - 1];
      var kept := Declared(t, o.sections);
      var first := o.(sections := kept);
      assert all[..j][1..] == done && all[..j][0] == all[0];
      RowsRun(t.typeId, done, first);
      var partial := SectionsThrough(kept, done);
      assert Run(all[..j], o) == o.(sections := partial);
      KeptStay(t, o.sections, partial);
      forall i | 0 <= i < |kept|
        ensures RowsThrough(partial[i], OpsOf(t.sections, partial[i].id)) == RowsThrough(kept[i], OpsOf(t.sections, kept[i].id))
      {
        OpsForAll(t.typeId, t.sections, kept[i].id);
        OpsForPrefix(statements, j - 1, kept[i].id);
        RowsResume(t.sections, kept[i], OpsFor(done, kept[i].id));
      }
      assert AlignedSections(t.sections, partial) == AlignedSections(t.sections, kept);
      SectionsConverge(t, o);
      SectionsConverge(t, o.(sections := partial));
    }
  }

  lemma KeptStay(t: TypeDefinition, stored: seq<Section>, partial: seq<Section>)
    requires |partial| == |Declared(t, stored)| && forall i :: 0 <= i < |partial| ==> partial[i].id == Declared(t, stored)[i].id
    ensures Declared(t, partial) == partial
  {
    forall i | 0 <= i < |partial|
      ensures partial[i].id in SectionNames(t.sections)
    {
      KeptAreDeclared(stored, id => id in SectionNames(t.sections), i);
    }
    KeptSectionsAll(partial, id => id in SectionNames(t.sections));
  }
}
