/** The server-side updates that carry a type's field changes into its objects. */
module Propagation {
  import opened Prelude
  import opened Documents
  import opened MongoQuery

  // ------------------------------------------------------------------ update documents

  // One step of an update path; $[] takes every element of an array, $[name] those its filter matches
  datatype Step = Key(name: string) | Every | Filtered(identifier: string)

  datatype Change = Push(path: seq<Step>, item: Bson) | Pull(path: seq<Step>, condition: Query)

  datatype RawUpdate = RawUpdate(filter: Query, change: Change, arrayFilters: map<string, Query>)

  // The document with f applied at every place the path leads to
  ghost function ChangeAt(b: Bson, path: seq<Step>, filters: map<string, Query>, f: Bson -> Bson): Bson
    decreases |path|
  {
    if path == [] then f(b)
    else match path[0]
      case Key(name) =>
        if b.Doc? && name in b.keys then Doc(b.keys[name := ChangeAt(b.keys[name], path[1..], filters, f)]) else b
      case Every =>
        if b.Arr? then Arr(seq(|b.items|, i requires 0 <= i < |b.items| => ChangeAt(b.items[i], path[1..], filters, f)))
        else b
      case Filtered(identifier) =>
        if b.Arr? && identifier in filters then
          Arr(seq(|b.items|, i requires 0 <= i < |b.items| =>
            if Matches(filters[identifier], b.items[i]) then ChangeAt(b.items[i], path[1..], filters, f) else b.items[i]))
        else b
  }

  ghost function Pulled(items: seq<Bson>, condition: Query): seq<Bson> {
    if items == [] then []
    else (if items[0].Doc? && Matches(condition, items[0]) then [] else [items[0]]) + Pulled(items[1..], condition)
  }

  ghost function ChangeValue(change: Change): Bson -> Bson {
    match change
    case Push(_, item) => (b: Bson) => if b.Arr? then Arr(b.items + [item]) else b
    case Pull(_, condition) => (b: Bson) => if b.Arr? then Arr(Pulled(b.items, condition)) else b
  }

  // What update_many makes of one document
  ghost function Apply(u: RawUpdate, b: Bson): Bson {
    if Matches(u.filter, b) then ChangeAt(b, u.change.path, u.arrayFilters, ChangeValue(u.change)) else b
  }

  // ------------------------------------------------------------------ the builders

  // A change of one list of entries, be it an object's fields or a row's data
  datatype ListOp = Add(entry: Entry) | RemoveNamed(names: seq<string>) | RemoveUndeclared(declared: seq<string>)

  // One statement, in the words of its builder
  datatype Statement =
    | OnFields(typeId: int, op: ListOp)
    | OnRows(typeId: int, sectionId: string, op: ListOp)
    | RemoveSection(typeId: int, sectionId: string)
    | RemoveUndeclaredSections(typeId: int, declared: seq<string>)

  function Strings(names: seq<string>): Bson {
    Arr(seq(|names|, i requires 0 <= i < |names| => Str(names[i])))
  }

  function NameTest(op: ListOp): Test {
    match op
    case Add(entry) => Ne(Str(entry.name))
    case RemoveNamed(names) => In(Strings(names))
    case RemoveUndeclared(declared) => Nin(Strings(declared))
  }

  const SECTIONS := Key("multi_data_sections")
  const SECTION := "s"
  const ROW := "v"

  function SectionIs(sectionId: string): Query {
    Clause(["section_id"], [Eq(Str(sectionId))])
  }

  function ListChange(path: seq<Step>, op: ListOp): Change {
    if op.Add? then Push(path, EntryDoc(op.entry)) else Pull(path, Clause(["name"], [NameTest(op)]))
  }

  function Build(s: Statement): RawUpdate {
    match s
    case OnFields(typeId, op) =>
      RawUpdate(if op.Add? then AndQ([TypeIs(typeId), Clause(["fields", "name"], [NameTest(op)])]) else TypeIs(typeId),
                ListChange([Key("fields")], op), map[])
    case OnRows(typeId, sectionId, op) =>
      RawUpdate(AndQ([TypeIs(typeId), Clause(["multi_data_sections", "section_id"], [Eq(Str(sectionId))])]),
                ListChange([SECTIONS, Filtered(SECTION), Key("values"), if op.Add? then Filtered(ROW) else Every, Key("data")], op),
                map[SECTION := SectionIs(sectionId)]
                + if op.Add? then map[ROW := Clause(["data", "name"], [NameTest(op)])] else map[])
    case RemoveSection(typeId, sectionId) =>
      RawUpdate(TypeIs(typeId), Pull([SECTIONS], SectionIs(sectionId)), map[])
    case RemoveUndeclaredSections(typeId, declared) =>
      RawUpdate(TypeIs(typeId), Pull([SECTIONS], Clause(["section_id"], [Nin(Strings(declared))])), map[])
  }

  // A field as its type declares it; the type of the field and its default may be missing
  datatype FieldDefinition = FieldDefinition(name: string, kind: Option<string>, value: Option<Bson>)

  function BuildFieldEntry(field: FieldDefinition): Entry {
    Entry(field.name,
          Some(if field.value.Some? then field.value.value else Null),
          Some(if field.kind.Some? then field.kind.value else "text"))
  }

  // ------------------------------------------------------------------ what they do to an object

  predicate HasName(entries: seq<Entry>, name: string) {
    exists i :: 0 <= i < |entries| && entries[i].name == name
  }

  predicate Keeps(op: ListOp, e: Entry) {
    match op
    case Add(_) => true
    case RemoveNamed(names) => e.name !in names
    case RemoveUndeclared(declared) => e.name in declared
  }

  function Kept(op: ListOp, entries: seq<Entry>): seq<Entry> {
    if entries == [] then [] else (if Keeps(op, entries[0]) then [entries[0]] else []) + Kept(op, entries[1..])
  }

  function OnList(op: ListOp, entries: seq<Entry>): seq<Entry> {
    if op.Add? then (if HasName(entries, op.entry.name) then entries else entries + [op.entry]) else Kept(op, entries)
  }

  function OnSection(sectionId: string, op: ListOp, s: Section): Section {
    if s.id == sectionId
    then s.(rows := seq(|s.rows|, i requires 0 <= i < |s.rows| => Row(OnList(op, s.rows[i].data))))
    else s
  }

  function KeptSections(sections: seq<Section>, keep: string -> bool): seq<Section> {
    if sections == [] then []
    else (if keep(sections[0].id) then [sections[0]] else []) + KeptSections(sections[1..], keep)
  }

  function Effect(s: Statement, o: Object): Object {
    if o.typeId != s.typeId then o
    else match s
      case OnFields(_, op) => o.(fields := OnList(op, o.fields))
      case OnRows(_, sectionId, op) =>
        o.(sections := seq(|o.sections|, i requires 0 <= i < |o.sections| => OnSection(sectionId, op, o.sections[i])))
      case RemoveSection(_, sectionId) => o.(sections := KeptSections(o.sections, id => id != sectionId))
      case RemoveUndeclaredSections(_, declared) => o.(sections := KeptSections(o.sections, id => id in declared))
  }
}
