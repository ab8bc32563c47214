/** BSON values, and the CmdbObject document as the reports and the propagation see it. */
module Documents {
  import opened Prelude

  // A BSON value. Date counts milliseconds, the resolution MongoDB stores.
  datatype Bson =
    | Null
    | Bool(b: bool)
    | Num(n: real)
    | Str(s: string)
    | Date(ms: int)
    | Arr(items: seq<Bson>)
    | Doc(keys: map<string, Bson>)

  // One field entry of an object or of a multi-data row; an entry may lack its value or its type
  datatype Entry = Entry(name: string, value: Option<Bson>, kind: Option<string>)

  datatype Row = Row(data: seq<Entry>)

  datatype Section = Section(id: string, rows: seq<Row>)

  datatype Object = Object(typeId: int, fields: seq<Entry>, sections: seq<Section>)

  // ------------------------------------------------------------------ the stored form

  function OptionalKey(key: string, value: Option<Bson>): map<string, Bson> {
    if value.Some? then map[key := value.value] else map[]
  }

  function OptionalStr(text: Option<string>): Option<Bson> {
    if text.Some? then Some(Str(text.value)) else None
  }

  function EntryDoc(e: Entry): Bson {
    Doc(map["name" := Str(e.name)] + OptionalKey("value", e.value) + OptionalKey("type", OptionalStr(e.kind)))
  }

  function EntryDocs(entries: seq<Entry>): seq<Bson> {
    seq(|entries|, i requires 0 <= i < |entries| => EntryDoc(entries[i]))
  }

  function RowDoc(row: Row): Bson {
    Doc(map["data" := Arr(EntryDocs(row.data))])
  }

  function RowDocs(rows: seq<Row>): seq<Bson> {
    seq(|rows|, i requires 0 <= i < |rows| => RowDoc(rows[i]))
  }

  function SectionDoc(section: Section): Bson {
    Doc(map["section_id" := Str(section.id), "values" := Arr(RowDocs(section.rows))])
  }

  function SectionDocs(sections: seq<Section>): seq<Bson> {
    seq(|sections|, i requires 0 <= i < |sections| => SectionDoc(sections[i]))
  }

  function ObjectDoc(o: Object): Bson {
    Doc(map["type_id" := Num(o.typeId as real), "fields" := Arr(EntryDocs(o.fields)),
            "multi_data_sections" := Arr(SectionDocs(o.sections))])
  }
}
