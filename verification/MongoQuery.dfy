/** The MongoDB filters that reports and propagation are made of, and which documents they match. */
module MongoQuery {
  import opened Prelude
  import opened Documents

  // A document filter. Clause is {path: tests}, with the dotted path split at its dots.
  datatype Query =
    | AndQ(parts: seq<Query>)
    | OrQ(parts: seq<Query>)
    | Clause(path: seq<string>, tests: seq<Test>)

  // One operator of a clause; the operators of one clause must all hold
  datatype Test =
    | Eq(v: Bson)
    | Ne(v: Bson)
    | Lt(v: Bson)
    | Lte(v: Bson)
    | Gt(v: Bson)
    | Gte(v: Bson)
    | In(v: Bson)
    | Nin(v: Bson)
    | Regex(needle: string, ignoreCase: bool)  // of the escaped needle, which it finds literally
    | ElemMatch(inner: Query)
    | Not(tests: seq<Test>)

  // The values a path reaches; an array of documents on the way is entered, an array at the end is not
  function Resolve(b: Bson, path: seq<string>): seq<Bson>
    decreases |path|, b, 1
  {
    if path == [] then [b]
    else match b
      case Doc(keys) => if path[0] in keys then Resolve(keys[path[0]], path[1..]) else []
      case Arr(items) => ResolveEach(items, path)
      case _ => []
  }

  function ResolveEach(items: seq<Bson>, path: seq<string>): seq<Bson>
    decreases |path|, items, 0
  {
    if items == [] then []
    else (if items[0].Doc? then Resolve(items[0], path) else []) + ResolveEach(items[1..], path)
  }

  /**
   What a value operator is tried on: each value found, the elements of the arrays among them, and null
   when there is no value at all. (A path that only some elements of an array carry is not treated as null.)
   */
  predicate Candidate(found: seq<Bson>, c: Bson) {
    || c in found
    || (exists a :: a in found && a.Arr? && c in a.items)
    || (found == [] && c == Null)
  }

  // MongoDB compares values of one type only; documents and arrays are never ordered here
  predicate Less(a: Bson, b: Bson) {
    match (a, b)
    case (Bool(x), Bool(y)) => !x && y
    case (Num(x), Num(y)) => x < y
    case (Date(x), Date(y)) => x < y
    case (Str(x), Str(y)) => LessText(x, y)
    case _ => false
  }

  predicate LessText(a: string, b: string) {
    b != [] && (a == [] || a[0] < b[0] || (a[0] == b[0] && LessText(a[1..], b[1..])))
  }

  function Lower(s: string): string {
    seq(|s|, i requires 0 <= i < |s| => if 'A' <= s[i] <= 'Z' then (s[i] as int + 32) as char else s[i])
  }

  predicate OccursAt(s: string, needle: string, i: nat) {
    i + |needle| <= |s| && s[i..i + |needle|] == needle
  }

  predicate Contains(s: string, needle: string) {
    exists i :: 0 <= i <= |s| && OccursAt(s, needle, i)
  }

  predicate Finds(needle: string, ignoreCase: bool, c: Bson) {
    c.Str? && if ignoreCase then Contains(Lower(c.s), Lower(needle)) else Contains(c.s, needle)
  }

  ghost predicate Matches(q: Query, b: Bson)
    decreases q
  {
    match q
    case AndQ(parts) => forall i :: 0 <= i < |parts| ==> Matches(parts[i], b)
    case OrQ(parts) => exists i :: 0 <= i < |parts| && Matches(parts[i], b)
    case Clause(path, tests) => forall i :: 0 <= i < |tests| ==> Holds(tests[i], Resolve(b, path))
  }

  ghost predicate Holds(t: Test, found: seq<Bson>)
    decreases t
  {
    match t
    case Eq(v) => Candidate(found, v)
    case Ne(v) => !Candidate(found, v)
    case Lt(v) => exists c :: Candidate(found, c) && Less(c, v)
    case Lte(v) => exists c :: Candidate(found, c) && (Less(c, v) || c == v)
    case Gt(v) => exists c :: Candidate(found, c) && Less(v, c)
    case Gte(v) => exists c :: Candidate(found, c) && (Less(v, c) || c == v)
    case In(v) => v.Arr? && exists c :: Candidate(found, c) && c in v.items
    case Nin(v) => !(v.Arr? && exists c :: Candidate(found, c) && c in v.items)
    case Regex(needle, ignoreCase) => exists c :: Candidate(found, c) && Finds(needle, ignoreCase, c)
    case ElemMatch(inner) => exists a, e :: a in found && a.Arr? && e in a.items && e.Doc? && Matches(inner, e)
    case Not(tests) => !(forall i :: 0 <= i < |tests| ==> Holds(tests[i], found))
  }

  /** What the server refuses to run: an empty $and / $or, and $in / $nin without a list. */
  predicate Runnable(q: Query)
    decreases q
  {
    match q
    case AndQ(parts) => parts != [] && forall i :: 0 <= i < |parts| ==> Runnable(parts[i])
    case OrQ(parts) => parts != [] && forall i :: 0 <= i < |parts| ==> Runnable(parts[i])
    case Clause(_, tests) => forall i :: 0 <= i < |tests| ==> RunnableTest(tests[i])
  }

  predicate RunnableTest(t: Test)
    decreases t
  {
    match t
    case In(v) => v.Arr?
    case Nin(v) => v.Arr?
    case ElemMatch(inner) => Runnable(inner)
    case Not(tests) => forall i :: 0 <= i < |tests| ==> RunnableTest(tests[i])
    case _ => true
  }

  // ------------------------------------------------------------------ what paths reach in an object

  lemma {:induction false} ResolveEachMembers(items: seq<Bson>, path: seq<string>, b: Bson)
    ensures b in ResolveEach(items, path) <==> exists e :: e in items && e.Doc? && b in Resolve(e, path)
  {
    if items != [] {
      ResolveEachMembers(items[1..], path, b);
    }
  }

  lemma EntryPaths(e: Entry)
    ensures Resolve(EntryDoc(e), ["name"]) == [Str(e.name)]
    ensures Resolve(EntryDoc(e), ["value"]) == if e.value.Some? then [e.value.value] else []
  {
    var keys := EntryDoc(e).keys;
    assert ["name"][1..] == [] && ["value"][1..] == [];
    assert "name" in keys && keys["name"] == Str(e.name);
    assert "value" in keys <==> e.value.Some?;
  }

  lemma FlatPath(o: Object)
    ensures Resolve(ObjectDoc(o), ["fields"]) == [Arr(EntryDocs(o.fields))]
    ensures Resolve(ObjectDoc(o), ["type_id"]) == [Num(o.typeId as real)]
  {
    assert ["fields"][1..] == [] && ["type_id"][1..] == [];
  }

  const MDS_PATH := ["multi_data_sections", "values", "data"]

  lemma DataPath(row: Row, b: Bson)
    ensures b in Resolve(RowDoc(row), ["data"]) <==> b == Arr(EntryDocs(row.data))
  {
    assert ["data"][1..] == [];
  }

  lemma SectionPath(s: Section, b: Bson)
    ensures b in Resolve(SectionDoc(s), ["values", "data"]) <==> exists r :: r in s.rows && b == Arr(EntryDocs(r.data))
  {
    var rows := RowDocs(s.rows);
    assert ["values", "data"][1..] == ["data"];
    assert Resolve(SectionDoc(s), ["values", "data"]) == ResolveEach(rows, ["data"]);
    ResolveEachMembers(rows, ["data"], b);
    if e :| e in rows && e.Doc? && b in Resolve(e, ["data"]) {
      var j :| 0 <= j < |rows| && rows[j] == e;
      DataPath(s.rows[j], b);
    }
    if r :| r in s.rows && b == Arr(EntryDocs(r.data)) {
      var j :| 0 <= j < |s.rows| && s.rows[j] == r;
      DataPath(r, b);
      assert rows[j] in rows;
    }
  }

  lemma RowPath(o: Object, b: Bson)
    ensures b in Resolve(ObjectDoc(o), MDS_PATH) <==>
            exists s, r :: s in o.sections && r in s.rows && b == Arr(EntryDocs(r.data))
  {
    var sections := SectionDocs(o.sections);
    var inRows := ["values", "data"];
    assert MDS_PATH[1..] == inRows;
    assert Resolve(ObjectDoc(o), MDS_PATH) == ResolveEach(sections, inRows);
    ResolveEachMembers(sections, inRows, b);
    if e :| e in sections && e.Doc? && b in Resolve(e, inRows) {
      var i :| 0 <= i < |sections| && sections[i] == e;
      SectionPath(o.sections[i], b);
      assert o.sections[i] in o.sections;
    }
    if s, r :| s in o.sections && r in s.rows && b == Arr(EntryDocs(r.data)) {
      var i :| 0 <= i < |o.sections| && o.sections[i] == s;
      SectionPath(s, b);
      assert sections[i] in sections;
    }
  }

  // ------------------------------------------------------------------ filters of one test

  lemma ClauseMatches(path: seq<string>, t: Test, b: Bson)
    ensures Matches(Clause(path, [t]), b) <==> Holds(t, Resolve(b, path))
  {
    var q := Clause(path, [t]);
    assert q.tests[0] == t;
  }

  // {'type_id': ...}
  function TypeIs(typeId: int): Query {
    Clause(["type_id"], [Eq(Num(typeId as real))])
  }

  lemma TypeMatches(typeId: int, o: Object)
    ensures Matches(TypeIs(typeId), ObjectDoc(o)) <==> o.typeId == typeId
  {
    FlatPath(o);
    ClauseMatches(["type_id"], Eq(Num(typeId as real)), ObjectDoc(o));
    var found := [Num(o.typeId as real)];
    assert found[0] == Num(o.typeId as real);
  }
}
