/** How one client inserts: drawing a public_id, colliding, drawing again, and settling the counter. */
module InsertLoop {
  import opened Prelude

  const MAX_DUPLICATE_KEY_RETRIES: nat := 10

  // A document, by the key some other unique index is on (None: the index does not apply to it)
  datatype Record = Record(name: Option<string>)

  // One collection: its counter document, if there is one yet, and what is stored under which public_id
  datatype Store = Store(counter: Option<int>, docs: map<int, Record>)

  // What the server does when both indexes refuse, and whether it says which index refused
  datatype Server = Server(publicIdFirst: bool, reportsPattern: bool)

  datatype Answer = Stored | Refused(keyPattern: set<string>)

  datatype Result = Inserted(id: int) | Duplicate | Exhausted

  function Count(counter: Option<int>): int {
    if counter.Some? then counter.value else 0
  }

  predicate NameTaken(docs: map<int, Record>, doc: Record) {
    doc.name.Some? && exists id :: id in docs && docs[id].name == doc.name
  }

  // insert_one under the two unique indexes
  function InsertOne(server: Server, docs: map<int, Record>, id: int, doc: Record): Answer {
    var idTaken, nameTaken := id in docs, NameTaken(docs, doc);
    if !idTaken && !nameTaken then Stored
    else if !server.reportsPattern then Refused({})
    else if idTaken && (server.publicIdFirst || !nameTaken) then Refused({"public_id"})
    else Refused({"name"})
  }

  // An unnamed index is taken for the public_id one; a compound one is not
  predicate IsPublicIdConflict(keyPattern: set<string>) {
    keyPattern == {} || keyPattern == {"public_id"}
  }

  predicate RefusedForId(answer: Answer) {
    answer.Refused? && IsPublicIdConflict(answer.keyPattern)
  }

  // The least of the ids after `from` and within `amount` of it that is not taken
  function LeastFree(docs: map<int, Record>, from: int, amount: nat): (free: Option<int>)
    ensures free.Some? <==> exists id :: from < id <= from + amount && id !in docs
    ensures free.Some? ==>
              && from < free.value <= from + amount && free.value !in docs
              && forall id :: from < id < free.value ==> id in docs
    decreases amount
  {
    if amount == 0 then None
    else if from + 1 !in docs then Some(from + 1)
    else LeastFree(docs, from + 1, amount - 1)
  }

  // The counter after it was told of a stored id: never lowered, and created at 1 at the least
  function Raised(counter: Option<int>, id: int): Option<int> {
    match counter
    case None => Some(if id > 1 then id else 1)
    case Some(c) => Some(if id > c then id else c)
  }

  /** What an insert that may draw `amount` ids comes to, said without the loop. */
  function Drawn(server: Server, s: Store, doc: Record, amount: nat): (Store, Result) {
    var c := Count(s.counter);
    var free := LeastFree(s.docs, c, amount);
    if amount == 0 then (s, Exhausted)
    else if !NameTaken(s.docs, doc) then
      if free.Some? then (Store(free, s.docs[free.value := doc]), Inserted(free.value))
      else (s.(counter := Some(c + amount)), Exhausted)
    else if !server.reportsPattern then (s.(counter := Some(c + amount)), Exhausted)
    else if !server.publicIdFirst then (s.(counter := Some(c + 1)), Duplicate)
    else if free.Some? then (s.(counter := free), Duplicate)
    else (s.(counter := Some(c + amount)), Exhausted)
  }

  /** What an insert comes to. A supplied id costs the first of the attempts. */
  function Insertion(server: Server, s: Store, supplied: Option<int>, doc: Record): (Store, Result) {
    match supplied
    case None => Drawn(server, s, doc, MAX_DUPLICATE_KEY_RETRIES)
    case Some(id) =>
      match InsertOne(server, s.docs, id, doc)
      case Stored => (Store(Raised(s.counter, id), s.docs[id := doc]), Inserted(id))
      case Refused(pattern) =>
        if IsPublicIdConflict(pattern) then Drawn(server, s, doc, MAX_DUPLICATE_KEY_RETRIES - 1) else (s, Duplicate)
  }

  // The counter after `drawn` reservations
  function After(counter: Option<int>, drawn: nat): Option<int> {
    if drawn == 0 then counter else Some(Count(counter) + drawn)
  }

  // The loop so far: `attempts` made, the last `drawn` of them with ids of its own, all refused for their ids
  ghost predicate Collided(server: Server, s: Store, supplied: Option<int>, doc: Record, attempts: nat, drawn: nat) {
    && attempts <= MAX_DUPLICATE_KEY_RETRIES
    && drawn == (if attempts > 0 && supplied.Some? then attempts - 1 else attempts)
    && (forall id :: Count(s.counter) < id <= Count(s.counter) + drawn ==> RefusedForId(InsertOne(server, s.docs, id, doc)))
    && (attempts > 0 && supplied.Some? ==> RefusedForId(InsertOne(server, s.docs, supplied.value, doc)))
  }

  lemma NoneCollided(server: Server, s: Store, supplied: Option<int>, doc: Record)
    ensures Collided(server, s, supplied, doc, 0, 0)
  {
  }

  // What a draw comes to after `drawn` refused ones
  lemma DrawnAfter(server: Server, s: Store, doc: Record, amount: nat, drawn: nat)
    requires drawn < amount
    requires forall id :: Count(s.counter) < id <= Count(s.counter) + drawn ==> RefusedForId(InsertOne(server, s.docs, id, doc))
    ensures var id := Count(s.counter) + drawn + 1;
            var answer := InsertOne(server, s.docs, id, doc);
            && (answer.Stored? ==> Drawn(server, s, doc, amount) == (Store(Some(id), s.docs[id := doc]), Inserted(id)))
            && (answer.Refused? && !RefusedForId(answer) ==> Drawn(server, s, doc, amount) == (s.(counter := Some(id)), Duplicate))
            && (RefusedForId(answer) && drawn + 1 == amount ==> Drawn(server, s, doc, amount) == (s.(counter := Some(id)), Exhausted))
  {
    var c := Count(s.counter);
    assert {"name"} != {"public_id"} by { assert "name" in {"name"} && "name" !in {"public_id"}; }
    assert {"name"} != {} by { assert "name" in {"name"}; }
    forall id | c < id <= c + drawn
      ensures id in s.docs || (NameTaken(s.docs, doc) && !server.reportsPattern)
    {
      assert RefusedForId(InsertOne(server, s.docs, id, doc));
    }
    assert drawn > 0 ==> RefusedForId(InsertOne(server, s.docs, c + 1, doc));
    assert RefusedForId(InsertOne(server, s.docs, c + drawn + 1, doc)) ==>
             c + drawn + 1 in s.docs || (NameTaken(s.docs, doc) && !server.reportsPattern);
  }

  // One more attempt: it stores, it is a duplicate of something else, or it collides as well
  lemma NextAttempt(server: Server, s: Store, supplied: Option<int>, doc: Record, attempts: nat, drawn: nat)
    requires Collided(server, s, supplied, doc, attempts, drawn) && attempts < MAX_DUPLICATE_KEY_RETRIES
    ensures var callers := attempts == 0 && supplied.Some?;
            var id := if callers then supplied.value else Count(s.counter) + drawn + 1;
            var answer := InsertOne(server, s.docs, id, doc);
            var counter, now := After(s.counter, drawn), drawn + if callers then 0 else 1;
            match answer
            case Stored =>
              Insertion(server, s, supplied, doc)
              == (Store(if callers then Raised(counter, id) else Some(id), s.docs[id := doc]), Inserted(id))
            case Refused(pattern) =>
              if !IsPublicIdConflict(pattern)
              then Insertion(server, s, supplied, doc) == (s.(counter := After(s.counter, now)), Duplicate)
              else && Collided(server, s, supplied, doc, attempts + 1, now)
                   && (attempts + 1 == MAX_DUPLICATE_KEY_RETRIES ==>
                         Insertion(server, s, supplied, doc) == (s.(counter := After(s.counter, now)), Exhausted))
  {
    var amount := if supplied.Some? then MAX_DUPLICATE_KEY_RETRIES - 1 else MAX_DUPLICATE_KEY_RETRIES;
    hide Drawn, InsertOne;
    if drawn < amount {
      DrawnAfter(server, s, doc, amount, drawn);
    }
  }

  class Collection {
    var counter: Option<int>
    var docs: map<int, Record>
    const server: Server

    function Now(): Store
      reads this
    {
      Store(counter, docs)
    }

    constructor (server: Server)
      ensures Now() == Store(None, map[]) && this.server == server
    {
      this.server := server;
      counter, docs := None, map[];
    }

    // Atomic: {'$inc': {'counter': amount}}, creating the counter where there is none
    method ReservePublicIds(amount: nat) returns (ids: seq<int>)
      modifies this`counter
      ensures counter == Some(Count(old(counter)) + amount)
      ensures |ids| == amount && forall i :: 0 <= i < amount ==> ids[i] == Count(old(counter)) + 1 + i
    {
      counter := Some(Count(counter) + amount);
      var newMax := counter.value;
      var start := newMax - amount + 1;
      ids := seq(amount, i => start + i);
    }

    method RaiseCounter(value: int)
      modifies this`counter
      ensures counter == Raised(old(counter), value)
    {
      if counter.None? {
        counter := Some(if value > 1 then value else 1);
      } else if value > counter.value {
        counter := Some(value);
      }
    }

    method Insert(supplied: Option<int>, doc: Record) returns (result: Result)
      modifies this
      ensures (Now(), result) == Insertion(server, old(Now()), supplied, doc)
    {
      hide Insertion, Collided, InsertOne;
      var publicId := supplied;
      ghost var drawn := 0;
      NoneCollided(server, Now(), supplied, doc);
      for attempt := 0 to MAX_DUPLICATE_KEY_RETRIES
        invariant docs == old(docs)
        invariant publicId == if attempt == 0 then supplied else None
        invariant counter == if drawn == 0 then old(counter) else Some(Count(old(counter)) + drawn)
        invariant Collided(server, old(Now()), supplied, doc, attempt, drawn)
        invariant attempt == MAX_DUPLICATE_KEY_RETRIES ==> (Now(), Exhausted) == Insertion(server, old(Now()), supplied, doc)
      {
        NextAttempt(server, old(Now()), supplied, doc, attempt, drawn);
        var callerSupplied := publicId.Some?;
        if !callerSupplied {
          var ids := ReservePublicIds(1);
          publicId := Some(ids[0]);
          drawn := drawn + 1;
        }
        match InsertOne(server, docs, publicId.value, doc) {
          case Refused(pattern) =>
            if !IsPublicIdConflict(pattern) {
              return Duplicate;
            }
            publicId := None;
          case Stored =>
            docs := docs[publicId.value := doc];
            if callerSupplied {
              RaiseCounter(publicId.value);
            }
            return Inserted(publicId.value);
        }
      }
      return Exhausted;
    }

    /** Gives every document without a public_id one of a single reserved block, in the order they stand. */
    method AssignPublicIds(items: array<Option<int>>)
      modifies this`counter, items
      ensures var missing := MissingBefore(old(items[..]), items.Length);
              counter == if missing == 0 then old(counter) else Some(Count(old(counter)) + missing)
      ensures forall i :: 0 <= i < items.Length ==>
                items[i] == if old(items[i]).Some? then old(items[i])
                            else Some(Count(old(counter)) + 1 + MissingBefore(old(items[..]), i))
    {
      hide MissingBefore;
      ghost var was := items[..];
      var missing := MissingBefore(items[..], items.Length);
      if missing == 0 {
        NoneMissing(was);
        return;
      }
      var reserved := ReservePublicIds(missing);
      HandOut(items, reserved);
    }
  }

  // The zip loop: the documents without an id take the reserved ones in turn
  method HandOut(items: array<Option<int>>, reserved: seq<int>)
    requires |reserved| == MissingBefore(items[..], items.Length)
    modifies items
    ensures forall i :: 0 <= i < items.Length && old(items[i]).Some? ==> items[i] == old(items[i])
    ensures forall i :: 0 <= i < items.Length && old(items[i]).None? ==>
              MissingBefore(old(items[..]), i) < |reserved| && items[i] == Some(reserved[MissingBefore(old(items[..]), i)])
  {
    ghost var was := items[..];
    var next := 0;
    for i := 0 to items.Length
      invariant next == MissingBefore(was, i) <= |reserved|
      invariant forall j :: i <= j < items.Length ==> items[j] == was[j]
      invariant forall j :: 0 <= j < i && was[j].Some? ==> items[j] == was[j]
      invariant forall j :: 0 <= j < i && was[j].None? ==>
                  MissingBefore(was, j) < |reserved| && items[j] == Some(reserved[MissingBefore(was, j)])
    {
      MissingGrows(was, i + 1, items.Length);
      if items[i].None? {
        items[i] := Some(reserved[next]);
        next := next + 1;
      }
    }
  }

  function MissingBefore(items: seq<Option<int>>, i: nat): nat
    requires i <= |items|
  {
    if i == 0 then 0 else MissingBefore(items, i - 1) + if items[i - 1].None? then 1 else 0
  }

  lemma {:induction false} MissingGrows(items: seq<Option<int>>, i: nat, j: nat)
    requires i <= j <= |items|
    ensures MissingBefore(items, i) <= MissingBefore(items, j)
    decreases j
  {
    if i < j {
      MissingGrows(items, i, j - 1);
    }
  }

  lemma NoneMissing(items: seq<Option<int>>)
    requires MissingBefore(items, |items|) == 0
    ensures forall i :: 0 <= i < |items| ==> items[i].Some?
  {
    forall i | 0 <= i < |items|
      ensures items[i].Some?
    {
      MissingGrows(items, i + 1, |items|);
    }
  }

  // ------------------------------------------------------------------ what callers rely on

  /** An insert that meets public_id conflicts only takes the least free of the next ten ids, if there is one. */
  lemma AutoInsertExact(server: Server, s: Store, doc: Record)
    requires !NameTaken(s.docs, doc)
    ensures var c, (after, result) := Count(s.counter), Insertion(server, s, None, doc);
            && (result.Inserted? <==> exists id :: c < id <= c + 10 && id !in s.docs)
            && (result.Inserted? ==>
                  && c < result.id <= c + 10 && result.id !in s.docs
                  && (forall id :: c < id < result.id ==> id in s.docs)
                  && after == Store(Some(result.id), s.docs[result.id := doc]))
            && (!result.Inserted? ==> result == Exhausted && after == Store(Some(c + 10), s.docs))
  {
  }

  /**
   A free supplied id is kept, and the counter becomes the larger of the two, where there is none the larger of the id
   and 1; a taken one costs an attempt, and the
   least free of the next nine ids is taken instead.
   */
  lemma SuppliedInsertExact(server: Server, s: Store, id: int, doc: Record)
    requires !NameTaken(s.docs, doc)
    ensures var c, (after, result) := Count(s.counter), Insertion(server, s, Some(id), doc);
            && (id !in s.docs ==>
                  && result == Inserted(id) && after.docs == s.docs[id := doc] && after.counter.Some?
                  && (s.counter.None? ==> after.counter.value >= 1 && after.counter.value >= id
                                          && (after.counter.value == 1 || after.counter.value == id))
                  && (s.counter.Some? ==> after.counter.value >= c && after.counter.value >= id
                                          && (after.counter.value == c || after.counter.value == id)))
            && (id in s.docs ==>
                  && (result.Inserted? <==> exists free :: c < free <= c + 9 && free !in s.docs)
                  && (result.Inserted? ==>
                        && c < result.id <= c + 9 && result.id !in s.docs
                        && (forall free :: c < free < result.id ==> free in s.docs)
                        && after == Store(Some(result.id), s.docs[result.id := doc]))
                  && (!result.Inserted? ==> result == Exhausted && after == Store(Some(c + 9), s.docs)))
  {
    assert InsertOne(server, s.docs, id, doc) == if id !in s.docs then Stored
                                                 else Refused(if server.reportsPattern then {"public_id"} else {});
  }

  /**
   A duplicate of another index, recognised as one, is reported as soon as an id that is free is tried - or at once,
   where the server looks at the other index first. No id is drawn for a supplied one that is free.
   */
  lemma OtherDuplicateReported(server: Server, s: Store, supplied: Option<int>, doc: Record)
    requires NameTaken(s.docs, doc) && server.reportsPattern
    ensures !server.publicIdFirst ==>
              Insertion(server, s, supplied, doc)
              == (if supplied.Some? then s else s.(counter := Some(Count(s.counter) + 1)), Duplicate)
    ensures supplied.Some? && supplied.value !in s.docs ==> Insertion(server, s, supplied, doc) == (s, Duplicate)
    ensures server.publicIdFirst && (supplied.Some? ==> supplied.value in s.docs) ==>
              var draws := if supplied.Some? then MAX_DUPLICATE_KEY_RETRIES - 1 else MAX_DUPLICATE_KEY_RETRIES;
              var free := LeastFree(s.docs, Count(s.counter), draws);
              Insertion(server, s, supplied, doc)
              == if free.Some? then (s.(counter := free), Duplicate)
                 else (s.(counter := Some(Count(s.counter) + draws)), Exhausted)
  {
    assert {"name"} != {"public_id"} by { assert "name" in {"name"} && "name" !in {"public_id"}; }
    assert {"name"} != {} by { assert "name" in {"name"}; }
  }

  // The counter stands at or above every stored id
  ghost predicate Reconciled(s: Store) {
    forall id :: id in s.docs ==> id <= Count(s.counter)
  }

  /** Inserts keep the counter reconciled, and on a reconciled collection no draw ever collides. */
  lemma ReconciledInsert(server: Server, s: Store, supplied: Option<int>, doc: Record)
    requires Reconciled(s)
    ensures Reconciled(Insertion(server, s, supplied, doc).0)
    ensures supplied.None? && !NameTaken(s.docs, doc) ==>
              Insertion(server, s, supplied, doc).1 == Inserted(Count(s.counter) + 1)
  {
    var c := Count(s.counter);
    assert c + 1 !in s.docs;
    assert LeastFree(s.docs, c, 10) == Some(c + 1) && LeastFree(s.docs, c, 9) == Some(c + 1);
  }
}
