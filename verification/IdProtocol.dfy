/**
 Any number of clients inserting into one collection at once, one atomic database call at a time.

 An insert is a client of its own: it draws an id or brings one, tries insert_one, on a collision draws
 again, and after storing a supplied id tells the counter - in two calls, a read and a write.
 */
module IdProtocol {
  import opened Prelude

  type Client = nat

  // Where an insert stands. Drawing has `left` attempts left; Storing holds the id in its document.
  datatype Local =
    | Drawing(left: nat)
    | Storing(id: int, supplied: bool, left: nat)
    | RaiseReading(id: int)
    | RaiseWriting(id: int)
    | RaiseCreating(id: int)
    | Done(id: int)
    | Failed

  // A document as stored: whose it is, and its public_id
  datatype Doc = Doc(owner: Client, id: int)

  // A contiguous block of ids handed out to somebody
  datatype Block = Block(first: int, amount: nat)

  datatype World = World(counter: Option<int>, docs: set<Doc>, clients: map<Client, Local>, blocks: seq<Block>)

  datatype Action =
    | Start(c: Client, supplied: Option<int>)
    | Draw(c: Client)              // reserve one id
    | DrawLost                     // a reservation applied whose acknowledgement was lost; it is repeated
    | Reserve(amount: nat)         // a bulk insert's block
    | Insert(c: Client)            // insert_one under the unique index
    | InsertLost(c: Client)        // insert_one applied, acknowledgement lost: not repeated
    | Resend(c: Client)            // insert_one never sent: all of insert is repeated, now with the id in its document
    | RaiseRead(c: Client)         // the counter raise, its read
    | RaiseWrite(c: Client)        // ... and its write
    | RaiseAtOnce(c: Client)       // both as one step
    | RaiseAgain(c: Client)        // the raise's write never sent: all of the raise is repeated
    | RaiseFails(c: Client)        // a raise that fails is logged, and the insert returns its id all the same
    | Fails(c: Client)             // drawing or insert_one fails, with nothing stored
    | SetCounter(value: int)       // set or reset, by an administrator

  const Init := World(None, {}, map[], [])

  function Count(counter: Option<int>): int {
    if counter.Some? then counter.value else 0
  }

  predicate IdTaken(docs: set<Doc>, id: int) {
    exists d :: d in docs && d.id == id
  }

  // A client that has not started is told apart by the guard on Start alone
  function StateOf(w: World, c: Client): Local {
    if c in w.clients then w.clients[c] else Failed
  }

  function Move(w: World, c: Client, to: Local): World {
    w.(clients := w.clients[c := to])
  }

  function Handed(w: World, amount: nat): Block {
    Block(Count(w.counter) + 1, amount)
  }

  function Advanced(w: World, amount: nat): World {
    w.(counter := Some(Count(w.counter) + amount))
  }

  function ReadCounter(w: World, c: Client): World {
    var l := StateOf(w, c);
    if !l.RaiseReading? then w
    else Move(w, c, match w.counter
                    case None => RaiseCreating(l.id)
                    case Some(n) => if l.id > n then RaiseWriting(l.id) else Done(l.id))
  }

  // Creating the counter is refused as a duplicate `_id` when somebody else created it meanwhile
  function WriteCounter(w: World, c: Client): World {
    match StateOf(w, c)
    case RaiseWriting(id) => Move(w.(counter := Some(id)), c, Done(id))
    case RaiseCreating(id) =>
      Move(if w.counter.None? then w.(counter := Some(if id > 1 then id else 1)) else w, c, Done(id))
    case _ => w
  }

  predicate Raising(l: Local) {
    l.RaiseReading? || l.RaiseWriting? || l.RaiseCreating?
  }

  // A step that is not enabled changes nothing
  function Do(w: World, a: Action): World {
    match a
    case Start(c, supplied) =>
      if c in w.clients then w
      else Move(w, c, if supplied.Some? then Storing(supplied.value, true, 10) else Drawing(10))
    case Draw(c) =>
      var l := StateOf(w, c);
      if l.Drawing? && l.left > 0 then
        Move(Advanced(w, 1).(blocks := w.blocks + [Handed(w, 1)]), c, Storing(Count(w.counter) + 1, false, l.left))
      else w
    case DrawLost => Advanced(w, 1)
    case Reserve(amount) => Advanced(w, amount).(blocks := w.blocks + [Handed(w, amount)])
    case Insert(c) =>
      var l := StateOf(w, c);
      if !l.Storing? then w
      else if IdTaken(w.docs, l.id) then Move(w, c, if l.left > 1 then Drawing(l.left - 1) else Failed)
      else Move(w.(docs := w.docs + {Doc(c, l.id)}), c, if l.supplied then RaiseReading(l.id) else Done(l.id))
    case InsertLost(c) =>
      var l := StateOf(w, c);
      if l.Storing? && !IdTaken(w.docs, l.id) then Move(w.(docs := w.docs + {Doc(c, l.id)}), c, Failed) else w
    case Resend(c) =>
      var l := StateOf(w, c);
      if l.Storing? then Move(w, c, Storing(l.id, true, 10)) else w
    case RaiseRead(c) => ReadCounter(w, c)
    case RaiseWrite(c) => WriteCounter(w, c)
    case RaiseAtOnce(c) => WriteCounter(ReadCounter(w, c), c)
    case RaiseAgain(c) =>
      var l := StateOf(w, c);
      if l.RaiseWriting? || l.RaiseCreating? then Move(w, c, RaiseReading(l.id)) else w
    case RaiseFails(c) =>
      var l := StateOf(w, c);
      if Raising(l) then Move(w, c, Done(l.id)) else w
    case Fails(c) =>
      var l := StateOf(w, c);
      if l.Drawing? || l.Storing? then Move(w, c, Failed) else w
    case SetCounter(value) => w.(counter := Some(value))
  }

  // The worlds a run goes through: Run(as)[i] is the world before the i-th action
  function Run(w: World, actions: seq<Action>): World
    decreases |actions|
  {
    if actions == [] then w else Do(Run(w, actions[..|actions| - 1]), actions[|actions| - 1])
  }

  // ------------------------------------------------------------------ ids stay distinct

  // Has this insert's document been stored, as far as the insert itself knows
  predicate KnowsStored(l: Local) {
    Raising(l) || l.Done?
  }

  ghost predicate Safe(w: World) {
    && (forall d, e :: d in w.docs && e in w.docs && d.id == e.id ==> d == e)
    && (forall d, e :: d in w.docs && e in w.docs && d.owner == e.owner ==> d == e)
    && (forall d :: d in w.docs ==> d.owner in w.clients && (KnowsStored(w.clients[d.owner]) || w.clients[d.owner].Failed?))
    && (forall c :: c in w.clients && KnowsStored(w.clients[c]) ==> Doc(c, w.clients[c].id) in w.docs)
  }

  // A client moves on without its document being stored or un-stored
  lemma MoveSafe(w: World, c: Client, to: Local)
    requires Safe(w)
    requires c !in w.clients || !(KnowsStored(w.clients[c]) || w.clients[c].Failed?) ==> !KnowsStored(to)
    requires c in w.clients && (KnowsStored(w.clients[c]) || w.clients[c].Failed?) ==>
               KnowsStored(w.clients[c]) && KnowsStored(to) && to.id == w.clients[c].id
    ensures Safe(Move(w, c, to))
  {
  }

  // A client stores its document under an id nothing else has
  lemma StoreSafe(w: World, c: Client, id: int, to: Local)
    requires Safe(w) && c in w.clients && !KnowsStored(w.clients[c]) && !w.clients[c].Failed? && !IdTaken(w.docs, id)
    requires to.Failed? || (KnowsStored(to) && to.id == id)
    ensures Safe(Move(w.(docs := w.docs + {Doc(c, id)}), c, to))
  {
    forall d | d in w.docs
      ensures d.id != id && d.owner != c
    {
    }
  }

  // The counter and the blocks handed out are no part of it
  lemma CounterSafe(w: World, counter: Option<int>, blocks: seq<Block>)
    requires Safe(w)
    ensures Safe(w.(counter := counter, blocks := blocks))
  {
  }

  lemma ReadSafe(w: World, c: Client)
    requires Safe(w)
    ensures Safe(ReadCounter(w, c))
  {
    hide Safe;
    var l := StateOf(w, c);
    if l.RaiseReading? {
      MoveSafe(w, c, StateOf(ReadCounter(w, c), c));
    }
  }

  lemma WriteSafe(w: World, c: Client)
    requires Safe(w)
    ensures Safe(WriteCounter(w, c))
  {
    hide Safe;
    var after := WriteCounter(w, c);
    CounterSafe(w, after.counter, w.blocks);
    var l := StateOf(w, c);
    if l.RaiseWriting? || l.RaiseCreating? {
      MoveSafe(w.(counter := after.counter, blocks := w.blocks), c, Done(l.id));
    }
  }

  lemma InsertSafe(w: World, c: Client)
    requires Safe(w)
    ensures Safe(Do(w, Insert(c))) && Safe(Do(w, InsertLost(c)))
  {
    hide Safe;
    var l := StateOf(w, c);
    if l.Storing? && !IdTaken(w.docs, l.id) {
      StoreSafe(w, c, l.id, if l.supplied then RaiseReading(l.id) else Done(l.id));
      StoreSafe(w, c, l.id, Failed);
    } else if l.Storing? {
      MoveSafe(w, c, if l.left > 1 then Drawing(l.left - 1) else Failed);
    }
  }

  lemma DrawSafe(w: World, c: Client)
    requires Safe(w)
    ensures Safe(Do(w, Draw(c)))
  {
    hide Safe;
    var l := StateOf(w, c);
    if l.Drawing? && l.left > 0 {
      var drawn := w.(counter := Some(Count(w.counter) + 1), blocks := w.blocks + [Handed(w, 1)]);
      CounterSafe(w, drawn.counter, drawn.blocks);
      MoveSafe(drawn, c, Storing(Count(w.counter) + 1, false, l.left));
    }
  }

  lemma MovedSafe(w: World, c: Client, a: Action)
    requires Safe(w) && (a == RaiseAgain(c) || a == RaiseFails(c) || a == Fails(c))
    ensures Safe(Do(w, a))
  {
    hide Safe;
    var l := StateOf(w, c);
    if Do(w, a) != w {
      MoveSafe(w, c, match a case RaiseAgain(_) => RaiseReading(l.id) case RaiseFails(_) => Done(l.id) case _ => Failed);
    }
  }

  lemma StepSafe(w: World, a: Action)
    requires Safe(w)
    ensures Safe(Do(w, a))
  {
    hide Safe;
    match a
    case Start(c, supplied) =>
      if c !in w.clients {
        MoveSafe(w, c, if supplied.Some? then Storing(supplied.value, true, 10) else Drawing(10));
      }
    case Draw(c) => DrawSafe(w, c);
    case Insert(c) => InsertSafe(w, c);
    case InsertLost(c) => InsertSafe(w, c);
    case Resend(c) =>
      var l := StateOf(w, c);
      if l.Storing? {
        MoveSafe(w, c, Storing(l.id, true, 10));
      }
    case RaiseRead(c) => ReadSafe(w, c);
    case RaiseWrite(c) => WriteSafe(w, c);
    case RaiseAtOnce(c) =>
      ReadSafe(w, c);
      WriteSafe(ReadCounter(w, c), c);
    case RaiseAgain(c) => MovedSafe(w, c, a);
    case RaiseFails(c) => MovedSafe(w, c, a);
    case Fails(c) => MovedSafe(w, c, a);
    case _ => CounterSafe(w, Do(w, a).counter, Do(w, a).blocks);
  }

  lemma {:induction false} RunSafe(actions: seq<Action>)
    ensures Safe(Run(Init, actions))
    decreases |actions|
  {
    if actions != [] {
      RunSafe(actions[..|actions| - 1]);
      StepSafe(Run(Init, actions[..|actions| - 1]), actions[|actions| - 1]);
    }
  }

  /**
   Whatever the interleaving, the counter raises and lowerings included: no two documents share a public_id,
   no insert stores two documents, and an insert that returns an id has its own document under it.
   */
  lemma IdsStayDistinct(actions: seq<Action>)
    ensures var w := Run(Init, actions);
            && (forall d, e :: d in w.docs && e in w.docs && (d.id == e.id || d.owner == e.owner) ==> d == e)
            && (forall c :: c in w.clients && w.clients[c].Done? ==> Doc(c, w.clients[c].id) in w.docs)
  {
    RunSafe(actions);
  }

  // ------------------------------------------------------------------ blocks stay apart

  function Top(b: Block): int {
    b.first + b.amount - 1
  }

  predicate Holds(b: Block, id: int) {
    b.first <= id <= Top(b)
  }

  ghost predicate Apart(a: Block, b: Block) {
    forall id :: Holds(a, id) ==> !Holds(b, id)
  }

  // Each block lies wholly above the ones handed out before it
  ghost predicate Ascending(blocks: seq<Block>) {
    forall i, j :: 0 <= i < j < |blocks| ==> Top(blocks[i]) < blocks[j].first
  }

  ghost predicate Covered(w: World) {
    forall i :: 0 <= i < |w.blocks| ==> Top(w.blocks[i]) <= Count(w.counter)
  }

  // No step of the run lowered the counter
  ghost predicate NeverLowers(actions: seq<Action>) {
    forall i :: 0 <= i < |actions| ==> KeepsAt(actions, i)
  }

  ghost predicate KeepsAt(actions: seq<Action>, i: nat)
    requires i < |actions|
  {
    Count(Run(Init, actions[..i]).counter) <= Count(Run(Init, actions[..i + 1]).counter)
  }

  /**
   The steps that lower the counter: an administrator setting it lower, and the second half of a raise whose id has
   been overtaken - the counter passed it since the raise read it.
   */
  predicate Lowers(w: World, a: Action) {
    match a
    case SetCounter(value) => value < Count(w.counter)
    case RaiseWrite(c) => StateOf(w, c).RaiseWriting? && StateOf(w, c).id < Count(w.counter)
    case RaiseAtOnce(c) => StateOf(w, c).RaiseWriting? && StateOf(w, c).id < Count(w.counter)
    case _ => false
  }

  ghost predicate LowersAt(actions: seq<Action>, i: nat)
    requires i < |actions|
  {
    Lowers(Run(Init, actions[..i]), actions[i])
  }

  lemma StepLowersIff(w: World, a: Action)
    ensures Count(Do(w, a).counter) < Count(w.counter) <==> Lowers(w, a)
  {
  }

  /** No run lowers the counter but through an overtaken raise, or an administrator setting it lower. */
  lemma NeverLowersIff(actions: seq<Action>)
    ensures NeverLowers(actions) <==> forall i :: 0 <= i < |actions| ==> !LowersAt(actions, i)
  {
    forall i | 0 <= i < |actions|
      ensures KeepsAt(actions, i) <==> !LowersAt(actions, i)
    {
      assert actions[..i + 1][..i] == actions[..i] && actions[..i + 1][i] == actions[i];
      StepLowersIff(Run(Init, actions[..i]), actions[i]);
    }
  }

  lemma StepBlocks(w: World, a: Action)
    requires Ascending(w.blocks) && Covered(w) && Count(w.counter) <= Count(Do(w, a).counter)
    ensures Ascending(Do(w, a).blocks) && Covered(Do(w, a))
  {
  }

  /** While nothing lowers the counter, the blocks ever handed out are ascending, hence pairwise disjoint. */
  lemma {:induction false} BlocksAscend(actions: seq<Action>)
    requires NeverLowers(actions)
    ensures Ascending(Run(Init, actions).blocks) && Covered(Run(Init, actions))
    decreases |actions|
  {
    if actions != [] {
      var n := |actions| - 1;
      forall i | 0 <= i < n
        ensures KeepsAt(actions[..n], i)
      {
        assert KeepsAt(actions, i);
        assert actions[..n][..i] == actions[..i] && actions[..n][..i + 1] == actions[..i + 1];
      }
      BlocksAscend(actions[..n]);
      assert KeepsAt(actions, n) && actions[..n + 1] == actions;
      StepBlocks(Run(Init, actions[..n]), actions[n]);
    }
  }

  // The raise as one step, and no administrator
  predicate Undivided(a: Action) {
    !a.RaiseRead? && !a.RaiseWrite? && !a.SetCounter?
  }

  ghost predicate NoRaisePending(w: World) {
    forall c :: c in w.clients ==> !w.clients[c].RaiseWriting? && !w.clients[c].RaiseCreating?
  }

  lemma UndividedStep(w: World, a: Action)
    requires Undivided(a) && NoRaisePending(w)
    ensures NoRaisePending(Do(w, a)) && Count(Do(w, a).counter) >= Count(w.counter)
  {
  }

  lemma {:induction false} UndividedRun(actions: seq<Action>)
    requires forall i :: 0 <= i < |actions| ==> Undivided(actions[i])
    ensures NoRaisePending(Run(Init, actions))
    decreases |actions|
  {
    if actions != [] {
      UndividedRun(actions[..|actions| - 1]);
      UndividedStep(Run(Init, actions[..|actions| - 1]), actions[|actions| - 1]);
    }
  }

  /** With the raise as one step, and without set and reset, no run lowers the counter - so its blocks ascend. */
  lemma UndividedRaiseKeepsBlocksApart(actions: seq<Action>)
    requires forall i :: 0 <= i < |actions| ==> Undivided(actions[i])
    ensures NeverLowers(actions)
    ensures Ascending(Run(Init, actions).blocks)
  {
    forall i | 0 <= i < |actions|
      ensures KeepsAt(actions, i)
    {
      assert actions[..i + 1][..i] == actions[..i] && actions[..i + 1][i] == actions[i];
      UndividedRun(actions[..i]);
      UndividedStep(Run(Init, actions[..i]), actions[i]);
    }
    BlocksAscend(actions);
  }

  /**
   Exactly when the next reservation, whatever its size, cannot repeat an id handed out before: the counter
   must not have fallen below any of them.
   */
  lemma NextBlockIsNewIff(w: World)
    ensures (forall amount: nat, i :: 0 <= i < |w.blocks| ==> Apart(w.blocks[i], Handed(w, amount)))
       <==> (forall i :: 0 <= i < |w.blocks| && w.blocks[i].amount > 0 ==> Top(w.blocks[i]) <= Count(w.counter))
  {
    if i :| 0 <= i < |w.blocks| && w.blocks[i].amount > 0 && Top(w.blocks[i]) > Count(w.counter) {
      var id := Top(w.blocks[i]);
      var b := Handed(w, id - Count(w.counter));
      assert Handed(w, b.amount) == b && Holds(w.blocks[i], id) && Holds(b, id);
    }
  }

  // ------------------------------------------------------------------ the raise as two calls

  const SPLIT_RAISE: seq<Action> :=
    [Reserve(1), Start(0, Some(5)), Insert(0), RaiseRead(0), Reserve(7), RaiseWrite(0), Reserve(1)]

  /**
   As two calls, the raise can lower the counter: another client's reservation falls between its read and its
   write, and the next one is handed an id that was handed out before.
   */
  lemma SplitRaiseRepeatsAnId()
    ensures Run(Init, SPLIT_RAISE).blocks == [Block(1, 1), Block(2, 7), Block(6, 1)]
    ensures !Apart(Block(2, 7), Block(6, 1))
  {
    SplitRaiseStarts();
    SplitRaiseEnds();
    assert Holds(Block(2, 7), 6) && Holds(Block(6, 1), 6);
  }

  // The client has read the counter at 1, for the 5 it stored
  const RAISE_READ := World(Some(1), {Doc(0, 5)}, map[0 := RaiseWriting(5)], [Block(1, 1)])

  lemma SplitRaiseStarts()
    ensures Run(Init, SPLIT_RAISE[..4]) == RAISE_READ
  {
    var w1 := World(Some(1), {}, map[], [Block(1, 1)]);
    var w2 := w1.(clients := map[0 := Storing(5, true, 10)]);
    var w3 := w2.(docs := {Doc(0, 5)}, clients := map[0 := RaiseReading(5)]);
    Unroll(SPLIT_RAISE, 0, Init, w1);
    Unroll(SPLIT_RAISE, 1, w1, w2);
    Unroll(SPLIT_RAISE, 2, w2, w3);
    Unroll(SPLIT_RAISE, 3, w3, RAISE_READ);
  }

  lemma SplitRaiseEnds()
    requires Run(Init, SPLIT_RAISE[..4]) == RAISE_READ
    ensures Run(Init, SPLIT_RAISE).blocks == [Block(1, 1), Block(2, 7), Block(6, 1)]
  {
    var w5 := RAISE_READ.(counter := Some(8), blocks := [Block(1, 1), Block(2, 7)]);
    var w6 := w5.(counter := Some(5), clients := map[0 := Done(5)]);
    var w7 := w6.(counter := Some(6), blocks := [Block(1, 1), Block(2, 7), Block(6, 1)]);
    Unroll(SPLIT_RAISE, 4, RAISE_READ, w5);
    Unroll(SPLIT_RAISE, 5, w5, w6);
    Unroll(SPLIT_RAISE, 6, w6, w7);
    assert SPLIT_RAISE[..7] == SPLIT_RAISE;
  }

  lemma Unroll(actions: seq<Action>, i: nat, w: World, next: World)
    requires i < |actions| && Run(Init, actions[..i]) == w && Do(w, actions[i]) == next
    ensures Run(Init, actions[..i + 1]) == next
  {
    assert actions[..i + 1][..i] == actions[..i];
  }

  // ------------------------------------------------------------------ where ids come from

  // Given by the caller of this insert, or handed out as a block of one
  ghost predicate Sourced(actions: seq<Action>, blocks: seq<Block>, c: Client, id: int) {
    Start(c, Some(id)) in actions || Block(id, 1) in blocks
  }

  ghost predicate AllSourced(actions: seq<Action>, w: World) {
    && (forall d :: d in w.docs ==> Sourced(actions, w.blocks, d.owner, d.id))
    && (forall c :: c in w.clients && w.clients[c].Storing? ==> Sourced(actions, w.blocks, c, w.clients[c].id))
  }

  lemma StepSourced(actions: seq<Action>, w: World, a: Action)
    requires AllSourced(actions, w)
    ensures AllSourced(actions + [a], Do(w, a))
  {
    var after := Do(w, a);
    assert forall b :: b in w.blocks ==> b in after.blocks;
    forall c, id | Sourced(actions, w.blocks, c, id)
      ensures Sourced(actions + [a], after.blocks, c, id)
    {
    }
    assert a in actions + [a];
    if a.Draw? && after != w {
      assert Handed(w, 1) in after.blocks;
    }
  }

  /**
   Over every run, a document is stored under the id its caller gave, or under one that was handed out to a single
   insert.
   */
  lemma {:induction false} StoredIdsAreSourced(actions: seq<Action>)
    ensures AllSourced(actions, Run(Init, actions))
    decreases |actions|
  {
    if actions != [] {
      var n := |actions| - 1;
      StoredIdsAreSourced(actions[..n]);
      StepSourced(actions[..n], Run(Init, actions[..n]), actions[n]);
      assert actions == actions[..n] + [actions[n]];
    }
  }

  function HandedOut(blocks: seq<Block>): nat {
    if blocks == [] then 0 else HandedOut(blocks[..|blocks| - 1]) + blocks[|blocks| - 1].amount
  }

  function Lost(actions: seq<Action>): nat {
    if actions == [] then 0 else Lost(actions[..|actions| - 1]) + if actions[|actions| - 1] == DrawLost then 1 else 0
  }

  // Only reservations move the counter
  predicate OnlyDraws(a: Action) {
    !a.RaiseWrite? && !a.RaiseAtOnce? && !a.SetCounter?
  }

  /** Where only reservations move the counter, it has counted every id handed out and every one lost, no more. */
  lemma {:induction false} EveryIdCounted(actions: seq<Action>)
    requires forall i :: 0 <= i < |actions| ==> OnlyDraws(actions[i])
    ensures var w := Run(Init, actions); Count(w.counter) == HandedOut(w.blocks) + Lost(actions)
    decreases |actions|
  {
    if actions != [] {
      var n := |actions| - 1;
      EveryIdCounted(actions[..n]);
      var w, after := Run(Init, actions[..n]), Run(Init, actions);
      assert after.blocks == w.blocks || (|after.blocks| == |w.blocks| + 1 && after.blocks[..|w.blocks|] == w.blocks);
    }
  }

  // ------------------------------------------------------------------ one insert alone

  // So many rounds of drawing and inserting, with nothing in between
  function Alone(w: World, c: Client, rounds: nat): World
    decreases rounds
  {
    if rounds == 0 then w else Alone(Do(Do(w, Draw(c)), Insert(c)), c, rounds - 1)
  }

  lemma {:induction false} SettledStays(w: World, c: Client, rounds: nat)
    requires StateOf(w, c).Done? || StateOf(w, c).Failed?
    ensures Alone(w, c, rounds) == w
    decreases rounds
  {
    if rounds > 0 {
      SettledStays(w, c, rounds - 1);
    }
  }

  // The least free id above n
  ghost predicate FirstFree(docs: set<Doc>, n: int, id: int) {
    n < id && !IdTaken(docs, id) && forall x :: n < x < id ==> IdTaken(docs, x)
  }

  /** Undisturbed, an insert that may draw so many times takes the least free id within reach of them. */
  lemma {:induction false} AloneTakesLeastFree(w: World, c: Client, rounds: nat, id: int)
    requires c in w.clients && w.clients[c] == Drawing(rounds)
    requires FirstFree(w.docs, Count(w.counter), id) && id <= Count(w.counter) + rounds
    ensures Alone(w, c, rounds)
         == World(Some(id), w.docs + {Doc(c, id)}, w.clients[c := Done(id)], Alone(w, c, rounds).blocks)
    decreases rounds
  {
    hide Do, IdTaken;
    var n := Count(w.counter);
    var next := Do(Do(w, Draw(c)), Insert(c));
    OneRound(w, c, rounds);
    if id == n + 1 {
      SettledStays(next, c, rounds - 1);
    } else {
      AloneTakesLeastFree(next, c, rounds - 1, id);
      assert next.clients[c := Done(id)] == w.clients[c := Done(id)];
    }
  }

  /** ... and fails if all of those are taken, having used them up. */
  lemma {:induction false} AloneFails(w: World, c: Client, rounds: nat)
    requires rounds > 0 && c in w.clients && w.clients[c] == Drawing(rounds)
    requires forall x :: Count(w.counter) < x <= Count(w.counter) + rounds ==> IdTaken(w.docs, x)
    ensures Alone(w, c, rounds)
         == World(Some(Count(w.counter) + rounds), w.docs, w.clients[c := Failed], Alone(w, c, rounds).blocks)
    decreases rounds
  {
    hide Do, IdTaken;
    var next := Do(Do(w, Draw(c)), Insert(c));
    OneRound(w, c, rounds);
    if rounds == 1 {
      SettledStays(next, c, 0);
    } else {
      AloneFails(next, c, rounds - 1);
      assert next.clients[c := Failed] == w.clients[c := Failed];
    }
  }

  lemma OneRound(w: World, c: Client, rounds: nat)
    requires rounds > 0 && c in w.clients && w.clients[c] == Drawing(rounds)
    ensures var id, next := Count(w.counter) + 1, Do(Do(w, Draw(c)), Insert(c));
            && next.counter == Some(id)
            && (!IdTaken(w.docs, id) ==> next.docs == w.docs + {Doc(c, id)} && next.clients == w.clients[c := Done(id)])
            && (IdTaken(w.docs, id) ==>
                  next.docs == w.docs && next.clients == w.clients[c := if rounds > 1 then Drawing(rounds - 1) else Failed])
  {
    var drawn := Do(w, Draw(c));
    assert drawn.clients == w.clients[c := Storing(Count(w.counter) + 1, false, rounds)];
  }

  /** The counter raise as one step, or as its two steps with nothing in between: the counter covers the id. */
  lemma RaiseCovers(w: World, c: Client)
    requires StateOf(w, c).RaiseReading?
    ensures var id, after := StateOf(w, c).id, Do(w, RaiseAtOnce(c));
            && StateOf(after, c) == Done(id)
            && after.counter == Some(match w.counter case None => (if id > 1 then id else 1) case Some(n) => (if id > n then id else n))
            && Do(Do(w, RaiseRead(c)), RaiseWrite(c)) == after
  {
  }
}
