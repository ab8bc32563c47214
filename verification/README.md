# A verified model of DataGerry's stand-ins for database guarantees

DataGerry keeps a CMDB in standalone MongoDB, which gives it no transactions, no foreign keys and no sequences.
The code modelled here supplies those: it compensates failed requests, allocates ids, keeps trees, compiles report
conditions, carries type changes into objects, scans patterns, fills defaults and cleans up references. Each part
is a handful of modules; the database is a map of documents whose calls may fail before their effect, after it, or
with any part of it done.

- **Write ledger** (`LedgerStore`, `LedgerUndo`, `LedgerHistory`, `LedgerHonesty`, `LedgerReports`, `LedgerFold`,
  `LedgerRerun`, `LedgerCallers`, `WriteLedger`): the undo as a function of a store and a script of faults, the history
  of a request, honesty and exactness of the residue under every script, the fault-free undo as a fold per document,
  what a first and a second undo report, the inverses requests record, and the class whose methods come to that
  function.
- **Report conditions** (`Documents`, `MongoQuery`, `QueryBuilder`, `ReportMeaning`, `ReportSelection`,
  `ReportCorrectness`, `ReportExactness`, `ReportOperators`, `ReportRunnable`): BSON values, the filters and what they match, the
  compiler, a meaning of the condition tree that uses none of the compiler's conversions, what the query selects, and
  exactly when a rule is compiled to its meaning: on one object, and on all. `ReportOperators` tells each operator by
  its text.
- **public_id allocation** (`InsertLoop`, `IdProtocol`, `Retry`): one client's insert loop, any number of clients
  step by step, and the retry wrapper.
- **Parent links** (`Forest`, `Categories`, `Locations`): reachability over a finite map of parents, and two trees.
- **Type changes** (`Propagation`, `PropagationMeaning`, `Alignment`, `ObjectsManager`) and **reference scrub**
  (`ReferenceScrub`): update documents, what they do to a document, convergence and safe re-runs.
- **Pattern scanner** (`PatternTokens`, `PatternScanner`, `PatternDialect`): a declarative tokenizer, the one-pass
  scan, and what is refused told by the characters.
- **Object writes** (`ObjectRules`, `ObjectDefaults`, `ObjectFilling`, `ObjectVerdicts`, `ObjectFields`): default
  filling and the two judges that see its result, and what the field definitions ask, in their own terms.
- **References** (`ReferenceMerge`, `PersonCascade`, `PersonReferences`, `Sorting`): merge, sort and pages; the
  delete cascades of persons and groups.
- `Prelude` holds Option, Result and a few facts about sequences.

`dafny verify dfyconfig.toml` checks all of it.

## Assumptions

- A faulty call is described by the set of documents it reached; a single document is changed atomically. A call
  beyond the end of a fault script succeeds.
- Ledger: public_id and `_id` are unique in a collection, MongoDB gives no `_id` to two documents, and one it hands
  out during an undo is new. A batch's documents carry `_id`s nothing carried before, and its criteria match only
  documents the request created. A snapshot of an update or a delete is the document with or without its `_id` - the
  reads leave it out unless asked (cmdb/database/mongo_database_manager.py:802-803) - and one that a batch delete
  takes carries it. An array of ids is the set of its members. A custom inverse is described by its footprint: of each
  document it touches, the keys it touches and what they held.
- Reports: the fields' kinds, and the readers of dates and numbers (strptime, int, float, str), are parameters;
  instants are milliseconds.
- Locations: a chain is hidden when some node of it has a denied type (cmdb/models/location_model/location_visibility.py:46-60).
- Patterns and texts: Python's isalnum, isalpha and isdigit come in as a table, and whether a pattern compiles or
  matches, or runs out of time, as parameters.

## Where the code and its own text part

- cmdb/database/retry.py:105-132 takes a `DocumentGetError` for a read's failure, but reserve_public_ids (cmdb/database/mongo_public_id_counter_mixin.py:134-168)
  raises it for a write: the reservation is repeated after a lost acknowledgement (`Retry.ReservationMayApplyThrice`).
  Ids are skipped by it, none is handed out twice.
- The counter raise reads and then sets (cmdb/database/mongo_public_id_counter_mixin.py:228-278): between the two another client's reservation can
  be overtaken, and the counter falls (`IdProtocol.SplitRaiseRepeatsAnId`). It falls only so, or by being set lower
  (`IdProtocol.NeverLowersIff`). The unique index still keeps stored ids distinct; only blocks are affected.
- A repeated write applies each of its commands at most once when it is one command. bulk_write sends a command per
  500 operations (cmdb/database/mongo_database_manager.py:410-442), and when a later one is not sent the first ones go
  out again (`Retry.SafeIffOneCommand`).
- A second undo changes nothing in the store but `_id`s, and may report residue where there is none; exactly when is
  `LedgerRerun.SecondUndoChangesNothing`, and `LedgerRerun.SecondUndoMisreports` shows it.
- A document deleted from a snapshot without its `_id` comes back under a new one. If a batch delete before had
  missed it, the count by `_id` then reports that delete as not undone, though it is (`LedgerRerun.FirstQuietIff`).
- Where a document lacks a membership array altogether, adding a member and undoing it leaves an empty array behind
  (`LedgerCallers.PullRestoresIff`); the verification, which asks who lists the member, does not see it.
- build() accepts empty nested groups and in / not in without a list, which the server refuses to run
  (`ReportRunnable.BuiltQueryRunsIff`).
- An entry holding a list of dates before and after a day, but none on it, passes for equal to the day
  (`ReportSelection.DateFragmentMeans`, `ReportExactness.StraddlingListSelected`).
- Values of number fields go through int(), which cuts fractions (cmdb/database/mongo_query_builder.py:456-490): a rule
  = 12.5 asks for 12 (`ReportExactness.FractionLost`; exactly which rules that harms is `ReportExactness.RuleAlwaysMeansIff`).

## Model

| member | source | states |
|---|---|---|
| `LedgerHonesty.UndoIsHonest` | cmdb/framework/write_ledger.py:239-262 | For every faithful history and every script of failing, half-applied or lost deletes, replaces, inserts and read-backs: a document the undo leaves different from the store before the first write (`_id` aside) is named, or matched, by the residue |
| `LedgerHonesty.NoResidueMeansRestored` | cmdb/framework/write_ledger.py:239-262 | An undo that reports nothing has put every document back but for its `_id`, for every faithful history and every fault script |
| `LedgerReports.UndoReportsIff` | cmdb/framework/write_ledger.py:239-262 | Exactness under every script of faults: something is reported if and only if, when the turn of its group came, the read-back failed or the store bore the report out - an inserted document still there, something of a batch, an updated or deleted one missing or unlike its snapshot, a snapshot's `_id` missing, the verification saying no |
| `LedgerReports.GroupReportsIff` | cmdb/framework/write_ledger.py:289-428 | The same of one group, with the number of calls its undo makes |
| `LedgerReports.SucceedingGroup` | cmdb/framework/write_ledger.py:248-260 | A group none of whose own calls fails is undone as if nothing had failed at all |
| `LedgerReports.InsertsInOrder` | cmdb/framework/write_ledger.py:303-318 | The survivors of a run are named in the order of their ids |
| `LedgerHonesty.GroupStepSound` | cmdb/framework/write_ledger.py:248-260 | One undo group of any kind carries the invariant (each document settled, or pinned by the residue) from after its writes to before them, whatever fails in it |
| `LedgerHonesty.InsertStepSound` | cmdb/framework/write_ledger.py:289-318 | A run of inserts undone by one delete and one read-back keeps that invariant; a failed read-back reports every id |
| `LedgerHonesty.InsertBatchStepSound` | cmdb/framework/write_ledger.py:321-345 | A batch undone by its criteria keeps the invariant, also when they match earlier inserts of the same request; what survives is caught by the criteria the residue names |
| `LedgerHonesty.UpdateStepSound` | cmdb/framework/write_ledger.py:348-369 | A replace checked by a read-back keeps the invariant |
| `LedgerHonesty.DeleteStepSound` | cmdb/framework/write_ledger.py:372-398 | A re-insert that is skipped when the document is still stored keeps the invariant, whether the snapshot carries the `_id` or the document gets a new one |
| `LedgerHonesty.RestoreStepSound` | cmdb/framework/write_ledger.py:212-236 | The undo of deleted_many keeps the invariant when the re-insert or the count fails or is cut short |
| `LedgerHonesty.CustomStepSound` | cmdb/framework/write_ledger.py:401-428 | A custom inverse that may raise half-way, verified or not, keeps the invariant, with a verification that reads nothing but the keys written |
| `LedgerHonesty.CountMeansAll` | cmdb/framework/write_ledger.py:465-476 | As no two documents share an `_id`, a count equal to the number of snapshots means every snapshot is stored |
| `LedgerCallers.RepointingRecorded` | cmdb/interface/rest_api/routes/framework_routes/cmdb_locations/location_helper.py:535-551 | What the ledger asks of a custom inverse holds of re-pointing one key of stored documents, cut off anywhere, verified by that key alone: the locations of objects, the group of users, a collection's counter; the inverse sets the key whatever it holds |
| `LedgerCallers.RemovalRecorded` | cmdb/interface/rest_api/routes/user_management_routes/cmdb_groups/group_usage_helper.py:211-245 | The same of a removed key that is put back, verified by its mere presence |
| `LedgerCallers.MembershipRecorded` | cmdb/interface/rest_api/routes/user_management_routes/person_membership_helper.py:107-151 | The same of a member pulled out of, or added to, arrays of ids that are there, verified by listing who names the member |
| `LedgerCallers.PullRestoresIff` | cmdb/interface/rest_api/routes/user_management_routes/person_membership_helper.py:107-127 | Pulling a member that was added puts a document back exactly when it had the array before |
| `LedgerFold.UndoIsFold` | cmdb/framework/write_ledger.py:239-262 | From any store whose `_id`s are in order, where each custom inverse sets its keys outright or finds them gone or in play, the undo without faults of a history of invertible writes leaves each document as a fold over the entries has it; and unless the document of a custom inverse is gone, it reports nothing if and only if, at each entry's turn, the fold has an updated document stored, a deleted one missing or equal to its snapshot, and a batch-deleted one missing or under its own `_id` |
| `LedgerFold.SnapshotsCounted` | cmdb/framework/write_ledger.py:465-476 | Conversely, when every snapshot is stored the count equals their number, so the verification of deleted_many answers True |
| `LedgerRerun.CleanUndoRestores` | cmdb/framework/write_ledger.py:239-262 | With no fault the undo of invertible writes puts back every document with its contents, under its old `_id` or one the history never had; if custom inverses are about documents found stored, it reports nothing if and only if the fold is quiet |
| `LedgerRerun.FirstQuietIff` | cmdb/framework/write_ledger.py:465-476 | It then reports nothing if and only if no batch delete missed one of its documents that a later entry deleted from a snapshot without its `_id` |
| `LedgerRerun.SecondUndoChangesNothing` | cmdb/framework/write_ledger.py:376-378 | Running a complete undo a second time leaves every document's contents as the first left them, also for documents inserted, updated and deleted in one ledger, or re-pointed and updated; it reports nothing if and only if the fold from the restored store is quiet |
| `LedgerRerun.SecondUndoMisreports` | cmdb/framework/write_ledger.py:348-398 | A document inserted and updated, or updated and deleted, is taken back cleanly, and reported by a second undo though nothing is wrong; one inserted, updated and deleted is not |
| `LedgerRerun.SecondUndoLosesMatchedDocument` | cmdb/framework/write_ledger.py:149-161 | Where a batch's criteria also match a document as the request found it, the second undo loses that document - why the criteria must match only documents of the request |
| `LedgerRerun.BatchingIsSound` | cmdb/framework/write_ledger.py:265-283 | Undoing a run of inserts of one manager as one group ends, on any store, in the store and the residue of undoing them one by one |
| `LedgerUndo.GroupsKeepOrder` | cmdb/framework/write_ledger.py:265-283 | The groups concatenate to the entries newest first, and only inserts of one manager share a group |
| `LedgerUndo.GroupsAreMaximal` | cmdb/framework/write_ledger.py:265-283 | No two groups in a row could have been one, so a run of inserts costs one delete |
| `WriteLedger.WriteLedger.Inserted` | cmdb/framework/write_ledger.py:138-146 | Appends one entry and changes nothing else |
| `WriteLedger.WriteLedger.InsertedWhere` | cmdb/framework/write_ledger.py:149-161 | Appends the batch with its criteria |
| `WriteLedger.WriteLedger.Updated` | cmdb/framework/write_ledger.py:164-173 | Appends the update with its snapshot |
| `WriteLedger.WriteLedger.Deleted` | cmdb/framework/write_ledger.py:176-185 | Appends the delete with its snapshot |
| `WriteLedger.WriteLedger.Compensated` | cmdb/framework/write_ledger.py:188-209 | Appends the write with its own inverse and verification |
| `WriteLedger.WriteLedger.DeletedMany` | cmdb/framework/write_ledger.py:212-236 | Appends nothing for an empty batch, else the restore of exactly its snapshots |
| `WriteLedger.WriteLedger.UndoGroups` | cmdb/framework/write_ledger.py:265-283 | The loop over the reversed entries builds the specified groups |
| `WriteLedger.WriteLedger.UndoInserts` | cmdb/framework/write_ledger.py:289-318 | One delete, one read-back; the residue is the sorted survivors, or all ids when the read fails |
| `WriteLedger.WriteLedger.UndoInsertBatch` | cmdb/framework/write_ledger.py:321-345 | One delete, one count; reported while anything matches or the count fails |
| `WriteLedger.WriteLedger.StoredEquals` | cmdb/framework/write_ledger.py:479-502 | True only for a document read back equal to the snapshot but for its `_id` |
| `WriteLedger.WriteLedger.UndoUpdate` | cmdb/framework/write_ledger.py:348-369 | Replace, then compare |
| `WriteLedger.WriteLedger.UndoDelete` | cmdb/framework/write_ledger.py:372-398 | Insert only when the read says the document is not stored, then compare |
| `WriteLedger.WriteLedger.RestoreSnapshots` | cmdb/framework/write_ledger.py:444-462 | Re-inserts the snapshots whose `_id` the read did not find, and calls nothing when none is missing |
| `WriteLedger.WriteLedger.UndoCompensated` | cmdb/framework/write_ledger.py:401-428 | Runs the inverse, then the verification; a raising verification counts as not restored |
| `WriteLedger.WriteLedger.Undo` | cmdb/framework/write_ledger.py:239-262 | The loop over the groups ends in the specified store with the specified residue, for every fault script |
| `ReportExactness.PlainQueryMeansTree` | cmdb/database/mongo_query_builder.py:240-269 | For every tree in which no rule loses a fraction, and every object without a list of dates on both sides of a day that a rule = or != on its field asks for: the built filter matches the object exactly when it is of the report's type and the tree is true of it |
| `ReportExactness.RuleAlwaysMeansIff` | cmdb/database/mongo_query_builder.py:333-396 | A rule, of whatever operator and on whatever field, is compiled to its meaning on every object if and only if it compares no number or reference field with a fraction - the items of in / not in included - searches it for no text that reads otherwise without the fraction, and asks for no day by = or !=: a condition on the rule alone |
| `ReportExactness.CutTowardsZero` | cmdb/database/mongo_query_builder.py:456-490 | int() cuts towards zero, of negative numbers as well |
| `ReportExactness.FractionLost` | cmdb/database/mongo_query_builder.py:456-490 | A number field holding 12.5 is not selected by = 12.5, nor by <= 12.7 |
| `ReportExactness.StraddlingListSelected` | cmdb/database/mongo_query_builder.py:522-555 | A list with the day before and the day after is selected by = that day |
| `ReportCorrectness.QuerySelectsTree` | cmdb/database/mongo_query_builder.py:240-269 | For any tree and object: the built filter matches exactly the objects of the report's type of which the tree is true, each rule read by the value its query carries |
| `ReportCorrectness.QueryMeansTree` | cmdb/database/mongo_query_builder.py:240-269 | So it means the tree as written, for any tree and object, when each rule keeps its meaning there |
| `ReportCorrectness.RuleMeansIff` | cmdb/database/mongo_query_builder.py:333-396 | For any rule and object: the rule's filter is true exactly when some entry of the name satisfies the operator for the value as it was meant, if and only if the numbers stored between the rule's number and its whole part, or the lists straddling its day, are not what decides |
| `ReportCorrectness.OneRuleMeansIff` | cmdb/database/mongo_query_builder.py:240-269 | The same of a report with one rule, on objects of its type |
| `ReportMeaning.BuildFailsIffMalformed` | cmdb/database/mongo_query_builder.py:272-396 | build() raises exactly when there are conditions and some node of their tree is malformed |
| `ReportMeaning.CoercionMeans` | cmdb/database/mongo_query_builder.py:456-490 | The coercion fails exactly where a value cannot be read as what its field holds, and otherwise loses the fractions of numbers and nothing else |
| `ReportCorrectness.NodeMeans` | cmdb/database/mongo_query_builder.py:306-330 | A node's filter and the node's truth agree, through and/or groups nested to any depth |
| `ReportSelection.CreatedRuleSelects` | cmdb/database/mongo_query_builder.py:333-396 | A rule's filter - `$elemMatch` on the flat or the multi-data path, and the second branch of "is null" - is true exactly when the fragment holds of some entry of the name, or for "is null" when there is none |
| `ReportSelection.FragmentSelects` | cmdb/database/mongo_query_builder.py:558-599 | The value fragment of each operator holds of an entry exactly when the operator does, for the value it carries - save = and != on a date, which hold by the day's two bounds, each met by some instant of the entry |
| `ReportSelection.DateFragmentMeans` | cmdb/database/mongo_query_builder.py:522-555 | The two instants a date fragment compares with pick the rule's calendar day, lists of dates included, failing exactly for = and != on a list with dates on both sides of the day and none on it |
| `ReportCorrectness.DaysAreCoherent` | cmdb/database/mongo_query_builder.py:509-555 | For one date entry, flat or in a row, exactly one of <, = and > selects it, <= is < or =, >= is > or =, != is not =, at every instant of the day |
| `ReportCorrectness.NullIsNotNotNull` | cmdb/database/mongo_query_builder.py:130-160 | "is null" is the negation of "is not null" for an object carrying the flat field at most once, whatever value the rule carries |
| `ReportOperators.NullTextsSelect` | cmdb/database/mongo_query_builder.py:130-160 | "is null" selects the objects with no entry of the field, and those of which one lacks its value or holds null or the empty text; "is not null" those of which one does not; with the value null both always build |
| `ReportOperators.PlainTextsSelect` | cmdb/database/mongo_query_builder.py:558-599 | On a field compared as it is, "contains" finds the text in a stored one as written, "like" whatever the case, "in" and "not in" look for the items, = and != for the value |
| `ReportOperators.NumbersAreCoherent` | cmdb/database/mongo_query_builder.py:558-599 | On one stored number the six comparisons with a whole number mean what they mean on numbers |
| `ReportOperators.RuleBuildsIff` | cmdb/database/mongo_query_builder.py:333-396 | A rule builds exactly when its operator is one of the twelve and its value is empty or readable, a list item by item; a bad value is reported before a bad operator |
| `ReportOperators.NoConditionSelectsType` | cmdb/database/mongo_query_builder.py:240-269 | Without a condition or rules a report is every object of its type; rules that are no list, and other conditions than and / or, are refused |
| `ReportRunnable.BuiltQueryRunsIff` | cmdb/database/mongo_query_builder.py:272-330 | The server runs the built filter exactly when no nested group is empty and every in / not in rule carries a list; build() itself checks neither |
| `InsertLoop.Collection.Insert` | cmdb/database/mongo_database_manager.py:300-339 | The ten-attempt loop under two unique indexes comes to the result, counter and store that Insertion states without a loop |
| `InsertLoop.AutoInsertExact` | cmdb/database/mongo_database_manager.py:300-339 | An insert meeting only public_id conflicts succeeds exactly when one of the next ten ids is free, takes the least of them and leaves the counter there; else the counter has moved by ten |
| `InsertLoop.SuppliedInsertExact` | cmdb/database/mongo_database_manager.py:300-339 | A free supplied id is kept and the counter raised to it at least; a taken one falls back to the least free of the next nine ids |
| `InsertLoop.OtherDuplicateReported` | cmdb/database/mongo_error_helper.py:118-143 | A duplicate of another index is reported as soon as a free id is tried: at once when the server looks at that index first, else after the taken ids before it, or not at all when all ten are taken; no id is drawn for a free supplied one |
| `InsertLoop.ReconciledInsert` | cmdb/database/mongo_public_id_counter_mixin.py:228-278 | Inserts keep the counter at or above every stored id, and then no draw collides |
| `InsertLoop.LeastFree` | cmdb/database/mongo_database_manager.py:300-339 | The least free id within reach, or none if all are taken |
| `InsertLoop.Collection.ReservePublicIds` | cmdb/database/mongo_public_id_counter_mixin.py:134-168 | One atomic step hands out the contiguous block above the counter |
| `InsertLoop.Collection.RaiseCounter` | cmdb/database/mongo_public_id_counter_mixin.py:228-278 | The counter becomes the larger of itself and the id, and is created at 1 at least |
| `InsertLoop.Collection.AssignPublicIds` | cmdb/manager/base_manager.py:142-160 | Documents without an id get consecutive ids of one block in their order; those with one keep it; nothing is reserved when none lacks one |
| `InsertLoop.HandOut` | cmdb/manager/base_manager.py:142-160 | The zip loop gives the n-th document without an id the n-th reserved id |
| `IdProtocol.IdsStayDistinct` | cmdb/database/mongo_database_manager.py:300-339 | Over every interleaving of any number of clients, lost acknowledgements, failed draws, two-step raises that are repeated or fail, and counter changes: public_ids are distinct, no insert stores two documents, and a finished insert has its own document under the id it returns |
| `IdProtocol.StoredIdsAreSourced` | cmdb/database/mongo_database_manager.py:300-339 | Over every run, a document is stored under the id its caller gave, or under one handed out to a single insert |
| `IdProtocol.AloneTakesLeastFree` | cmdb/database/mongo_database_manager.py:300-339 | Undisturbed, an insert with so many draws takes the least free id within reach |
| `IdProtocol.AloneFails` | cmdb/database/mongo_database_manager.py:300-339 | ... and fails if all of those are taken, having used them up |
| `IdProtocol.BlocksAscend` | cmdb/database/mongo_public_id_counter_mixin.py:134-168 | While nothing lowers the counter, all blocks ever handed out ascend, hence are pairwise disjoint |
| `IdProtocol.UndividedRaiseKeepsBlocksApart` | cmdb/database/mongo_public_id_counter_mixin.py:228-278 | With the raise as one step and no set or reset, no run lowers the counter |
| `IdProtocol.NeverLowersIff` | cmdb/database/mongo_public_id_counter_mixin.py:228-278 | A run never lowers the counter if and only if in none of its steps a raise is written whose id the counter has passed since, and none sets it lower |
| `IdProtocol.EveryIdCounted` | cmdb/database/mongo_public_id_counter_mixin.py:134-168 | Where only reservations move the counter, it has counted every id handed out or lost, no more |
| `IdProtocol.RaiseCovers` | cmdb/database/mongo_public_id_counter_mixin.py:228-278 | The raise, in one step or in its two with nothing in between, leaves the counter at the larger of itself and the id, at 1 at least where it was missing |
| `IdProtocol.NextBlockIsNewIff` | cmdb/database/mongo_public_id_counter_mixin.py:134-168 | The next block, whatever its size, repeats no id handed out exactly when the counter has not fallen below one of them |
| `IdProtocol.SplitRaiseRepeatsAnId` | cmdb/database/mongo_public_id_counter_mixin.py:228-278 | As a read and a later write the raise can lower the counter: a run of four clients after which an id is handed out twice |
| `Retry.RetryOperation` | cmdb/database/retry.py:135-179 | At most three attempts, waiting 0.2 and 0.4 seconds and a jitter; each repeat starts within five seconds, a retryable error is given up only at the limit or the deadline, and the last result is passed on unchanged |
| `Retry.WritesApplyAtMostOnce` | cmdb/database/retry.py:105-132 | A write of one command whose failures are typed as writes takes effect at most once over all attempts, and then in the last one |
| `Retry.AtMostOnceIff` | cmdb/database/retry.py:135-179 | Whatever an operation's attempts consist of, each of its commands takes effect at most once exactly when no two attempts got anything applied |
| `Retry.SafeIffOneCommand` | cmdb/database/mongo_database_manager.py:410-442 | Over every mix of failures and every clock, a write of so many commands applies each at most once if and only if it has no more than one |
| `Retry.InsertRepeatedIffUnsent` | cmdb/database/mongo_error_helper.py:74-115 | An insert is repeated exactly when it was never sent; each driver error gets the one typed error meant for it |
| `Retry.ReservationMayApplyThrice` | cmdb/database/mongo_public_id_counter_mixin.py:134-168 | A reservation reports its failures as reads, so three lost acknowledgements advance the counter three times |
| `Retry.ErrorAppliesOnceIff` | cmdb/database/retry.py:105-132 | The errors under which a repeated call of one command can never take effect twice: all but a connection dropped in the middle, raised as it is or behind a read's error |
| `Retry.SurvivedIff` | cmdb/database/retry.py:105-132 | Exactly the errors one repetition gets over: a command never sent, however reported, and a connection dropped raw or behind a document-get, aggregation or connection error |
| `Forest.AncestorsExact` | cmdb/manager/locations_manager.py:651-694 | The climb along the parent links collects exactly the ancestors, and ends on stored cycles as well |
| `Forest.RelinkAcyclicIff` | cmdb/manager/categories_manager.py:421-467 | Re-pointing a node at a stored other one keeps the links acyclic exactly when the node is no ancestor of it |
| `Forest.FewerLinksAcyclic` | cmdb/manager/categories_manager.py:373-393 | Removing links and nodes keeps the links acyclic |
| `Categories.AcceptedIffSane` | cmdb/manager/categories_manager.py:421-467 | An update of a parent is accepted exactly when the tree stays acyclic and free of dangling parents with it |
| `Categories.NewAcceptedIffSane` | cmdb/manager/categories_manager.py:421-467 | An insert is accepted exactly when the tree stays so, whichever unused id it gets |
| `Categories.RefusedBecause` | cmdb/manager/categories_manager.py:421-467 | A refusal says why: the category itself, a parent that is not stored, or one of its own descendants |
| `Categories.CategoriesManager.RemoveCategoryAsParent` | cmdb/manager/categories_manager.py:373-393 | Exactly the children of the category lose their parent |
| `Categories.CategoriesManager.DeleteCategory` | cmdb/manager/categories_manager.py:356-393 | Clearing and deleting keeps the tree sane, and changes nothing but the children's links |
| `Locations.DeletionKeepsTree` | cmdb/manager/locations_manager.py:755-839 | Deleting a node other than the root leaves a tree in which each node keeps its ancestors and each subtree its nodes, less the deleted one |
| `Locations.DeletionAnywhere` | cmdb/manager/locations_manager.py:755-839 | In any store, what is not refused is answered by whether the node was there; it is gone, its children have its parent if it had one, and no other node changed |
| `Locations.AncestorsAfter` | cmdb/manager/locations_manager.py:755-800 | After the promotion x has the ancestor y exactly when it had it and y is not the deleted node |
| `Locations.SearchClosedUpward` | cmdb/manager/locations_manager.py:494-571 | The parent of every node a search returns is the root or returned as well; no node of a denied chain is |
| `Locations.SearchMeans` | cmdb/manager/locations_manager.py:494-571 | A search shows exactly the nodes other than the root that are, or lie above, a match with no denied type at or above it |
| `Locations.PathHoldsTarget` | cmdb/manager/locations_manager.py:574-648 | With nothing denied the opened levels hold the target and all its ancestors but the root, and are closed upward |
| `Locations.PathLevels` | cmdb/manager/locations_manager.py:574-648 | Whatever is denied, the opened levels are the visible nodes below the root or a proper ancestor of the target, so not its own children |
| `Locations.LocationsManager.ReparentChildrenToGrandparent` | cmdb/manager/locations_manager.py:755-800 | The children, and only they, move to the deleted node's parent; refused without one |
| `Locations.LocationsManager.DeleteLocation` | cmdb/manager/locations_manager.py:803-839 | Ends in the specified store and result |
| `Locations.LocationsManager.SearchLocationsWithAncestors` | cmdb/manager/locations_manager.py:494-571 | The nested loops collect, without duplicates and sorted, exactly the non-root nodes on the chains of visible matches |
| `PropagationMeaning.BuildersExact` | cmdb/manager/objects_propagation_helper.py:100-281 | Each builder's filter, `$push` or `$pull`, positional path and array filters, run on a stored document, change exactly what the builder is for |
| `Alignment.ListConverges` | cmdb/manager/objects_propagation_helper.py:100-154 | Remove undeclared, then add each declared: the declared entries survive in order with their values, the missing ones follow |
| `Alignment.AddedAsDeclared` | cmdb/manager/objects_propagation_helper.py:79-97 | An entry that alignment adds was missing, and holds its field's declared default or null, under the declared type or text |
| `Alignment.ListResumes` | cmdb/manager/objects_propagation_helper.py:100-154 | After any first part, running all of it ends where one run ends |
| `Alignment.FieldsConverge` | cmdb/interface/rest_api/routes/framework_routes/cmdb_objects/objects_helper.py:1376-1395 | The flat fields of every object of the type end with exactly the declared names; other types are untouched |
| `Alignment.FieldsResume` | cmdb/interface/rest_api/routes/framework_routes/cmdb_objects/objects_helper.py:1376-1395 | A full run after any prefix of the statements is one full run |
| `Alignment.SectionsConverge` | cmdb/manager/types_mds_helper.py:282-320 | Undeclared sections go; each row of a declared one keeps its declared entries in place and gains the missing ones; no row is created |
| `Alignment.RowsConverge` | cmdb/manager/types_mds_helper.py:282-320 | Each row of a declared section has exactly the declared names |
| `Alignment.SectionsResume` | cmdb/manager/types_mds_helper.py:282-320 | A full run after any prefix of the statements is one full run |
| `ObjectsManager.ObjectsManager.ApplyRawUpdates` | cmdb/manager/objects_manager.py:232-262 | Every object went through all statements, or through those before the failing one and some through that one; the answer sums the modified counts |
| `ObjectsManager.RerunCompletes` | cmdb/manager/objects_manager.py:245-247 | Running an alignment again after it failed anywhere, part of a statement included, completes it for every object |
| `ObjectsManager.SecondRunModifiesNothing` | cmdb/manager/types_mds_helper.py:282-296 | A second run of an alignment modifies no document |
| `ReferenceScrub.ScrubExact` | cmdb/manager/objects_manager.py:1203-1237 | Each of the two scrubbing updates empties exactly the reference entries to the given ids: its document filter, its array filter and its path agree |
| `ReferenceScrub.NoReferenceLeft` | cmdb/manager/objects_manager.py:1174-1211 | Afterwards nothing in the object references one of the ids, in its fields or any row |
| `ReferenceScrub.ScrubbedEntries` | cmdb/manager/objects_manager.py:1174-1237 | After both updates every ref or ref-section-field entry that held one of the ids, alone or in a list, holds the empty text, and every other entry what it held |
| `ReferenceScrub.ScrubResumes` | cmdb/manager/objects_manager.py:1174-1211 | Running it again after a failure anywhere ends where one full run ends |
| `ObjectsManager.ObjectsManager.DeleteAllObjectReferences` | cmdb/manager/objects_manager.py:1174-1211 | Both updates in order; it succeeds exactly when it is asked for nothing, or for ids other than the single 0 with neither update failing; wherever it fails every object is between the two |
| `PatternScanner.FindDialectConstruct` | cmdb/framework/field_pattern_rule.py:148-201 | The one-pass scan ends on every string, and answers the first refused token of the declarative reading, or none |
| `PatternScanner.ScanGoesOn` | cmdb/framework/field_pattern_rule.py:148-201 | One round of the scan moves by one token, quantifier state included |
| `PatternScanner.ClassEnd` | cmdb/framework/field_pattern_rule.py:109-145 | The end of a character class, or what is refused in it, for unclosed classes and trailing backslashes as well |
| `PatternTokens.TokensTile` | cmdb/framework/field_pattern_rule.py:148-201 | The tokens cover the pattern end to end without gap or overlap |
| `PatternTokens.EscapedPasses` | cmdb/framework/field_pattern_rule.py:65-201 | The backslash-escaping of the non-alphanumeric characters of any text passes |
| `PatternDialect.VerdictIff` | cmdb/framework/field_pattern_rule.py:148-201 | The verdict names the first refused token, and is none when no token is refused |
| `PatternDialect.TokenKinds` | cmdb/framework/field_pattern_rule.py:148-201 | Which token stands at a position, by the characters: escapes, classes, group openers, {m} {m,} {m,n} and {,n}, single characters |
| `PatternDialect.RefusalIs` | cmdb/framework/field_pattern_rule.py:65-201 | What is refused of each kind, by the characters: the escapes p P A Z z c k and \u{, any (? group but (?: (?= (?! (?<= (?<! and a named one, {,n}, a + right after a quantifier |
| `PatternDialect.QuantifierIff` | cmdb/framework/field_pattern_rule.py:148-201 | Of a row of question marks, which are quantifiers and which make the one before lazy |
| `PatternDialect.ClassConstructIs` | cmdb/framework/field_pattern_rule.py:109-145 | [] and [^] are refused; any other class by its first refused item |
| `PatternDialect.ItemsNext` | cmdb/framework/field_pattern_rule.py:109-145 | An item of a class is refused as an escape outside is, or for [: ; "]" ends the items, an escape takes two characters |
| `PatternDialect.ReportedIff` | cmdb/framework/field_pattern_rule.py:232-267 | A field is reported exactly when its pattern is not the one stored last under its name and is no text, uses a refused construct or does not compile |
| `PatternScanner.FindFieldPatternErrors` | cmdb/framework/field_pattern_rule.py:232-267 | The loop reports exactly the specified fields in order, skipping patterns already stored for the field |
| `PatternScanner.KeptPatternsPass` | cmdb/framework/field_pattern_rule.py:232-267 | A write keeping the stored patterns is never refused for them |
| `ObjectFilling.FilledReport` | cmdb/framework/object_field_defaults.py:147-188 | A filled object is never reported for a required field with a usable default, at top level or in any row; with no section id twice the report is that of the unfilled object less exactly those fields |
| `ObjectVerdicts.FilledVerdict` | cmdb/framework/object_field_value_rules.py:291-329 | An error other than a timeout of a filled object was in the object as sent; when no check of the object runs out of time, the errors are the same before and after the filling |
| `ObjectVerdicts.JudgedExact` | cmdb/framework/object_field_value_rules.py:463-521 | A judgement reports, timeouts aside, only errors the rules have against the values, and exactly those when nothing runs out of time |
| `ObjectVerdicts.BrokenIsReported` | cmdb/framework/object_field_value_rules.py:463-521 | Nothing broken passes, whatever runs out of time: each error is reported, a mismatch at least as a timeout |
| `ObjectVerdicts.SpentRunsNothing` | cmdb/framework/object_field_value_rules.py:258-288 | Once the time is spent no pattern is run |
| `ObjectVerdicts.FilledValues` | cmdb/framework/object_field_defaults.py:147-188 | Every value of a filled object is the client's or its field's usable default, every value sent stays, no section or row is created |
| `ObjectVerdicts.FillingSettles` | cmdb/framework/object_field_defaults.py:147-188 | Filling an object with its type's defaults a second time, whatever runs out of time then, does what those defaults do that ran out of time the first time, and changes no other value; so nothing, if none did |
| `ObjectFilling.UsableDefaultsPass` | cmdb/framework/object_field_defaults.py:77-104 | A usable default is not empty and passes its field's rule in length and pattern |
| `ObjectFields.UsableExact` | cmdb/framework/object_field_defaults.py:77-104 | With no match out of time, the default of a name is what its last field declares, if and only if that is a value, the kind is none of ref, ref-section-field and location, and the rule of the name has nothing against it |
| `ObjectFields.ObjectFilled` | cmdb/framework/object_field_defaults.py:147-188 | A field with such a default, missing or empty in the object - or in any carried row of a section that names it - holds it after the filling, in the entry that was there or a new one of the field's kind |
| `ObjectFields.JudgedByFields` | cmdb/framework/object_field_value_rules.py:463-521 | With no match out of time, an object's errors are exactly what the fields have against the values of its entries - over 255 characters in a text, 65536 in a text area, a text or number its anchored pattern does not find - those already stored in their place excepted |
| `ObjectFields.GoverningRule` | cmdb/framework/object_field_value_rules.py:149-170 | The rule of a name is that of its last field with a limit or a compiling pattern |
| `ObjectFields.AnchoredRegex` | cmdb/framework/object_field_value_rules.py:104-117 | An anchored pattern starts with ^ and ends with $, and nothing is added where it already does |
| `ObjectFields.MissingExact` | cmdb/framework/object_required_fields.py:83-206 | Reported missing are exactly the required fields no section names that the object leaves unset, and under a section's id those some row of its last section with a gap leaves unset |
| `ObjectFilling.FillObjectDefaults` | cmdb/framework/object_field_defaults.py:147-188 | The loops over sections and rows fill each list from the defaults of its own names |
| `ObjectFilling.CollectMissingRequiredValues` | cmdb/framework/object_required_fields.py:163-206 | The loop reports the missing top-level names, and per section id those missing in some row |
| `ObjectDefaults.FillEntriesFromDefaults` | cmdb/framework/object_field_defaults.py:107-144 | The in-place loop with its name index comes to the specified list, of two entries of a name the last being the one filled |
| `ObjectDefaults.MissingAfterFillIff` | cmdb/framework/object_required_fields.py:138-160 | A name is missing in a filled list exactly when it was missing before and has no usable default |
| `ObjectDefaults.FillKeepsValues` | cmdb/framework/object_field_defaults.py:107-144 | Entries keep place, name and kind, and their value unless it was empty; what changes or is appended is the default of its name |
| `ObjectDefaults.FillAgain` | cmdb/framework/object_field_defaults.py:107-144 | Filling a list again does exactly what the defaults do that the first filling lacked |
| `ObjectDefaults.FillTwice` | cmdb/framework/object_field_defaults.py:107-144 | So with no new default it changes nothing |
| `ObjectDefaults.FillCompletes` | cmdb/framework/object_field_defaults.py:107-144 | With complete entries asked for, a missing name is there afterwards, with null if it has no default |
| `ObjectRules.PatternBudget.MatchFieldPattern` | cmdb/framework/object_field_value_rules.py:258-288 | A match out of time spends the budget, and a spent budget runs no match |
| `ObjectRules.CollectObjectValueErrors` | cmdb/framework/object_field_value_rules.py:463-521 | The loop judges each value not stored in its place already against its rule under one budget, and reports each error once |
| `ReferenceMerge.SortedUnion` | cmdb/manager/objects_reference_helper.py:159-182 | The list behind the pages holds each id of either search once, runs in the asked direction with missing keys at one end and ties in merge order, and its length is the number of ids |
| `ReferenceMerge.MergedIsUnion` | cmdb/manager/objects_reference_helper.py:160-170 | The merge is a union by public_id: the first search stays in front, only new ids of the second are added, each once |
| `ReferenceMerge.PagesConcatenate` | cmdb/manager/objects_reference_helper.py:184-191 | For any limit > 0 the first n pages are the first n * limit items, so enough pages are the whole list with nothing lost or repeated |
| `ReferenceMerge.PageHolds` | cmdb/manager/objects_reference_helper.py:184-191 | Without a limit the page is the whole list; with one, which items are on it, also for a position counted from the end |
| `ReferenceMerge.IterationResult.MergeMdsReferences` | cmdb/manager/objects_reference_helper.py:133-196 | Append, sort and slice in place come to the asked page of that list, negative positions included, and total to the length of all of it |
| `ReferenceMerge.MdsRowsReference` | cmdb/manager/objects_reference_helper.py:49-70 | True exactly when some entry of some row of some section is a reference field pointing at the id |
| `ReferenceMerge.ReferencesIff` | cmdb/manager/objects_reference_helper.py:49-70 | A row entry references an id by holding it, or the truth value that equals it, under one of the names |
| `ReferenceMerge.FilterMdsResultsReferencing` | cmdb/manager/objects_reference_helper.py:77-103 | Exactly the candidates that do, by the reference fields of their own type, in their order |
| `Sorting.SortStable` | cmdb/manager/objects_reference_helper.py:172-182 | Elements that tie keep their order |
| `Sorting.SortOrdered` | cmdb/manager/objects_reference_helper.py:172-182 | The sort is ordered, for any total preorder |
| `PersonReferences.ChangedIffCriteria` | cmdb/manager/person_reference_helper.py:216-238 | The assessments the cascade changes are exactly those its snapshot criteria match beforehand |
| `PersonReferences.OnlyThoseReferencesGo` | cmdb/manager/person_reference_helper.py:198-213 | Afterwards no assessment matches, and every other reference stays - also one to the other kind under the same public_id |
| `PersonReferences.StatementsCleanse` | cmdb/manager/persons_manager.py:118-152 | The statements on the assessments, run one after another, add up to that one change |
| `PersonReferences.DeletionExact` | cmdb/manager/persons_manager.py:69-95 | A delete that raises nothing clears exactly what was selected in all collections, drops the document, and says whether it was there |
| `PersonReferences.DeletionAnswersIff` | cmdb/manager/persons_manager.py:69-95 | A delete answers unless one of its eight statements, six for a group, raises; then the document is gone and the answer says whether it was there |
| `PersonReferences.DeletionBetween` | cmdb/manager/persons_manager.py:69-95 | Wherever a delete breaks off, each reference and membership is as it was or cleared, the document there or gone, nothing else changed |
| `PersonReferences.DeletionLeavesNoneDangling` | cmdb/manager/persons_manager.py:69-95 | However the delete of a person or a group ends, complete or cut off in any statement, no reference or membership is left to somebody who is not there |
| `PersonCascade.PersonsManager.DeleteWithFollowUp` | cmdb/manager/persons_manager.py:69-95 | The sequence of updates and the delete come to the specified outcome for every failure |
| `PersonCascade.PersonsManager.RemovePersonFromRiskAssessments` | cmdb/manager/persons_manager.py:118-152 | Assessor, polymorphic keys and interviewed persons in this order, up to the first failure |
| `PersonCascade.PersonGroupsManager.DeleteWithFollowUp` | cmdb/manager/person_groups_manager.py:73-99 | The same for a group, whose references carry the other kind and whose memberships are in the persons |
| `PersonCascade.MongoDatabase.ClearPolymorphicReferences` | cmdb/manager/person_reference_helper.py:257-284 | One update per polymorphic key, up to the first failure |

## Left out

- ReportCorrectness.QueryMeansTree: asks of each rule that it keeps its meaning, which `ReportCorrectness.RuleMeansIff` shows exact for the rule; a tree may be right although one of its rules is not, as when another branch of an "or" decides. `ReportCorrectness.QuerySelectsTree` asks nothing.
- LedgerRerun.SecondUndoChangesNothing: for batches whose criteria match nothing the request found stored (`LedgerRerun.SecondUndoLosesMatchedDocument` shows that this is needed; whether a matched document is lost depends on the other entries), and for custom inverses about documents found stored, which set their keys whatever they hold and are out of any batch's reach, or whose documents no other entry names.
- LedgerCallers.RepointingRecorded: the documents, and of `LedgerCallers.MembershipRecorded` the arrays, exist before the write. A counter document that the write creates is not removed again by setting the counter back.
- LedgerRerun.FirstQuietIff: for batches whose criteria match nothing stored before them, the request's own documents included, and custom inverses about documents found stored; without the first, `LedgerRerun.CleanUndoRestores` says when, in terms of the fold.
- LedgerHonesty.UndoIsHonest: `_id`s are left out, as the read-backs do not compare them. Objects created at a remote service, whose verification remembers what its delete answered (cmdb/interface/rest_api/routes/open_celium_routes/oc_scheduler_helper.py:166), are not modelled; every verification here reads the store.
- LedgerHonesty.CustomStepSound: a custom inverse fails as one partial application, not call by call, since its calls are the caller's.
- ObjectFilling.FilledReport: for two sections of one id the report is only shown to name no fillable field, as the code lets the last section with a gap overwrite the earlier ones.
- Updating in place: lists of entries, documents and results are sequences that methods reassign, so aliasing between them is not captured. The ledger, the managers, the collections, the pattern budget and the iteration result are classes; a batch's documents are an array.
- Alignment.SectionsConverge: takes sections and names in the given order; the sort that fixes the order of the statements is not modelled, as the result does not depend on it beyond the order of added entries. Here, as in `Alignment.RowsConverge` and `Alignment.SectionsResume`, section names are distinct, as a type repeating one is refused on write (cmdb/interface/rest_api/routes/framework_routes/cmdb_types/types_structure_helper.py:122-125).
- Comparison of arrays and documents, Unicode case folding, and regular expressions beyond a literal needle: the report operators need none of them.
- A dotted path that only some elements of an array carry is not treated as null; the filters built here never test null that way.
- The ACL narrowing of the location criteria, the sort by name as text, and get_parents_with_children: one query each.
- get_all_descendant_locations appears as the set of descendants only, not as a query.
- init, set and reset of the counter and get_highest_id: set and reset lower counters by design and enter `IdProtocol` as a step that does.
- insert_many, upsert_set and bulk_write themselves: how many commands one call sends, and what repeating it then does, is in `Retry`.
- remove_type_from_categories: what it passes is wrapped twice, so its effect is not what its text describes.
- Adding members to groups and persons: a single `$addToSet`.
- Interviewed persons and memberships are lists of ids and the other references scalars, as the write schemas demand; a list in a scalar field is not modelled.
- set_location_field_for_objects and the ISMS cascades of objects: one update each of the kind already modelled.
- Routes, authentication, the JSON codec of dates, schemas, process start and logging.
