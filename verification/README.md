# fgraph, modelled and proved in Dafny

fgraph is a temporal fact store: facts `(e, a, v, t, tx, rx)` in one table, a registry of
identities, and an append-only list of events. This project models its transaction planner and
committer, its history, replication and recovery protocols, its Datalog evaluator, its bounded
vector ranking and its canonical JSON, and proves the properties those parts exist for. Run
`dafny verify dfyconfig.toml` to check all of it.

How the system appears here:

- The fact table is a sequence of rows in row-id order, the registry a map, the events a sequence,
  the full-text and blob tables sets. One SQL statement is one set or sequence operation, and a
  writer's `BEGIN IMMEDIATE` ... `COMMIT` is one step of `Runs.IsRun`, so a theorem over runs is a
  theorem over every interleaving of writers.
- A value is a tag and a storage cell. The cell of a reference is an id, the cell of an indirect
  value is a content hash, any other cell is its rank in storage order.
- SHA-256 hashes and derived UUIDs are injective constructors (an event's hash is the record it was
  committed with, kept when the record is emptied); event ids, clocks and request hashes are
  parameters.
- Code that mutates (the planner's maps, the allocator, the commit and excision on the tables, the
  restorer, the event reader, the evaluator, the heap, the JSON parser) is a method or a class with
  loops, proved equal to a specification function. The theorems are then about that function.

The modules, in dependency order:

| part | modules |
|---|---|
| planner | Facts, Planner, DiffPlan, Localization, Replay, Swaps |
| identities and commit | Identities, History, Store, Soundness, Runs, Effects, Committer, Eraser |
| invariants over runs | Constraints, Planning, Derived, Protocol, Audit, Exports |
| history, replication, recovery | Undo, Paging, Datoms, Snapshot, Retained, Doctor, Recovery, Streams, Restorer, Genesis, Replica, Applier |
| Datalog | Query, QueryMeaning, Scoping, Costs, Rules, RuleAnswers, Evaluator |
| algorithms | Ranking, Json, JsonSyntax, CanonicalJson, JsonParser |

Six properties one would expect turned out to be false of the code as written. Each is stated
with its exact condition and a concrete input that breaks it:

- Uniqueness: `Planner.UniqueExactly`, broken by `Planner.ReclaimedValueHasTwoOwners`; such a plan
  commits at its origin and is refused by every replica (`Replay.ReplayExactly`).
- Undo of an older transaction can take a later value away: `Undo.UndoSparesExactly`, broken by
  `Undo.LaterValueDisplaced`.
- A committed compare-and-swap can leave its slot empty: `Swaps.SwapsExactly`, broken by
  `Swaps.SweptSwapVanishes`.
- A second excision of one entity loses the audit trail: `Audit.AuditKeptExactly`, broken by
  `Audit.SecondExcisionLosesAudit`.
- A reachable store cannot always be restored from its snapshot, because the restore ends with the
  store's own inspection: `Recovery.RunSnapshotReturns`, broken by `Genesis.RefusedRun`.
- The scoping check counts variable-like texts inside constants, so an accepted query can meet an
  unbound variable: `Scoping.ScopingExactly`, broken by `Scoping.HiddenVariableUnbound`.

Two more promises hold only for history-keeping attributes, which is exactly their condition:
`History.PastKeptExactly` for past views and `Replica.ExportsExactly` for event records. Localised
planning has the exact condition `Localization.LocalityExactly`, and `Planning.RunPlansLocally` says
which runs meet it.

## Model

| member | source | states |
|---|---|---|
| `Planner.PlanRefines` | go/transact.go:1630-1770 | For every live set and plan that succeeds, the delta retracts only live rows in id order, asserts distinct keys none of which was live, in request order, and applying it gives exactly what the operations give one by one on a plain set of triples. |
| `Planner.PlanSucceedsExactly` | go/transact.go:1715-1757 | A plan succeeds if and only if no assertion meets a slot already filled by the same plan or a new unique value owned by another entity, judged by the one-by-one meaning; the only failure is a conflict. |
| `Planner.PlanOneValue` | go/transact.go:1722-1736 | From single-valued slots every successful plan leads to single-valued slots. |
| `Planner.UniqueExactly` | go/transact.go:1737-1754 | All intermediate sets of a successful plan have one owner per unique value if and only if no operation restores a retracted unique fact after another entity took its value. |
| `Planner.PlanOneOwner` | go/transact.go:1747-1754 | A plan that reclaims nothing keeps one owner per unique value. |
| `Planner.ReclaimedValueHasTwoOwners` | go/transact.go:1737-1746 | Retract e1 u x, assert e2 u x, assert e1 u x: planning succeeds and both entities own x. |
| `DiffPlan.TakeAway` | go/transact.go:1679-1707 | The retraction loop over the working map takes out exactly the facts hit, records stored ones by id and by key and cancels pending ones. |
| `DiffPlan.AssertFact` | go/transact.go:1713-1757 | One assertion on the mutable maps is one step of the specification: skipped, restored, inserted or refused. |
| `DiffPlan.DiffPlan` | go/transact.go:1630-1770 | The imperative planner with its four mutable collections returns the specified result or error whatever order the map loops take. |
| `Localization.LocalPlanIsGlobalPlan` | go/transact.go:1772-1841 | Planning over the loaded facts gives the same delta or the same error as planning over all live facts, when no transaction receipt owns a unique reference. |
| `Localization.LocalityExactly` | go/transact.go:1772-1841 | Loading only the touched facts is harmless for every submittable plan if and only if no transaction entity owns a live unique reference to a writable entity. |
| `Localization.WorkingFactsForPlan` | go/transact.go:1772-1841 | The loader (value probes, retraction probes, entity batches, deduplication, sorting by id) returns exactly the specified working facts. |
| `Planning.PlanRequest` | go/transact.go:1630-1670 | Loading the touched facts and running the planner's loop over them returns the plan over all live facts. |
| `Planning.RunPlansLocally` | go/transact.go:1772-1841 | In every state of a run whose requests assert no unique reference about their own transaction, every submittable request is planned locally as it would be over all live facts. |
| `Replay.ReplayFixedPoint` | go/apply.go:182-213 | Planning the operations of a net delta, retractions first, plans exactly that delta again in the same order. |
| `Replay.ReplayExactly` | go/apply.go:182-213 | A planned delta replays on the same live facts if and only if its asserted unique values are free in the outcome, and then it replays as itself. |
| `Replay.OrdinaryPlansReplay` | go/transact.go:1737-1754 | A plan that reclaims nothing always replays as its own delta. |
| `Swaps.SwapPlan.Add` | go/transact.go:1426-1514 | Planning a swap compares the stored slot and appends its retraction and assertion, or fails with the specified error. |
| `Swaps.SwapPlan.ValidateIsolation` | go/transact.go:1531-1563 | The isolation scan accepts if and only if no ordinary operation addresses a compared slot by its owner. |
| `Swaps.ComparesExactly` | go/transact.go:1456-1488 | Over single-valued slots a swap is planned if and only if its attribute is cardinality-one, its slot was not compared before and holds exactly what is expected. |
| `Swaps.SwapsExactly` | go/transact.go:1531-1563 | In a planned, isolated transaction every swapped slot held the expected value before, and holds exactly the replacement after if and only if no later entry retracts the entity the replacement refers to; otherwise it ends empty. |
| `Swaps.SecondSwapLoses` | go/transact.go:1474-1488 | Of two transactions that expect the same value in one slot, the second conflicts once the first committed another value there. |
| `Swaps.SweptSwapVanishes` | go/transact.go:1684-1691 | A swap to a reference followed by a retraction of its target is accepted by the isolation test and leaves the slot empty. |
| `Identities.KeptExactly` | go/transact.go:410-476 | The ids kept by compaction are exactly the named ones and those some fact mentions, ascending, with their claims in order. |
| `Identities.RenameExactly` | go/transact.go:410-533 | The renaming is an order-preserving bijection from the kept ids onto the first ids of the range and leaves older ids alone. |
| `Identities.RenameTripleInjective` | go/transact.go:477-487 | Renaming entity, attribute and reference of a fact never makes two facts equal. |
| `Identities.Allocator.Name` | go/store.go:752-777 | A name resolves to the id this plan gave it, else to the store's, else to a new id when it may be created; the largest id is refused. |
| `Identities.Allocator.Import` | go/apply.go:352-364 | An imported identity takes the next id and may not be listed twice. |
| `Identities.Allocator.Compact` | go/transact.go:410-526 | Compaction in place leaves the kept claims pending in order on contiguous ids, renames all facts and temporary ids consistently, forgets the temporary ids of dropped identities and frees the rest. |
| `Identities.TempidsMove` | go/transact.go:515-525 | A temporary id survives compaction exactly if its identity is named or mentioned, and then names the same identity. |
| `Soundness.CommitSound` | go/transact.go:164-405 | A commit keeps the whole store invariant: row order, live index, timeline, gapless registry, immutable receipts. |
| `Soundness.EraseSound` | go/maintenance.go:1387-1609 | An excision keeps the same invariant. |
| `Runs.RunSound` | go/transact.go:164-405 | Every state of every run of transactions and excisions satisfies the store invariant. |
| `Runs.StepIds` | go/transact.go:257-290 | A committing step's new identities exactly fill the ids between the previous transaction and its own and leave next_id at its own id plus one; a no-op, retry or failure changes nothing. |
| `Effects.WholeRetraction` | go/transact.go:1679-1707 | Retracting an entity leaves none of its facts and no reference to it outside the system and the receipts; every other fact stays. |
| `Effects.SlotRetraction` | go/transact.go:1679-1707 | Retracting a slot empties exactly that slot, and retracting one fact takes exactly that fact. |
| `Effects.Assertion` | go/transact.go:1713-1757 | An asserted fact holds afterwards and displaces exactly the other values of its cardinality-one slot, and those only if it did not hold already. |
| `Effects.CommitMeans` | go/transact.go:325-353 | What holds after a commit is exactly what the operations, one by one, leave of the live facts, with new identities on their final ids, and the transaction's timestamp and metadata. |
| `Effects.CommitNames` | go/store.go:781-822 | A commit keeps every older identity and registers its event and the kept claims on the next ids: names as names, imported ids as they are, anonymous ones under the event's id and their place. |
| `Effects.RecordTells` | go/event_wire.go:193-315 | A tuple is in the exported record if and only if a row that the transaction asserted, not one of its own timestamps, or retracted says it, with ids told by their selectors. |
| `Effects.TransactExactly` | go/transact.go:254-267 | A request is answered as a no-op if and only if its operations change no live fact and it carries no force, metadata, operation id, name or imported identity; a planning error is passed on, a full id range and a taken selector are reported, and a failure changes nothing. |
| `Effects.ErasedRows` | go/maintenance.go:1505-1602 | After an excision the rows are exactly those that do not have the entity as owner, attribute or reference, and the two of the audit marker. |
| `Effects.ErasedEvents` | go/maintenance.go:1505-1602 | An excision empties exactly the records of transactions that asserted or retracted an erased row or whose record names the entity, keeps everything else of every event, and lists the emptied ones. |
| `Effects.ErasedDerived` | go/maintenance.go:1516-1566 | An excision drops exactly the text rows of erased rows and the blobs that no remaining row refers to. |
| `Committer.Tables.InsertFact` | go/transact.go:2058-2082 | An insert fails exactly on a live key and otherwise appends the row with its text and blob rows. |
| `Committer.Tables.RetractFact` | go/transact.go:342-353 | A retraction stamps the row, or deletes it for a no-history attribute, and drops its text row. |
| `Committer.Tables.Commit` | go/transact.go:334-380 | Inserting first and retracting afterwards never hits the live index and leaves exactly the specified tables. |
| `Committer.PlannedCommit` | go/store.go:69-69 | What a planned transaction inserts is never live beforehand and pairwise distinct, and what it retracts is live and in id order. |
| `Committer.CommitPlanned` | go/transact.go:334-380 | Carrying out any planned transaction on the mutable tables succeeds and gives the tables of the committed store. |
| `Eraser.RecordReferences` | go/maintenance.go:743-792 | The scan of a record finds the selector if and only if it is created, or is owner, attribute or target of a tuple. |
| `Eraser.Eraser.EraseEntity` | go/maintenance.go:1507-1602 | The step-by-step excision leaves exactly the specified store: rows, text rows, blobs, emptied records, marker and redaction event. |
| `Eraser.Eraser.Excise` | go/maintenance.go:1435-1609 | The writer step answers and changes the store as specified on every path: receipt, stale basis, missing, system or transaction entity, full range. |
| `History.PastKeptExactly` | go/read.go:239-244 | A commit leaves every earlier as-of view unchanged if and only if it retracts nothing of a no-history attribute. |
| `History.LiveInstalled` | go/transact.go:334-353 | After a commit the live rows are the old ones without the retracted, followed by the new ones. |
| `Constraints.RunOneValue` | go/transact.go:1722-1736 | In every reachable state and at every past basis a cardinality-one attribute shows at most one value per entity. |
| `Constraints.RunOneOwner` | go/transact.go:1747-1754 | In every state of a run whose plans reclaim nothing, and at every past basis, a unique value has at most one owner. |
| `Derived.RunInStep` | go/maintenance.go:274-285 | In every reachable state the full-text rows are exactly the live text facts and the blobs exactly the hashes that indirect facts refer to, across commits, no-history deletion and excision. |
| `Derived.RunIndexed` | go/maintenance.go:274-285 | The same row by row, with the value tags: a text row for each live text or text blob, and the hash of every vector, text blob or byte blob that some row refers to. |
| `Derived.CommitInStep` | go/transact.go:341-380 | One commit keeps both derived tables equal to their rebuild. |
| `Derived.EraseInStep` | go/maintenance.go:1516-1566 | One excision keeps both derived tables equal to their rebuild. |
| `Protocol.RetryAnswersOnce` | go/event.go:163-218 | After any number of other steps, the exact request under a used operation id gets the original transaction and basis and changes nothing, and any other request under that id conflicts. |
| `Protocol.OperationAppliesOnce` | go/transact.go:200-209 | No two steps of a run apply the same operation id. |
| `Protocol.GuardedCommit` | go/transact.go:210-212 | A basis-guarded step commits only when that basis is the latest event, and is the very next event. |
| `Protocol.PrecheckExactly` | go/transact.go:200-212 | A step passes the first checks if and only if its operation id is on no event and it names no basis or the latest one; a stale basis conflicts. |
| `Protocol.KnownPrecheck` | go/event.go:163-218 | A step under a known operation id is answered with that event and the event before it if the requests agree, and conflicts otherwise, whatever basis it names. |
| `Protocol.GuardLetsThrough` | go/transact.go:210-212 | A step that names the latest basis is answered exactly as the same step without a guard. |
| `Audit.ErasureStays` | go/maintenance.go:1505-1602 | In every later state nothing recorded before an excision speaks of the entity except its marker, and no record kept from before mentions its selector. |
| `Audit.EmptiedExactly` | go/maintenance.go:1505-1552 | An excision empties a redaction record if and only if the record's audit marker names the excised entity. |
| `Audit.AuditKeptExactly` | go/maintenance.go:1505-1552 | After an excision every emptied event is listed by a later record if and only if each event that was empty before, and is not emptied again, is listed by a record whose audit marker does not name the excised entity. |
| `Audit.RunAudited` | go/maintenance.go:561-690 | In every state of a run that excises no entity twice, emptied events are exactly those that strictly later redaction records list, and each record has its marker. |
| `Audit.SecondExcisionLosesAudit` | go/maintenance.go:1505-1552 | In any run, a second excision of an entity leaves an event that the first one emptied without any record, whatever the steps in between, unless an excision on the way emptied that event once more. |
| `Audit.RunTrailed` | go/maintenance.go:561-690 | In every run, whatever it excises, redaction records list only earlier emptied events and each one retained has its marker. |
| `Doctor.InspectEvents` | go/maintenance.go:561-690 | The scan of empty payloads, redaction targets, markers, timestamps and re-exports reports no problem if and only if all of them hold. |
| `Doctor.MayLoseHistory` | go/maintenance.go:836-877 | The scan excuses a record if and only if it speaks of a no-history attribute. |
| `Doctor.SchemaHolds` | go/maintenance.go:879-984 | The maps of slots and owners find a violation if and only if two live rows share a cardinality-one slot or a unique value. |
| `Doctor.RegistryHolds` | go/maintenance.go:350-462 | The scans of registry, facts and events find nothing if and only if every id is in range and created by an event, every fact refers to transactions and identities that exist and are not younger, and every event has its own identity. |
| `Doctor.Inspect` | go/maintenance.go:313-559 | The whole inspection accepts if and only if registry, facts, records, audit trail, schema and derived tables are in order. |
| `Exports.RunRecorded` | go/event_wire.go:193-315 | In every state of every run each retained record carries its transaction's instant (the imported one if there is one) and created identities, and equals what its transaction would export again unless it speaks of a no-history attribute. |
| `Undo.UndoOperations` | go/temporal.go:393-431 | The loop over the rows builds the specified inverse operations, or reports a transaction without receipt. |
| `Undo.UndoRestores` | go/temporal.go:393-431 | Inverse operations in any order lead from the changed set back to the original one. |
| `Undo.UndoLatest` | go/temporal.go:374-431 | Undoing the latest transaction, whenever it commits, returns the live facts of all other entities to exactly the set before it. |
| `Undo.UndoRecorded` | go/temporal.go:374-431 | A committed undo leaves a live fact about its own transaction that names the transaction undone. |
| `Undo.UndoSparesExactly` | go/temporal.go:393-431 | Under an undo of any transaction, a live fact that another transaction asserted stays if and only if no restored value displaces it from its slot. |
| `Undo.UndoOlder` | go/temporal.go:374-431 | The same for the committed store, metadata and renaming included. |
| `Undo.LaterValueDisplaced` | go/temporal.go:393-431 | Undoing the middle of three replacements puts the first value back and takes the latest away. |
| `Paging.SeekFindsRest` | go/datoms.go:308-382 | The keyset query after the n-th datom finds exactly the rest of the ordered list. |
| `Paging.SelectedAre` | go/datoms.go:308-340 | The current-view short cut selects the same datoms as the as-of view at the latest basis. |
| `Paging.RunAsOf` | go/read.go:239-244 | As-of views are unchanged by all later history-keeping commits of a run. |
| `Paging.PagesAreTheList` | go/datoms.go:103-189 | Pages of one cursor, read at any later moments of a run, concatenate to a prefix of the ordered datom list at the first page's basis, and to all of it once no cursor is left; `Datoms.PagesHold` says in rows and columns what that list is. |
| `Paging.CursorStaysValid` | go/datoms.go:103-189 | A cursor never goes stale under later commits. |
| `Datoms.HistoryExactly` | go/datoms.go:331-336 | A datom is in the history source if and only if a row has its id and key and either was asserted at its transaction (added) or retracted at it (not added), no later than the basis. |
| `Datoms.CurrentExactly` | go/datoms.go:319-330 | A datom is in the current source if and only if it is added and reports a row asserted no later than the basis and not retracted by then. |
| `Datoms.OrderExactly` | go/datoms.go:337-346 | The page order compares e, a, value (eavt), a, value, e (avet) or value, a, e (vaet), then tag, transaction, retraction before assertion, row id. |
| `Datoms.ReadExactly` | go/datoms.go:103-150 | A read succeeds if and only if its limit is 0 to 1000 and its cursor, if any, has the same arguments and a basis visible now and in the view; a bad limit is too large, a bad cursor conflicts. |
| `Datoms.PageExactly` | go/datoms.go:118-180 | A first page is pinned to the smaller of the view's and the store's basis; a page has at most the asked number of datoms (100 by default), and exactly that many if more follow. |
| `Datoms.PagesHold` | go/datoms.go:103-382 | All pages of a cursor, read at any moments of a run, list in column order exactly the datoms of the first state's rows at the first basis that meet the components. |
| `Datoms.HistoryReplays` | go/datoms.go:331-336 | In every run from a pristine store, replaying all pages of a history cursor over any choice of facts, in any index order, gives exactly the chosen facts visible at its basis. |
| `Snapshot.ReceiptRestored` | go/snapshot.go:483-614 | Restoring the next receipt of a snapshot rebuilds its identities with the same ids and its transaction. |
| `Snapshot.FactRestored` | go/snapshot.go:616-676 | Restoring the next fact line adds that row with its transaction and retraction. |
| `Snapshot.SnapshotRebuilds` | go/snapshot.go:101-236 | Reading a snapshot's lines rebuilds identities, ids, events, next_id and all facts with tx and rx in the same order; only row numbers are new, in the same order, and derived tables are in step. |
| `Recovery.SnapshotReturns` | go/snapshot.go:257-381 | Restoring the snapshot of a store succeeds if and only if that store passes the inspection, and then gives it back. |
| `Recovery.RunSnapshotReturns` | go/snapshot.go:257-381 | In every state that a run from initialisation reaches, the snapshot can be restored if and only if no event is empty without a record that lists it and no unique value has two owners; then the store comes back. |
| `Recovery.RunRestores` | go/snapshot.go:257-381 | Every store reached without excising an entity twice and without reclaiming a unique value comes back from its snapshot. |
| `Recovery.SecondExcisionRefused` | go/snapshot.go:373-379 | After a second excision that loses the audit of the first, the snapshot is refused. |
| `Streams.AcceptedIsSnapshot` | go/snapshot.go:279-381 | Whatever stream is read back without an error is, line by line, the snapshot of the store it leads to; so no two streams restore to one store. |
| `Streams.AcceptedIsSound` | go/snapshot.go:257-381 | Whatever stream a restore accepts, the store has the row, timeline and registry invariants of runs, single values, one owner per unique value, derived tables in step and an accounted audit trail. |
| `Genesis.GenesisStarts` | go/store.go:476-577 | The store that initialisation leaves meets what every theorem about runs starts from. |
| `Genesis.RefusedRun` | go/snapshot.go:373-379 | From initialisation, creating an entity and excising it twice is a run whose snapshot is refused. |
| `Restorer.Restore.RestoreStream` | go/snapshot.go:279-381 | The line-by-line restorer with its mutable maps and counters, closed by the inspection, returns the specified store or error. |
| `Restorer.Restore.Receipt` | go/snapshot.go:483-614 | One receipt line on the mutable state equals the specified step or error. |
| `Restorer.Restore.FactRow` | go/snapshot.go:616-676 | One fact line on the mutable state equals the specified step or error. |
| `Replica.ExportsExactly` | go/transact.go:347-350 | A commit's record carries all its retractions if and only if none is of a no-history attribute. |
| `Replica.EventRead` | go/apply.go:117-264 | From the portable record alone a replica recovers exactly the origin's compacted delta, new identities, metadata and instant, and adds the import note. |
| `Replica.MetaExactly` | go/apply.go:214-257 | Facts of an event about its own transaction under the attributes 1 to 4 travel as its metadata, all others as operations. |
| `Replica.ReplicaPlans` | go/apply.go:182-237 | A mirror of the origin plans the origin's delta again, on its own rows, with the import note. |
| `Replica.ReplicaFollows` | go/apply.go:117-264 | A mirror that commits the event mirrors the origin again: same ids, transactions and exported records with their instants, and the same rows in the same order up to row numbers, timestamps and import notes. |
| `Replica.StreamFollows` | go/apply.go:57-93 | Folding any stream of replicable events, each committed only if it exports the same record again, keeps the replica a mirror after every event. |
| `Replica.Redelivered` | go/apply.go:152-166 | An event that the stream already carried is answered with its own transaction at any later time and changes nothing. |
| `Replica.ApplyExactly` | go/apply.go:117-264 | On any sound store: a delivery that is applied adds exactly one event with the received id and record, which is also the record of the store's rows; any other delivery leaves the store as it was. |
| `Replica.KnownExactly` | go/apply.go:152-166 | On any sound store: a delivery is answered from a receipt if and only if an event with its id was committed with the same record, retained or erased since; another record under that id, or the id of another identity, conflicts. |
| `Replica.DeliveredAgain` | go/apply.go:152-166 | In any run, excisions included, an event once recorded and delivered again at any later time is answered with its own transaction and changes nothing, so what was erased from it does not come back. |
| `Applier.PreallocateIdentities` | go/apply.go:334-367 | The loop allocates exactly the unknown created identities, in order, and refuses a repeated one that is no name. |
| `Applier.ReadEvent` | go/apply.go:182-237 | The loops over tuples build the specified request, retractions before assertions and the import note last, or stop at an unknown selector. |
| `Query.MatchExactly` | go/query.go:1046-1075 | Matching a row succeeds with a binding if and only if it extends the input by exactly the pattern's variables and every term agrees with the row. |
| `QueryMeaning.PatternMeans` | go/query.go:1046-1075 | A pattern is answered by exactly the bindings that add its variables so that some datom shows the cells place by place, constants as entities in the entity, attribute and transaction places. |
| `QueryMeaning.RuleMeans` | go/query.go:2265-2304 | A rule call is answered in the same way by the tuples of its relation, constants as entities where the tuple holds a reference. |
| `QueryMeaning.PredicateMeans` | go/query.go:1120-1150 | A comparison keeps exactly the bindings under which it holds of its left and right value, and is unsafe if and only if some binding lacks one. |
| `QueryMeaning.NotMeans` | go/query.go:1283-1306 | A negation keeps exactly the bindings under which its body answers nothing. |
| `QueryMeaning.OrMeans` | go/query.go:1308-1325 | A disjunction answers what some branch answers, and is unsafe if and only if some branch is. |
| `Query.PatternsCommute` | go/query.go:676-715 | Two patterns give the same bindings in either order. |
| `Query.OrderPreserves` | go/query.go:540-593 | For every clause list, bound set and input the planned order has the same answer as the written order, or fails in the same way. |
| `Query.OrderPermutes` | go/query.go:540-593 | The planned order is a permutation of the clauses. |
| `Query.OrderKeepsBarriers` | go/query.go:538-560 | Predicates, negations, disjunctions and rules keep their positions. |
| `QueryMeaning.RankMeans` | go/query.go:513-536 | The cost class of a pattern by which of its first three places are known, and knowing more never makes a pattern dearer. |
| `QueryMeaning.OrderGreedy` | go/query.go:540-593 | At every position the planned pattern is, given the variables gathered before it, no dearer than any pattern that still follows it in its block. |
| `Scoping.StrictSound` | go/query.go:595-643 | Clauses accepted by the strict check, which counts what matching binds, never meet an unbound operand or an uncorrelated negation, and answers bind exactly the announced variables. |
| `Scoping.HonestStrict` | go/query.go:323-425 | Where no constant hides a variable, the check made before a run accepts only what the strict check accepts, with the same variables. |
| `Scoping.ScopingSound` | go/query.go:323-425 | If the check accepts clauses whose constants hide no variable, no run meets an unbound operand or an uncorrelated negation, and all answers bind exactly the announced variables. |
| `Scoping.ScopingExactly` | go/query.go:323-425 | Of the accepted queries made of patterns, comparisons and rule calls, those that never meet an unbound variable, whatever the facts, rules and input, are exactly those that the strict check accepts. |
| `Scoping.StraightExactly` | go/query.go:323-425 | Patterns, comparisons and rule calls are accepted if and only if each pattern has three to five places and each comparison speaks only of texts that the input or an earlier pattern or call provides; the announced variables are all those provided. |
| `Scoping.ChecksAgree` | go/query.go:323-425 | For queries whose constants hold no variable-like text, of every clause form, the check made before a run is the strict check. |
| `Scoping.HiddenVariableUnbound` | go/query.go:1348-1355 | A constant with a variable-like text passes the check and makes a predicate meet an unbound operand. |
| `Costs.BatchCostsTheSame` | go/query.go:717-821 | One batched join spends exactly the work units of the per-binding path. |
| `Costs.CostExactly` | go/query.go:908-1013 | The work of a pattern under a binding is the number of rows that agree with every given entity, attribute, transaction and flag, and with the value if the attribute is given too. |
| `Rules.Monotone` | go/query.go:2224-2263 | Clauses that do not use a relation under negation are monotone in it. |
| `Rules.LeastFixpoint` | go/query.go:2224-2263 | Every iterate of a rule that does not call itself under negation lies below every closed relation, so the settled one is least. |
| `Rules.SettledStays` | go/query.go:2224-2263 | Once a pass adds nothing, no later pass does. |
| `Rules.DerivedInDomain` | go/query.go:2224-2263 | Derived tuples are drawn from the finite set of known cells. |
| `RuleAnswers.DerivedExactly` | go/query.go:2233-2246 | A definition derives a tuple if and only if some binding of its body has the tuple's cells under the head variables, position by position. |
| `RuleAnswers.SettledExactly` | go/query.go:2224-2263 | A settled relation holds exactly the tuples that some pass over an earlier iterate derives. |
| `RuleAnswers.SettledEquation` | go/query.go:2224-2263 | For rules that do not call themselves under negation the settled relation is exactly what its own definitions derive from it. |
| `RuleAnswers.CallExactly` | go/query.go:2265-2304 | A call with variables is answered by exactly the bindings of those variables to the cells of some tuple, position by position. |
| `RuleAnswers.RuleAnswersPattern` | go/query.go:2224-2304 | A rule whose body is one pattern, called with variables, answers exactly the pattern's own bindings renamed position by position. |
| `Rules.OrderExcludesCycle` | go/query.go:2148-2200 | Rules that can be derived after their needs have no cycle longer than one. |
| `Evaluator.OrderQueryClauses` | go/query.go:540-593 | The ordering loops compute the specified greedy order. |
| `Evaluator.DistinctBindings` | go/query.go:1379-1393 | Deduplication keeps the set of bindings and no repeats. |
| `Evaluator.Engine.EvalIndexedPattern` | go/query.go:908-1013 | One binding's probe returns exactly the matches and spends one unit per row the index returns. |
| `Evaluator.Engine.EvalBoundEntityBatch` | go/query.go:717-821 | Joining 400 entities at a time returns the same bindings and spends the same work as one binding at a time. |
| `Evaluator.Engine.EvalPattern` | go/query.go:676-715 | Both paths of a pattern give the same bindings and the same work. |
| `Evaluator.Engine.EvalPredicate` | go/query.go:1120-1150 | Keeps exactly the bindings under which the comparison holds, and reports an unbound operand only when some binding lacks it. |
| `Evaluator.Engine.EvalNot` | go/query.go:1283-1306 | Keeps exactly the bindings under which the body has no answer, and reports uncorrelated negation. |
| `Evaluator.Engine.EvalOr` | go/query.go:1308-1325 | Returns the union of the branches' answers. |
| `Evaluator.Engine.EvalRule` | go/query.go:2265-2304 | Returns exactly the bindings that agree with some derived tuple. |
| `Evaluator.Engine.EvalClauses` | go/query.go:595-643 | The reordered, batched, early-stopping evaluation answers the written-order nested-loop meaning: same bindings, and errors only where the meaning has them; it gives up only with its whole budget spent, or over a pattern that tests the added position. |
| `Evaluator.Engine.Ask` | go/query.go:202-270 | A query that the strict check accepts never meets an unbound variable, and every row binds all find variables; its rows are exactly the written-order answer. |
| `Evaluator.Engine.DeriveRelation` | go/query.go:2224-2263 | Terminates on every finite fact set and returns the inflationary fixpoint; it fails only where the next pass has no meaning or the budget is spent. |
| `Evaluator.Engine.BuildRelations` | go/query.go:2148-2200 | Success means every relation is the fixpoint over the final relations and no cycle longer than one exists; a reported cycle or missing rule is a real one. |
| `Ranking.BestIsFront` | typescript/src/search.ts:270-275 | Whatever best `limit` candidates a heap keeps, sorting them gives the front of the full ranking. |
| `Ranking.RootIsWorst` | typescript/src/search.ts:264-267 | The root of the heap is no better than any kept candidate. |
| `Ranking.BoundedRanking.SiftUp` | typescript/src/search.ts:277-294 | Restores the heap from a rising leaf and keeps its multiset. |
| `Ranking.BoundedRanking.SiftDown` | typescript/src/search.ts:296-325 | Restores the heap from a sinking root and keeps its multiset. |
| `Ranking.BoundedRanking.Add` | typescript/src/search.ts:257-268 | Offering a candidate keeps the heap the best `limit` of all offered. |
| `Ranking.BoundedRanking.Result` | typescript/src/search.ts:270-275 | Returns at most `limit` of everything offered: scores fall, equal scores have rising fact ids, and whatever is left out scores lower or equal with a greater id; truncated exactly when more was offered. |
| `Ranking.RankEntities` | typescript/src/search.ts:374-407 | Each returned candidate has the greatest score, and the least id among equals, of its entity; scores fall and equal scores have rising ids; an entity is left out only if `limit` better ones are returned; truncated exactly when some entity with a score is left out. |
| `JsonSyntax.ParseExactly` | typescript/src/jsonio.ts:45-206 | A source is accepted with a value if and only if it is white space around a legal spelling of that value: any mix of raw characters, short escapes and unicode escapes in either case, surrogates in pairs, no leading zero, no repeated key, containers within the depth limit. |
| `JsonSyntax.OneMeaning` | typescript/src/jsonio.ts:45-206 | No text spells two values. |
| `JsonSyntax.TrailingRefused` | typescript/src/jsonio.ts:45-52 | Anything but white space after a whole value is refused. |
| `JsonSyntax.LeadingZeroRefused` | typescript/src/jsonio.ts:115-133 | A number with a leading zero is refused. |
| `JsonSyntax.UnpairedRefused` | typescript/src/jsonio.ts:80-113 | After any legal characters, an escaped half of a surrogate pair without its other half is refused, whatever follows. |
| `JsonSyntax.RepeatedKeyRefused` | typescript/src/jsonio.ts:153-188 | After any legal fields, a field whose key has the text of an earlier one is refused, however the two are spelled. |
| `JsonSyntax.PrintSpells` | typescript/src/jsonio.ts:219-226 | Whatever prints within the depth limit prints as the legal spelling without white space: shortest escapes, lower-case digits, canonical decimals. |
| `JsonSyntax.PrintExactly` | typescript/src/jsonio.ts:363-418 | A value prints if and only if its numbers fit in 64 bits, its texts and keys hold no surrogates and its containers nest within the limit. |
| `JsonSyntax.PrintReturns` | typescript/src/jsonio.ts:33-206 | Whatever prints within the depth limit parses back within it to the same value. |
| `JsonSyntax.ValueReturns` | typescript/src/jsonio.ts:54-188 | The same for nested values at any depth and before any following text. |
| `JsonParser.Parser.ParseSource` | typescript/src/jsonio.ts:45-206 | The hand-written parser with its mutable index accepts exactly the legal spellings with their values, and returns the specified error for every other source text. |
| `CanonicalJson.CompareUnicode` | typescript/src/jsonio.ts:420-429 | The loop decides lexicographic code-point order, all three outcomes. |
| `CanonicalJson.Utf8KeepsOrder` | go/value.go:341-364 | Byte order of UTF-8 texts is code-point order of the texts (section 1 of RFC 3629). |
| `CanonicalJson.PrintersAgree` | typescript/src/jsonio.ts:363-418 | Byte-sorted keys and code-point-sorted keys give the same canonical text or the same error. |
| `CanonicalJson.NormalExactly` | go/value.go:341-364 | Two values have the same canonical form if and only if they are the same value at every depth, whatever the order of fields. |
| `CanonicalJson.CanonicalReturns` | go/value.go:269-400 | Canonical text parses back to the value's canonical form. |
| `CanonicalJson.CanonicalInjective` | go/value.go:269-400 | Two values have the same canonical text if and only if they are the same value, objects compared as sets of fields at every depth. |

## Left out

- Schema changes: the schema is a fixed parameter, so `finalSchemaForPlan`, `schemaForChanges`, declarations and shape validation are not modelled, nor is the mismatch between plan-time and committed schema when a superseding schema assertion is cancelled.
- Name resolution and request syntax (`planData`, `planMap`, lookups, tempids, value coercion): requests arrive resolved, as `Soundness.Resolved` describes, and plans as `Localization.UserPlan` describes.
- `Store.Transact` plans over all live rows; `Planning.PlanRequest` and `Planning.RunPlansLocally` are the bridge to the localised working set.
- SQLite, connections, savepoints, locks and I/O; row ids are never reused, and a failed step leaves the store as it was.
- Hashes and UUID derivation are injective constructors, and `nextTimestamp` is not modelled: a commit's instant is a parameter and instants need not increase.
- An event record's `by`, `source`, `meta` and `tx_facts` are kept in one list with the asserted tuples, in row order.
- Replica.StreamFollows: covers replicas that start as a mirror of the origin and take no writes of their own, so local ids coincide; a replica with other local ids is not modelled.
- Recovery.SnapshotReturns: header, digest, footer and receipt times of the stream are not modelled, so the pristine store that a stream is read into has the genesis instant of the original.
- Streams.AcceptedIsSound: leaves out that each event has its own live timestamp row, because the receipt times that a restore compares with those rows are not modelled.
- Doctor.Inspect: SQLite's integrity check, the names of system identities, declared types, shapes, tags and blob contents are not inspected; ids between the system attributes and genesis are not excluded.
- Scoping.ScopingExactly: speaks of queries without `not` and `or`, whose filtering can hide an unbound variable behind clauses that let no binding through; rules are called with one number of arguments and constants in rule arguments denote entities.
- Snapshot.FactRestored: a value's wire form is the value itself, so base64 and tagged text are not modelled.
- Undo.UndoLatest: speaks of facts about entities other than the two transactions themselves, whose receipts stay.
- Paging.PagesAreTheList: filters are predicates on datoms; cursor encoding and its argument digest are not modelled.
- Evaluator.Engine.EvalClauses: the written-order meaning has no work budget and no type test on the added position, so a run that spends its budget, or compares the added position with something other than a bool, is not compared with it; in such runs the planned order can decide which error is reported.
- Evaluator.Engine.EvalPredicate: comparison operators are one partial function of an operator name and two cells.
- Query patterns with malformed constants, lookups or `eid` selectors, aggregation, ordering, pulling and rendering of results.
- Ranking.RankEntities: scores are reals in place of floating-point cosines, and the limit is positive as its callers make it.
- JsonSyntax.ParseExactly: numbers are integers; floats are reported as unsupported, and their formatting and aggregates are not modelled. Text is a sequence of code points, so a source with raw unpaired surrogate code units is not represented.
- FTS5 tokenising, ranking and snippets; keyword and hybrid search.
- Compaction against `validateTouchedShapes`, which reads the plan before renaming, since shapes are not modelled.
- `AtInstant`, `Diff`, `Why`, `History`, `Speculate` and `Follow`: readings of the as-of view that would only add easy members.
- Command lines, the MCP servers, backup publication and embedding commands.
