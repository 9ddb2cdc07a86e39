/** The store as initialisation leaves it, from which every run starts, and a short run from there
    whose snapshot is refused. */
module Genesis {
  import opened Facts
  import opened Planner
  import opened Localization
  import opened Identities
  import opened History
  import opened Replay
  import opened Store
  import opened Soundness
  import opened Runs
  import opened Constraints
  import opened Derived
  import opened Exports
  import opened Audit
  import opened Snapshot
  import opened Retained
  import opened Recovery

  const ATTR_TYPE := 8
  const ATTR_DOC := 10

  /** The system names, by id. */
  const NAMES: seq<string> := [
    "fgraph/at", "fgraph/by", "fgraph/source", "fgraph/meta", "fgraph/many", "fgraph/unique", "fgraph/nohistory", "fgraph/type",
    "fgraph/dims", "fgraph/doc", "fgraph/excised", "fgraph/undoes", "fgraph/imported-at", "fgraph/vector-model", "fgraph/shape",
    "fgraph/shape-required", "fgraph/shape-allowed", "fgraph/shape-closed"]

  /** The id of a system name, told by its length, its first letter and its last. */
  function IdOf(name: string): int {
    var n := |name|;
    if n < 9 then 0
    else if n == 9 then if name[7] == 'a' then 1 else 2
    else if n == 10 then 10
    else if n == 11 then
      if name[7] == 't' then 8 else if name[7] == 'd' then 9 else if name[10] == 'a' then 4 else 5
    else if n == 12 then 15
    else if n == 13 then if name[7] == 's' then 3 else if name[12] == 'e' then 6 else 12
    else if n == 14 then 11
    else if n == 16 then 7
    else if n == 18 then 13
    else if n == 19 then if name[7] == 'v' then 14 else 18
    else if n == 20 then 17
    else 16
  }

  lemma NamesById(i: nat)
    requires i < 18
    ensures |NAMES| == 18 && IdOf(NAMES[i]) == i + 1
  {
    assert |NAMES| == 18;
    if i < 9 {
      assert i == 0 || i == 1 || i == 2 || i == 3 || i == 4 || i == 5 || i == 6 || i == 7 || i == 8;
    } else {
      assert i == 9 || i == 10 || i == 11 || i == 12 || i == 13 || i == 14 || i == 15 || i == 16 || i == 17;
    }
  }

  function GenesisIdentity(id: int): Identity {
    Identity(if 1 <= id <= 18 && |NAMES| == 18 then Name(NAMES[id - 1]) else Eid(Given(0)), GENESIS_TX)
  }

  function GenesisIds(): map<int, Identity> {
    map id | 1 <= id <= GENESIS_TX && (id <= LAST_SYSTEM_ATTR || id == GENESIS_TX) :: GenesisIdentity(id)
  }

  /** The rows of initialisation: its timestamp, and the type and the documentation of each system
      attribute.  The texts are given by their ranks. */
  function GenesisKey(at: int, types: seq<int>, docs: seq<int>, i: nat): Triple
    requires |types| == |docs| == 18 && i < 37
  {
    if i == 0 then Triple(GENESIS_TX, ATTR_AT, Value(TAG_INSTANT, at))
    else if i <= 18 then Triple(i, ATTR_TYPE, Value(TAG_TEXT, types[i - 1]))
    else Triple(i - 18, ATTR_DOC, Value(TAG_TEXT, docs[i - 19]))
  }

  function GenesisTable(at: int, types: seq<int>, docs: seq<int>): seq<Fact>
    requires |types| == |docs| == 18
  {
    seq(37, i requires 0 <= i < 37 => Fact(i + 1, GenesisKey(at, types, docs, i), GENESIS_TX, None))
  }

  function GenesisRecordOf(at: int): Payload {
    Changes(at, seq(18, i requires 0 <= i < 18 => GenesisIdentity(i + 1).selector), [], [])
  }

  function GenesisDb(at: int, types: seq<int>, docs: seq<int>): Db
    requires |types| == |docs| == 18
  {
    var table := GenesisTable(at, types, docs);
    Db(table, 38, GenesisIds(), FIRST_USER_ID, [Event(GENESIS_TX, Given(0), Some(GenesisRecordOf(at)), None, GenesisRecordOf(at))],
       RebuiltFts(table), RebuiltBlobs(table))
  }

  lemma GenesisSelectors()
    ensures SelectorsDistinct(GenesisIds()) && forall id :: id in GenesisIds() ==> GenesisIds()[id].selector != Name("x")
  {
    var ids := GenesisIds();
    forall i, j | i in ids && j in ids && ids[i].selector == ids[j].selector ensures i == j {
      if i <= 18 { NamesById(i - 1); }
      if j <= 18 { NamesById(j - 1); }
    }
    forall id | id in ids ensures ids[id].selector != Name("x") {
      if id <= 18 { NamesById(id - 1); }
    }
  }

  lemma GenesisRow(at: int, types: seq<int>, docs: seq<int>, i: nat)
    requires |types| == |docs| == 18 && i < 37
    ensures RowOk(GenesisDb(at, types, docs), Fact(i + 1, GenesisKey(at, types, docs, i), GENESIS_TX, None))
  {
    hide GenesisTable, RebuiltFts, RebuiltBlobs, GenesisRecordOf;
    var db := GenesisDb(at, types, docs);
    assert db.events[0] in db.events && GENESIS_TX in Txs(db.events);
  }

  lemma GenesisKeys(at: int, types: seq<int>, docs: seq<int>, i: nat, j: nat)
    requires |types| == |docs| == 18 && i < 37 && j < 37 && GenesisKey(at, types, docs, i) == GenesisKey(at, types, docs, j)
    ensures i == j
  {
  }

  lemma GenesisLive(at: int, types: seq<int>, docs: seq<int>)
    requires |types| == |docs| == 18
    ensures var table := GenesisTable(at, types, docs); LiveRows(table) && LiveOf(table) == table
  {
    hide GenesisKey;
    var table := GenesisTable(at, types, docs);
    KeepAll(table, set f | f in table && f.rx.None?);
    forall f, g | f in table && g in table && f.key == g.key ensures f == g {
      var i :| 0 <= i < 37 && table[i] == f;
      var j :| 0 <= j < 37 && table[j] == g;
      GenesisKeys(at, types, docs, i, j);
    }
  }

  lemma GenesisRows(at: int, types: seq<int>, docs: seq<int>)
    requires |types| == |docs| == 18
    ensures Rows(GenesisDb(at, types, docs)) && LiveOf(GenesisTable(at, types, docs)) == GenesisTable(at, types, docs)
  {
    hide GenesisKey, RowOk, RebuiltFts, RebuiltBlobs, GenesisRecordOf, GenesisIds;
    var db, table := GenesisDb(at, types, docs), GenesisTable(at, types, docs);
    GenesisLive(at, types, docs);
    forall f | f in table ensures RowOk(db, f) {
      var i :| 0 <= i < 37 && table[i] == f;
      GenesisRow(at, types, docs, i);
    }
  }

  lemma GenesisSound(at: int, types: seq<int>, docs: seq<int>)
    requires |types| == |docs| == 18
    ensures Sound(GenesisDb(at, types, docs))
  {
    var db, table := GenesisDb(at, types, docs), GenesisTable(at, types, docs);
    GenesisRows(at, types, docs);
    GenesisSelectors();
    assert Txs(db.events) == {GENESIS_TX} by { assert db.events[0] in db.events; }
    assert table[0] in table;
    forall f | f in table && f.key.e == GENESIS_TX ensures OwnRow(f) {
      var i :| 0 <= i < 37 && table[i] == f;
    }
  }

  lemma {:induction false} NoTimes(rows: seq<Fact>, tx: int)
    requires forall f :: f in rows ==> Exported(f)
    ensures TimeKeys(rows, tx) == []
  {
    if rows != [] { NoTimes(rows[1..], tx); }
  }

  lemma GenesisTime(at: int, types: seq<int>, docs: seq<int>)
    requires |types| == |docs| == 18
    ensures OriginTime(TimeKeys(GenesisTable(at, types, docs), GENESIS_TX)) == at
  {
    var table := GenesisTable(at, types, docs);
    forall f | f in table[1..] ensures Exported(f) {
      var i :| 0 <= i < 36 && table[1..][i] == f;
      assert f == table[i + 1];
    }
    NoTimes(table[1..], GENESIS_TX);
    assert TimeKeys(table, GENESIS_TX) == [table[0].key];
    OneTime(table[0].key);
  }

  lemma GenesisPristine(at: int, types: seq<int>, docs: seq<int>)
    requires |types| == |docs| == 18
    ensures Pristine(GenesisDb(at, types, docs))
  {
    hide Sound, TimeKeys, OriginTime, RebuiltFts, RebuiltBlobs, NAMES;
    var g := GenesisDb(at, types, docs);
    GenesisSound(at, types, docs);
    GenesisTime(at, types, docs);
    var created := g.events[0].payload.value.created;
    forall s | s in created ensures exists id :: id in g.ids && g.ids[id].selector == s {
      var i :| 0 <= i < 18 && created[i] == s;
      assert i + 1 in g.ids;
    }
    forall f | f in g.table ensures forall id :: id in Mentions(f.key) ==> id <= GENESIS_TX {
      var i :| 0 <= i < 37 && g.table[i] == f;
    }
  }

  /** Initialisation leaves a store that every theorem about runs may start from. */
  lemma GenesisStarts(at: int, types: seq<int>, docs: seq<int>, schema: Schema)
    requires |types| == |docs| == 18 && SchemaFits(schema, FIRST_USER_ID)
    ensures var g := GenesisDb(at, types, docs);
      Sound(g) && Pristine(g) && Audited(g) && Recorded(schema, g) && Valued(schema, g) && Owned(schema, g)
  {
    hide *;
    var g := GenesisDb(at, types, docs);
    GenesisSound(at, types, docs);
    GenesisPristine(at, types, docs);
    PristineAudited(g);
    PristineKeeps(schema, g);
    GenesisSchema(at, types, docs, schema);
  }

  lemma GenesisSchema(at: int, types: seq<int>, docs: seq<int>, schema: Schema)
    requires |types| == |docs| == 18 && SchemaFits(schema, FIRST_USER_ID)
    ensures var g := GenesisDb(at, types, docs); Valued(schema, g) && Owned(schema, g)
  {
    var table := GenesisTable(at, types, docs);
    forall basis ensures OneValue(schema, Keys(View(table, basis))) && OneOwner(schema, Keys(View(table, basis))) {
      forall k | k in Keys(View(table, basis)) ensures exists i :: 0 <= i < 37 && k == GenesisKey(at, types, docs, i) {
        var f :| f in View(table, basis) && f.key == k;
        AsOfRows(table, basis, f);
        var h :| h in table && h.tx <= basis && f == Shown(h, basis);
        var i :| 0 <= i < 37 && table[i] == h;
      }
    }
  }

  // ----- a run whose snapshot is refused -----

  const NO_SCHEMA := Schema({}, {}, {})

  const NOTE := Triple(FIRST_USER_ID, ATTR_DOC, Value(TAG_TEXT, 0))

  /** Creates the entity "x" with one fact. */
  const CREATION := Request([Named("x")], [Assert(NOTE)], [], true, None, None, 1, Given(1))

  function ErasureOf(n: nat): Excision {
    Excision(FIRST_USER_ID, None, None, n, Given(n))
  }

  lemma CreationPlans(g: Db)
    requires Sound(g) && g.next == FIRST_USER_ID
    ensures var rows := LiveOf(g.table);
      Plan(NO_SCHEMA, rows, CREATION.ops).Ok? && NOTE in PlannedKeys(Plan(NO_SCHEMA, rows, CREATION.ops).value.assertions)
  {
    hide Sound, Plan;
    var rows, ops := LiveOf(g.table), CREATION.ops;
    LiveRowsAll(g);
    forall f | f in rows ensures f.key.e != FIRST_USER_ID {
      SoundRow(g, f);
      LastEvent(g);
    }
    assert ops[..0] == [] && ops[..1] == ops;
    assert !RefusesAt(NO_SCHEMA, rows, ops, 0);
    PlanSucceedsExactly(NO_SCHEMA, rows, ops);
    PlanRefines(NO_SCHEMA, rows, ops);
    ApplyAllSnoc(NO_SCHEMA, Receipts(rows), Keys(rows), ops, 0);
  }

  lemma CreationResolved(g: Db)
    requires Sound(g) && g.next == FIRST_USER_ID && ATTR_DOC in g.ids
    ensures Resolved(g, CREATION)
  {
    ReceiptsAreTxs(g);
    TxsBounded(g);
  }

  lemma CreationCommits(g: Db)
    requires Sound(g) && g.next == FIRST_USER_ID && ATTR_DOC in g.ids
    requires forall id :: id in g.ids ==> g.ids[id].selector != Name("x") && g.ids[id].selector != Eid(Given(1))
    ensures Committing(NO_SCHEMA, g, CREATION, DeltaOf(NO_SCHEMA, g, CREATION))
    ensures TxOf(g, CREATION, DeltaOf(NO_SCHEMA, g, CREATION)) == 66
    ensures Committed(NO_SCHEMA, g, CREATION, DeltaOf(NO_SCHEMA, g, CREATION)).ids
         == g.ids[65 := Identity(Name("x"), 66)][66 := Identity(Eid(Given(1)), 66)]
  {
    hide Sound, Plan, Resolved, NewIdentities, SelectorsDistinct, Kept, KeptClaims;
    CreationPlans(g);
    CreationResolved(g);
    var delta := DeltaOf(NO_SCHEMA, g, CREATION);
    var mentioned := MentionedBy(PlannedList(delta.assertions));
    OneKept(g.next, mentioned);
    NewPair();
    SoundHas(g);
    hide Registry, Timeline, Rows;
    var more := map[65 := Identity(Name("x"), 66), 66 := Identity(Eid(Given(1)), 66)];
    PairDistinct(g.ids);
    assert g.ids + more == g.ids[65 := Identity(Name("x"), 66)][66 := Identity(Eid(Given(1)), 66)];
  }

  lemma NewPair()
    ensures NewIdentities(65, [Named("x")], Given(1)) == map[65 := Identity(Name("x"), 66), 66 := Identity(Eid(Given(1)), 66)]
  {
  }

  lemma PairDistinct(ids: map<int, Identity>)
    requires SelectorsDistinct(ids) && forall id :: id in ids ==> ids[id].selector != Name("x") && ids[id].selector != Eid(Given(1))
    ensures SelectorsDistinct(ids + map[65 := Identity(Name("x"), 66), 66 := Identity(Eid(Given(1)), 66)])
  {
  }

  lemma OneKept(first: int, mentioned: set<int>)
    ensures Kept(first, [Named("x")], mentioned) == [first] && KeptClaims(first, [Named("x")], mentioned) == [Named("x")]
  {
    assert [Named("x")][..0] == [];
    KeptExactly(first, [Named("x")], mentioned);
  }

  lemma CreationSteps(g: Db)
    requires Sound(g) && g.next == FIRST_USER_ID && ATTR_DOC in g.ids
    requires forall id :: id in g.ids ==> g.ids[id].selector != Name("x") && g.ids[id].selector != Eid(Given(1))
    ensures Resolved(g, CREATION)
    ensures Next(NO_SCHEMA, g, Write(CREATION)) == (Committed(NO_SCHEMA, g, CREATION, DeltaOf(NO_SCHEMA, g, CREATION)), Applied(66, Basis(g.events)))
  {
    CreationCommits(g);
    hide Sound, Resolved, Commit, Plan, SelectorsDistinct;
  }

  lemma NoteStays()
    ensures Final(65, [65], NOTE) == NOTE
  {
    assert 65 in [65] && ATTR_DOC !in [65];
    assert Position([65], 65) == 0;
  }

  lemma NoteLands(g: Db) returns (i: nat)
    requires Sound(g) && g.next == FIRST_USER_ID
    ensures var keys := KeysOf(g, CREATION, DeltaOf(NO_SCHEMA, g, CREATION)); i < |keys| && keys[i] == NOTE
  {
    hide Sound, Plan, NewKeys, Final;
    var delta := DeltaOf(NO_SCHEMA, g, CREATION);
    CreationPlans(g);
    var p :| p in delta.assertions && p.key == NOTE;
    var j :| 0 <= j < |delta.assertions| && delta.assertions[j] == p;
    OneKept(g.next, MentionedBy(PlannedList(delta.assertions)));
    NoteStays();
    NewKeysFrom(g.next, 66, 1, [], Prepare(g, delta, CREATION.claims));
    i := 1 + 0 + j;
  }

  /** The row of the fact, which the first erasure removes. */
  lemma CreationRow(g: Db)
    requires Sound(g) && g.next == FIRST_USER_ID && TxOf(g, CREATION, DeltaOf(NO_SCHEMA, g, CREATION)) == 66
    ensures 66 in RedactedTxs(Committed(NO_SCHEMA, g, CREATION, DeltaOf(NO_SCHEMA, g, CREATION)), FIRST_USER_ID)
  {
    hide Sound, Committed, DeltaOf, TxOf, KeysOf, Retired;
    var delta := DeltaOf(NO_SCHEMA, g, CREATION);
    var db, keys := Committed(NO_SCHEMA, g, CREATION, delta), KeysOf(g, CREATION, delta);
    CommitParts(NO_SCHEMA, g, CREATION, delta);
    var i := NoteLands(g);
    var row := Fresh(g.nextRow, keys, 66)[i];
    assert row in db.table && row.key == NOTE && row.tx == 66;
    assert row in Erased(db.table, FIRST_USER_ID);
  }

  lemma Erases65(db: Db, n: nat)
    requires Sound(db) && FIRST_USER_ID in db.ids && FIRST_USER_ID !in Txs(db.events) && db.next < MAX_ID
    requires forall id :: id in db.ids ==> db.ids[id].selector != Eid(Given(n))
    ensures Next(NO_SCHEMA, db, Erasure(ErasureOf(n))) == (Erase(db, ErasureOf(n)), Applied(db.next, Basis(db.events)))
    ensures Excising(db, ErasureOf(n))
  {
    hide Sound, Erase;
    assert SelectorsDistinct(db.ids) by { SoundHas(db); }
  }

  lemma NoSchemaFits()
    ensures SchemaFits(NO_SCHEMA, FIRST_USER_ID)
  {
  }

  lemma GenesisFacts(at: int, types: seq<int>, docs: seq<int>)
    requires |types| == |docs| == 18
    ensures var g := GenesisDb(at, types, docs);
      && g.next == FIRST_USER_ID && ATTR_DOC in g.ids && Txs(g.events) == {GENESIS_TX} && |g.events| == 1
      && forall id :: id in g.ids ==> g.ids[id].selector != Name("x") && forall n :: n > 0 ==> g.ids[id].selector != Eid(Given(n))
  {
    GenesisSelectors();
    var g := GenesisDb(at, types, docs);
    assert g.events[0] in g.events;
  }

  /** What the second and the third step need of the store before them. */
  ghost predicate Ready(db: Db, n: nat) {
    && FIRST_USER_ID in db.ids && FIRST_USER_ID !in Txs(db.events) && db.next < MAX_ID
    && forall id, m :: id in db.ids && m >= n ==> db.ids[id].selector != Eid(Given(m))
  }

  lemma AfterCreation(g: Db)
    requires Sound(g) && g.next == FIRST_USER_ID && ATTR_DOC in g.ids && Txs(g.events) == {GENESIS_TX}
    requires forall id :: id in g.ids ==> g.ids[id].selector != Name("x") && forall n :: n > 0 ==> g.ids[id].selector != Eid(Given(n))
    ensures Ready(Committed(NO_SCHEMA, g, CREATION, DeltaOf(NO_SCHEMA, g, CREATION)), 2)
  {
    hide Sound, Committed, Committing, DeltaOf, TxOf;
    var delta := DeltaOf(NO_SCHEMA, g, CREATION);
    CreationCommits(g);
    CommitParts(NO_SCHEMA, g, CREATION, delta);
    CommitTimeline(NO_SCHEMA, g, CREATION, delta);
  }

  lemma AfterErasure(db: Db)
    requires Excising(db, ErasureOf(2)) && Ready(db, 2) && db.next < 100
    ensures Ready(Erase(db, ErasureOf(2)), 3)
  {
    hide Sound, Erase;
    SoundHas(db);
    EraseParts(db, ErasureOf(2));
    EraseTimeline(db, ErasureOf(2));
  }

  lemma ThreeSteps(dbs: seq<Db>, steps: seq<Step>)
    requires |dbs| == 4 && |steps| == 3 && Sound(dbs[0])
    requires forall i :: 0 <= i < 3 ==> Admissible(dbs[i], steps[i]) && dbs[i + 1] == Next(NO_SCHEMA, dbs[i], steps[i]).0
    ensures IsRun(NO_SCHEMA, dbs, steps)
  {
    hide Sound, Admissible, Next;
    assert forall i :: 0 <= i < 3 ==> StepAt(NO_SCHEMA, dbs, steps, i);
  }

  lemma CreationEvent(g: Db)
    requires g.next == FIRST_USER_ID && |g.events| == 1 && TxOf(g, CREATION, DeltaOf(NO_SCHEMA, g, CREATION)) == 66
    ensures var one := Committed(NO_SCHEMA, g, CREATION, DeltaOf(NO_SCHEMA, g, CREATION));
      |one.events| == 2 && one.events[1].payload.Some? && one.events[1].tx == 66 && one.next == 67
  {
    hide Committed, DeltaOf, TxOf;
    NewRecord(NO_SCHEMA, g, CREATION, DeltaOf(NO_SCHEMA, g, CREATION));
    CommitParts(NO_SCHEMA, g, CREATION, DeltaOf(NO_SCHEMA, g, CREATION));
  }

  /** From initialisation, create an entity, excise it, and excise it again: the event that created
      it is empty and no record lists it, and the snapshot of the store is refused. */
  lemma RefusedRun(at: int, types: seq<int>, docs: seq<int>, start: Restoring)
    requires |types| == |docs| == 18 && Starts(GenesisDb(at, types, docs), start)
    ensures exists dbs: seq<Db>, steps: seq<Step> ::
      && IsRun(NO_SCHEMA, dbs, steps) && |dbs| == 4 && dbs[0] == GenesisDb(at, types, docs) && dbs[3].events != []
      && !Accounted(dbs[3].events) && Restore(NO_SCHEMA, start, TakeSnapshot(dbs[3])).Err?
  {
    hide Sound, Committed, Committing, DeltaOf, TxOf, Erase, Excising, GenesisDb, Next, Starts, Restore, TakeSnapshot, Accounted,
      Pristine, Audited, Recorded, Valued, Owned, Trailed, IsRun, RedactedTxs, Spares, Resolved, Ready;
    var g := GenesisDb(at, types, docs);
    NoSchemaFits();
    GenesisStarts(at, types, docs, NO_SCHEMA);
    GenesisFacts(at, types, docs);
    CreationCommits(g);
    CreationSteps(g);
    var delta := DeltaOf(NO_SCHEMA, g, CREATION);
    var one := Committed(NO_SCHEMA, g, CREATION, delta);
    CommitSound(NO_SCHEMA, g, CREATION, delta);
    CreationEvent(g);
    CreationRow(g);
    AfterCreation(g);
    ReadyErases(one, 2);
    var two := Erase(one, ErasureOf(2));
    EraseSound(one, ErasureOf(2));
    AfterErasure(one);
    ReadyErases(two, 3);
    var dbs, steps := [g, one, two, Erase(two, ErasureOf(3))], [Write(CREATION), Erasure(ErasureOf(2)), Erasure(ErasureOf(3))];
    ThreeSteps(dbs, steps);
    assert one.events[1] in one.events;
    PristineKeeps(NO_SCHEMA, g);
    SecondExcisionLosesAudit(NO_SCHEMA, dbs, steps, 1, 2, one.events[1]);
    SecondExcisionRefused(NO_SCHEMA, dbs, steps, 1, 2, one.events[1], start);
  }

  lemma ReadyErases(db: Db, n: nat)
    requires Sound(db) && Ready(db, n)
    ensures Next(NO_SCHEMA, db, Erasure(ErasureOf(n))) == (Erase(db, ErasureOf(n)), Applied(db.next, Basis(db.events)))
    ensures Excising(db, ErasureOf(n))
  {
    hide Sound, Erase, Next, Excising;
    Erases65(db, n);
  }
}
